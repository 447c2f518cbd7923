// The session slots of the ezgrpc2 server as a value: a table of poll entries, beside it a table of
// sessions found again by an index and a uuid, and the log of events. What every call does to them
// is a function here, and what any run of calls keeps is proved of these.
//
// The network, nghttp2 and the uuid generator are inputs: which entries are ready, what a session
// does when it is read, and which uuid a new session gets.

module SessionTable {
  import opened SessionLog

  datatype PollFd = PollFd(fd: int, readable: bool, hungUp: bool)

  // What accept and session_create come to.
  datatype Accepted = NoConnection | Connection(fd: nat, uuid: Uuid, created: bool)

  // What session_events does: for each event written, whether it is a message, and whether the
  // session is to be closed.
  datatype Behaviour = Behaviour(messages: seq<bool>, closes: bool)

  // ---- The tables as a value ----

  datatype RawTable = Table(fds: seq<PollFd>, sessions: seq<Handle>, log: seq<Event>)

  const NO_FD: PollFd := PollFd(-1, false, false)

  // The first two entries are the listening sockets, for IPv4 and IPv6.
  type Table = t: RawTable | 2 <= |t.fds| == |t.sessions| witness Table([NO_FD, NO_FD], [ZEROED, ZEROED], [])

  function Initial(maxConnections: nat, listen4: int, listen6: int): Table {
    Table([PollFd(listen4, false, false), PollFd(listen6, false, false)] + seq(maxConnections, i => NO_FD),
          seq(maxConnections + 2, i => ZEROED), [])
  }

  // get_unused_pollfd_ndx, from entry i on
  function FirstUnused(fds: seq<PollFd>, i: nat): (k: int)
    ensures k == -1 || (i <= k < |fds| && fds[k].fd == -1)
    ensures forall j | i <= j < (if k == -1 then |fds| else k) :: fds[j].fd != -1
    decreases |fds| - i
  {
    if i >= |fds| then -1 else if fds[i].fd == -1 then i else FirstUnused(fds, i + 1)
  }

  function Opened(t: Table, i: nat, fd: int, uuid: Uuid): Table
    requires i < |t.fds|
  {
    Table(t.fds[i := t.fds[i].(fd := fd)], t.sessions[i := Handle(i, uuid)], t.log + [Event(Connect, Handle(i, uuid))])
  }

  // session_add: a connection that is refused, or for which nothing can be had, leaves no trace.
  function Added(t: Table, a: Accepted): Table {
    var i := FirstUnused(t.fds, 2);
    if a.NoConnection? || i == -1 || !a.created then t else Opened(t, i, a.fd, a.uuid)
  }

  // session_free, with the poll entry given up
  function Dropped(t: Table, i: nat): Table
    requires i < |t.fds|
  {
    Table(t.fds[i := NO_FD], t.sessions[i := ZEROED], t.log + [Event(Disconnect, t.sessions[i])])
  }

  function KindOf(isMessage: bool): Kind {
    if isMessage then Message else DataLoss
  }

  // What session_events writes about a session.
  function Said(h: Handle, messages: seq<bool>): (events: seq<Event>)
    ensures |events| == |messages|
    ensures forall k | 0 <= k < |messages| ::
              events[k].h == h && events[k].kind == if messages[k] then Message else DataLoss
  {
    if messages == [] then []
    else Said(h, messages[..|messages| - 1]) + [Event(KindOf(messages[|messages| - 1]), h)]
  }

  // The body of the loop over the slots
  function Served(t: Table, i: nat, b: Behaviour): (u: Table)
    requires i < |t.fds|
    ensures |u.fds| == |t.fds|
  {
    if t.fds[i].fd != -1 && t.fds[i].hungUp then Dropped(t, i)
    else if t.fds[i].fd != -1 && t.fds[i].readable then
      var u := t.(log := t.log + Said(t.sessions[i], b.messages));
      if b.closes then Dropped(u, i) else u.(fds := u.fds[i := PollFd(u.fds[i].fd, false, false)])
    else t
  }

  // The loop over the slots from i on
  function ServedFrom(t: Table, i: nat, behaviours: nat -> Behaviour): Table
    decreases |t.fds| - i
  {
    if i >= |t.fds| then t else ServedFrom(Served(t, i, behaviours(i)), i + 1, behaviours)
  }

  function Answered(p: PollFd, readable: bool, hungUp: bool): PollFd {
    PollFd(p.fd, p.fd != -1 && readable, p.fd != -1 && hungUp)
  }

  // What poll writes: an entry without a file descriptor is never ready.
  function Readied(t: Table, turn: Turn): (u: Table)
    ensures |u.fds| == |t.fds| && u.sessions == t.sessions && u.log == t.log
    ensures forall j | 0 <= j < |t.fds| :: u.fds[j] == Answered(t.fds[j], turn.readable(j), turn.hungUp(j))
  {
    t.(fds := seq(|t.fds|, j requires 0 <= j < |t.fds| => Answered(t.fds[j], turn.readable(j), turn.hungUp(j))))
  }

  // One call of ezgrpc2_server_poll: what poll returned, and how everyone behaves.
  datatype Turn = Turn(
    ready: int,
    readable: nat -> bool,
    hungUp: nat -> bool,
    over4: Accepted,
    over6: Accepted,
    behaviours: nat -> Behaviour)

  // The connections of one listening socket
  function Welcomed(t: Table, listener: nat, a: Accepted): Table
    requires listener < 2
  {
    if t.fds[listener].readable then Added(t, a) else t
  }

  // ezgrpc2_server_poll
  function Polled(t: Table, turn: Turn): Table {
    if turn.ready <= 0 then t
    else ServedFrom(Welcomed(Welcomed(Readied(t, turn), 0, turn.over4), 1, turn.over6), 2, turn.behaviours)
  }

  function PolledAll(t: Table, turns: seq<Turn>): Table
    decreases |turns|
  {
    if turns == [] then t else PolledAll(Polled(t, turns[0]), turns[1..])
  }

  lemma {:induction false} PolledAllSnoc(t: Table, turns: seq<Turn>, turn: Turn)
    ensures PolledAll(t, turns + [turn]) == Polled(PolledAll(t, turns), turn)
    decreases |turns|
  {
    hide Polled;
    if turns == [] {
      assert (turns + [turn])[1..] == [];
    } else {
      assert (turns + [turn])[1..] == turns[1..] + [turn];
      PolledAllSnoc(Polled(t, turns[0]), turns[1..], turn);
    }
  }

  // ---- What every operation keeps ----

  // Slot i is in use exactly when its poll entry is, and then holds the handle of a connected
  // session; otherwise it is zeroed.
  ghost predicate SlotOk(t: Table, i: nat)
    requires i < |t.fds|
  {
    if i >= 2 && t.fds[i].fd != -1 then t.sessions[i].index == i && t.sessions[i] in Connected(t.log)
    else t.sessions[i] == ZEROED
  }

  ghost predicate TableOk(t: Table) {
    && (forall i {:trigger SlotOk(t, i)} | 0 <= i < |t.fds| :: SlotOk(t, i))
    && (forall h | h in Connected(t.log) :: 2 <= h.index < |t.fds| && t.sessions[h.index] == h)
    && Ordered(t.log)
    && NIL_UUID !in Used(t.log)
  }

  lemma InitialOk(maxConnections: nat, listen4: int, listen6: int)
    ensures TableOk(Initial(maxConnections, listen4, listen6))
    ensures
      var t := Initial(maxConnections, listen4, listen6);
      && |t.fds| == maxConnections + 2 && t.fds[0].fd == listen4 && t.fds[1].fd == listen6 && t.log == []
      && forall j | 2 <= j < |t.fds| :: t.fds[j].fd == -1
  {
  }

  lemma OpenKeeps(t: Table, i: nat, fd: nat, uuid: Uuid)
    requires TableOk(t) && 2 <= i < |t.fds| && t.fds[i].fd == -1
    requires uuid != NIL_UUID && uuid !in Used(t.log)
    ensures TableOk(Opened(t, i, fd, uuid))
    ensures Used(Opened(t, i, fd, uuid).log) == Used(t.log) + {uuid}
    ensures Connected(Opened(t, i, fd, uuid).log) == Connected(t.log) + {Handle(i, uuid)}
  {
    hide Connected, Used, Ordered;
    var h, u := Handle(i, uuid), Opened(t, i, fd, uuid);
    ConnectedSnoc(t.log, Event(Connect, h));
    UsedSnoc(t.log, Event(Connect, h));
    OrderedSnoc(t.log, Event(Connect, h));
    assert SlotOk(t, i);
    forall j | 0 <= j < |u.fds|
      ensures SlotOk(u, j)
    {
      assert SlotOk(t, j);
    }
  }

  lemma DropKeeps(t: Table, i: nat)
    requires TableOk(t) && 2 <= i < |t.fds| && t.fds[i].fd != -1
    ensures TableOk(Dropped(t, i)) && Used(Dropped(t, i).log) == Used(t.log)
    ensures Connected(Dropped(t, i).log) == Connected(t.log) - {t.sessions[i]}
  {
    hide Connected, Used, Ordered;
    var h, u := t.sessions[i], Dropped(t, i);
    assert SlotOk(t, i);
    ConnectedIsUsed(t.log, h);
    ConnectedSnoc(t.log, Event(Disconnect, h));
    UsedSnoc(t.log, Event(Disconnect, h));
    OrderedSnoc(t.log, Event(Disconnect, h));
    forall j | 0 <= j < |u.fds|
      ensures SlotOk(u, j)
    {
      assert SlotOk(t, j);
    }
  }

  lemma TalkKeeps(t: Table, i: nat, kind: Kind)
    requires TableOk(t) && 2 <= i < |t.fds| && t.fds[i].fd != -1
    requires kind == Message || kind == DataLoss
    ensures
      var u := t.(log := t.log + [Event(kind, t.sessions[i])]);
      TableOk(u) && Used(u.log) == Used(t.log) && Connected(u.log) == Connected(t.log)
  {
    hide Connected, Used, Ordered;
    var h := t.sessions[i];
    var u := t.(log := t.log + [Event(kind, h)]);
    assert SlotOk(t, i);
    ConnectedIsUsed(t.log, h);
    ConnectedSnoc(t.log, Event(kind, h));
    UsedSnoc(t.log, Event(kind, h));
    OrderedSnoc(t.log, Event(kind, h));
    forall j | 0 <= j < |u.fds|
      ensures SlotOk(u, j)
    {
      assert SlotOk(t, j);
    }
  }

  lemma {:induction false} SaidKeeps(t: Table, i: nat, messages: seq<bool>)
    requires TableOk(t) && 2 <= i < |t.fds| && t.fds[i].fd != -1
    ensures
      var u := t.(log := t.log + Said(t.sessions[i], messages));
      TableOk(u) && Used(u.log) == Used(t.log) && Connected(u.log) == Connected(t.log)
    decreases |messages|
  {
    hide Connected, Used, TableOk;
    if messages == [] {
      assert t.log + [] == t.log;
    } else {
      var before := messages[..|messages| - 1];
      var u := t.(log := t.log + Said(t.sessions[i], before));
      SaidKeeps(t, i, before);
      TalkKeeps(u, i, KindOf(messages[|messages| - 1]));
      assert u.log + [Event(KindOf(messages[|messages| - 1]), t.sessions[i])] == t.log + Said(t.sessions[i], messages);
    }
  }

  lemma SameDescriptorsKeep(t: Table, fds: seq<PollFd>)
    requires TableOk(t) && |fds| == |t.fds| && forall i | 0 <= i < |fds| :: fds[i].fd == t.fds[i].fd
    ensures TableOk(t.(fds := fds))
  {
    var u: Table := t.(fds := fds);
    forall j | 0 <= j < |fds|
      ensures SlotOk(u, j)
    {
      assert SlotOk(t, j);
    }
  }

  // A handle is found exactly while its session is connected; the zeroed handle, which no session
  // ever gets, is the one exception: it matches the slot of the first listening socket.
  lemma FoundMeansConnected(t: Table, h: Handle)
    requires TableOk(t) && h.index < |t.sessions|
    ensures t.sessions[h.index] == h <==> h in Connected(t.log) || h == ZEROED
    ensures ZEROED !in Connected(t.log)
  {
    assert SlotOk(t, h.index);
    assert SlotOk(t, 0);
  }

  // ---- Who is connected after a poll ----

  // Whether a session behind this entry ends here: the peer has hung up, or reading it says so.
  predicate Leaves(p: PollFd, b: Behaviour) {
    p.fd != -1 && (p.hungUp || (p.readable && b.closes))
  }

  predicate LeavesIn(turn: Turn, j: nat) {
    turn.hungUp(j) || (turn.readable(j) && turn.behaviours(j).closes)
  }

  // A new connection may come: its uuid is a new one.
  ghost predicate NewUuid(t: Table, a: Accepted) {
    a.Connection? ==> a.uuid != NIL_UUID && a.uuid !in Used(t.log)
  }

  // The session that an accepted connection becomes, if there is room for it.
  function Arrival(t: Table, a: Accepted): set<Handle> {
    var i := FirstUnused(t.fds, 2);
    if a.NoConnection? || i == -1 || !a.created then {} else {Handle(i, a.uuid)}
  }

  // A created connection gets in exactly if any slot is free.
  lemma ArrivesIfRoom(t: Table, a: Accepted)
    ensures Arrival(t, a) != {} <==> a.Connection? && a.created && exists j :: 2 <= j < |t.fds| && t.fds[j].fd == -1
    ensures forall h | h in Arrival(t, a) ::
              h.uuid == a.uuid && 2 <= h.index < |t.fds| && t.fds[h.index].fd == -1
              && forall j | 2 <= j < h.index :: t.fds[j].fd != -1
  {
  }

  lemma AddKeeps(t: Table, a: Accepted)
    requires TableOk(t) && NewUuid(t, a)
    ensures TableOk(Added(t, a))
    ensures Used(Added(t, a).log) == Used(t.log) + set h | h in Arrival(t, a) :: h.uuid
    ensures Connected(Added(t, a).log) == Connected(t.log) + Arrival(t, a)
  {
    hide Connected, Used, TableOk;
    var i := FirstUnused(t.fds, 2);
    if a.Connection? && i != -1 && a.created {
      OpenKeeps(t, i, a.fd, a.uuid);
      assert (set h | h in Arrival(t, a) :: h.uuid) == {a.uuid} by {
        assert Handle(i, a.uuid) in Arrival(t, a);
      }
    } else {
      assert Used(t.log) + {} == Used(t.log);
    }
  }

  lemma ServeKeeps(t: Table, i: nat, b: Behaviour)
    requires TableOk(t) && 2 <= i < |t.fds|
    ensures TableOk(Served(t, i, b)) && Used(Served(t, i, b).log) == Used(t.log)
    ensures Connected(Served(t, i, b).log)
            == Connected(t.log) - if Leaves(t.fds[i], b) then {t.sessions[i]} else {}
  {
    hide Connected, Used, TableOk;
    if t.fds[i].fd != -1 && t.fds[i].hungUp {
      DropKeeps(t, i);
    } else if t.fds[i].fd != -1 && t.fds[i].readable {
      var u := t.(log := t.log + Said(t.sessions[i], b.messages));
      SaidKeeps(t, i, b.messages);
      if b.closes {
        DropKeeps(u, i);
      } else {
        SameDescriptorsKeep(u, u.fds[i := PollFd(u.fds[i].fd, false, false)]);
      }
    }
  }

  // Serving a slot touches no other one.
  lemma ServeTouches(t: Table, i: nat, b: Behaviour, j: nat)
    requires i < |t.fds| && j < |t.fds| && j != i
    ensures Served(t, i, b).fds[j] == t.fds[j] && Served(t, i, b).sessions[j] == t.sessions[j]
  {
  }

  // The sessions in slots from i on that end in this round.
  ghost function Leaving(t: Table, i: nat, behaviours: nat -> Behaviour): set<Handle> {
    set j | i <= j < |t.fds| && Leaves(t.fds[j], behaviours(j)) :: t.sessions[j]
  }

  lemma LeavingFirst(t: Table, i: nat, behaviours: nat -> Behaviour)
    requires i < |t.fds|
    ensures Leaving(t, i, behaviours)
            == (if Leaves(t.fds[i], behaviours(i)) then {t.sessions[i]} else {})
               + Leaving(Served(t, i, behaviours(i)), i + 1, behaviours)
  {
    var u := Served(t, i, behaviours(i));
    forall j | i < j < |t.fds|
      ensures u.fds[j] == t.fds[j] && u.sessions[j] == t.sessions[j]
    {
      ServeTouches(t, i, behaviours(i), j);
    }
    assert Leaving(u, i + 1, behaviours) == Leaving(t, i + 1, behaviours);
  }

  lemma {:induction false} ServeAllKeeps(t: Table, i: nat, behaviours: nat -> Behaviour)
    requires TableOk(t) && 2 <= i
    ensures
      var u := ServedFrom(t, i, behaviours);
      && TableOk(u) && Used(u.log) == Used(t.log)
      && Connected(u.log) == Connected(t.log) - Leaving(t, i, behaviours)
    decreases |t.fds| - i
  {
    hide Connected, Used, TableOk, Served, Leaving, Leaves;
    if i < |t.fds| {
      ServeKeeps(t, i, behaviours(i));
      ServeAllKeeps(Served(t, i, behaviours(i)), i + 1, behaviours);
      LeavingFirst(t, i, behaviours);
    } else {
      NobodyLeaves(t, i, behaviours);
    }
  }

  lemma NobodyLeaves(t: Table, i: nat, behaviours: nat -> Behaviour)
    requires i >= |t.fds|
    ensures Leaving(t, i, behaviours) == {}
  {
  }

  // ---- What the loop over the slots writes ----

  // What is written of one slot: a disconnect if the peer has hung up; else, if the session is
  // readable, its messages, and a disconnect if it closes.
  function Written(p: PollFd, h: Handle, b: Behaviour): seq<Event> {
    (if p.fd != -1 && !p.hungUp && p.readable then Said(h, b.messages) else [])
    + if Leaves(p, b) then [Event(Disconnect, h)] else []
  }

  // The slots from i on, in their order
  function AllWritten(t: Table, i: nat, behaviours: nat -> Behaviour): seq<Event>
    decreases |t.fds| - i
  {
    if i >= |t.fds| then [] else Written(t.fds[i], t.sessions[i], behaviours(i)) + AllWritten(t, i + 1, behaviours)
  }

  lemma {:induction false} SameWritten(t: Table, u: Table, i: nat, behaviours: nat -> Behaviour)
    requires |t.fds| == |u.fds|
    requires forall j | i <= j < |t.fds| :: u.fds[j] == t.fds[j] && u.sessions[j] == t.sessions[j]
    ensures AllWritten(u, i, behaviours) == AllWritten(t, i, behaviours)
    decreases |t.fds| - i
  {
    hide Written;
    if i < |t.fds| {
      SameWritten(t, u, i + 1, behaviours);
    }
  }

  lemma ServedWrites(t: Table, i: nat, b: Behaviour)
    requires i < |t.fds|
    ensures Served(t, i, b).log == t.log + Written(t.fds[i], t.sessions[i], b)
  {
  }

  lemma {:induction false} ServedLog(t: Table, i: nat, behaviours: nat -> Behaviour)
    ensures ServedFrom(t, i, behaviours).log == t.log + AllWritten(t, i, behaviours)
    decreases |t.fds| - i
  {
    hide Served, Written;
    if i < |t.fds| {
      var u := Served(t, i, behaviours(i));
      ServedWrites(t, i, behaviours(i));
      ServedLog(u, i + 1, behaviours);
      forall j | i + 1 <= j < |t.fds|
        ensures u.fds[j] == t.fds[j] && u.sessions[j] == t.sessions[j]
      {
        ServeTouches(t, i, behaviours(i), j);
      }
      SameWritten(t, u, i + 1, behaviours);
    }
  }

  // Welcoming touches no listener and no slot in use, and makes nothing ready.
  lemma WelcomeTouches(t: Table, listener: nat, a: Accepted, j: nat)
    requires listener < 2 && j < |t.fds|
    ensures
      var u := Welcomed(t, listener, a);
      && |u.fds| == |t.fds|
      && u.fds[j].readable == t.fds[j].readable && u.fds[j].hungUp == t.fds[j].hungUp
      && (j < 2 || t.fds[j].fd != -1 ==> u.fds[j] == t.fds[j] && u.sessions[j] == t.sessions[j])
  {
  }

  function Comers(t: Table, listener: nat, a: Accepted): set<Handle>
    requires listener < 2
  {
    if t.fds[listener].readable then Arrival(t, a) else {}
  }

  lemma WelcomeKeeps(t: Table, listener: nat, a: Accepted)
    requires TableOk(t) && listener < 2 && NewUuid(t, a)
    ensures TableOk(Welcomed(t, listener, a))
    ensures Used(Welcomed(t, listener, a).log) <= Used(t.log) + if a.Connection? then {a.uuid} else {}
    ensures Connected(Welcomed(t, listener, a).log) == Connected(t.log) + Comers(t, listener, a)
  {
    hide Connected, Used, TableOk;
    if t.fds[listener].readable {
      AddKeeps(t, a);
    }
  }

  // The uuids of a poll are new ones.
  ghost predicate Fresh(t: Table, turn: Turn) {
    && NewUuid(t, turn.over4) && NewUuid(t, turn.over6)
    && (turn.over4.Connection? && turn.over6.Connection? ==> turn.over4.uuid != turn.over6.uuid)
  }

  function UuidsOf(turn: Turn): set<Uuid> {
    (if turn.over4.Connection? then {turn.over4.uuid} else {})
    + if turn.over6.Connection? then {turn.over6.uuid} else {}
  }

  // The state of a poll before its loop over the slots, and the sessions it has welcomed.
  function Opening(t: Table, turn: Turn): Table {
    Welcomed(Welcomed(Readied(t, turn), 0, turn.over4), 1, turn.over6)
  }

  function Arrivals(t: Table, turn: Turn): set<Handle> {
    Comers(Readied(t, turn), 0, turn.over4) + Comers(Welcomed(Readied(t, turn), 0, turn.over4), 1, turn.over6)
  }

  lemma OpeningKeeps(t: Table, turn: Turn)
    requires TableOk(t) && Fresh(t, turn)
    ensures TableOk(Opening(t, turn))
    ensures Used(Opening(t, turn).log) <= Used(t.log) + UuidsOf(turn)
    ensures Connected(Opening(t, turn).log) == Connected(t.log) + Arrivals(t, turn)
  {
    hide Connected, Used, TableOk, Comers, Welcomed;
    var r := Readied(t, turn);
    SameDescriptorsKeep(t, r.fds);
    WelcomeKeeps(r, 0, turn.over4);
    WelcomeKeeps(Welcomed(r, 0, turn.over4), 1, turn.over6);
  }

  lemma OpeningFresh(t: Table, turn: Turn)
    requires TableOk(t) && Fresh(t, turn)
    ensures TableOk(Readied(t, turn)) && NewUuid(Readied(t, turn), turn.over4)
    ensures NewUuid(Welcomed(Readied(t, turn), 0, turn.over4), turn.over6)
  {
    hide Connected, Used, TableOk, Comers, Welcomed;
    SameDescriptorsKeep(t, Readied(t, turn).fds);
    WelcomeKeeps(Readied(t, turn), 0, turn.over4);
  }

  lemma OpeningTouches(t: Table, turn: Turn, j: nat)
    requires 2 <= j < |t.fds|
    ensures
      var u := Opening(t, turn);
      && |u.fds| == |t.fds|
      && (Leaves(u.fds[j], turn.behaviours(j)) <==> t.fds[j].fd != -1 && LeavesIn(turn, j))
      && (t.fds[j].fd != -1 ==> u.sessions[j] == t.sessions[j])
  {
    hide Welcomed;
    var r := Readied(t, turn);
    WelcomeTouches(r, 0, turn.over4, j);
    WelcomeTouches(Welcomed(r, 0, turn.over4), 1, turn.over6, j);
  }

  // The slot of a connected session is in use, and every slot in use has one.
  lemma SlotsAreSessions(t: Table, j: nat)
    requires TableOk(t) && 2 <= j < |t.fds|
    ensures t.fds[j].fd != -1 ==> t.sessions[j] in Connected(t.log) && t.sessions[j].index == j
    ensures forall h | h in Connected(t.log) && h.index == j :: t.fds[j].fd != -1 && t.sessions[j] == h
  {
    assert SlotOk(t, j);
  }

  lemma LeavingIs(t: Table, turn: Turn)
    requires TableOk(t)
    ensures Leaving(Opening(t, turn), 2, turn.behaviours) == set h | h in Connected(t.log) && LeavesIn(turn, h.index)
  {
    hide Opening, Connected, LeavesIn, Leaves;
    var u, behaviours := Opening(t, turn), turn.behaviours;
    OpeningSize(t, turn);
    forall j | 2 <= j < |u.fds| && Leaves(u.fds[j], behaviours(j))
      ensures u.sessions[j] in Connected(t.log) && LeavesIn(turn, u.sessions[j].index)
    {
      OpeningTouches(t, turn, j);
      SlotsAreSessions(t, j);
    }
    forall h | h in Connected(t.log) && LeavesIn(turn, h.index)
      ensures 2 <= h.index < |u.fds| && Leaves(u.fds[h.index], behaviours(h.index)) && u.sessions[h.index] == h
    {
      OpeningTouches(t, turn, h.index);
      SlotsAreSessions(t, h.index);
    }
  }

  lemma OpeningSize(t: Table, turn: Turn)
    ensures |Opening(t, turn).fds| == |t.fds|
  {
  }

  // After a poll exactly those are connected who were and did not leave, and those who came; a
  // session that comes stays at least until the next poll.
  lemma PollConnects(t: Table, turn: Turn)
    requires TableOk(t) && Fresh(t, turn) && turn.ready > 0
    ensures TableOk(Polled(t, turn))
    ensures Connected(Polled(t, turn).log)
            == (set h | h in Connected(t.log) && !LeavesIn(turn, h.index)) + Arrivals(t, turn)
    ensures Used(Polled(t, turn).log) <= Used(t.log) + UuidsOf(turn)
  {
    hide Connected, Used, TableOk, Leaving, Welcomed, Comers, LeavesIn, Leaves, UuidsOf;
    OpeningKeeps(t, turn);
    ServeAllKeeps(Opening(t, turn), 2, turn.behaviours);
    LeavingIs(t, turn);
    forall h | h in Arrivals(t, turn)
      ensures h !in Connected(t.log)
    {
      ArrivalsAreNew(t, turn, h);
    }
  }

  // The events of a poll: at most two connects, of the sessions that come, and then what is written
  // of the slots that were ready, in the order of the slots.
  lemma PollLog(t: Table, turn: Turn)
    requires turn.ready > 0
    ensures
      var u := Opening(t, turn);
      && Polled(t, turn).log == u.log + AllWritten(u, 2, turn.behaviours)
      && t.log <= u.log && |u.log| == |t.log| + |Comers(Readied(t, turn), 0, turn.over4)|
                                   + |Comers(Welcomed(Readied(t, turn), 0, turn.over4), 1, turn.over6)|
      && (forall i | |t.log| <= i < |u.log| :: u.log[i].kind == Connect && u.log[i].h in Arrivals(t, turn))
  {
    hide ServedFrom, AllWritten;
    ServedLog(Opening(t, turn), 2, turn.behaviours);
    var r := Readied(t, turn);
    WelcomeLog(r, 0, turn.over4);
    WelcomeLog(Welcomed(r, 0, turn.over4), 1, turn.over6);
  }

  lemma WelcomeLog(t: Table, listener: nat, a: Accepted)
    requires listener < 2
    ensures
      var u, comers := Welcomed(t, listener, a), Comers(t, listener, a);
      && t.log <= u.log && |u.log| == |t.log| + |comers|
      && forall i | |t.log| <= i < |u.log| :: u.log[i].kind == Connect && u.log[i].h in comers
  {
  }

  lemma ArrivalsAreNew(t: Table, turn: Turn, h: Handle)
    requires Fresh(t, turn) && h in Arrivals(t, turn)
    ensures h !in Connected(t.log)
  {
    hide Connected, Used;
    assert h.uuid in UuidsOf(turn);
    if h in Connected(t.log) {
      ConnectedIsUsed(t.log, h);
    }
  }

  // ---- Who gets in ----

  function FreeSlots(t: Table): set<nat> {
    set j: nat | 2 <= j < |t.fds| && t.fds[j].fd == -1
  }

  // The connection is offered by a ready listening socket, and can be made a session.
  predicate Knocks(t: Table, turn: Turn, listener: nat, a: Accepted)
    requires listener < 2
  {
    t.fds[listener].fd != -1 && turn.readable(listener) && a.Connection? && a.created
  }

  // A connection over IPv4 gets in if there is a slot, and then one over IPv6 if there is one left;
  // nobody else does.
  lemma ArrivalsExactly(t: Table, turn: Turn)
    ensures forall h | h in Arrivals(t, turn) ::
              || (Knocks(t, turn, 0, turn.over4) && h.uuid == turn.over4.uuid)
              || (Knocks(t, turn, 1, turn.over6) && h.uuid == turn.over6.uuid)
    ensures Knocks(t, turn, 0, turn.over4) && FreeSlots(t) != {} ==>
              exists h :: h in Arrivals(t, turn) && h.uuid == turn.over4.uuid
    ensures Knocks(t, turn, 1, turn.over6) && |FreeSlots(t)| > (if Knocks(t, turn, 0, turn.over4) then 1 else 0) ==>
              exists h :: h in Arrivals(t, turn) && h.uuid == turn.over6.uuid
    ensures |Arrivals(t, turn)| <= |FreeSlots(t)|
  {
    var r := Readied(t, turn);
    var a := Welcomed(r, 0, turn.over4);
    SameFreeSlots(t, turn);
    Seat(r, 0, turn.over4);
    Seat(a, 1, turn.over6);
    assert a.fds[1].readable == r.fds[1].readable by {
      WelcomeTouches(r, 0, turn.over4, 1);
    }
  }

  lemma SameFreeSlots(t: Table, turn: Turn)
    ensures FreeSlots(Readied(t, turn)) == FreeSlots(t)
    ensures forall l: nat | l < 2 :: Readied(t, turn).fds[l].readable <==> t.fds[l].fd != -1 && turn.readable(l)
  {
  }

  // One socket's connection: it takes a slot exactly if there is one.
  lemma Seat(t: Table, listener: nat, a: Accepted)
    requires listener < 2
    ensures
      var comers := Comers(t, listener, a);
      && (forall h | h in comers :: a.Connection? && a.created && t.fds[listener].readable && h.uuid == a.uuid)
      && (t.fds[listener].readable && a.Connection? && a.created && FreeSlots(t) != {} ==>
            exists h :: h in comers && h.uuid == a.uuid)
      && |comers| <= 1 && |FreeSlots(Welcomed(t, listener, a))| == |FreeSlots(t)| - |comers|
  {
    var i := FirstUnused(t.fds, 2);
    if FreeSlots(t) != {} {
      var j :| j in FreeSlots(t);
      assert i != -1;
    }
    if t.fds[listener].readable && a.Connection? && i != -1 && a.created {
      assert Handle(i, a.uuid) in Comers(t, listener, a);
      assert FreeSlots(t) == FreeSlots(Welcomed(t, listener, a)) + {i};
    } else {
      assert Welcomed(t, listener, a) == t && Comers(t, listener, a) == {};
    }
  }

  // ---- Which descriptor a slot polls ----

  // The slot of a new session polls the accepted descriptor, and no other entry changes.
  lemma AddStores(t: Table, a: Accepted)
    ensures forall h | h in Arrival(t, a) ::
              2 <= h.index < |t.fds| && Added(t, a).fds[h.index].fd == a.fd && Added(t, a).sessions[h.index] == h
    ensures |Added(t, a).fds| == |t.fds|
    ensures forall j | 0 <= j < |t.fds| && (forall h | h in Arrival(t, a) :: h.index != j) ::
              Added(t, a).fds[j] == t.fds[j] && Added(t, a).sessions[j] == t.sessions[j]
  {
    var i := FirstUnused(t.fds, 2);
    assert a.Connection? && i != -1 && a.created ==> Handle(i, a.uuid) in Arrival(t, a);
  }

  // The descriptors that the sessions which come in a poll were accepted with.
  function Descriptors(t: Table, turn: Turn): map<Handle, int> {
    DescriptorsOf(Readied(t, turn), 0, turn.over4)
    + DescriptorsOf(Welcomed(Readied(t, turn), 0, turn.over4), 1, turn.over6)
  }

  function DescriptorsOf(t: Table, listener: nat, a: Accepted): map<Handle, int>
    requires listener < 2
  {
    map h | h in Comers(t, listener, a) :: a.fd
  }

  lemma WelcomeStores(t: Table, listener: nat, a: Accepted, h: Handle)
    requires listener < 2 && h in Comers(t, listener, a)
    ensures 2 <= h.index < |t.fds| == |Welcomed(t, listener, a).fds|
    ensures h in DescriptorsOf(t, listener, a) && Welcomed(t, listener, a).fds[h.index].fd == DescriptorsOf(t, listener, a)[h]
    ensures Welcomed(t, listener, a).fds[h.index].fd == a.fd >= 0
  {
    AddStores(t, a);
  }

  // What holds of a handle and its slot when the loop over the slots starts.
  lemma OpeningStores(t: Table, turn: Turn, h: Handle)
    requires TableOk(t) && Fresh(t, turn) && h in Arrivals(t, turn)
    ensures 2 <= h.index < |Opening(t, turn).fds|
    ensures h in Descriptors(t, turn) && Opening(t, turn).fds[h.index].fd == Descriptors(t, turn)[h]
  {
    hide Comers, Welcomed, Connected, Used, TableOk;
    var r := Readied(t, turn);
    var a := Welcomed(r, 0, turn.over4);
    if h in Comers(a, 1, turn.over6) {
      WelcomeStores(a, 1, turn.over6, h);
    } else {
      WelcomeStores(r, 0, turn.over4, h);
      WelcomeTouches(a, 1, turn.over6, h.index);
    }
  }

  lemma {:induction false} ServingStores(t: Table, i: nat, behaviours: nat -> Behaviour, j: nat)
    requires j < |t.fds| && (j >= i ==> !Leaves(t.fds[j], behaviours(j)))
    ensures |ServedFrom(t, i, behaviours).fds| == |t.fds| && ServedFrom(t, i, behaviours).fds[j].fd == t.fds[j].fd
    decreases |t.fds| - i
  {
    if i < |t.fds| {
      if j != i {
        ServeTouches(t, i, behaviours(i), j);
      }
      ServingStores(Served(t, i, behaviours(i)), i + 1, behaviours, j);
    }
  }

  lemma StayerStores(t: Table, turn: Turn, h: Handle)
    requires TableOk(t) && h in Connected(t.log) && turn.ready > 0 && !LeavesIn(turn, h.index)
    ensures 2 <= h.index < |t.fds| == |Polled(t, turn).fds| && Polled(t, turn).fds[h.index].fd == t.fds[h.index].fd
  {
    hide Welcomed, Connected, Used, LeavesIn, Leaves;
    var j, r := h.index, Readied(t, turn);
    SlotsAreSessions(t, j);
    OpeningTouches(t, turn, j);
    WelcomeTouches(r, 0, turn.over4, j);
    WelcomeTouches(Welcomed(r, 0, turn.over4), 1, turn.over6, j);
    ServingStores(Opening(t, turn), 2, turn.behaviours, j);
  }

  lemma ArrivalStores(t: Table, turn: Turn, h: Handle)
    requires TableOk(t) && Fresh(t, turn) && h in Arrivals(t, turn) && turn.ready > 0
    ensures h in Descriptors(t, turn) && 2 <= h.index < |t.fds| == |Polled(t, turn).fds|
    ensures Polled(t, turn).fds[h.index].fd == Descriptors(t, turn)[h]
  {
    hide Welcomed, Connected, Used, LeavesIn, Leaves, TableOk, Descriptors;
    OpeningSize(t, turn);
    OpeningStores(t, turn, h);
    OpeningTouches(t, turn, h.index);
    ArrivesInFreeSlot(t, turn, h);
    ServingStores(Opening(t, turn), 2, turn.behaviours, h.index);
  }

  lemma ArrivesInFreeSlot(t: Table, turn: Turn, h: Handle)
    requires h in Arrivals(t, turn)
    ensures 2 <= h.index < |t.fds| && t.fds[h.index].fd == -1
  {
    var r := Readied(t, turn);
    ArrivesIfRoom(r, turn.over4);
    ArrivesIfRoom(Welcomed(r, 0, turn.over4), turn.over6);
    if 2 <= h.index < |t.fds| {
      WelcomeTouches(r, 0, turn.over4, h.index);
    }
  }

  // The slot of every connected session polls the descriptor that `known` has for it.
  ghost predicate Polls(t: Table, known: map<Handle, int>) {
    && (forall h | h in Connected(t.log) ::
          h in known && 2 <= h.index < |t.fds| && t.fds[h.index].fd == known[h])
    && (forall h | h in known :: h.uuid in Used(t.log))
  }

  // What was known stays known, and those who come are added.
  function KnownAfter(t: Table, turn: Turn, known: map<Handle, int>): map<Handle, int> {
    if turn.ready <= 0 then known else Descriptors(t, turn) + known
  }

  // The listening sockets stay.
  lemma ListenersStay(t: Table, turn: Turn, listener: nat)
    requires listener < 2
    ensures |Polled(t, turn).fds| == |t.fds| && Polled(t, turn).fds[listener].fd == t.fds[listener].fd
  {
    hide Welcomed;
    var r := Readied(t, turn);
    WelcomeTouches(r, 0, turn.over4, listener);
    WelcomeTouches(Welcomed(r, 0, turn.over4), 1, turn.over6, listener);
    if turn.ready > 0 {
      ServingStores(Opening(t, turn), 2, turn.behaviours, listener);
    }
  }

  lemma {:induction false} RunListeners(t: Table, turns: seq<Turn>, listener: nat)
    requires listener < 2
    ensures |PolledAll(t, turns).fds| == |t.fds| && PolledAll(t, turns).fds[listener].fd == t.fds[listener].fd
    decreases |turns|
  {
    hide Polled;
    if turns != [] {
      ListenersStay(t, turns[0], listener);
      RunListeners(Polled(t, turns[0]), turns[1..], listener);
    }
  }

  lemma PollStores(t: Table, turn: Turn, known: map<Handle, int>)
    requires TableOk(t) && Fresh(t, turn) && Polls(t, known)
    ensures Polls(Polled(t, turn), KnownAfter(t, turn, known))
  {
    hide TableOk, Connected, Used, Fresh, Arrivals, Descriptors, Polled, LeavesIn;
    if turn.ready > 0 {
      PollConnects(t, turn);
      var u, after := Polled(t, turn), KnownAfter(t, turn, known);
      forall h | h in Connected(u.log)
        ensures h in after && 2 <= h.index < |u.fds| && u.fds[h.index].fd == after[h]
      {
        if h in Connected(t.log) && !LeavesIn(turn, h.index) {
          StayerStores(t, turn, h);
        } else {
          ArrivalStores(t, turn, h);
          NewcomerUnknown(t, turn, h, known);
        }
      }
      forall h | h in after
        ensures h.uuid in Used(u.log)
      {
        UsedStays(t, turn, h, known);
      }
    } else {
      assert Polled(t, turn) == t by {
        NothingReady(t, turn);
      }
    }
  }

  lemma NothingReady(t: Table, turn: Turn)
    requires turn.ready <= 0
    ensures Polled(t, turn) == t
  {
  }

  lemma NewcomerUnknown(t: Table, turn: Turn, h: Handle, known: map<Handle, int>)
    requires Fresh(t, turn) && h in Arrivals(t, turn) && forall k | k in known :: k.uuid in Used(t.log)
    ensures h !in known
  {
    hide Connected, Used;
  }

  lemma UsedStays(t: Table, turn: Turn, h: Handle, known: map<Handle, int>)
    requires TableOk(t) && Fresh(t, turn) && turn.ready > 0 && h in Descriptors(t, turn) + known
    requires forall k | k in known :: k.uuid in Used(t.log)
    ensures h.uuid in Used(Polled(t, turn).log)
  {
    hide Connected, Used, TableOk, ServedFrom, Comers, Welcomed;
    UsedGrows(t, turn);
  }

  lemma UsedGrows(t: Table, turn: Turn)
    requires TableOk(t) && Fresh(t, turn) && turn.ready > 0
    ensures Used(t.log) <= Used(Polled(t, turn).log)
    ensures forall h | h in Arrivals(t, turn) :: h.uuid in Used(Polled(t, turn).log)
  {
    hide Connected, Used, TableOk, Welcomed, Comers;
    OpeningKeeps(t, turn);
    OpeningUses(t, turn);
    ServeAllKeeps(Opening(t, turn), 2, turn.behaviours);
  }

  lemma OpeningUses(t: Table, turn: Turn)
    requires TableOk(t) && Fresh(t, turn)
    ensures Used(t.log) <= Used(Opening(t, turn).log)
    ensures forall h | h in Arrivals(t, turn) :: h.uuid in Used(Opening(t, turn).log)
  {
    hide Connected, Used, TableOk, Welcomed, Comers;
    OpeningKeeps(t, turn);
    OpeningFresh(t, turn);
    WelcomeUses(Readied(t, turn), 0, turn.over4);
    WelcomeUses(Welcomed(Readied(t, turn), 0, turn.over4), 1, turn.over6);
    forall h | h in Arrivals(t, turn)
      ensures h.uuid in Used(Opening(t, turn).log)
    {
      ConnectedIsUsed(Opening(t, turn).log, h);
    }
  }

  lemma WelcomeUses(t: Table, listener: nat, a: Accepted)
    requires listener < 2
    ensures Used(t.log) <= Used(Welcomed(t, listener, a).log)
  {
    var i := FirstUnused(t.fds, 2);
    if i != -1 && a.Connection? {
      UsedSnoc(t.log, Event(Connect, Handle(i, a.uuid)));
    }
  }

  // ---- Whole runs ----

  // Every poll of the run draws new uuids.
  ghost predicate Legal(t: Table, turns: seq<Turn>)
    decreases |turns|
  {
    turns == [] || (Fresh(t, turns[0]) && Legal(Polled(t, turns[0]), turns[1..]))
  }

  lemma {:induction false} RunOk(t: Table, turns: seq<Turn>)
    requires TableOk(t) && Legal(t, turns)
    ensures TableOk(PolledAll(t, turns))
    decreases |turns|
  {
    hide TableOk, Polled, Connected, Used, Fresh, Arrivals, UuidsOf;
    if turns != [] {
      PollOk(t, turns[0]);
      RunOk(Polled(t, turns[0]), turns[1..]);
    }
  }

  // The descriptors that the sessions of a run were accepted with.
  function KnownAll(t: Table, turns: seq<Turn>, known: map<Handle, int>): map<Handle, int>
    decreases |turns|
  {
    if turns == [] then known else KnownAll(Polled(t, turns[0]), turns[1..], KnownAfter(t, turns[0], known))
  }

  lemma {:induction false} RunPolls(t: Table, turns: seq<Turn>, known: map<Handle, int>)
    requires TableOk(t) && Legal(t, turns) && Polls(t, known)
    ensures Polls(PolledAll(t, turns), KnownAll(t, turns, known))
    decreases |turns|
  {
    hide TableOk, Polled, Connected, Used, Fresh, Arrivals, UuidsOf, Polls, KnownAfter;
    if turns != [] {
      PollOk(t, turns[0]);
      PollStores(t, turns[0], known);
      RunPolls(Polled(t, turns[0]), turns[1..], KnownAfter(t, turns[0], known));
    }
  }

  // After any run of polls the slot of every connected session polls the descriptor that the session
  // was accepted with.
  lemma RunStores(maxConnections: nat, listen4: int, listen6: int, turns: seq<Turn>, h: Handle)
    requires Legal(Initial(maxConnections, listen4, listen6), turns)
    requires h in Connected(PolledAll(Initial(maxConnections, listen4, listen6), turns).log)
    ensures
      var t, known := PolledAll(Initial(maxConnections, listen4, listen6), turns),
                      KnownAll(Initial(maxConnections, listen4, listen6), turns, map[]);
      h in known && 2 <= h.index < |t.fds| && t.fds[h.index].fd == known[h]
  {
    hide Used, Initial, Polled, TableOk, Connected;
    InitialOk(maxConnections, listen4, listen6);
    NobodyConnected(maxConnections, listen4, listen6);
    RunPolls(Initial(maxConnections, listen4, listen6), turns, map[]);
  }

  lemma NobodyConnected(maxConnections: nat, listen4: int, listen6: int)
    ensures Connected(Initial(maxConnections, listen4, listen6).log) == {}
  {
  }

  lemma PollOk(t: Table, turn: Turn)
    requires TableOk(t) && Fresh(t, turn)
    ensures TableOk(Polled(t, turn)) && Used(Polled(t, turn).log) <= Used(t.log) + UuidsOf(turn)
  {
    hide TableOk, Connected, Used, Fresh, Arrivals, UuidsOf, ServedFrom, Readied, Welcomed;
    if turn.ready > 0 {
      PollConnects(t, turn);
    }
  }

  // After any run of polls a handle is found exactly while its session is connected, also when its
  // slot has been used before; and no handle but the all-zero one is found by mistake.
  lemma RunFinds(maxConnections: nat, listen4: int, listen6: int, turns: seq<Turn>, h: Handle)
    requires Legal(Initial(maxConnections, listen4, listen6), turns)
    ensures
      var t := PolledAll(Initial(maxConnections, listen4, listen6), turns);
      && (h in Connected(t.log) ==> 2 <= h.index < |t.sessions|)
      && (h.index < |t.sessions| ==> (t.sessions[h.index] == h <==> h in Connected(t.log) || h == ZEROED))
      && ZEROED !in Connected(t.log)
  {
    hide Connected, Used, Initial, Polled;
    InitialOk(maxConnections, listen4, listen6);
    RunOk(Initial(maxConnections, listen4, listen6), turns);
    var t := PolledAll(Initial(maxConnections, listen4, listen6), turns);
    FoundMeansConnected(t, Handle(0, NIL_UUID));
    if h.index < |t.sessions| {
      FoundMeansConnected(t, h);
    }
  }

  // In the events of any run of polls, every event of a session but its connect has the connect
  // before it and no disconnect between.
  lemma RunFollowsConnect(maxConnections: nat, listen4: int, listen6: int, turns: seq<Turn>, i: nat)
    requires Legal(Initial(maxConnections, listen4, listen6), turns)
    requires i < |PolledAll(Initial(maxConnections, listen4, listen6), turns).log|
    ensures
      var log := PolledAll(Initial(maxConnections, listen4, listen6), turns).log;
      log[i].kind == Connect || exists c :: 0 <= c < i && log[c] == Event(Connect, log[i].h)
                                  && forall j | c < j < i :: log[j] != Event(Disconnect, log[i].h)
  {
    hide Connected, Used, Initial, Polled;
    InitialOk(maxConnections, listen4, listen6);
    RunOk(Initial(maxConnections, listen4, listen6), turns);
    var log := PolledAll(Initial(maxConnections, listen4, listen6), turns).log;
    if log[i].kind != Connect {
      EventsFollowConnect(log, i);
    }
  }

  // In any run of polls, a session is never heard of again after its disconnect.
  lemma RunFallsSilent(maxConnections: nat, listen4: int, listen6: int, turns: seq<Turn>, d: nat, j: nat)
    requires Legal(Initial(maxConnections, listen4, listen6), turns)
    requires d < j < |PolledAll(Initial(maxConnections, listen4, listen6), turns).log|
    requires PolledAll(Initial(maxConnections, listen4, listen6), turns).log[d].kind == Disconnect
    ensures
      var log := PolledAll(Initial(maxConnections, listen4, listen6), turns).log;
      log[j].h != log[d].h
  {
    hide Connected, Used, Initial, Polled;
    InitialOk(maxConnections, listen4, listen6);
    RunOk(Initial(maxConnections, listen4, listen6), turns);
    SilentAfterDisconnect(PolledAll(Initial(maxConnections, listen4, listen6), turns).log, d);
  }

  // The k-th poll takes its uuids from a generator that never repeats itself and never gives nil.
  ghost predicate Draws(turns: seq<Turn>, uuids: nat -> Uuid) {
    && (forall m: nat, n: nat | uuids(m) == uuids(n) :: m == n)
    && (forall n: nat :: uuids(n) != NIL_UUID)
    && (forall k: nat | k < |turns| :: turns[k].over4.Connection? ==> turns[k].over4.uuid == uuids(2 * k))
    && (forall k: nat | k < |turns| :: turns[k].over6.Connection? ==> turns[k].over6.uuid == uuids(2 * k + 1))
  }

  ghost predicate UsedBefore(used: set<Uuid>, uuids: nat -> Uuid, n: nat) {
    forall u | u in used :: exists m: nat :: m < n && u == uuids(m)
  }

  lemma DrawIsFresh(t: Table, turns: seq<Turn>, uuids: nat -> Uuid, k: nat)
    requires Draws(turns, uuids) && k < |turns| && UsedBefore(Used(t.log), uuids, 2 * k)
    ensures Fresh(t, turns[k])
    ensures UsedBefore(Used(t.log) + UuidsOf(turns[k]), uuids, 2 * (k + 1))
  {
    hide Used;
    var turn := turns[k];
    forall u | u in Used(t.log) + UuidsOf(turn)
      ensures exists m: nat :: m < 2 * (k + 1) && u == uuids(m)
    {
      if u in Used(t.log) {
        var m: nat :| m < 2 * k && u == uuids(m);
      } else {
        assert u == uuids(2 * k) || u == uuids(2 * k + 1);
      }
    }
  }

  lemma NothingUsed(maxConnections: nat, listen4: int, listen6: int)
    ensures Used(Initial(maxConnections, listen4, listen6).log) == {}
  {
  }

  lemma {:induction false} LegalSnoc(t: Table, turns: seq<Turn>, turn: Turn)
    ensures Legal(t, turns + [turn]) <==> Legal(t, turns) && Fresh(PolledAll(t, turns), turn)
    decreases |turns|
  {
    hide Polled, Fresh;
    if turns == [] {
      assert (turns + [turn])[1..] == [];
    } else {
      assert (turns + [turn])[1..] == turns[1..] + [turn];
      LegalSnoc(Polled(t, turns[0]), turns[1..], turn);
    }
  }
}
