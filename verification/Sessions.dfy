// The server with its two tables, changed in place as the functions of SessionTable.dfy say.

module Sessions {
  import opened Basics
  import opened SessionLog
  import opened SessionTable

  // ---- The server ----

  class Server {
    const fds: array<PollFd>
    const sessions: array<Handle>
    ghost var log: seq<Event>

    ghost function Value(): Table
      requires 2 <= fds.Length == sessions.Length
      reads this, fds, sessions
    {
      Table(fds[..], sessions[..], log)
    }

    ghost predicate Valid()
      reads this, fds, sessions
    {
      2 <= fds.Length == sessions.Length && TableOk(Value())
    }

    // The part of ezgrpc2_server_new that sets up the tables.
    constructor (maxConnections: nat, listen4: int, listen6: int)
      ensures Valid() && Value() == Initial(maxConnections, listen4, listen6) && fresh(fds) && fresh(sessions)
    {
      fds := new PollFd[maxConnections + 2](i =>
        if i == 0 then PollFd(listen4, false, false) else if i == 1 then PollFd(listen6, false, false) else NO_FD);
      sessions := new Handle[maxConnections + 2](_ => ZEROED);
      log := [];
      new;
      InitialOk(maxConnections, listen4, listen6);
      assert fds[..] == Initial(maxConnections, listen4, listen6).fds;
    }

    // session_find. The code asserts that the index is within the table.
    method Find(h: Handle) returns (slot: Option<nat>)
      requires Valid() && h.index < sessions.Length
      ensures slot == if h in Connected(log) || h == ZEROED then Some(h.index) else None
    {
      FoundMeansConnected(Value(), h);
      slot := if sessions[h.index] == h then Some(h.index) else None;
    }

    // get_unused_pollfd_ndx
    method UnusedSlot() returns (i: int)
      ensures i == FirstUnused(fds[..], 2)
      ensures i == -1 || (2 <= i < fds.Length && fds[i].fd == -1)
      ensures forall j | 2 <= j < (if i == -1 then fds.Length else i) :: fds[j].fd != -1
    {
      i := 2;
      while i < fds.Length
        invariant 2 <= i && FirstUnused(fds[..], 2) == FirstUnused(fds[..], i)
      {
        if fds[i].fd == -1 {
          return;
        }
        i := i + 1;
      }
      i := -1;
    }

    // session_add: false where the connection is refused or cannot be had. One that is created
    // gets in exactly if a slot is free, and then into the first.
    method Add(a: Accepted) returns (added: bool)
      requires Valid() && NewUuid(Value(), a)
      modifies this, fds, sessions
      ensures Valid() && Value() == Added(old(Value()), a)
      ensures added <==> a.Connection? && a.created && exists j :: 2 <= j < fds.Length && old(fds[j].fd) == -1
      ensures Connected(log) == Connected(old(log)) + Arrival(old(Value()), a)
      ensures forall h | h in Arrival(old(Value()), a) ::
                2 <= h.index < fds.Length && fds[h.index].fd == a.fd && sessions[h.index] == h
      ensures forall j | 0 <= j < fds.Length && (forall h | h in Arrival(old(Value()), a) :: h.index != j) ::
                fds[j] == old(fds[j]) && sessions[j] == old(sessions[j])
      ensures added <==> Arrival(old(Value()), a) != {}
    {
      hide TableOk, Connected, Used;
      AddKeeps(Value(), a);
      AddStores(Value(), a);
      if a.NoConnection? {
        return false;
      }
      var i := UnusedSlot();
      if i == -1 || !a.created {
        return false;
      }
      sessions[i] := Handle(i, a.uuid);
      log := log + [Event(Connect, Handle(i, a.uuid))];
      fds[i] := fds[i].(fd := a.fd);
      assert fds[..] == old(fds[..])[i := fds[i]] && sessions[..] == old(sessions[..])[i := sessions[i]];
      added := true;
    }

    // session_free, with the poll entry given up
    method Drop(i: nat)
      requires 2 <= i < fds.Length == sessions.Length
      modifies this, fds, sessions
      ensures Value() == Dropped(old(Value()), i)
      ensures log == old(log) + [Event(Disconnect, old(sessions[i]))]
      ensures fds[i] == NO_FD && sessions[i] == ZEROED
      ensures forall j | 0 <= j < fds.Length && j != i :: fds[j] == old(fds[j]) && sessions[j] == old(sessions[j])
    {
      log := log + [Event(Disconnect, sessions[i])];
      sessions[i] := ZEROED;
      fds[i] := NO_FD;
      assert fds[..] == old(fds[..])[i := fds[i]] && sessions[..] == old(sessions[..])[i := sessions[i]];
    }

    // What session_events writes about the session in slot i
    method Talk(i: nat, messages: seq<bool>)
      requires 2 <= i < fds.Length == sessions.Length
      modifies this`log
      ensures log == old(log) + Said(sessions[i], messages)
    {
      for k := 0 to |messages|
        invariant log == old(log) + Said(sessions[i], messages[..k])
      {
        assert messages[..k + 1][..k] == messages[..k];
        log := log + [Event(KindOf(messages[k]), sessions[i])];
      }
      assert messages[..|messages|] == messages;
    }

    // What poll writes into the entries
    method Ready(turn: Turn)
      requires 2 <= fds.Length == sessions.Length
      modifies fds
      ensures Value() == Readied(old(Value()), turn)
    {
      ghost var before := fds[..];
      for i := 0 to fds.Length
        invariant forall j | 0 <= j < i :: fds[j] == Answered(before[j], turn.readable(j), turn.hungUp(j))
        invariant forall j | i <= j < fds.Length :: fds[j] == before[j]
      {
        fds[i] := Answered(fds[i], turn.readable(i), turn.hungUp(i));
      }
      assert fds[..] == Readied(old(Value()), turn).fds;
    }

    // The body of the loop over the slots: a hang-up writes one disconnect; otherwise a readable
    // session writes its messages, and a disconnect if it is to be closed.
    method Serve(i: nat, b: Behaviour)
      requires Valid() && 2 <= i < fds.Length
      modifies this, fds, sessions
      ensures Valid() && Value() == Served(old(Value()), i, b)
      ensures Connected(log) == Connected(old(log)) - if old(Leaves(fds[i], b)) then {old(sessions[i])} else {}
      ensures log == old(log)
                     + (if old(fds[i].fd != -1 && !fds[i].hungUp && fds[i].readable) then Said(old(sessions[i]), b.messages)
                        else [])
                     + if old(Leaves(fds[i], b)) then [Event(Disconnect, old(sessions[i]))] else []
      ensures forall j | 0 <= j < fds.Length && j != i :: fds[j] == old(fds[j]) && sessions[j] == old(sessions[j])
    {
      hide Connected, Used, TableOk;
      ServeKeeps(Value(), i, b);
      if fds[i].fd != -1 && fds[i].hungUp {
        Drop(i);
        return;
      }
      if fds[i].fd != -1 && fds[i].readable {
        Talk(i, b.messages);
        if b.closes {
          Drop(i);
        } else {
          fds[i] := PollFd(fds[i].fd, false, false);
          assert fds[..] == old(fds[..])[i := fds[i]];
        }
      }
    }

    // ezgrpc2_server_poll
    method Poll(turn: Turn) returns (ready: int)
      requires Valid() && Fresh(Value(), turn)
      modifies this, fds, sessions
      ensures Valid() && ready == turn.ready && Value() == Polled(old(Value()), turn)
      ensures turn.ready <= 0 ==> Value() == old(Value())
      ensures turn.ready > 0 ==>
                Connected(log) == (set h | h in Connected(old(log)) && !LeavesIn(turn, h.index))
                                  + Arrivals(old(Value()), turn)
    {
      hide Connected, Used, TableOk, Served, ServedFrom, LeavesIn, Arrival, Added;
      ready := turn.ready;
      if ready <= 0 {
        return;
      }
      PollConnects(Value(), turn);
      OpeningFresh(Value(), turn);
      Ready(turn);
      if fds[0].readable {
        var added := Add(turn.over4);
      }
      if fds[1].readable {
        var added := Add(turn.over6);
      }
      ServeAll(turn.behaviours);
    }

    // The loop over the slots
    method ServeAll(behaviours: nat -> Behaviour)
      requires Valid()
      modifies this, fds, sessions
      ensures Valid() && Value() == ServedFrom(old(Value()), 2, behaviours)
    {
      hide Connected, Used, TableOk, Served, Leaves;
      var i := 2;
      while i < fds.Length
        invariant 2 <= i && Valid()
        invariant ServedFrom(old(Value()), 2, behaviours) == ServedFrom(Value(), i, behaviours)
      {
        Serve(i, behaviours(i));
        i := i + 1;
      }
    }
  }

  // Any run of polls with uuids from a generator: the server is where the machine says, and what
  // was proved of every legal run holds of it.
  method Run(maxConnections: nat, listen4: int, listen6: int, turns: seq<Turn>, uuids: nat -> Uuid)
    returns (server: Server)
    requires Draws(turns, uuids)
    ensures server.Valid() && server.Value() == PolledAll(Initial(maxConnections, listen4, listen6), turns)
    ensures Legal(Initial(maxConnections, listen4, listen6), turns)
  {
    hide TableOk, Connected, Used, Fresh, Polled, UuidsOf, Initial;
    server := new Server(maxConnections, listen4, listen6);
    ghost var start := server.Value();
    NothingUsed(maxConnections, listen4, listen6);
    for k := 0 to |turns|
      invariant server.Valid() && fresh(server) && fresh(server.fds) && fresh(server.sessions)
      invariant Legal(start, turns[..k]) && server.Value() == PolledAll(start, turns[..k])
      invariant UsedBefore(Used(server.log), uuids, 2 * k)
    {
      DrawIsFresh(server.Value(), turns, uuids, k);
      PollOk(server.Value(), turns[k]);
      assert turns[..k + 1] == turns[..k] + [turns[k]];
      LegalSnoc(start, turns[..k], turns[k]);
      PolledAllSnoc(start, turns[..k], turns[k]);
      var ready := server.Poll(turns[k]);
    }
    assert turns[..|turns|] == turns;
  }
}
