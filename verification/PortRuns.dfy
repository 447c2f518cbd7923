// Whole runs of a port: any sequence of calls by any threads, and of the kernel's part in their
// waits, with any answers. What is proved of every run here holds of the port that SocketPort.dfy
// changes in place, whose every operation is proved to be a step of this machine.

module PortRuns {
  import opened Basics
  import opened EpollEvents
  import opened PollGroups
  import opened PortState
  import opened PortWalk

  const INVALID_SOCKET: Socket := 0xffff_ffff_ffff_ffff

  datatype Outcome = Done | Failed | AssertionFails

  predicate ValidHandle(socket: Socket) {
    socket != 0 && socket != INVALID_SOCKET
  }

  // The checks of sock_new in the order they are made.
  function AddOutcome(socket: Socket, baseOk: bool, exhausted: bool, open: bool, deviceAvailable: bool,
                      allocOk: bool, registered: bool): Outcome {
    if !ValidHandle(socket) || !baseOk then Failed
    else if exhausted && !open then AssertionFails
    else if exhausted && !deviceAvailable then Failed
    else if !allocOk || registered then Failed
    else Done
  }

  // ---- The machine ----

  // One thing that happens to a port: a call by some thread, or the kernel's part in a wait, which
  // picks some of the requests it holds.
  datatype Op =
    | Add(socket: Socket, ev: Event, baseOk: bool, deviceAvailable: bool, allocOk: bool)
    | Mod(socket: Socket, ev: Event)
    | Del(socket: Socket, cancelOk: bool)
    | Enter(t: Tid)
    | Take(t: Tid, pick: map<SockState, Mask> -> seq<SockState>)
    | Return(t: Tid, success: bool, cs: seq<Completion>, due: bool)
    | CloseIt

  // With the kernel's answers to the walk over the update queue, and to a second one.
  datatype Happening = Happening(op: Op, answers: Answers, later: Answers)

  // `made` is the memory that an Add has been given.
  datatype Turn = Turn(what: Happening, made: Option<SockState>)

  // The port with its number of poll groups, and every event reported so far.
  datatype Snap = Snap(p: Port, open: bool, groups: nat, told: seq<Event>)

  const FRESH: Snap := Snap(Port(map[], [], [], map[], {}, map[], map[], false), true, 0, [])

  // No poll group has room.
  predicate Full(x: Snap) {
    |x.p.socks| == MAX_GROUP_SIZE * x.groups
  }

  function OutcomeOf(x: Snap, op: Op): Outcome
    requires op.Add?
  {
    AddOutcome(op.socket, op.baseOk, Full(x), x.open, op.deviceAvailable, op.allocOk, op.socket in x.p.tree)
  }

  // A group is made, and stays even if the socket cannot be had after all.
  predicate MakesGroup(x: Snap, op: Op)
    requires op.Add?
  {
    ValidHandle(op.socket) && op.baseOk && Full(x) && x.open && op.deviceAvailable
  }

  // Memory given to a new socket is not in use.
  predicate Enabled(x: Snap, e: Turn) {
    && (e.made.Some? <==> e.what.op.Add? && OutcomeOf(x, e.what.op) == Done)
    && (e.made.Some? ==>
          e.made.value.socket == e.what.op.socket && e.made.value !in x.p.socks && e.made.value !in x.p.freed)
  }

  // port__ctl_add once it has the memory
  function Added(p: Port, s: SockState, ev: Event, answers: Answers): Port {
    UpdatedIfPolling(Interested(Registered(p, s), s, ev), answers)
  }

  // The registered socket k, if there is one.
  predicate Known(p: Port, k: Socket) {
    k in p.tree && p.tree[k] in p.socks
  }

  // port__ctl_mod
  function Modified(p: Port, k: Socket, ev: Event, answers: Answers): Port {
    if Known(p, k) then UpdatedIfPolling(Interested(p, p.tree[k], ev), answers) else p
  }

  // port__ctl_del
  function Removed(p: Port, k: Socket, cancelOk: bool): Port {
    if Known(p, k) then Deleted(p, p.tree[k], false, cancelOk) else p
  }

  function Took(p: Port, t: Tid, batch: seq<SockState>): Port {
    if CanTake(p, t, batch) then p.(batches := p.batches[t := batch]) else p
  }

  // A wait that failed or timed out has nothing to hand over.
  predicate CanReturn(p: Port, t: Tid, success: bool, cs: seq<Completion>) {
    t in p.batches && |cs| == |p.batches[t]| && (success || p.batches[t] == [])
  }

  // An op that no thread or kernel could bring about now is passed over.
  function Step(x: Snap, e: Turn): Snap {
    var Happening(op, answers, later) := e.what;
    match op
    case Add(socket, ev, _, _, _) =>
      x.(groups := x.groups + if MakesGroup(x, op) then 1 else 0,
         p := if e.made.Some? then Added(x.p, e.made.value, ev, answers) else x.p)
    case Mod(socket, ev) => x.(p := Modified(x.p, socket, ev, answers))
    case Del(socket, cancelOk) => x.(p := Removed(x.p, socket, cancelOk))
    case Enter(t) => if t in x.p.batches then x else x.(p := Waiting(x.p, t, answers, later))
    case Take(t, pick) => x.(p := Took(x.p, t, pick(x.p.inflight)))
    case Return(t, success, cs, due) =>
      if CanReturn(x.p, t, success, cs) then
        x.(p := Returned(x.p, t, success, cs, due, answers, later), told := x.told + Left(x.p, t, cs).1)
      else x
    case CloseIt => x.(open := false)
  }

  predicate Legal(x: Snap, run: seq<Turn>)
    decreases |run|
  {
    run == [] || (Enabled(x, run[0]) && Legal(Step(x, run[0]), run[1..]))
  }

  function After(x: Snap, run: seq<Turn>): Snap
    decreases |run|
  {
    if run == [] then x else After(Step(x, run[0]), run[1..])
  }

  lemma {:induction false} RunSnoc(x: Snap, run: seq<Turn>, e: Turn)
    ensures Legal(x, run + [e]) <==> Legal(x, run) && Enabled(After(x, run), e)
    ensures After(x, run + [e]) == Step(After(x, run), e)
    decreases |run|
  {
    hide Enabled, Step;
    if run == [] {
      assert (run + [e])[1..] == [];
    } else {
      assert (run + [e])[1..] == run[1..] + [e];
      RunSnoc(Step(x, run[0]), run[1..], e);
    }
  }

  lemma RemovedTree(p: Port, k: Socket, cancelOk: bool)
    requires Lawful(p, LockFree) && k in p.tree
    ensures Known(p, k) && Removed(p, k, cancelOk).tree == p.tree - {k}
  {
    hide Deleted;
    LockedToo(p);
    TreeSocket(p, k);
    DeletedKeeps(p, p.tree[k], false, cancelOk);
  }

  lemma RemovedRecord(p: Port, k: Socket, cancelOk: bool)
    requires Lawful(p, LockFree) && k in p.tree
    ensures Known(p, k) && Unwanted(p, Removed(p, k, cancelOk), p.tree[k], cancelOk)
    ensures p.socks[p.tree[k]].status == Idle <==> p.tree[k] !in Removed(p, k, cancelOk).socks
  {
    hide Deleted, Unwanted;
    LockedToo(p);
    TreeSocket(p, k);
    DeletedKeeps(p, p.tree[k], false, cancelOk);
  }

  // ---- One step ----

  // The sockets that a step takes out of the tree: deleted by the user, unknown to the kernel in
  // one of the walks, or reported closed.
  function Gone(x: Snap, e: Turn): set<SockState> {
    var Happening(op, answers, later) := e.what;
    match op
    case Add(socket, ev, _, _, _) =>
      if e.made.None? then {}
      else RefusedIfPolling(Interested(Registered(x.p, e.made.value), e.made.value, ev), answers)
    case Mod(socket, ev) =>
      if Known(x.p, socket) then RefusedIfPolling(Interested(x.p, x.p.tree[socket], ev), answers) else {}
    case Del(socket, _) => if Known(x.p, socket) then {x.p.tree[socket]} else {}
    case Enter(t) => if t in x.p.batches then {} else RefusedWaiting(x.p, t, answers, later)
    case Take(_, _) => {}
    case Return(t, success, cs, due) =>
      if CanReturn(x.p, t, success, cs) then
        ClosedBy(x.p.batches[t], cs) + RefusedReturning(x.p, t, success, cs, due, answers, later)
      else {}
    case CloseIt => {}
  }

  // The sockets whose interest a step ends: those with EPOLLONESHOT that it reports.
  function Muted(x: Snap, e: Turn): set<SockState> {
    match e.what.op
    case Return(t, success, cs, due) =>
      if CanReturn(x.p, t, success, cs) then
        Silenced(x.p.(batches := x.p.batches - {t}), x.p.batches[t], cs)
      else {}
    case _ => {}
  }

  // The port once the user's request is noted, before any walk or batch.
  function Noted(x: Snap, e: Turn): Port {
    match e.what.op
    case Add(_, ev, _, _, _) =>
      if e.made.Some? then Interested(Registered(x.p, e.made.value), e.made.value, ev) else x.p
    case Mod(socket, ev) => if Known(x.p, socket) then Interested(x.p, x.p.tree[socket], ev) else x.p
    case _ => x.p
  }

  function Newcomer(e: Turn): set<SockState> {
    if e.made.Some? then {e.made.value} else {}
  }

  ghost predicate Good(x: Snap) {
    && Lawful(x.p, LockFree)
    && |x.p.socks| <= MAX_GROUP_SIZE * x.groups
    && (forall e | e in x.told :: e.events != {})
  }

  // A step takes exactly the sockets in Gone out of the tree, and changes no interest but the one
  // the user speaks of and those in Muted.
  ghost predicate StepExact(x: Snap, e: Turn) {
    && Keeps(Noted(x, e), Step(x, e).p, Gone(x, e), Muted(x, e))
    && Lawful(Step(x, e).p, LockFree)
  }

  lemma AddExact(x: Snap, e: Turn)
    requires Good(x) && Enabled(x, e) && e.what.op.Add?
    ensures StepExact(x, e)
  {
    hide Lawful, Keeps, Interested, Registered, UpdatedIfPolling, RefusedIfPolling;
    LockedToo(x.p);
    if e.made.Some? {
      AddLawful(x.p, e.made.value, e.what.op.ev);
      UpdatedIfPollingKeeps(Noted(x, e), e.what.answers);
    } else {
      NothingChanges(x.p, x.p);
    }
  }

  lemma ModExact(x: Snap, e: Turn)
    requires Good(x) && e.what.op.Mod?
    ensures StepExact(x, e)
  {
    hide Lawful, Keeps, Interested, UpdatedIfPolling, RefusedIfPolling;
    LockedToo(x.p);
    if Known(x.p, e.what.op.socket) {
      ModLawful(x.p, e.what.op.socket, e.what.op.ev);
      UpdatedIfPollingKeeps(Noted(x, e), e.what.answers);
    } else {
      NothingChanges(x.p, x.p);
    }
  }

  lemma DelExact(x: Snap, e: Turn)
    requires Good(x) && e.what.op.Del?
    ensures StepExact(x, e)
  {
    hide Keeps, Deleted, Core, Settled;
    if Known(x.p, e.what.op.socket) {
      var s := x.p.tree[e.what.op.socket];
      LockedToo(x.p);
      DelLawful(x.p, e.what.op.socket, e.what.op.cancelOk);
      TreeSocket(x.p, e.what.op.socket);
      DeletedStays(x.p, s, false, e.what.op.cancelOk);
    } else {
      NothingChanges(x.p, x.p);
    }
  }

  lemma WaitExact(x: Snap, e: Turn)
    requires Good(x) && !e.what.op.Add? && !e.what.op.Mod? && !e.what.op.Del?
    ensures StepExact(x, e)
  {
    hide Lawful, Keeps, Waiting, Returned, Left, CanTake, RefusedWaiting, RefusedReturning, ClosedBy, Silenced;
    LockedToo(x.p);
    NothingChanges(x.p, x.p);
    match e.what.op
    case Enter(t) =>
      if t !in x.p.batches {
        WaitingKeeps(x.p, t, e.what.answers, e.what.later);
      }
    case Take(t, pick) =>
      var batch := pick(x.p.inflight);
      if CanTake(x.p, t, batch) {
        TakeLawful(x.p, t, batch, LockFree);
        NothingChanges(x.p, Took(x.p, t, batch));
      }
    case Return(t, success, cs, due) =>
      if CanReturn(x.p, t, success, cs) {
        ReturnedKeeps(x.p, t, success, cs, due, e.what.answers, e.what.later);
      }
    case CloseIt =>
  }

  lemma ExactStep(x: Snap, e: Turn)
    requires Good(x) && Enabled(x, e)
    ensures StepExact(x, e)
  {
    hide Good, Enabled, StepExact;
    match e.what.op
    case Add(_, _, _, _, _) => AddExact(x, e);
    case Mod(_, _) => ModExact(x, e);
    case Del(_, _) => DelExact(x, e);
    case _ => WaitExact(x, e);
  }

  lemma InterestedIs(p: Port, s: SockState, ev: Event)
    requires s in p.socks
    ensures
      var q := Interested(p, s, ev);
      && q.tree == p.tree && q.freed == p.freed
      && q.socks == p.socks[s := p.socks[s].(data := ev.data, user := Wanted(ev.events))]
  {
    hide Wanted, Missing;
  }

  // The socket that the user speaks of in a step.
  function Spoken(x: Snap, e: Turn): set<SockState> {
    match e.what.op
    case Add(_, _, _, _, _) => Newcomer(e)
    case Mod(socket, _) => if Known(x.p, socket) then {x.p.tree[socket]} else {}
    case _ => {}
  }

  // What noting the request comes to: the newcomer is registered, and the socket spoken of has
  // the asked interest.
  lemma NotedIs(x: Snap, e: Turn)
    requires Enabled(x, e)
    ensures
      var n := Noted(x, e);
      && n.tree == (if e.made.Some? then x.p.tree[e.what.op.socket := e.made.value] else x.p.tree)
      && n.socks.Keys == x.p.socks.Keys + Newcomer(e) && n.freed == x.p.freed
      && (forall s | s in x.p.socks && s !in Spoken(x, e) :: n.socks[s] == x.p.socks[s])
      && (forall s | s in Spoken(x, e) ::
            s in n.socks && n.socks[s].data == e.what.op.ev.data && n.socks[s].user == Wanted(e.what.op.ev.events))
  {
    hide Wanted, Interested, OutcomeOf;
    if e.made.Some? {
      InterestedIs(Registered(x.p, e.made.value), e.made.value, e.what.op.ev);
    } else if e.what.op.Mod? && Known(x.p, e.what.op.socket) {
      InterestedIs(x.p, x.p.tree[e.what.op.socket], e.what.op.ev);
    }
  }

  lemma ToldStep(x: Snap, e: Turn)
    requires Good(x)
    ensures forall v | v in Step(x, e).told :: v.events != {}
  {
    hide Lawful, Left, Returned, Added, Modified, Removed, Waiting, Took;
    if e.what.op.Return? && CanReturn(x.p, e.what.op.t, e.what.op.success, e.what.op.cs) {
      LeftReports(x.p, e.what.op.t, e.what.op.cs);
    }
  }

  lemma SizeStep(x: Snap, e: Turn)
    requires Good(x) && Enabled(x, e)
    ensures |Step(x, e).p.socks| <= |x.p.socks| + |Newcomer(e)|
  {
    hide Good, Enabled, Step, Lawful, Noted, Gone, Muted, Spoken, Newcomer;
    ExactStep(x, e);
    NotedIs(x, e);
    var q := Step(x, e).p;
    SubsetSize(q.socks.Keys, x.p.socks.Keys + Newcomer(e));
  }

  lemma RoomStep(x: Snap, e: Turn)
    requires Good(x) && Enabled(x, e)
    ensures |Step(x, e).p.socks| <= MAX_GROUP_SIZE * Step(x, e).groups
  {
    hide Lawful, Returned, Left, Added, Modified, Removed, Waiting, Took;
    SizeStep(x, e);
  }

  lemma GoodStep(x: Snap, e: Turn)
    requires Good(x) && Enabled(x, e)
    ensures Good(Step(x, e))
  {
    hide Enabled, Step, Lawful, Keeps;
    ExactStep(x, e);
    ToldStep(x, e);
    RoomStep(x, e);
  }

  lemma FreshIsGood()
    ensures Good(FRESH)
  {
  }

  lemma {:induction false} RunGood(x: Snap, run: seq<Turn>)
    requires Good(x) && Legal(x, run)
    ensures Good(After(x, run))
    decreases |run|
  {
    hide Good, Step, Enabled;
    if run != [] {
      GoodStep(x, run[0]);
      RunGood(Step(x, run[0]), run[1..]);
    }
  }

  // ---- What every run keeps ----

  // Whatever happens, interest is not lost: a registered socket without a request is queued, and
  // one outside the queue is covered by its request or waits for the end of a cancelled one.
  lemma RunCoversInterest(run: seq<Turn>, k: Socket)
    requires Legal(FRESH, run) && k in After(FRESH, run).p.tree
    ensures
      var p := After(FRESH, run).p;
      var s := p.tree[k];
      && s in p.socks && s.socket == k
      && (p.socks[s].status == Idle ==> s in p.updates)
      && (p.socks[s].status == Pending && s !in p.updates ==>
            s in p.inflight && ToAfd(p.socks[s].user) <= p.inflight[s])
      && (p.updates == [] ==> s in p.inflight)
  {
    hide ToAfd, Step, Enabled;
    FreshIsGood();
    RunGood(FRESH, run);
    InterestIsCovered(After(FRESH, run).p, k);
    TreeSocket(After(FRESH, run).p, k);
  }

  // While a thread waits, and the last walk did not fail, every registered socket has a request
  // with the kernel: one that covers its interest, or one cancelled and still to complete.
  lemma RunWatches(run: seq<Turn>, k: Socket)
    requires Legal(FRESH, run) && k in After(FRESH, run).p.tree
    requires After(FRESH, run).p.batches != map[] && !After(FRESH, run).p.updateFailed
    ensures
      var p := After(FRESH, run).p;
      var s := p.tree[k];
      && s in p.inflight && s in p.socks
      && (p.socks[s].status == Cancelled || ToAfd(p.socks[s].user) <= p.inflight[s])
  {
    hide ToAfd, Step, Enabled;
    FreshIsGood();
    RunGood(FRESH, run);
    EverySocketIsWatched(After(FRESH, run).p, k);
    TreeSocket(After(FRESH, run).p, k);
  }

  // One request at most for each socket, exactly while its status is not idle; it is registered or
  // awaits its end, never both; and freed memory is in no structure of the port.
  lemma RunPlacesSockets(run: seq<Turn>, s: SockState)
    requires Legal(FRESH, run)
    ensures
      var p := After(FRESH, run).p;
      && (s in p.socks ==>
            && (s in p.inflight <==> p.socks[s].status != Idle)
            && (s in p.deleted <==> forall k | k in p.tree :: p.tree[k] != s)
            && !(s in p.updates && s in p.deleted) && (s in p.deleted ==> s in p.inflight))
      && (s in p.freed ==>
            && s !in p.socks && s !in p.updates && s !in p.deleted && s !in p.inflight
            && (forall k | k in p.tree :: p.tree[k] != s) && (forall t | t in p.batches :: s !in p.batches[t]))
  {
    hide ToAfd, Step, Enabled, Core, Settled;
    FreshIsGood();
    RunGood(FRESH, run);
    if s in After(FRESH, run).p.socks {
      Lifecycle(After(FRESH, run).p, s);
    }
  }

  // ---- What is reported ----

  // In this step the user was told v: it is about a registered socket of the thread's batch, with
  // its data, not empty, and exactly what the completion brings of what the socket asked for.
  ghost predicate ToldBy(x: Snap, e: Turn, v: Event) {
    && e.what.op.Return? && CanReturn(x.p, e.what.op.t, e.what.op.success, e.what.op.cs)
    && Backed(x.p, x.p.batches[e.what.op.t], e.what.op.cs, v)
  }

  lemma ToldOnce(x: Snap, e: Turn, i: nat)
    requires Good(x) && |x.told| <= i < |Step(x, e).told|
    ensures ToldBy(x, e, Step(x, e).told[i])
  {
    hide Lawful, Left, Returned, Added, Modified, Removed, Waiting, Took, Backed;
    LeftBacked(x.p, e.what.op.t, e.what.op.cs, Step(x, e).told[i]);
  }

  // Nothing is left out: what a completion of the batch brings of what its registered socket wants is
  // told in the step that returns with it.
  lemma StepTells(x: Snap, e: Turn, i: nat, event: nat)
    requires Good(x) && e.what.op.Return? && CanReturn(x.p, e.what.op.t, e.what.op.success, e.what.op.cs)
    requires i < |e.what.op.cs|
    requires var s, c := x.p.batches[e.what.op.t][i], e.what.op.cs[i];
      s in x.p.socks && Present(x.p, s) && !LocalClose(c) && event in x.p.socks[s].user && Brought(c, event)
    ensures exists v | v in Step(x, e).told[|x.told|..] :: Tells(x.p, x.p.batches[e.what.op.t][i], e.what.op.cs[i], v)
  {
    hide Lawful, Left, Returned, LocalClose, Brought;
    LeftTells(x.p, e.what.op.t, e.what.op.cs, i, event);
    assert Step(x, e).told[|x.told|..] == Left(x.p, e.what.op.t, e.what.op.cs).1;
  }

  lemma ToldGrows(x: Snap, e: Turn)
    ensures x.told <= Step(x, e).told
  {
    hide Left, Returned, Added, Modified, Removed, Waiting, Took;
  }

  lemma {:induction false} AllToldGrows(x: Snap, run: seq<Turn>)
    ensures x.told <= After(x, run).told
    decreases |run|
  {
    hide Step;
    if run != [] {
      ToldGrows(x, run[0]);
      AllToldGrows(Step(x, run[0]), run[1..]);
    }
  }

  // Every event reported in a run was so in one step of it, as ToldBy says.
  lemma {:induction false} RunReports(x: Snap, run: seq<Turn>, i: nat) returns (j: nat)
    requires Good(x) && Legal(x, run) && |x.told| <= i < |After(x, run).told|
    ensures j < |run| && ToldBy(After(x, run[..j]), run[j], After(x, run).told[i])
    decreases |run|
  {
    hide Good, Step, Enabled, ToldBy;
    var y := Step(x, run[0]);
    GoodStep(x, run[0]);
    AllToldGrows(y, run[1..]);
    if i < |y.told| {
      ToldOnce(x, run[0], i);
      assert run[..0] == [];
      j := 0;
    } else {
      var k := RunReports(y, run[1..], i);
      j := k + 1;
      assert run[..j][0] == run[0] && run[..j][1..] == run[1..][..k];
    }
  }

  // ---- No request is lost ----

  // The step hands a completion of s over to the thread that took it.
  predicate Returns(x: Snap, e: Turn, s: SockState) {
    && e.what.op.Return? && CanReturn(x.p, e.what.op.t, e.what.op.success, e.what.op.cs)
    && s in x.p.batches[e.what.op.t]
  }

  // No operation loses the request of a socket: it is in flight until a thread returns with its
  // completion.
  lemma StepKeepsRequests(x: Snap, e: Turn, s: SockState)
    requires Good(x) && Enabled(x, e) && s in x.p.inflight
    ensures s in Step(x, e).p.inflight || Returns(x, e, s)
  {
    hide Keeps, Lawful, Interested, Registered, Waiting, Returned, UpdatedIfPolling, Deleted, CanTake;
    LockedToo(x.p);
    match e.what.op
    case Add(_, ev, _, _, _) =>
      if e.made.Some? {
        NotedRequests(x, e);
        AddLawful(x.p, e.made.value, ev);
        UpdatedIfPollingKeeps(Noted(x, e), e.what.answers);
      }
    case Mod(k, ev) =>
      if Known(x.p, k) {
        NotedRequests(x, e);
        ModLawful(x.p, k, ev);
        UpdatedIfPollingKeeps(Noted(x, e), e.what.answers);
      }
    case Del(k, cancelOk) =>
      if Known(x.p, k) {
        RemovedRequests(x.p, k, cancelOk);
      }
    case Enter(t) =>
      if t !in x.p.batches {
        WaitingKeeps(x.p, t, e.what.answers, e.what.later);
      }
    case Return(t, success, cs, due) =>
      if CanReturn(x.p, t, success, cs) {
        ReturnedKeeps(x.p, t, success, cs, due, e.what.answers, e.what.later);
      }
    case _ =>
  }

  lemma NotedRequests(x: Snap, e: Turn)
    ensures Noted(x, e).inflight == x.p.inflight
  {
    hide Wanted, Missing;
  }

  lemma RemovedRequests(p: Port, k: Socket, cancelOk: bool)
    requires Lawful(p, LockFree) && Known(p, k)
    ensures Removed(p, k, cancelOk).inflight == p.inflight
  {
    hide Deleted;
    DeletedKeeps(p, p.tree[k], false, cancelOk);
  }

  // No step of the run returns with the completion of s.
  predicate Outstanding(x: Snap, run: seq<Turn>, s: SockState)
    decreases |run|
  {
    run == [] || (!Returns(x, run[0], s) && Outstanding(Step(x, run[0]), run[1..], s))
  }

  // A request that the kernel has accepted is with it, and the memory it points to is not freed,
  // until a thread returns with the completion.
  lemma {:induction false} RunKeepsRequests(x: Snap, run: seq<Turn>, s: SockState)
    requires Good(x) && Legal(x, run) && s in x.p.inflight && Outstanding(x, run, s)
    ensures
      var p := After(x, run).p;
      s in p.inflight && s in p.socks && s !in p.freed && p.socks[s].status != Idle
    decreases |run|
  {
    hide Good, Step, Enabled, Returns;
    if run == [] {
      RequestHasSocket(x, s);
    } else {
      GoodStep(x, run[0]);
      StepKeepsRequests(x, run[0], s);
      RunKeepsRequests(Step(x, run[0]), run[1..], s);
    }
  }

  lemma RequestHasSocket(x: Snap, s: SockState)
    requires Good(x) && s in x.p.inflight
    ensures s in x.p.socks && s !in x.p.freed && x.p.socks[s].status != Idle
  {
    hide ToAfd;
    Lifecycle(x.p, s);
  }

  // ---- A deleted socket has its request cancelled ----

  // The step deletes the registered socket s, and its request can be cancelled.
  predicate Deletes(x: Snap, e: Turn, s: SockState) {
    e.what.op.Del? && e.what.op.cancelOk && Known(x.p, e.what.op.socket) && x.p.tree[e.what.op.socket] == s
  }

  lemma StepCancels(x: Snap, e: Turn, s: SockState)
    requires Good(x) && Deletes(x, e, s) && x.p.socks[s].status != Idle
    ensures s in Step(x, e).p.socks && s in Step(x, e).p.inflight
    ensures
      var r := Step(x, e).p.socks[s];
      r.deletePending && r.status == Cancelled && r.pending == {}
  {
    hide Deleted, Core, Settled;
    LockedToo(x.p);
    TreeSocket(x.p, e.what.op.socket);
    DelLawful(x.p, e.what.op.socket, true);
    DeletedKeeps(x.p, s, false, true);
    Lifecycle(x.p, s);
    CancelledHasNothingPending(x.p, s);
  }

  lemma CancelledHasNothingPending(p: Port, s: SockState)
    requires Inv(p) && s in p.socks
    ensures p.socks[s].status == Cancelled ==> p.socks[s].pending == {}
  {
    assert Core(p, s);
  }

  lemma DoomedStep(x: Snap, e: Turn, s: SockState, r: Sock)
    requires Good(x) && Enabled(x, e) && Doomed(x.p, s, r) && !Returns(x, e, s)
    ensures Doomed(Step(x, e).p, s, r)
  {
    hide Keeps, Lawful, Waiting, Returned, UpdatedAll, Deleted, CanTake, Interested, Left;
    LockedToo(x.p);
    match e.what.op
    case Add(_, ev, _, _, _) =>
      if e.made.Some? {
        NotedDoomed(x, e, s, r);
        AddLawful(x.p, e.made.value, ev);
        WalkDoomed(Noted(x, e), e.what.answers, 0, s, r);
      }
    case Mod(k, ev) =>
      if Known(x.p, k) {
        NotedDoomed(x, e, s, r);
        ModLawful(x.p, k, ev);
        WalkDoomed(Noted(x, e), e.what.answers, 0, s, r);
      }
    case Del(k, cancelOk) =>
      if Known(x.p, k) {
        TreeSocket(x.p, k);
        DeletedRecord(x.p, x.p.tree[k], false, cancelOk);
      }
    case Enter(t) =>
      if t !in x.p.batches {
        WaitDoomed(x.p, t, e.what.answers, e.what.later, s, r);
      }
    case Return(t, success, cs, due) =>
      if CanReturn(x.p, t, success, cs) {
        ReturnDoomed(x.p, t, success, cs, due, e.what.answers, e.what.later, s, r);
      }
    case _ =>
  }

  lemma NotedDoomed(x: Snap, e: Turn, s: SockState, r: Sock)
    requires Good(x) && Enabled(x, e) && Doomed(x.p, s, r)
    ensures Doomed(Noted(x, e), s, r)
  {
    hide Lawful, OutcomeOf, Noted;
    NotedIs(x, e);
    if e.what.op.Mod? && Known(x.p, e.what.op.socket) {
      LockedToo(x.p);
      TreeSocket(x.p, e.what.op.socket);
    }
  }

  lemma {:induction false} DoomedStays(x: Snap, run: seq<Turn>, s: SockState, r: Sock)
    requires Good(x) && Legal(x, run) && Doomed(x.p, s, r) && Outstanding(x, run, s)
    ensures Doomed(After(x, run).p, s, r)
    decreases |run|
  {
    hide Good, Step, Enabled, Returns, Doomed;
    if run != [] {
      GoodStep(x, run[0]);
      DoomedStep(x, run[0], s, r);
      DoomedStays(Step(x, run[0]), run[1..], s, r);
    }
  }

  // From its deletion on, through any run until a thread returns with its completion, the socket
  // waits for the end of a cancelled request, with the kernel and nobody else.
  lemma DeletedStaysCancelled(before: seq<Turn>, e: Turn, run: seq<Turn>, s: SockState)
    requires Legal(FRESH, before) && Enabled(After(FRESH, before), e)
    requires Deletes(After(FRESH, before), e, s) && After(FRESH, before).p.socks[s].status != Idle
    requires var x := Step(After(FRESH, before), e); Legal(x, run) && Outstanding(x, run, s)
    ensures
      var p := After(Step(After(FRESH, before), e), run).p;
      && s in p.socks && s in p.inflight && !Present(p, s)
      && p.socks[s].deletePending && p.socks[s].status == Cancelled && p.socks[s].pending == {}
  {
    hide Good, Step, Enabled, Returns, Legal, After, Outstanding;
    FreshIsGood();
    RunGood(FRESH, before);
    var y := After(FRESH, before);
    GoodStep(y, e);
    StepCancels(y, e, s);
    var x := Step(y, e);
    RunKeepsRequests(x, run, s);
    DoomedStays(x, run, s, x.p.socks[s]);
    RunGood(x, run);
    DoomedIsAbsent(After(x, run), s);
  }

  lemma DoomedIsAbsent(x: Snap, s: SockState)
    requires Good(x) && s in x.p.socks && x.p.socks[s].deletePending
    ensures !Present(x.p, s)
  {
    hide ToAfd;
    Lifecycle(x.p, s);
  }

  // ---- Requests are made only for those who wait ----

  // While nobody waits, an add or a change asks nothing of the kernel; it only queues the socket,
  // and leaves those before it in their order.
  lemma NobodyWaits(x: Snap, e: Turn)
    requires Good(x) && Enabled(x, e) && x.p.batches == map[] && (e.what.op.Add? || e.what.op.Mod?)
    ensures Step(x, e).p.inflight == x.p.inflight
    ensures x.p.updates <= Step(x, e).p.updates
  {
    hide Lawful, Interested, OutcomeOf;
    NotedRequests(x, e);
    if e.made.Some? {
      InterestedQueue(Registered(x.p, e.made.value), e.made.value, e.what.op.ev);
    } else if e.what.op.Mod? && Known(x.p, e.what.op.socket) {
      InterestedQueue(x.p, x.p.tree[e.what.op.socket], e.what.op.ev);
    }
  }

  // The step ends with threads waiting, after a walk for them.
  predicate WalksForWaiters(x: Snap, e: Turn) {
    match e.what.op
    case Add(_, _, _, _, _) => e.made.Some? && x.p.batches != map[]
    case Mod(k, _) => Known(x.p, k) && x.p.batches != map[]
    case Enter(t) => t !in x.p.batches
    case Return(t, success, cs, _) => CanReturn(x.p, t, success, cs) && x.p.batches - {t} != map[]
    case _ => false
  }

  // While threads wait, what the kernel accepts is done before the call returns: the queue is empty,
  // so that every registered socket has its request.
  lemma WaitersAreServed(x: Snap, e: Turn)
    requires Good(x) && Enabled(x, e) && Accepts(e.what.answers) && Accepts(e.what.later)
    requires WalksForWaiters(x, e)
    ensures Step(x, e).p.updates == []
  {
    hide Lawful, Interested, Keeps, UpdatedAll, Waiting, Returned, Left;
    LockedToo(x.p);
    match e.what.op
    case Add(_, ev, _, _, _) =>
      AddLawful(x.p, e.made.value, ev);
      InterestedQueue(Registered(x.p, e.made.value), e.made.value, ev);
      AcceptedWalk(Noted(x, e), e.what.answers, 0);
    case Mod(k, ev) =>
      ModLawful(x.p, k, ev);
      InterestedQueue(x.p, x.p.tree[k], ev);
      AcceptedWalk(Noted(x, e), e.what.answers, 0);
    case Enter(t) =>
      AcceptedWait(x.p, t, e.what.answers, e.what.later);
    case Return(t, success, cs, due) =>
      AcceptedReturn(x.p, t, success, cs, due, e.what.answers, e.what.later);
  }

  // ---- As few poll groups as the sockets need ----

  // The most slots held at a time, counting one that is taken for a socket that is not had after
  // all.
  function PeakAfter(x: Snap, e: Turn, peak: nat): nat {
    match e.what.op
    case Add(socket, _, baseOk, deviceAvailable, _) =>
      if ValidHandle(socket) && baseOk && (Full(x) ==> x.open && deviceAvailable) then Max(peak, |x.p.socks| + 1)
      else peak
    case _ => peak
  }

  function Peak(x: Snap, run: seq<Turn>, peak: nat): nat
    decreases |run|
  {
    if run == [] then peak else Peak(Step(x, run[0]), run[1..], PeakAfter(x, run[0], peak))
  }

  lemma GroupsStep(x: Snap, e: Turn, peak: nat)
    requires Good(x) && Enabled(x, e) && x.groups == GroupsFor(peak) && |x.p.socks| <= peak
    ensures Step(x, e).groups == GroupsFor(PeakAfter(x, e, peak))
    ensures |Step(x, e).p.socks| <= PeakAfter(x, e, peak)
  {
    hide Lawful, Returned, Left, Added, Modified, Removed, Waiting, Took;
    SizeStep(x, e);
  }

  lemma {:induction false} GroupsFollowPeak(x: Snap, run: seq<Turn>, peak: nat)
    requires Good(x) && Legal(x, run) && x.groups == GroupsFor(peak) && |x.p.socks| <= peak
    ensures After(x, run).groups == GroupsFor(Peak(x, run, peak))
    decreases |run|
  {
    hide Good, Step, Enabled, PeakAfter, GroupsFor;
    if run != [] {
      GoodStep(x, run[0]);
      GroupsStep(x, run[0], peak);
      GroupsFollowPeak(Step(x, run[0]), run[1..], PeakAfter(x, run[0], peak));
    }
  }

  // After any run there are exactly as many poll groups as the peak of the run needs.
  lemma RunGroups(run: seq<Turn>)
    requires Legal(FRESH, run)
    ensures After(FRESH, run).groups == GroupsFor(Peak(FRESH, run, 0))
  {
    hide Step, Enabled, PeakAfter;
    FreshIsGood();
    GroupsFollowPeak(FRESH, run, 0);
  }

  // ---- No memory is lost, and none is freed twice ----

  // All memory ever given to a socket, and how much it is.
  ghost function Memory(p: Port): set<SockState> {
    p.freed + p.socks.Keys
  }

  ghost function Amount(p: Port): nat {
    |p.freed| + |p.socks|
  }

  function Made(run: seq<Turn>): set<SockState>
    decreases |run|
  {
    if run == [] then {} else Newcomer(run[0]) + Made(run[1..])
  }

  function Adds(run: seq<Turn>): nat
    decreases |run|
  {
    if run == [] then 0 else |Newcomer(run[0])| + Adds(run[1..])
  }

  lemma GoodApart(x: Snap)
    requires Good(x)
    ensures x.p.freed !! x.p.socks.Keys
  {
  }

  lemma MemoryStep(x: Snap, e: Turn)
    requires Good(x) && Enabled(x, e)
    ensures Step(x, e).p.freed >= x.p.freed
    ensures Memory(Step(x, e).p) == Memory(x.p) + Newcomer(e)
  {
    hide Step, Noted, Gone, Muted, Lawful, Enabled, Keeps, Spoken;
    ExactStep(x, e);
    NotedIs(x, e);
    KeepsMemory(Noted(x, e), Step(x, e).p, Gone(x, e), Muted(x, e));
    assert x.p.freed + x.p.socks.Keys + Newcomer(e) == x.p.freed + (x.p.socks.Keys + Newcomer(e));
  }

  lemma AmountStep(x: Snap, e: Turn)
    requires Good(x) && Enabled(x, e)
    ensures Amount(Step(x, e).p) == Amount(x.p) + |Newcomer(e)|
  {
    hide Good, Step, Memory;
    GoodStep(x, e);
    GoodApart(x);
    GoodApart(Step(x, e));
    MemoryStep(x, e);
    MemorySize(x.p);
    MemorySize(Step(x, e).p);
    NewcomerIsNew(x, e);
  }

  lemma MemorySize(p: Port)
    requires p.freed !! p.socks.Keys
    ensures |Memory(p)| == Amount(p)
  {
  }

  lemma NewcomerIsNew(x: Snap, e: Turn)
    requires Enabled(x, e)
    ensures Newcomer(e) !! Memory(x.p)
  {
  }

  // Every socket that was ever added is allocated or freed, never both, and the freed ones stay
  // freed; there are as many of them as there were successful calls.
  lemma {:induction false} RunKeepsMemory(x: Snap, run: seq<Turn>)
    requires Good(x) && Legal(x, run)
    ensures
      var p := After(x, run).p;
      && p.freed >= x.p.freed && p.freed !! p.socks.Keys
      && Memory(p) == Memory(x.p) + Made(run)
      && Amount(p) == Amount(x.p) + Adds(run)
    decreases |run|
  {
    hide Good, Step, Enabled, Newcomer, Memory, Amount;
    if run == [] {
      GoodApart(x);
    } else {
      GoodStep(x, run[0]);
      MemoryStep(x, run[0]);
      AmountStep(x, run[0]);
      RunKeepsMemory(Step(x, run[0]), run[1..]);
    }
  }

  // From a fresh port on: what was given to sockets is what is allocated or freed.
  lemma RunFreesOnce(run: seq<Turn>)
    requires Legal(FRESH, run)
    ensures
      var p := After(FRESH, run).p;
      && p.freed + p.socks.Keys == Made(run) && p.freed !! p.socks.Keys
      && |p.freed| + |p.socks| == Adds(run)
      && |p.socks| <= MAX_GROUP_SIZE * After(FRESH, run).groups
  {
    hide Step, Enabled, Lawful;
    FreshIsGood();
    RunGood(FRESH, run);
    RunKeepsMemory(FRESH, run);
  }

  // ---- What stays registered, and for what ----

  lemma PresenceStep(x: Snap, e: Turn, s: SockState)
    requires Good(x) && Enabled(x, e) && s in Memory(x.p)
    ensures Present(Step(x, e).p, s) <==> Present(x.p, s) && s !in Gone(x, e)
    ensures s in Memory(Step(x, e).p)
  {
    hide Step, Gone, Muted, Lawful, Noted;
    MemoryStep(x, e);
    ExactStep(x, e);
    NotedIs(x, e);
  }

  lemma ArrivalStep(x: Snap, e: Turn)
    requires Good(x) && Enabled(x, e) && e.made.Some?
    ensures Present(Step(x, e).p, e.made.value) <==> e.made.value !in Gone(x, e)
    ensures e.made.value in Memory(Step(x, e).p)
  {
    hide Step, Gone, Muted, Lawful, Noted, OutcomeOf;
    MemoryStep(x, e);
    ExactStep(x, e);
    NotedIs(x, e);
  }

  // No step of the run takes s out.
  predicate Spares(x: Snap, run: seq<Turn>, s: SockState)
    decreases |run|
  {
    run == [] || (s !in Gone(x, run[0]) && Spares(Step(x, run[0]), run[1..], s))
  }

  // A registered socket stays registered exactly as long as the user does not delete it, the kernel
  // does not refuse its handle, and no completion reports it closed; and once out it stays out.
  lemma {:induction false} RunLosesExactly(x: Snap, run: seq<Turn>, s: SockState)
    requires Good(x) && Legal(x, run) && s in Memory(x.p)
    ensures Present(After(x, run).p, s) <==> Present(x.p, s) && Spares(x, run, s)
    decreases |run|
  {
    hide Good, Step, Enabled, Memory, Present, Gone;
    if run != [] {
      GoodStep(x, run[0]);
      PresenceStep(x, run[0], s);
      RunLosesExactly(Step(x, run[0]), run[1..], s);
    }
  }

  // So while the kernel knows every handle and reports none closed, only the user's own delete
  // takes a socket out.
  lemma OnlyDeleteLoses(x: Snap, e: Turn)
    requires forall i: nat :: e.what.answers(i).0 != InvalidHandle && e.what.later(i).0 != InvalidHandle
    requires e.what.op.Return? ==> forall c | c in e.what.op.cs :: !LocalClose(c)
    ensures Gone(x, e) != {} ==> e.what.op.Del? && Gone(x, e) == {x.p.tree[e.what.op.socket]}
  {
    hide RefusedWaiting, RefusedIfPolling, Left, ClosedBy, LocalClose, Interested;
    var answers, later := e.what.answers, e.what.later;
    match e.what.op
    case Enter(t) => NoneRefusedWaiting(x.p, t, answers, later);
    case Return(t, success, cs, _) =>
      if CanReturn(x.p, t, success, cs) {
        NoneClosed(x.p.batches[t], cs);
        NoneRefusedWaiting(Left(x.p, t, cs).0, t, answers, later);
      }
    case _ => NoneRefusedWaiting(Noted(x, e), 0, answers, later);
  }

  // No step of the run speaks of s or ends its interest.
  predicate Ignores(x: Snap, run: seq<Turn>, s: SockState)
    decreases |run|
  {
    run == [] || (s !in Spoken(x, run[0]) && s !in Muted(x, run[0]) && Ignores(Step(x, run[0]), run[1..], s))
  }

  ghost predicate Wants(p: Port, s: SockState, data: int, user: Mask) {
    Present(p, s) && s in p.socks && p.socks[s].data == data && p.socks[s].user == user
  }

  lemma PresentIsAllocated(p: Port, s: SockState)
    requires Lawful(p, LockFree) && Present(p, s)
    ensures s in p.socks
  {
  }

  lemma InterestStep(x: Snap, e: Turn, s: SockState, data: int, user: Mask)
    requires Good(x) && Enabled(x, e) && Wants(x.p, s, data, user)
    requires s !in Spoken(x, e) && s !in Muted(x, e) && s !in Gone(x, e)
    ensures Wants(Step(x, e).p, s, data, user)
  {
    hide Step, Gone, Muted, Lawful, Noted, Present, Enabled, Spoken;
    PresenceStep(x, e, s);
    ExactStep(x, e);
    NotedIs(x, e);
    PresentIsAllocated(Step(x, e).p, s);
  }

  lemma RequestStep(x: Snap, e: Turn, s: SockState)
    requires Good(x) && Enabled(x, e) && s in Spoken(x, e) && s !in Gone(x, e)
    ensures Wants(Step(x, e).p, s, e.what.op.ev.data, Wanted(e.what.op.ev.events))
  {
    hide Step, Gone, Lawful, Noted, OutcomeOf;
    ExactStep(x, e);
    NotedIs(x, e);
    if e.made.Some? {
      ArrivalStep(x, e);
    } else {
      TreeSocketFree(x.p, e.what.op.socket);
      PresenceStep(x, e, s);
    }
    PresentIsAllocated(Step(x, e).p, s);
  }

  lemma TreeSocketFree(p: Port, k: Socket)
    requires Lawful(p, LockFree) && k in p.tree
    ensures p.tree[k] in p.socks && p.tree[k].socket == k
  {
  }

  lemma {:induction false} InterestStays(x: Snap, run: seq<Turn>, s: SockState, data: int, user: Mask)
    requires Good(x) && Legal(x, run) && Wants(x.p, s, data, user)
    requires Spares(x, run, s) && Ignores(x, run, s)
    ensures Wants(After(x, run).p, s, data, user)
    decreases |run|
  {
    hide Good, Step, Enabled, Wants, Spoken, Muted, Gone;
    if run != [] {
      GoodStep(x, run[0]);
      InterestStep(x, run[0], s, data, user);
      InterestStays(Step(x, run[0]), run[1..], s, data, user);
    }
  }

  // What the user asked for last stands: from the Add or Mod on, through any run that does not
  // take the socket out, speak of it again or report it with EPOLLONESHOT.
  lemma LastRequestStands(before: seq<Turn>, e: Turn, run: seq<Turn>, s: SockState)
    requires Legal(FRESH, before) && Enabled(After(FRESH, before), e)
    requires s in Spoken(After(FRESH, before), e) && s !in Gone(After(FRESH, before), e)
    requires
      var x := Step(After(FRESH, before), e);
      Legal(x, run) && Spares(x, run, s) && Ignores(x, run, s)
    ensures e.what.op.Add? || e.what.op.Mod?
    ensures Wants(After(Step(After(FRESH, before), e), run).p, s, e.what.op.ev.data, Wanted(e.what.op.ev.events))
  {
    hide Good, Step, Enabled, Wants, Muted, Gone;
    FreshIsGood();
    RunGood(FRESH, before);
    var y := After(FRESH, before);
    GoodStep(y, e);
    RequestStep(y, e, s);
    InterestStays(Step(y, e), run, s, e.what.op.ev.data, Wanted(e.what.op.ev.events));
  }

  // ---- The end ----

  predicate Closes(run: seq<Turn>) {
    exists i :: 0 <= i < |run| && run[i].what.op.CloseIt?
  }

  lemma {:induction false} RunOpen(x: Snap, run: seq<Turn>)
    ensures After(x, run).open <==> x.open && !Closes(run)
    decreases |run|
  {
    hide Waiting, Returned, Left, Added, Modified, Removed, Took;
    if run != [] {
      RunOpen(Step(x, run[0]), run[1..]);
      assert Closes(run) <==> run[0].what.op.CloseIt? || Closes(run[1..]) by {
        assert forall i | 0 < i < |run| :: run[i] == run[1..][i - 1];
      }
    }
  }
}
