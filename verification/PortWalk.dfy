// The operations of the port that run over many sockets, as functions on its value: the walk over
// the update queue, the batch of completions, and the two halves of epoll_wait built from them.
// Which sockets each of them takes out of the tree, and whose interest it ends, is exact.

module PortWalk {
  import opened Basics
  import opened EpollEvents
  import opened PollGroups
  import opened PortState

  // The kernel's answer to the i-th call of a walk: to a new request, and to a cancellation.
  type Answers = nat -> (Submission, bool)

  // port__update_events. A walk that reaches the end of the queue clears the mark of the last
  // failure; the queue stops getting shorter where an update fails.
  function UpdatedAll(p: Port, answers: Answers, i: nat): Port
    decreases |p.updates|
  {
    if p.updates == [] then p.(updateFailed := false)
    else if p.updates[0] !in p.socks then p
    else
      var q := Updated(p, p.updates[0], answers(i).0, answers(i).1);
      if |q.updates| < |p.updates| then UpdatedAll(q, answers, i + 1) else q
  }

  function RefusedBy(r: Sock, s: SockState, answer: Submission): set<SockState> {
    if r.status == Idle && answer == InvalidHandle then {s} else {}
  }

  // The sockets for which the kernel says, during the walk, that there is no such handle.
  function Refused(p: Port, answers: Answers, i: nat): set<SockState>
    decreases |p.updates|
  {
    if p.updates == [] || p.updates[0] !in p.socks then {}
    else
      var s := p.updates[0];
      var q := Updated(p, s, answers(i).0, answers(i).1);
      RefusedBy(p.socks[s], s, answers(i).0) + if |q.updates| < |p.updates| then Refused(q, answers, i + 1) else {}
  }

  // port__update_events_if_polling
  function UpdatedIfPolling(p: Port, answers: Answers): Port {
    if p.batches == map[] then p else UpdatedAll(p, answers, 0)
  }

  function RefusedIfPolling(p: Port, answers: Answers): set<SockState> {
    if p.batches == map[] then {} else Refused(p, answers, 0)
  }

  // port__poll up to the wait: the thread waits only if the walk reaches the end.
  function Entered(p: Port, t: Tid, answers: Answers): Port {
    var q := UpdatedAll(p, answers, 0);
    if q.updates == [] then q.(batches := q.batches[t := []]) else q
  }

  // A round of port_wait up to the wait; when the walk fails the loop is left, and the queue is
  // walked again for the other threads.
  function Waiting(p: Port, t: Tid, answers: Answers, later: Answers): Port {
    var q := Entered(p, t, answers);
    if q.updates == [] then q else UpdatedIfPolling(q, later)
  }

  function RefusedWaiting(p: Port, t: Tid, answers: Answers, later: Answers): set<SockState> {
    var q := Entered(p, t, answers);
    Refused(p, answers, 0) + if q.updates == [] then {} else RefusedIfPolling(q, later)
  }

  // The wait is over: the thread takes the lock again and feeds what it was given.
  function Left(p: Port, t: Tid, cs: seq<Completion>): (Port, seq<Event>)
    requires t in p.batches && |cs| == |p.batches[t]|
  {
    FedAll(p.(batches := p.batches - {t}), p.batches[t], cs)
  }

  // The rest of port__poll, and either another round of the loop in port_wait or its end.
  function Returned(p: Port, t: Tid, success: bool, cs: seq<Completion>, due: bool, answers: Answers, later: Answers): Port
    requires t in p.batches && |cs| == |p.batches[t]|
  {
    var (q, reports) := Left(p, t, cs);
    if success && reports == [] && !due then Waiting(q, t, answers, later) else UpdatedIfPolling(q, later)
  }

  function RefusedReturning(p: Port, t: Tid, success: bool, cs: seq<Completion>, due: bool, answers: Answers, later: Answers)
    : set<SockState>
    requires t in p.batches && |cs| == |p.batches[t]|
  {
    var (q, reports) := Left(p, t, cs);
    if success && reports == [] && !due then RefusedWaiting(q, t, answers, later) else RefusedIfPolling(q, later)
  }

  // The sockets whose completions report that they were closed.
  function ClosedBy(batch: seq<SockState>, cs: seq<Completion>): set<SockState>
    requires |batch| == |cs|
    decreases |batch|
  {
    if batch == [] then {}
    else (if LocalClose(cs[0]) then {batch[0]} else {}) + ClosedBy(batch[1..], cs[1..])
  }

  function SilencedBy(r: Sock, s: SockState, c: Completion): set<SockState> {
    if Report(r, c).Some? && EPOLLONESHOT in r.user then {s} else {}
  }

  // The sockets with EPOLLONESHOT for which the batch has a report.
  function Silenced(p: Port, batch: seq<SockState>, cs: seq<Completion>): set<SockState>
    requires |batch| == |cs|
    decreases |batch|
  {
    if batch == [] || batch[0] !in p.socks then {}
    else
      SilencedBy(p.socks[batch[0]], batch[0], cs[0]) + Silenced(Fed(p, batch[0], cs[0]), batch[1..], cs[1..])
  }

  // ---- What is kept ----

  predicate Present(p: Port, s: SockState) {
    s.socket in p.tree && p.tree[s.socket] == s
  }

  // From p to q exactly the sockets in `gone` have left the tree and nobody has come, exactly
  // those in `silent` have lost their interest, and no memory has been forgotten.
  ghost predicate Keeps(p: Port, q: Port, gone: set<SockState>, silent: set<SockState>) {
    && (forall k | k in p.tree :: k in q.tree <==> p.tree[k] !in gone)
    && (forall k | k in q.tree :: k in p.tree && q.tree[k] == p.tree[k])
    && (forall s | s in q.socks ::
          && s in p.socks && q.socks[s].data == p.socks[s].data
          && q.socks[s].user == if s in silent then {} else p.socks[s].user)
    && q.freed >= p.freed && q.freed + q.socks.Keys == p.freed + p.socks.Keys
  }

  lemma NothingChanges(p: Port, q: Port)
    requires q.tree == p.tree && q.socks == p.socks && q.freed == p.freed
    ensures Keeps(p, q, {}, {})
  {
  }

  lemma KeepsTrans(p: Port, q: Port, r: Port, gone: set<SockState>, silent: set<SockState>,
                   gone': set<SockState>, silent': set<SockState>, lost: set<SockState>, quiet: set<SockState>)
    requires Keeps(p, q, gone, silent) && Keeps(q, r, gone', silent')
    requires lost == gone + gone' && quiet == silent + silent'
    ensures Keeps(p, r, lost, quiet)
  {
  }

  // Only who is registered, and for what, matters.
  lemma KeepsSame(p: Port, q: Port, gone: set<SockState>, silent: set<SockState>,
                  batches: map<Tid, seq<SockState>>, batches': map<Tid, seq<SockState>>)
    requires Keeps(p.(batches := batches), q.(batches := batches'), gone, silent)
    ensures Keeps(p, q, gone, silent)
  {
  }

  lemma KeepsMemory(p: Port, q: Port, gone: set<SockState>, silent: set<SockState>)
    requires Keeps(p, q, gone, silent)
    ensures q.freed >= p.freed && q.freed + q.socks.Keys == p.freed + p.socks.Keys
  {
  }

  // ---- One socket ----

  lemma RetiredStays(p: Port, s: SockState, cancelOk: bool)
    requires InvBut(p, Some(s)) && s in p.socks && !p.socks[s].deletePending
    ensures Keeps(p, Retired(p, s, cancelOk), {s}, {})
    ensures Retired(p, s, cancelOk).batches == p.batches && s in Retired(p, s, cancelOk).socks
  {
    hide Without, ToAfd;
    assert Core(p, s);
  }

  lemma DroppedStays(p: Port, s: SockState)
    requires s in p.socks
    ensures Keeps(p, Freed(p, s), {}, {}) && Keeps(p, Deferred(p, s), {}, {})
    ensures Freed(p, s).batches == p.batches && Deferred(p, s).batches == p.batches
  {
    hide Without;
    ForcedSum(p.freed, p.socks, s);
  }

  lemma DeletedStays(p: Port, s: SockState, force: bool, cancelOk: bool)
    requires InvBut(p, Some(s)) && s in p.socks
    ensures Keeps(p, Deleted(p, s, force, cancelOk), if p.socks[s].deletePending then {} else {s}, {})
    ensures Deleted(p, s, force, cancelOk).batches == p.batches
  {
    hide Retired, Freed, Deferred, Core, Settled, Keeps;
    if p.socks[s].deletePending {
      DroppedStays(p, s);
    } else {
      var q := Retired(p, s, cancelOk);
      RetiredStays(p, s, cancelOk);
      RetiredKeeps(p, s, cancelOk);
      DroppedStays(q, s);
      KeepsTrans(p, q, Freed(q, s), {s}, {}, {}, {}, {s}, {});
      KeepsTrans(p, q, Deferred(q, s), {s}, {}, {}, {}, {s}, {});
    }
  }

  // A step that changes only how far the request of one socket has come.
  lemma ProgressStays(p: Port, q: Port, s: SockState)
    requires s in p.socks && s in q.socks && q.socks == p.socks[s := q.socks[s]]
    requires q.tree == p.tree && q.freed == p.freed
    requires q.socks[s].data == p.socks[s].data && q.socks[s].user == p.socks[s].user
    ensures Keeps(p, q, {}, {})
  {
    assert q.socks.Keys == p.socks.Keys;
  }

  lemma UpdatedStays(p: Port, s: SockState, answer: Submission, cancelOk: bool)
    requires Inv(p) && s in p.updates
    ensures Keeps(p, Updated(p, s, answer, cancelOk), RefusedBy(p.socks[s], s, answer), {})
    ensures Updated(p, s, answer, cancelOk).batches == p.batches
  {
    hide ToAfd, Unwatched, Without, Deleted, Keeps, Settled;
    assert Core(p, s);
    if p.socks[s].status == Idle && answer == InvalidHandle {
      DeletedStays(p, s, false, cancelOk);
    } else {
      ProgressStays(p, Updated(p, s, answer, cancelOk), s);
    }
  }

  lemma ReapedStays(p: Port, s: SockState, report: Option<Event>)
    requires s in p.socks
    ensures Keeps(p, Reaped(p, s, report), {}, if report.Some? && EPOLLONESHOT in p.socks[s].user then {s} else {})
  {
    assert Reaped(p, s, report).socks.Keys == p.socks.Keys;
  }

  lemma FedStays(p: Port, s: SockState, c: Completion)
    requires Inv(p) && s in p.inflight && s in p.socks
    ensures Keeps(p, Fed(p, s, c), if LocalClose(c) then {s} else {}, SilencedBy(p.socks[s], s, c))
  {
    hide ToAfd, FromAfd, Unwatched, Deleted, EventsOf, Reaped, Keeps, InvBut, Core, Settled, LocalClose;
    Lifecycle(p, s);
    var q := Answered(p, s);
    AnsweredKeeps(p, s);
    ProgressStays(p, q, s);
    if p.socks[s].deletePending || LocalClose(c) {
      var gone := if p.socks[s].deletePending then {} else {s};
      DeletedStays(q, s, false, false);
      KeepsTrans(p, q, Fed(p, s, c), {}, {}, gone, {}, gone, {});
      if p.socks[s].deletePending {
        NotRegistered(p, s, Fed(p, s, c));
      }
    } else {
      var silent := SilencedBy(p.socks[s], s, c);
      ReapedStays(q, s, Report(p.socks[s], c));
      KeepsTrans(p, q, Fed(p, s, c), {}, {}, {}, silent, {}, silent);
    }
  }

  lemma NotRegistered(p: Port, s: SockState, q: Port)
    requires Inv(p) && s in p.socks && p.socks[s].deletePending && Keeps(p, q, {}, {})
    ensures Keeps(p, q, {s}, {})
  {
    hide ToAfd;
    assert Core(p, s);
    assert forall k | k in p.tree :: p.tree[k].socket == k;
  }

  // ---- The walk ----

  lemma WalkStep(p: Port, answer: Submission, cancelOk: bool)
    requires Lawful(p, UnderLock) && p.updates != []
    ensures
      var s := p.updates[0];
      && s in p.socks
      && var q := Updated(p, s, answer, cancelOk);
      && Lawful(q, UnderLock) && q.batches == p.batches && p.inflight.Keys <= q.inflight.Keys
      && Keeps(p, q, RefusedBy(p.socks[s], s, answer), {})
      && (UpdateFails(p.socks[s], answer, cancelOk) ==> q == p.(updateFailed := true))
      && (!UpdateFails(p.socks[s], answer, cancelOk) ==> |q.updates| < |p.updates|)
  {
    hide ToAfd, Unwatched, Updated, Keeps;
    var s := p.updates[0];
    assert s in p.updates;
    UpdatedKeeps(p, s, answer, cancelOk);
    UpdatedStays(p, s, answer, cancelOk);
  }

  // The walk loses exactly the sockets that the kernel does not know, nobody's interest and no
  // request; it has failed exactly when something is left in the queue.
  lemma {:induction false} UpdatedAllKeeps(p: Port, answers: Answers, i: nat)
    requires Lawful(p, UnderLock)
    ensures
      var q := UpdatedAll(p, answers, i);
      && Lawful(q, UnderLock) && q.batches == p.batches && p.inflight.Keys <= q.inflight.Keys
      && Keeps(p, q, Refused(p, answers, i), {})
      && (q.updateFailed <==> q.updates != [])
    decreases |p.updates|
  {
    hide Updated, Keeps, Lawful, UpdateFails, RefusedBy;
    if p.updates == [] {
      ClearedLawful(p);
      NothingChanges(p, p.(updateFailed := false));
    } else {
      var s := p.updates[0];
      WalkStep(p, answers(i).0, answers(i).1);
      var q := Updated(p, s, answers(i).0, answers(i).1);
      var gone := RefusedBy(p.socks[s], s, answers(i).0);
      if |q.updates| < |p.updates| {
        UpdatedAllKeeps(q, answers, i + 1);
        var rest := Refused(q, answers, i + 1);
        KeepsTrans(p, q, UpdatedAll(q, answers, i + 1), gone, {}, rest, {}, gone + rest, {});
      } else {
        assert Refused(p, answers, i) == gone;
      }
    }
  }

  lemma ClearedLawful(p: Port)
    requires Lawful(p, UnderLock)
    ensures Lawful(p.(updateFailed := false), UnderLock)
  {
    FlagKeeps(p, false);
  }

  lemma FirstLeaves(p: Port, answer: Submission, cancelOk: bool)
    requires Lawful(p, UnderLock) && p.updates != [] && p.updates[0] in p.socks
    ensures
      var q := Updated(p, p.updates[0], answer, cancelOk);
      q.updates == p.updates || q.updates == p.updates[1..]
  {
    hide ToAfd, Missing;
    var s := p.updates[0];
    assert s in p.updates && Core(p, s);
    assert Without(p.updates, s) == p.updates[1..];
    assert s !in p.updates[1..];
    WithoutAbsent(p.updates[1..], s);
  }

  // The queue is served from the front: what a failed walk leaves is the end of it, in order.
  lemma {:induction false} WalkLeavesEnd(p: Port, answers: Answers, i: nat) returns (k: nat)
    requires Lawful(p, UnderLock)
    ensures k <= |p.updates| && UpdatedAll(p, answers, i).updates == p.updates[k..]
    decreases |p.updates|
  {
    hide Updated, Keeps, Lawful;
    k := 0;
    if p.updates != [] {
      WalkStep(p, answers(i).0, answers(i).1);
      FirstLeaves(p, answers(i).0, answers(i).1);
      var q := Updated(p, p.updates[0], answers(i).0, answers(i).1);
      if |q.updates| < |p.updates| {
        var k' := WalkLeavesEnd(q, answers, i + 1);
        k := k' + 1;
      }
    }
  }

  // As long as the kernel knows every handle, no walk loses a socket.
  lemma {:induction false} NoneRefused(p: Port, answers: Answers, i: nat)
    requires forall j: nat :: answers(j).0 != InvalidHandle
    ensures Refused(p, answers, i) == {}
    decreases |p.updates|
  {
    hide Updated;
    if p.updates != [] && p.updates[0] in p.socks {
      var q := Updated(p, p.updates[0], answers(i).0, answers(i).1);
      if |q.updates| < |p.updates| {
        NoneRefused(q, answers, i + 1);
      }
    }
  }

  lemma UpdatedIfPollingKeeps(p: Port, answers: Answers)
    requires Lawful(p, UnderLock)
    ensures
      var q := UpdatedIfPolling(p, answers);
      && Lawful(q, LockFree) && q.batches == p.batches && p.inflight.Keys <= q.inflight.Keys
      && Keeps(p, q, RefusedIfPolling(p, answers), {})
  {
    hide Inv, Taken, Keeps, UpdatedAll, Refused;
    UpdatedAllKeeps(p, answers, 0);
    NothingChanges(p, p);
  }

  // ---- Waiting ----

  lemma EnteredKeeps(p: Port, t: Tid, answers: Answers)
    requires Lawful(p, UnderLock) && t !in p.batches
    ensures
      var q := Entered(p, t, answers);
      && Lawful(q, UnderLock) && p.inflight.Keys <= q.inflight.Keys
      && Keeps(p, q, Refused(p, answers, 0), {})
      && (if q.updates == [] then Lawful(q, LockFree) && q.batches == p.batches[t := []] && !q.updateFailed
          else q.batches == p.batches && q.updateFailed)
  {
    hide Lawful, Keeps, UpdatedAll, Refused;
    UpdatedAllKeeps(p, answers, 0);
    var q := UpdatedAll(p, answers, 0);
    if q.updates == [] {
      EnterLawful(q, t);
      LockedToo(Entered(p, t, answers));
      KeepsSame(p, Entered(p, t, answers), Refused(p, answers, 0), {}, p.batches, q.batches);
    }
  }

  lemma WaitingKeeps(p: Port, t: Tid, answers: Answers, later: Answers)
    requires Lawful(p, UnderLock) && t !in p.batches
    ensures
      var q := Waiting(p, t, answers, later);
      && Lawful(q, LockFree) && p.inflight.Keys <= q.inflight.Keys
      && Keeps(p, q, RefusedWaiting(p, t, answers, later), {})
      && q.batches == if Entered(p, t, answers).updates == [] then p.batches[t := []] else p.batches
  {
    hide Lawful, Keeps, Entered, Refused, UpdatedIfPolling, RefusedIfPolling;
    EnteredKeeps(p, t, answers);
    var q := Entered(p, t, answers);
    if q.updates != [] {
      var first, second := Refused(p, answers, 0), RefusedIfPolling(q, later);
      UpdatedIfPollingKeeps(q, later);
      KeepsTrans(p, q, UpdatedIfPolling(q, later), first, {}, second, {}, first + second, {});
    } else {
      assert Refused(p, answers, 0) + {} == Refused(p, answers, 0);
    }
  }

  // ---- Completions ----

  // A batch loses exactly the sockets that were closed, and ends the interest of exactly those
  // with EPOLLONESHOT that it reports.
  lemma {:induction false} FedAllKeeps(p: Port, batch: seq<SockState>, cs: seq<Completion>)
    requires Lawful(p, UnderLock) && Loose(p, batch) && |batch| == |cs|
    ensures Keeps(p, FedAll(p, batch, cs).0, ClosedBy(batch, cs), Silenced(p, batch, cs))
    decreases |batch|
  {
    hide Lawful, Fed, Report, Keeps, SilencedBy, LocalClose, Loose;
    if batch == [] {
      NothingChanges(p, p);
    } else {
      var s := batch[0];
      FedLawful(p, batch, cs[0]);
      FirstLoose(p, batch);
      var q := Fed(p, s, cs[0]);
      FedStays(p, s, cs[0]);
      FedAllKeeps(q, batch[1..], cs[1..]);
      KeepsTrans(p, q, FedAll(q, batch[1..], cs[1..]).0,
        if LocalClose(cs[0]) then {s} else {}, SilencedBy(p.socks[s], s, cs[0]),
        ClosedBy(batch[1..], cs[1..]), Silenced(q, batch[1..], cs[1..]),
        ClosedBy(batch, cs), Silenced(p, batch, cs));
    }
  }

  // The event tells of a registered socket whose completion is in the batch: it has its data, and is
  // exactly what the completion brings of what the socket wants.
  ghost predicate Backed(p: Port, batch: seq<SockState>, cs: seq<Completion>, v: Event)
    requires |batch| == |cs|
  {
    exists i :: 0 <= i < |batch| && Tells(p, batch[i], cs[i], v)
  }

  ghost predicate Tells(p: Port, s: SockState, c: Completion, v: Event) {
    && s in p.socks && Present(p, s) && !LocalClose(c)
    && v.data == p.socks[s].data && v.events != {}
    && (forall e :: e in v.events <==> e in p.socks[s].user && Brought(c, e))
  }

  lemma ReportTells(p: Port, s: SockState, c: Completion)
    requires Inv(p) && s in p.socks && Report(p.socks[s], c).Some?
    ensures Tells(p, s, c, Report(p.socks[s], c).value)
  {
    hide EventsOf, ToAfd, Brought;
    ReportExactly(p.socks[s], c);
    assert Core(p, s);
  }

  lemma ToldBefore(p: Port, q: Port, s: SockState, c: Completion, v: Event, gone: set<SockState>, silent: set<SockState>)
    requires Keeps(p, q, gone, silent) && Tells(q, s, c, v)
    ensures Tells(p, s, c, v)
  {
    hide Brought, LocalClose;
    var e :| e in v.events;
  }

  // Every report of a batch is about a socket that was registered when the thread took the lock
  // again, as Tells says.
  lemma {:induction false} FedAllBacked(p: Port, batch: seq<SockState>, cs: seq<Completion>, v: Event)
    requires Lawful(p, UnderLock) && Loose(p, batch) && |batch| == |cs| && v in FedAll(p, batch, cs).1
    ensures Backed(p, batch, cs, v)
    decreases |batch|
  {
    hide Lawful, Fed, Report, Keeps, SilencedBy, LocalClose, Loose, Tells;
    var s := batch[0];
    FedLawful(p, batch, cs[0]);
    FirstLoose(p, batch);
    var q := Fed(p, s, cs[0]);
    if v in FedAll(q, batch[1..], cs[1..]).1 {
      FedStays(p, s, cs[0]);
      FedAllBacked(q, batch[1..], cs[1..], v);
      var i :| 0 <= i < |batch[1..]| && Tells(q, batch[1..][i], cs[1..][i], v);
      ToldBefore(p, q, batch[i + 1], cs[i + 1], v, if LocalClose(cs[0]) then {s} else {}, SilencedBy(p.socks[s], s, cs[0]));
      assert Tells(p, batch[i + 1], cs[i + 1], v);
    } else {
      ReportTells(p, s, cs[0]);
      assert Tells(p, batch[0], cs[0], v);
    }
  }

  // And nothing is left out: each completion that has a report when the thread takes the lock again
  // is reported so.
  lemma {:induction false} FedAllTells(p: Port, batch: seq<SockState>, cs: seq<Completion>, i: nat)
    requires Lawful(p, UnderLock) && Loose(p, batch) && |batch| == |cs| && i < |batch|
    requires batch[i] in p.socks && Report(p.socks[batch[i]], cs[i]).Some?
    ensures Report(p.socks[batch[i]], cs[i]).value in FedAll(p, batch, cs).1
    decreases |batch|
  {
    hide Lawful, Fed, Report, LocalClose, Loose;
    FedLawful(p, batch, cs[0]);
    if i > 0 {
      FirstLoose(p, batch);
      FedRecord(p, batch[0], cs[0]);
      LooseDiffer(p, batch, i);
      FedAllTells(Fed(p, batch[0], cs[0]), batch[1..], cs[1..], i - 1);
    }
  }

  // The reports come in the order of the batch: those of a first part, and then those of the rest.
  lemma {:induction false} FedAllSplit(p: Port, batch: seq<SockState>, cs: seq<Completion>, k: nat)
    requires Lawful(p, UnderLock) && Loose(p, batch) && |batch| == |cs| && k <= |batch|
    ensures
      var (q, reports) := FedAll(p, batch[..k], cs[..k]);
      && FedAll(p, batch, cs).0 == FedAll(q, batch[k..], cs[k..]).0
      && FedAll(p, batch, cs).1 == reports + FedAll(q, batch[k..], cs[k..]).1
    decreases |batch|
  {
    hide Lawful, Fed, Report, LocalClose, Loose;
    if k > 0 {
      FedLawful(p, batch, cs[0]);
      FedAllSplit(Fed(p, batch[0], cs[0]), batch[1..], cs[1..], k - 1);
      assert batch[..k][1..] == batch[1..][..k - 1] && cs[..k][1..] == cs[1..][..k - 1];
      assert batch[1..][k - 1..] == batch[k..] && cs[1..][k - 1..] == cs[k..];
    }
  }

  lemma LooseDiffer(p: Port, batch: seq<SockState>, i: nat)
    requires Loose(p, batch) && 0 < i < |batch|
    ensures batch[i] != batch[0]
  {
  }

  lemma FirstLoose(p: Port, batch: seq<SockState>)
    requires Lawful(p, UnderLock) && batch != [] && Loose(p, batch)
    ensures Inv(p) && batch[0] in p.inflight
  {
    assert batch[0] in batch;
  }

  lemma LeftKeeps(p: Port, t: Tid, cs: seq<Completion>)
    requires Lawful(p, LockFree) && t in p.batches && |cs| == |p.batches[t]|
    ensures
      var q := Left(p, t, cs).0;
      && Lawful(q, UnderLock) && q.batches == p.batches - {t}
      && q.inflight == p.inflight - (set s | s in p.batches[t])
      && Keeps(p, q, ClosedBy(p.batches[t], cs), Silenced(p.(batches := p.batches - {t}), p.batches[t], cs))
  {
    hide Lawful, Keeps, FedAll, Loose, ClosedBy, Silenced;
    var q := p.(batches := p.batches - {t});
    LockedToo(p);
    LeaveLawful(p, t);
    FedAllLawful(q, p.batches[t], cs);
    FedAllKeeps(q, p.batches[t], cs);
    KeepsSame(p, FedAll(q, p.batches[t], cs).0, ClosedBy(p.batches[t], cs), Silenced(q, p.batches[t], cs),
      q.batches, q.batches);
  }

  lemma LeftReports(p: Port, t: Tid, cs: seq<Completion>)
    requires Lawful(p, LockFree) && t in p.batches && |cs| == |p.batches[t]|
    ensures |Left(p, t, cs).1| <= |p.batches[t]|
    ensures forall e | e in Left(p, t, cs).1 :: e.events != {}
  {
    hide Lawful, FedAll, Loose;
    LockedToo(p);
    LeaveLawful(p, t);
    FedAllLawful(p.(batches := p.batches - {t}), p.batches[t], cs);
  }

  lemma LeftBacked(p: Port, t: Tid, cs: seq<Completion>, v: Event)
    requires Lawful(p, LockFree) && t in p.batches && |cs| == |p.batches[t]| && v in Left(p, t, cs).1
    ensures Backed(p, p.batches[t], cs, v)
  {
    hide Lawful, FedAll, Loose, Brought, LocalClose;
    var q := p.(batches := p.batches - {t});
    LockedToo(p);
    LeaveLawful(p, t);
    FedAllBacked(q, p.batches[t], cs, v);
    var i :| 0 <= i < |p.batches[t]| && Tells(q, p.batches[t][i], cs[i], v);
    assert Tells(p, p.batches[t][i], cs[i], v);
  }

  // What a completion in the thread's batch brings of what its registered socket wants is reported.
  lemma LeftTells(p: Port, t: Tid, cs: seq<Completion>, i: nat, e: nat)
    requires Lawful(p, LockFree) && t in p.batches && |cs| == |p.batches[t]| && i < |cs|
    requires var s := p.batches[t][i];
      s in p.socks && Present(p, s) && !LocalClose(cs[i]) && e in p.socks[s].user && Brought(cs[i], e)
    ensures exists v | v in Left(p, t, cs).1 :: Tells(p, p.batches[t][i], cs[i], v)
  {
    hide Lawful, FedAll, Loose, Brought, LocalClose, Report;
    var q, s := p.(batches := p.batches - {t}), p.batches[t][i];
    LockedToo(p);
    LeaveLawful(p, t);
    PresentIsKept(p, s);
    ReportExactly(p.socks[s], cs[i]);
    LawfulInv(q);
    FedAllTells(q, p.batches[t], cs, i);
    ReportTells(q, s, cs[i]);
    assert Tells(p, s, cs[i], Report(p.socks[s], cs[i]).value);
  }

  lemma PresentIsKept(p: Port, s: SockState)
    requires Lawful(p, LockFree) && s in p.socks && Present(p, s)
    ensures !p.socks[s].deletePending
  {
    assert Core(p, s);
  }

  lemma LawfulInv(p: Port)
    requires Lawful(p, UnderLock)
    ensures Inv(p)
  {
  }

  lemma ReturnedKeeps(p: Port, t: Tid, success: bool, cs: seq<Completion>, due: bool, answers: Answers, later: Answers)
    requires Lawful(p, LockFree) && t in p.batches && |cs| == |p.batches[t]|
    ensures
      var q := Returned(p, t, success, cs, due, answers, later);
      && Lawful(q, LockFree)
      && (forall s | s in p.inflight && s !in p.batches[t] :: s in q.inflight)
      && Keeps(p, q, ClosedBy(p.batches[t], cs) + RefusedReturning(p, t, success, cs, due, answers, later),
               Silenced(p.(batches := p.batches - {t}), p.batches[t], cs))
  {
    hide Lawful, Keeps, Left, Waiting, UpdatedIfPolling, RefusedIfPolling, RefusedWaiting, ClosedBy, Silenced;
    LeftKeeps(p, t, cs);
    var q := Left(p, t, cs).0;
    var closed, silent := ClosedBy(p.batches[t], cs), Silenced(p.(batches := p.batches - {t}), p.batches[t], cs);
    var refused := RefusedReturning(p, t, success, cs, due, answers, later);
    if success && Left(p, t, cs).1 == [] && !due {
      WaitingKeeps(q, t, answers, later);
    } else {
      UpdatedIfPollingKeeps(q, later);
    }
    KeepsTrans(p, q, Returned(p, t, success, cs, due, answers, later), closed, silent, refused, {}, closed + refused, silent);
  }

  lemma NoneRefusedWaiting(p: Port, t: Tid, answers: Answers, later: Answers)
    requires forall j: nat :: answers(j).0 != InvalidHandle && later(j).0 != InvalidHandle
    ensures RefusedIfPolling(p, answers) == RefusedIfPolling(p, later) == {}
    ensures RefusedWaiting(p, t, answers, later) == {}
  {
    hide Refused, UpdatedAll;
    NoneRefused(p, answers, 0);
    NoneRefused(p, later, 0);
    NoneRefused(Entered(p, t, answers), later, 0);
  }

  lemma {:induction false} NoneClosed(batch: seq<SockState>, cs: seq<Completion>)
    requires |batch| == |cs| && forall c | c in cs :: !LocalClose(c)
    ensures ClosedBy(batch, cs) == {}
    decreases |batch|
  {
    if batch != [] {
      NoneClosed(batch[1..], cs[1..]);
    }
  }

  // ---- What the kernel accepts is done ----

  // No answer of the kernel makes an update fail.
  ghost predicate Accepts(answers: Answers) {
    forall i: nat :: answers(i).0 != OtherError && answers(i).1
  }

  lemma {:induction false} AcceptedWalk(p: Port, answers: Answers, i: nat)
    requires Lawful(p, UnderLock) && Accepts(answers)
    ensures UpdatedAll(p, answers, i).updates == []
    decreases |p.updates|
  {
    hide Updated, Keeps, Lawful;
    if p.updates != [] {
      WalkStep(p, answers(i).0, answers(i).1);
      AcceptedWalk(Updated(p, p.updates[0], answers(i).0, answers(i).1), answers, i + 1);
    }
  }

  // A thread waits if the kernel accepts its walk; and if it accepts the second one, nobody is left
  // in the queue while others wait.
  lemma AcceptedWait(p: Port, t: Tid, answers: Answers, later: Answers)
    requires Lawful(p, UnderLock) && t !in p.batches
    ensures Accepts(answers) ==> Waiting(p, t, answers, later).batches == p.batches[t := []]
    ensures Accepts(answers) || (Accepts(later) && p.batches != map[]) ==> Waiting(p, t, answers, later).updates == []
  {
    hide Lawful, Keeps, UpdatedAll, Refused;
    EnteredKeeps(p, t, answers);
    UpdatedAllKeeps(p, answers, 0);
    if Accepts(answers) {
      AcceptedWalk(p, answers, 0);
    } else if Accepts(later) && Entered(p, t, answers).updates != [] {
      AcceptedWalk(Entered(p, t, answers), later, 0);
    }
  }

  lemma AcceptedReturn(p: Port, t: Tid, success: bool, cs: seq<Completion>, due: bool, answers: Answers, later: Answers)
    requires Lawful(p, LockFree) && t in p.batches && |cs| == |p.batches[t]|
    requires Accepts(later) && p.batches - {t} != map[]
    ensures Returned(p, t, success, cs, due, answers, later).updates == []
  {
    hide Lawful, Keeps, UpdatedAll, Left, ClosedBy, Silenced, Waiting;
    LeftKeeps(p, t, cs);
    AcceptedWait(Left(p, t, cs).0, t, answers, later);
    AcceptedWalk(Left(p, t, cs).0, later, 0);
  }

  // ---- A deleted socket is left alone until its request comes back ----

  ghost predicate Doomed(p: Port, x: SockState, r: Sock) {
    x in p.socks && p.socks[x] == r && r.deletePending
  }

  lemma DoomedNotQueued(p: Port, x: SockState, r: Sock)
    requires Inv(p) && Doomed(p, x, r)
    ensures x !in p.updates
  {
    assert Core(p, x);
  }

  lemma UpdatedDoomed(p: Port, s: SockState, answer: Submission, cancelOk: bool, x: SockState, r: Sock)
    requires s in p.socks && s != x && Doomed(p, x, r)
    ensures Doomed(Updated(p, s, answer, cancelOk), x, r)
  {
    hide Updated;
    UpdatedOthers(p, s, answer, cancelOk);
  }

  lemma {:induction false} WalkDoomed(p: Port, answers: Answers, i: nat, x: SockState, r: Sock)
    requires Lawful(p, UnderLock) && Doomed(p, x, r)
    ensures Doomed(UpdatedAll(p, answers, i), x, r)
    decreases |p.updates|
  {
    hide Updated, Keeps, Lawful;
    if p.updates != [] {
      LawfulInv(p);
      DoomedNotQueued(p, x, r);
      WalkStep(p, answers(i).0, answers(i).1);
      UpdatedDoomed(p, p.updates[0], answers(i).0, answers(i).1, x, r);
      var q := Updated(p, p.updates[0], answers(i).0, answers(i).1);
      if |q.updates| < |p.updates| {
        WalkDoomed(q, answers, i + 1, x, r);
      }
    }
  }

  lemma WaitDoomed(p: Port, t: Tid, answers: Answers, later: Answers, x: SockState, r: Sock)
    requires Lawful(p, UnderLock) && t !in p.batches && Doomed(p, x, r)
    ensures Doomed(Waiting(p, t, answers, later), x, r)
  {
    hide Lawful, Keeps, UpdatedAll;
    EnteredKeeps(p, t, answers);
    WalkDoomed(p, answers, 0, x, r);
    WalkDoomed(Entered(p, t, answers), later, 0, x, r);
  }

  lemma {:induction false} FedAllDoomed(p: Port, batch: seq<SockState>, cs: seq<Completion>, x: SockState, r: Sock)
    requires Lawful(p, UnderLock) && Loose(p, batch) && |batch| == |cs| && x !in batch && Doomed(p, x, r)
    ensures Doomed(FedAll(p, batch, cs).0, x, r)
    decreases |batch|
  {
    hide Lawful, Fed, Report, LocalClose, Loose;
    if batch != [] {
      FedLawful(p, batch, cs[0]);
      FirstLoose(p, batch);
      FedRecord(p, batch[0], cs[0]);
      FedAllDoomed(Fed(p, batch[0], cs[0]), batch[1..], cs[1..], x, r);
    }
  }

  lemma ReturnDoomed(p: Port, t: Tid, success: bool, cs: seq<Completion>, due: bool, answers: Answers, later: Answers,
                     x: SockState, r: Sock)
    requires Lawful(p, LockFree) && t in p.batches && |cs| == |p.batches[t]|
    requires x !in p.batches[t] && Doomed(p, x, r)
    ensures Doomed(Returned(p, t, success, cs, due, answers, later), x, r)
  {
    hide Lawful, Keeps, UpdatedAll, FedAll, ClosedBy, Silenced, Loose, Waiting;
    var q := p.(batches := p.batches - {t});
    LeftKeeps(p, t, cs);
    LockedToo(p);
    LeaveLawful(p, t);
    FedAllDoomed(q, p.batches[t], cs, x, r);
    WaitDoomed(Left(p, t, cs).0, t, answers, later, x, r);
    WalkDoomed(Left(p, t, cs).0, later, 0, x, r);
  }
}
