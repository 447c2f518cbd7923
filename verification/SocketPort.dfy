// The port of wepoll as its methods change it in place. State() is its value; every method is
// proved to do to it what the functions of PortState.dfy and PortWalk.dfy say, and any run of
// methods to be a run of the machine in PortRuns.dfy.

module SocketPort {
  import opened Basics
  import opened EpollEvents
  import opened PollGroups
  import opened PortRuns
  import opened PortState
  import opened PortWalk

  ghost function Members(live: set<SockState>, g: PollGroup): set<SockState> {
    set s | s in live && s.group == g
  }

  lemma MembersAdd(live: set<SockState>, s: SockState, g: PollGroup)
    requires s !in live
    ensures |Members(live + {s}, g)| == |Members(live, g)| + if s.group == g then 1 else 0
  {
    assert Members(live + {s}, g) == Members(live, g) + if s.group == g then {s} else {};
  }

  lemma MembersRemove(live: set<SockState>, s: SockState, g: PollGroup)
    requires s in live
    ensures |Members(live - {s}, g)| == |Members(live, g)| - if s.group == g then 1 else 0
  {
    assert live == live - {s} + {s};
    MembersAdd(live - {s}, s, g);
  }

  // Group sizes are the numbers of sockets that hold the group, counting one group that has been
  // acquired for a socket that is not there yet, or is no longer.
  ghost predicate Balanced(groups: GroupQueue, live: set<SockState>, lent: Option<PollGroup>)
    reads groups, groups.queue
  {
    match lent
    case None =>
      && groups.Valid()
      && Total(groups.sizes) == |live|
      && (forall s | s in live :: s.group in groups.repr)
      && (forall g | g in groups.repr :: g.size == |Members(live, g)|)
    case Some(l) =>
      && groups.Valid()
      && Total(groups.sizes) == |live| + 1
      && l in groups.repr
      && (forall s | s in live :: s.group in groups.repr)
      && (forall g | g in groups.repr :: g.size == |Members(live, g)| + if g == l then 1 else 0)
  }

  lemma NoMembersYet(live: set<SockState>, g: PollGroup)
    requires forall s | s in live :: s.group != g
    ensures |Members(live, g)| == 0
  {
    assert Members(live, g) == {};
  }

  lemma LentToNew(groups: GroupQueue, live: set<SockState>, s: SockState)
    requires Balanced(groups, live, Some(s.group)) && s !in live
    ensures Balanced(groups, live + {s}, None)
  {
    forall g | g in groups.repr
      ensures g.size == |Members(live + {s}, g)|
    {
      MembersAdd(live, s, g);
    }
  }

  lemma LentByOld(groups: GroupQueue, live: set<SockState>, s: SockState)
    requires Balanced(groups, live, None) && s in live
    ensures Balanced(groups, live - {s}, Some(s.group))
  {
    forall g | g in groups.repr
      ensures g.size == |Members(live - {s}, g)| + if g == s.group then 1 else 0
    {
      MembersRemove(live, s, g);
    }
  }

  lemma {:induction false} FullTotal(z: seq<nat>)
    requires Orderly(z)
    ensures Total(z) == MAX_GROUP_SIZE * |z| <==> z == [] || z[|z| - 1] == MAX_GROUP_SIZE
  {
    TotalBounds(z);
    if z != [] {
      TotalBounds(z[..|z| - 1]);
    }
  }

  lemma {:induction false} SameCount<T>(q: seq<T>, members: set<T>)
    requires Distinct(q)
    requires (forall x | x in q :: x in members) && (forall x | x in members :: x in q)
    ensures |q| == |members|
  {
    if q != [] {
      var rest := members - {q[0]};
      assert forall x | x in q[1..] :: x in q && x != q[0];
      assert forall x | x in rest :: x in q[1..];
      SameCount(q[1..], rest);
      assert members == rest + {q[0]};
    } else {
      assert members == {};
    }
  }

  // The code looks at the last group only; that tells whether there is room anywhere.
  lemma ExhaustedIsFull(groups: GroupQueue, live: set<SockState>)
    requires Balanced(groups, live, None)
    ensures groups.Exhausted() <==> |live| == MAX_GROUP_SIZE * |groups.repr|
  {
    hide Total;
    FullTotal(groups.sizes);
    SameCount(groups.queue, groups.repr);
  }

  lemma MemberOfRepr(groups: GroupQueue, live: set<SockState>, s: SockState)
    requires Balanced(groups, live, None) && s in live
    ensures s.group in groups.repr
  {
  }

  // Stands for tree_root, whose choice does not matter here.
  method SomeKey<V>(m: map<Socket, V>) returns (k: Socket)
    requires m != map[]
    ensures k in m
  {
    HasKey(m);
    k := Pick(m.Keys);
  }

  method Pick(s: set<Socket>) returns (k: Socket)
    requires s != {}
    ensures k in s
  {
    k :| k in s;
  }

  lemma HasKey<V>(m: map<Socket, V>)
    requires m != map[]
    ensures m.Keys != {}
  {
    var none: map<Socket, V> := map[];
    assert m.Keys == none.Keys ==> m == none;
  }

  class EpollPort {
    var open: bool
    var tree: map<Socket, SockState>
    var updateQueue: seq<SockState>
    var deletedQueue: seq<SockState>
    const groups: GroupQueue
    var activePolls: nat
    var socks: map<SockState, Sock>   // the allocated sock_state structs

    ghost var freed: set<SockState>
    ghost var updateFailed: bool

    // What the kernel holds, and what its queue has given to each thread inside the wait call.
    var inflight: map<SockState, Mask>
    var batches: map<Tid, seq<SockState>>

    ghost function State(): Port
      reads this
    {
      Port(tree, updateQueue, deletedQueue, socks, freed, inflight, batches, updateFailed)
    }

    // The port as a state of the machine in PortRuns.dfy, with what it has reported so far.
    ghost function Snapshot(told: seq<Event>): Snap
      reads this, groups
    {
      Snap(State(), open, |groups.repr|, told)
    }

    ghost predicate Valid(phase: Phase)
      reads this, groups, groups.queue
    {
      Balanced(groups, socks.Keys, None) && Lawful(State(), phase) && activePolls == |batches|
    }

    constructor ()
      ensures Valid(LockFree) && open && fresh(groups) && groups.repr == {} && groups.queue == []
      ensures State() == Port(map[], [], [], map[], {}, map[], map[], false)
    {
      open, tree, updateQueue, deletedQueue, activePolls, socks := true, map[], [], [], 0, map[];
      groups := new GroupQueue();
      freed, inflight, batches, updateFailed := {}, map[], map[], false;
    }

    // ---- The link field that the two queues share ----

    method RequestUpdate(s: SockState)
      modifies this`updateQueue
      ensures State() == Requested(old(State()), s)
    {
      if s in updateQueue || s in deletedQueue {
        return;
      }
      updateQueue := updateQueue + [s];
    }

    method AddDeleted(s: SockState)
      modifies this`deletedQueue
      ensures State() == Deferred(old(State()), s)
    {
      if s in updateQueue || s in deletedQueue {
        return;
      }
      deletedQueue := deletedQueue + [s];
    }

    // Takes the socket out of whichever queue its link is in.
    method Unqueue(s: SockState)
      modifies this`updateQueue, this`deletedQueue
      ensures State() == Unqueued(old(State()), s)
    {
      updateQueue, deletedQueue := Without(updateQueue, s), Without(deletedQueue, s);
    }

    // ---- One socket ----

    // sock__cancel_poll
    method CancelPoll(s: SockState, cancelOk: bool)
      requires s in socks && socks[s].status == Pending
      modifies this`socks
      ensures socks == old(socks)[s := PollCancelled(old(socks)[s], cancelOk)]
    {
      if cancelOk {
        socks := socks[s := socks[s].(status := Cancelled, pending := {})];
      }
    }

    // The first half of sock__delete
    method Retire(s: SockState, cancelOk: bool)
      requires s in socks && !socks[s].deletePending
      modifies this`tree, this`updateQueue, this`deletedQueue, this`socks
      ensures State() == Retired(old(State()), s, cancelOk)
    {
      if socks[s].status == Pending {
        CancelPoll(s, cancelOk);
      }
      Unqueue(s);
      tree := tree - {s.socket};
      socks := socks[s := socks[s].(deletePending := true)];
    }

    // Gives the group back and frees the memory.
    method Free(s: SockState)
      requires Balanced(groups, socks.Keys, None) && s in socks
      modifies this`updateQueue, this`deletedQueue, this`socks, this`freed, this`inflight, groups, groups.repr
      ensures Balanced(groups, socks.Keys, None) && groups.repr == old(groups.repr)
      ensures State() == Freed(old(State()), s)
    {
      hide Balanced, Without, Members, Orderly, Total, Tight, GroupsFor;
      Unqueue(s);
      ghost var live := socks.Keys;
      socks, freed, inflight := socks - {s}, freed + {s}, inflight - {s};
      assert s.group in groups.repr by {
        MemberOfRepr(groups, live, s);
      }
      ReturnGroup(s, live, socks.Keys);
    }

    method ReturnGroup(s: SockState, ghost live: set<SockState>, ghost rest: set<SockState>)
      requires Balanced(groups, live, None) && s in live && rest == live - {s}
      modifies groups, s.group
      ensures Balanced(groups, rest, None) && groups.repr == old(groups.repr)
    {
      LentByOld(groups, live, s);
      ReleaseGroup(s.group, rest);
    }

    method ReleaseGroup(group: PollGroup, ghost live: set<SockState>)
      requires Balanced(groups, live, Some(group))
      modifies groups, group
      ensures Balanced(groups, live, None) && groups.repr == old(groups.repr)
    {
      assert group.size > 0;
      ghost var sizes := groups.sizes;
      ghost var k := groups.Release(group);
      ReleaseTotal(sizes, k);
    }

    // sock__delete
    method Delete(s: SockState, force: bool, cancelOk: bool)
      requires Balanced(groups, socks.Keys, None) && s in socks
      modifies this`tree, this`updateQueue, this`deletedQueue, this`socks, this`freed, this`inflight, groups, groups.repr
      ensures Balanced(groups, socks.Keys, None) && groups.repr == old(groups.repr)
      ensures State() == Deleted(old(State()), s, force, cancelOk)
      ensures Unwanted(old(State()), State(), s, cancelOk)
    {
      hide Balanced, Without, Unwanted;
      DeletedRecord(State(), s, force, cancelOk);
      if !socks[s].deletePending {
        Retire(s, cancelOk);
        assert socks.Keys == old(socks).Keys;
      }
      if force || socks[s].status == Idle {
        Free(s);
      } else {
        AddDeleted(s);
      }
    }

    // sock_set_event, which never fails
    method SetEvent(s: SockState, ev: Event)
      requires s in socks
      modifies this`updateQueue, this`socks
      ensures State() == Interested(old(State()), s, ev)
    {
      hide Unwatched, Wanted;
      var events := Wanted(ev.events);
      socks := socks[s := socks[s].(user := events, data := ev.data)];
      if Missing(events, socks[s].pending) {
        RequestUpdate(s);
      }
    }

    // The second half of sock_feed_event, once the socket is known to be still there
    method Reap(s: SockState, c: Completion) returns (report: Option<Event>)
      requires s in socks && !socks[s].deletePending && !LocalClose(c)
      modifies this`updateQueue, this`socks
      ensures State() == Reaped(old(State()), s, Report(old(socks)[s], c)) && socks.Keys == old(socks).Keys
      ensures report == Report(old(socks)[s], c)
    {
      hide FromAfd, EventsOf;
      var events := EventsOf(c);
      RequestUpdate(s);
      events := events * socks[s].user;
      if events == {} {
        return None;
      }
      report := Some(Event(socks[s].data, events));
      if EPOLLONESHOT in socks[s].user {
        socks := socks[s := socks[s].(user := {})];
      }
    }

    // The first lines of sock_feed_event: the request is back.
    method Answer(s: SockState)
      requires s in socks
      modifies this`socks, this`inflight
      ensures State() == Answered(old(State()), s)
      ensures socks.Keys == old(socks).Keys && socks[s].deletePending == old(socks)[s].deletePending
    {
      socks := socks[s := socks[s].(status := Idle, pending := {})];
      inflight := inflight - {s};
    }

    // sock_feed_event
    method Feed(s: SockState, c: Completion) returns (report: Option<Event>)
      requires Balanced(groups, socks.Keys, None) && s in socks
      modifies this`tree, this`updateQueue, this`deletedQueue, this`socks, this`freed, this`inflight, groups, groups.repr
      ensures Balanced(groups, socks.Keys, None) && groups.repr == old(groups.repr)
      ensures State() == Fed(old(State()), s, c)
      ensures report == Report(old(socks)[s], c)
      ensures report.Some? <==> !old(socks)[s].deletePending && !(c.Reported? && AFD_POLL_LOCAL_CLOSE in c.afd)
                                && exists e :: e in old(socks)[s].user && Brought(c, e)
      ensures report.Some? ==>
                && report.value.data == old(socks)[s].data
                && forall e :: e in report.value.events <==> e in old(socks)[s].user && Brought(c, e)
    {
      hide EventsOf, Balanced, Deleted, Reaped, Brought, Unwanted;
      ReportExactly(socks[s], c);
      Answer(s);
      if socks[s].deletePending || LocalClose(c) {
        Delete(s, false, false);
        report := None;
      } else {
        report := Reap(s, c);
      }
    }

    // The request of sock_update that the kernel has accepted
    method Submit(s: SockState)
      requires s in socks
      modifies this`socks, this`inflight
      ensures State() == Asked(old(State()), s) && socks.Keys == old(socks).Keys
    {
      hide ToAfd;
      inflight := inflight[s := ToAfd(socks[s].user)];
      socks := socks[s := socks[s].(status := Pending, pending := socks[s].user)];
    }

    // sock_update; returns false where the code returns -1.
    method Update(s: SockState, answer: Submission, cancelOk: bool) returns (ok: bool)
      requires Balanced(groups, socks.Keys, None) && s in socks && !socks[s].deletePending
      modifies this`tree, this`updateQueue, this`deletedQueue, this`socks, this`freed, this`inflight,
        this`updateFailed, groups, groups.repr
      ensures Balanced(groups, socks.Keys, None) && groups.repr == old(groups.repr)
      ensures State() == Updated(old(State()), s, answer, cancelOk)
      ensures ok <==> !UpdateFails(old(socks)[s], answer, cancelOk)
      ensures ok <==>
                match old(socks)[s].status
                case Pending => old(socks)[s].user * KNOWN_EPOLL_EVENTS <= old(socks)[s].pending || cancelOk
                case Cancelled => true
                case Idle => answer != OtherError
    {
      hide Unwatched, Balanced, Deleted, Without, Asked;
      CoveredExactly(socks[s].user, socks[s].pending);
      ok := true;
      if socks[s].status == Pending && !Missing(socks[s].user, socks[s].pending) {
      } else if socks[s].status == Pending {
        if !cancelOk {
          updateFailed := true;
          return false;
        }
        CancelPoll(s, cancelOk);
      } else if socks[s].status == Cancelled {
      } else {
        if answer == InvalidHandle {
          Delete(s, false, cancelOk);
          return true;
        }
        if answer == OtherError {
          updateFailed := true;
          return false;
        }
        Submit(s);
      }
      assert socks.Keys == old(socks).Keys;
      Unqueue(s);
    }

    // ---- The operations of the port ----

    // port__update_events: the walk ends, at the end of the queue unless an update fails, and loses
    // no socket but those that the kernel refuses.
    method UpdateEvents(answers: Answers) returns (ok: bool)
      requires Valid(UnderLock)
      modifies this`tree, this`updateQueue, this`deletedQueue, this`socks, this`freed, this`inflight,
        this`updateFailed, groups, groups.repr
      ensures Valid(UnderLock) && groups.repr == old(groups.repr)
      ensures State() == UpdatedAll(old(State()), answers, 0)
      ensures Keeps(old(State()), State(), Refused(old(State()), answers, 0), {})
      ensures ok <==> updateQueue == []
      ensures updateFailed <==> !ok
    {
      hide Balanced, Lawful, Updated, Keeps, Refused, UpdateFails;
      UpdatedAllKeeps(State(), answers, 0);
      var i := 0;
      while updateQueue != []
        invariant Valid(UnderLock) && groups.repr == old(groups.repr)
        invariant UpdatedAll(old(State()), answers, 0) == UpdatedAll(State(), answers, i)
        decreases |updateQueue|
      {
        var (answer, cancelOk) := answers(i);
        var done := UpdateFirst(answer, cancelOk);
        if !done {
          return false;
        }
        i := i + 1;
      }
      updateFailed := false;
      ok := true;
    }

    method UpdateFirst(answer: Submission, cancelOk: bool) returns (ok: bool)
      requires Valid(UnderLock) && updateQueue != []
      modifies this`tree, this`updateQueue, this`deletedQueue, this`socks, this`freed, this`inflight,
        this`updateFailed, groups, groups.repr
      ensures Valid(UnderLock) && groups.repr == old(groups.repr)
      ensures old(updateQueue)[0] in old(socks)
      ensures State() == Updated(old(State()), old(updateQueue)[0], answer, cancelOk)
      ensures ok <==> |updateQueue| < |old(updateQueue)|
      ensures !ok ==> updateQueue == old(updateQueue) && updateFailed
    {
      hide Updated, Balanced, Keeps, Settled, ToAfd;
      var s := updateQueue[0];
      assert s in State().updates && Core(State(), s);
      WalkStep(State(), answer, cancelOk);
      ok := Update(s, answer, cancelOk);
    }

    method UpdateEventsIfPolling(answers: Answers)
      requires Valid(UnderLock)
      modifies this`tree, this`updateQueue, this`deletedQueue, this`socks, this`freed, this`inflight,
        this`updateFailed, groups, groups.repr
      ensures Valid(LockFree) && groups.repr == old(groups.repr)
      ensures State() == UpdatedIfPolling(old(State()), answers)
      ensures Keeps(old(State()), State(), RefusedIfPolling(old(State()), answers), {})
    {
      hide Balanced, Lawful, UpdatedAll, Refused, Keeps;
      UpdatedIfPollingKeeps(State(), answers);
      if activePolls > 0 {
        var ok := UpdateEvents(answers);
      }
    }

    // ---- epoll_ctl ----

    // sock_new. The code asserts that the port is still open where it makes a new poll group.
    method SockNew(socket: Socket, baseOk: bool, deviceAvailable: bool, allocOk: bool)
      returns (outcome: Outcome, s: SockState?)
      requires Valid(UnderLock)
      modifies this`tree, this`socks, groups, groups.repr
      ensures Balanced(groups, socks.Keys, None) && groups.repr >= old(groups.repr) && fresh(groups.repr - old(groups.repr))
      ensures outcome == AddOutcome(
                           socket, baseOk, old(groups.Exhausted()), open, deviceAvailable, allocOk, socket in old(tree))
      ensures outcome == AssertionFails <==> ValidHandle(socket) && baseOk && old(groups.Exhausted()) && !open
      ensures outcome == Done <==> s != null
      ensures outcome == Done <==> ValidHandle(socket) && baseOk && allocOk && socket !in old(tree)
                                   && (old(groups.Exhausted()) ==> open && deviceAvailable)
      ensures |groups.repr| == |old(groups.repr)|
              + if ValidHandle(socket) && baseOk && old(groups.Exhausted()) && open && deviceAvailable then 1 else 0
      ensures s == null ==> State() == old(State())
      ensures s != null ==> fresh(s) && s.socket == socket && State() == Registered(old(State()), s)
    {
      hide Balanced;
      if !ValidHandle(socket) || !baseOk {
        return Failed, null;
      }
      if groups.Exhausted() && !open {
        return AssertionFails, null;
      }
      var group := AcquireGroup(deviceAvailable);
      if group == null {
        return Failed, null;
      }
      s := Admit(socket, group, allocOk);
      outcome := if s != null then Done else Failed;
    }

    // The rest of sock_new, with a group in hand; gives it back when the socket cannot be had.
    method Admit(socket: Socket, group: PollGroup, allocOk: bool) returns (s: SockState?)
      requires Balanced(groups, socks.Keys, Some(group))
      modifies this`tree, this`socks, groups, group
      ensures Balanced(groups, socks.Keys, None) && groups.repr == old(groups.repr)
      ensures s != null <==> allocOk && socket !in old(tree)
      ensures s == null ==> State() == old(State())
      ensures s != null ==> fresh(s) && s.socket == socket && State() == Registered(old(State()), s)
    {
      hide Balanced;
      s := null;
      if allocOk {
        s := new SockState(socket, group);
        if socket in tree {
          s := null;
        }
      }
      if s == null {
        ReleaseGroup(group, socks.Keys);
      } else {
        LentToNew(groups, socks.Keys, s);
        assert socks[s := Sock(0, {}, {}, Idle, false)].Keys == socks.Keys + {s};
        tree, socks := tree[socket := s], socks[s := Sock(0, {}, {}, Idle, false)];
      }
    }

    method AcquireGroup(deviceAvailable: bool) returns (group: PollGroup?)
      requires Balanced(groups, socks.Keys, None)
      modifies groups, groups.repr
      ensures groups.repr >= old(groups.repr) && fresh(groups.repr - old(groups.repr))
      ensures group == null <==> old(groups.Exhausted()) && !deviceAvailable
      ensures group == null ==> Balanced(groups, socks.Keys, None)
      ensures group != null ==> group in groups.repr && Balanced(groups, socks.Keys, Some(group))
      ensures |groups.repr| == |old(groups.repr)| + if old(groups.Exhausted()) && deviceAvailable then 1 else 0
    {
      hide Total, Acquired, Members, Orderly, GroupsFor;
      ghost var sizes := groups.sizes;
      AcquireTotal(sizes);
      group := groups.Acquire(deviceAvailable);
      if group != null && group !in old(groups.repr) {
        NoMembersYet(socks.Keys, group);
      }
      assert group != null && group in old(groups.repr) ==> groups.repr == old(groups.repr);
    }

    // What port__ctl_add and port__ctl_mod do once they have the socket.
    method SetAndUpdate(s: SockState, ev: Event, answers: Answers)
      requires s in socks && Balanced(groups, socks.Keys, None) && activePolls == |batches|
      requires Lawful(Interested(State(), s, ev), UnderLock) && Interested(State(), s, ev).socks.Keys == socks.Keys
      modifies this`tree, this`updateQueue, this`deletedQueue, this`socks, this`freed, this`inflight,
        this`updateFailed, groups, groups.repr
      ensures Valid(LockFree) && groups.repr == old(groups.repr)
      ensures State() == UpdatedIfPolling(Interested(old(State()), s, ev), answers)
      ensures Keeps(Interested(old(State()), s, ev), State(),
                    RefusedIfPolling(Interested(old(State()), s, ev), answers), {})
    {
      hide Balanced, Lawful, Interested, Keeps, UpdatedIfPolling, RefusedIfPolling;
      SetEvent(s, ev);
      assert socks.Keys == State().socks.Keys;
      UpdateEventsIfPolling(answers);
    }

    // port__ctl_add: a new socket with the asked interest, and nobody else touched, except that
    // the walk which follows while threads wait loses those that the kernel refuses.
    method CtlAdd(socket: Socket, ev: Event, baseOk: bool, deviceAvailable: bool, allocOk: bool, answers: Answers)
      returns (outcome: Outcome, s: SockState?)
      requires Valid(LockFree)
      modifies this`tree, this`updateQueue, this`deletedQueue, this`socks, this`freed, this`inflight,
        this`updateFailed, groups, groups.repr
      ensures Valid(LockFree)
      ensures groups.repr >= old(groups.repr) && fresh(groups.repr - old(groups.repr))
      ensures outcome == AddOutcome(
                           socket, baseOk, old(groups.Exhausted()), open, deviceAvailable, allocOk, socket in old(tree))
      ensures outcome == AssertionFails <==> ValidHandle(socket) && baseOk && old(groups.Exhausted()) && !open
      ensures outcome == Done <==> s != null
      ensures outcome == Done <==> ValidHandle(socket) && baseOk && allocOk && socket !in old(tree)
                                   && (old(groups.Exhausted()) ==> open && deviceAvailable)
      ensures |groups.repr| == |old(groups.repr)|
              + if ValidHandle(socket) && baseOk && old(groups.Exhausted()) && open && deviceAvailable then 1 else 0
      ensures s == null ==> State() == old(State())
      ensures s != null ==>
                && fresh(s) && s.socket == socket && State() == Added(old(State()), s, ev, answers)
                && Keeps(Interested(Registered(old(State()), s), s, ev), State(),
                         RefusedIfPolling(Interested(Registered(old(State()), s), s, ev), answers), {})
    {
      hide Balanced, Lawful, Interested, Keeps, AddOutcome, Registered, UpdatedIfPolling, RefusedIfPolling, ValidHandle;
      LockedToo(State());
      outcome, s := SockNew(socket, baseOk, deviceAvailable, allocOk);
      if s == null {
        return;
      }
      Settle(s, ev, answers, old(State()));
    }

    method Settle(s: SockState, ev: Event, answers: Answers, ghost before: Port)
      requires Balanced(groups, socks.Keys, None) && activePolls == |batches|
      requires Lawful(before, UnderLock) && State() == Registered(before, s)
      requires s !in before.socks && s !in before.freed && s.socket !in before.tree
      modifies this`tree, this`updateQueue, this`deletedQueue, this`socks, this`freed, this`inflight,
        this`updateFailed, groups, groups.repr
      ensures Valid(LockFree) && groups.repr == old(groups.repr)
      ensures State() == Added(before, s, ev, answers)
      ensures Keeps(Interested(Registered(before, s), s, ev), State(),
                    RefusedIfPolling(Interested(Registered(before, s), s, ev), answers), {})
    {
      hide Balanced, Lawful, Interested, Keeps, Registered, UpdatedIfPolling, RefusedIfPolling;
      AddLawful(before, s, ev);
      assert State().socks.Keys == before.socks.Keys + {s};
      SetAndUpdate(s, ev, answers);
    }

    // port__ctl_mod
    method CtlMod(socket: Socket, ev: Event, answers: Answers) returns (outcome: Outcome)
      requires Valid(LockFree)
      modifies this`tree, this`updateQueue, this`deletedQueue, this`socks, this`freed, this`inflight,
        this`updateFailed, groups, groups.repr
      ensures Valid(LockFree) && groups.repr == old(groups.repr)
      ensures outcome == if socket in old(tree) then Done else Failed
      ensures State() == Modified(old(State()), socket, ev, answers)
      ensures outcome == Failed ==> State() == old(State())
      ensures outcome == Done ==>
                && old(tree)[socket] in old(socks)
                && Keeps(Interested(old(State()), old(tree)[socket], ev), State(),
                         RefusedIfPolling(Interested(old(State()), old(tree)[socket], ev), answers), {})
    {
      hide Balanced, Lawful, Interested, Keeps, UpdatedIfPolling, RefusedIfPolling;
      if socket !in tree {
        return Failed;
      }
      LockedToo(State());
      ModLawful(State(), socket, ev);
      SetAndUpdate(tree[socket], ev, answers);
      outcome := Done;
    }

    // port__ctl_del
    method CtlDel(socket: Socket, cancelOk: bool) returns (outcome: Outcome)
      requires Valid(LockFree)
      modifies this`tree, this`updateQueue, this`deletedQueue, this`socks, this`freed, this`inflight, groups, groups.repr
      ensures Valid(LockFree) && groups.repr == old(groups.repr)
      ensures outcome == if socket in old(tree) then Done else Failed
      ensures State() == Removed(old(State()), socket, cancelOk)
      ensures outcome == Failed ==> State() == old(State())
      ensures outcome == Done ==>
                && old(tree)[socket] in old(socks) && tree == old(tree) - {socket}
                && Unwanted(old(State()), State(), old(tree)[socket], cancelOk)
                && (old(socks)[old(tree)[socket]].status == Idle <==> old(tree)[socket] !in socks)
    {
      hide Balanced, Lawful, Deleted, Unwanted;
      if socket !in tree {
        return Failed;
      }
      DelLawful(State(), socket, cancelOk);
      RemovedTree(State(), socket, cancelOk);
      RemovedRecord(State(), socket, cancelOk);
      Delete(tree[socket], false, cancelOk);
      outcome := Done;
    }

    // ---- epoll_wait ----

    // port__poll up to the point where the lock is released and the thread waits in the kernel.
    method PollEnter(t: Tid, answers: Answers) returns (ok: bool)
      requires Valid(UnderLock) && t !in batches
      modifies this`tree, this`updateQueue, this`deletedQueue, this`socks, this`freed, this`inflight,
        this`updateFailed, this`batches, this`activePolls, groups, groups.repr
      ensures Valid(UnderLock) && (ok ==> Valid(LockFree)) && groups.repr == old(groups.repr)
      ensures State() == Entered(old(State()), t, answers)
      ensures ok <==> updateQueue == []
      ensures batches == if ok then old(batches)[t := []] else old(batches)
      ensures updateFailed <==> !ok
      ensures Keeps(old(State()), State(), Refused(old(State()), answers, 0), {})
    {
      hide Balanced, Lawful, Keeps, UpdatedAll, Refused;
      EnteredKeeps(State(), t, answers);
      ok := UpdateEvents(answers);
      if ok {
        activePolls := activePolls + 1;
        batches := batches[t := []];
      }
    }

    // A round of port_wait up to the wait: when its poll fails the loop is left.
    method WaitStart(t: Tid, answers: Answers, later: Answers) returns (waiting: bool)
      requires Valid(UnderLock) && t !in batches
      modifies this`tree, this`updateQueue, this`deletedQueue, this`socks, this`freed, this`inflight,
        this`updateFailed, this`batches, this`activePolls, groups, groups.repr
      ensures Valid(LockFree) && groups.repr == old(groups.repr)
      ensures State() == Waiting(old(State()), t, answers, later)
      ensures batches == if waiting then old(batches)[t := []] else old(batches)
      ensures waiting <==> Entered(old(State()), t, answers).updates == []
      ensures waiting ==> updateQueue == []
      ensures Keeps(old(State()), State(), RefusedWaiting(old(State()), t, answers, later), {})
    {
      hide Balanced, Lawful, Keeps, Entered, UpdatedIfPolling, RefusedWaiting;
      WaitingKeeps(State(), t, answers, later);
      waiting := PollEnter(t, answers);
      if !waiting {
        UpdateEventsIfPolling(later);
      }
    }

    // The kernel hands completed requests to a waiting thread.
    method Dequeue(t: Tid, batch: seq<SockState>, ghost phase: Phase) returns (taken: bool)
      requires Valid(phase)
      modifies this`batches
      ensures Valid(phase)
      ensures taken <==> CanTake(old(State()), t, batch)
      ensures State() == Took(old(State()), t, batch)
    {
      hide Balanced, Lawful;
      taken := t in batches && batches[t] == [] && Distinct(batch)
        && (forall s | s in batch :: s in inflight)
        && (forall u | u in batches :: forall s | s in batch :: s !in batches[u]);
      if taken {
        TakeLawful(State(), t, batch, phase);
        batches := batches[t := batch];
      }
    }

    // port__feed_events
    method FeedEvents(batch: seq<SockState>, cs: seq<Completion>) returns (reports: seq<Event>)
      requires Valid(UnderLock) && |batch| == |cs| && Loose(State(), batch)
      modifies this`tree, this`updateQueue, this`deletedQueue, this`socks, this`freed, this`inflight, groups, groups.repr
      ensures Valid(UnderLock) && groups.repr == old(groups.repr)
      ensures State() == FedAll(old(State()), batch, cs).0 && reports == FedAll(old(State()), batch, cs).1
    {
      hide Balanced, Lawful, Fed, FedAll, Report, Loose, Brought;
      reports := [];
      var i := 0;
      assert batch[0..] == batch && cs[0..] == cs;
      while i < |batch|
        invariant i <= |batch|
        invariant Valid(UnderLock) && groups.repr == old(groups.repr)
        invariant Loose(State(), batch[i..])
        invariant FedAll(old(State()), batch, cs).0 == FedAll(State(), batch[i..], cs[i..]).0
        invariant FedAll(old(State()), batch, cs).1 == reports + FedAll(State(), batch[i..], cs[i..]).1
      {
        FedLawful(State(), batch[i..], cs[i]);
        NextFed(reports, State(), batch, cs, i);
        assert batch[i..][1..] == batch[i + 1..];
        var report := Feed(batch[i], cs[i]);
        if report.Some? {
          reports := reports + [report.value];
        }
        i := i + 1;
      }
      assert batch[i..] == [] && cs[i..] == [];
      NoneFed(State());
    }

    // The wait of thread t is over: it takes the lock again and feeds what it was given.
    method Leave(t: Tid, cs: seq<Completion>) returns (reports: seq<Event>)
      requires Valid(LockFree) && t in batches && |cs| == |batches[t]|
      modifies this`tree, this`updateQueue, this`deletedQueue, this`socks, this`freed, this`inflight,
        this`batches, this`activePolls, groups, groups.repr
      ensures Valid(UnderLock) && groups.repr == old(groups.repr)
      ensures State() == Left(old(State()), t, cs).0 && reports == Left(old(State()), t, cs).1
      ensures batches == old(batches) - {t}
    {
      hide Balanced, Lawful, FedAll;
      LockedToo(State());
      LeaveLawful(State(), t);
      var batch := batches[t];
      activePolls := activePolls - 1;
      batches := batches - {t};
      reports := FeedEvents(batch, cs);
    }

    // The rest of port__poll, and either another round of the loop in port_wait (again) or its end.
    // Out of the tree are then exactly the sockets that the batch reports closed and those that the
    // kernel refuses in a walk.
    method PollReturn(t: Tid, success: bool, cs: seq<Completion>, due: bool, answers: Answers, later: Answers)
      returns (again: bool, failed: bool, reports: seq<Event>)
      requires Valid(LockFree) && t in batches && |cs| == |batches[t]|
      requires !success ==> batches[t] == []
      modifies this`tree, this`updateQueue, this`deletedQueue, this`socks, this`freed, this`inflight,
        this`updateFailed, this`batches, this`activePolls, groups, groups.repr
      ensures Valid(LockFree) && groups.repr == old(groups.repr)
      ensures State() == Returned(old(State()), t, success, cs, due, answers, later)
      ensures reports == Left(old(State()), t, cs).1
      ensures again <==> success && reports == [] && !due
                         && Entered(Left(old(State()), t, cs).0, t, answers).updates == []
      ensures failed <==> !success || (reports == [] && !due && !again)
      ensures batches == if again then old(batches)[t := []] else old(batches) - {t}
      ensures Keeps(old(State()), State(),
                    ClosedBy(old(batches)[t], cs) + RefusedReturning(old(State()), t, success, cs, due, answers, later),
                    Silenced(old(State()).(batches := old(batches) - {t}), old(batches)[t], cs))
    {
      hide Balanced, Lawful, Left, Keeps, Waiting, UpdatedIfPolling, ClosedBy, RefusedReturning, Silenced;
      ReturnedKeeps(State(), t, success, cs, due, answers, later);
      reports := Leave(t, cs);
      again, failed := false, !success;
      if success && reports == [] && !due {
        again := WaitStart(t, answers, later);
        failed := !again;
      } else {
        UpdateEventsIfPolling(later);
      }
    }

    // ---- epoll_close ----

    // port_close
    method Close()
      modifies this`open
      ensures !open
    {
      open := false;
    }

    method ForceDelete(s: SockState, cancelOk: bool)
      requires Valid(UnderLock) && s in socks && batches == map[]
      modifies this`tree, this`updateQueue, this`deletedQueue, this`socks, this`freed, this`inflight, groups, groups.repr
      ensures Valid(UnderLock) && groups.repr == old(groups.repr)
      ensures if old(socks)[s].deletePending then tree == old(tree) else |tree| < |old(tree)|
      ensures Lacks(deletedQueue, old(deletedQueue), s)
      ensures s !in socks && freed + socks.Keys == old(freed) + old(socks).Keys
    {
      hide Balanced, Lawful, Deleted;
      ForcedLawful(State(), s, cancelOk);
      Delete(s, true, cancelOk);
    }

    method DeleteRoot(cancels: SockState -> bool)
      requires Valid(UnderLock) && batches == map[] && tree != map[]
      modifies this`tree, this`updateQueue, this`deletedQueue, this`socks, this`freed, this`inflight, groups, groups.repr
      ensures Valid(UnderLock) && groups.repr == old(groups.repr) && |tree| < |old(tree)|
      ensures freed + socks.Keys == old(freed) + old(socks).Keys
    {
      hide Balanced, Lawful, Lacks;
      var k := SomeKey(tree);
      TreeSocket(State(), k);
      ForceDelete(tree[k], cancels(tree[k]));
    }

    method DeleteRegistered(cancels: SockState -> bool)
      requires Valid(UnderLock) && batches == map[]
      modifies this`tree, this`updateQueue, this`deletedQueue, this`socks, this`freed, this`inflight, groups, groups.repr
      ensures Valid(UnderLock) && groups.repr == old(groups.repr) && tree == map[]
      ensures freed + socks.Keys == old(freed) + old(socks).Keys
    {
      hide Balanced, Lawful, Lacks;
      while tree != map[]
        invariant Valid(UnderLock) && groups.repr == old(groups.repr)
        invariant freed + socks.Keys == old(freed) + old(socks).Keys
        decreases |tree|
      {
        DeleteRoot(cancels);
      }
    }

    method DeleteWaiting(cancels: SockState -> bool)
      requires Valid(UnderLock) && batches == map[] && tree == map[]
      modifies this`tree, this`updateQueue, this`deletedQueue, this`socks, this`freed, this`inflight, groups, groups.repr
      ensures Valid(UnderLock) && groups.repr == old(groups.repr) && tree == map[] && deletedQueue == []
      ensures freed + socks.Keys == old(freed) + old(socks).Keys
    {
      hide Balanced, Lawful;
      while deletedQueue != []
        invariant Valid(UnderLock) && groups.repr == old(groups.repr) && tree == map[]
        invariant freed + socks.Keys == old(freed) + old(socks).Keys
        decreases |deletedQueue|
      {
        DeletedSocket(State());
        ForceDelete(deletedQueue[0], cancels(deletedQueue[0]));
      }
    }

    // port_delete, once no thread uses the port any more: its loops end, its assertions hold, and
    // every socket still there is freed, once.
    method DeletePort(cancels: SockState -> bool)
      requires Valid(UnderLock) && batches == map[] && !open
      modifies this`tree, this`updateQueue, this`deletedQueue, this`socks, this`freed, this`inflight, groups, groups.repr
      ensures tree == map[] && updateQueue == [] && deletedQueue == [] && groups.queue == []
      ensures socks == map[] && freed == old(freed) + old(socks).Keys
    {
      hide Balanced, Lawful;
      DeleteRegistered(cancels);
      DeleteWaiting(cancels);
      LastSocketGone(State());
      DeleteGroups();
      assert updateQueue == [];
    }

    method DeleteGroups()
      requires Balanced(groups, {}, None)
      modifies groups
      ensures groups.queue == []
    {
      while groups.queue != []
        invariant forall g | g in groups.queue :: g.size == 0
        decreases |groups.queue|
      {
        var group := groups.queue[0];
        assert group.size == 0;
        groups.queue := groups.queue[1..];
      }
    }
  }

  // ---- Whole runs ----

  method PerformAdd(port: EpollPort, what: Happening, ghost told: seq<Event>) returns (ghost made: Option<SockState>)
    requires port.Valid(LockFree) && what.op.Add?
    modifies port, port.groups, port.groups.repr
    ensures port.Valid(LockFree)
    ensures port.groups.repr >= old(port.groups.repr) && fresh(port.groups.repr - old(port.groups.repr))
    ensures Enabled(old(port.Snapshot(told)), Turn(what, made))
    ensures port.Snapshot(told) == Step(old(port.Snapshot(told)), Turn(what, made))
  {
    hide Balanced, Lawful, Keeps, Added, Interested, Registered, RefusedIfPolling, ValidHandle;
    ExhaustedIsFull(port.groups, port.socks.Keys);
    var Add(socket, ev, baseOk, deviceAvailable, allocOk) := what.op;
    var outcome, s := port.CtlAdd(socket, ev, baseOk, deviceAvailable, allocOk, what.answers);
    made := None;
    if s != null {
      made := Some(s);
    }
  }

  method PerformWait(port: EpollPort, what: Happening, ghost told: seq<Event>) returns (reports: seq<Event>)
    requires port.Valid(LockFree) && (what.op.Enter? || what.op.Take? || what.op.Return?)
    modifies port, port.groups, port.groups.repr
    ensures port.Valid(LockFree) && port.groups.repr == old(port.groups.repr)
    ensures port.Snapshot(told + reports) == Step(old(port.Snapshot(told)), Turn(what, None))
  {
    hide Balanced, Lawful, CanTake, Keeps, Waiting, Returned, Left, ClosedBy, Silenced, RefusedWaiting, RefusedReturning;
    reports := [];
    match what.op
    case Enter(t) =>
      if t !in port.batches {
        LockedToo(port.State());
        var waiting := port.WaitStart(t, what.answers, what.later);
      }
    case Take(t, pick) =>
      var taken := port.Dequeue(t, pick(port.inflight), LockFree);
    case Return(t, success, cs, due) =>
      if t in port.batches && |cs| == |port.batches[t]| && (success || port.batches[t] == []) {
        var again, failed;
        again, failed, reports := port.PollReturn(t, success, cs, due, what.answers, what.later);
      }
  }

  // Every happening is a step of the machine in PortRuns.dfy. One that no thread or kernel could
  // bring about now is passed over.
  method Perform(port: EpollPort, what: Happening, ghost told: seq<Event>)
    returns (ghost made: Option<SockState>, reports: seq<Event>)
    requires port.Valid(LockFree)
    modifies port, port.groups, port.groups.repr
    ensures port.Valid(LockFree)
    ensures port.groups.repr >= old(port.groups.repr) && fresh(port.groups.repr - old(port.groups.repr))
    ensures Enabled(old(port.Snapshot(told)), Turn(what, made))
    ensures port.Snapshot(told + reports) == Step(old(port.Snapshot(told)), Turn(what, made))
  {
    hide Balanced, Lawful, CanTake, Keeps, Interested, Added, Modified, Removed, Waiting, Returned, Left, ClosedBy,
      Silenced, RefusedIfPolling, RefusedWaiting, RefusedReturning;
    made, reports := None, [];
    match what.op
    case Add(_, _, _, _, _) =>
      made := PerformAdd(port, what, told);
    case Mod(socket, ev) =>
      var outcome := port.CtlMod(socket, ev, what.answers);
    case Del(socket, cancelOk) =>
      var outcome := port.CtlDel(socket, cancelOk);
    case CloseIt =>
      port.Close();
    case _ =>
      reports := PerformWait(port, what, told);
  }

  // Any sequence of calls and completions, in any order, with any answers of the kernel, is a legal
  // run of the machine, and leaves the port in the state, and with the reports, that it says.
  method Run(happenings: seq<Happening>) returns (port: EpollPort, reports: seq<Event>, ghost run: seq<Turn>)
    ensures port.Valid(LockFree) && fresh(port) && fresh(port.groups) && fresh(port.groups.repr)
    ensures |run| == |happenings| && forall i | 0 <= i < |run| :: run[i].what == happenings[i]
    ensures Legal(FRESH, run) && port.Snapshot(reports) == After(FRESH, run)
    ensures port.open <==> !Closes(run)
  {
    hide Balanced, Lawful, Enabled, Step;
    port := new EpollPort();
    reports, run := [], [];
    for i := 0 to |happenings|
      invariant port.Valid(LockFree) && fresh(port) && fresh(port.groups) && fresh(port.groups.repr)
      invariant |run| == i && forall j | 0 <= j < i :: run[j].what == happenings[j]
      invariant Legal(FRESH, run) && port.Snapshot(reports) == After(FRESH, run)
    {
      ghost var made;
      var more;
      made, more := Perform(port, happenings[i], reports);
      RunSnoc(FRESH, run, Turn(happenings[i], made));
      reports, run := reports + more, run + [Turn(happenings[i], made)];
    }
    RunOpen(FRESH, run);
  }

  // A run, and then the end of the port, exactly if it has been closed and no thread is inside a
  // wait. All memory ever given to its sockets is then freed.
  method RunAndDelete(happenings: seq<Happening>, cancels: SockState -> bool)
    returns (port: EpollPort, deleted: bool, ghost run: seq<Turn>)
    ensures |run| == |happenings| && forall i | 0 <= i < |run| :: run[i].what == happenings[i]
    ensures Legal(FRESH, run)
    ensures deleted <==> Closes(run) && After(FRESH, run).p.batches == map[]
    ensures !deleted ==> port.Valid(LockFree) && port.State() == After(FRESH, run).p
    ensures deleted ==>
              && port.tree == map[] && port.updateQueue == [] && port.deletedQueue == [] && port.groups.queue == []
              && port.socks == map[]
    ensures deleted ==> port.freed == Made(run) && |port.freed| == Adds(run)
  {
    hide Balanced, Lawful, Enabled, Step;
    var reports;
    port, reports, run := Run(happenings);
    RunFreesOnce(run);
    deleted := !port.open && port.batches == map[];
    if deleted {
      LockedToo(port.State());
      port.DeletePort(cancels);
    }
  }

  // A port that has been closed, and no group with room left: a thread still inside epoll_ctl then
  // runs into the assertion that the port is open.
  method AddAfterClose(ev: Event) returns (outcome: Outcome)
    ensures outcome == AssertionFails
  {
    var port := new EpollPort();
    port.Close();
    var s;
    outcome, s := port.CtlAdd(7, ev, true, true, true, _ => (InProgress, true));
  }
}
