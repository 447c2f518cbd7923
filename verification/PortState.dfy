// The port of wepoll as a value: its registered sockets, the poll request the kernel holds for
// each of them, and the two queues a socket can wait in. The operations on one socket are
// functions here; SocketPort.dfy holds the methods that carry them out in place.

module PortState {
  import opened Basics
  import opened EpollEvents
  import opened PollGroups

  type Socket = nat
  type Tid = nat

  datatype Status = Idle | Pending | Cancelled

  // What afd_poll returns; the first two leave a request with the kernel.
  datatype Submission = Submitted | InProgress | InvalidHandle | OtherError

  // What the kernel writes into a completed request.
  datatype Completion = WasCancelled | RequestFailed | NoHandles | Reported(afd: Mask)

  // As in struct epoll_event.
  datatype Event = Event(data: int, events: Mask)

  // The address of a sock_state, with the two fields that never change.
  class SockState {
    const socket: Socket
    const group: PollGroup

    constructor (socket: Socket, group: PollGroup)
      ensures this.socket == socket && this.group == group
    {
      this.socket, this.group := socket, group;
    }
  }

  // The fields of a sock_state that change.
  datatype Sock = Sock(data: int, user: Mask, pending: Mask, status: Status, deletePending: bool)

  // `socks` holds the allocated sockets, `freed` those given back; `inflight` the requests not
  // yet fed to the port, with the kernel events each watches; `batches`, for every thread inside
  // GetQueuedCompletionStatusEx, the completions it has taken from there. `updateFailed` says that
  // the last walk over the update queue stopped at a failure.
  datatype Port = Port(
    tree: map<Socket, SockState>,
    updates: seq<SockState>,
    deleted: seq<SockState>,
    socks: map<SockState, Sock>,
    freed: set<SockState>,
    inflight: map<SockState, Mask>,
    batches: map<Tid, seq<SockState>>,
    updateFailed: bool)

  // ---- The invariant ----

  // What holds of an allocated socket throughout.
  ghost predicate Core(p: Port, s: SockState)
    requires s in p.socks
  {
    var r := p.socks[s];
    && (r.deletePending <==> s.socket !in p.tree || p.tree[s.socket] != s)
    && (s in p.updates ==> !r.deletePending)
    && (s in p.deleted ==> r.deletePending)
    && (r.status == Idle <==> s !in p.inflight)
    && (r.status != Pending ==> r.pending == {})
    && (r.status == Pending ==> s in p.inflight && p.inflight[s] == ToAfd(r.pending))
  }

  // What holds of it besides, except while an operation is at work on it.
  ghost predicate Settled(p: Port, s: SockState)
    requires s in p.socks
  {
    var r := p.socks[s];
    && (r.deletePending ==> r.status != Idle && s in p.deleted)
    && (!r.deletePending && r.status == Idle ==> s in p.updates)
    && (!r.deletePending && r.status == Pending && s !in p.updates ==> !Missing(r.user, r.pending))
  }

  ghost predicate Linked(p: Port) {
    && Distinct(p.updates) && Distinct(p.deleted)
    && (forall s | s in p.updates :: s in p.socks)
    && (forall s | s in p.deleted :: s in p.socks)
    && (forall k | k in p.tree :: p.tree[k] in p.socks && p.tree[k].socket == k)
    && (forall s | s in p.inflight :: s in p.socks && s !in p.freed)
    && p.socks.Keys !! p.freed
  }

  ghost predicate InvBut(p: Port, x: Option<SockState>) {
    && Linked(p)
    && (forall s {:trigger Core(p, s)} | s in p.socks :: Core(p, s))
    && (forall s {:trigger Settled(p, s)} | s in p.socks && Some(s) != x :: Settled(p, s))
  }

  ghost predicate Inv(p: Port) {
    InvBut(p, None)
  }

  // ---- The link field that the two queues share ----

  predicate Enqueued(p: Port, s: SockState) {
    s in p.updates || s in p.deleted
  }

  function Requested(p: Port, s: SockState): Port {
    if Enqueued(p, s) then p else p.(updates := p.updates + [s])
  }

  function Unqueued(p: Port, s: SockState): Port {
    p.(updates := Without(p.updates, s), deleted := Without(p.deleted, s))
  }

  // r has the elements of q except x, each once.
  ghost predicate Lacks<T>(r: seq<T>, q: seq<T>, x: T) {
    && Distinct(r)
    && (forall y | y in r :: y in q && y != x)
    && (forall y | y in q && y != x :: y in r)
    && |r| == |q| - if x in q then 1 else 0
  }

  lemma {:induction false} WithoutKeeps<T>(q: seq<T>, x: T)
    requires Distinct(q)
    ensures Lacks(Without(q, x), q, x)
  {
    if q != [] {
      WithoutKeeps(q[1..], x);
      assert q == [q[0]] + q[1..];
      assert q[0] !in q[1..];
    }
  }

  lemma {:induction false} WithoutAbsent<T>(q: seq<T>, x: T)
    requires x !in q
    ensures Without(q, x) == q
  {
    if q != [] {
      WithoutAbsent(q[1..], x);
    }
  }

  // ---- The operations on one socket ----

  function PollCancelled(r: Sock, ok: bool): Sock {
    if r.status == Pending && ok then r.(status := Cancelled, pending := {}) else r
  }

  // The first half of sock__delete: out of the tree and the update queue.
  function Retired(p: Port, s: SockState, cancelOk: bool): Port
    requires s in p.socks
  {
    var r := PollCancelled(p.socks[s], cancelOk).(deletePending := true);
    Unqueued(p, s).(tree := p.tree - {s.socket}, socks := p.socks[s := r])
  }

  function Freed(p: Port, s: SockState): Port {
    Unqueued(p, s).(socks := p.socks - {s}, freed := p.freed + {s}, inflight := p.inflight - {s})
  }

  function Deferred(p: Port, s: SockState): Port {
    if Enqueued(p, s) then p else p.(deleted := p.deleted + [s])
  }

  // sock__delete
  function Deleted(p: Port, s: SockState, force: bool, cancelOk: bool): Port
    requires s in p.socks
  {
    var q := if p.socks[s].deletePending then p else Retired(p, s, cancelOk);
    if force || q.socks[s].status == Idle then Freed(q, s) else Deferred(q, s)
  }

  // port_register_socket for a new sock_state
  function Registered(p: Port, s: SockState): Port {
    p.(tree := p.tree[s.socket := s], socks := p.socks[s := Sock(0, {}, {}, Idle, false)])
  }

  // sock_set_event
  function Interested(p: Port, s: SockState, ev: Event): Port
    requires s in p.socks
  {
    var r := p.socks[s].(data := ev.data, user := Wanted(ev.events));
    var q := p.(socks := p.socks[s := r]);
    if Missing(r.user, r.pending) then Requested(q, s) else q
  }

  // sock_update
  function Updated(p: Port, s: SockState, answer: Submission, cancelOk: bool): Port
    requires s in p.socks
  {
    var r := p.socks[s];
    match r.status
    case Pending =>
      if !Missing(r.user, r.pending) then Unqueued(p, s)
      else if cancelOk then Unqueued(p.(socks := p.socks[s := PollCancelled(r, true)]), s)
      else p.(updateFailed := true)
    case Cancelled => Unqueued(p, s)
    case Idle =>
      match answer
      case InvalidHandle => Deleted(p, s, false, cancelOk)
      case OtherError => p.(updateFailed := true)
      case _ => Unqueued(Asked(p, s), s)
  }

  // A request for everything the user wants is with the kernel.
  function Asked(p: Port, s: SockState): Port
    requires s in p.socks
  {
    var r := p.socks[s];
    p.(socks := p.socks[s := r.(status := Pending, pending := r.user)], inflight := p.inflight[s := ToAfd(r.user)])
  }

  predicate UpdateFails(r: Sock, answer: Submission, cancelOk: bool) {
    || (r.status == Pending && Missing(r.user, r.pending) && !cancelOk)
    || (r.status == Idle && answer == OtherError)
  }

  predicate LocalClose(c: Completion) {
    c.Reported? && AFD_POLL_LOCAL_CLOSE in c.afd
  }

  // The epoll events a completion stands for, before the user's filter.
  function EventsOf(c: Completion): Mask {
    match c
    case WasCancelled => {}
    case RequestFailed => {EPOLLERR}
    case NoHandles => {}
    case Reported(afd) => FromAfd(afd)
  }

  // The completion brings the epoll event, whether the user wants it or not.
  predicate Brought(c: Completion, e: nat) {
    match c
    case Reported(afd) => exists a | a in afd :: Brings(a, e)
    case RequestFailed => e == EPOLLERR
    case _ => false
  }

  function Answered(p: Port, s: SockState): Port
    requires s in p.socks
  {
    p.(socks := p.socks[s := p.socks[s].(status := Idle, pending := {})], inflight := p.inflight - {s})
  }

  // What sock_feed_event reports to the user.
  function Report(r: Sock, c: Completion): Option<Event> {
    if r.deletePending || LocalClose(c) || EventsOf(c) * r.user == {} then None
    else Some(Event(r.data, EventsOf(c) * r.user))
  }

  function Reaped(p: Port, s: SockState, report: Option<Event>): Port
    requires s in p.socks
  {
    var q := Requested(p, s);
    if report.Some? && EPOLLONESHOT in p.socks[s].user then
      q.(socks := p.socks[s := p.socks[s].(user := {})])
    else q
  }

  // sock_feed_event
  function Fed(p: Port, s: SockState, c: Completion): Port
    requires s in p.socks
  {
    var q := Answered(p, s);
    if p.socks[s].deletePending || LocalClose(c) then Deleted(q, s, false, false)
    else Reaped(q, s, Report(p.socks[s], c))
  }

  // ---- Each keeps the invariant ----

  lemma UnqueuedKeeps(p: Port, s: SockState)
    requires Linked(p)
    ensures Linked(Unqueued(p, s))
    ensures Lacks(Unqueued(p, s).updates, p.updates, s)
    ensures Lacks(Unqueued(p, s).deleted, p.deleted, s)
  {
    WithoutKeeps(p.updates, s);
    WithoutKeeps(p.deleted, s);
  }

  // A step that changes only what concerns s leaves every other socket's conditions alone.
  ghost predicate SameFor(p: Port, q: Port, x: SockState) {
    && (x in p.socks <==> x in q.socks)
    && (x in p.socks ==> p.socks[x] == q.socks[x])
    && (x in p.updates <==> x in q.updates)
    && (x in p.deleted <==> x in q.deleted)
    && (x in p.inflight <==> x in q.inflight)
    && (x in p.inflight ==> p.inflight[x] == q.inflight[x])
    && (x.socket in p.tree && p.tree[x.socket] == x <==> x.socket in q.tree && q.tree[x.socket] == x)
  }

  lemma OthersKept(p: Port, q: Port, s: SockState)
    requires InvBut(p, Some(s)) && Linked(q)
    requires forall x {:trigger SameFor(p, q, x)} | x in p.socks || x in q.socks :: x != s ==> SameFor(p, q, x)
    requires s in q.socks ==> Core(q, s)
    ensures InvBut(q, Some(s))
    ensures s in q.socks && Settled(q, s) ==> Inv(q)
    ensures s !in q.socks ==> Inv(q)
  {
    forall x | x in q.socks
      ensures Core(q, x) && (x != s ==> Settled(q, x))
    {
      if x != s {
        assert SameFor(p, q, x);
        assert Core(p, x) && Settled(p, x);
      }
    }
  }

  lemma RetiredKeeps(p: Port, s: SockState, cancelOk: bool)
    requires InvBut(p, Some(s)) && s in p.socks && !p.socks[s].deletePending
    ensures InvBut(Retired(p, s, cancelOk), Some(s)) && Retired(p, s, cancelOk).socks[s].deletePending
  {
    var q := Retired(p, s, cancelOk);
    assert Core(p, s);
    UnqueuedKeeps(p, s);
    assert Linked(q);
    OthersKept(p, q, s);
  }

  lemma FreedKeeps(p: Port, s: SockState)
    requires InvBut(p, Some(s)) && s in p.socks && p.socks[s].deletePending
    ensures Inv(Freed(p, s))
  {
    var q := Freed(p, s);
    assert Core(p, s);
    UnqueuedKeeps(p, s);
    assert Linked(q);
    OthersKept(p, q, s);
  }

  lemma DeferredKeeps(p: Port, s: SockState)
    requires InvBut(p, Some(s)) && s in p.socks && p.socks[s].deletePending && p.socks[s].status != Idle
    ensures Inv(Deferred(p, s)) && s in Deferred(p, s).deleted
  {
    hide ToAfd, Unwatched;
    var q := Deferred(p, s);
    assert Core(p, s);
    assert Linked(q);
    OthersKept(p, q, s);
  }

  lemma DroppedKeeps(p: Port, s: SockState, force: bool)
    requires InvBut(p, Some(s)) && s in p.socks && p.socks[s].deletePending
    requires s !in p.updates
    ensures
      var q := if force || p.socks[s].status == Idle then Freed(p, s) else Deferred(p, s);
      && Inv(q)
      && q.tree == p.tree && q.updates == p.updates && q.updateFailed == p.updateFailed && q.batches == p.batches
      && (force || p.socks[s].status == Idle ==> q.socks == p.socks - {s} && q.freed == p.freed + {s})
      && (!force && p.socks[s].status != Idle ==> q.socks == p.socks && s in q.deleted && q.freed == p.freed)
      && (!force ==> q.inflight == p.inflight)
  {
    assert Core(p, s);
    if force || p.socks[s].status == Idle {
      FreedKeeps(p, s);
      WithoutAbsent(p.updates, s);
    } else {
      DeferredKeeps(p, s);
    }
  }

  // Deleting a socket cancels the request it waits for, if the kernel lets it, and touches no other
  // socket's record.
  ghost predicate Unwanted(p: Port, q: Port, s: SockState, cancelOk: bool)
    requires s in p.socks
  {
    var r := p.socks[s];
    && (forall x | x in p.socks && x != s :: x in q.socks && q.socks[x] == p.socks[x])
    && (s in q.socks ==>
          var r' := q.socks[s];
          && r'.deletePending && r'.data == r.data && r'.user == r.user
          && (!r.deletePending && r.status == Pending && cancelOk ==> r'.status == Cancelled && r'.pending == {})
          && (r.deletePending || r.status != Pending || !cancelOk ==> r'.status == r.status && r'.pending == r.pending))
  }

  lemma DeletedRecord(p: Port, s: SockState, force: bool, cancelOk: bool)
    requires s in p.socks
    ensures Unwanted(p, Deleted(p, s, force, cancelOk), s, cancelOk)
  {
    hide Without;
  }

  // A socket is freed at once if it may be, and otherwise kept for its completion, with its request
  // cancelled if that can be had; without force no request in flight loses its socket.
  lemma DeletedKeeps(p: Port, s: SockState, force: bool, cancelOk: bool)
    requires InvBut(p, Some(s)) && s in p.socks
    ensures
      var q := Deleted(p, s, force, cancelOk);
      && Inv(q)
      && q.tree == (if p.socks[s].deletePending then p.tree else p.tree - {s.socket})
      && Lacks(q.updates, p.updates, s)
      && (force || p.socks[s].status == Idle ==> q.socks == p.socks - {s} && q.freed == p.freed + {s})
      && (!force && p.socks[s].status != Idle ==>
            q.socks.Keys == p.socks.Keys && s in q.deleted && q.freed == p.freed)
      && (!force ==> q.inflight == p.inflight)
      && q.updateFailed == p.updateFailed && q.batches == p.batches
      && Unwanted(p, q, s, cancelOk)
  {
    assert Core(p, s);
    DeletedRecord(p, s, force, cancelOk);
    hide Unwanted;
    if p.socks[s].deletePending {
      DroppedKeeps(p, s, force);
    } else {
      var q := Retired(p, s, cancelOk);
      RetiredKeeps(p, s, cancelOk);
      UnqueuedKeeps(p, s);
      DroppedKeeps(q, s, force);
      assert q.socks - {s} == p.socks - {s};
    }
  }

  lemma RegisteredKeeps(p: Port, s: SockState)
    requires Inv(p) && s !in p.socks && s !in p.freed && s.socket !in p.tree
    ensures InvBut(Registered(p, s), Some(s))
  {
    var q := Registered(p, s);
    assert Linked(q);
    OthersKept(p, q, s);
  }

  lemma MissingWhenNothingPends(events: Mask)
    ensures Missing(Wanted(events), {})
  {
    assert EPOLLERR in Unwatched(Wanted(events), {});
  }

  // Once it is queued, a registered socket is settled whatever its request.
  lemma RequestedKeeps(p: Port, s: SockState)
    requires InvBut(p, Some(s)) && s in p.socks && !p.socks[s].deletePending
    ensures Inv(Requested(p, s)) && s in Requested(p, s).updates
    ensures Requested(p, s) == p.(updates := Requested(p, s).updates)
  {
    hide ToAfd, Unwatched;
    var q := Requested(p, s);
    assert Core(p, s);
    assert Linked(q);
    OthersKept(p, q, s);
  }

  lemma WantingKeeps(p: Port, s: SockState, data: int, user: Mask)
    requires InvBut(p, Some(s)) && s in p.socks
    ensures InvBut(p.(socks := p.socks[s := p.socks[s].(data := data, user := user)]), Some(s))
  {
    hide ToAfd, Unwatched;
    var q := p.(socks := p.socks[s := p.socks[s].(data := data, user := user)]);
    assert Core(p, s);
    assert Linked(q);
    OthersKept(p, q, s);
  }

  lemma InterestedKeeps(p: Port, s: SockState, ev: Event)
    requires InvBut(p, Some(s)) && s in p.socks && !p.socks[s].deletePending
    ensures Inv(Interested(p, s, ev))
    ensures s in Interested(p, s, ev).socks && Interested(p, s, ev).socks[s].data == ev.data
    ensures Interested(p, s, ev).socks[s].user == ev.events + {EPOLLERR, EPOLLHUP}
    ensures Interested(p, s, ev).updateFailed == p.updateFailed && Interested(p, s, ev).inflight == p.inflight
  {
    hide ToAfd, Unwatched, Requested;
    var user := Wanted(ev.events);
    var q := p.(socks := p.socks[s := p.socks[s].(data := ev.data, user := user)]);
    WantingKeeps(p, s, ev.data, user);
    RequestedKeeps(q, s);
    MissingWhenNothingPends(ev.events);
    assert Core(q, s);
    assert q.socks[s].status != Pending ==> Missing(user, q.socks[s].pending);
  }

  lemma NothingMissingFromItself(events: Mask)
    ensures !Missing(events, events)
  {
  }

  lemma DoneKeeps(p: Port, q: Port, s: SockState)
    requires Inv(p) && s in p.updates && s in q.socks
    requires q == Unqueued(q.(updates := p.updates, deleted := p.deleted), s)
    requires q.tree == p.tree && q.freed == p.freed && q.socks == p.socks[s := q.socks[s]]
    requires q.inflight == p.inflight || (s in q.inflight && q.inflight == p.inflight[s := q.inflight[s]])
    requires q.socks[s].deletePending == p.socks[s].deletePending
    requires Core(q, s) && Settled(q, s)
    ensures Inv(q) && Lacks(q.updates, p.updates, s)
  {
    hide ToAfd, Unwatched, Wanted;
    UnqueuedKeeps(p, s);
    assert Linked(q);
    OthersKept(p, q, s);
  }

  lemma FlagKeeps(p: Port, failed: bool)
    requires Inv(p)
    ensures Inv(p.(updateFailed := failed))
  {
    var q := p.(updateFailed := failed);
    assert Linked(q);
    forall s | s in q.socks
      ensures Core(q, s) && Settled(q, s)
    {
      assert Core(p, s) && Settled(p, s);
    }
  }

  // Asked or cancelled or nothing to do: the socket is done with for now.
  lemma HandledKeeps(p: Port, s: SockState, answer: Submission, cancelOk: bool)
    requires Inv(p) && s in p.updates && !UpdateFails(p.socks[s], answer, cancelOk)
    requires p.socks[s].status == Idle ==> answer != InvalidHandle
    ensures
      var q := Updated(p, s, answer, cancelOk);
      && Inv(q) && q.updateFailed == p.updateFailed && Lacks(q.updates, p.updates, s)
      && (p.socks[s].status == Idle ==> s in q.inflight && q.inflight[s] == ToAfd(p.socks[s].user))
      && (forall x | x in p.inflight :: x in q.inflight)
  {
    hide ToAfd, Unwatched, Without;
    assert Core(p, s) && Settled(p, s);
    UnqueuedKeeps(p, s);
    NothingMissingFromItself(p.socks[s].user);
    DoneKeeps(p, Updated(p, s, answer, cancelOk), s);
  }

  lemma UpdatedKeeps(p: Port, s: SockState, answer: Submission, cancelOk: bool)
    requires Inv(p) && s in p.updates
    ensures
      var q := Updated(p, s, answer, cancelOk);
      && Inv(q)
      && (UpdateFails(p.socks[s], answer, cancelOk) ==> q == p.(updateFailed := true))
      && (!UpdateFails(p.socks[s], answer, cancelOk) ==>
            && q.updateFailed == p.updateFailed
            && Lacks(q.updates, p.updates, s)
            && (p.socks[s].status == Idle && answer != InvalidHandle ==>
                  s in q.inflight && q.inflight[s] == ToAfd(p.socks[s].user)))
      && (forall x | x in p.inflight :: x in q.inflight)
  {
    hide Unwatched, Asked, Deleted, Without, Unqueued;
    assert Core(p, s);
    if UpdateFails(p.socks[s], answer, cancelOk) {
      FlagKeeps(p, true);
    } else if p.socks[s].status == Idle && answer == InvalidHandle {
      DeletedKeeps(p, s, false, cancelOk);
    } else {
      HandledKeeps(p, s, answer, cancelOk);
    }
  }

  lemma AnsweredKeeps(p: Port, s: SockState)
    requires Inv(p) && s in p.inflight
    ensures InvBut(Answered(p, s), Some(s))
  {
    hide ToAfd, Unwatched, Wanted;
    var q := Answered(p, s);
    assert Core(p, s);
    assert Linked(q);
    OthersKept(p, q, s);
  }

  // A socket that waits in the queue may change its mind.
  lemma UserKeeps(p: Port, s: SockState, user: Mask)
    requires Inv(p) && s in p.updates && p.socks[s].status == Idle
    ensures Inv(p.(socks := p.socks[s := p.socks[s].(user := user)]))
  {
    hide ToAfd, Unwatched;
    var q := p.(socks := p.socks[s := p.socks[s].(user := user)]);
    assert Core(p, s) && Settled(p, s);
    assert Linked(q);
    OthersKept(p, q, s);
  }

  lemma ReapedKeeps(p: Port, s: SockState, report: Option<Event>)
    requires InvBut(p, Some(s)) && s in p.socks && !p.socks[s].deletePending && p.socks[s].status == Idle
    ensures
      var q := Reaped(p, s, report);
      && Inv(q) && s in q.updates
      && q.inflight == p.inflight && q.tree == p.tree && q.updateFailed == p.updateFailed && q.batches == p.batches
      && q.socks.Keys == p.socks.Keys && q.freed == p.freed
  {
    hide Requested;
    RequestedKeeps(p, s);
    if report.Some? && EPOLLONESHOT in p.socks[s].user {
      UserKeeps(Requested(p, s), s, {});
    }
  }

  lemma FedKeeps(p: Port, s: SockState, c: Completion)
    requires Inv(p) && s in p.inflight
    ensures Inv(Fed(p, s, c)) && Fed(p, s, c).inflight == p.inflight - {s}
    ensures Fed(p, s, c).updateFailed == p.updateFailed && Fed(p, s, c).batches == p.batches
  {
    hide ToAfd, FromAfd, Unwatched, Wanted, Deleted, Reaped, EventsOf;
    var q := Answered(p, s);
    AnsweredKeeps(p, s);
    if p.socks[s].deletePending || LocalClose(c) {
      DeletedKeeps(q, s, false, false);
    } else {
      ReapedKeeps(q, s, Report(p.socks[s], c));
    }
  }

  // ---- What each does to the records and the queue ----

  // A socket that is covered is left alone, and queued at the end otherwise; the others keep their
  // interest and their places.
  lemma InterestedQueue(p: Port, s: SockState, ev: Event)
    requires s in p.socks
    ensures
      var q := Interested(p, s, ev);
      && q.tree == p.tree && q.deleted == p.deleted && q.freed == p.freed && q.batches == p.batches
      && q.socks.Keys == p.socks.Keys && (forall x | x in p.socks && x != s :: q.socks[x] == p.socks[x])
      && q.socks[s].status == p.socks[s].status && q.socks[s].pending == p.socks[s].pending
      && (q.updates == p.updates || q.updates == p.updates + [s])
      && (s !in p.deleted ==> (s in q.updates <==>
            s in p.updates
            || !((ev.events + {EPOLLERR, EPOLLHUP}) * KNOWN_EPOLL_EVENTS <= p.socks[s].pending)))
      && (s in p.updates ==> q.updates == p.updates)
  {
    hide Missing;
    CoveredExactly(Wanted(ev.events), p.socks[s].pending);
  }

  // An update leaves a covered or a cancelled request alone, cancels one that is not enough, and
  // asks for all that is wanted where there is none. A socket whose handle the kernel refuses goes
  // away; what fails for another reason changes nothing. No other socket's record is touched.
  lemma UpdatedRecord(p: Port, s: SockState, answer: Submission, cancelOk: bool)
    requires Inv(p) && s in p.updates && s in p.socks
    ensures
      var q, r := Updated(p, s, answer, cancelOk), p.socks[s];
      var covered := r.user * KNOWN_EPOLL_EVENTS <= r.pending;
      && (forall x | x in p.socks && x != s :: x in q.socks && q.socks[x] == p.socks[x])
      && (r.status == Cancelled || (r.status == Pending && covered) ==>
            q.socks == p.socks && q.inflight == p.inflight && q.updateFailed == p.updateFailed && s !in q.updates)
      && (r.status == Pending && !covered && cancelOk ==>
            && s in q.socks && q.socks[s] == Sock(r.data, r.user, {}, Cancelled, r.deletePending)
            && q.inflight == p.inflight && q.updateFailed == p.updateFailed && s !in q.updates)
      && (r.status == Pending && !covered && !cancelOk ==> q == p.(updateFailed := true))
      && (r.status == Idle && (answer == Submitted || answer == InProgress) ==>
            && s in q.socks && q.socks[s] == Sock(r.data, r.user, r.user, Pending, r.deletePending)
            && s in q.inflight && q.inflight == p.inflight[s := q.inflight[s]]
            && q.updateFailed == p.updateFailed && s !in q.updates)
      && (r.status == Idle && answer == OtherError ==> q == p.(updateFailed := true))
      && (r.status == Idle && answer == InvalidHandle ==>
            s !in q.socks && s in q.freed && q.updateFailed == p.updateFailed)
  {
    hide ToAfd, Without, Deleted, Missing, Core, Settled, Unqueued, Unwanted;
    UpdatedOthers(p, s, answer, cancelOk);
    CoveredExactly(p.socks[s].user, p.socks[s].pending);
    UnqueuedKeeps(p, s);
    DeletedKeeps(p, s, false, cancelOk);
    UnqueuedRecords(p, s);
    UnqueuedRecords(p.(socks := p.socks[s := PollCancelled(p.socks[s], true)]), s);
    UnqueuedRecords(Asked(p, s), s);
  }

  lemma UnqueuedRecords(p: Port, s: SockState)
    ensures Unqueued(p, s) == p.(updates := Unqueued(p, s).updates, deleted := Unqueued(p, s).deleted)
    ensures Unqueued(p, s).updates == Without(p.updates, s)
  {
  }

  lemma UpdatedOthers(p: Port, s: SockState, answer: Submission, cancelOk: bool)
    requires s in p.socks
    ensures
      var q := Updated(p, s, answer, cancelOk);
      forall x | x in p.socks && x != s :: x in q.socks && q.socks[x] == p.socks[x]
  {
    hide ToAfd, Without, Deleted, Missing;
    OthersUntouched(p, s, cancelOk);
  }

  lemma CoveredExactly(user: Mask, pending: Mask)
    ensures Missing(user, pending) <==> !(user * KNOWN_EPOLL_EVENTS <= pending)
  {
    if !Missing(user, pending) {
      NothingMissingIsPending(user, pending);
    }
  }

  lemma OthersUntouched(p: Port, s: SockState, cancelOk: bool)
    requires s in p.socks
    ensures forall x | x in p.socks && x != s ::
              x in Deleted(p, s, false, cancelOk).socks && Deleted(p, s, false, cancelOk).socks[x] == p.socks[x]
  {
    DeletedRecord(p, s, false, cancelOk);
  }

  // A completion ends the request; a deleted or closed socket goes away with it, and any other is
  // idle and queued, with its interest unless EPOLLONESHOT has used it up.
  lemma FedRecord(p: Port, s: SockState, c: Completion)
    requires Inv(p) && s in p.inflight && s in p.socks
    ensures
      var q, r := Fed(p, s, c), p.socks[s];
      && (forall x | x in p.socks && x != s :: x in q.socks && q.socks[x] == p.socks[x])
      && (if r.deletePending || (c.Reported? && AFD_POLL_LOCAL_CLOSE in c.afd) then s !in q.socks && s in q.freed
          else
            && s in q.socks && s in q.updates && p.updates <= q.updates
            && q.socks[s].data == r.data && q.socks[s].status == Idle && !q.socks[s].deletePending
            && q.socks[s].user == if EPOLLONESHOT in r.user && Report(r, c).Some? then {} else r.user)
  {
    hide ToAfd, FromAfd, Unwatched, Wanted, Deleted, EventsOf, Report, Without;
    assert Core(p, s);
    AnsweredKeeps(p, s);
    DeletedKeeps(Answered(p, s), s, false, false);
  }

  // ---- What is reported ----

  lemma EventsExactly(c: Completion, e: nat)
    ensures e in EventsOf(c) <==> Brought(c, e)
  {
    hide FromAfd, Brings;
    if c.Reported? {
      ReportedExactly(c.afd, e);
    }
  }

  // Nothing is reported of a deleted or closed socket; otherwise exactly what the completion brings
  // and the user wants, if that is anything.
  lemma ReportExactly(r: Sock, c: Completion)
    ensures Report(r, c).Some? <==> !r.deletePending && !LocalClose(c) && exists e :: e in r.user && Brought(c, e)
    ensures Report(r, c).Some? ==>
              && Report(r, c).value.data == r.data
              && forall e :: e in Report(r, c).value.events <==> e in r.user && Brought(c, e)
  {
    hide EventsOf, Brought;
    forall e
      ensures e in EventsOf(c) <==> Brought(c, e)
    {
      EventsExactly(c, e);
    }
    if EventsOf(c) * r.user != {} {
      var e :| e in EventsOf(c) * r.user;
      assert e in r.user && Brought(c, e);
    }
    assert forall e :: e in r.user && Brought(c, e) ==> e in EventsOf(c) * r.user;
  }

  // A request that failed is reported as an error, and one that was cancelled not at all.
  lemma FailureIsReported(r: Sock)
    requires !r.deletePending
    ensures EPOLLERR in r.user ==> Report(r, RequestFailed) == Some(Event(r.data, {EPOLLERR}))
    ensures EPOLLERR !in r.user ==> Report(r, RequestFailed) == None
    ensures Report(r, WasCancelled) == None == Report(r, NoHandles)
  {
    if EPOLLERR in r.user {
      assert EPOLLERR in {EPOLLERR} * r.user;
      assert {EPOLLERR} * r.user == {EPOLLERR};
    } else {
      assert {EPOLLERR} * r.user == {};
    }
  }

  // ---- What the invariant means ----

  // Interest is never lost. A registered socket without a request waits to be given one; one
  // outside the queue is covered by its request, or its request is already cancelled and must
  // still come back.
  lemma InterestIsCovered(p: Port, k: Socket)
    requires Inv(p) && k in p.tree
    ensures
      var s := p.tree[k];
      var r := p.socks[s];
      && (r.status == Idle ==> s in p.updates)
      && (r.status == Pending && s !in p.updates ==>
            && s in p.inflight && ToAfd(r.user) <= p.inflight[s]
            && r.user * KNOWN_EPOLL_EVENTS <= r.pending)
      && (p.updates == [] ==> s in p.inflight && r.status != Idle)
  {
    var s := p.tree[k];
    assert Core(p, s) && Settled(p, s);
    if !Missing(p.socks[s].user, p.socks[s].pending) {
      NothingMissingIsWatched(p.socks[s].user, p.socks[s].pending);
      NothingMissingIsPending(p.socks[s].user, p.socks[s].pending);
    }
  }

  // One request at most per socket, exactly while its status is not idle; a socket is in the tree
  // or waiting to be freed, never both, and in at most one queue.
  lemma Lifecycle(p: Port, s: SockState)
    requires Inv(p) && s in p.socks
    ensures s in p.inflight <==> p.socks[s].status != Idle
    ensures p.socks[s].deletePending <==> forall k | k in p.tree :: p.tree[k] != s
    ensures !(s in p.updates && s in p.deleted)
    ensures p.socks[s].deletePending <==> s in p.deleted
    ensures s in p.deleted ==> s in p.inflight
    ensures s !in p.freed
  {
    assert Core(p, s) && Settled(p, s);
  }

  // A completion for an event its socket asked for reaches the user, filtered to what was asked;
  // with EPOLLONESHOT the socket then stays silent until the user asks again.
  lemma CompletionReachesUser(p: Port, s: SockState, afd: Mask)
    requires Inv(p) && s in p.inflight && !p.socks[s].deletePending
    requires afd != {} && afd <= ToAfd(p.socks[s].user) && !LocalClose(Reported(afd))
    ensures
      var r := p.socks[s];
      var report := Report(r, Reported(afd));
      var q := Fed(p, s, Reported(afd));
      && report.Some? && report.value.data == r.data
      && report.value.events != {} && report.value.events <= r.user
      && s in q.updates && s in q.socks
      && (EPOLLONESHOT in r.user ==> forall c :: Report(q.socks[s], c) == None)
  {
    hide ToAfd, FromAfd, EventsOf, Fed, Answered, Report, Unwatched;
    var r := p.socks[s];
    assert Core(p, s);
    ReportIsNews(r, afd);
    AnsweredKeeps(p, s);
    FedIsReaped(p, s, Reported(afd));
    ReapedKeeps(Answered(p, s), s, Report(r, Reported(afd)));
    if EPOLLONESHOT in r.user {
      Silent(Fed(p, s, Reported(afd)).socks[s]);
    }
  }

  lemma ReportIsNews(r: Sock, afd: Mask)
    requires !r.deletePending
    requires afd != {} && afd <= ToAfd(r.user) && !LocalClose(Reported(afd))
    ensures
      var report := Report(r, Reported(afd));
      && report.Some? && report.value.data == r.data
      && report.value.events != {} && report.value.events <= r.user
  {
    hide ToAfd, FromAfd;
    CompletionIsNews(r.user, afd);
  }

  lemma FedIsReaped(p: Port, s: SockState, c: Completion)
    requires s in p.socks && !p.socks[s].deletePending && !LocalClose(c)
    ensures Fed(p, s, c) == Reaped(Answered(p, s), s, Report(p.socks[s], c))
    ensures s in Answered(p, s).socks && Answered(p, s).socks[s] == p.socks[s].(status := Idle, pending := {})
  {
  }

  lemma Silent(r: Sock)
    requires r.user == {}
    ensures forall c :: Report(r, c) == None
  {
  }

  // ---- Completions in the hands of polling threads ----

  // Every completion taken by a thread is a request still counted as in flight, and was taken once.
  ghost predicate Taken(p: Port) {
    && (forall t | t in p.batches :: Distinct(p.batches[t]))
    && (forall t | t in p.batches :: forall s | s in p.batches[t] :: s in p.inflight)
    && (forall t, u | t in p.batches && u in p.batches && t != u ::
          forall s | s in p.batches[t] :: s !in p.batches[u])
  }

  // Between two operations: while a thread is blocked in the kernel, and the last walk did not
  // fail, no socket waits for its request.
  ghost predicate Quiet(p: Port) {
    p.batches != map[] && !p.updateFailed ==> p.updates == []
  }

  datatype Phase = UnderLock | LockFree

  ghost predicate Lawful(p: Port, phase: Phase) {
    match phase
    case UnderLock => Inv(p) && Taken(p)
    case LockFree => Inv(p) && Taken(p) && Quiet(p)
  }

  lemma EverySocketIsWatched(p: Port, k: Socket)
    requires Inv(p) && Quiet(p) && p.batches != map[] && !p.updateFailed && k in p.tree
    ensures p.tree[k] in p.inflight
    ensures p.socks[p.tree[k]].status == Cancelled
            || ToAfd(p.socks[p.tree[k]].user) <= p.inflight[p.tree[k]]
  {
    InterestIsCovered(p, k);
  }

  lemma HasAPlace(p: Port, s: SockState)
    requires Inv(p) && s in p.socks
    ensures s.socket in p.tree || s in p.deleted
  {
    assert Core(p, s) && Settled(p, s);
  }

  lemma QueuedSocketExists(p: Port)
    requires Linked(p) && p.updates != []
    ensures p.socks.Keys != {}
  {
    assert p.updates[0] in p.socks.Keys;
  }

  lemma NoSocketsLeft(p: Port)
    requires Inv(p) && p.tree == map[] && p.deleted == []
    ensures p.socks == map[] && p.updates == [] && p.inflight == map[]
  {
    forall s | s in p.socks
      ensures s.socket in p.tree || s in p.deleted
    {
      HasAPlace(p, s);
    }
    assert p.socks.Keys == {};
    assert p.inflight.Keys == {};
    if p.updates != [] {
      QueuedSocketExists(p);
    }
  }

  // ---- The operations of the port keep the law ----

  lemma AddLawful(p: Port, s: SockState, ev: Event)
    requires Lawful(p, UnderLock) && s !in p.socks && s !in p.freed && s.socket !in p.tree
    ensures Lawful(Interested(Registered(p, s), s, ev), UnderLock)
    ensures Registered(p, s).socks.Keys == p.socks.Keys + {s}
    ensures Interested(Registered(p, s), s, ev).socks.Keys == p.socks.Keys + {s}
  {
    hide Wanted, Unwatched;
    RegisteredKeeps(p, s);
    InterestedKeeps(Registered(p, s), s, ev);
  }

  lemma ModLawful(p: Port, k: Socket, ev: Event)
    requires Lawful(p, UnderLock) && k in p.tree
    ensures p.tree[k] in p.socks
    ensures Lawful(Interested(p, p.tree[k], ev), UnderLock)
    ensures Interested(p, p.tree[k], ev).socks.Keys == p.socks.Keys
  {
    hide Wanted, Unwatched;
    assert Core(p, p.tree[k]);
    InterestedKeeps(p, p.tree[k], ev);
  }

  lemma DelLawful(p: Port, k: Socket, cancelOk: bool)
    requires Lawful(p, LockFree) && k in p.tree
    ensures p.tree[k] in p.socks
    ensures Lawful(Deleted(p, p.tree[k], false, cancelOk), LockFree)
  {
    hide Deleted;
    var s := p.tree[k];
    assert Core(p, s);
    DeletedKeeps(p, s, false, cancelOk);
    assert p.updates == [] ==> |Deleted(p, s, false, cancelOk).updates| == 0;
  }

  // The thread leaves the lock to wait, with nothing taken yet.
  lemma EnterLawful(p: Port, t: Tid)
    requires Lawful(p, UnderLock) && t !in p.batches && p.updates == []
    ensures Lawful(p.(batches := p.batches[t := []]), LockFree)
  {
    var q := p.(batches := p.batches[t := []]);
    assert Linked(q);
    forall s | s in q.socks
      ensures Core(q, s) && Settled(q, s)
    {
      assert Core(p, s) && Settled(p, s);
    }
  }

  // The kernel can hand over these completions: they are in flight and nobody has taken them yet.
  predicate CanTake(p: Port, t: Tid, batch: seq<SockState>) {
    && t in p.batches && p.batches[t] == []
    && Distinct(batch)
    && (forall s | s in batch :: s in p.inflight)
    && (forall u | u in p.batches :: forall s | s in batch :: s !in p.batches[u])
  }

  lemma TakeLawful(p: Port, t: Tid, batch: seq<SockState>, phase: Phase)
    requires Lawful(p, phase) && CanTake(p, t, batch)
    ensures Lawful(p.(batches := p.batches[t := batch]), phase)
  {
    var q := p.(batches := p.batches[t := batch]);
    assert Linked(q);
    forall s | s in q.socks
      ensures Core(q, s) && Settled(q, s)
    {
      assert Core(p, s) && Settled(p, s);
    }
    assert p.batches != map[];
  }

  lemma LockedToo(p: Port)
    requires Lawful(p, LockFree)
    ensures Lawful(p, UnderLock)
  {
  }

  // Completions a thread has just taken out of its own batch.
  ghost predicate Loose(p: Port, batch: seq<SockState>) {
    && Distinct(batch)
    && (forall s | s in batch :: s in p.inflight)
    && (forall u | u in p.batches :: forall s | s in batch :: s !in p.batches[u])
  }

  lemma LeaveLawful(p: Port, t: Tid)
    requires Lawful(p, UnderLock) && t in p.batches
    ensures Lawful(p.(batches := p.batches - {t}), UnderLock)
    ensures Loose(p.(batches := p.batches - {t}), p.batches[t])
  {
    var q := p.(batches := p.batches - {t});
    assert Linked(q);
    forall s | s in q.socks
      ensures Core(q, s) && Settled(q, s)
    {
      assert Core(p, s) && Settled(p, s);
    }
  }

  lemma FedLawful(p: Port, batch: seq<SockState>, c: Completion)
    requires Lawful(p, UnderLock) && batch != [] && Loose(p, batch)
    ensures batch[0] in p.socks
    ensures Lawful(Fed(p, batch[0], c), UnderLock) && Loose(Fed(p, batch[0], c), batch[1..])
    ensures Fed(p, batch[0], c).batches == p.batches && Fed(p, batch[0], c).inflight == p.inflight - {batch[0]}
  {
    hide Fed;
    var s := batch[0];
    assert s in batch;
    assert Linked(p);
    FedKeeps(p, s, c);
    assert forall x | x in batch[1..] :: x in batch;
  }

  // port__feed_events: the completions are fed in order, and their reports are collected.
  function FedAll(p: Port, batch: seq<SockState>, cs: seq<Completion>): (Port, seq<Event>)
    requires |batch| == |cs|
    decreases |batch|
  {
    if batch == [] || batch[0] !in p.socks then (p, [])
    else
      var report := Report(p.socks[batch[0]], cs[0]);
      var rest := FedAll(Fed(p, batch[0], cs[0]), batch[1..], cs[1..]);
      (rest.0, if report.Some? then [report.value] + rest.1 else rest.1)
  }

  lemma NextFed(told: seq<Event>, p: Port, batch: seq<SockState>, cs: seq<Completion>, i: nat)
    requires |batch| == |cs| && i < |batch| && batch[i] in p.socks
    ensures
      var q, report := Fed(p, batch[i], cs[i]), Report(p.socks[batch[i]], cs[i]);
      var rest := FedAll(q, batch[i + 1..], cs[i + 1..]);
      && FedAll(p, batch[i..], cs[i..]).0 == rest.0
      && told + FedAll(p, batch[i..], cs[i..]).1
         == (if report.Some? then told + [report.value] else told) + rest.1
  {
    hide Fed, Report;
    assert batch[i..][1..] == batch[i + 1..] && cs[i..][1..] == cs[i + 1..];
  }

  lemma NoneFed(p: Port)
    ensures FedAll(p, [], []) == (p, [])
  {
  }

  lemma {:induction false} FedAllLawful(p: Port, batch: seq<SockState>, cs: seq<Completion>)
    requires Lawful(p, UnderLock) && Loose(p, batch) && |batch| == |cs|
    ensures Lawful(FedAll(p, batch, cs).0, UnderLock)
    ensures FedAll(p, batch, cs).0.batches == p.batches
    ensures FedAll(p, batch, cs).0.inflight == p.inflight - (set s | s in batch)
    ensures |FedAll(p, batch, cs).1| <= |batch|
    ensures forall e | e in FedAll(p, batch, cs).1 :: e.events != {}
    decreases |batch|
  {
    hide Lawful, Fed, EventsOf;
    if batch != [] {
      FedLawful(p, batch, cs[0]);
      FedAllLawful(Fed(p, batch[0], cs[0]), batch[1..], cs[1..]);
      assert batch == [batch[0]] + batch[1..];
    } else {
      assert p.inflight - (set s | s in batch) == p.inflight;
    }
  }

  // ---- The port is taken down ----

  lemma OneLess<K, V>(m: map<K, V>, k: K)
    ensures |m - {k}| == |m| - if k in m then 1 else 0
  {
    if k in m {
      assert m.Keys == (m - {k}).Keys + {k};
    } else {
      assert m - {k} == m;
    }
  }

  lemma ForcedQueue(p: Port, s: SockState, cancelOk: bool)
    requires Linked(p) && s in p.socks
    ensures Lacks(Deleted(p, s, true, cancelOk).deleted, p.deleted, s)
  {
    WithoutKeeps(p.deleted, s);
    WithoutAbsent(Without(p.deleted, s), s);
  }

  lemma ForcedLawful(p: Port, s: SockState, cancelOk: bool)
    requires Lawful(p, UnderLock) && s in p.socks && p.batches == map[]
    ensures
      var q := Deleted(p, s, true, cancelOk);
      && Lawful(q, UnderLock) && q.batches == map[]
      && Lacks(q.deleted, p.deleted, s)
      && s !in q.socks && q.freed + q.socks.Keys == p.freed + p.socks.Keys
      && (if p.socks[s].deletePending then q.tree == p.tree else |q.tree| < |p.tree|)
  {
    hide Deleted, Unwanted, Core, Settled, Linked;
    DeletedKeeps(p, s, true, cancelOk);
    ForcedQueue(p, s, cancelOk);
    ForcedTree(p, s);
    ForcedSum(p.freed, p.socks, s);
  }

  lemma ForcedSum(freed: set<SockState>, socks: map<SockState, Sock>, s: SockState)
    requires s in socks
    ensures (freed + {s}) + (socks - {s}).Keys == freed + socks.Keys
  {
  }

  lemma ForcedTree(p: Port, s: SockState)
    requires Inv(p) && s in p.socks
    ensures !p.socks[s].deletePending ==> |p.tree - {s.socket}| < |p.tree|
  {
    assert Core(p, s);
    OneLess(p.tree, s.socket);
  }

  lemma TreeSocket(p: Port, k: Socket)
    requires Lawful(p, UnderLock) && k in p.tree
    ensures p.tree[k] in p.socks && p.tree[k].socket == k && !p.socks[p.tree[k]].deletePending
  {
    assert Core(p, p.tree[k]);
  }

  lemma DeletedSocket(p: Port)
    requires Lawful(p, UnderLock) && p.deleted != []
    ensures p.deleted[0] in p.socks && p.socks[p.deleted[0]].deletePending
  {
    assert p.deleted[0] in p.deleted;
    assert Core(p, p.deleted[0]);
  }

  lemma LastSocketGone(p: Port)
    requires Lawful(p, UnderLock) && p.tree == map[] && p.deleted == []
    ensures p.socks == map[] && p.updates == [] && p.inflight == map[]
  {
    NoSocketsLeft(p);
  }
}
