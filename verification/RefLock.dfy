// The reference lock of wepoll and the handle tree around it, as a protocol between any number
// of threads that call epoll_ctl, epoll_wait and epoll_close on one port handle.
//
// Every step is one atomic action of one thread: taking or releasing the tree's reader-writer
// lock, reading or changing the tree under it, one interlocked operation on the packed state,
// or one meeting at the keyed event. `fault` records that an assertion of the code failed or
// that freed port memory was touched.

module RefLock {
  import opened Basics
  import opened MapSum

  type Tid = nat

  const REF: int := 0x00000001
  const REF_LIMIT: int := 0x10000000   // one more than REFLOCK__REF_MASK
  const DESTROY: int := 0x10000000
  const POISON: int := 0x300dead0
  const WORD: int := 0x1_0000_0000

  // InterlockedAdd on a 32-bit word; the word is read as unsigned.
  function Add32(a: int, b: int): (r: int)
    ensures 0 <= r < WORD
  {
    (a + b) % WORD
  }

  // state & REFLOCK__REF_MASK
  function RefBits(state: int): int {
    state % REF_LIMIT
  }

  // state & REFLOCK__DESTROY_MASK, as the number in the upper four bits
  function DestroyBits(state: int): int {
    state / DESTROY
  }

  datatype Pc =
    | Idle
    | SharedHeld      // in ts_tree_find_and_ref, holding the lock shared
    | SharedFound     // the node was in the tree
    | SharedRef       // has a reference, still holding the lock
    | Using           // inside port_ctl or port_wait
    | Signalling      // in NtReleaseKeyedEvent
    | ExclusiveHeld   // in ts_tree_del_and_ref, holding the lock exclusively
    | Unlinked        // has taken the node out of the tree
    | ExclusiveRef    // has a reference, still holding the lock
    | Closing         // inside port_close
    | Awaiting        // in NtWaitForKeyedEvent
    | Quiet           // about to write the poison
    | Deleting        // inside port_delete

  // `closer`, `wins`, `waited` and `signals` are history: who took the node out of the tree last,
  // how often that happened, whether it went to wait for the keyed event, and how often the
  // event was released.
  datatype State = State(
    pc: map<Tid, Pc>,
    owner: Option<Tid>,    // the reader-writer lock of the handle tree
    readers: set<Tid>,
    inTree: bool,
    word: int,
    freed: bool,
    closer: Option<Tid>,
    wins: nat,
    waited: bool,
    signals: nat,
    fault: bool)

  datatype Action =
    | AcquireShared | Find | RefUnderShared | ReleaseShared
    | Unref
    | AcquireExclusive | FindAndDelete | RefUnderExclusive | ReleaseExclusive
    | UnrefAndDestroy | Meet(signaller: Tid) | WritePoison | DeletePort

  // ---- Who is where ----

  ghost function At(s: State, p: Pc): set<Tid> {
    set t | t in s.pc && s.pc[t] == p
  }

  predicate HoldsShared(p: Pc) {
    p == SharedHeld || p == SharedFound || p == SharedRef
  }

  predicate HoldsExclusive(p: Pc) {
    p == ExclusiveHeld || p == Unlinked || p == ExclusiveRef
  }

  // Between the interlocked increment and the interlocked decrement.
  predicate HoldsRef(p: Pc) {
    p == SharedRef || p == Using || p == ExclusiveRef || p == Closing
  }

  // The thread that took the node out of the tree, from then until it has freed the port.
  predicate IsCloser(p: Pc) {
    p == Unlinked || p == ExclusiveRef || p == Closing || p == Awaiting || p == Quiet || p == Deleting
  }

  ghost function Holders(s: State): set<Tid> {
    set t | t in s.pc && HoldsRef(s.pc[t])
  }

  // ---- Steps ----

  predicate Enabled(s: State, t: Tid, a: Action) {
    && t in s.pc
    && match a
       case AcquireShared => s.pc[t] == Idle && s.owner == None
       case Find => s.pc[t] == SharedHeld
       case RefUnderShared => s.pc[t] == SharedFound
       case ReleaseShared => s.pc[t] == SharedRef
       case Unref => s.pc[t] == Using
       case AcquireExclusive => s.pc[t] == Idle && s.owner == None && s.readers == {}
       case FindAndDelete => s.pc[t] == ExclusiveHeld
       case RefUnderExclusive => s.pc[t] == Unlinked
       case ReleaseExclusive => s.pc[t] == ExclusiveRef
       case UnrefAndDestroy => s.pc[t] == Closing
       case Meet(u) => s.pc[t] == Awaiting && u in s.pc && s.pc[u] == Signalling
       case WritePoison => s.pc[t] == Quiet
       case DeletePort => s.pc[t] == Deleting
  }

  // The interlocked word lives in the port, so touching it after the free is a fault too.
  function Touch(s: State, word: int, assertion: bool): State {
    s.(word := word, fault := s.fault || s.freed || !assertion)
  }

  function Move(s: State, t: Tid, p: Pc): State {
    s.(pc := s.pc[t := p])
  }

  function Step(s: State, t: Tid, a: Action): State
    requires Enabled(s, t, a)
  {
    match a
    case AcquireShared => Move(s, t, SharedHeld).(readers := s.readers + {t})
    case Find =>
      if s.inTree then Move(s, t, SharedFound)
      else Move(s, t, Idle).(readers := s.readers - {t})
    case RefUnderShared =>
      var w := Add32(s.word, REF);
      Move(Touch(s, w, DestroyBits(w) == 0), t, SharedRef)
    case ReleaseShared => Move(s, t, Using).(readers := s.readers - {t})
    case Unref =>
      var w := Add32(s.word, -REF);
      Move(Touch(s, w, DestroyBits(w) <= 1), t, if w == DESTROY then Signalling else Idle)
    case AcquireExclusive => Move(s, t, ExclusiveHeld).(owner := Some(t))
    case FindAndDelete =>
      if s.inTree then Move(s, t, Unlinked).(inTree := false, closer := Some(t), wins := s.wins + 1)
      else Move(s, t, Idle).(owner := None)
    case RefUnderExclusive =>
      var w := Add32(s.word, REF);
      Move(Touch(s, w, DestroyBits(w) == 0), t, ExclusiveRef)
    case ReleaseExclusive => Move(s, t, Closing).(owner := None)
    case UnrefAndDestroy =>
      var w := Add32(s.word, DESTROY - REF);
      Move(Touch(s, w, DestroyBits(w) == 1), t, if RefBits(w) != 0 then Awaiting else Quiet)
        .(waited := s.waited || RefBits(w) != 0)
    case Meet(u) => Move(Move(s, u, Idle), t, Quiet).(signals := s.signals + 1)
    case WritePoison => Move(Touch(s, POISON, s.word == DESTROY), t, Deleting)
    case DeletePort => Move(s, t, Idle).(freed := true, fault := s.fault || s.freed)
  }

  predicate Init(s: State) {
    && (forall t | t in s.pc :: s.pc[t] == Idle)
    && |s.pc.Keys| < REF_LIMIT
    && s.owner == None && s.readers == {}
    && s.inTree && s.word == 0 && !s.freed
    && s.closer == None && s.wins == 0 && !s.waited && s.signals == 0 && !s.fault
  }

  // ---- The invariant ----

  ghost predicate ThreadOk(s: State, t: Tid)
    requires t in s.pc
  {
    && (HoldsExclusive(s.pc[t]) <==> s.owner == Some(t))
    && (HoldsShared(s.pc[t]) <==> t in s.readers)
    && (s.pc[t] == SharedFound || s.pc[t] == SharedRef ==> s.inTree)
    && (IsCloser(s.pc[t]) ==> s.closer == Some(t) && !s.freed)
  }

  ghost predicate Locked(s: State) {
    && (forall t {:trigger ThreadOk(s, t)} | t in s.pc :: ThreadOk(s, t))
    && (s.owner != None ==> s.readers == {})
    && (s.inTree <==> s.closer == None)
    && s.wins == (if s.closer == None then 0 else 1)
    && (s.freed ==> s.closer != None)
    && (s.closer != None && !s.freed ==> s.closer.value in s.pc && IsCloser(s.pc[s.closer.value]))
  }

  // How far the destruction has got, read off the closing thread.
  datatype Phase = Counting | Flagged | Poisoned

  ghost function PhaseOf(s: State): Phase {
    if s.freed then Poisoned
    else if s.closer == None || s.closer.value !in s.pc then Counting
    else match s.pc[s.closer.value]
      case Awaiting => Flagged
      case Quiet => Flagged
      case Deleting => Poisoned
      case _ => Counting
  }

  // The packed word counts the references, plus the destroy flag once it is set.
  ghost predicate WordOk(s: State) {
    match PhaseOf(s)
    case Counting => s.word == |Holders(s)|
    case Flagged => s.word == DESTROY + |Holders(s)|
    case Poisoned => s.word == POISON && Holders(s) == {}
  }

  ghost predicate CloserAwaits(s: State) {
    s.closer != None && s.closer.value in s.pc && s.pc[s.closer.value] == Awaiting
  }

  // A thread is signalling exactly when the closer waits and no reference is left.
  ghost predicate SignalOk(s: State) {
    && s.signals == (if s.waited && !CloserAwaits(s) then 1 else 0)
    && (PhaseOf(s).Counting? ==> !s.waited)
    && (CloserAwaits(s) ==> s.waited)
    && (forall t, u | t in At(s, Signalling) && u in At(s, Signalling) :: t == u)
    && (At(s, Signalling) != {} <==> CloserAwaits(s) && Holders(s) == {})
    && (PhaseOf(s).Flagged? && !CloserAwaits(s) ==> Holders(s) == {})
  }

  ghost predicate Inv(s: State) {
    && !s.fault
    && |s.pc.Keys| < REF_LIMIT
    && Locked(s)
    && WordOk(s)
    && SignalOk(s)
  }

  lemma InitInv(s: State)
    requires Init(s)
    ensures Inv(s)
  {
    assert Holders(s) == {};
    assert At(s, Signalling) == {};
  }

  // ---- What a step does to the counted sets ----

  lemma StepHolders(s: State, t: Tid, a: Action)
    requires Enabled(s, t, a)
    ensures
      var s' := Step(s, t, a);
      match a
      case RefUnderShared => t !in Holders(s) && Holders(s') == Holders(s) + {t}
      case RefUnderExclusive => t !in Holders(s) && Holders(s') == Holders(s) + {t}
      case Unref => t in Holders(s) && Holders(s') == Holders(s) - {t}
      case UnrefAndDestroy => t in Holders(s) && Holders(s') == Holders(s) - {t}
      case _ => Holders(s') == Holders(s)
  {
  }

  lemma StepSignallers(s: State, t: Tid, a: Action)
    requires Enabled(s, t, a)
    ensures
      var s' := Step(s, t, a);
      match a
      case Unref => At(s', Signalling) == At(s, Signalling) + if s'.pc[t] == Signalling then {t} else {}
      case Meet(u) => u in At(s, Signalling) && At(s', Signalling) == At(s, Signalling) - {u}
      case _ => At(s', Signalling) == At(s, Signalling)
  {
  }

  // Where the closer is, the phase is.
  lemma PhaseOfCloser(s: State)
    requires Locked(s)
    ensures CloserAwaits(s) ==> PhaseOf(s).Flagged?
    ensures s.freed ==> PhaseOf(s).Poisoned?
  {
    if s.closer != None && s.closer.value in s.pc {
      assert ThreadOk(s, s.closer.value);
    }
  }

  // The closer's own steps move the destruction on.
  lemma CloserPhase(s: State, t: Tid, a: Action)
    requires Locked(s) && Enabled(s, t, a) && (IsCloser(s.pc[t]) || a.FindAndDelete?)
    ensures
      PhaseOf(Step(s, t, a)) ==
      match a
      case UnrefAndDestroy => Flagged
      case WritePoison => Poisoned
      case _ => PhaseOf(s)
    ensures a.UnrefAndDestroy? || a.RefUnderExclusive? ==> PhaseOf(s).Counting?
    ensures a.WritePoison? || a.Meet? ==> PhaseOf(s).Flagged?
    ensures a.WritePoison? ==> !CloserAwaits(s)
    ensures a.Meet? ==> CloserAwaits(s) && !CloserAwaits(Step(s, t, a))
    ensures !a.Meet? && !a.UnrefAndDestroy? ==> (CloserAwaits(Step(s, t, a)) <==> CloserAwaits(s))
    ensures a.UnrefAndDestroy? ==> (CloserAwaits(Step(s, t, a)) <==> RefBits(Step(s, t, a).word) != 0)
    ensures a.DeletePort? ==> PhaseOf(s).Poisoned? && !s.freed
  {
    hide Add32, RefBits, DestroyBits;
    assert ThreadOk(s, t);
  }

  // No other step does.
  lemma OthersPhase(s: State, t: Tid, a: Action)
    requires Locked(s) && Enabled(s, t, a) && !IsCloser(s.pc[t]) && !a.FindAndDelete?
    ensures PhaseOf(Step(s, t, a)) == PhaseOf(s)
    ensures CloserAwaits(Step(s, t, a)) <==> CloserAwaits(s)
    ensures a.RefUnderShared? ==> PhaseOf(s).Counting?
  {
    hide Add32, RefBits, DestroyBits;
    assert ThreadOk(s, t);
    if s.closer != None && s.closer.value in s.pc {
      assert ThreadOk(s, s.closer.value);
    }
  }

  // Only the closer's own steps move the destruction on.
  lemma StepPhase(s: State, t: Tid, a: Action)
    requires Locked(s) && Enabled(s, t, a)
    ensures
      PhaseOf(Step(s, t, a)) ==
      match a
      case UnrefAndDestroy => Flagged
      case WritePoison => Poisoned
      case _ => PhaseOf(s)
    ensures a.UnrefAndDestroy? || a.RefUnderShared? || a.RefUnderExclusive? ==> PhaseOf(s).Counting?
    ensures a.WritePoison? || a.Meet? ==> PhaseOf(s).Flagged?
    ensures a.WritePoison? ==> !CloserAwaits(s)
    ensures a.Meet? ==> CloserAwaits(s) && !CloserAwaits(Step(s, t, a))
    ensures !a.Meet? && !a.UnrefAndDestroy? ==> (CloserAwaits(Step(s, t, a)) <==> CloserAwaits(s))
    ensures a.UnrefAndDestroy? ==> (CloserAwaits(Step(s, t, a)) <==> RefBits(Step(s, t, a).word) != 0)
    ensures a.DeletePort? ==> PhaseOf(s).Poisoned? && !s.freed
    ensures CloserAwaits(s) ==> PhaseOf(s).Flagged?
    ensures s.freed ==> PhaseOf(s).Poisoned?
  {
    hide Step, PhaseOf, CloserAwaits, Locked;
    PhaseOfCloser(s);
    if IsCloser(s.pc[t]) || a.FindAndDelete? {
      CloserPhase(s, t, a);
    } else {
      OthersPhase(s, t, a);
    }
  }

  // ---- Every step keeps the invariant ----

  lemma SameThreads(s: State, t: Tid, a: Action)
    requires Enabled(s, t, a)
    ensures Step(s, t, a).pc.Keys == s.pc.Keys
  {
  }

  // The steps of epoll_ctl and epoll_wait, and those of epoll_close.
  predicate OfUser(a: Action) {
    a.AcquireShared? || a.Find? || a.RefUnderShared? || a.ReleaseShared? || a.Unref?
  }

  // The thread that steps, and then all others.
  lemma StepUser(s: State, t: Tid, a: Action)
    requires Locked(s) && Enabled(s, t, a) && OfUser(a)
    ensures t in Step(s, t, a).pc && ThreadOk(Step(s, t, a), t)
  {
    assert ThreadOk(s, t);
  }

  lemma StepCloser(s: State, t: Tid, a: Action)
    requires Locked(s) && Enabled(s, t, a) && !OfUser(a)
    ensures t in Step(s, t, a).pc && ThreadOk(Step(s, t, a), t)
  {
    assert ThreadOk(s, t);
  }

  lemma StepOther(s: State, t: Tid, a: Action, u: Tid)
    requires Locked(s) && Enabled(s, t, a) && u in s.pc && u != t
    ensures u in Step(s, t, a).pc && ThreadOk(Step(s, t, a), u)
  {
    hide Add32, RefBits, DestroyBits;
    assert ThreadOk(s, t) && ThreadOk(s, u);
  }

  lemma StepLocked(s: State, t: Tid, a: Action)
    requires Locked(s) && Enabled(s, t, a)
    ensures Locked(Step(s, t, a))
  {
    var s' := Step(s, t, a);
    assert ThreadOk(s, t);
    assert forall u | u in s'.pc :: ThreadOk(s', u) by {
      hide Locked, ThreadOk;
      forall u | u in s'.pc ensures ThreadOk(s', u) {
        SameThreads(s, t, a);
        if u != t {
          StepOther(s, t, a, u);
        } else if OfUser(a) {
          StepUser(s, t, a);
        } else {
          StepCloser(s, t, a);
        }
      }
    }
    if s.closer != None && !s.freed {
      assert ThreadOk(s, s.closer.value);
    }
  }

  lemma HolderBound(s: State)
    requires |s.pc.Keys| < REF_LIMIT
    ensures |Holders(s)| < REF_LIMIT
  {
    SubsetSize(Holders(s), s.pc.Keys);
  }

  // The word stays a faithful count, and no assertion of the code fails on the way.
  lemma StepWord(s: State, t: Tid, a: Action)
    requires Inv(s) && Enabled(s, t, a)
    ensures WordOk(Step(s, t, a)) && !Step(s, t, a).fault
    ensures Step(s, t, a).pc.Keys == s.pc.Keys
  {
    match a {
      case RefUnderShared => CountUp(s, t, a);
      case RefUnderExclusive => CountUp(s, t, a);
      case Unref => CountDown(s, t);
      case UnrefAndDestroy => CountFlag(s, t);
      case _ => CountSame(s, t, a);
    }
  }

  lemma CountUp(s: State, t: Tid, a: Action)
    requires Inv(s) && Enabled(s, t, a) && (a.RefUnderShared? || a.RefUnderExclusive?)
    ensures WordOk(Step(s, t, a)) && !Step(s, t, a).fault
  {
    hide Holders, PhaseOf, CloserAwaits;
    HolderBound(s);
    StepHolders(s, t, a);
    StepPhase(s, t, a);
    HolderBound(Step(s, t, a));
  }

  lemma CountDown(s: State, t: Tid)
    requires Inv(s) && Enabled(s, t, Unref)
    ensures WordOk(Step(s, t, Unref)) && !Step(s, t, Unref).fault
    ensures Step(s, t, Unref).pc[t] == Signalling <==> PhaseOf(s).Flagged? && Holders(Step(s, t, Unref)) == {}
  {
    hide Holders, PhaseOf, CloserAwaits;
    HolderBound(s);
    StepHolders(s, t, Unref);
    StepPhase(s, t, Unref);
    assert |Holders(s)| == |Holders(Step(s, t, Unref))| + 1;
  }

  lemma CountFlag(s: State, t: Tid)
    requires Inv(s) && Enabled(s, t, UnrefAndDestroy)
    ensures WordOk(Step(s, t, UnrefAndDestroy)) && !Step(s, t, UnrefAndDestroy).fault
    ensures RefBits(Step(s, t, UnrefAndDestroy).word) == |Holders(Step(s, t, UnrefAndDestroy))|
  {
    hide Holders, PhaseOf, CloserAwaits;
    HolderBound(s);
    StepHolders(s, t, UnrefAndDestroy);
    StepPhase(s, t, UnrefAndDestroy);
    assert |Holders(s)| == |Holders(Step(s, t, UnrefAndDestroy))| + 1;
  }

  lemma CountSame(s: State, t: Tid, a: Action)
    requires Inv(s) && Enabled(s, t, a)
    requires !a.RefUnderShared? && !a.RefUnderExclusive? && !a.Unref? && !a.UnrefAndDestroy?
    ensures WordOk(Step(s, t, a)) && !Step(s, t, a).fault
  {
    hide Holders, PhaseOf, CloserAwaits;
    StepHolders(s, t, a);
    StepPhase(s, t, a);
  }

  lemma StepSignal(s: State, t: Tid, a: Action)
    requires Inv(s) && Enabled(s, t, a)
    ensures SignalOk(Step(s, t, a))
  {
    hide Holders, PhaseOf, CloserAwaits, At, Locked, Add32, RefBits, DestroyBits;
    StepHolders(s, t, a);
    StepSignallers(s, t, a);
    StepPhase(s, t, a);
    if a.Unref? {
      CountDown(s, t);
    } else if a.UnrefAndDestroy? {
      CountFlag(s, t);
    }
  }

  lemma StepInv(s: State, t: Tid, a: Action)
    requires Inv(s) && Enabled(s, t, a)
    ensures Inv(Step(s, t, a))
  {
    StepLocked(s, t, a);
    StepWord(s, t, a);
    StepSignal(s, t, a);
  }

  // ---- Whole runs ----

  datatype Event = Event(t: Tid, a: Action)

  predicate Legal(s: State, run: seq<Event>)
    decreases |run|
  {
    run == [] || (Enabled(s, run[0].t, run[0].a) && Legal(Step(s, run[0].t, run[0].a), run[1..]))
  }

  function After(s: State, run: seq<Event>): State
    requires Legal(s, run)
    decreases |run|
  {
    if run == [] then s else After(Step(s, run[0].t, run[0].a), run[1..])
  }

  lemma {:induction false} RunInv(s: State, run: seq<Event>)
    requires Inv(s) && Legal(s, run)
    ensures Inv(After(s, run))
    decreases |run|
  {
    if run != [] {
      StepInv(s, run[0].t, run[0].a);
      RunInv(Step(s, run[0].t, run[0].a), run[1..]);
    }
  }

  // A thread that is between taking its reference and being done with the port.
  predicate UsesPort(p: Pc) {
    HoldsRef(p) || p == Signalling || p == SharedFound
  }

  // In every interleaving: no assertion fails and no freed memory is touched; at most one closer
  // takes the node out of the tree; once the port is being deleted nobody else uses it.
  lemma PortIsSafe(s: State, run: seq<Event>)
    requires Init(s) && Legal(s, run)
    ensures
      var f := After(s, run);
      && !f.fault
      && f.wins <= 1
      && (forall t, u | t in f.pc && f.pc[t] == Deleting && u in f.pc :: !UsesPort(f.pc[u]))
      && (forall t, u | t in f.pc && u in f.pc && f.pc[t] == Deleting && f.pc[u] == Deleting :: t == u)
      && (f.freed ==> f.wins == 1 && forall t | t in f.pc :: !UsesPort(f.pc[t]) && !IsCloser(f.pc[t]))
  {
    InitInv(s);
    RunInv(s, run);
    var f := After(s, run);
    forall t | t in f.pc
      ensures ThreadOk(f, t)
      ensures UsesPort(f.pc[t]) ==> t in Holders(f) || t in At(f, Signalling) || f.inTree
    {
      assert ThreadOk(f, t);
    }
  }

  // The keyed event is released exactly once if the closer went to wait for it, and otherwise never.
  lemma SignalledExactlyWhenWaited(s: State, run: seq<Event>)
    requires Init(s) && Legal(s, run)
    ensures
      var f := After(s, run);
      && (f.freed ==> f.signals == if f.waited then 1 else 0)
      && (forall t | t in f.pc && f.pc[t] == Signalling ::
            f.waited && f.signals == 0 && exists c :: c in f.pc && f.pc[c] == Awaiting)
  {
    InitInv(s);
    RunInv(s, run);
    var f := After(s, run);
    if CloserAwaits(f) {
      assert ThreadOk(f, f.closer.value);
    }
    forall t | t in f.pc && f.pc[t] == Signalling
      ensures CloserAwaits(f)
    {
      assert t in At(f, Signalling);
    }
  }

  // ---- Every call returns ----

  // A call under way is never stuck: some thread that is inside a call can take a step.
  lemma NeverStuck(s: State, run: seq<Event>, t: Tid) returns (u: Tid, a: Action)
    requires Init(s) && Legal(s, run)
    requires t in After(s, run).pc && After(s, run).pc[t] != Idle
    ensures u in After(s, run).pc && After(s, run).pc[u] != Idle && Enabled(After(s, run), u, a)
    ensures !a.AcquireShared? && !a.AcquireExclusive?
  {
    InitInv(s);
    RunInv(s, run);
    var f := After(s, run);
    if f.pc[t] == Signalling || f.pc[t] == Awaiting {
      assert ThreadOk(f, t);
      assert f.pc[t] == Signalling ==> t in At(f, Signalling);
      var c := f.closer.value;
      if Holders(f) == {} {
        var v :| v in At(f, Signalling);
        u, a := c, Meet(v);
      } else {
        u :| u in Holders(f);
        a := OwnAction(f.pc[u]);
      }
    } else {
      u, a := t, OwnAction(f.pc[t]);
    }
  }

  function OwnAction(p: Pc): Action
    requires p != Idle && p != Signalling && p != Awaiting
  {
    match p
    case SharedHeld => Find
    case SharedFound => RefUnderShared
    case SharedRef => ReleaseShared
    case Using => Unref
    case ExclusiveHeld => FindAndDelete
    case Unlinked => RefUnderExclusive
    case ExclusiveRef => ReleaseExclusive
    case Closing => UnrefAndDestroy
    case Quiet => WritePoison
    case Deleting => DeletePort
  }

  // Steps left in a thread's call.
  function Rank(p: Pc): nat {
    match p
    case Idle => 0
    case Signalling => 1
    case Using => 2
    case SharedRef => 3
    case SharedFound => 4
    case SharedHeld => 5
    case Deleting => 1
    case Quiet => 2
    case Awaiting => 3
    case Closing => 4
    case ExclusiveRef => 5
    case Unlinked => 6
    case ExclusiveHeld => 7
  }

  // Together with NeverStuck: once no new call starts, every call under way returns.
  lemma StepsRunOut(s: State, t: Tid, a: Action)
    requires Enabled(s, t, a) && !a.AcquireShared? && !a.AcquireExclusive?
    ensures SumOf(Step(s, t, a).pc, Rank) < SumOf(s.pc, Rank)
  {
    var s' := Step(s, t, a);
    if a.Meet? {
      SumUpdate(s.pc, Rank, a.signaller, Idle);
      SumUpdate(s.pc[a.signaller := Idle], Rank, t, Quiet);
    } else {
      SumUpdate(s.pc, Rank, t, s'.pc[t]);
    }
  }

  // ---- A port is closed while another thread is still inside a call ----

  lemma ClosedWhileInUse(s: State, user: Tid, closer: Tid) returns (run: seq<Event>)
    requires Init(s) && user in s.pc && closer in s.pc && user != closer
    ensures Legal(s, run)
    ensures After(s, run).pc == s.pc[user := Using][closer := Closing] && !After(s, run).inTree
  {
    hide Step, Enabled;
    var s1, s2, s3, s4 := EntersUse(s, user);
    var s5, s6, s7, s8 := StartsClosing(s4, closer);
    run := [];
    run := Prepend(s7, closer, ReleaseExclusive, run);
    run := Prepend(s6, closer, RefUnderExclusive, run);
    run := Prepend(s5, closer, FindAndDelete, run);
    run := Prepend(s4, closer, AcquireExclusive, run);
    run := Prepend(s3, user, ReleaseShared, run);
    run := Prepend(s2, user, RefUnderShared, run);
    run := Prepend(s1, user, Find, run);
    run := Prepend(s, user, AcquireShared, run);
  }

  lemma EntersUse(s: State, t: Tid) returns (s1: State, s2: State, s3: State, s4: State)
    requires Init(s) && t in s.pc
    ensures Enabled(s, t, AcquireShared) && s1 == Step(s, t, AcquireShared)
    ensures Enabled(s1, t, Find) && s2 == Step(s1, t, Find)
    ensures Enabled(s2, t, RefUnderShared) && s3 == Step(s2, t, RefUnderShared)
    ensures Enabled(s3, t, ReleaseShared) && s4 == Step(s3, t, ReleaseShared)
    ensures s4.pc == s.pc[t := Using] && s4.owner == None && s4.readers == {} && s4.inTree
  {
    s1 := Step(s, t, AcquireShared);
    s2 := Step(s1, t, Find);
    s3 := Step(s2, t, RefUnderShared);
    s4 := Step(s3, t, ReleaseShared);
  }

  lemma StartsClosing(s: State, t: Tid) returns (s1: State, s2: State, s3: State, s4: State)
    requires t in s.pc && s.pc[t] == Idle && s.owner == None && s.readers == {} && s.inTree
    ensures Enabled(s, t, AcquireExclusive) && s1 == Step(s, t, AcquireExclusive)
    ensures Enabled(s1, t, FindAndDelete) && s2 == Step(s1, t, FindAndDelete)
    ensures Enabled(s2, t, RefUnderExclusive) && s3 == Step(s2, t, RefUnderExclusive)
    ensures Enabled(s3, t, ReleaseExclusive) && s4 == Step(s3, t, ReleaseExclusive)
    ensures s4.pc == s.pc[t := Closing] && !s4.inTree
  {
    s1 := Step(s, t, AcquireExclusive);
    s2 := Step(s1, t, FindAndDelete);
    s3 := Step(s2, t, RefUnderExclusive);
    s4 := Step(s3, t, ReleaseExclusive);
  }

  lemma Prepend(s: State, t: Tid, a: Action, run: seq<Event>) returns (longer: seq<Event>)
    requires Enabled(s, t, a) && Legal(Step(s, t, a), run)
    ensures Legal(s, longer) && After(s, longer) == After(Step(s, t, a), run)
  {
    longer := [Event(t, a)] + run;
    assert longer[1..] == run;
  }
}
