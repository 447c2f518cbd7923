// The pollable thread pool of ezgrpc2, as a machine whose steps are its critical sections: every
// stretch of code between taking the mutex and giving it up, by waiting or unlocking, is one step.
// Tasks are numbered in the order they are added.

module ThreadPool {
  import opened Basics
  import opened MapSum
  import L = LinkedList

  type Wid = nat
  type TaskNo = nat

  datatype Pc =
    | Starting           // before the worker has counted itself as live
    | Ready              // about to lock, to look for a task
    | Waiting            // in pthread_cond_wait
    | Woken              // out of the wait, about to have the mutex again
    | Holding(task: TaskNo)   // running a task, the mutex released
    | Exited

  // `submitted` counts the tasks added so far; `taken`, those taken from the queue; `polled` is
  // what polls have handed out. Both are history.
  datatype Pool = Pool(
    queue: seq<TaskNo>,
    finished: seq<TaskNo>,
    running: int,
    live: int,
    stop: bool,
    pc: map<Wid, Pc>,
    submitted: nat,
    taken: nat,
    polled: seq<TaskNo>)

  datatype Action =
    | Start(w: Wid)
    | Look(w: Wid)       // take a task, or go to wait, or leave when the pool has stopped
    | Finish(w: Wid)
    | WakeUp(w: Wid)     // the wait may end for no reason
    | AddTask
    | Poll
    | Stop

  function Broadcast(pc: map<Wid, Pc>): map<Wid, Pc> {
    map w | w in pc :: if pc[w] == Waiting then Woken else pc[w]
  }

  predicate Enabled(s: Pool, a: Action) {
    match a
    case Start(w) => w in s.pc && s.pc[w] == Starting
    case Look(w) => w in s.pc && (s.pc[w] == Ready || s.pc[w] == Woken)
    case Finish(w) => w in s.pc && s.pc[w].Holding?
    case WakeUp(w) => w in s.pc && s.pc[w] == Waiting
    case AddTask => true
    case Poll => true
    case Stop => true
  }

  function Step(s: Pool, a: Action): Pool
    requires Enabled(s, a)
  {
    match a
    case Start(w) => s.(live := s.live + 1, pc := s.pc[w := Ready])
    case Look(w) =>
      if s.stop then s.(live := s.live - 1, pc := s.pc[w := Exited])
      else if s.queue == [] then s.(pc := s.pc[w := Waiting])
      else s.(queue := s.queue[1..], running := s.running + 1, taken := s.taken + 1,
              pc := s.pc[w := Holding(s.queue[0])])
    case Finish(w) =>
      s.(finished := s.finished + [s.pc[w].task], running := s.running - 1, pc := s.pc[w := Ready])
    case WakeUp(w) => s.(pc := s.pc[w := Woken])
    case AddTask =>
      s.(queue := s.queue + [s.submitted], submitted := s.submitted + 1, pc := Broadcast(s.pc))
    case Poll => s.(polled := s.polled + s.finished, finished := [])
    case Stop => s.(stop := true, pc := Broadcast(s.pc))
  }

  predicate Init(s: Pool) {
    && s.queue == [] && s.finished == [] && s.polled == []
    && s.running == 0 && s.live == 0 && !s.stop && s.submitted == 0 && s.taken == 0
    && (forall w | w in s.pc :: s.pc[w] == Starting)
  }

  // ---- The invariant ----

  function Range(a: nat, b: nat): (r: seq<nat>)
    requires a <= b
  {
    seq(b - a, i => a + i)
  }

  // The completed tasks, in the order of their completion.
  function Done(s: Pool): seq<TaskNo> {
    s.polled + s.finished
  }

  ghost predicate Holds(s: Pool, w: Wid, t: TaskNo) {
    w in s.pc && s.pc[w] == Holding(t)
  }

  ghost predicate Held(s: Pool, t: TaskNo) {
    exists w: Wid :: Holds(s, w, t)
  }

  ghost function Holders(s: Pool): set<Wid> {
    set w | w in s.pc && s.pc[w].Holding?
  }

  ghost function Alive(s: Pool): set<Wid> {
    set w | w in s.pc && IsAlive(s.pc[w])
  }

  // Every task is in exactly one place: queued, held by one worker, or done once.
  ghost predicate Placed(s: Pool) {
    && s.taken <= s.submitted
    && s.queue == Range(s.taken, s.submitted)
    && Distinct(Done(s))
    && (forall t | t in Done(s) :: t < s.taken && !Held(s, t))
    && (forall w: Wid, t: TaskNo | Holds(s, w, t) :: t < s.taken)
    && (forall w: Wid, v: Wid, t: TaskNo | Holds(s, w, t) && Holds(s, v, t) :: w == v)
    && (forall t: TaskNo | t < s.taken :: t in Done(s) || Held(s, t))
  }

  ghost predicate Counted(s: Pool) {
    s.running == |Holders(s)| && s.live == |Alive(s)|
  }

  // Nobody waits while there is something to do; workers leave only after the stop.
  ghost predicate Awake(s: Pool) {
    forall w | w in s.pc ::
      && (s.pc[w] == Waiting ==> s.queue == [] && !s.stop)
      && (s.pc[w] == Exited ==> s.stop)
  }

  // The tasks before t that had not been completed when the i-th completion came.
  ghost function Overtaken(done: seq<TaskNo>, i: nat): set<TaskNo>
    requires i < |done|
  {
    set u: nat | u < done[i] && u !in done[..i]
  }

  // A task overtakes fewer tasks than there are workers.
  ghost predicate Orderly(s: Pool) {
    forall i | 0 <= i < |Done(s)| :: |Overtaken(Done(s), i)| < |s.pc.Keys|
  }

  ghost predicate Inv(s: Pool) {
    Placed(s) && Counted(s) && Awake(s) && Orderly(s)
  }

  lemma InitInv(s: Pool)
    requires Init(s)
    ensures Inv(s)
  {
    assert Holders(s) == {} && Alive(s) == {};
  }

  // ---- Every step keeps it ----

  lemma StepCounted(s: Pool, a: Action)
    requires Counted(s) && Enabled(s, a)
    ensures Counted(Step(s, a))
  {
    var s' := Step(s, a);
    StepHolders(s, a);
  }

  predicate IsAlive(p: Pc) {
    p != Starting && p != Exited
  }

  // Two sets that agree on all but w differ in size by what they say of w.
  lemma CountMoved(ws: set<Wid>, ws': set<Wid>, w: Wid)
    requires ws - {w} == ws' - {w}
    ensures |ws'| - |ws| == (if w in ws' then 1 else 0) - if w in ws then 1 else 0
  {
    assert w in ws ==> ws == ws - {w} + {w};
    assert w in ws' ==> ws' == ws - {w} + {w};
    assert w !in ws ==> ws == ws - {w};
    assert w !in ws' ==> ws' == ws - {w};
  }

  lemma MovedHolders(s: Pool, s': Pool, w: Wid)
    requires w in s.pc && w in s'.pc && s'.pc == s.pc[w := s'.pc[w]]
    ensures |Holders(s')| - |Holders(s)| == (if s'.pc[w].Holding? then 1 else 0) - if s.pc[w].Holding? then 1 else 0
  {
    CountMoved(Holders(s), Holders(s'), w);
  }

  lemma MovedAlive(s: Pool, s': Pool, w: Wid)
    requires w in s.pc && w in s'.pc && s'.pc == s.pc[w := s'.pc[w]]
    ensures |Alive(s')| - |Alive(s)| == (if IsAlive(s'.pc[w]) then 1 else 0) - if IsAlive(s.pc[w]) then 1 else 0
  {
    hide IsAlive;
    CountMoved(Alive(s), Alive(s'), w);
  }

  lemma StepHolders(s: Pool, a: Action)
    requires Enabled(s, a)
    ensures |Holders(Step(s, a))| - |Holders(s)| == Step(s, a).running - s.running
    ensures |Alive(Step(s, a))| - |Alive(s)| == Step(s, a).live - s.live
  {
    var s' := Step(s, a);
    if a.Start? || a.Look? || a.Finish? || a.WakeUp? {
      MovedHolders(s, s', a.w);
      MovedAlive(s, s', a.w);
    } else {
      assert Holders(s') == Holders(s) && Alive(s') == Alive(s);
    }
  }

  lemma StepWorkers(s: Pool, a: Action)
    requires Enabled(s, a)
    ensures Step(s, a).pc.Keys == s.pc.Keys
  {
  }

  lemma StepAwake(s: Pool, a: Action)
    requires Awake(s) && Enabled(s, a)
    ensures Awake(Step(s, a))
  {
  }

  lemma StepPlaced(s: Pool, a: Action)
    requires Placed(s) && Enabled(s, a)
    ensures Placed(Step(s, a))
    ensures Done(Step(s, a)) == Done(s) + if a.Finish? then [s.pc[a.w].task] else []
  {
    var s' := Step(s, a);
    match a
    case Look(w) =>
      if !s.stop && s.queue != [] {
        TakePlaced(s, w);
      } else {
        SamePlaces(s, s');
      }
    case Finish(w) => FinishPlaced(s, w);
    case AddTask =>
      assert s'.queue == Range(s.taken, s'.submitted);
      SamePlaces(s, s');
    case Poll => SamePlaces(s, s');
    case _ => SamePlaces(s, s');
  }

  // Nothing is taken or completed.
  lemma SamePlaces(s: Pool, s': Pool)
    requires Placed(s)
    requires s'.taken == s.taken && Done(s') == Done(s)
    requires s'.taken <= s'.submitted && s'.queue == Range(s'.taken, s'.submitted)
    requires forall w: Wid, t: TaskNo :: Holds(s', w, t) <==> Holds(s, w, t)
    ensures Placed(s')
  {
  }

  lemma TakePlaced(s: Pool, w: Wid)
    requires Placed(s) && Enabled(s, Look(w)) && !s.stop && s.queue != []
    ensures Placed(Step(s, Look(w))) && Done(Step(s, Look(w))) == Done(s)
  {
    var s' := Step(s, Look(w));
    assert s.queue[0] == s.taken;
    assert s'.queue == Range(s'.taken, s'.submitted);
    forall v: Wid, t: TaskNo
      ensures Holds(s', v, t) <==> Holds(s, v, t) || (v == w && t == s.taken)
    {
    }
    forall t: TaskNo
      ensures Held(s', t) <==> Held(s, t) || t == s.taken
    {
      assert t == s.taken ==> Holds(s', w, t);
      if Held(s, t) {
        var v: Wid :| Holds(s, v, t);
        assert Holds(s', v, t);
      }
    }
  }

  lemma FinishPlaced(s: Pool, w: Wid)
    requires Placed(s) && Enabled(s, Finish(w))
    ensures Placed(Step(s, Finish(w))) && Done(Step(s, Finish(w))) == Done(s) + [s.pc[w].task]
  {
    var s' := Step(s, Finish(w));
    var task := s.pc[w].task;
    assert Holds(s, w, task) && Held(s, task);
    assert Done(s') == Done(s) + [task];
    forall v: Wid, t: TaskNo
      ensures Holds(s', v, t) <==> Holds(s, v, t) && v != w
    {
    }
    forall t: TaskNo
      ensures Held(s', t) <==> Held(s, t) && t != task
    {
      if Held(s, t) && t != task {
        var v: Wid :| Holds(s, v, t);
        assert Holds(s', v, t);
      }
    }
    assert forall t | t in Done(s') :: t in Done(s) || t == task;
  }

  // ---- Order ----

  lemma {:induction false} ImageSize(ws: set<Wid>, pc: map<Wid, Pc>)
    requires forall w | w in ws :: w in pc && pc[w].Holding?
    ensures |set w | w in ws :: pc[w].task| <= |ws|
  {
    if ws != {} {
      var w :| w in ws;
      ImageSize(ws - {w}, pc);
      var smaller := set v | v in ws - {w} :: pc[v].task;
      assert (set v | v in ws :: pc[v].task) == smaller + {pc[w].task};
    }
  }

  // What a finishing task overtakes is held by the other workers.
  lemma FinishOvertakes(s: Pool, w: Wid)
    requires Placed(s) && Enabled(s, Finish(w))
    ensures |Overtaken(Done(s) + [s.pc[w].task], |Done(s)|)| < |s.pc.Keys|
  {
    var task := s.pc[w].task;
    var done := Done(s) + [task];
    var others := Holders(s) - {w};
    var held := set v | v in others :: s.pc[v].task;
    assert done[..|Done(s)|] == Done(s);
    assert Holds(s, w, task);
    forall u | u in Overtaken(done, |Done(s)|)
      ensures u in held
    {
      assert u < s.taken && u !in Done(s);
      var v: Wid :| Holds(s, v, u);
      assert v in others;
    }
    ImageSize(others, s.pc);
    SubsetSize(Overtaken(done, |Done(s)|), held);
    SubsetSize(Holders(s), s.pc.Keys);
    assert w in Holders(s);
  }

  lemma StepOrderly(s: Pool, a: Action)
    requires Placed(s) && Orderly(s) && Enabled(s, a)
    ensures Orderly(Step(s, a))
  {
    StepPlaced(s, a);
    StepWorkers(s, a);
    if a.Finish? {
      var done := Done(Step(s, a));
      FinishOvertakes(s, a.w);
      forall i | 0 <= i < |done|
        ensures |Overtaken(done, i)| < |s.pc.Keys|
      {
        if i < |Done(s)| {
          assert done[..i] == Done(s)[..i];
          assert Overtaken(done, i) == Overtaken(Done(s), i);
        }
      }
    } else {
      assert Done(Step(s, a)) == Done(s);
    }
  }

  lemma StepInv(s: Pool, a: Action)
    requires Inv(s) && Enabled(s, a)
    ensures Inv(Step(s, a))
  {
    StepPlaced(s, a);
    StepCounted(s, a);
    StepAwake(s, a);
    StepOrderly(s, a);
  }

  // ---- Whole runs ----

  predicate Legal(s: Pool, run: seq<Action>)
    decreases |run|
  {
    run == [] || (Enabled(s, run[0]) && Legal(Step(s, run[0]), run[1..]))
  }

  function After(s: Pool, run: seq<Action>): Pool
    requires Legal(s, run)
    decreases |run|
  {
    if run == [] then s else After(Step(s, run[0]), run[1..])
  }

  lemma {:induction false} RunInv(s: Pool, run: seq<Action>)
    requires Inv(s) && Legal(s, run)
    ensures Inv(After(s, run)) && After(s, run).pc.Keys == s.pc.Keys
    decreases |run|
  {
    if run != [] {
      StepInv(s, run[0]);
      StepWorkers(s, run[0]);
      RunInv(Step(s, run[0]), run[1..]);
    }
  }

  // ezgrpc2_pthpool_is_empty
  predicate IsEmpty(s: Pool) {
    s.running == 0 && s.finished == [] && s.queue == []
  }

  // The pool says it is empty exactly when every task added has been handed out by a poll.
  lemma EmptyMeansAllPolled(s: Pool, run: seq<Action>)
    requires Init(s) && Legal(s, run)
    ensures
      var f := After(s, run);
      IsEmpty(f) <==> forall t: TaskNo | t < f.submitted :: t in f.polled
  {
    InitInv(s);
    RunInv(s, run);
    var f := After(s, run);
    if IsEmpty(f) {
      HeldMeansRunning(f);
      assert Done(f) == f.polled;
    } else {
      NonEmptyPool(f);
    }
  }

  lemma HeldMeansRunning(f: Pool)
    requires Counted(f)
    ensures forall t: TaskNo :: Held(f, t) ==> f.running > 0
  {
    forall t: TaskNo | Held(f, t)
      ensures f.running > 0
    {
      var w: Wid :| Holds(f, w, t);
      assert w in Holders(f);
    }
  }

  lemma NonEmptyPool(f: Pool)
    requires Inv(f) && !IsEmpty(f)
    ensures exists t: TaskNo :: t < f.submitted && t !in f.polled
  {
    if f.queue != [] {
      assert f.queue[0] == f.taken;
      assert f.taken < f.submitted && f.taken !in Done(f);
      assert f.taken !in f.polled;
    } else if f.finished != [] {
      var t := f.finished[0];
      assert Done(f)[|f.polled|] == t;
      assert forall i | 0 <= i < |f.polled| :: Done(f)[i] == f.polled[i];
      assert t in Done(f) && t !in f.polled && t < f.submitted;
    } else {
      var w :| w in Holders(f);
      var t := f.pc[w].task;
      assert Holds(f, w, t) && Held(f, t);
      assert t !in Done(f) && t !in f.polled && t < f.submitted;
    }
  }

  // Tasks leave the queue in the order of submission; each submitted task is queued, held by one
  // worker, or completed once; and no more tasks are passed over than there are other workers.
  lemma TasksAreConserved(s: Pool, run: seq<Action>)
    requires Init(s) && Legal(s, run)
    ensures
      var f := After(s, run);
      && f.taken <= f.submitted && f.queue == Range(f.taken, f.submitted)
      && Distinct(f.polled + f.finished)
      && (forall t: TaskNo ::
            t < f.submitted <==> t in f.queue || Held(f, t) || t in f.polled + f.finished)
      && (forall t | t in f.polled + f.finished :: t !in f.queue && !Held(f, t))
      && (forall t | t in f.queue :: !Held(f, t))
      && (forall w: Wid, v: Wid, t: TaskNo | Holds(f, w, t) && Holds(f, v, t) :: w == v)
      && f.running == |Holders(f)|
      && (forall i | 0 <= i < |f.polled + f.finished| ::
            |Overtaken(f.polled + f.finished, i)| <= |f.pc.Keys| - 1)
  {
    InitInv(s);
    RunInv(s, run);
    var f := After(s, run);
    forall t: TaskNo
      ensures t in f.queue <==> f.taken <= t < f.submitted
    {
      if f.taken <= t < f.submitted {
        assert f.queue[t - f.taken] == t;
      }
    }
    forall t: TaskNo
      ensures Held(f, t) ==> t < f.taken
    {
    }
  }

  // ---- One worker keeps the order ----

  lemma InRange(t: nat, a: nat, b: nat)
    requires a <= b
    ensures t in Range(a, b) <==> a <= t < b
  {
    if a <= t < b {
      assert Range(a, b)[t - a] == t;
    }
  }

  lemma {:induction false} NothingOvertaken(done: seq<TaskNo>)
    requires Distinct(done) && forall i | 0 <= i < |done| :: Overtaken(done, i) == {}
    ensures done == Range(0, |done|)
  {
    if done != [] {
      var n := |done| - 1;
      var before, t := done[..n], done[n];
      forall i | 0 <= i < n
        ensures Overtaken(before, i) == {}
      {
        assert before[..i] == done[..i] && Overtaken(done, i) == {};
      }
      NothingOvertaken(before);
      InRange(t, 0, n);
      InRange(n, 0, n);
      assert t !in before && before == done[..n];
      assert n < t <==> n in Overtaken(done, n);
    }
  }

  function HeldBy(s: Pool, w: Wid): seq<TaskNo>
    requires w in s.pc
  {
    if s.pc[w].Holding? then [s.pc[w].task] else []
  }

  // With a single worker, what has been polled, what is finished, what is being run and what waits
  // are, in this order, the tasks as they were added.
  lemma SingleWorkerOrder(s: Pool, run: seq<Action>, w: Wid)
    requires Init(s) && Legal(s, run) && s.pc.Keys == {w}
    ensures
      var f := After(s, run);
      w in f.pc && f.polled + f.finished + HeldBy(f, w) + f.queue == Range(0, f.submitted)
  {
    InitInv(s);
    RunInv(s, run);
    var f := After(s, run);
    var done := Done(f);
    forall i | 0 <= i < |done|
      ensures Overtaken(done, i) == {}
    {
      assert |Overtaken(done, i)| < 1;
    }
    NothingOvertaken(done);
    HeldIsNext(f, w);
  }

  lemma HeldIsNext(f: Pool, w: Wid)
    requires Placed(f) && f.pc.Keys == {w} && Done(f) == Range(0, |Done(f)|)
    ensures |Done(f)| <= f.taken && HeldBy(f, w) == Range(|Done(f)|, f.taken)
  {
    var d := |Done(f)|;
    assert d > 0 ==> Done(f)[d - 1] in Done(f);
    var first, second := Holding(d), Holding(d + 1);
    forall t: TaskNo | d <= t < f.taken
      ensures f.pc[w] == Holding(t)
    {
      assert t !in Done(f);
      var v: Wid :| Holds(f, v, t);
    }
    if f.pc[w].Holding? {
      var t := f.pc[w].task;
      assert Holds(f, w, t) && Held(f, t);
      InRange(t, 0, d);
    }
  }

  // ---- Every worker goes on, and all of them leave after the stop ----

  function OwnAction(s: Pool, w: Wid): Action
    requires w in s.pc
  {
    match s.pc[w]
    case Starting => Start(w)
    case Ready => Look(w)
    case Waiting => WakeUp(w)
    case Woken => Look(w)
    case Holding(_) => Finish(w)
    case Exited => WakeUp(w)
  }

  // No wakeup is lost: while tasks wait, no worker does.
  lemma NoLostWakeup(s: Pool, run: seq<Action>, w: Wid)
    requires Init(s) && Legal(s, run) && w in After(s, run).pc
    ensures
      var f := After(s, run);
      && (f.pc[w] == Waiting ==> f.queue == [] && !f.stop)
      && (f.queue != [] && !f.stop ==> Enabled(f, OwnAction(f, w)) && !OwnAction(f, w).WakeUp?)
      && (f.stop && f.pc[w] != Exited ==> Enabled(f, OwnAction(f, w)) && !OwnAction(f, w).WakeUp?)
  {
    InitInv(s);
    RunInv(s, run);
  }

  // Steps a worker has left once the pool has been stopped.
  function Rank(p: Pc): nat {
    match p
    case Starting => 2
    case Ready => 1
    case Waiting => 2
    case Woken => 1
    case Holding(_) => 2
    case Exited => 0
  }

  // After the stop every step of a worker brings it nearer its exit, so the joins return.
  lemma WorkersRunOut(s: Pool, a: Action)
    requires Enabled(s, a) && s.stop && (a.Start? || a.Look? || a.Finish? || a.WakeUp?)
    ensures SumOf(Step(s, a).pc, Rank) < SumOf(s.pc, Rank)
  {
    SumUpdate(s.pc, Rank, a.w, Step(s, a).pc[a.w]);
  }

  // ---- Before the stop, every task added is finished ----

  // Steps a worker has left before it waits, when the queue is empty.
  function Busy(p: Pc): nat {
    match p
    case Starting => 2
    case Ready => 1
    case Waiting => 0
    case Woken => 1
    case Holding(_) => 2
    case Exited => 0
  }

  // What is left to do: two steps for every task in the queue, and what the workers are at.
  ghost function Work(s: Pool): nat {
    SumOf(s.pc, Busy) + 2 * |s.queue|
  }

  predicate Works(a: Action) {
    a.Start? || a.Look? || a.Finish?
  }

  // Every step of a worker but a spurious wakeup leaves less to do.
  lemma WorkStep(s: Pool, a: Action)
    requires Enabled(s, a) && !s.stop && Works(a)
    ensures Work(Step(s, a)) < Work(s) && !Step(s, a).stop
  {
    hide SumOf;
    SumUpdate(s.pc, Busy, a.w, Step(s, a).pc[a.w]);
  }

  lemma IdleStep(s: Pool, a: Action)
    requires Enabled(s, a) && !s.stop && (a.WakeUp? || a.Poll?)
    ensures Work(Step(s, a)) == Work(s) + (if a.WakeUp? then 1 else 0) && !Step(s, a).stop
  {
    hide SumOf;
    if a.WakeUp? {
      SumUpdate(s.pc, Busy, a.w, Woken);
    }
  }

  function WorkSteps(run: seq<Action>): nat {
    if run == [] then 0 else (if Works(run[0]) then 1 else 0) + WorkSteps(run[1..])
  }

  function WakeUps(run: seq<Action>): nat {
    if run == [] then 0 else (if run[0].WakeUp? then 1 else 0) + WakeUps(run[1..])
  }

  // While nothing is added and the pool is not stopped, the workers' steps are bounded by what
  // there was to do and by the wakeups that came for no reason.
  lemma {:induction false} WorkRunsOut(s: Pool, run: seq<Action>)
    requires Legal(s, run) && !s.stop && forall a | a in run :: !a.AddTask? && !a.Stop?
    ensures WorkSteps(run) + Work(After(s, run)) <= Work(s) + WakeUps(run)
    ensures !After(s, run).stop
    decreases |run|
  {
    hide Enabled, Step, Work;
    if run != [] {
      if Works(run[0]) {
        WorkStep(s, run[0]);
      } else {
        IdleStep(s, run[0]);
      }
      WorkRunsOut(Step(s, run[0]), run[1..]);
    }
  }

  // As long as a task is not finished, a worker has a step to take; where none has one left, every
  // task added is finished.
  lemma UnfinishedMeansWork(s: Pool, run: seq<Action>, t: TaskNo) returns (w: Wid)
    requires Init(s) && Legal(s, run) && s.pc.Keys != {}
    requires !After(s, run).stop && t < After(s, run).submitted && t !in Done(After(s, run))
    ensures w in After(s, run).pc
    ensures Works(OwnAction(After(s, run), w)) && Enabled(After(s, run), OwnAction(After(s, run), w))
  {
    InitInv(s);
    RunInv(s, run);
    var f := After(s, run);
    if t < f.taken {
      w :| Holds(f, w, t);
    } else {
      assert f.queue[t - f.taken] == t;
      w :| w in f.pc.Keys;
    }
  }

  // From any point of a run before the stop, the workers left to themselves finish every task that
  // has been added, within so many steps.
  lemma EveryTaskFinishes(s: Pool, run: seq<Action>) returns (more: seq<Action>)
    requires Init(s) && Legal(s, run) && s.pc.Keys != {} && !After(s, run).stop
    ensures Legal(s, run + more) && |more| <= Work(After(s, run)) && forall a | a in more :: Works(a)
    ensures forall t: TaskNo | t < After(s, run).submitted :: t in Done(After(s, run + more))
    ensures After(s, run + more).submitted == After(s, run).submitted
    decreases Work(After(s, run))
  {
    hide Init, Enabled, Step, Work, Done;
    var f := After(s, run);
    if t: TaskNo :| t < f.submitted && t !in Done(f) {
      var w := UnfinishedMeansWork(s, run, t);
      var a := OwnAction(f, w);
      WorkStep(f, a);
      LegalSnoc(s, run, a);
      KeepsSubmitted(f, a);
      var rest := EveryTaskFinishes(s, run + [a]);
      more := [a] + rest;
      assert run + more == run + [a] + rest;
    } else {
      more := [];
      assert run + more == run;
    }
  }

  lemma KeepsSubmitted(s: Pool, a: Action)
    requires Enabled(s, a) && Works(a)
    ensures Step(s, a).submitted == s.submitted
  {
  }

  lemma {:induction false} LegalSnoc(s: Pool, run: seq<Action>, a: Action)
    requires Legal(s, run) && Enabled(After(s, run), a)
    ensures Legal(s, run + [a]) && After(s, run + [a]) == Step(After(s, run), a)
    decreases |run|
  {
    hide Enabled, Step;
    if run == [] {
      assert (run + [a])[1..] == [];
    } else {
      assert (run + [a])[1..] == run[1..] + [a];
      LegalSnoc(Step(s, run[0]), run[1..], a);
    }
  }

  // ---- ezgrpc2_pthpool_free ----

  function Those(q: seq<TaskNo>, has: TaskNo -> bool): seq<TaskNo> {
    if q == [] then [] else (if has(q[0]) then [q[0]] else []) + Those(q[1..], has)
  }

  lemma {:induction false} ThoseConcat(a: seq<TaskNo>, b: seq<TaskNo>, has: TaskNo -> bool)
    ensures Those(a + b, has) == Those(a, has) + Those(b, has)
  {
    if a == [] {
      assert a + b == b;
    } else {
      ThoseConcat(a[1..], b, has);
      assert (a + b)[1..] == a[1..] + b && (a + b)[0] == a[0];
    }
  }

  // Each task that has a cleanup is there as often as in the list, and no other is.
  lemma {:induction false} ThoseCount(q: seq<TaskNo>, has: TaskNo -> bool, t: TaskNo)
    ensures multiset(Those(q, has))[t] == if has(t) then multiset(q)[t] else 0
  {
    if q != [] {
      ThoseCount(q[1..], has, t);
      assert q == [q[0]] + q[1..];
    }
  }

  ghost predicate CalledFor(calls: seq<TaskNo>, q: seq<TaskNo>, has: TaskNo -> bool) {
    forall t: TaskNo :: multiset(calls)[t] == if has(t) then multiset(q)[t] else 0
  }

  lemma ThoseAreCalled(q: seq<TaskNo>, has: TaskNo -> bool)
    ensures CalledFor(Those(q, has), q, has)
  {
    hide Those;
    forall t: TaskNo
      ensures multiset(Those(q, has))[t] == if has(t) then multiset(q)[t] else 0
    {
      ThoseCount(q, has, t);
    }
  }

  lemma NoneOfThem(has: TaskNo -> bool)
    ensures Those([], has) == []
  {
  }

  lemma ThoseFirst(before: seq<TaskNo>, q: seq<TaskNo>, has: TaskNo -> bool)
    requires q != []
    ensures before + Those(q, has) == (if has(q[0]) then before + [q[0]] else before) + Those(q[1..], has)
  {
  }

  // The cleanups called, in order: of the userdata of finished and queued tasks, and of the results
  // of finished ones.
  method Free(finished: L.List<TaskNo>, queue: L.List<TaskNo>, cleansUser: TaskNo -> bool, cleansRet: TaskNo -> bool)
    returns (users: seq<TaskNo>, rets: seq<TaskNo>)
    requires finished.Valid() && queue.Valid() && finished != queue && finished.all !! queue.all
    modifies finished, finished.all, queue, queue.all
    ensures users == Those(old(finished.Contents()) + old(queue.Contents()), cleansUser)
    ensures rets == Those(old(finished.Contents()), cleansRet)
    ensures CalledFor(users, old(finished.Contents()) + old(queue.Contents()), cleansUser)
    ensures CalledFor(rets, old(finished.Contents()), cleansRet)
  {
    hide CalledFor;
    ThoseAreCalled(finished.Contents() + queue.Contents(), cleansUser);
    ThoseAreCalled(finished.Contents(), cleansRet);
    ThoseConcat(finished.Contents(), queue.Contents(), cleansUser);
    users, rets := FreeAll(finished, cleansUser, cleansRet);
    var more, none := FreeAll(queue, cleansUser, _ => false);
    users := users + more;
  }

  method FreeAll(tasks: L.List<TaskNo>, cleansUser: TaskNo -> bool, cleansRet: TaskNo -> bool)
    returns (users: seq<TaskNo>, rets: seq<TaskNo>)
    requires tasks.Valid()
    modifies tasks, tasks.all
    ensures users == Those(old(tasks.Contents()), cleansUser)
    ensures rets == Those(old(tasks.Contents()), cleansRet)
  {
    hide L.DataOf, Those;
    users, rets := [], [];
    ghost var q := tasks.Contents();
    assert Those([], cleansUser) == [] && Those([], cleansRet) == [] by {
      NoneOfThem(cleansUser);
      NoneOfThem(cleansRet);
    }
    while true
      invariant tasks.Valid() && tasks.all == old(tasks.all)
      invariant users + Those(tasks.Contents(), cleansUser) == Those(q, cleansUser)
      invariant rets + Those(tasks.Contents(), cleansRet) == Those(q, cleansRet)
      decreases |tasks.Contents()|
    {
      ghost var before := tasks.Contents();
      var d := tasks.PopFront();
      if d.None? {
        return;
      }
      assert before[1..] == tasks.Contents() && before[0] == d.value;
      ThoseFirst(users, before, cleansUser);
      ThoseFirst(rets, before, cleansRet);
      if cleansUser(d.value) {
        users := users + [d.value];
      }
      if cleansRet(d.value) {
        rets := rets + [d.value];
      }
    }
  }

  // When all workers have left, the tasks that Free finds are exactly those never polled, once each.
  lemma FreeFindsUnpolled(s: Pool, run: seq<Action>)
    requires Init(s) && Legal(s, run)
    requires forall w | w in After(s, run).pc :: After(s, run).pc[w] == Exited
    ensures
      var f := After(s, run);
      && Distinct(f.finished + f.queue)
      && (forall t: TaskNo :: t in f.finished + f.queue <==> t < f.submitted && t !in f.polled)
  {
    TasksAreConserved(s, run);
    var f := After(s, run);
    forall t: TaskNo
      ensures !Held(f, t)
      ensures t in f.finished ==> t in f.polled + f.finished && t !in f.polled
    {
      if t in f.finished {
        FinishedNotPolled(f.polled, f.finished, t);
      }
    }
    DistinctConcat(f);
  }

  lemma FinishedNotPolled(polled: seq<TaskNo>, finished: seq<TaskNo>, t: TaskNo)
    requires Distinct(polled + finished) && t in finished
    ensures t !in polled
  {
    var i :| 0 <= i < |finished| && finished[i] == t;
    var all := polled + finished;
    assert all[|polled| + i] == t;
    assert forall j | 0 <= j < |polled| :: all[j] == polled[j];
  }

  lemma DistinctConcat(f: Pool)
    requires Distinct(f.polled + f.finished) && f.taken <= f.submitted && f.queue == Range(f.taken, f.submitted)
    requires forall t | t in f.polled + f.finished :: t !in f.queue
    ensures Distinct(f.finished + f.queue)
  {
    var all := f.polled + f.finished;
    assert forall i | 0 <= i < |f.finished| :: f.finished[i] == all[|f.polled| + i];
    assert forall i | 0 <= i < |f.finished| :: f.finished[i] in all;
  }
}
