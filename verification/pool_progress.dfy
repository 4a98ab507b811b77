/** Bounded quiescence: with no further calls, every step of every thread lowers
    one measure, and the pool comes to rest only when all work is done. */
module PoolProgress {
  import opened Pool
  import opened Sums
  import opened PoolInvariant

  // ---- the measure ----

  const JOB := 15
  const SEMAPHORE := 13

  const WorkerRank: Worker -> nat := (w: Worker) =>
    match w
    case Blocked => 0
    case Woken => 1
    case AtWait => 1
    case Head => 2
    case Spawned => 3
    case CountDown => 7
    case Running(_) => 8
    case ToUnlock(_) => 9
    case Locked => 10
    case ToLock => 11
    case CountUp => 12
    case Got => 13
    case ToPost(_) => 24
    case Leaving => 0
    case Gone => 0

  const PusherRank: Pusher -> nat := (p: Pusher) =>
    match p
    case Idle => 0
    case Posted => 1
    case Linked => 16
    case Holds(_) => 32
    case Wants(_) => 33

  function WaiterRank(w: Waiter): nat {
    match w
    case Away => 0
    case Asleep => 0
    case Returning(_) => 1
    case ToSleep => 1
    case ReadWorking(_) => 2
    case ReadLen => 3
    case Entering => 4
    case Signalled => 4
  }

  function SharedRank(sh: Shared): nat {
    JOB * |sh.jobs.queue| + (if sh.sem then SEMAPHORE else 0) + WaiterRank(sh.waiter)
  }

  function Measure(s: State): nat {
    SharedRank(s.sh) + Sum(s.workers, WorkerRank) + Sum(s.pushers, PusherRank)
  }

  /** The steps threads take by themselves: no new call and no spurious wake-up. */
  predicate Internal(t: Step) { t.WorkerStep? || t.PusherStep? || t.WaiterStep? }

  // ---- every internal step lowers it ----

  lemma WorkerDescends(sh: Shared, w: Worker, me: Holder)
    requires !w.Leaving? && WorkerMove(sh, w, me).Move?
    ensures var m := WorkerMove(sh, w, me);
      SharedRank(m.sh) + WorkerRank(m.to) + One(m.posts) < SharedRank(sh) + WorkerRank(w)
  {
  }

  lemma PusherDescends(sh: Shared, p: Pusher, me: Holder)
    requires PusherMove(sh, p, me).Move?
    ensures var m := PusherMove(sh, p, me);
      SharedRank(m.sh) + PusherRank(m.to) + One(m.posts) < SharedRank(sh) + PusherRank(p)
  {
  }

  lemma PostCost(ws: seq<Worker>, posts: bool, wake: nat)
    requires posts && wake < |ws| ==> ws[wake].Blocked?
    ensures Sum(AfterPost(ws, posts, wake), WorkerRank) <= Sum(ws, WorkerRank) + One(posts)
  {
    if posts && wake < |ws| {
      SumUpdate(ws, WorkerRank, wake, Woken);
    }
  }

  lemma WorkerStepDescends(s: State, i: nat, wake: nat)
    requires Enabled(s, WorkerStep(i, wake)) && !s.workers[i].Leaving?
    ensures Measure(Next(s, WorkerStep(i, wake))) < Measure(s)
  {
    var m := WorkerMove(s.sh, s.workers[i], ByWorker(i));
    WorkerDescends(s.sh, s.workers[i], ByWorker(i));
    PostCost(s.workers, m.posts, wake);
    var us := AfterPost(s.workers, m.posts, wake);
    assert us[i] == s.workers[i];
    SumUpdate(us, WorkerRank, i, m.to);
  }

  lemma StepDescends(s: State, t: Step)
    requires Phases(s) && s.owner.Serving? && Internal(t) && Enabled(s, t)
    ensures Measure(Next(s, t)) < Measure(s) && Next(s, t).owner.Serving?
  {
    match t
    case WorkerStep(i, wake) => WorkerStepDescends(s, i, wake);
    case PusherStep(p, wake) =>
      var m := PusherMove(s.sh, s.pushers[p], ByPusher(p));
      PusherDescends(s.sh, s.pushers[p], ByPusher(p));
      PostCost(s.workers, m.posts, wake);
      SumUpdate(s.pushers, PusherRank, p, m.to);
    case WaiterStep =>
  }

  // ---- the pool rests only when everything is done ----

  /** No thread can take a step by itself. */
  ghost predicate AtRest(s: State) {
    forall t | Internal(t) :: !Enabled(s, t)
  }

  ghost predicate AllDone(s: State) {
    && s.sh.jobs.queue == [] && s.sh.working == 0
    && (forall k: nat :: k in s.sh.jobs.completed <==> k < |s.sh.jobs.pushed|)
    && s.sh.waiter.Away? && PushersIdle(s)
    && forall i | 0 <= i < |s.workers| :: s.workers[i].Blocked?
  }

  lemma SomeWake(ws: seq<Worker>) returns (wake: nat)
    ensures CanWake(ws, wake)
  {
    if i: nat :| i < |ws| && ws[i].Blocked? {
      wake := i;
    } else {
      wake := |ws|;
    }
  }

  lemma RestFreesQueue(s: State)
    requires Inv(s) && s.owner.Serving? && AtRest(s)
    ensures s.sh.rwmutex.None? && CountLockFree(s.sh.waiter)
  {
    hide Counters, Fifo, ExactlyOnce, NotStranded, WakerPending, SleepsWithReason, MarkHolds, CanWake;
    assert !Enabled(s, WaiterStep);
    var wake := SomeWake(s.workers);
    if s.sh.rwmutex.Some? {
      HolderCanMove(s, wake);
    }
  }

  /** Whoever holds the queue has a step to take. */
  lemma HolderCanMove(s: State, wake: nat)
    requires Exclusion(s) && s.sh.rwmutex.Some? && CanWake(s.workers, wake)
    ensures exists t :: Internal(t) && Enabled(s, t)
  {
    match s.sh.rwmutex.value
    case ByWorker(i) => assert Enabled(s, WorkerStep(i, wake));
    case ByPusher(p) => assert Enabled(s, PusherStep(p, wake));
  }

  lemma RestBlocks(s: State, i: nat)
    requires Inv(s) && s.owner.Serving? && AtRest(s) && i < |s.workers|
    ensures s.workers[i].Blocked?
  {
    RestFreesQueue(s);
    var wake := SomeWake(s.workers);
    assert !Enabled(s, WorkerStep(i, wake));
  }

  lemma RestIsDone(s: State)
    requires Inv(s) && s.owner.Serving? && AtRest(s) && |s.workers| > 0
    ensures AllDone(s)
  {
    RestFreesQueue(s);
    forall i: nat | i < |s.workers| ensures s.workers[i].Blocked? {
      RestBlocks(s, i);
    }
    var wake := SomeWake(s.workers);
    forall p: nat | p < |s.pushers| ensures s.pushers[p].Idle? {
      assert !Enabled(s, PusherStep(p, wake));
    }
    assert s.workers[0].Blocked?;
    SumNone(s.workers, CountedOne);
    NoneWorkingAllDone(s);
    assert !Enabled(s, WaiterStep);
  }

  lemma {:induction false} InternalRun(s: State, steps: seq<Step>)
    requires Inv(s) && s.owner.Serving? && Allowed(s, steps)
    requires forall t | t in steps :: Internal(t)
    ensures var e := Run(s, steps);
      Inv(e) && e.owner.Serving? && |steps| + Measure(e) <= Measure(s) && |e.workers| == |s.workers|
    decreases |steps|
  {
    if steps != [] {
      StepInv(s, steps[0]);
      StepDescends(s, steps[0]);
      StepMovesOnly(s, steps[0]);
      InternalRun(Next(s, steps[0]), steps[1..]);
    }
  }

  /** From any reachable state of a serving pool with a worker, and under every
      schedule, the threads take at most Measure(s) steps before a new call; and
      where they can take no more, the queue is empty, nobody works, every job
      ever pushed has completed, and thpool_wait has returned. */
  lemma BoundedQuiescence(s: State, steps: seq<Step>)
    requires Reachable(s) && s.owner.Serving? && |s.workers| > 0
    requires Allowed(s, steps) && forall t | t in steps :: Internal(t)
    ensures |steps| <= Measure(s)
    ensures AtRest(Run(s, steps)) ==> AllDone(Run(s, steps))
  {
    ReachableInv(s);
    InternalRun(s, steps);
    if AtRest(Run(s, steps)) {
      RestIsDone(Run(s, steps));
    }
  }

  /** And the pool can always go on to such a state. */
  lemma {:induction false} QuiescenceReached(s: State) returns (steps: seq<Step>)
    requires Inv(s) && s.owner.Serving? && |s.workers| > 0
    ensures Allowed(s, steps) && (forall t | t in steps :: Internal(t)) && AllDone(Run(s, steps))
    decreases Measure(s)
  {
    if t :| Internal(t) && Enabled(s, t) {
      StepInv(s, t);
      StepDescends(s, t);
      StepMovesOnly(s, t);
      var rest := QuiescenceReached(Next(s, t));
      steps := [t] + rest;
      assert steps[1..] == rest;
    } else {
      RestIsDone(s);
      steps := [];
    }
  }
}
