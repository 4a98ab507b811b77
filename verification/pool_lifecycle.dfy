/** From thpool_init to thpool_destroy: what each thread may have to wait for, that
    start-up and shutdown can always be brought to their end, and that no worker
    begins another job once threads_keepalive has been cleared. */
module PoolLifecycle {
  import opened Pool
  import opened Sums
  import opened PoolInvariant
  import opened PoolProgress

  // ---- what a thread waits for ----

  /** A worker that is alive waits for nothing but the semaphore, the queue's lock
      while another has it, and the counters' lock while thpool_wait has it. */
  lemma WorkerWaits(s: State, i: nat)
    requires i < |s.workers|
    ensures var w := s.workers[i];
      (forall wake :: !Enabled(s, WorkerStep(i, wake))) <==>
        || w.Blocked? || w.Gone?
        || (w.ToLock? && s.sh.rwmutex.Some?)
        || ((w.Spawned? || w.CountUp? || w.CountDown? || w.Leaving?) && !CountLockFree(s.sh.waiter))
  {
    var wake := SomeWake(s.workers);
    assert Enabled(s, WorkerStep(i, wake)) <==> WorkerMove(s.sh, s.workers[i], ByWorker(i)).Move?;
  }

  /** A caller of thpool_add_work waits for the queue's lock alone, one of
      thpool_wait for a signal alone. */
  lemma CallersWait(s: State, p: nat)
    requires p < |s.pushers| && !s.pushers[p].Idle? && !s.sh.waiter.Away?
    ensures (forall wake :: !Enabled(s, PusherStep(p, wake))) <==> s.pushers[p].Wants? && s.sh.rwmutex.Some?
    ensures !Enabled(s, WaiterStep) <==> s.sh.waiter.Asleep?
  {
    var wake := SomeWake(s.workers);
    assert Enabled(s, PusherStep(p, wake)) <==> PusherMove(s.sh, s.pushers[p], ByPusher(p)).Move?;
  }

  // ---- start-up ----

  /** thpool_init can always go on to return, with every worker alive. */
  lemma {:induction false} InitCanFinish(s: State) returns (steps: seq<Step>)
    requires Inv(s) && s.owner.Starting?
    ensures Allowed(s, steps) && (forall t | t in steps :: Driven(t))
    ensures var e := Run(s, steps); e.owner.Serving? && e.sh.alive == |e.workers| == |s.workers|
    decreases |s.workers| - s.sh.alive
  {
    hide Inv;
    StartingShape(s);
    var t;
    if i: nat :| i < |s.workers| && s.workers[i].Spawned? {
      t := WorkerStep(i, 0);
      StepInv(s, t);
      StartingShape(Next(s, t));
      var rest := InitCanFinish(Next(s, t));
      steps := [t] + rest;
      assert steps[1..] == rest;
    } else {
      t := OwnerStep(0);
      assert Enabled(s, t);
      steps := [t];
      assert steps[1..] == [];
    }
  }

  lemma StartingShape(s: State)
    requires Inv(s) && s.owner.Starting?
    ensures s.sh.waiter.Away? && s.sh.alive <= |s.workers|
    ensures (forall i | 0 <= i < |s.workers| :: !s.workers[i].Spawned?) ==> s.sh.alive == |s.workers|
  {
    hide Exclusion, Fifo, ExactlyOnce, NotStranded, WakerPending, SleepsWithReason, MarkHolds;
    SumFull(s.workers, LivingOne);
    if forall i | 0 <= i < |s.workers| :: !s.workers[i].Spawned? {
      SumOnes(s.workers, LivingOne);
    }
  }

  // ---- no new job is begun ----

  /** Between the second test of threads_keepalive and the return to the loop's head. */
  predicate Engaged(w: Worker) { w.CountUp? || Counted(w) }

  /** Has passed that test and has yet to pull. */
  predicate WillPull(w: Worker) { w.CountUp? || w.ToLock? || w.Locked? }

  const PullOne: Worker -> nat := w => One(WillPull(w))

  /** Jobs that went to a worker: pulled, and not by jobqueue_clear. */
  function Taken(js: Jobs): int { |js.pulled| - |js.discarded| }

  /** With threads_keepalive cleared, a worker's step takes it into no new job,
      and a pull uses up its right to one. */
  lemma WorkerDown(sh: Shared, w: Worker, me: Holder)
    requires !sh.keepalive && WorkerMove(sh, w, me).Move?
    ensures var m := WorkerMove(sh, w, me);
      && !w.Blocked? && !m.sh.keepalive && (Engaged(m.to) ==> Engaged(w))
      && Taken(m.sh.jobs) + PullOne(m.to) <= Taken(sh.jobs) + PullOne(w)
  {
  }

  /** Neither does a step of any other thread. */
  lemma OthersDown(s: State, t: Step)
    requires Inv(s) && !s.sh.keepalive && Enabled(s, t) && !t.WorkerStep?
    ensures var s' := Next(s, t);
      !s'.sh.keepalive && Taken(s'.sh.jobs) == Taken(s.sh.jobs) && OnlyWoken(s.workers, s'.workers)
  {
    hide Exclusion, Counters, NotStranded, WakerPending, SleepsWithReason, MarkHolds, CanWake;
    StepMovesOnly(s, t);
  }

  ghost predicate OnlyWoken(ws: seq<Worker>, vs: seq<Worker>) {
    |vs| == |ws| && forall j | 0 <= j < |ws| :: vs[j] == ws[j] || (ws[j].Blocked? && vs[j].Woken?)
  }

  lemma WokenPullNone(ws: seq<Worker>, vs: seq<Worker>)
    requires OnlyWoken(ws, vs)
    ensures Sum(vs, PullOne) == Sum(ws, PullOne)
  {
    SumSame(ws, vs, PullOne);
  }

  lemma WorkerStepDown(s: State, i: nat, wake: nat)
    requires !s.sh.keepalive && Enabled(s, WorkerStep(i, wake))
    ensures var s' := Next(s, WorkerStep(i, wake));
      && !s'.sh.keepalive && |s'.workers| == |s.workers|
      && (forall j | 0 <= j < |s.workers| :: Engaged(s'.workers[j]) ==> Engaged(s.workers[j]))
      && Taken(s'.sh.jobs) + Sum(s'.workers, PullOne) <= Taken(s.sh.jobs) + Sum(s.workers, PullOne)
  {
    hide CanWake, Sum, WorkerMove, Taken;
    var m := WorkerMove(s.sh, s.workers[i], ByWorker(i));
    WorkerDown(s.sh, s.workers[i], ByWorker(i));
    var us := AfterPost(s.workers, m.posts, wake);
    PostOnlyWakes(s, m.posts, wake);
    WokenPullNone(s.workers, us);
    assert us[i] == s.workers[i];
    SumUpdate(us, PullOne, i, m.to);
  }

  lemma PostOnlyWakes(s: State, posts: bool, wake: nat)
    requires posts ==> CanWake(s.workers, wake)
    ensures OnlyWoken(s.workers, AfterPost(s.workers, posts, wake))
  {
  }

  lemma DownStep(s: State, t: Step)
    requires Inv(s) && !s.sh.keepalive && Enabled(s, t)
    ensures var s' := Next(s, t);
      && !s'.sh.keepalive && |s'.workers| == |s.workers|
      && (forall i | 0 <= i < |s.workers| :: Engaged(s'.workers[i]) ==> Engaged(s.workers[i]))
      && Taken(s'.sh.jobs) + Sum(s'.workers, PullOne) <= Taken(s.sh.jobs) + Sum(s.workers, PullOne)
  {
    hide Inv, Enabled, Next, Sum, Taken;
    if t.WorkerStep? {
      WorkerStepDown(s, t.i, t.wake);
    } else {
      OthersDown(s, t);
      WokenPullNone(s.workers, Next(s, t).workers);
    }
  }

  lemma {:induction false} DownRun(s: State, steps: seq<Step>)
    requires Inv(s) && !s.sh.keepalive && Allowed(s, steps)
    ensures var e := Run(s, steps);
      && !e.sh.keepalive && |e.workers| == |s.workers|
      && (forall i | 0 <= i < |s.workers| :: Engaged(e.workers[i]) ==> Engaged(s.workers[i]))
      && Taken(e.sh.jobs) + Sum(e.workers, PullOne) <= Taken(s.sh.jobs) + Sum(s.workers, PullOne)
    decreases |steps|
  {
    hide Inv, Enabled, Next, Engaged;
    if steps != [] {
      StepInv(s, steps[0]);
      DownStep(s, steps[0]);
      DownRun(Next(s, steps[0]), steps[1..]);
    }
  }

  /** Once thpool_destroy has cleared threads_keepalive, under every schedule: a
      worker that is not engaged with a job never is again, and workers pull at
      most one more job for each that had passed its test and not yet pulled. */
  lemma NoJobBegunAfterShutdown(s: State, steps: seq<Step>)
    requires Reachable(s) && !s.sh.keepalive && Allowed(s, steps)
    ensures var e := Run(s, steps);
      && !e.sh.keepalive && |e.workers| == |s.workers|
      && (forall i | 0 <= i < |s.workers| && !Engaged(s.workers[i]) :: !Engaged(e.workers[i]))
      && |e.sh.jobs.pulled| - |e.sh.jobs.discarded|
         <= |s.sh.jobs.pulled| - |s.sh.jobs.discarded| + |set i: nat | i < |s.workers| && WillPull(s.workers[i])|
  {
    hide Inv, Enabled, Next, Allowed, Run;
    ReachableInv(s);
    DownRun(s, steps);
    SumCounts(s.workers, PullOne);
    assert Where(s.workers, PullOne) == set i: nat | i < |s.workers| && WillPull(s.workers[i]);
  }

  // ---- and the end can always be reached ----

  /** Every job has been run or discarded, and the queue is gone. */
  ghost predicate TornDown(s: State) {
    s.owner.Freed? && s.sh.jobs.queue == [] && s.sh.alive == 0 && AllFated(s.sh.jobs)
  }

  ghost predicate AllFated(js: Jobs) {
    forall k: nat | k < |js.pushed| :: k in js.completed || k in js.discarded
  }

  /** The steps of the threads and of thpool_destroy, without spurious wake-ups. */
  predicate Driven(t: Step) { t.WorkerStep? || t.OwnerStep? || t.Destroy? }

  ghost predicate CanEnd(s: State) {
    exists steps: seq<Step> :: (forall t | t in steps :: Driven(t)) && Allowed(s, steps) && TornDown(Run(s, steps))
  }

  lemma EndsAfter(s: State, t: Step)
    requires Enabled(s, t) && Driven(t) && CanEnd(Next(s, t))
    ensures CanEnd(s)
  {
    hide Enabled, Next, TornDown;
    var rest: seq<Step> :| (forall u | u in rest :: Driven(u)) && Allowed(Next(s, t), rest) && TornDown(Run(Next(s, t), rest));
    var steps := [t] + rest;
    assert steps[1..] == rest;
    assert Allowed(s, steps) && TornDown(Run(s, steps));
  }

  lemma FreedIsTornDown(s: State)
    requires Inv(s) && s.owner.Freed?
    ensures TornDown(s)
  {
    hide Inv;
    PhasesOf(s);
    AllGone(s);
    FateOfJobs(s);
  }

  /** With every worker gone and the queue empty, jobs have been run or discarded. */
  lemma FateOfJobs(s: State)
    requires Inv(s) && s.owner.Freed?
    ensures AllFated(s.sh.jobs)
  {
    assert s.sh.jobs.pushed == s.sh.jobs.pulled;
    forall k: nat | k < |s.sh.jobs.pushed| ensures k in s.sh.jobs.completed || k in s.sh.jobs.discarded {
      assert !SomeoneRuns(s.workers, k);
    }
  }

  /** With every worker gone the owner goes through to the end by itself. */
  lemma {:induction false} OwnerEnds(s: State)
    requires Inv(s) && !s.sh.keepalive && s.sh.alive == 0
    ensures CanEnd(s)
    decreases |s.sh.jobs.queue|, match s.owner case PostingAll => 3 case Polling => 2 case Clearing => 1 case _ => 0
  {
    if s.owner.Freed? {
      FreedIsTornDown(s);
      assert Allowed(s, []) && Run(s, []) == s;
    } else {
      var t := OwnerStep(|s.workers|);
      OwnerCanMove(s);
      StepInv(s, t);
      OwnerEnds(Next(s, t));
      EndsAfter(s, t);
    }
  }

  lemma OwnerCanMove(s: State)
    requires Inv(s) && !s.sh.keepalive && s.sh.alive == 0 && !s.owner.Freed?
    ensures Enabled(s, OwnerStep(|s.workers|))
    ensures var s' := Next(s, OwnerStep(|s.workers|));
      && !s'.sh.keepalive && s'.sh.alive == 0
      && match s.owner
         case PostingAll => s'.owner.Polling? && s'.sh.jobs.queue == s.sh.jobs.queue
         case Polling => s'.owner.Clearing? && s'.sh.jobs.queue == s.sh.jobs.queue
         case _ => |s'.sh.jobs.queue| < |s.sh.jobs.queue| || (s'.sh.jobs.queue == s.sh.jobs.queue && s'.owner.Freed?)
  {
    NoneLiving(s);
  }

  /** A worker with a step to take, or nobody if all are blocked or gone. */
  lemma WhoMoves(s: State) returns (i: nat, wake: nat)
    requires Inv(s) && !s.sh.keepalive
    ensures i < |s.workers| ==> Enabled(s, WorkerStep(i, wake))
    ensures i >= |s.workers| ==> forall j | 0 <= j < |s.workers| :: s.workers[j].Blocked? || s.workers[j].Gone?
  {
    hide Counters, Fifo, ExactlyOnce, NotStranded, WakerPending, SleepsWithReason, MarkHolds, CanWake;
    wake := SomeWake(s.workers);
    if s.sh.rwmutex.Some? {
      i := s.sh.rwmutex.value.i;
    } else if j: nat :| j < |s.workers| && !s.workers[j].Blocked? && !s.workers[j].Gone? {
      i := j;
    } else {
      i := |s.workers|;
    }
  }

  /** A worker's own step brings it nearer to its next stop, or out of the pool. */
  lemma MoveDescends(s: State, i: nat, wake: nat)
    requires Enabled(s, WorkerStep(i, wake)) && Phases(s) && !s.sh.keepalive
    ensures var s' := Next(s, WorkerStep(i, wake));
      && !s'.sh.keepalive && s'.owner == s.owner
      && (s'.sh.alive < s.sh.alive || (s'.sh.alive == s.sh.alive && Measure(s') < Measure(s)))
  {
    hide Measure, CanWake;
    if !s.workers[i].Leaving? {
      WorkerStepDescends(s, i, wake);
    }
  }

  /** A worker on its way out of a pool that shuts down. */
  ghost predicate GoesOut(s: State, j: nat) {
    && Inv(s) && !s.sh.keepalive && j < |s.workers|
    && match s.workers[j]
       case Woken => s.sh.sem
       case Got => true
       case Head => true
       case Leaving => true
       case _ => false
  }

  /** It takes the semaphore, sees threads_keepalive cleared, and is gone. */
  lemma {:induction false} OneLeaves(s: State, j: nat)
    requires GoesOut(s, j)
    requires forall r: State | Inv(r) && !r.sh.keepalive && r.sh.alive < s.sh.alive :: CanEnd(r)
    ensures CanEnd(s)
    decreases match s.workers[j] case Woken => 3 case Got => 2 case Head => 1 case _ => 0
  {
    hide CanEnd, Inv;
    var t := WorkerStep(j, 0);
    LeaverStep(s, j);
    StepInv(s, t);
    if !s.workers[j].Leaving? {
      OneLeaves(Next(s, t), j);
    }
    EndsAfter(s, t);
  }

  lemma LeaverStep(s: State, j: nat)
    requires GoesOut(s, j)
    ensures Enabled(s, WorkerStep(j, 0))
    ensures var s' := Next(s, WorkerStep(j, 0));
      && !s'.sh.keepalive && |s'.workers| == |s.workers|
      && match s.workers[j]
         case Woken => s'.workers[j].Got? && s'.sh.alive == s.sh.alive
         case Got => s'.workers[j].Head? && s'.sh.alive == s.sh.alive
         case Head => s'.workers[j].Leaving? && s'.sh.alive == s.sh.alive
         case _ => s'.sh.alive < s.sh.alive
  {
    hide Exclusion, Counters, Fifo, ExactlyOnce, NotStranded, WakerPending, SleepsWithReason, MarkHolds, CanWake;
  }

  /** thpool_destroy posts to all, and a blocked worker leaves. */
  lemma PostAllLetsGo(s: State, j: nat)
    requires Inv(s) && !s.sh.keepalive && j < |s.workers| && s.workers[j].Blocked? && s.owner.PostingAll?
    requires forall r: State | Inv(r) && !r.sh.keepalive && r.sh.alive < s.sh.alive :: CanEnd(r)
    ensures CanEnd(s)
  {
    hide CanEnd, Inv;
    var t := OwnerStep(0);
    StepInv(s, t);
    assert Next(s, t).workers[j].Woken?;
    OneLeaves(Next(s, t), j);
    EndsAfter(s, t);
  }

  lemma SomeoneBlocked(s: State, j: nat)
    requires Inv(s) && !s.sh.keepalive && j < |s.workers| && s.workers[j].Blocked?
    ensures s.sh.alive > 0 && (s.owner.Polling? || s.owner.PostingAll?)
  {
    hide Exclusion, Fifo, ExactlyOnce, NotStranded, WakerPending, SleepsWithReason, MarkHolds;
    SumSome(s.workers, LivingOne, j);
  }

  lemma {:induction false} DownCanEnd(s: State)
    requires Inv(s) && !s.sh.keepalive
    ensures CanEnd(s)
    decreases s.sh.alive, Measure(s)
  {
    hide CanEnd, Measure, Inv;
    var i, wake := WhoMoves(s);
    if i < |s.workers| {
      var t := WorkerStep(i, wake);
      StepInv(s, t);
      PhasesOf(s);
      PhasesOf(Next(s, t));
      MoveDescends(s, i, wake);
      DownCanEnd(Next(s, t));
      EndsAfter(s, t);
    } else if j: nat :| j < |s.workers| && s.workers[j].Blocked? {
      SomeoneBlocked(s, j);
      forall r: State | Inv(r) && !r.sh.keepalive && r.sh.alive < s.sh.alive ensures CanEnd(r) {
        PhasesOf(r);
        DownCanEnd(r);
      }
      if s.owner.PostingAll? {
        PostAllLetsGo(s, j);
      } else {
        StepInv(s, OwnerStep(0));
        PostAllLetsGo(Next(s, OwnerStep(0)), j);
        EndsAfter(s, OwnerStep(0));
      }
    } else {
      AllGone(s);
      OwnerEnds(s);
    }
  }

  lemma AllGone(s: State)
    requires Inv(s) && forall j | 0 <= j < |s.workers| :: s.workers[j].Gone?
    ensures s.sh.alive == 0
  {
    hide Exclusion, Fifo, ExactlyOnce, NotStranded, WakerPending, SleepsWithReason, MarkHolds;
    SumNone(s.workers, LivingOne);
  }

  lemma PhasesOf(s: State)
    requires Inv(s)
    ensures Phases(s) && s.sh.alive >= 0
  {
  }

  /** From every reachable state in which thpool_destroy may be called, or has
      been, the workers and thpool_destroy have a way to the end: all workers
      gone, the queue freed, and every job ever pushed run or discarded. */
  lemma DestroyCanFinish(s: State)
    requires Reachable(s) && (Enabled(s, Destroy) || s.owner.Stopping? || !s.sh.keepalive)
    ensures exists steps: seq<Step> ::
      (forall t | t in steps :: Driven(t)) && Allowed(s, steps) && TornDown(Run(s, steps))
  {
    hide Inv;
    ReachableInv(s);
    if !s.sh.keepalive {
      DownCanEnd(s);
    } else if s.owner.Stopping? {
      StopCanEnd(s);
    } else {
      StepInv(s, Destroy);
      StopCanEnd(Next(s, Destroy));
      EndsAfter(s, Destroy);
    }
  }

  lemma StopCanEnd(s: State)
    requires Inv(s) && s.owner.Stopping?
    ensures CanEnd(s)
  {
    hide Inv, CanEnd;
    StepInv(s, OwnerStep(0));
    DownCanEnd(Next(s, OwnerStep(0)));
    EndsAfter(s, OwnerStep(0));
  }
}
