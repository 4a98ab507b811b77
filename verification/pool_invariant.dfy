/** What every step of the pool keeps, and what that says at the moments that
    matter: when thpool_wait returns, when a job is queued, when the queue is
    torn down. */
module PoolInvariant {
  import opened Pool
  import opened Sums

  // ---- regions of thread_do ----

  /** Counted in num_threads_working: between lines 356 and 371. */
  predicate Counted(w: Worker) {
    w.ToLock? || w.Locked? || w.ToPost? || w.ToUnlock? || w.Running? || w.CountDown?
  }

  /** Counted in num_threads_alive: between lines 346 and 380. */
  predicate Living(w: Worker) { !w.Spawned? && !w.Gone? }

  predicate HoldsQueue(w: Worker) { w.Locked? || w.ToPost? || w.ToUnlock? }

  predicate PusherHoldsQueue(p: Pusher) { p.Holds? || p.Linked? || p.Posted? }

  /** Has taken the semaphore and will still pull, or will still post. */
  predicate Carries(w: Worker) {
    w.Got? || w.CountUp? || w.ToLock? || w.Locked? || w.ToPost?
  }

  predicate InFlight(w: Worker, k: nat) {
    w == ToPost(k) || w == ToUnlock(Some(k)) || w == Running(k)
  }

  function One(b: bool): nat { if b then 1 else 0 }

  const CountedOne: Worker -> nat := w => One(Counted(w))
  const LivingOne: Worker -> nat := w => One(Living(w))

  // ---- the invariant, by topic ----

  /** One holder of rwmutex at a time, and it is where it should be. */
  ghost predicate Exclusion(s: State) {
    && (forall i | 0 <= i < |s.workers| :: HoldsQueue(s.workers[i]) <==> s.sh.rwmutex == Some(ByWorker(i)))
    && (forall p | 0 <= p < |s.pushers| :: PusherHoldsQueue(s.pushers[p]) <==> s.sh.rwmutex == Some(ByPusher(p)))
    && (s.sh.rwmutex.Some? ==>
          match s.sh.rwmutex.value
          case ByWorker(i) => i < |s.workers|
          case ByPusher(p) => p < |s.pushers|)
  }

  /** Both counters say exactly how many workers are in their region. */
  ghost predicate Counters(s: State) {
    s.sh.working == Sum(s.workers, CountedOne) && s.sh.alive == Sum(s.workers, LivingOne)
  }

  /** Jobs leave in the order of their pushes. */
  ghost predicate Fifo(js: Jobs) { js.pulled + js.queue == js.pushed }

  ghost predicate SomeoneRuns(ws: seq<Worker>, k: nat) {
    exists i :: 0 <= i < |ws| && InFlight(ws[i], k)
  }

  /** A pulled job is in exactly one place: in one worker's hands, completed or discarded. */
  ghost predicate ExactlyOnce(ws: seq<Worker>, js: Jobs) {
    && js.completed !! js.discarded
    && (forall k: nat :: k < |js.pulled| <==> k in js.completed || k in js.discarded || SomeoneRuns(ws, k))
    && (forall i, k: nat | 0 <= i < |ws| && InFlight(ws[i], k) :: k !in js.completed && k !in js.discarded)
    && (forall i, j, k: nat | 0 <= i < |ws| && 0 <= j < |ws| && InFlight(ws[i], k) && InFlight(ws[j], k) :: i == j)
  }

  ghost predicate SomeoneCarries(s: State) {
    || (exists i :: 0 <= i < |s.workers| && Carries(s.workers[i]))
    || (exists p :: 0 <= p < |s.pushers| && s.pushers[p].Linked?)
  }

  /** While the pool is up, a queued job has someone coming for it. */
  ghost predicate NotStranded(s: State) {
    s.sh.keepalive && s.sh.jobs.queue != [] ==> s.sh.sem || SomeoneCarries(s)
  }

  /** A posted semaphore with workers blocked on it has woken one of them. */
  ghost predicate WakerPending(s: State) {
    s.sh.sem ==> NoneBlocked(s.workers) || SomeWoken(s.workers)
  }

  ghost predicate SomeWoken(ws: seq<Worker>) {
    exists i :: 0 <= i < |ws| && ws[i].Woken?
  }

  /** The caller of thpool_wait sleeps, or is about to, only while there is work. */
  ghost predicate SleepsWithReason(s: State) {
    s.sh.waiter.ToSleep? || s.sh.waiter.Asleep? ==> s.sh.jobs.queue != [] || s.sh.working > 0
  }

  /** What the caller of thpool_wait has read so far still means something. */
  ghost predicate MarkHolds(sh: Shared) {
    && sh.asked <= |sh.jobs.pushed|
    && (sh.waiter.ReadWorking? || sh.waiter.Returning? ==> sh.asked <= sh.waiter.mark <= |sh.jobs.pulled|)
    && (sh.waiter.Returning? ==> forall k: nat | k < sh.waiter.mark :: k in sh.jobs.completed)
  }

  /** How far thpool_init and thpool_destroy have come. */
  ghost predicate Phases(s: State) {
    && (s.sh.keepalive <==> s.owner.Starting? || s.owner.Serving? || s.owner.Stopping?)
    && (!s.owner.Starting? ==> forall i | 0 <= i < |s.workers| :: !s.workers[i].Spawned?)
    && (s.sh.keepalive ==> forall i | 0 <= i < |s.workers| :: !s.workers[i].Leaving? && !s.workers[i].Gone?)
    && (s.owner.Clearing? || s.owner.Freed? ==> forall i | 0 <= i < |s.workers| :: s.workers[i].Gone?)
    && (!s.owner.Clearing? && !s.owner.Freed? ==> s.sh.jobs.discarded == {})
    && (!s.owner.Serving? ==> s.sh.waiter.Away? && PushersIdle(s))
    && (s.owner.Freed? ==> s.sh.jobs.queue == [])
  }

  ghost predicate Inv(s: State) {
    && Exclusion(s) && Counters(s) && Fifo(s.sh.jobs) && ExactlyOnce(s.workers, s.sh.jobs)
    && NotStranded(s) && WakerPending(s) && SleepsWithReason(s) && MarkHolds(s.sh) && Phases(s)
  }

  lemma InitInv(threads: nat, callers: nat)
    ensures Inv(Init(threads, callers))
  {
    var s := Init(threads, callers);
    SumNone(s.workers, CountedOne);
    SumNone(s.workers, LivingOne);
  }

  // ---- the workers after a step ----

  /** Worker i has moved, and at most some blocked workers have been woken. */
  ghost predicate MovesOnly(ws: seq<Worker>, vs: seq<Worker>, i: int) {
    && |vs| == |ws|
    && forall j | 0 <= j < |ws| && j != i :: vs[j] == ws[j] || (ws[j].Blocked? && vs[j].Woken?)
  }

  /** The worker a step moves, or -1. */
  function Mover(t: Step): int {
    match t
    case WorkerStep(i, _) => i
    case SpuriousWorker(i) => i
    case _ => -1
  }

  lemma StepMovesOnly(s: State, t: Step)
    requires Enabled(s, t)
    ensures MovesOnly(s.workers, Next(s, t).workers, Mover(t))
    ensures t.WorkerStep? ==> Next(s, t).workers[t.i] == WorkerMove(s.sh, s.workers[t.i], ByWorker(t.i)).to
  {
  }

  // ---- each part is kept ----

  lemma FifoStep(s: State, t: Step)
    requires Fifo(s.sh.jobs) && Enabled(s, t)
    ensures Fifo(Next(s, t).sh.jobs)
  {
  }

  lemma ExclusionStep(s: State, t: Step)
    requires Exclusion(s) && Enabled(s, t)
    ensures Exclusion(Next(s, t))
  {
    StepMovesOnly(s, t);
    match t
    case WorkerStep(i, wake) => WorkerLocks(s.sh, s.workers[i], ByWorker(i));
    case PusherStep(p, wake) => PusherLocks(s.sh, s.pushers[p], ByPusher(p));
    case _ => assert Next(s, t).sh.rwmutex == s.sh.rwmutex;
  }

  /** A thread takes the free lock, gives back its own, or leaves it alone. */
  ghost predicate LocksFairly(was: Option<Holder>, now: Option<Holder>, me: Holder) {
    now == was || (was.None? && now == Some(me)) || (was == Some(me) && now.None?)
  }

  lemma WorkerLocks(sh: Shared, w: Worker, me: Holder)
    requires WorkerMove(sh, w, me).Move? && (HoldsQueue(w) <==> sh.rwmutex == Some(me))
    ensures var m := WorkerMove(sh, w, me);
      (HoldsQueue(m.to) <==> m.sh.rwmutex == Some(me)) && LocksFairly(sh.rwmutex, m.sh.rwmutex, me)
  {
  }

  lemma PusherLocks(sh: Shared, p: Pusher, me: Holder)
    requires PusherMove(sh, p, me).Move? && (PusherHoldsQueue(p) <==> sh.rwmutex == Some(me))
    ensures var m := PusherMove(sh, p, me);
      (PusherHoldsQueue(m.to) <==> m.sh.rwmutex == Some(me)) && LocksFairly(sh.rwmutex, m.sh.rwmutex, me)
  {
  }

  lemma CountersStep(s: State, t: Step)
    requires Counters(s) && Enabled(s, t)
    ensures Counters(Next(s, t))
  {
    hide Sum, NoneBlocked, WorkerMove, OwnerMove;
    match t
    case WorkerStep(i, wake) =>
      CountersWorker(s.workers, s.sh, i, wake, WorkerMove(s.sh, s.workers[i], ByWorker(i)));
    case PusherStep(p, wake) =>
      PostCounts(s.workers, PusherMove(s.sh, s.pushers[p], ByPusher(p)).posts, wake);
    case OwnerStep(wake) => CountersOwner(s, wake);
    case SpuriousWorker(i) => PostCounts(s.workers, true, i);
    case _ =>
  }

  lemma CountersOwner(s: State, wake: nat)
    requires Counters(s) && Enabled(s, OwnerStep(wake))
    ensures Counters(Next(s, OwnerStep(wake)))
  {
    hide NoneBlocked, Sum, AfterPost, WakeAll;
    AllWokenCounts(s.workers);
    PostCounts(s.workers, OwnerMove(s.sh, s.owner, |s.workers|).posts, wake);
  }

  lemma AllWokenCounts(ws: seq<Worker>)
    ensures Sum(WakeAll(ws), CountedOne) == Sum(ws, CountedOne)
    ensures Sum(WakeAll(ws), LivingOne) == Sum(ws, LivingOne)
  {
    SumSame(ws, WakeAll(ws), CountedOne);
    SumSame(ws, WakeAll(ws), LivingOne);
  }

  lemma CountersWorker(ws: seq<Worker>, sh: Shared, i: nat, wake: nat, m: Move<Worker>)
    requires i < |ws| && m == WorkerMove(sh, ws[i], ByWorker(i)) && m.Move?
    requires m.posts ==> CanWake(ws, wake)
    ensures var vs := AfterPost(ws, m.posts, wake)[i := m.to];
      && Sum(vs, CountedOne) - Sum(ws, CountedOne) == m.sh.working - sh.working
      && Sum(vs, LivingOne) - Sum(ws, LivingOne) == m.sh.alive - sh.alive
  {
    var us := AfterPost(ws, m.posts, wake);
    PostCounts(ws, m.posts, wake);
    SumUpdate(us, CountedOne, i, m.to);
    SumUpdate(us, LivingOne, i, m.to);
    assert us[i] == ws[i];
    MoveCounts(sh, ws[i], ByWorker(i));
  }

  /** A worker's own step changes each counter as it changes the worker's region. */
  lemma MoveCounts(sh: Shared, w: Worker, me: Holder)
    requires WorkerMove(sh, w, me).Move?
    ensures var m := WorkerMove(sh, w, me);
      && m.sh.working - sh.working == One(Counted(m.to)) - One(Counted(w))
      && m.sh.alive - sh.alive == One(Living(m.to)) - One(Living(w))
  {
  }

  lemma PostCounts(ws: seq<Worker>, posts: bool, wake: nat)
    requires posts && wake < |ws| ==> ws[wake].Blocked?
    ensures Sum(AfterPost(ws, posts, wake), CountedOne) == Sum(ws, CountedOne)
    ensures Sum(AfterPost(ws, posts, wake), LivingOne) == Sum(ws, LivingOne)
  {
    if posts && wake < |ws| {
      SumWake(ws, CountedOne, wake);
      SumWake(ws, LivingOne, wake);
    }
  }

  lemma SumWake(ws: seq<Worker>, f: Worker -> nat, wake: nat)
    requires wake < |ws| && f(ws[wake]) == f(Woken)
    ensures Sum(ws[wake := Woken], f) == Sum(ws, f)
  {
    SumUpdate(ws, f, wake, Woken);
  }

  lemma WakerPendingStep(s: State, t: Step)
    requires WakerPending(s) && Enabled(s, t)
    ensures WakerPending(Next(s, t))
  {
    StepMovesOnly(s, t);
    match t
    case WorkerStep(i, wake) =>
      PostWakes(s.workers, WorkerMove(s.sh, s.workers[i], ByWorker(i)).posts, wake);
      WakerPendingWorker(s, i, wake);
    case PusherStep(p, wake) =>
      PostWakes(s.workers, PusherMove(s.sh, s.pushers[p], ByPusher(p)).posts, wake);
    case OwnerStep(wake) =>
      PostWakes(s.workers, OwnerMove(s.sh, s.owner, |s.workers|).posts, wake);
    case SpuriousWorker(i) =>
      assert Next(s, t).workers[i].Woken?;
    case _ =>
  }

  lemma PostWakes(ws: seq<Worker>, posts: bool, wake: nat)
    requires posts ==> CanWake(ws, wake)
    ensures posts ==> NoneBlocked(AfterPost(ws, posts, wake)) || SomeWoken(AfterPost(ws, posts, wake))
  {
    if posts && wake < |ws| {
      assert Wake(ws, wake)[wake].Woken?;
    }
  }

  lemma WakerPendingWorker(s: State, i: nat, wake: nat)
    requires WakerPending(s) && Enabled(s, WorkerStep(i, wake))
    ensures WakerPending(Next(s, WorkerStep(i, wake)))
  {
    var m := WorkerMove(s.sh, s.workers[i], ByWorker(i));
    var us := AfterPost(s.workers, m.posts, wake);
    var vs := us[i := m.to];
    SemMoves(s.sh, s.workers[i], ByWorker(i));
    PostWakes(s.workers, m.posts, wake);
    if m.sh.sem {
      if j :| 0 <= j < |us| && us[j].Woken? {
        assert vs[j].Woken?;
      } else {
        assert NoneBlocked(us);
      }
    }
  }

  /** A worker that leaves the semaphore set did not test it, so it neither
      blocks nor was about to. */
  lemma SemMoves(sh: Shared, w: Worker, me: Holder)
    requires WorkerMove(sh, w, me).Move?
    ensures var m := WorkerMove(sh, w, me); m.sh.sem ==> (m.posts || sh.sem) && !w.Woken? && !m.to.Blocked?
    ensures var m := WorkerMove(sh, w, me); m.posts ==> w.ToPost?
  {
  }

  lemma NotStrandedStep(s: State, t: Step)
    requires NotStranded(s) && Phases(s) && Enabled(s, t)
    ensures NotStranded(Next(s, t))
  {
    hide CanWake;
    var s' := Next(s, t);
    StepMovesOnly(s, t);
    if s'.sh.keepalive && s'.sh.jobs.queue != [] && !s'.sh.sem {
      match t
      case WorkerStep(i, wake) =>
        assert Carries(s'.workers[i]) || forall j | 0 <= j < |s.workers| && Carries(s.workers[j]) :: Carries(s'.workers[j]);
      case PusherStep(p, wake) =>
        assert s'.pushers[p].Linked? || s'.sh.jobs == s.sh.jobs;
        assert forall j | 0 <= j < |s.workers| && Carries(s.workers[j]) :: Carries(s'.workers[j]);
        assert forall q | 0 <= q < |s.pushers| && q != p :: s'.pushers[q] == s.pushers[q];
      case AddWork(p, job) =>
        assert forall q | 0 <= q < |s.pushers| && q != p :: s'.pushers[q] == s.pushers[q];
      case SpuriousWorker(i) =>
        assert forall j | 0 <= j < |s.workers| && Carries(s.workers[j]) :: Carries(s'.workers[j]);
      case _ =>
        assert s'.workers == s.workers && s'.pushers == s.pushers;
    }
  }

  lemma SleepsWithReasonStep(s: State, t: Step)
    requires SleepsWithReason(s) && Counters(s) && Phases(s) && Enabled(s, t)
    ensures SleepsWithReason(Next(s, t))
  {
    hide CanWake, WorkerMove, AfterPost;
    match t
    case WorkerStep(i, wake) =>
      SumSome(s.workers, CountedOne, i);
      SleepsWorker(s.sh, s.workers[i], ByWorker(i));
    case _ =>
  }

  lemma SleepsWorker(sh: Shared, w: Worker, me: Holder)
    requires WorkerMove(sh, w, me).Move? && sh.working >= One(Counted(w))
    requires sh.waiter.ToSleep? || sh.waiter.Asleep? ==> sh.jobs.queue != [] || sh.working > 0
    ensures var to := WorkerMove(sh, w, me).sh;
      to.waiter.ToSleep? || to.waiter.Asleep? ==> to.jobs.queue != [] || to.working > 0
  {
  }

  lemma MarkHoldsStep(s: State, t: Step)
    requires MarkHolds(s.sh) && Fifo(s.sh.jobs) && ExactlyOnce(s.workers, s.sh.jobs) && Counters(s) && Phases(s)
    requires Enabled(s, t)
    ensures MarkHolds(Next(s, t).sh)
  {
    hide ExactlyOnce, Counters, CanWake, WorkerMove, OwnerMove;
    match t
    case WaiterStep =>
      if s.sh.working == 0 && !s.sh.waiter.Away? { NoneWorkingAllDone(s); }
    case WorkerStep(i, wake) => MarkHoldsWorker(s.sh, s.workers[i], ByWorker(i));
    case OwnerStep(wake) => MarkHoldsOwner(s.sh, s.owner, |s.workers|);
    case _ =>
  }

  lemma MarkHoldsOwner(sh: Shared, owner: Owner, threads: nat)
    requires MarkHolds(sh) && (!owner.Serving? ==> sh.waiter.Away?) && OwnerMove(sh, owner, threads).Move?
    ensures MarkHolds(OwnerMove(sh, owner, threads).sh)
  {
  }

  lemma MarkHoldsWorker(sh: Shared, w: Worker, me: Holder)
    requires MarkHolds(sh) && WorkerMove(sh, w, me).Move?
    ensures MarkHolds(WorkerMove(sh, w, me).sh)
  {
  }

  /** With no worker counted as working, every pulled job has completed. */
  lemma NoneWorkingAllDone(s: State)
    requires ExactlyOnce(s.workers, s.sh.jobs) && Counters(s) && s.sh.jobs.discarded == {} && s.sh.working == 0
    ensures forall k: nat | k < |s.sh.jobs.pulled| :: k in s.sh.jobs.completed
  {
    forall k: nat | k < |s.sh.jobs.pulled| ensures k in s.sh.jobs.completed {
      if i :| 0 <= i < |s.workers| && InFlight(s.workers[i], k) {
        SumSome(s.workers, CountedOne, i);
      }
    }
  }

  lemma PhasesStep(s: State, t: Step)
    requires Phases(s) && Counters(s) && Enabled(s, t)
    ensures Phases(Next(s, t))
  {
    hide Counters, CanWake, WorkerMove, OwnerMove, AfterPost;
    StepMovesOnly(s, t);
    match t
    case WorkerStep(i, wake) => PhasesWorker(s.sh, s.workers[i], ByWorker(i));
    case OwnerStep(wake) => PhasesOwner(s, wake);
    case _ =>
  }

  lemma PhasesOwner(s: State, wake: nat)
    requires Phases(s) && Counters(s) && Enabled(s, OwnerStep(wake))
    ensures Phases(Next(s, OwnerStep(wake)))
  {
    hide Counters, CanWake, AfterPost;
    StepMovesOnly(s, OwnerStep(wake));
    match s.owner
    case Starting => AllCounted(s);
    case Polling => if s.sh.alive == 0 { NoneLiving(s); }
    case _ =>
  }

  lemma PhasesWorker(sh: Shared, w: Worker, me: Holder)
    requires WorkerMove(sh, w, me).Move?
    ensures var m := WorkerMove(sh, w, me);
      && !m.to.Spawned? && !w.Gone? && m.sh.keepalive == sh.keepalive && m.sh.jobs.discarded == sh.jobs.discarded
      && (m.to.Leaving? || m.to.Gone? ==> !sh.keepalive || w.Leaving?)
      && (sh.waiter.Away? ==> m.sh.waiter.Away?)
  {
  }

  /** thpool_init waits until every worker has counted itself. */
  lemma AllCounted(s: State)
    requires Counters(s) && s.sh.alive == |s.workers|
    ensures forall i | 0 <= i < |s.workers| :: !s.workers[i].Spawned?
  {
    SumFull(s.workers, LivingOne);
    forall i | 0 <= i < |s.workers| ensures Living(s.workers[i]) {
      assert LivingOne(s.workers[i]) == 1;
    }
  }

  lemma NoneLiving(s: State)
    requires Counters(s) && s.sh.alive == 0
    ensures forall i | 0 <= i < |s.workers| :: !Living(s.workers[i])
  {
    forall i | 0 <= i < |s.workers| ensures !Living(s.workers[i]) {
      SumSome(s.workers, LivingOne, i);
    }
  }

  lemma ExactlyOnceStep(s: State, t: Step)
    requires ExactlyOnce(s.workers, s.sh.jobs) && Phases(s) && Enabled(s, t)
    ensures ExactlyOnce(Next(s, t).workers, Next(s, t).sh.jobs)
  {
    StepMovesOnly(s, t);
    var s' := Next(s, t);
    match t
    case WorkerStep(i, wake) =>
      JobMoves(s.sh, s.workers[i], ByWorker(i));
      ExactlyOnceMove(s.workers, s'.workers, i, s.sh.jobs, s'.sh.jobs);
    case OwnerStep(wake) =>
      if s.owner.Clearing? && s.sh.jobs.queue != [] {
        Discarding(s.workers, s'.workers, s.sh.jobs, s'.sh.jobs);
      } else {
        SameHands(s.workers, s'.workers, -1, s.sh.jobs, s'.sh.jobs);
      }
    case _ =>
      SameHands(s.workers, s'.workers, Mover(t), s.sh.jobs, s'.sh.jobs);
  }

  /** A step of a worker takes up the next job, finishes the one it has, or
      leaves both the worker's hands and the jobs' fate alone. */
  ghost predicate HandsAndJobs(w: Worker, v: Worker, js: Jobs, js': Jobs) {
    && js'.discarded == js.discarded
    && (|| (&& (forall k: nat :: InFlight(v, k) <==> InFlight(w, k))
            && |js'.pulled| == |js.pulled| && js'.completed == js.completed)
        || (&& (forall k: nat :: !InFlight(w, k) && (InFlight(v, k) <==> k == |js.pulled|))
            && |js'.pulled| == |js.pulled| + 1 && js'.completed == js.completed)
        || (&& w.Running? && (forall k: nat :: !InFlight(v, k))
            && |js'.pulled| == |js.pulled| && js'.completed == js.completed + {w.job}))
  }

  lemma JobMoves(sh: Shared, w: Worker, me: Holder)
    requires WorkerMove(sh, w, me).Move?
    ensures HandsAndJobs(w, WorkerMove(sh, w, me).to, sh.jobs, WorkerMove(sh, w, me).sh.jobs)
  {
  }

  lemma ExactlyOnceMove(ws: seq<Worker>, vs: seq<Worker>, i: nat, js: Jobs, js': Jobs)
    requires i < |ws| && MovesOnly(ws, vs, i) && ExactlyOnce(ws, js)
    requires HandsAndJobs(ws[i], vs[i], js, js')
    ensures ExactlyOnce(vs, js')
  {
    forall j, k: nat | 0 <= j < |ws| && InFlight(ws[j], k) ensures k < |js.pulled| {
      assert SomeoneRuns(ws, k);
    }
    OthersKeepTheirs(ws, vs, i);
    forall k: nat
      ensures SomeoneRuns(vs, k) <==> InFlight(vs[i], k) || (SomeoneRuns(ws, k) && !InFlight(ws[i], k))
    {
      if j :| 0 <= j < |ws| && InFlight(ws[j], k) {
        assert j != i ==> InFlight(vs[j], k);
      }
      if j :| 0 <= j < |ws| && InFlight(vs[j], k) {
        assert j != i ==> InFlight(ws[j], k);
      }
    }
  }

  lemma OthersKeepTheirs(ws: seq<Worker>, vs: seq<Worker>, i: int)
    requires MovesOnly(ws, vs, i)
    ensures forall j, k: nat | 0 <= j < |ws| && j != i :: InFlight(vs[j], k) <==> InFlight(ws[j], k)
  {
  }

  lemma SameHands(ws: seq<Worker>, vs: seq<Worker>, i: int, js: Jobs, js': Jobs)
    requires MovesOnly(ws, vs, i) && ExactlyOnce(ws, js)
    requires 0 <= i < |ws| ==> ws[i].Blocked? && vs[i].Woken?
    requires js'.pulled == js.pulled && js'.completed == js.completed && js'.discarded == js.discarded
    ensures ExactlyOnce(vs, js')
  {
    OthersKeepTheirs(ws, vs, i);
    forall k: nat ensures SomeoneRuns(vs, k) <==> SomeoneRuns(ws, k) {
      if j :| 0 <= j < |ws| && InFlight(ws[j], k) { assert InFlight(vs[j], k); }
      if j :| 0 <= j < |ws| && InFlight(vs[j], k) { assert InFlight(ws[j], k); }
    }
  }

  lemma Discarding(ws: seq<Worker>, vs: seq<Worker>, js: Jobs, js': Jobs)
    requires MovesOnly(ws, vs, -1) && ExactlyOnce(ws, js) && js.queue != []
    requires forall i | 0 <= i < |ws| :: ws[i].Gone?
    requires js' == Pull(js).(discarded := js.discarded + {|js.pulled|})
    ensures ExactlyOnce(vs, js')
  {
    forall k: nat ensures !SomeoneRuns(ws, k) && !SomeoneRuns(vs, k) {
    }
  }

  // ---- all together ----

  lemma StepInv(s: State, t: Step)
    requires Inv(s) && Enabled(s, t)
    ensures Inv(Next(s, t))
  {
    ExclusionStep(s, t);
    CountersStep(s, t);
    FifoStep(s, t);
    ExactlyOnceStep(s, t);
    NotStrandedStep(s, t);
    WakerPendingStep(s, t);
    SleepsWithReasonStep(s, t);
    MarkHoldsStep(s, t);
    PhasesStep(s, t);
  }

  /** Every state any schedule reaches, from any number of threads and callers. */
  ghost predicate Reachable(s: State) {
    exists threads: nat, callers: nat, steps: seq<Step> ::
      Allowed(Init(threads, callers), steps) && s == Run(Init(threads, callers), steps)
  }

  lemma {:induction false} RunInv(s: State, steps: seq<Step>)
    requires Inv(s) && Allowed(s, steps)
    ensures Inv(Run(s, steps))
    decreases |steps|
  {
    if steps != [] {
      StepInv(s, steps[0]);
      RunInv(Next(s, steps[0]), steps[1..]);
    }
  }

  lemma ReachableInv(s: State)
    requires Reachable(s)
    ensures Inv(s)
  {
    var threads: nat, callers: nat, steps: seq<Step> :|
      Allowed(Init(threads, callers), steps) && s == Run(Init(threads, callers), steps);
    InitInv(threads, callers);
    RunInv(Init(threads, callers), steps);
  }

  // ---- what the invariant says of every reachable state ----

  /** Both counters are the number of workers in their region of thread_do. */
  lemma CountersCount(s: State)
    requires Reachable(s)
    ensures s.sh.working == |set i: nat | i < |s.workers| && Counted(s.workers[i])|
    ensures s.sh.alive == |set i: nat | i < |s.workers| && Living(s.workers[i])|
  {
    ReachableInv(s);
    CountedIsSize(s.workers);
    LivingIsSize(s.workers);
  }

  lemma CountedIsSize(ws: seq<Worker>)
    ensures Sum(ws, CountedOne) == |set i: nat | i < |ws| && Counted(ws[i])|
  {
    SumCounts(ws, CountedOne);
    assert Where(ws, CountedOne) == set i: nat | i < |ws| && Counted(ws[i]);
  }

  lemma LivingIsSize(ws: seq<Worker>)
    ensures Sum(ws, LivingOne) == |set i: nat | i < |ws| && Living(ws[i])|
  {
    SumCounts(ws, LivingOne);
    assert Where(ws, LivingOne) == set i: nat | i < |ws| && Living(ws[i]);
  }

  /** Jobs are pulled in the order of their pushes, and every pushed job is in
      exactly one place: the queue, one worker's hands, done, or discarded. */
  lemma JobsExactlyOnce(s: State, k: nat)
    requires Reachable(s) && k < |s.sh.jobs.pushed|
    ensures s.sh.jobs.pulled + s.sh.jobs.queue == s.sh.jobs.pushed
    ensures var queued, running := k >= |s.sh.jobs.pulled|, SomeoneRuns(s.workers, k);
      var done, discarded := k in s.sh.jobs.completed, k in s.sh.jobs.discarded;
      One(queued) + One(running) + One(done) + One(discarded) == 1
    ensures forall i, j | 0 <= i < |s.workers| && 0 <= j < |s.workers|
              && InFlight(s.workers[i], k) && InFlight(s.workers[j], k) :: i == j
  {
    ReachableInv(s);
  }

  /** No queued job is ever stranded. While the pool is up, a queued job means
      that the semaphore is set, or a worker has taken it and has yet to pull, or
      a holder of the queue is about to post. And a set semaphore with workers
      blocked on it has woken one that has yet to test it. */
  lemma NoJobStranded(s: State)
    requires Reachable(s) && s.sh.keepalive && s.sh.jobs.queue != []
    ensures s.sh.sem || SomeoneCarries(s)
    ensures s.sh.sem && !NoneBlocked(s.workers) ==> SomeWoken(s.workers)
  {
    ReachableInv(s);
  }

  /** A caller of thpool_wait that sleeps unsignalled has something to wait for. */
  lemma WaiterNotStranded(s: State)
    requires Reachable(s) && s.sh.waiter.Asleep?
    ensures s.sh.jobs.queue != [] || exists i :: 0 <= i < |s.workers| && Counted(s.workers[i])
  {
    ReachableInv(s);
    if forall i | 0 <= i < |s.workers| :: !Counted(s.workers[i]) {
      SumNone(s.workers, CountedOne);
    }
  }

  /** The number of jobs pushed when the call began stays on record until the next call. */
  lemma {:induction false} AskedStays(s: State, steps: seq<Step>)
    requires Allowed(s, steps) && Wait !in steps
    ensures Run(s, steps).sh.asked == s.sh.asked
    decreases |steps|
  {
    if steps != [] {
      AskedStep(s, steps[0]);
      AskedStays(Next(s, steps[0]), steps[1..]);
    }
  }

  lemma AskedStep(s: State, t: Step)
    requires Enabled(s, t) && !t.Wait?
    ensures Next(s, t).sh.asked == s.sh.asked
  {
  }

  /** thpool_wait returns only when every job pushed before it was called has
      finished running, and so has every job pushed before its last read of len. */
  lemma WaitReturnsWhenDone(s: State, steps: seq<Step>)
    requires Reachable(s) && Enabled(s, Wait)
    requires Allowed(Next(s, Wait), steps) && Wait !in steps
    requires Run(Next(s, Wait), steps).sh.waiter.Returning?
    ensures var s' := Run(Next(s, Wait), steps);
      && |s.sh.jobs.pushed| <= s'.sh.waiter.mark <= |s'.sh.jobs.pushed|
      && forall k: nat | k < s'.sh.waiter.mark :: k in s'.sh.jobs.completed
  {
    ReachableInv(s);
    StepInv(s, Wait);
    RunInv(Next(s, Wait), steps);
    AskedStays(Next(s, Wait), steps);
  }

  /** thpool_destroy tears the queue down only after the last access to it: every
      worker is gone, cannot move again, nobody holds or wants the queue, and
      jobs are discarded at no other time. */
  lemma SafeShutdown(s: State, i: nat, wake: nat)
    requires Reachable(s)
    ensures s.owner.Clearing? || s.owner.Freed? ==>
      && s.sh.alive == 0 && s.sh.rwmutex.None? && PushersIdle(s) && s.sh.waiter.Away?
      && (forall j | 0 <= j < |s.workers| :: s.workers[j].Gone?)
      && !Enabled(s, WorkerStep(i, wake))
    ensures s.sh.jobs.discarded != {} ==> s.owner.Clearing? || s.owner.Freed?
  {
    hide Fifo, ExactlyOnce, NotStranded, WakerPending, SleepsWithReason, MarkHolds, CanWake;
    ReachableInv(s);
    if s.owner.Clearing? || s.owner.Freed? {
      SumNone(s.workers, LivingOne);
    }
  }
}
