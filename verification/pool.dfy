/** The thread pool of thpool.c as a transition system. One step is one critical
    section or one access to a variable that another thread may read at the same
    time; line numbers refer to thpool.c. */
module Pool {

  datatype Option<+T> = None | Some(value: T)

  datatype Job = Job(code: nat, arg: int)

  /** Where a worker stands in thread_do (lines 345-381) and in what it calls.
      A job in the hands of a worker is named by its position in the order of pulls. */
  datatype Worker =
    | Spawned                          // 345: not yet counted as alive
    | Head                             // 349: about to test threads_keepalive
    | AtWait                           // 545: about to enter bsem_wait
    | Blocked                          // 547: waiting on the semaphore's condition
    | Woken                            // 547: signalled, about to test the semaphore again
    | Got                              // 353: took the semaphore
    | CountUp                          // 355: about to count itself as working
    | ToLock                           // 467: about to lock the queue
    | Locked                           // 468: holds the queue, about to unlink
    | ToPost(job: nat)                 // 485: holds the queue, more jobs remain
    | ToUnlock(found: Option<nat>)     // 489: holds the queue, done with it
    | Running(job: nat)                // 366
    | CountDown                        // 370
    | Leaving                          // 379
    | Gone

  /** A caller of thpool_add_work, in jobqueue_push (lines 434-455). */
  datatype Pusher =
    | Idle
    | Wants(job: Job)                  // 436: about to lock the queue
    | Holds(job: Job)                  // 437: holds the queue, about to link
    | Linked                           // 453: holds the queue, about to post
    | Posted                           // 454: holds the queue, about to unlock

  /** The caller of thpool_wait (lines 197-203). */
  datatype Waiter =
    | Away
    | Entering                         // 198
    | ReadLen                          // 199: holds thcount_lock, reads len
    | ReadWorking(mark: nat)           // 199: len was 0 when `mark` jobs had been pushed
    | ToSleep                          // 200: holds thcount_lock, about to wait
    | Asleep                           // 200: waiting, not signalled
    | Signalled                        // 200: signalled, about to retake thcount_lock
    | Returning(mark: nat)             // 202

  /** The thread that calls thpool_init and thpool_destroy. */
  datatype Owner =
    | Starting                         // 169
    | Serving
    | Stopping                         // 214
    | Polling                          // 221 and 228
    | PostingAll                       // 222 and 229
    | Clearing                         // 420
    | Freed                            // 497

  datatype Holder = ByWorker(i: nat) | ByPusher(p: nat)

  /** The job queue, and where every job ever pushed has gone. */
  datatype Jobs = Jobs(
    queue: seq<Job>,
    pushed: seq<Job>,
    pulled: seq<Job>,
    completed: set<nat>,
    discarded: set<nat>)

  /** The variables the threads share. `asked` is how many jobs had been pushed
      when thpool_wait was called. */
  datatype Shared = Shared(
    keepalive: bool,
    sem: bool,
    rwmutex: Option<Holder>,
    working: int,
    alive: int,
    waiter: Waiter,
    asked: nat,
    jobs: Jobs)

  datatype State = State(
    sh: Shared,
    workers: seq<Worker>,
    pushers: seq<Pusher>,
    owner: Owner)

  function Init(threads: nat, callers: nat): State {
    State(Shared(true, false, None, 0, 0, Away, 0, Jobs([], [], [], {}, {})),
          seq(threads, _ => Spawned), seq(callers, _ => Idle), Starting)
  }

  // ---- the job queue, as the steps see it ----

  function Push(js: Jobs, job: Job): Jobs {
    js.(queue := js.queue + [job], pushed := js.pushed + [job])
  }

  function Pull(js: Jobs): Jobs
    requires js.queue != []
  {
    js.(queue := js.queue[1..], pulled := js.pulled + [js.queue[0]])
  }

  /** jobqueue_pull posts again exactly when it leaves jobs behind (line 485). */
  predicate PullPosts(queue: seq<Job>) { |queue| > 1 }

  /** thcount_lock is held across steps by the caller of thpool_wait only. */
  predicate CountLockFree(w: Waiter) {
    !w.ReadLen? && !w.ReadWorking? && !w.ToSleep? && !w.Returning?
  }

  /** pthread_cond_signal on threads_all_idle. */
  function SignalWaiter(w: Waiter): Waiter {
    if w.Asleep? then Signalled else w
  }

  // ---- one thread's step: what it does to the shared variables and to itself ----

  /** `posts` says that the step is a bsem_post. */
  datatype Move<T> = Stuck | Move(sh: Shared, to: T, posts: bool)

  function WorkerMove(sh: Shared, w: Worker, me: Holder): Move<Worker> {
    match w
    case Spawned =>
      if CountLockFree(sh.waiter) then Move(sh.(alive := sh.alive + 1), Head, false) else Stuck
    case Head => Move(sh, if sh.keepalive then AtWait else Leaving, false)
    case AtWait => TakeOrBlock(sh)
    case Woken => TakeOrBlock(sh)
    case Blocked => Stuck
    case Got => Move(sh, if sh.keepalive then CountUp else Head, false)
    case CountUp =>
      if CountLockFree(sh.waiter) then Move(sh.(working := sh.working + 1), ToLock, false) else Stuck
    case ToLock =>
      if sh.rwmutex.None? then Move(sh.(rwmutex := Some(me)), Locked, false) else Stuck
    case Locked =>
      if sh.jobs.queue == [] then Move(sh, ToUnlock(None), false)
      else
        var k := |sh.jobs.pulled|;
        Move(sh.(jobs := Pull(sh.jobs)),
             if PullPosts(sh.jobs.queue) then ToPost(k) else ToUnlock(Some(k)), false)
    case ToPost(k) => Move(sh.(sem := true), ToUnlock(Some(k)), true)
    case ToUnlock(found) =>
      Move(sh.(rwmutex := None), if found.Some? then Running(found.value) else CountDown, false)
    case Running(k) =>
      Move(sh.(jobs := sh.jobs.(completed := sh.jobs.completed + {k})), CountDown, false)
    case CountDown =>
      if CountLockFree(sh.waiter)
      then Move(sh.(working := sh.working - 1,
                    waiter := if sh.working == 1 then SignalWaiter(sh.waiter) else sh.waiter), Head, false)
      else Stuck
    case Leaving =>
      if CountLockFree(sh.waiter) then Move(sh.(alive := sh.alive - 1), Gone, false) else Stuck
    case Gone => Stuck
  }

  /** One turn of the loop in bsem_wait (lines 546-549). */
  function TakeOrBlock(sh: Shared): Move<Worker> {
    if sh.sem then Move(sh.(sem := false), Got, false) else Move(sh, Blocked, false)
  }

  function PusherMove(sh: Shared, p: Pusher, me: Holder): Move<Pusher> {
    match p
    case Idle => Stuck
    case Wants(job) =>
      if sh.rwmutex.None? then Move(sh.(rwmutex := Some(me)), Holds(job), false) else Stuck
    case Holds(job) => Move(sh.(jobs := Push(sh.jobs, job)), Linked, false)
    case Linked => Move(sh.(sem := true), Posted, true)
    case Posted => Move(sh.(rwmutex := None), Idle, false)
  }

  function WaiterMove(sh: Shared): Move<Waiter> {
    match sh.waiter
    case Away => Stuck
    case Entering => Move(sh, ReadLen, false)
    case Signalled => Move(sh, ReadLen, false)
    case ReadLen => Move(sh, if sh.jobs.queue != [] then ToSleep else ReadWorking(|sh.jobs.pushed|), false)
    case ReadWorking(m) => Move(sh, if sh.working != 0 then ToSleep else Returning(m), false)
    case ToSleep => Move(sh, Asleep, false)
    case Asleep => Stuck
    case Returning(_) => Move(sh, Away, false)
  }

  /** Line 420 to 427: discard what is queued, then reset the semaphore. */
  function ClearMove(sh: Shared): Move<Owner> {
    if sh.jobs.queue == [] then Move(sh.(sem := false), Freed, false)
    else if sh.rwmutex.Some? then Stuck
    else
      var posts := PullPosts(sh.jobs.queue);
      var discarded := sh.jobs.discarded + {|sh.jobs.pulled|};
      Move(sh.(jobs := Pull(sh.jobs).(discarded := discarded), sem := sh.sem || posts), Clearing, posts)
  }

  function OwnerMove(sh: Shared, owner: Owner, threads: nat): Move<Owner> {
    match owner
    case Starting => if sh.alive == threads then Move(sh, Serving, false) else Stuck
    case Serving => Stuck
    case Stopping => Move(sh.(keepalive := false), Polling, false)
    case Polling => Move(sh, if sh.alive != 0 then PostingAll else Clearing, false)
    case PostingAll => Move(sh.(sem := true), Polling, false)
    case Clearing => ClearMove(sh)
    case Freed => Stuck
  }

  // ---- signals ----

  ghost predicate NoneBlocked(workers: seq<Worker>) {
    forall j | 0 <= j < |workers| :: !workers[j].Blocked?
  }

  /** Whom pthread_cond_signal may wake: a blocked worker, or nobody if there is none. */
  ghost predicate CanWake(workers: seq<Worker>, wake: nat) {
    if wake < |workers| then workers[wake].Blocked? else NoneBlocked(workers)
  }

  function Wake(workers: seq<Worker>, wake: nat): (woken: seq<Worker>)
    ensures |woken| == |workers|
  {
    if wake < |workers| then workers[wake := Woken] else workers
  }

  function WakeAll(workers: seq<Worker>): seq<Worker> {
    seq(|workers|, j requires 0 <= j < |workers| => if workers[j].Blocked? then Woken else workers[j])
  }

  // ---- steps of the whole system ----

  datatype Step =
    | WorkerStep(i: nat, wake: nat)
    | PusherStep(p: nat, wake: nat)
    | WaiterStep
    | OwnerStep(wake: nat)
    | AddWork(p: nat, job: Job)        // a call to thpool_add_work
    | Wait                             // a call to thpool_wait
    | Destroy                          // a call to thpool_destroy
    | SpuriousWorker(i: nat)           // a wake-up nobody signalled
    | SpuriousWaiter

  ghost predicate PushersIdle(s: State) {
    forall p | 0 <= p < |s.pushers| :: s.pushers[p].Idle?
  }

  /** When a step can be taken. Callers use the pool between thpool_init and
      thpool_destroy, one of them waits at a time, and thpool_destroy is called
      when no other call is pending. */
  ghost predicate Enabled(s: State, t: Step) {
    match t
    case WorkerStep(i, wake) =>
      i < |s.workers| &&
      var m := WorkerMove(s.sh, s.workers[i], ByWorker(i));
      m.Move? && (m.posts ==> CanWake(s.workers, wake))
    case PusherStep(p, wake) =>
      p < |s.pushers| &&
      var m := PusherMove(s.sh, s.pushers[p], ByPusher(p));
      m.Move? && (m.posts ==> CanWake(s.workers, wake))
    case WaiterStep => WaiterMove(s.sh).Move?
    case OwnerStep(wake) =>
      var m := OwnerMove(s.sh, s.owner, |s.workers|);
      m.Move? && (m.posts ==> CanWake(s.workers, wake))
    case AddWork(p, job) => s.owner.Serving? && p < |s.pushers| && s.pushers[p].Idle?
    case Wait => s.owner.Serving? && s.sh.waiter.Away?
    case Destroy => s.owner.Serving? && s.sh.waiter.Away? && PushersIdle(s)
    case SpuriousWorker(i) => i < |s.workers| && s.workers[i].Blocked?
    case SpuriousWaiter => s.sh.waiter.Asleep?
  }

  function AfterPost(workers: seq<Worker>, posts: bool, wake: nat): (woken: seq<Worker>)
    ensures |woken| == |workers|
  {
    if posts then Wake(workers, wake) else workers
  }

  ghost function Next(s: State, t: Step): State
    requires Enabled(s, t)
  {
    match t
    case WorkerStep(i, wake) =>
      var m := WorkerMove(s.sh, s.workers[i], ByWorker(i));
      s.(sh := m.sh, workers := AfterPost(s.workers, m.posts, wake)[i := m.to])
    case PusherStep(p, wake) =>
      var m := PusherMove(s.sh, s.pushers[p], ByPusher(p));
      s.(sh := m.sh, workers := AfterPost(s.workers, m.posts, wake), pushers := s.pushers[p := m.to])
    case WaiterStep =>
      var m := WaiterMove(s.sh);
      s.(sh := m.sh.(waiter := m.to))
    case OwnerStep(wake) =>
      var m := OwnerMove(s.sh, s.owner, |s.workers|);
      s.(sh := m.sh, owner := m.to,
         workers := if s.owner.PostingAll? then WakeAll(s.workers) else AfterPost(s.workers, m.posts, wake))
    case AddWork(p, job) => s.(pushers := s.pushers[p := Wants(job)])
    case Wait => s.(sh := s.sh.(waiter := Entering, asked := |s.sh.jobs.pushed|))
    case Destroy => s.(owner := Stopping)
    case SpuriousWorker(i) => s.(workers := s.workers[i := Woken])
    case SpuriousWaiter => s.(sh := s.sh.(waiter := Signalled))
  }

  /** A schedule every step of which can be taken, and where it leads. */
  ghost predicate Allowed(s: State, steps: seq<Step>)
    decreases |steps|
  {
    steps == [] || (Enabled(s, steps[0]) && Allowed(Next(s, steps[0]), steps[1..]))
  }

  ghost function Run(s: State, steps: seq<Step>): State
    requires Allowed(s, steps)
    decreases |steps|
  {
    if steps == [] then s else Run(Next(s, steps[0]), steps[1..])
  }
}
