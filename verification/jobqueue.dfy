/** The linked job queue of thpool.c, refining the queue the pool's steps use:
    each operation changes the list in place as the step changes the sequence. */
module JobQueues {
  import opened Pool
  import PoolInvariant

  class Bsem {
    var v: int

    constructor (value: int)
      ensures v == value
    {
      v := value;
    }

    /** The critical section of bsem_post (lines 527-530); whom the signal wakes
        is a matter for the transition system. */
    method Post()
      modifies this
      ensures v == 1
    {
      v := 1;
    }
  }

  class JobNode {
    var prev: JobNode?
    const job: Job

    constructor (job: Job)
      ensures this.job == job
    {
      this.job := job;
      prev := null;
    }
  }

  class JobQueue {
    var front: JobNode?
    var rear: JobNode?
    var len: int
    const hasJobs: Bsem
    ghost var nodes: seq<JobNode>  // from front to rear
    ghost var jobs: Jobs           // the queue and its history, as the pool sees them

    ghost predicate Valid()
      reads this, nodes
    {
      && len == |nodes| == |jobs.queue|
      && (if nodes == [] then front == null && rear == null
          else front == nodes[0] && rear == nodes[|nodes| - 1] && rear.prev == null)
      && (forall i, j | 0 <= i < j < |nodes| :: nodes[i] != nodes[j])
      && (forall i | 0 <= i < |nodes| - 1 :: nodes[i].prev == nodes[i + 1])
      && (forall i | 0 <= i < |nodes| :: nodes[i].job == jobs.queue[i])
      && PoolInvariant.Fifo(jobs)
    }

    constructor ()
      ensures Valid() && fresh(hasJobs) && hasJobs.v == 0
      ensures jobs == Jobs([], [], [], {}, {})
    {
      len := 0;
      front := null;
      rear := null;
      hasJobs := new Bsem(0);
      nodes := [];
      jobs := Jobs([], [], [], {}, {});
    }

    /** jobqueue_push: the step the pool calls Push, followed by a post. */
    method Push(newjob: JobNode)
      requires Valid() && newjob !in nodes
      modifies this, newjob, rear, hasJobs
      ensures Valid()
      ensures jobs == Pool.Push(old(jobs), newjob.job)
      ensures nodes == old(nodes) + [newjob]
      ensures hasJobs.v == 1
    {
      newjob.prev := null;
      if len == 0 {
        front := newjob;
        rear := newjob;
      } else {
        rear.prev := newjob;
        rear := newjob;
      }
      len := len + 1;
      nodes := nodes + [newjob];
      jobs := Pool.Push(jobs, newjob.job);
      hasJobs.Post();
    }

    /** jobqueue_pull: the step the pool calls Pull on a queue that holds
        something, with a post exactly when jobs are left behind. */
    method Pull() returns (job: JobNode?)
      requires Valid()
      modifies this, hasJobs
      ensures Valid()
      ensures old(jobs.queue) == [] ==> job == null && jobs == old(jobs) && nodes == old(nodes)
      ensures old(jobs.queue) != [] ==>
        && jobs == Pool.Pull(old(jobs))
        && job == old(nodes)[0] && job.job == old(jobs.queue)[0] && nodes == old(nodes)[1..]
      ensures hasJobs.v == if PullPosts(old(jobs.queue)) then 1 else old(hasJobs.v)
    {
      job := front;
      if len == 0 {
      } else if len == 1 {
        front := null;
        rear := null;
        len := 0;
      } else {
        front := job.prev;
        len := len - 1;
        hasJobs.Post();
      }
      if nodes != [] {
        assert jobs.queue == [jobs.queue[0]] + jobs.queue[1..];
        nodes := nodes[1..];
        jobs := Pool.Pull(jobs);
      }
    }

    /** jobqueue_clear: every queued job is pulled, in order, and the semaphore
        ends at zero whatever the pulls posted. */
    method Clear()
      requires Valid()
      modifies this, hasJobs
      ensures Valid()
      ensures jobs.queue == [] && jobs.pulled == old(jobs.pulled + jobs.queue) && jobs.pushed == old(jobs.pushed)
      ensures hasJobs.v == 0
    {
      while len != 0
        invariant Valid()
        invariant jobs.pulled + jobs.queue == old(jobs.pulled + jobs.queue)
        invariant jobs.pushed == old(jobs.pushed)
        decreases len
      {
        var job := Pull();
      }
      front := null;
      rear := null;
      hasJobs.v := 0;
      len := 0;
    }

    /** thpool_add_work: a job that cannot be hasMemory is not queued. */
    method AddWork(job: Job, hasMemory: bool) returns (status: int)
      requires Valid()
      modifies this, rear, hasJobs
      ensures Valid()
      ensures status == if hasMemory then 0 else -1
      ensures jobs == if hasMemory then Pool.Push(old(jobs), job) else old(jobs)
      ensures hasJobs.v == if hasMemory then 1 else old(hasJobs.v)
    {
      if !hasMemory {
        return -1;
      }
      var newjob := new JobNode(job);
      Push(newjob);
      return 0;
    }
  }
}
