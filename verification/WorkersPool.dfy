/** workers_pool.c, in place: `num_workers` queues and the index of the next one to be given a job. */
module WorkersPool {
  import opened WorkQueues

  class WorkersPool<W> {
    var worker: array<seq<W>>
    var currentWorker: nat

    ghost function View(): Pool<W>
      reads this, worker
    {
      Pool(currentWorker, worker[..])
    }

    ghost predicate Valid()
      reads this, worker
    {
      View().Shape()
    }

    /** `create_pool` and `init_workers`, when every allocation succeeds. */
    constructor CreatePool(numWorkers: nat)
      requires numWorkers > 0
      ensures Valid() && fresh(worker)
      ensures RoundRobin(View(), [], seq(numWorkers, _ => []))
    {
      worker := new seq<W>[numWorkers];
      currentWorker := 0;
      new;
      for i := 0 to numWorkers
        invariant fresh(worker) && worker.Length == numWorkers && currentWorker == 0
        invariant forall k :: 0 <= k < i ==> worker[k] == []
      {
        worker[i] := [];
      }
    }

    /** What a worker thread does with its queue: it runs the oldest job and drops it. */
    method NextWork(i: nat) returns (w: W)
      requires Valid() && i < worker.Length && worker[i] != []
      modifies worker
      ensures Valid() && View() == TakeWork(old(View()), i)
      ensures w == old(worker[i][0])
    {
      w := worker[i][0];
      worker[i] := worker[i][1..];
    }
  }

  /** A pool that could not be created is reported and the job is lost. */
  method AddWork<W>(pool: WorkersPool?<W>, w: W)
    requires pool != null ==> pool.Valid()
    modifies pool, if pool != null then {pool.worker} else {}
    ensures pool != null ==>
              pool.Valid() && pool.worker == old(pool.worker) && pool.View() == WorkQueues.AddWork(old(pool.View()), w)
  {
    if pool != null {
      pool.worker[pool.currentWorker] := pool.worker[pool.currentWorker] + [w];
      pool.currentWorker := (pool.currentWorker + 1) % pool.worker.Length;
    }
  }
}
