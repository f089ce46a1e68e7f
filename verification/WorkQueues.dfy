/** workers_pool.c: jobs are handed out in turn; each worker runs its own queue in order. */
module WorkQueues {
  import opened Rings

  datatype Pool<W> = Pool(current: nat, queues: seq<seq<W>>) {
    ghost predicate Shape() {
      current < |queues|
    }
  }

  /** `add_work`. */
  function AddWork<W>(p: Pool<W>, w: W): (r: Pool<W>)
    requires p.Shape()
    ensures r.Shape()
  {
    Pool((p.current + 1) % |p.queues|, p.queues[p.current := p.queues[p.current] + [w]])
  }

  /** Worker `i` takes the next job of its queue. */
  function TakeWork<W>(p: Pool<W>, i: nat): (r: Pool<W>)
    requires p.Shape() && i < |p.queues| && p.queues[i] != []
    ensures r.Shape()
  {
    p.(queues := p.queues[i := p.queues[i][1..]])
  }

  function Pending<W>(queues: seq<seq<W>>): nat {
    if queues == [] then 0 else |queues[0]| + Pending(queues[1..])
  }

  lemma {:induction false} PendingUpdate<W>(queues: seq<seq<W>>, i: nat, q: seq<W>)
    requires i < |queues|
    ensures Pending(queues[i := q]) == Pending(queues) - |queues[i]| + |q|
  {
    if i == 0 {
      assert queues[i := q][1..] == queues[1..];
    } else {
      PendingUpdate(queues[1..], i - 1, q);
      assert queues[i := q][1..] == queues[1..][i - 1 := q];
    }
  }

  // ---------- round robin ----------

  /** The jobs among `jobs` that fall to worker `i` of `n`, in order. */
  function Share<W>(jobs: seq<W>, n: nat, i: nat): seq<W>
    requires n > 0
  {
    if jobs == [] then [] else
    var k := |jobs| - 1;
    Share(jobs[..k], n, i) + if k % n == i then [jobs[k]] else []
  }

  /** What the workers did and what still waits for them is each worker's share of all jobs. */
  ghost predicate RoundRobin<W>(p: Pool<W>, jobs: seq<W>, ran: seq<seq<W>>) {
    && p.Shape()
    && |ran| == |p.queues|
    && p.current == |jobs| % |p.queues|
    && forall i :: 0 <= i < |ran| ==> ran[i] + p.queues[i] == Share(jobs, |ran|, i)
  }

  lemma {:induction false} ShareIsOfJobs<W>(jobs: seq<W>, n: nat, i: nat, k: nat)
    requires n > 0 && k < |Share(jobs, n, i)|
    ensures Share(jobs, n, i)[k] in jobs
  {
    var front := jobs[..|jobs| - 1];
    if k < |Share(front, n, i)| {
      ShareIsOfJobs(front, n, i, k);
    }
  }

  lemma AddWorkIsFair<W>(p: Pool<W>, jobs: seq<W>, ran: seq<seq<W>>, w: W)
    requires RoundRobin(p, jobs, ran)
    ensures RoundRobin(AddWork(p, w), jobs + [w], ran)
  {
    var n, p', jobs' := |ran|, AddWork(p, w), jobs + [w];
    ModSucc(|jobs|, n);
    assert jobs'[..|jobs|] == jobs;
    forall i | 0 <= i < n
      ensures ran[i] + p'.queues[i] == Share(jobs', n, i)
    {
      assert ran[i] + p.queues[i] == Share(jobs, n, i);
      assert ran[i] + (p.queues[i] + [w]) == (ran[i] + p.queues[i]) + [w];
    }
  }

  lemma TakeWorkIsFair<W>(p: Pool<W>, jobs: seq<W>, ran: seq<seq<W>>, i: nat)
    requires RoundRobin(p, jobs, ran) && i < |ran| && p.queues[i] != []
    ensures RoundRobin(TakeWork(p, i), jobs, ran[i := ran[i] + [p.queues[i][0]]])
  {
    assert ran[i] + p.queues[i] == (ran[i] + [p.queues[i][0]]) + p.queues[i][1..];
  }

  lemma {:induction false} ShareLength<W>(jobs: seq<W>, n: nat, i: nat)
    requires i < n
    ensures |Share(jobs, n, i)| == (|jobs| - i + n - 1) / n
  {
    if jobs == [] {
      DivIs(|jobs| - i + n - 1, n, 0, n - 1 - i);
    } else {
      ShareLength(jobs[..|jobs| - 1], n, i);
      ShareStep(|jobs| - 1, n, i);
    }
  }

  lemma ShareStep(k: nat, n: nat, i: nat)
    requires i < n
    ensures (k + 1 - i + n - 1) / n == (k - i + n - 1) / n + if k % n == i then 1 else 0
  {
    var q, r := k / n, k % n;
    if r < i {
      DivAt(k - i + n - 1, k - r, n, q);
      DivAt(k - i + n, k - r, n, q);
    } else if r == i {
      DivAt(k - i + n - 1, k - r, n, q);
      NextLap(k - r, n, q);
      DivAt(k - i + n, k - r + n, n, q + 1);
    } else {
      NextLap(k - r, n, q);
      DivAt(k - i + n - 1, k - r + n, n, q + 1);
      DivAt(k - i + n, k - r + n, n, q + 1);
    }
  }

  lemma NextLap(m: int, n: nat, q: int)
    requires m == n * q
    ensures m + n == n * (q + 1)
  {
  }

  lemma DivAt(x: int, m: int, n: nat, q: int)
    requires n > 0 && m == n * q && m <= x < m + n
    ensures x / n == q
  {
    DivIs(x, n, q, x - m);
  }

  lemma DivIs(x: int, n: nat, q: int, r: int)
    requires n > 0 && x == n * q + r && 0 <= r < n
    ensures x / n == q
  {
    MulBounds(n, q - x / n);
    assert n * (q - x / n) == x % n - r;
  }

  /** Job `j` went to worker `j % n` as its job number `j / n`: the queues, interleaved,
      are the submission sequence. */
  lemma {:induction false} JobIsInItsShare<W>(jobs: seq<W>, n: nat, j: nat)
    requires n > 0 && j < |jobs|
    ensures var s := Share(jobs, n, j % n);
            j / n < |s| && s[j / n] == jobs[j]
  {
    var k := |jobs| - 1;
    if j < k {
      JobIsInItsShare(jobs[..k], n, j);
    } else {
      ShareLength(jobs[..k], n, k % n);
      Turn(k, n);
    }
  }

  lemma Turn(k: nat, n: nat)
    requires n > 0
    ensures (k - k % n + n - 1) / n == k / n
  {
    DivIs(k - k % n + n - 1, n, k / n, n - 1);
  }

  /** No two workers' loads differ by more than one, and the earlier worker has the larger. */
  lemma SharesAreEven<W>(jobs: seq<W>, n: nat, i: nat, i': nat)
    requires i < i' < n
    ensures |Share(jobs, n, i')| <= |Share(jobs, n, i)| <= |Share(jobs, n, i')| + 1
  {
    ShareLength(jobs, n, i);
    ShareLength(jobs, n, i');
    DivClose(|jobs| - i' + n - 1, |jobs| - i + n - 1, n);
  }

  lemma DivClose(x: int, y: int, n: nat)
    requires x <= y < x + n
    ensures x / n <= y / n <= x / n + 1
  {
    var q, r := x / n, x % n + (y - x);
    if r < n {
      DivIs(y, n, q, r);
    } else {
      DivIs(y, n, q + 1, r - n);
    }
  }
}
