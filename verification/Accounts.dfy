/** What the counters and the pool of a run hold, read off its events. */
module Accounts {
  import opened Bytes
  import opened Codec
  import opened Rings
  import opened WorkQueues
  import opened Store
  import opened System
  import opened Invariants
  import opened SlotTheorems
  import W = WritePersistence
  import R = ReadPersistence

  function One(b: bool): nat {
    if b then 1 else 0
  }

  /** Event `e` is a lookup that is accepted and gets a job. */
  predicate Submits(s: State, e: Event) {
    e.ClientLookup? && s.rdev.used < |s.rdev.msgs| && e.gotJob
  }

  /** Event `e` lets a worker count its message: the callback of its job is not done, and shows a
      response with the job's `iid` and a value. */
  predicate Hits(s: State, e: Event) {
    && e.WorkerStep?
    && e.worker < |s.pool.queues|
    && s.pool.queues[e.worker] != []
    && var job := s.pool.queues[e.worker][0];
    && job.slot < |s.rdev.cbs|
    && var cb := s.rdev.cbs[job.slot];
    && !cb.isDone && cb.response.header.iid == job.iid && cb.response.header.len > 0
  }

  // ---------- the counters ----------

  /** When the test device was last opened, or 0. */
  function LastOpen(es: seq<Event>, n: nat): (t: nat)
    requires n <= |es|
    ensures t <= n
  {
    if n == 0 || es[n - 1].TestOpen? then n else LastOpen(es, n - 1)
  }

  /** The lookups since then that were accepted and got a job. */
  ghost function ReceivedSince(cs: seq<Config>, es: seq<Event>, n: nat): nat
    requires n <= |es| < |cs|
  {
    if n == 0 || es[n - 1].TestOpen? then 0 else
    ReceivedSince(cs, es, n - 1) + One(Submits(cs[n - 1].s, es[n - 1]))
  }

  /** The jobs run since then that counted their message. */
  ghost function FoundSince(cs: seq<Config>, es: seq<Event>, n: nat): nat
    requires n <= |es| < |cs|
  {
    if n == 0 || es[n - 1].TestOpen? then 0 else
    FoundSince(cs, es, n - 1) + One(Hits(cs[n - 1].s, es[n - 1]))
  }

  /** The jobs run since then that did not. */
  ghost function MissedSince(cs: seq<Config>, es: seq<Event>, n: nat): nat
    requires n <= |es| < |cs|
  {
    if n == 0 || es[n - 1].TestOpen? then 0 else
    MissedSince(cs, es, n - 1) + One(es[n - 1].WorkerStep? && !Hits(cs[n - 1].s, es[n - 1]))
  }

  lemma CounterStep(s: State, e: Event)
    requires Enabled(s, e) && Safe(s, e)
    ensures Next(s, e).received == (if e.TestOpen? then 0 else s.received + One(Submits(s, e)))
    ensures Next(s, e).found == (if e.TestOpen? then 0 else s.found + One(Hits(s, e)))
  {
    hide HeadFrame, Answer, Frame, AfterPut, Decode, R.Reply, W.SlotOf, R.SlotOf, W.Truncated, GetI32;
  }

  lemma PendingStep(s: State, e: Event)
    requires Enabled(s, e) && Safe(s, e)
    ensures Pending(Next(s, e).pool.queues) == Pending(s.pool.queues) + One(Submits(s, e)) - One(e.WorkerStep?)
  {
    hide HeadFrame, Answer, Frame, AfterPut, Decode, R.Reply, W.SlotOf, R.SlotOf, W.Truncated, GetI32, Pending;
    var p := s.pool;
    if Submits(s, e) {
      PendingUpdate(p.queues, p.current, p.queues[p.current] + [NewWork(s, e.msg)]);
    } else if e.WorkerStep? {
      PendingUpdate(p.queues, e.worker, p.queues[e.worker][1..]);
    }
  }

  /** In every state the two counters are the numbers of these events since the last open. */
  lemma {:induction false} CountersAreEvents(cs: seq<Config>, es: seq<Event>, n: nat)
    requires IsRun(cs, es) && n <= |es|
    ensures cs[n].s.received == ReceivedSince(cs, es, n) && cs[n].s.found == FoundSince(cs, es, n)
  {
    assert |cs| == |es| + 1;
    hide Next, Record, Safe, Enabled, Submits, Hits;
    if n > 0 {
      CountersAreEvents(cs, es, n - 1);
      StepAlong(cs, es, n - 1);
      CounterStep(cs[n - 1].s, es[n - 1]);
    }
  }

  lemma {:induction false} JobsAddUp(cs: seq<Config>, es: seq<Event>, n: nat)
    requires IsRun(cs, es) && n <= |es|
    ensures FoundSince(cs, es, n) + MissedSince(cs, es, n) + Pending(cs[n].s.pool.queues)
            == ReceivedSince(cs, es, n) + Pending(cs[LastOpen(es, n)].s.pool.queues)
  {
    assert |cs| == |es| + 1;
    if n > 0 {
      JobsAddUp(cs, es, n - 1);
      StepAlong(cs, es, n - 1);
      HitsAreSteps(cs[n - 1].s, es[n - 1]);
      hide IsRun, Next, Record, Safe, Enabled, Submits, Hits;
      PendingStep(cs[n - 1].s, es[n - 1]);
    }
  }

  lemma HitsAreSteps(s: State, e: Event)
    ensures Hits(s, e) ==> e.WorkerStep?
    ensures Submits(s, e) ==> e.ClientLookup?
  {
  }

  /** Found, missed and pending jobs are the received ones and those pending at the last open; so
      a session opened with none pending never reports more found than received. */
  lemma CountersAddUp(cs: seq<Config>, es: seq<Event>, n: nat)
    requires IsRun(cs, es) && n <= |es|
    ensures var s, atOpen := cs[n].s, Pending(cs[LastOpen(es, n)].s.pool.queues);
            && s.found + MissedSince(cs, es, n) + Pending(s.pool.queues) == s.received + atOpen
            && (atOpen == 0 ==> s.found + Pending(s.pool.queues) <= s.received)
  {
    CountersAreEvents(cs, es, n);
    JobsAddUp(cs, es, n);
  }

  // ---------- what becomes of the lookups ----------

  /** The lookups offered by the first `n` events. */
  function Offered(es: seq<Event>, n: nat): nat
    requires n <= |es|
  {
    if n == 0 then 0 else Offered(es, n - 1) + One(es[n - 1].ClientLookup?)
  }

  /** Those of them that met a full ring. */
  ghost function Dropped(cs: seq<Config>, es: seq<Event>, n: nat): nat
    requires n <= |es| < |cs|
  {
    if n == 0 then 0 else
    Dropped(cs, es, n - 1) + One(es[n - 1].ClientLookup? && cs[n - 1].s.rdev.used == |cs[n - 1].s.rdev.msgs|)
  }

  /** The replies that got past their id and header. */
  function Answered(es: seq<Event>, n: nat): nat
    requires n <= |es|
  {
    if n == 0 then 0 else
    Answered(es, n - 1) + One(es[n - 1].ReaderReply? && es[n - 1].copies.id && es[n - 1].copies.header)
  }

  /** The lookups that were in the ring when the read device was closed. */
  ghost function Discarded(cs: seq<Config>, es: seq<Event>, n: nat): int
    requires n <= |es| < |cs|
  {
    if n == 0 then 0 else
    Discarded(cs, es, n - 1) + if es[n - 1].ClosesRead() then cs[n - 1].s.rdev.used else 0
  }

  lemma UsedStep(s: State, e: Event)
    requires Enabled(s, e) && Safe(s, e) && s.rdev.working && s.rdev.used <= |s.rdev.msgs|
    ensures Next(s, e).rdev.used ==
            if e.ClosesRead() then 0
            else s.rdev.used
                 + One(e.ClientLookup? && s.rdev.used != |s.rdev.msgs|)
                 - One(e.ReaderReply? && e.copies.id && e.copies.header)
  {
    hide HeadFrame, Answer, Frame, AfterPut, Decode, W.SlotOf, R.SlotOf, W.Truncated, GetI32;
  }

  lemma UsedAlong(cs: seq<Config>, es: seq<Event>, n: nat)
    requires IsRun(cs, es) && n <= |es|
    ensures cs[n].s.rdev.working && 0 <= cs[n].s.rdev.used <= |cs[n].s.rdev.msgs|
  {
    ReadAlong(cs, es, n);
  }

  /** Every lookup offered was dropped, answered, discarded by a close, or is in the ring. */
  lemma {:induction false} LookupsAreConserved(cs: seq<Config>, es: seq<Event>, n: nat)
    requires IsRun(cs, es) && n <= |es|
    ensures Offered(es, n) == Dropped(cs, es, n) + Answered(es, n) + Discarded(cs, es, n) + cs[n].s.rdev.used
  {
    assert |cs| == |es| + 1;
    if n > 0 {
      LookupsAreConserved(cs, es, n - 1);
      UsedAlong(cs, es, n - 1);
      StepAlong(cs, es, n - 1);
      hide IsRun, Next, Record, Safe, Enabled;
      UsedStep(cs[n - 1].s, es[n - 1]);
    }
  }

  /** A lookup leaves the state alone if and only if as many are unanswered as the ring has slots. */
  lemma DropsOnlyWhenFull(cs: seq<Config>, es: seq<Event>, n: nat)
    requires IsRun(cs, es) && n < |es| && es[n].ClientLookup?
    ensures cs[n + 1].s == cs[n].s <==> |cs[n].h.asks| - |cs[n].h.answers| == |cs[n].s.rdev.msgs|
  {
    ReadAlong(cs, es, n);
    StepAlong(cs, es, n);
    UsedStep(cs[n].s, es[n]);
    hide R.SlotOf;
  }

  // ---------- the pool ----------

  /** The jobs submitted by the first `n` events: slot and `iid` of each accepted lookup. */
  ghost function JobsSubmitted(cs: seq<Config>, es: seq<Event>, n: nat): seq<Work>
    requires n <= |es| < |cs|
  {
    if n == 0 then [] else
    JobsSubmitted(cs, es, n - 1)
    + match es[n - 1]
      case ClientLookup(msg, _) =>
        if Submits(cs[n - 1].s, es[n - 1]) && |msg| >= HEADER then [Work(cs[n - 1].s.rdev.current, GetU32(msg, 4))] else []
      case _ => []
  }

  /** The jobs worker `w` has run by then. */
  ghost function JobsRun(cs: seq<Config>, es: seq<Event>, n: nat, w: nat): seq<Work>
    requires n <= |es| < |cs|
  {
    if n == 0 then [] else
    JobsRun(cs, es, n - 1, w)
    + var queues := cs[n - 1].s.pool.queues;
      if es[n - 1] == WorkerStep(w) && w < |queues| && queues[w] != [] then [queues[w][0]] else []
  }

  lemma JobStep(s: State, h: History, e: Event, now: nat, w: nat)
    requires Enabled(s, e) && Safe(s, e) && (e.WorkerStep? ==> e.worker < |h.ran|) && w < |h.ran|
    ensures Submits(s, e) ==> HEADER <= |e.msg|
    ensures var h' := Record(s, h, e, now);
            && h'.jobs == h.jobs + (if Submits(s, e) then [Work(s.rdev.current, GetU32(e.msg, 4))] else [])
            && |h'.ran| == |h.ran|
            && h'.ran[w] == h.ran[w] + if e == WorkerStep(w) then [s.pool.queues[w][0]] else []
  {
    if e.ClientLookup? {
      StoredLookupKeeps(e.msg, s.rdev.msgs[s.rdev.current]);
    }
    hide Next, IsFound, Decode, R.SlotOf, GetU32, GetI32;
  }

  lemma WorkersStay(cs: seq<Config>, es: seq<Event>, n: nat)
    requires IsRun(cs, es) && n <= |es|
    ensures |cs[n].h.ran| == |cs[n].s.pool.queues| > 0
  {
    WorkAlong(cs, es, n);
  }

  lemma {:induction false} JobsAreEvents(cs: seq<Config>, es: seq<Event>, n: nat, w: nat)
    requires IsRun(cs, es) && n <= |es| && w < |cs[n].h.ran|
    ensures cs[n].h.jobs == JobsSubmitted(cs, es, n) && cs[n].h.ran[w] == JobsRun(cs, es, n, w)
  {
    assert |cs| == |es| + 1;
    if n > 0 {
      StepAlong(cs, es, n - 1);
      RanStays(cs[n - 1].s, cs[n - 1].h, es[n - 1], n - 1);
      assert es[n - 1] == WorkerStep(w) ==> cs[n - 1].s.pool.queues[w] != [];
      hide IsRun, Next, Record, Safe, Submits, GetU32;
      JobsAreEvents(cs, es, n - 1, w);
      JobStep(cs[n - 1].s, cs[n - 1].h, es[n - 1], n - 1, w);
    }
  }

  lemma RanStays(s: State, h: History, e: Event, now: nat)
    requires Enabled(s, e) && Safe(s, e) && (e.WorkerStep? ==> e.worker < |h.ran|)
    ensures |Record(s, h, e, now).ran| == |h.ran|
  {
    hide Next, IsFound, Decode, R.SlotOf, GetU32, GetI32;
  }

  /** Job `j` of the run is job `j / k` of worker `j % k`, run already or still waiting. */
  lemma JobsGoRoundRobin(cs: seq<Config>, es: seq<Event>, n: nat, j: nat)
    requires IsRun(cs, es) && n <= |es| && j < |JobsSubmitted(cs, es, n)|
    ensures |cs[n].s.pool.queues| > 0
    ensures var k := |cs[n].s.pool.queues|;
            var mine := JobsRun(cs, es, n, j % k) + cs[n].s.pool.queues[j % k];
            j / k < |mine| && mine[j / k] == JobsSubmitted(cs, es, n)[j]
  {
    WorkAlong(cs, es, n);
    var k, h := |cs[n].s.pool.queues|, cs[n].h;
    JobsAreEvents(cs, es, n, j % k);
    hide IsRun, JobsSubmitted, JobsRun;
    assert h.ran[j % k] + cs[n].s.pool.queues[j % k] == Share(h.jobs, k, j % k);
    JobIsInItsShare(h.jobs, k, j);
  }

  /** After `k` jobs worker `i` of `m` was given `(k - i + m - 1) / m` of them. */
  lemma LoadsAreEven(cs: seq<Config>, es: seq<Event>, n: nat, i: nat)
    requires IsRun(cs, es) && n <= |es| && i < |cs[n].s.pool.queues|
    ensures var queues := cs[n].s.pool.queues;
            |JobsRun(cs, es, n, i)| + |queues[i]| == (|JobsSubmitted(cs, es, n)| - i + |queues| - 1) / |queues|
  {
    WorkAlong(cs, es, n);
    var queues, h := cs[n].s.pool.queues, cs[n].h;
    JobsAreEvents(cs, es, n, i);
    hide IsRun, JobsSubmitted, JobsRun;
    ShareLength(h.jobs, |queues|, i);
    assert |h.ran[i] + queues[i]| == |h.ran[i]| + |queues[i]|;
  }

  /** Every job is that of a lookup which asked for its `iid` and was accepted into its slot. */
  lemma {:induction false} JobStemsFromLookup(cs: seq<Config>, es: seq<Event>, n: nat, job: Work) returns (t: nat)
    requires n <= |es| < |cs| && job in JobsSubmitted(cs, es, n)
    ensures t < n && Submits(cs[t].s, es[t]) && HEADER <= |es[t].msg|
    ensures job == Work(cs[t].s.rdev.current, GetU32(es[t].msg, 4))
  {
    if job in JobsSubmitted(cs, es, n - 1) {
      t := JobStemsFromLookup(cs, es, n - 1, job);
    } else {
      t := n - 1;
    }
  }

  /** Every worker inspects a slot for an `iid` only because a client asked for that `iid`
      before and its request was accepted into that very slot. */
  lemma WorkStemsFromLookup(cs: seq<Config>, es: seq<Event>, n: nat, w: nat) returns (t: nat)
    requires IsRun(cs, es) && n < |es| && es[n] == WorkerStep(w)
    ensures w < |cs[n].s.pool.queues| && cs[n].s.pool.queues[w] != []
    ensures t < n && Submits(cs[t].s, es[t]) && HEADER <= |es[t].msg|
    ensures cs[n].s.pool.queues[w][0] == Work(cs[t].s.rdev.current, GetU32(es[t].msg, 4))
  {
    WorkAlong(cs, es, n);
    StepAlong(cs, es, n);
    var queues, ran := cs[n].s.pool.queues, cs[n].h.ran;
    JobsAreEvents(cs, es, n, w);
    hide IsRun, JobsRun;
    assert (ran[w] + queues[w])[|ran[w]|] == queues[w][0];
    ShareIsOfJobs(cs[n].h.jobs, |ran|, w, |ran[w]|);
    t := JobStemsFromLookup(cs, es, n, queues[w][0]);
  }

  // ---------- the job of a lookup ----------

  /** Worker `w` is about to run the job that the lookup at time `m` submitted. */
  ghost predicate RunsJobOf(cs: seq<Config>, es: seq<Event>, m: nat, n: nat, w: nat)
    requires m < n <= |es| < |cs|
  {
    var queues, j := cs[n].s.pool.queues, |JobsSubmitted(cs, es, m)|;
    && Submits(cs[m].s, es[m])
    && w < |queues| && queues[w] != []
    && w == j % |queues| && |JobsRun(cs, es, n, w)| == j / |queues|
  }

  lemma {:induction false} JobsStay(cs: seq<Config>, es: seq<Event>, m: nat, n: nat)
    requires m <= n <= |es| < |cs|
    ensures JobsSubmitted(cs, es, m) <= JobsSubmitted(cs, es, n)
  {
    if m < n {
      JobsStay(cs, es, m, n - 1);
    }
  }

  /** The job a lookup submitted is the one with its slot and its `iid`. */
  lemma JobOfLookup(cs: seq<Config>, es: seq<Event>, m: nat, n: nat, w: nat)
    requires IsRun(cs, es) && m < n <= |es| && RunsJobOf(cs, es, m, n, w)
    ensures Enters(cs[m].s, es[m], cs[m].s.rdev.current) && HEADER <= |es[m].msg|
    ensures cs[n].s.pool.queues[w][0] == Work(cs[m].s.rdev.current, GetU32(es[m].msg, 4))
  {
    StepAlong(cs, es, m);
    assert HEADER <= |es[m].msg|;
    var j, job := |JobsSubmitted(cs, es, m)|, Work(cs[m].s.rdev.current, GetU32(es[m].msg, 4));
    assert JobsSubmitted(cs, es, m + 1) == JobsSubmitted(cs, es, m) + [job];
    hide IsRun, JobsSubmitted, JobsRun, GetU32;
    JobsStay(cs, es, m + 1, n);
    assert JobsSubmitted(cs, es, n)[j] == JobsSubmitted(cs, es, m + 1)[j];
    JobsGoRoundRobin(cs, es, n, j);
  }
}
