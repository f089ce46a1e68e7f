/** What the workers of every run may count, and how their jobs add up. */
module WorkerTheorems {
  import opened Bytes
  import opened Codec
  import opened Rings
  import opened WorkQueues
  import opened Store
  import opened System
  import opened Invariants
  import opened WriteTheorems
  import opened LookupTheorems
  import opened SlotTheorems
  import opened Accounts
  import R = ReadPersistence

  // ---------- what a worker counts was stored ----------

  ghost predicate EntryIs(db: Db, a: Accepted) {
    a.header.iid in db && Decodable(db[a.header.iid], 0) && Decode(db[a.header.iid], 0) == a
  }

  ghost predicate Stored(cs: seq<Config>, n: nat, a: Accepted)
    requires n < |cs|
  {
    exists t :: 0 <= t <= n && EntryIs(cs[t].s.store, a)
  }

  lemma ReplyAtHandStored(cs: seq<Config>, es: seq<Event>, n: nat)
    requires IsRun(cs, es) && n <= |es|
    ensures var s := cs[n].s;
            s.reader.Replying? ==>
              && Decodable(s.reader.frame, 4)
              && (Decode(s.reader.frame, 4).header.len > 0 ==> Stored(cs, n, Decode(s.reader.frame, 4)))
  {
    assert |cs| == |es| + 1;
    hide Next, Record, Safe, IsRun, GotAt;
    AnswersAlong(cs, es, n);
    if cs[n].s.reader.Replying? && Decode(cs[n].s.reader.frame, 4).header.len > 0 {
      AnswerWasStored(cs, es, n, cs[n].h.gotAt);
    }
  }

  lemma AnswerWasStored(cs: seq<Config>, es: seq<Event>, n: nat, t: nat)
    requires n <= |es| < |cs| && cs[n].s.reader.Replying? && Decodable(cs[n].s.reader.frame, 4)
    requires var a := Decode(cs[n].s.reader.frame, 4);
             a.header.len > 0 && GotAt(cs, es, n, |cs[n].h.answers|, t, a)
    ensures Stored(cs, n, Decode(cs[n].s.reader.frame, 4))
  {
    var k := R.Key(cs[n].h.asks[|cs[n].h.answers|]);
    assert EntryOk(k, cs[t].s.store[k]);
    assert EntryIs(cs[t].s.store, Decode(cs[n].s.reader.frame, 4));
  }

  lemma {:induction false} CommittedGrows(cs: seq<Config>, es: seq<Event>, m: nat, n: nat)
    requires IsRun(cs, es) && m <= n <= |es|
    ensures cs[m].h.committed <= cs[n].h.committed
  {
    assert |cs| == |es| + 1;
    hide IsRun;
    if m < n {
      CommittedGrows(cs, es, m, n - 1);
      HistoryAlong(cs, es, n - 1);
    }
  }

  /** What is in the store was there initially or has been committed. */
  lemma StoredIsCommitted(store0: Db, s: State, h: History, iid: u32)
    requires StoreInv(store0, s, h) && iid in s.store
    ensures var a := Decode(s.store[iid], 0);
            && a.header == ParseHeader(s.store[iid], 0) && a.header.iid == iid && a.Fits()
            && (a in h.committed || (iid in Records(store0) && Records(store0)[iid] == a))
  {
    var m := Records(store0);
    var a := Decode(s.store[iid], 0);
    assert EntryOk(iid, s.store[iid]);
    assert a == Records(s.store)[iid];
    LastWriterWins(m, h.committed, iid);
    InLogOrBase(m, h.committed, iid);
  }

  lemma {:induction false} InLogOrBase(m: map<u32, Accepted>, log: seq<Accepted>, k: u32)
    requires k in ApplyAll(m, log)
    ensures ApplyAll(m, log)[k] in log || (k in m && ApplyAll(m, log)[k] == m[k])
  {
    if log == [] {
    } else if log[|log| - 1].header.iid != k {
      InLogOrBase(m, log[..|log| - 1], k);
    }
  }

  /**
   Whenever a worker counts a message for an `iid`, the slot shows a record `a` with that `iid`
   and a non-empty value that was in the store at the start or has been committed since. It shows
   all of it, but for the value if the reply that put it there, at time `u`, could not copy it.
   So the not-found reply is never counted, whichever slots were reused under pending workers.
   */
  lemma FoundIsSound(cs: seq<Config>, es: seq<Event>, n: nat, w: nat) returns (a: Accepted, u: nat)
    requires IsRun(cs, es) && n < |es| && es[n] == WorkerStep(w) && Hits(cs[n].s, es[n])
    ensures var slot := cs[n].s.pool.queues[w][0].slot;
            && u == LastReply(cs, es, n, slot)
            && Touches(cs[u].s, es[u], slot) && es[u].copies.header
            && Decodable(cs[u].s.reader.frame, 4) && a == Decode(cs[u].s.reader.frame, 4)
            && R.Shows(cs[n].s.rdev.cbs[slot].response, a, es[u].copies.value)
    ensures a.Fits() && |a.value| > 0 && a.header.iid == cs[n].s.pool.queues[w][0].iid
    ensures WellFormed(cs[0].s.store)
    ensures var m := Records(cs[0].s.store);
            a in CommittedWrites(cs, es, n) || (a.header.iid in m && m[a.header.iid] == a)
  {
    assert |cs| == |es| + 1;
    var slot := cs[n].s.pool.queues[w][0].slot;
    hide IsRun, LastReply, CommittedWrites, Records, WellFormed;
    SlotShowsLastReply(cs, es, n, slot);
    u := LastReply(cs, es, n, slot);
    a := Decode(cs[u].s.reader.frame, 4);
    ReplyAtHandStored(cs, es, u);
    StoredStays(cs, u, n, a);
    StoredComesFrom(cs, es, n, a);
  }

  lemma StoredStays(cs: seq<Config>, m: nat, n: nat, a: Accepted)
    requires m <= n < |cs| && Stored(cs, m, a)
    ensures Stored(cs, n, a)
  {
  }

  lemma StoredComesFrom(cs: seq<Config>, es: seq<Event>, n: nat, a: Accepted)
    requires IsRun(cs, es) && n <= |es| && Stored(cs, n, a)
    ensures WellFormed(cs[0].s.store)
    ensures var m := Records(cs[0].s.store);
            a in CommittedWrites(cs, es, n) || (a.header.iid in m && m[a.header.iid] == a)
  {
    assert |cs| == |es| + 1;
    hide IsRun, CommittedWrites;
    var t :| 0 <= t <= n && EntryIs(cs[t].s.store, a);
    StoreAlong(cs, es, t);
    StoredIsCommitted(cs[0].s.store, cs[t].s, cs[t].h, a.header.iid);
    CommittedGrows(cs, es, t, n);
    CommitsAreEvents(cs, es, n);
  }

  // ---------- the verdict of a worker ----------

  /** While the answer to request `i` is in its slot and no worker has marked the slot done, a
      worker that asks for `iid` counts it exactly if it has a value and is for that `iid`. */
  lemma VerdictIsExact(cs: seq<Config>, es: seq<Event>, n: nat, i: nat, iid: u32)
    requires IsRun(cs, es) && n <= |es| && StillInSlot(cs[n], i)
    ensures var d, a := cs[n].s.rdev, cs[n].h.answers[i].record;
            && d.Shape() && i < |cs[n].h.asks| && |cs[n].h.asks[i]| == SLOT
            && var cb := d.cbs[Place(i, d.Size())];
            R.Counts(cb, iid) <==> !cb.isDone && |a.value| > 0 && R.Key(cs[n].h.asks[i]) == iid
  {
    ReadAlong(cs, es, n);
    LookupsAreLinearizable(cs, es, n, i);
    var a := cs[n].h.answers[i];
    assert R.Shows(cs[n].s.rdev.cbs[Place(i, cs[n].s.rdev.Size())].response, a.record, a.copied);
    AnswerFits(cs[a.time].s.store, R.Key(cs[n].h.asks[i]), es[a.time].get);
    ValuedAnswerMatches(cs[a.time].s.store, R.Key(cs[n].h.asks[i]), es[a.time].get);
  }

  lemma ValuedAnswerMatches(db: Db, iid: u32, c: GetCodes)
    requires WellFormed(db)
    ensures Answer(db, iid, c).header.len > 0 ==> Answer(db, iid, c).header.iid == iid
  {
  }

  /**
   What a worker says of its own lookup: it counts it if and only if the answer in its slot,
   number `i`, has a value and is for the same `iid`, and no worker has inspected the slot since
   a lookup last entered it. The answer may be that of an older request for the same `iid`,
   and the worker that came first that of an older or a younger lookup.
   */
  lemma OwnVerdict(cs: seq<Config>, es: seq<Event>, m: nat, n: nat, w: nat, i: nat)
    requires IsRun(cs, es) && m < n <= |es| && RunsJobOf(cs, es, m, n, w)
    requires StillInSlot(cs[n], i) && Place(i, cs[n].s.rdev.Size()) == cs[m].s.rdev.current
    ensures var k := cs[m].s.rdev.current;
            && HEADER <= |es[m].msg| && i < |cs[n].h.asks| && |cs[n].h.asks[i]| == SLOT
            && cs[n].s.pool.queues[w][0].slot == k < |cs[n].s.rdev.cbs|
            && (IsFound(cs[n].s, w) <==>
                  && |cs[n].h.answers[i].record.value| > 0
                  && R.Key(cs[n].h.asks[i]) == GetU32(es[m].msg, 4)
                  && !InspectedSince(cs, es, m, n, k))
  {
    assert |cs| == |es| + 1;
    hide IsRun, InspectedSince, Enters, GetU32;
    JobOfLookup(cs, es, m, n, w);
    DoneMeansInspected(cs, es, m, n, cs[m].s.rdev.current);
    VerdictIsExact(cs, es, n, i, GetU32(es[m].msg, 4));
  }

  /**
   The same in every case, through any closes of the device and deaths of the daemon: a worker
   counts its own lookup if and only if the last reply that named its slot, at whatever time,
   brought a header and a record with a value and the same `iid`, and no worker has inspected
   the slot since a lookup last entered it.
   */
  lemma VerdictOfLastReply(cs: seq<Config>, es: seq<Event>, m: nat, n: nat, w: nat)
    requires IsRun(cs, es) && m < n <= |es| && RunsJobOf(cs, es, m, n, w)
    ensures var k := cs[m].s.rdev.current;
            && HEADER <= |es[m].msg| && cs[n].s.pool.queues[w][0].slot == k < |cs[n].s.rdev.cbs|
            && var u := LastReply(cs, es, n, k);
            && (u >= 0 && es[u].copies.header ==> Decodable(cs[u].s.reader.frame, 4))
            && (IsFound(cs[n].s, w) <==>
                  && u >= 0 && es[u].copies.header
                  && |Decode(cs[u].s.reader.frame, 4).value| > 0
                  && Decode(cs[u].s.reader.frame, 4).header.iid == GetU32(es[m].msg, 4)
                  && !InspectedSince(cs, es, m, n, k))
  {
    assert |cs| == |es| + 1;
    hide IsRun, InspectedSince, Enters, LastReply, GetU32;
    var k := cs[m].s.rdev.current;
    JobOfLookup(cs, es, m, n, w);
    DoneMeansInspected(cs, es, m, n, k);
    SlotShowsLastReply(cs, es, n, k);
  }
}
