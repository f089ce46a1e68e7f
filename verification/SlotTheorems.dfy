/** What every step of a run does to the slots of the read device, and so what each slot shows. */
module SlotTheorems {
  import opened Bytes
  import opened Codec
  import opened Rings
  import opened Store
  import opened System
  import opened Invariants
  import W = WritePersistence
  import R = ReadPersistence

  /** Event `e` is a lookup that is accepted into slot `k`. */
  ghost predicate Enters(s: State, e: Event, k: nat) {
    e.ClientLookup? && s.rdev.used < |s.rdev.msgs| && s.rdev.current == k
  }

  /** Event `e` lets a worker inspect slot `k`. */
  predicate Inspects(s: State, e: Event, k: nat) {
    && e.WorkerStep?
    && e.worker < |s.pool.queues|
    && s.pool.queues[e.worker] != []
    && s.pool.queues[e.worker][0].slot == k
  }

  /** Event `e` is a reply that names slot `k`, whatever becomes of its header and value. */
  predicate Touches(s: State, e: Event, k: nat) {
    e.ReaderReply? && e.copies.id && s.reader.Replying? && |s.reader.frame| >= 4 && GetI32(s.reader.frame, 0) == k
  }

  // ---------- one step ----------

  lemma ResponseStep(s: State, e: Event, k: nat)
    requires Enabled(s, e) && Safe(s, e) && s.rdev.working && k < |s.rdev.cbs|
    ensures |Next(s, e).rdev.cbs| == |s.rdev.cbs|
    ensures var r, r' := s.rdev.cbs[k].response, Next(s, e).rdev.cbs[k].response;
            if !Touches(s, e, k) then r' == r
            else if !e.copies.header then Blank(r')
            else Decodable(s.reader.frame, 4)
                 && (Decode(s.reader.frame, 4).Proper() ==> R.Shows(r', Decode(s.reader.frame, 4), e.copies.value))
  {
    if e.ReaderReply? {
      hide R.Reply, R.Shows, Blank, GetI32;
      R.ReplyTouches(s.rdev, s.reader.frame, e.copies, k);
      if Touches(s, e, k) {
        R.ReplyShows(s.rdev, s.reader.frame, e.copies);
      }
    } else {
      hide HeadFrame, Answer, Frame, AfterPut, Decode, W.SlotOf, R.SlotOf, W.Truncated, GetU32, GetI32;
    }
  }

  lemma DoneStep(s: State, e: Event, k: nat)
    requires Enabled(s, e) && Safe(s, e) && k < |s.rdev.cbs|
    ensures |Next(s, e).rdev.cbs| == |s.rdev.cbs|
    ensures Next(s, e).rdev.cbs[k].isDone <==> Inspects(s, e, k) || (s.rdev.cbs[k].isDone && !Enters(s, e, k))
  {
    hide HeadFrame, Answer, Frame, AfterPut, Decode, W.SlotOf, R.SlotOf, W.Truncated, GetU32;
  }

  lemma RequestStep(s: State, e: Event, k: nat)
    requires Enabled(s, e) && Safe(s, e) && k < |s.rdev.cbs|
    ensures |Next(s, e).rdev.cbs| == |s.rdev.cbs| == |s.rdev.msgs| == |Next(s, e).rdev.msgs|
    ensures var d, d' := s.rdev, Next(s, e).rdev;
            if Enters(s, e, k) then
              && HEADER <= |e.msg| && d'.cbs[k].iid == GetU32(e.msg, 4) && d'.cbs[k].bufferId == k
            else
              d'.cbs[k].iid == d.cbs[k].iid && d'.cbs[k].bufferId == d.cbs[k].bufferId && d'.msgs[k] == d.msgs[k]
  {
    if e.ClientLookup? {
      StoredLookupKeeps(e.msg, s.rdev.msgs[s.rdev.current]);
    }
    hide HeadFrame, Answer, Frame, AfterPut, Decode, W.SlotOf, R.SlotOf, W.Truncated, GetU32;
  }

  lemma CloseStep(s: State, e: Event)
    requires Enabled(s, e) && Safe(s, e) && e.ClosesRead()
    ensures var d, d' := s.rdev, Next(s, e).rdev;
            && d'.cbs == d.cbs && d'.msgs == d.msgs && d'.working == d.working
            && d'.first == d'.current == d'.used == 0
  {
  }

  /**
   What one step does to slot `k`. Its response changes only in a reply that names it. Its bytes,
   `iid` and buffer id change only when a lookup enters it, and its mark only then and when
   a worker inspects it. Closing the device, or the death of the daemon, changes none of them.
   */
  lemma SlotStep(cs: seq<Config>, es: seq<Event>, n: nat, k: nat)
    requires IsRun(cs, es) && n < |es| && k < |cs[n].s.rdev.cbs|
    ensures |cs| == |es| + 1 && |cs[n + 1].s.rdev.cbs| == |cs[n].s.rdev.cbs| == |cs[n].s.rdev.msgs| == |cs[n + 1].s.rdev.msgs|
    ensures var s, e, cb, cb' := cs[n].s, es[n], cs[n].s.rdev.cbs[k], cs[n + 1].s.rdev.cbs[k];
            && (if !Touches(s, e, k) then cb'.response == cb.response
                else if !e.copies.header then Blank(cb'.response)
                else Decodable(s.reader.frame, 4) && R.Shows(cb'.response, Decode(s.reader.frame, 4), e.copies.value))
            && (cb'.isDone <==> Inspects(s, e, k) || (cb.isDone && !Enters(s, e, k)))
            && (if Enters(s, e, k) then
                  HEADER <= |e.msg| && cb'.iid == GetU32(e.msg, 4) && cb'.bufferId == k
                else
                  && cb'.iid == cb.iid && cb'.bufferId == cb.bufferId
                  && cs[n + 1].s.rdev.msgs[k] == s.rdev.msgs[k])
    ensures es[n].ClosesRead() ==> cs[n + 1].s.rdev.cbs == cs[n].s.rdev.cbs && cs[n + 1].s.rdev.msgs == cs[n].s.rdev.msgs
  {
    StepAlong(cs, es, n);
    ReplyIsToHead(cs, es, n);
    hide IsRun, Next, Record, Safe, Enabled, Enters, Inspects, R.Shows, Blank, GetI32, GetU32;
    ResponseStep(cs[n].s, es[n], k);
    DoneStep(cs[n].s, es[n], k);
    RequestStep(cs[n].s, es[n], k);
    if es[n].ClosesRead() {
      CloseStep(cs[n].s, es[n]);
    }
  }

  lemma ReplyIsToHead(cs: seq<Config>, es: seq<Event>, n: nat)
    requires IsRun(cs, es) && n < |es|
    ensures var s := cs[n].s;
            && s.rdev.working
            && (es[n].ReaderReply? ==>
                  && s.reader.Replying? && |s.reader.frame| >= 4 && Decodable(s.reader.frame, 4)
                  && GetI32(s.reader.frame, 0) == s.rdev.first && Decode(s.reader.frame, 4).Fits())
  {
    ReadAlong(cs, es, n);
    StepAlong(cs, es, n);
  }

  lemma {:induction false} SlotsStay(cs: seq<Config>, es: seq<Event>, n: nat)
    requires IsRun(cs, es) && n <= |es|
    ensures |cs[n].s.rdev.cbs| == |cs[0].s.rdev.cbs| > 0
  {
    assert |cs| == |es| + 1;
    hide Next, Record, Safe, Enabled;
    if n > 0 {
      SlotsStay(cs, es, n - 1);
      SlotStep(cs, es, n - 1, 0);
    }
  }

  // ---------- what a slot shows ----------

  /** The time of the last reply before `n` that named slot `k`, or -1. */
  function LastReply(cs: seq<Config>, es: seq<Event>, n: nat, k: nat): (u: int)
    requires n <= |es| < |cs|
    ensures -1 <= u < n && (u >= 0 ==> Touches(cs[u].s, es[u], k))
    ensures forall v :: u < v < n ==> !Touches(cs[v].s, es[v], k)
  {
    if n == 0 then -1
    else if Touches(cs[n - 1].s, es[n - 1], k) then n - 1
    else LastReply(cs, es, n - 1, k)
  }

  /** Through any number of closes and reuses a slot shows what the last reply that named it left
      there: the record of its frame, or nothing if its header could not be copied. */
  lemma {:induction false} SlotShowsLastReply(cs: seq<Config>, es: seq<Event>, n: nat, k: nat)
    requires IsRun(cs, es) && n <= |es| && k < |cs[n].s.rdev.cbs|
    ensures var r, u := cs[n].s.rdev.cbs[k].response, LastReply(cs, es, n, k);
            if u < 0 then r.header.len == 0
            else if !es[u].copies.header then Blank(r)
            else Decodable(cs[u].s.reader.frame, 4)
                 && R.Shows(r, Decode(cs[u].s.reader.frame, 4), es[u].copies.value)
  {
    assert |cs| == |es| + 1;
    SlotsStay(cs, es, n);
    if n == 0 {
      NothingShown(cs, es, k);
    } else {
      SlotsStay(cs, es, n - 1);
      hide IsRun, R.Shows, Blank, Touches, Enters, Inspects;
      SlotShowsLastReply(cs, es, n - 1, k);
      SlotStep(cs, es, n - 1, k);
    }
  }

  lemma NothingShown(cs: seq<Config>, es: seq<Event>, k: nat)
    requires IsRun(cs, es) && k < |cs[0].s.rdev.cbs|
    ensures cs[0].s.rdev.cbs[k].response.header.len == 0
  {
  }

  // ---------- the mark of a slot ----------

  /** Between `m` and `n` a worker inspected slot `k`, and no lookup has entered it since. */
  ghost predicate InspectedSince(cs: seq<Config>, es: seq<Event>, m: nat, n: nat, k: nat)
    requires n <= |es| < |cs|
  {
    exists t :: m < t < n && Inspects(cs[t].s, es[t], k) && forall u :: t < u < n ==> !Enters(cs[u].s, es[u], k)
  }

  lemma InspectedStep(cs: seq<Config>, es: seq<Event>, m: nat, n: nat, k: nat)
    requires m < n < |es| < |cs|
    ensures InspectedSince(cs, es, m, n + 1, k)
            <==> Inspects(cs[n].s, es[n], k) || (InspectedSince(cs, es, m, n, k) && !Enters(cs[n].s, es[n], k))
  {
    if InspectedSince(cs, es, m, n, k) && !Enters(cs[n].s, es[n], k) {
      var t :| m < t < n && Inspects(cs[t].s, es[t], k) && forall u :: t < u < n ==> !Enters(cs[u].s, es[u], k);
      assert forall u :: t < u < n + 1 ==> !Enters(cs[u].s, es[u], k);
    }
  }

  /** Once a lookup has entered a slot, its callback is done if and only if a worker has inspected
      the slot since the last lookup entered it; which need not be the worker of that lookup. */
  lemma {:induction false} DoneMeansInspected(cs: seq<Config>, es: seq<Event>, m: nat, n: nat, k: nat)
    requires IsRun(cs, es) && m < n <= |es| && Enters(cs[m].s, es[m], k)
    ensures k < |cs[n].s.rdev.cbs|
    ensures cs[n].s.rdev.cbs[k].isDone <==> InspectedSince(cs, es, m, n, k)
  {
    assert |cs| == |es| + 1;
    EntersInside(cs, es, m, k);
    hide IsRun, InspectedSince, Enters, Inspects, Touches;
    if m + 1 < n {
      DoneMeansInspected(cs, es, m, n - 1, k);
      InspectedStep(cs, es, m, n - 1, k);
    } else {
      NotInspectedYet(cs, es, m, k);
    }
    SlotStep(cs, es, n - 1, k);
  }

  lemma EntersInside(cs: seq<Config>, es: seq<Event>, m: nat, k: nat)
    requires IsRun(cs, es) && m < |es| && Enters(cs[m].s, es[m], k)
    ensures k < |cs[m].s.rdev.cbs| && !Inspects(cs[m].s, es[m], k)
  {
    StepAlong(cs, es, m);
  }

  lemma NotInspectedYet(cs: seq<Config>, es: seq<Event>, m: nat, k: nat)
    requires m < |es| < |cs|
    ensures !InspectedSince(cs, es, m, m + 1, k)
  {
  }
}
