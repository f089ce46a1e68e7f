/** In every run the lookups are a queue, and each answer is what the store held while its request waited. */
module LookupTheorems {
  import opened Bytes
  import opened Codec
  import opened Rings
  import opened Store
  import opened System
  import opened Invariants
  import W = WritePersistence
  import R = ReadPersistence

  /** The ring is a bounded queue: what was asked and not yet answered, in order. */
  lemma LookupsAreAQueue(cs: seq<Config>, es: seq<Event>, n: nat)
    requires IsRun(cs, es) && n <= |es|
    ensures var d, h := cs[n].s.rdev, cs[n].h;
            && d.Shape()
            && 0 <= d.used <= d.Size()
            && (d.first + d.used) % d.Size() == d.current
            && |h.answers| <= |h.asks|
            && h.asks[|h.answers|..] == RingSlots(d)
  {
    ReadAlong(cs, es, n);
    var d, h := cs[n].s.rdev, cs[n].h;
    ModAddLeft(|h.answers|, d.used, d.Size());
    forall k | 0 <= k < d.used
      ensures RingSlots(d)[k] == h.asks[|h.answers| + k]
    {
      SlotAt(d, |h.answers|, k);
      assert R.Live(d, Place(|h.answers| + k, d.Size()), h.asks[|h.answers| + k]);
    }
  }

  /** Step by step: a lookup is appended, or dropped exactly when the ring is full; a read only
      peeks; a reply that gets past its id and header removes exactly the head. */
  lemma LookupRingStep(cs: seq<Config>, es: seq<Event>, n: nat)
    requires IsRun(cs, es) && n < |es|
    ensures var d, d' := cs[n].s.rdev, cs[n + 1].s.rdev;
            && d.Shape() && d'.Shape() && 0 <= d.used && 0 <= d'.used
            && RingSlots(d') ==
               match es[n]
               case ClientLookup(msg, _) =>
                 if |RingSlots(d)| == d.Size() || |msg| > SLOT then RingSlots(d)
                 else RingSlots(d) + [R.SlotOf(msg, d.msgs[d.current])]
               case ReaderReply(c) => if c.id && c.header && d.used > 0 then RingSlots(d)[1..] else RingSlots(d)
               case WriterPut(_, c) => if c.Aborts() then [] else RingSlots(d)
               case ReaderRelease => []
               case _ => RingSlots(d)
  {
    LookupsAreAQueue(cs, es, n);
    LookupsAreAQueue(cs, es, n + 1);
    ReadAlong(cs, es, n);
    StepAlong(cs, es, n);
    LookupsMove(cs[n].s, cs[n].h, es[n], n);
  }

  lemma LookupMoves(s: State, h: History, e: Event, now: nat)
    requires e.ClientLookup? && Enabled(s, e) && Safe(s, e) && |h.answers| <= |h.asks|
    ensures var h' := Record(s, h, e, now);
            && |e.msg| <= SLOT
            && h'.answers == h.answers
            && h'.asks == h.asks + (if s.rdev.Full() then [] else [R.SlotOf(e.msg, s.rdev.msgs[s.rdev.current])])
            && h'.asks[|h.answers|..] == h.asks[|h.answers|..]
               + (if s.rdev.Full() then [] else [R.SlotOf(e.msg, s.rdev.msgs[s.rdev.current])])
  {
    hide R.SlotOf, NewWork, GetI32;
  }

  lemma ReplyMoves(s: State, h: History, e: Event, now: nat)
    requires e.ReaderReply? && Enabled(s, e) && Safe(s, e) && s.rdev.working && |h.answers| < |h.asks|
    ensures var h' := Record(s, h, e, now);
            && h'.asks == h.asks
            && |h'.answers| == |h.answers| + if e.copies.id && e.copies.header then 1 else 0
  {
    hide Decode, GetI32;
  }

  lemma CloseMoves(s: State, h: History, e: Event, now: nat)
    requires e.ClosesRead() && Enabled(s, e) && Safe(s, e)
    ensures Record(s, h, e, now).asks == [] && Record(s, h, e, now).answers == []
  {
  }

  lemma OthersMoveNothing(s: State, h: History, e: Event, now: nat)
    requires Enabled(s, e) && Safe(s, e) && (e.WorkerStep? ==> e.worker < |h.ran|)
    requires !e.ClientLookup? && !e.ReaderReply? && !e.ClosesRead()
    ensures Record(s, h, e, now).asks == h.asks && Record(s, h, e, now).answers == h.answers
  {
    hide IsFound, W.Truncated, GetI32;
  }

  lemma LookupsMove(s: State, h: History, e: Event, now: nat)
    requires Enabled(s, e) && Safe(s, e) && (e.WorkerStep? ==> e.worker < |h.ran|)
    requires s.rdev.working && |h.answers| <= |h.asks|
    requires !s.reader.Ready? ==> |h.answers| < |h.asks|
    ensures var h' := Record(s, h, e, now);
            && |h'.answers| <= |h'.asks|
            && h'.asks[|h'.answers|..] ==
               match e
               case ClientLookup(msg, _) =>
                 if s.rdev.Full() then h.asks[|h.answers|..]
                 else h.asks[|h.answers|..] + [R.SlotOf(msg, s.rdev.msgs[s.rdev.current])]
               case ReaderReply(c) => if c.id && c.header then h.asks[|h.answers|..][1..] else h.asks[|h.answers|..]
               case WriterPut(_, c) => if c.Aborts() then [] else h.asks[|h.answers|..]
               case ReaderRelease => []
               case _ => h.asks[|h.answers|..]
  {
    hide Next, Record, Safe, W.SlotOf, R.SlotOf, GetI32;
    if e.ClientLookup? {
      LookupMoves(s, h, e, now);
    } else if e.ReaderReply? {
      ReplyMoves(s, h, e, now);
    } else if e.ClosesRead() {
      CloseMoves(s, h, e, now);
    } else {
      OthersMoveNothing(s, h, e, now);
    }
  }

  lemma NothingSince(cs: seq<Config>, es: seq<Event>)
    requires IsRun(cs, es)
    ensures |cs| == |es| + 1 && cs[0].h.since == 0
  {
  }

  lemma {:induction false} SinceIsPast(cs: seq<Config>, es: seq<Event>, m: nat, n: nat)
    requires IsRun(cs, es) && m <= n <= |es|
    ensures cs[m].h.since <= cs[n].h.since <= n
  {
    NothingSince(cs, es);
    hide IsRun;
    if n > 0 {
      HistoryAlong(cs, es, n - 1);
      SinceIsPast(cs, es, Min(m, n - 1), n - 1);
    }
  }

  /** Between releases requests and answers are only ever added. */
  lemma {:induction false} AsksGrow(cs: seq<Config>, es: seq<Event>, m: nat, n: nat)
    requires IsRun(cs, es) && m <= n <= |es| && cs[m].h.since == cs[n].h.since
    ensures cs[m].h.asks <= cs[n].h.asks && cs[m].h.answers <= cs[n].h.answers
  {
    NothingSince(cs, es);
    hide IsRun;
    if m < n {
      HistoryAlong(cs, es, n - 1);
      SinceIsPast(cs, es, m, n - 1);
      AsksGrow(cs, es, m, n - 1);
    }
  }

  /** From its add to its removal a request's slot keeps its bytes, `iid` and buffer id. */
  lemma LiveSlotIsUndisturbed(cs: seq<Config>, es: seq<Event>, m: nat, n: nat, i: nat)
    requires IsRun(cs, es) && m <= n <= |es| && cs[m].h.since == cs[n].h.since
    requires |cs[n].h.answers| <= i < |cs[m].h.asks|
    ensures var d, d' := cs[m].s.rdev, cs[n].s.rdev;
            && d.Shape() && d'.Shape() && d.Size() == d'.Size()
            && var s := Place(i, d.Size());
            && d'.msgs[s] == d.msgs[s]
            && d'.cbs[s].iid == d.cbs[s].iid == R.Key(d.msgs[s])
            && d'.cbs[s].bufferId == d.cbs[s].bufferId == s
  {
    InvAlong(cs, es, m);
    InvAlong(cs, es, n);
    AsksGrow(cs, es, m, n);
    SizeIsFixed(cs, es, m);
    SizeIsFixed(cs, es, n);
    var d, d' := cs[m].s.rdev, cs[n].s.rdev;
    assert R.Live(d, Place(i, d.Size()), cs[m].h.asks[i]);
    assert R.Live(d', Place(i, d.Size()), cs[n].h.asks[i]);
  }

  lemma {:induction false} SizeIsFixed(cs: seq<Config>, es: seq<Event>, n: nat)
    requires IsRun(cs, es) && n <= |es|
    ensures cs[n].s.rdev.Size() == cs[0].s.rdev.Size()
  {
    if n == 0 {
    } else {
      SizeIsFixed(cs, es, n - 1);
      StepAlong(cs, es, n - 1);
      SizeStep(cs[n - 1].s, es[n - 1]);
    }
  }

  // ---------- every answer is a lookup of the store while the request waited ----------

  /** `a` is what the read thread found in the store at time `t` for request `i`, at the head of
      the queue since before `t` and still unanswered then. */
  ghost predicate GotAt(cs: seq<Config>, es: seq<Event>, n: nat, i: nat, t: nat, a: Accepted)
    requires n <= |es| < |cs|
  {
    && t < n
    && cs[n].h.since == cs[t].h.since <= t
    && es[t].ReaderGet?
    && i == |cs[t].h.answers| < |cs[t].h.asks|
    && i < |cs[n].h.asks|
    && |cs[n].h.asks[i]| == SLOT
    && cs[t].h.asks[i] == cs[n].h.asks[i]
    && WellFormed(cs[t].s.store)
    && a == Answer(cs[t].s.store, R.Key(cs[n].h.asks[i]), es[t].get)
  }

  ghost predicate AnswersInv(cs: seq<Config>, es: seq<Event>, n: nat)
    requires n <= |es| < |cs|
  {
    var s, h := cs[n].s, cs[n].h;
    && (forall i :: 0 <= i < |h.answers| ==> GotAt(cs, es, n, i, h.answers[i].time, h.answers[i].record))
    && (s.reader.Replying? ==>
          Decodable(s.reader.frame, 4) && GotAt(cs, es, n, |h.answers|, h.gotAt, Decode(s.reader.frame, 4)))
  }

  lemma StillGot(cs: seq<Config>, es: seq<Event>, n: nat, i: nat, t: nat, a: Accepted)
    requires n < |es| < |cs| && GotAt(cs, es, n, i, t, a)
    requires cs[n + 1].h.since == cs[n].h.since && cs[n].h.asks <= cs[n + 1].h.asks
    ensures GotAt(cs, es, n + 1, i, t, a)
  {
  }

  lemma GetIsRecorded(cs: seq<Config>, es: seq<Event>, n: nat)
    requires IsRun(cs, es) && n < |es| && es[n].ReaderGet?
    ensures var s', h' := cs[n + 1].s, cs[n + 1].h;
            && s'.reader.Replying?
            && Decodable(s'.reader.frame, 4)
            && GotAt(cs, es, n + 1, |h'.answers|, h'.gotAt, Decode(s'.reader.frame, 4))
  {
    ReadAlong(cs, es, n);
    StoreAlong(cs, es, n);
    StepAlong(cs, es, n);
    SinceIsPast(cs, es, n, n);
    var s := cs[n].s;
    var a := Answer(s.store, s.reader.iid, es[n].get);
    AnswerFits(s.store, s.reader.iid, es[n].get);
    R.FrameIsReply(s.rdev, s.reader.id, a, es[n].junk, R.ALL_COPIED);
  }

  lemma {:induction false} AnswersAlong(cs: seq<Config>, es: seq<Event>, n: nat)
    requires IsRun(cs, es) && n <= |es|
    ensures AnswersInv(cs, es, n)
  {
    if n == 0 {
    } else {
      AnswersAlong(cs, es, n - 1);
      StepAlong(cs, es, n - 1);
      AnswersStep(cs, es, n - 1);
    }
  }

  /** How the answers and the reply at hand come about. */
  lemma AnswersChange(s: State, h: History, e: Event, now: nat)
    requires Enabled(s, e) && Safe(s, e) && (e.WorkerStep? ==> e.worker < |h.ran|) && !e.ClosesRead()
    ensures var s', h' := Next(s, e), Record(s, h, e, now);
            && (s'.reader.Replying? ==> e.ReaderGet? || (s'.reader == s.reader && h'.gotAt == h.gotAt && h'.answers == h.answers))
            && (h'.answers == h.answers
                || (s.reader.Replying? && Decodable(s.reader.frame, 4) && |h'.answers| == |h.answers| + 1
                    && h'.answers[|h.answers|].time == h.gotAt
                    && h'.answers[|h.answers|].record == Decode(s.reader.frame, 4)))
  {
  }

  lemma AnswersKept(cs: seq<Config>, es: seq<Event>, n: nat, i: nat)
    requires n < |es| < |cs| && AnswersInv(cs, es, n) && Defined(cs[n], es[n], n, cs[n + 1])
    requires !es[n].ClosesRead() && i < |cs[n + 1].h.answers|
    ensures GotAt(cs, es, n + 1, i, cs[n + 1].h.answers[i].time, cs[n + 1].h.answers[i].record)
  {
    hide Next, Record;
    var c, e, c' := cs[n], es[n], cs[n + 1];
    HistoryStep(c.s, c.h, e, n);
    AnswersChange(c.s, c.h, e, n);
    if i < |c.h.answers| {
      assert c'.h.answers[i] == c.h.answers[i];
      StillGot(cs, es, n, i, c.h.answers[i].time, c.h.answers[i].record);
    } else {
      StillGot(cs, es, n, |c.h.answers|, c.h.gotAt, Decode(c.s.reader.frame, 4));
    }
  }

  lemma ReplyKept(cs: seq<Config>, es: seq<Event>, n: nat)
    requires n < |es| < |cs| && AnswersInv(cs, es, n) && Defined(cs[n], es[n], n, cs[n + 1])
    requires !es[n].ClosesRead() && !es[n].ReaderGet? && cs[n + 1].s.reader.Replying?
    ensures var s', h' := cs[n + 1].s, cs[n + 1].h;
            && Decodable(s'.reader.frame, 4)
            && GotAt(cs, es, n + 1, |h'.answers|, h'.gotAt, Decode(s'.reader.frame, 4))
  {
    hide Next, Record;
    var c, e := cs[n], es[n];
    HistoryStep(c.s, c.h, e, n);
    AnswersChange(c.s, c.h, e, n);
    StillGot(cs, es, n, |c.h.answers|, c.h.gotAt, Decode(c.s.reader.frame, 4));
  }

  lemma AnswersStep(cs: seq<Config>, es: seq<Event>, n: nat)
    requires IsRun(cs, es) && n < |es| && AnswersInv(cs, es, n) && Defined(cs[n], es[n], n, cs[n + 1])
    ensures AnswersInv(cs, es, n + 1)
  {
    if !es[n].ClosesRead() {
      var m, answers := n + 1, cs[n + 1].h.answers;
      forall i | 0 <= i < |answers|
        ensures GotAt(cs, es, m, i, answers[i].time, answers[i].record)
      {
        AnswersKept(cs, es, n, i);
      }
      if es[n].ReaderGet? {
        GetIsRecorded(cs, es, n);
      } else if cs[n + 1].s.reader.Replying? {
        ReplyKept(cs, es, n);
      }
    }
  }

  /**
   The lookups are linearizable: the answer to request `i` is what the store held for its `iid`
   at a moment `t` when the request was in the ring and not yet answered, or the zero record if
   it held nothing, or if the database calls at that moment failed.
   */
  lemma LookupsAreLinearizable(cs: seq<Config>, es: seq<Event>, n: nat, i: nat)
    requires IsRun(cs, es) && n <= |es| && i < |cs[n].h.answers|
    ensures GotAt(cs, es, n, i, cs[n].h.answers[i].time, cs[n].h.answers[i].record)
  {
    AnswersAlong(cs, es, n);
  }

  /** A reply goes to the slot of the request it answers, which is the head of the ring: the
      `k`-th reply since the release goes to slot `k` modulo the ring's size. */
  lemma ReplyMatchesHead(cs: seq<Config>, es: seq<Event>, n: nat)
    requires IsRun(cs, es) && n < |es| && es[n].ReaderReply?
    ensures var s, h := cs[n].s, cs[n].h;
            && s.rdev.Shape()
            && s.rdev.working
            && s.reader.Replying? && |s.reader.frame| >= 4 && Decodable(s.reader.frame, 4)
            && GetI32(s.reader.frame, 0) == s.rdev.first == Place(|h.answers|, s.rdev.Size())
            && GotAt(cs, es, n, |h.answers|, h.gotAt, Decode(s.reader.frame, 4))
  {
    ReadAlong(cs, es, n);
    StepAlong(cs, es, n);
    AnswersAlong(cs, es, n);
  }

  /** A reply that fails before its header is in place is retried: the same head is served
      next, and if its response was touched no worker can count it. */
  lemma FailedReplyIsRetried(cs: seq<Config>, es: seq<Event>, n: nat)
    requires IsRun(cs, es) && n < |es| && es[n].ReaderReply? && !(es[n].copies.id && es[n].copies.header)
    ensures var s, s' := cs[n].s, cs[n + 1].s;
            && s.rdev.Shape() && s'.rdev.Shape()
            && s'.reader == Ready && s'.rdev.Readable()
            && s'.rdev == s.rdev.(cbs := s'.rdev.cbs)
            && Sendable(s.rdev.msgs[s.rdev.first])
            && HeadFrame(s'.rdev) == HeadFrame(s.rdev)
            && cs[n + 1].h.asks == cs[n].h.asks && cs[n + 1].h.answers == cs[n].h.answers
            && (es[n].copies.id ==> forall iid :: !R.Counts(s'.rdev.cbs[s.rdev.first], iid))
  {
    ReadAlong(cs, es, n);
    StepAlong(cs, es, n);
    FailedReply(cs[n].s, cs[n].h, es[n].copies, n);
  }

  lemma FailedReply(s: State, h: History, c: R.Copies, now: nat)
    requires ReadInv(s, h) && Enabled(s, ReaderReply(c)) && Safe(s, ReaderReply(c)) && !(c.id && c.header)
    ensures var s', h' := Next(s, ReaderReply(c)), Record(s, h, ReaderReply(c), now);
            && s'.reader == Ready && s'.rdev.Shape() && s'.rdev.Readable()
            && s'.rdev == s.rdev.(cbs := s'.rdev.cbs)
            && Sendable(s.rdev.msgs[s.rdev.first])
            && HeadFrame(s'.rdev) == HeadFrame(s.rdev)
            && h'.asks == h.asks && h'.answers == h.answers
            && (c.id ==> forall iid :: !R.Counts(s'.rdev.cbs[s.rdev.first], iid))
  {
    R.FailHead(s.rdev, h.asks, h.answers, h.cleared, s.reader.frame, c);
    R.PeekQueue(s.rdev, h.asks, |h.answers|, []);
  }

  // ---------- where the answers are ----------

  /** The slot of answer `i` has not been served again, nor cleared for it. */
  predicate StillInSlot(c: Config, i: nat) {
    && i < |c.h.answers|
    && |c.h.answers| <= i + c.s.rdev.Size() && (c.h.cleared ==> |c.h.answers| < i + c.s.rdev.Size())
  }

  lemma AnswerIsShown(cs: seq<Config>, es: seq<Event>, n: nat, i: nat)
    requires IsRun(cs, es) && n <= |es| && StillInSlot(cs[n], i) && cs[n].h.answers[i].copied
    ensures var d := cs[n].s.rdev;
            d.Shape() && R.Shows(d.cbs[Place(i, d.Size())].response, cs[n].h.answers[i].record, true)
  {
    ReadAlong(cs, es, n);
    var a := cs[n].h.answers[i];
    assert R.Shows(cs[n].s.rdev.cbs[Place(i, cs[n].s.rdev.Size())].response, a.record, a.copied);
  }

  // ---------- requests and answers are events ----------

  /** What the lookups accepted since the read device was last closed asked for, in order. */
  ghost function AskedSince(cs: seq<Config>, es: seq<Event>, n: nat): seq<u32>
    requires n <= |es| < |cs|
  {
    if n == 0 || es[n - 1].ClosesRead() then [] else
    AskedSince(cs, es, n - 1)
    + match es[n - 1]
      case ClientLookup(msg, _) =>
        if |msg| >= HEADER && cs[n - 1].s.rdev.used < |cs[n - 1].s.rdev.msgs| then [GetU32(msg, 4)] else []
      case _ => []
  }

  /** When the replies that got past their id and header arrived since then. */
  function RepliesSince(es: seq<Event>, n: nat): (r: seq<nat>)
    requires n <= |es|
    ensures forall i :: 0 <= i < |r| ==> r[i] < n
  {
    if n == 0 || es[n - 1].ClosesRead() then [] else
    RepliesSince(es, n - 1)
    + if es[n - 1].ReaderReply? && es[n - 1].copies.id && es[n - 1].copies.header then [n - 1] else []
  }

  ghost predicate Asks(asks: seq<seq<byte>>, iids: seq<u32>) {
    |asks| == |iids| && forall i :: 0 <= i < |asks| ==> |asks[i]| == SLOT && R.Key(asks[i]) == iids[i]
  }

  /** The reply at time `t` brought answer `a`. */
  ghost predicate Brought(cs: seq<Config>, es: seq<Event>, t: nat, a: R.Answer)
    requires t < |es| < |cs|
  {
    var s, e := cs[t].s, es[t];
    && e.ReaderReply? && s.reader.Replying? && Decodable(s.reader.frame, 4)
    && a.record == Decode(s.reader.frame, 4) && a.copied == e.copies.value
  }

  ghost predicate Gives(cs: seq<Config>, es: seq<Event>, answers: seq<R.Answer>, times: seq<nat>)
    requires |es| < |cs|
  {
    && |answers| == |times|
    && forall i :: 0 <= i < |answers| ==> times[i] < |es| && Brought(cs, es, times[i], answers[i])
  }

  lemma GivesMore(cs: seq<Config>, es: seq<Event>, answers: seq<R.Answer>, times: seq<nat>, a: R.Answer, t: nat)
    requires |es| < |cs| && Gives(cs, es, answers, times) && t < |es| && Brought(cs, es, t, a)
    ensures Gives(cs, es, answers + [a], times + [t])
  {
    hide Brought;
  }

  lemma AsksStep(s: State, h: History, e: Event, now: nat, iids: seq<u32>)
    requires Enabled(s, e) && Safe(s, e) && (e.WorkerStep? ==> e.worker < |h.ran|)
    requires Asks(h.asks, iids) && |h.answers| <= |h.asks|
    ensures e.ClientLookup? ==> |e.msg| >= HEADER
    ensures Asks(Record(s, h, e, now).asks,
                 if e.ClosesRead() then []
                 else iids + if e.ClientLookup? && s.rdev.used < |s.rdev.msgs| then [GetU32(e.msg, 4)] else [])
  {
    hide Next, NewWork, IsFound, Decode, R.SlotOf, GetU32, GetI32;
    if e.ClientLookup? {
      StoredLookupKeeps(e.msg, s.rdev.msgs[s.rdev.current]);
      LookupMoves(s, h, e, now);
    } else if !e.ClosesRead() {
      HistoryAsks(s, h, e, now);
    }
  }

  lemma HistoryAsks(s: State, h: History, e: Event, now: nat)
    requires Enabled(s, e) && Safe(s, e) && (e.WorkerStep? ==> e.worker < |h.ran|)
    requires !e.ClientLookup? && !e.ClosesRead()
    ensures Record(s, h, e, now).asks == h.asks
  {
    hide Next, NewWork, IsFound, Decode, GetU32, GetI32;
  }

  lemma AnswersMove(s: State, h: History, e: Event, now: nat)
    requires Enabled(s, e) && Safe(s, e) && (e.WorkerStep? ==> e.worker < |h.ran|) && s.rdev.working
    requires e.ReaderReply? ==> s.reader.Replying? && Decodable(s.reader.frame, 4)
    ensures Record(s, h, e, now).answers ==
            if e.ClosesRead() then []
            else h.answers + if e.ReaderReply? && e.copies.id && e.copies.header
                             then [R.Answer(h.gotAt, Decode(s.reader.frame, 4), e.copies.value)] else []
  {
    hide Next, NewWork, IsFound, Decode, GetU32, GetI32;
  }

  /** The `i`-th request of the history is the `i`-th lookup accepted since the last close. */
  lemma {:induction false} RequestsAreEvents(cs: seq<Config>, es: seq<Event>, n: nat)
    requires IsRun(cs, es) && n <= |es|
    ensures Asks(cs[n].h.asks, AskedSince(cs, es, n))
  {
    assert |cs| == |es| + 1;
    if n > 0 {
      RequestsAreEvents(cs, es, n - 1);
      StepAlong(cs, es, n - 1);
      ReadAlong(cs, es, n - 1);
      assert |cs[n - 1].h.answers| <= |cs[n - 1].h.asks|;
      hide IsRun, Next, Record, Safe, Enabled, ReadInv, Asks, GetU32;
      AsksStep(cs[n - 1].s, cs[n - 1].h, es[n - 1], n - 1, AskedSince(cs, es, n - 1));
    }
  }

  lemma AnswerAdded(cs: seq<Config>, es: seq<Event>, n: nat)
    requires IsRun(cs, es) && n < |es|
    ensures |cs| == |es| + 1 && cs[0].h.answers == []
    ensures var e, answers, answers' := es[n], cs[n].h.answers, cs[n + 1].h.answers;
            if e.ClosesRead() then answers' == []
            else if e.ReaderReply? && e.copies.id && e.copies.header then
              |answers'| == |answers| + 1 && answers' == answers + [answers'[|answers|]] && Brought(cs, es, n, answers'[|answers|])
            else answers' == answers
  {
    StepAlong(cs, es, n);
    ReadAlong(cs, es, n);
    var c, e := cs[n], es[n];
    assert e.ReaderReply? ==> c.s.reader.Replying? && Decodable(c.s.reader.frame, 4);
    AnswersMove(c.s, c.h, e, n);
    hide IsRun, Next, Record, Safe, Enabled, ReadInv, Decode, Decodable;
  }

  /** The `i`-th answer of the history is the record brought by the `i`-th reply since then. */
  lemma {:induction false} AnswersAreEvents(cs: seq<Config>, es: seq<Event>, n: nat)
    requires IsRun(cs, es) && n <= |es|
    ensures Gives(cs, es, cs[n].h.answers, RepliesSince(es, n))
  {
    NoAnswersYet(cs, es);
    hide IsRun, Gives, Brought;
    GivesNothing(cs, es);
    if n > 0 {
      var e, answers := es[n - 1], cs[n - 1].h.answers;
      AnswersAreEvents(cs, es, n - 1);
      AnswerAdded(cs, es, n - 1);
      if !e.ClosesRead() && e.ReaderReply? && e.copies.id && e.copies.header {
        GivesMore(cs, es, answers, RepliesSince(es, n - 1), cs[n].h.answers[|answers|], n - 1);
      }
    }
  }

  lemma NoAnswersYet(cs: seq<Config>, es: seq<Event>)
    requires IsRun(cs, es)
    ensures |cs| == |es| + 1 && cs[0].h.answers == []
  {
  }

  lemma GivesNothing(cs: seq<Config>, es: seq<Event>)
    requires |es| < |cs|
    ensures Gives(cs, es, [], [])
  {
  }
}
