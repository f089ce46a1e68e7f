/** In every run the write path is a log: what is accepted, in flight, put and stored. */
module WriteTheorems {
  import opened Bytes
  import opened Codec
  import opened Rings
  import opened Store
  import opened System
  import opened Invariants
  import W = WritePersistence
  import R = ReadPersistence

  function RecordIn(slot: seq<byte>): Accepted {
    if Decodable(slot, 0) then Decode(slot, 0) else ZERO
  }

  function RingRecords(d: Device): seq<Accepted>
    requires d.Shape() && 0 <= d.used
  {
    seq(d.used, k requires 0 <= k < d.used => RecordIn(RingSlots(d)[k]))
  }

  lemma QueueIsRing(d: Device, log: seq<Accepted>, taken: nat)
    requires W.Queue(d, log, taken)
    ensures RingRecords(d) == log[taken..]
  {
    forall k | 0 <= k < d.used
      ensures RingRecords(d)[k] == log[taken + k]
    {
      SlotAt(d, taken, k);
      assert W.Holds(d.msgs[Place(taken + k, d.Size())], log[taken + k]);
    }
  }

  /** The records accepted since the write device was last closed, in order: each message not
      dropped, its value cut to 200 bytes. */
  ghost function AcceptedWrites(cs: seq<Config>, es: seq<Event>, n: nat): seq<Accepted>
    requires n <= |es| < |cs|
  {
    if n == 0 || es[n - 1].ClosesWrite() then [] else
    AcceptedWrites(cs, es, n - 1)
    + match es[n - 1]
      case ClientWrite(msg) =>
        if |msg| >= HEADER && !cs[n - 1].s.wdev.Full() then [W.Truncated(msg)] else []
      case _ => []
  }

  /** The return codes of the puts since then. */
  function PutsSince(es: seq<Event>, n: nat): seq<PutCodes>
    requires n <= |es|
  {
    if n == 0 || es[n - 1].ClosesWrite() then [] else
    PutsSince(es, n - 1) + if es[n - 1].WriterPut? then [es[n - 1].put] else []
  }

  /** When that was. */
  function LastClose(es: seq<Event>, n: nat): (t: nat)
    requires n <= |es|
    ensures t <= n
  {
    if n == 0 || es[n - 1].ClosesWrite() then n else LastClose(es, n - 1)
  }

  /** The records committed by the first `n` events: each successful put commits the oldest
      accepted record that has not been put. */
  ghost function CommittedWrites(cs: seq<Config>, es: seq<Event>, n: nat): seq<Accepted>
    requires n <= |es| < |cs|
  {
    if n == 0 then [] else
    CommittedWrites(cs, es, n - 1)
    + var w, p := AcceptedWrites(cs, es, n - 1), PutsSince(es, n - 1);
      if es[n - 1].WriterPut? && es[n - 1].put.Ok() && |p| < |w| then [w[|p|]] else []
  }

  lemma WritesStep(s: State, h: History, e: Event, now: nat)
    requires Enabled(s, e) && Safe(s, e) && (e.WorkerStep? ==> e.worker < |h.ran|)
    ensures var h' := Record(s, h, e, now);
            if e.ClosesWrite() then
              h'.writes == [] && h'.puts == [] && h'.base == h.committed == h'.committed
            else
              && h'.base == h.base
              && h'.writes == h.writes + (if e.ClientWrite? && !s.wdev.Full() then [W.Truncated(e.msg)] else [])
              && h'.puts == h.puts + (if e.WriterPut? then [e.put] else [])
              && h'.committed == h.committed + if e.WriterPut? && e.put.Ok() then [s.writer.record] else []
  {
    hide Frame, Decode, Answer, AfterPut, R.Reply, R.Finish, HeadFrame, W.SlotOf, R.SlotOf, W.Truncated;
    if !OnWritePath(e) {
      OthersLeaveWrites(s, h, e, now);
    }
  }

  lemma NoWritesYet(cs: seq<Config>, es: seq<Event>)
    requires IsRun(cs, es)
    ensures var h := cs[0].h;
            |cs| == |es| + 1 && h.writes == [] && h.puts == [] && h.base == h.committed == []
  {
  }

  lemma WritesAlong(cs: seq<Config>, es: seq<Event>, n: nat)
    requires IsRun(cs, es) && n < |es|
    ensures |cs| == |es| + 1 && (es[n].ClientWrite? ==> |es[n].msg| >= HEADER)
    ensures var h, h' := cs[n].h, cs[n + 1].h;
            if es[n].ClosesWrite() then
              h'.writes == [] && h'.puts == [] && h'.base == h.committed == h'.committed
            else
              && h'.base == h.base
              && h'.writes == h.writes + (if es[n].ClientWrite? && !cs[n].s.wdev.Full() then [W.Truncated(es[n].msg)] else [])
              && h'.puts == h.puts + (if es[n].WriterPut? then [es[n].put] else [])
    ensures es[n].WriterPut? ==> |cs[n].h.puts| < |cs[n].h.writes|
    ensures cs[n + 1].h.committed == cs[n].h.committed
            + if es[n].WriterPut? && es[n].put.Ok() then [cs[n].h.writes[|cs[n].h.puts|]] else []
  {
    WriteAlong(cs, es, n);
    StepAlong(cs, es, n);
    var c, e := cs[n], es[n];
    if e.WriterPut? {
      InFlightIsNext(c.s, c.h);
    }
    hide IsRun, Next, Record, Safe, WriteInv, W.Truncated;
    WritesStep(c.s, c.h, e, n);
  }

  /** What the history says of the writes can be read off the events. */
  lemma {:induction false} WritesAreEvents(cs: seq<Config>, es: seq<Event>, n: nat)
    requires IsRun(cs, es) && n <= |es|
    ensures cs[n].h.writes == AcceptedWrites(cs, es, n) && cs[n].h.puts == PutsSince(es, n)
  {
    NoWritesYet(cs, es);
    hide IsRun, W.Truncated;
    if n > 0 {
      WritesAreEvents(cs, es, n - 1);
      WritesAlong(cs, es, n - 1);
    }
  }

  lemma {:induction false} CommitsAreEvents(cs: seq<Config>, es: seq<Event>, n: nat)
    requires IsRun(cs, es) && n <= |es|
    ensures cs[n].h.committed == CommittedWrites(cs, es, n)
  {
    NoWritesYet(cs, es);
    hide IsRun, W.Truncated, AcceptedWrites, PutsSince;
    if n > 0 {
      CommitsAreEvents(cs, es, n - 1);
      WritesAreEvents(cs, es, n - 1);
      WritesAlong(cs, es, n - 1);
    }
  }

  lemma {:induction false} BaseIsLastClose(cs: seq<Config>, es: seq<Event>, n: nat)
    requires IsRun(cs, es) && n <= |es|
    ensures cs[n].h.base == CommittedWrites(cs, es, LastClose(es, n))
  {
    NoWritesYet(cs, es);
    CommitsAreEvents(cs, es, n);
    hide IsRun, CommittedWrites, AcceptedWrites, PutsSince, W.Truncated;
    if n > 0 {
      WritesAlong(cs, es, n - 1);
      if es[n - 1].ClosesWrite() {
        assert LastClose(es, n) == n;
      } else {
        BaseIsLastClose(cs, es, n - 1);
      }
    }
  }

  lemma LogSplits(s: State, h: History)
    requires WriteInv(s, h)
    ensures s.wdev.Shape() && 0 <= s.wdev.used && |h.puts| <= |h.writes|
    ensures h.writes == h.writes[..|h.puts|] + InFlight(s) + RingRecords(s.wdev)
  {
    hide RingRecords, W.Holds, Kept;
    QueueIsRing(s.wdev, h.writes, h.taken);
    assert h.writes[|h.puts|..h.taken] == InFlight(s);
    assert h.writes == h.writes[..|h.puts|] + h.writes[|h.puts|..h.taken] + h.writes[h.taken..];
  }

  /** The writes accepted since the write device was last closed are, in order: those put, then
      the one in flight, then the decoded contents of the ring. */
  lemma WritesAreInOrder(cs: seq<Config>, es: seq<Event>, n: nat)
    requires IsRun(cs, es) && n <= |es|
    ensures var s, w, p := cs[n].s, AcceptedWrites(cs, es, n), PutsSince(es, n);
            && s.wdev.Shape() && 0 <= s.wdev.used && |p| <= |w|
            && w == w[..|p|] + InFlight(s) + RingRecords(s.wdev)
  {
    assert |cs| == |es| + 1;
    hide IsRun, WriteInv, AcceptedWrites, CommittedWrites, PutsSince, RingRecords;
    WriteAlong(cs, es, n);
    WritesAreEvents(cs, es, n);
    LogSplits(cs[n].s, cs[n].h);
  }

  /**
   In every state, whatever failed before: the committed records are those committed when the
   write device was last closed, then exactly those put since whose puts succeeded, in the order
   they were accepted; and the store is what the committed ones make of the initial store.
   */
  lemma WritesAreALog(cs: seq<Config>, es: seq<Event>, n: nat)
    requires IsRun(cs, es) && n <= |es|
    ensures var w, p := AcceptedWrites(cs, es, n), PutsSince(es, n);
            && |p| <= |w|
            && CommittedWrites(cs, es, n) == CommittedWrites(cs, es, LastClose(es, n)) + Kept(w, p)
    ensures WellFormed(cs[0].s.store) && WellFormed(cs[n].s.store)
    ensures Records(cs[n].s.store) == ApplyAll(Records(cs[0].s.store), CommittedWrites(cs, es, n))
  {
    WriteAlong(cs, es, n);
    StoreAlong(cs, es, n);
    WritesAreEvents(cs, es, n);
    CommitsAreEvents(cs, es, n);
    BaseIsLastClose(cs, es, n);
  }

  /** While puts succeed, nothing accepted is lost, reordered or duplicated on its way to the store. */
  lemma NoWriteIsLost(cs: seq<Config>, es: seq<Event>, n: nat)
    requires IsRun(cs, es) && n <= |es| && AllOk(PutsSince(es, n))
    ensures var s := cs[n].s;
            && s.wdev.Shape() && 0 <= s.wdev.used
            && CommittedWrites(cs, es, LastClose(es, n)) + AcceptedWrites(cs, es, n)
               == CommittedWrites(cs, es, n) + InFlight(s) + RingRecords(s.wdev)
  {
    assert |cs| == |es| + 1;
    hide IsRun, AcceptedWrites, CommittedWrites, PutsSince, RingRecords, ApplyAll, Records, WellFormed;
    WritesAreALog(cs, es, n);
    WritesAreInOrder(cs, es, n);
    var w, p := AcceptedWrites(cs, es, n), PutsSince(es, n);
    AllKept(w, p);
    Reassociate(CommittedWrites(cs, es, LastClose(es, n)), w[..|p|], InFlight(cs[n].s), RingRecords(cs[n].s.wdev));
  }

  lemma Reassociate(a: seq<Accepted>, b: seq<Accepted>, c: seq<Accepted>, d: seq<Accepted>)
    ensures a + (b + c + d) == (a + b) + c + d
  {
  }

  /** Step by step: a record is appended, its value cut to 200 bytes, or dropped exactly when the
      ring is full; a read hands the oldest record to the daemon. */
  lemma WriteRingStep(cs: seq<Config>, es: seq<Event>, n: nat)
    requires IsRun(cs, es) && n < |es|
    ensures var s, s' := cs[n].s, cs[n + 1].s;
            && s.wdev.Shape() && s'.wdev.Shape() && 0 <= s.wdev.used && 0 <= s'.wdev.used
            && (es[n].WriterTake? ==> RingRecords(s.wdev) != [] && s'.writer == Putting(RingRecords(s.wdev)[0]))
            && RingRecords(s'.wdev) ==
               match es[n]
               case ClientWrite(msg) =>
                 if |RingRecords(s.wdev)| == s.wdev.Size() || |msg| < HEADER then RingRecords(s.wdev)
                 else RingRecords(s.wdev) + [W.Truncated(msg)]
               case WriterTake => RingRecords(s.wdev)[1..]
               case WriterPut(_, c) => if c.Aborts() then [] else RingRecords(s.wdev)
               case WriterRelease => []
               case _ => RingRecords(s.wdev)
  {
    WriteAlong(cs, es, n);
    WriteAlong(cs, es, n + 1);
    QueueIsRing(cs[n].s.wdev, cs[n].h.writes, cs[n].h.taken);
    QueueIsRing(cs[n + 1].s.wdev, cs[n + 1].h.writes, cs[n + 1].h.taken);
    StepAlong(cs, es, n);
    WritesMove(cs[n].s, cs[n].h, es[n], n);
  }

  lemma WritesMove(s: State, h: History, e: Event, now: nat)
    requires Enabled(s, e) && Safe(s, e) && (e.WorkerStep? ==> e.worker < |h.ran|)
    requires h.taken <= |h.writes| && (e.WriterTake? ==> h.taken < |h.writes|)
    ensures var h' := Record(s, h, e, now);
            && h'.taken <= |h'.writes|
            && h'.writes[h'.taken..] ==
               match e
               case ClientWrite(msg) =>
                 if s.wdev.Full() then h.writes[h.taken..] else h.writes[h.taken..] + [W.Truncated(msg)]
               case WriterTake => h.writes[h.taken..][1..]
               case WriterPut(_, c) => if c.Aborts() then [] else h.writes[h.taken..]
               case WriterRelease => []
               case _ => h.writes[h.taken..]
    ensures e.WriterTake? ==> Record(s, h, e, now).taken == h.taken + 1 && Record(s, h, e, now).writes == h.writes
  {
    hide Next, NewWork, IsFound, Answer, ParseHeader, HeadFrame, R.SlotOf, W.SlotOf, W.Truncated, Decode;
  }
}
