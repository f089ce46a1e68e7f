/** What every step of the pipeline keeps. */
module Invariants {
  import opened Bytes
  import opened Codec
  import opened Rings
  import opened WorkQueues
  import opened Store
  import opened System
  import W = WritePersistence
  import R = ReadPersistence

  /** The records the daemon has taken but not yet put. */
  function InFlight(s: State): seq<Accepted> {
    match s.writer
    case Idle => []
    case Putting(a) => [a]
  }

  /** The write ring holds the accepted records not yet taken; all taken before the one in flight
      have been put, and the committed ones are those of them whose puts succeeded. */
  ghost predicate WriteInv(s: State, h: History) {
    && s.wdev.working
    && W.Queue(s.wdev, h.writes, h.taken)
    && AllFit(h.writes)
    && |h.puts| + |InFlight(s)| == h.taken
    && (s.writer.Putting? ==> s.writer.record == h.writes[|h.puts|])
    && h.committed == h.base + Kept(h.writes, h.puts)
  }

  /** The store is what the committed writes make of the initial one. */
  ghost predicate StoreInv(store0: Db, s: State, h: History) {
    && WellFormed(store0)
    && WellFormed(s.store)
    && Records(s.store) == ApplyAll(Records(store0), h.committed)
  }

  /** The read ring holds the unanswered requests, and the read thread works on the first. */
  ghost predicate ReadInv(s: State, h: History) {
    && s.rdev.working
    && R.Queue(s.rdev, h.asks, |h.answers|)
    && R.Retained(s.rdev, h.answers, h.cleared)
    && (!s.reader.Ready? ==> |h.answers| < |h.asks|)
    && match s.reader
       case Ready => true
       case Looking(id, iid) => id == s.rdev.first && iid == R.Key(h.asks[|h.answers|])
       case Replying(f) =>
         && |f| >= 4
         && GetI32(f, 0) == s.rdev.first
         && Decodable(f, 4)
         && Decode(f, 4).Fits()
  }

  /** Jobs are shared out fairly and name existing slots. */
  ghost predicate WorkInv(s: State, h: History) {
    && s.rdev.Shape()
    && RoundRobin(s.pool, h.jobs, h.ran)
    && (forall w, m :: 0 <= w < |s.pool.queues| && 0 <= m < |s.pool.queues[w]| ==>
          s.pool.queues[w][m].slot < s.rdev.Size())
  }

  ghost predicate LocalInv(store0: Db, c: Config) {
    && WriteInv(c.s, c.h)
    && StoreInv(store0, c.s, c.h)
    && ReadInv(c.s, c.h)
    && WorkInv(c.s, c.h)
  }

  // ---------- nothing undefined happens ----------

  lemma SafeTake(s: State, h: History)
    requires WriteInv(s, h) && s.rdev.Shape() && s.pool.Shape() && Enabled(s, WriterTake)
    ensures Safe(s, WriterTake) <==> !Overruns(h, WriterTake)
  {
    hide AllFit, Kept;
    W.TakeFromQueue(s.wdev, h.writes, h.taken);
    W.HeadFrameDecodes(s.wdev, h.writes[h.taken], []);
    assert HeadFrame(s.wdev) + [] == HeadFrame(s.wdev);
  }

  lemma SafePeek(s: State, h: History)
    requires ReadInv(s, h) && s.wdev.Shape() && s.pool.Shape() && Enabled(s, ReaderPeek)
    ensures Safe(s, ReaderPeek) <==> !Overruns(h, ReaderPeek)
  {
    hide R.Retained;
    R.HeadIsLive(s.rdev, h.asks, |h.answers|);
    R.PeekQueue(s.rdev, h.asks, |h.answers|, []);
    assert HeadFrame(s.rdev) + [] == HeadFrame(s.rdev);
  }

  lemma SafeGet(s: State, h: History, e: Event)
    requires ReadInv(s, h) && WellFormed(s.store) && s.wdev.Shape() && s.pool.Shape()
    requires e.ReaderGet? && Enabled(s, e)
    ensures Safe(s, e)
  {
    hide R.Retained, HeadFrame;
    AnswerFits(s.store, s.reader.iid, e.get);
  }

  lemma SafeElse(s: State, h: History, e: Event)
    requires WriteInv(s, h) && ReadInv(s, h) && WorkInv(s, h) && Enabled(s, e)
    requires !e.WriterTake? && !e.ReaderPeek? && !e.ReaderGet?
    ensures Safe(s, e) && !Overruns(h, e)
    ensures e.WorkerStep? ==> e.worker < |h.ran|
  {
    hide R.Retained, HeadFrame, Answer, Kept;
  }

  /** A step is defined unless it overruns the receive buffer. */
  lemma SafeHere(store0: Db, c: Config, e: Event)
    requires LocalInv(store0, c) && Enabled(c.s, e)
    ensures Safe(c.s, e) <==> !Overruns(c.h, e)
    ensures e.WorkerStep? ==> e.worker < |c.h.ran|
  {
    var s, h := c.s, c.h;
    assert s.wdev.Shape() && s.rdev.Shape() && s.pool.Shape();
    hide WriteInv, ReadInv, WorkInv, Safe, WellFormed;
    match e {
      case WriterTake => SafeTake(s, h);
      case ReaderPeek => SafePeek(s, h);
      case ReaderGet(_, _) => SafeGet(s, h, e);
      case _ => SafeElse(s, h, e);
    }
  }

  // ---------- the write path ----------

  predicate OnWritePath(e: Event) {
    e.ClientWrite? || e.WriterTake? || e.WriterPut? || e.WriterRelease?
  }

  lemma OthersLeaveWrites(s: State, h: History, e: Event, now: nat)
    requires Enabled(s, e) && Safe(s, e) && (e.WorkerStep? ==> e.worker < |h.ran|) && !OnWritePath(e)
    ensures var s', h' := Next(s, e), Record(s, h, e, now);
            && s'.wdev == s.wdev && s'.writer == s.writer && s'.store == s.store
            && h'.writes == h.writes && h'.taken == h.taken && h'.puts == h.puts
            && h'.committed == h.committed && h'.base == h.base
  {
    hide Frame, Decode, Answer, AfterPut, R.Reply, R.Finish, HeadFrame, W.SlotOf, R.SlotOf, W.Truncated;
  }

  lemma ClientWriteStep(s: State, h: History, msg: seq<byte>, now: nat)
    requires WriteInv(s, h) && Enabled(s, ClientWrite(msg)) && Safe(s, ClientWrite(msg))
    ensures WriteInv(Next(s, ClientWrite(msg)), Record(s, h, ClientWrite(msg), now))
  {
    hide W.Holds, W.SlotOf, Kept;
    W.AddToQueue(s.wdev, h.writes, h.taken, msg);
    KeptOfLonger(h.writes, [W.Truncated(msg)], h.puts);
  }

  lemma TakeStep(s: State, h: History, now: nat)
    requires WriteInv(s, h) && Enabled(s, WriterTake) && Safe(s, WriterTake)
    ensures WriteInv(Next(s, WriterTake), Record(s, h, WriterTake, now))
  {
    W.TakeFromQueue(s.wdev, h.writes, h.taken);
    W.HeadFrameDecodes(s.wdev, h.writes[h.taken], []);
    assert HeadFrame(s.wdev) + [] == HeadFrame(s.wdev);
  }

  lemma PutStep(s: State, h: History, j: Junk, c: PutCodes, now: nat)
    requires WriteInv(s, h) && Enabled(s, WriterPut(j, c)) && Safe(s, WriterPut(j, c))
    ensures WriteInv(Next(s, WriterPut(j, c)), Record(s, h, WriterPut(j, c), now))
  {
    if c.Aborts() {
      CloseStep(s, h);
    } else {
      InFlightIsNext(s, h);
      hide W.Queue, Kept, AfterPut, Decode, HeadFrame, R.Reply;
      KeptNext(h.writes, h.puts, c);
      Regroup(h.base, Kept(h.writes, h.puts), if c.Ok() then [s.writer.record] else []);
    }
  }

  lemma Regroup(a: seq<Accepted>, b: seq<Accepted>, c: seq<Accepted>)
    ensures a + (b + c) == a + b + c
  {
  }

  lemma InFlightIsNext(s: State, h: History)
    requires WriteInv(s, h) && s.writer.Putting?
    ensures h.taken == |h.puts| + 1 <= |h.writes| && s.writer.record == h.writes[|h.puts|]
  {
  }

  lemma CloseStep(s: State, h: History)
    requires WriteInv(s, h)
    ensures WriteInv(s.(wdev := s.wdev.Release(), writer := Idle), CloseWrite(h))
  {
    W.ReleaseQueue(s.wdev, h.writes, h.taken);
    assert h.committed + [] == h.committed;
  }

  lemma WriteStep(s: State, h: History, e: Event, now: nat)
    requires WriteInv(s, h) && Enabled(s, e) && Safe(s, e) && (e.WorkerStep? ==> e.worker < |h.ran|)
    ensures WriteInv(Next(s, e), Record(s, h, e, now))
  {
    if !OnWritePath(e) {
      OthersLeaveWrites(s, h, e, now);
    } else {
      match e {
        case ClientWrite(msg) => ClientWriteStep(s, h, msg, now);
        case WriterTake => TakeStep(s, h, now);
        case WriterPut(j, c) => PutStep(s, h, j, c, now);
        case WriterRelease => CloseStep(s, h);
      }
    }
  }

  lemma StoreKept(s: State, h: History, e: Event, now: nat)
    requires Enabled(s, e) && Safe(s, e) && (e.WorkerStep? ==> e.worker < |h.ran|) && !e.WriterPut?
    ensures Next(s, e).store == s.store && Record(s, h, e, now).committed == h.committed
  {
    hide Frame, Decode, Answer, R.Reply, R.Finish, HeadFrame, W.SlotOf, R.SlotOf, W.Truncated;
  }

  lemma StorePut(s: State, h: History, e: Event, now: nat)
    requires e.WriterPut? && Enabled(s, e) && Safe(s, e)
    ensures Next(s, e).store == AfterPut(s.store, s.writer.record, e.junk, e.put)
    ensures Record(s, h, e, now).committed == h.committed + if e.put.Ok() then [s.writer.record] else []
  {
    hide Encode;
  }

  lemma StoreStep(store0: Db, s: State, h: History, e: Event, now: nat)
    requires WriteInv(s, h) && StoreInv(store0, s, h)
    requires Enabled(s, e) && Safe(s, e) && (e.WorkerStep? ==> e.worker < |h.ran|)
    ensures StoreInv(store0, Next(s, e), Record(s, h, e, now))
  {
    if e.WriterPut? {
      InFlightIsNext(s, h);
      assert s.writer.record.Fits();
      hide Next, Record, Enabled, Safe, WriteInv, WellFormed, Records, AfterPut, ApplyAll;
      StorePut(s, h, e, now);
      PutsAreApply(s.store, Records(store0), h.committed, s.writer.record, e.junk, e.put);
    } else {
      hide Next, Record, Enabled, Safe, WriteInv, WellFormed, Records, ApplyAll;
      StoreKept(s, h, e, now);
    }
  }

  // ---------- the read path ----------

  /** A slot asks for what the message asked for, and can be sent if the message's length allows;
      if the message announced no more value than it had, the slot decodes like the message. */
  lemma StoredLookupKeeps(msg: seq<byte>, old_: seq<byte>)
    requires HEADER <= |msg| <= SLOT == |old_|
    ensures R.Announces(R.SlotOf(msg, old_)) <==> 0 <= GetI32(msg, 24) <= MAX_VALUE
    ensures R.Key(R.SlotOf(msg, old_)) == GetU32(msg, 4)
    ensures Decodable(msg, 0) ==>
              Decodable(R.SlotOf(msg, old_), 0) && Decode(R.SlotOf(msg, old_), 0) == Decode(msg, 0)
  {
  }

  lemma LookupStep(s: State, h: History, msg: seq<byte>, gotJob: bool, now: nat)
    requires ReadInv(s, h)
    requires var e := ClientLookup(msg, gotJob); Enabled(s, e) && Safe(s, e)
    ensures var e := ClientLookup(msg, gotJob); ReadInv(Next(s, e), Record(s, h, e, now))
  {
    StoredLookupKeeps(msg, s.rdev.msgs[s.rdev.current]);
    R.AddToQueue(s.rdev, h.asks, |h.answers|, msg);
    R.SameResponses(s.rdev, R.AddMessage(s.rdev, msg), h.answers, h.cleared);
  }

  lemma WorkerKeepsRing(s: State, h: History, w: nat, now: nat)
    requires ReadInv(s, h) && Enabled(s, WorkerStep(w)) && Safe(s, WorkerStep(w)) && w < |h.ran|
    ensures ReadInv(Next(s, WorkerStep(w)), Record(s, h, WorkerStep(w), now))
  {
    var slot := s.pool.queues[w][0].slot;
    R.FinishKeeps(s.rdev, h.asks, |h.answers|, slot);
    R.SameResponses(s.rdev, R.Finish(s.rdev, slot), h.answers, h.cleared);
  }

  lemma ReplyStep(s: State, h: History, c: R.Copies, now: nat)
    requires ReadInv(s, h) && Enabled(s, ReaderReply(c)) && Safe(s, ReaderReply(c))
    ensures ReadInv(Next(s, ReaderReply(c)), Record(s, h, ReaderReply(c), now))
  {
    var f := s.reader.frame;
    if R.Delivers(s.rdev, c) {
      R.DeliverHead(s.rdev, h.asks, h.answers, h.cleared, f, c, h.gotAt);
    } else {
      R.FailHead(s.rdev, h.asks, h.answers, h.cleared, f, c);
    }
  }

  predicate OnReadPath(e: Event) {
    e.ClientLookup? || e.WorkerStep? || e.ReaderPeek? || e.ReaderGet? || e.ReaderReply? || e.ClosesRead()
  }

  lemma OthersLeaveReads(s: State, h: History, e: Event, now: nat)
    requires Enabled(s, e) && Safe(s, e) && !OnReadPath(e)
    ensures var s', h' := Next(s, e), Record(s, h, e, now);
            && s'.rdev == s.rdev && s'.reader == s.reader
            && h'.asks == h.asks && h'.answers == h.answers && h'.cleared == h.cleared
  {
    hide Frame, Decode, Answer, AfterPut, R.Reply, R.Finish, HeadFrame, W.SlotOf, R.SlotOf, W.Truncated;
  }

  lemma PeekStep(s: State, h: History, now: nat)
    requires ReadInv(s, h) && Enabled(s, ReaderPeek) && Safe(s, ReaderPeek)
    ensures ReadInv(Next(s, ReaderPeek), Record(s, h, ReaderPeek, now))
  {
    R.PeekQueue(s.rdev, h.asks, |h.answers|, []);
    assert HeadFrame(s.rdev) + [] == HeadFrame(s.rdev);
  }

  lemma GetStep(s: State, h: History, j: Junk, c: GetCodes, now: nat)
    requires ReadInv(s, h) && WellFormed(s.store) && Enabled(s, ReaderGet(j, c)) && Safe(s, ReaderGet(j, c))
    ensures ReadInv(Next(s, ReaderGet(j, c)), Record(s, h, ReaderGet(j, c), now))
  {
    var a := Answer(s.store, s.reader.iid, c);
    AnswerFits(s.store, s.reader.iid, c);
    R.FrameIsReply(s.rdev, s.reader.id, a, j, R.ALL_COPIED);
  }

  lemma ReadUntouched(s: State, h: History, e: Event, now: nat)
    requires ReadInv(s, h) && Enabled(s, e) && Safe(s, e) && !OnReadPath(e)
    ensures ReadInv(Next(s, e), Record(s, h, e, now))
  {
    OthersLeaveReads(s, h, e, now);
    hide Next, Record, Safe, Enabled;
  }

  lemma ReadClosed(s: State, h: History, e: Event, now: nat)
    requires ReadInv(s, h) && Enabled(s, e) && Safe(s, e) && e.ClosesRead()
    ensures ReadInv(Next(s, e), Record(s, h, e, now))
  {
    hide HeadFrame, Answer, Frame, Decode, R.Reply;
  }

  lemma ReadStep(store0: Db, s: State, h: History, e: Event, now: nat)
    requires ReadInv(s, h) && StoreInv(store0, s, h)
    requires Enabled(s, e) && Safe(s, e) && (e.WorkerStep? ==> e.worker < |h.ran|)
    ensures ReadInv(Next(s, e), Record(s, h, e, now))
  {
    if !OnReadPath(e) {
      ReadUntouched(s, h, e, now);
    } else {
      hide ReadInv, Next, Record, Enabled, Safe;
      match e {
        case ClientLookup(msg, gotJob) => LookupStep(s, h, msg, gotJob, now);
        case WorkerStep(w) => WorkerKeepsRing(s, h, w, now);
        case ReaderPeek => PeekStep(s, h, now);
        case ReaderGet(j, c) => GetStep(s, h, j, c, now);
        case ReaderReply(c) => ReplyStep(s, h, c, now);
        case ReaderRelease => ReadClosed(s, h, e, now);
        case WriterPut(_, _) => ReadClosed(s, h, e, now);
      }
    }
  }

  // ---------- the workers ----------

  lemma SubmitStep(s: State, h: History, msg: seq<byte>, gotJob: bool, now: nat)
    requires var e := ClientLookup(msg, gotJob); WorkInv(s, h) && Enabled(s, e) && Safe(s, e)
    ensures var e := ClientLookup(msg, gotJob); WorkInv(Next(s, e), Record(s, h, e, now))
  {
    if !s.rdev.Full() && gotJob {
      var job := NewWork(s, msg);
      AddWorkIsFair(s.pool, h.jobs, h.ran, job);
    }
  }

  lemma RunStep(s: State, h: History, w: nat, now: nat)
    requires WorkInv(s, h) && Enabled(s, WorkerStep(w)) && Safe(s, WorkerStep(w)) && w < |h.ran|
    ensures WorkInv(Next(s, WorkerStep(w)), Record(s, h, WorkerStep(w), now))
  {
    TakeWorkIsFair(s.pool, h.jobs, h.ran, w);
  }

  lemma OthersLeaveWorkers(s: State, h: History, e: Event, now: nat)
    requires Enabled(s, e) && Safe(s, e) && !e.WorkerStep? && !e.ClientLookup? && !e.TestOpen?
    ensures var s', h' := Next(s, e), Record(s, h, e, now);
            && s'.rdev.Shape() && s'.rdev.Size() == s.rdev.Size() && s'.pool == s.pool
            && s'.found == s.found && s'.received == s.received
            && h'.jobs == h.jobs && h'.ran == h.ran
  {
    hide Frame, Decode, Answer, AfterPut, HeadFrame, W.SlotOf, R.SlotOf, W.Truncated;
  }

  lemma WorkStep(s: State, h: History, e: Event, now: nat)
    requires WorkInv(s, h) && Enabled(s, e) && Safe(s, e) && (e.WorkerStep? ==> e.worker < |h.ran|)
    ensures WorkInv(Next(s, e), Record(s, h, e, now))
  {
    if e.ClientLookup? {
      SubmitStep(s, h, e.msg, e.gotJob, now);
    } else if e.WorkerStep? {
      RunStep(s, h, e.worker, now);
    } else if !e.TestOpen? {
      OthersLeaveWorkers(s, h, e, now);
    }
  }

  lemma LocalStep(store0: Db, c: Config, e: Event, now: nat, c': Config)
    requires LocalInv(store0, c) && Step(c, e, now, c') && !Overruns(c.h, e)
    ensures Safe(c.s, e) && (e.WorkerStep? ==> e.worker < |c.h.ran|)
    ensures c' == Config(Next(c.s, e), Record(c.s, c.h, e, now))
    ensures LocalInv(store0, c')
  {
    SafeHere(store0, c, e);
    WriteStep(c.s, c.h, e, now);
    StoreStep(store0, c.s, c.h, e, now);
    ReadStep(store0, c.s, c.h, e, now);
    WorkStep(c.s, c.h, e, now);
  }

  lemma InitInv(c: Config)
    requires Init(c)
    ensures LocalInv(c.s.store, c)
  {
  }

  /** Event `e` is defined at `c` and leads to exactly `c'`. */
  ghost predicate Defined(c: Config, e: Event, now: nat, c': Config) {
    && Enabled(c.s, e)
    && Safe(c.s, e)
    && (e.WorkerStep? ==> e.worker < |c.h.ran|)
    && c' == Config(Next(c.s, e), Record(c.s, c.h, e, now))
  }

  /** The invariants hold at every moment of every run, and no step of a run is undefined. */
  lemma {:induction false} InvAlong(cs: seq<Config>, es: seq<Event>, n: nat)
    requires IsRun(cs, es) && n <= |es|
    ensures LocalInv(cs[0].s.store, cs[n])
    ensures n > 0 ==> Defined(cs[n - 1], es[n - 1], n - 1, cs[n])
  {
    if n == 0 {
      InitInv(cs[0]);
    } else {
      InvAlong(cs, es, n - 1);
      assert Step(cs[n - 1], es[n - 1], n - 1, cs[n - 1 + 1]);
      LocalStep(cs[0].s.store, cs[n - 1], es[n - 1], n - 1, cs[n]);
    }
  }

  // ---------- the same, one part at a time ----------

  lemma WriteAlong(cs: seq<Config>, es: seq<Event>, n: nat)
    requires IsRun(cs, es) && n <= |es|
    ensures WriteInv(cs[n].s, cs[n].h)
  {
    InvAlong(cs, es, n);
  }

  lemma StoreAlong(cs: seq<Config>, es: seq<Event>, n: nat)
    requires IsRun(cs, es) && n <= |es|
    ensures StoreInv(cs[0].s.store, cs[n].s, cs[n].h)
  {
    InvAlong(cs, es, n);
  }

  lemma ReadAlong(cs: seq<Config>, es: seq<Event>, n: nat)
    requires IsRun(cs, es) && n <= |es|
    ensures ReadInv(cs[n].s, cs[n].h)
  {
    InvAlong(cs, es, n);
  }

  lemma WorkAlong(cs: seq<Config>, es: seq<Event>, n: nat)
    requires IsRun(cs, es) && n <= |es|
    ensures WorkInv(cs[n].s, cs[n].h)
  {
    InvAlong(cs, es, n);
  }

  lemma StepAlong(cs: seq<Config>, es: seq<Event>, n: nat)
    requires IsRun(cs, es) && n < |es|
    ensures Defined(cs[n], es[n], n, cs[n + 1])
  {
    InvAlong(cs, es, n + 1);
  }

  lemma SizeStep(s: State, e: Event)
    requires Enabled(s, e) && Safe(s, e)
    ensures Next(s, e).rdev.Size() == s.rdev.Size()
  {
    hide Frame, Decode, Answer, AfterPut, HeadFrame, W.SlotOf, R.SlotOf, W.Truncated;
  }

  /** What a step may do to the parts of the history that only grow. */
  lemma HistoryStep(s: State, h: History, e: Event, now: nat)
    requires Enabled(s, e) && Safe(s, e) && (e.WorkerStep? ==> e.worker < |h.ran|)
    ensures var h' := Record(s, h, e, now);
            && h.committed <= h'.committed
            && (!e.ClosesRead() ==> h'.since == h.since && h.asks <= h'.asks && h.answers <= h'.answers)
            && (e.ClosesRead() ==> h'.since == now + 1)
  {
    hide Frame, Decode, Answer, AfterPut, R.Reply, R.Finish, HeadFrame, W.SlotOf, R.SlotOf, W.Truncated;
  }

  lemma HistoryAlong(cs: seq<Config>, es: seq<Event>, n: nat)
    requires IsRun(cs, es) && n < |es|
    ensures |cs| == |es| + 1
    ensures var h, h' := cs[n].h, cs[n + 1].h;
            && h.committed <= h'.committed
            && (!es[n].ClosesRead() ==> h'.since == h.since && h.asks <= h'.asks && h.answers <= h'.answers)
            && (es[n].ClosesRead() ==> h'.since == n + 1)
  {
    hide Next, Record, Safe, Enabled;
    StepAlong(cs, es, n);
    HistoryStep(cs[n].s, cs[n].h, es[n], n);
  }
}
