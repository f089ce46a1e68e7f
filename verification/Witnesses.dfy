/** Executions that show what the code does not promise. */
module Witnesses {
  import opened Bytes
  import opened Codec
  import opened Rings
  import opened WorkQueues
  import opened Store
  import opened System
  import opened Invariants
  import opened Executions
  import opened SlotTheorems
  import opened Accounts
  import opened WorkerTheorems
  import R = ReadPersistence

  /** Devices of `size` slots, freshly built. */
  function NewDevice(size: nat): Device {
    Device(true, 0, 0, 0, seq(size, _ => Zeros(SLOT)),
           seq(size, _ => Callback(0, 0, false, Response(ZERO.header, Zeros(MAX_VALUE)))))
  }

  function Start(size: nat, workers: nat, store: Db): Config {
    Config(State(NewDevice(size), NewDevice(size), store, Idle, Ready, Pool(0, seq(workers, _ => [])), 0, 0),
           History([], 0, [], [], [], [], [], 0, 0, false, [], seq(workers, _ => [])))
  }

  lemma StartIsInit(size: nat, workers: nat, store: Db)
    requires 0 < size < 0x8000_0000 && 0 < workers && WellFormed(store)
    ensures Init(Start(size, workers, store))
  {
  }

  /** A record of 237 bytes, read by the daemon, is written beyond its receive buffer. */
  lemma OneByteTooLong() returns (c: Config, c': Config)
    ensures IsExecution([c, c'], [ClientWrite(Zeros(237))])
    ensures Enabled(c'.s, WriterTake) && !Safe(c'.s, WriterTake)
  {
    hide Start, Init, IsExecution, Enabled, Safe, HeadFrame;
    c := Start(1, 1, map[]);
    StartIsInit(1, 1, map[]);
    c' := FirstWriteOverruns(c, Zeros(237));
  }

  // ---------- runs, step by step ----------

  function Last(cs: seq<Config>): Config
    requires cs != []
  {
    cs[|cs| - 1]
  }

  lemma RunGoesOn(cs: seq<Config>, es: seq<Event>, e: Event, c': Config)
    requires IsRun(cs, es) && !Overruns(Last(cs).h, e) && Defined(Last(cs), e, |es|, c')
    ensures IsRun(cs + [c'], es + [e])
  {
    hide Next, Record, Safe, Enabled, Overruns, Init;
    assert Step(Last(cs), e, |es|, c');
  }

  lemma DefinedAtLast(cs: seq<Config>, es: seq<Event>, e: Event)
    requires IsRun(cs, es) && Enabled(Last(cs).s, e) && !Overruns(Last(cs).h, e)
    ensures Safe(Last(cs).s, e) && (e.WorkerStep? ==> e.worker < |Last(cs).h.ran|)
  {
    hide Next, Record, Safe, Enabled, Overruns, LocalInv;
    InvAlong(cs, es, |es|);
    SafeHere(cs[0].s.store, Last(cs), e);
  }

  /** A run goes on with any event that is enabled and does not overrun. */
  lemma Extend(cs: seq<Config>, es: seq<Event>, e: Event) returns (cs': seq<Config>, es': seq<Event>)
    requires IsRun(cs, es) && Enabled(Last(cs).s, e) && !Overruns(Last(cs).h, e)
    ensures IsRun(cs', es') && es' == es + [e] && |cs'| == |cs| + 1 && cs <= cs'
    ensures Defined(Last(cs), e, |es|, Last(cs'))
    ensures ReadInv(Last(cs').s, Last(cs').h)
  {
    DefinedAtLast(cs, es, e);
    hide IsRun, Next, Record, Safe, Enabled, Overruns, ReadInv, StoreInv;
    var c' := Config(Next(Last(cs).s, e), Record(Last(cs).s, Last(cs).h, e, |es|));
    cs', es' := cs + [c'], es + [e];
    RunGoesOn(cs, es, e, c');
    AtLast(cs', es');
  }

  lemma AtLast(cs: seq<Config>, es: seq<Event>)
    requires IsRun(cs, es)
    ensures ReadInv(Last(cs).s, Last(cs).h) && WellFormed(Last(cs).s.store)
  {
    ReadAlong(cs, es, |es|);
    StoreAlong(cs, es, |es|);
  }

  /** A request for `iid`, without a value. */
  function Request(iid: u32): (msg: seq<byte>)
    ensures |msg| == HEADER
  {
    Encode(Accepted(Header(0, iid, 0, 0, 0, 0), []), Zeros(16))
  }

  lemma RequestAsks(iid: u32, old_: seq<byte>)
    requires |old_| == SLOT
    ensures GetU32(Request(iid), 4) == iid && GetI32(Request(iid), 24) == 0
    ensures R.Key(R.SlotOf(Request(iid), old_)) == iid && GetI32(R.SlotOf(Request(iid), old_), 24) == 0
  {
    var a := Accepted(Header(0, iid, 0, 0, 0, 0), []);
    DecodeEncode([], a, Zeros(16), []);
    assert [] + Request(iid) + [] == Request(iid);
    assert ParseHeader(Request(iid), 0) == a.header;
    StoredLookupKeeps(Request(iid), old_);
    SlotLength(Request(iid), old_);
  }

  lemma RequestEnabled(s: State, iid: u32)
    ensures Enabled(s, ClientLookup(Request(iid), true))
    ensures forall h :: !Overruns(h, ClientLookup(Request(iid), true))
  {
    RequestAsks(iid, Zeros(SLOT));
  }

  /** From `c0` only `job` was submitted, and none was run. */
  ghost predicate Submitted(c0: Config, c: Config, job: Work) {
    && c0.s.pool.Shape() && c.s.pool == AddWork(c0.s.pool, job)
    && c.h.jobs == c0.h.jobs + [job] && c.h.ran == c0.h.ran
  }

  /** From `c0`, where the ring was empty, a lookup of `iid` was added and not yet answered. */
  ghost predicate Asked(c0: Config, c: Config, iid: u32) {
    var d, d', h := c0.s.rdev, c.s.rdev, c.h;
    && d.Shape() && d'.Shape() && d'.Size() == d.Size()
    && d'.used == 1 && d'.first == d.current && d'.current == (d.current + 1) % d.Size()
    && !d'.cbs[d.current].isDone
    && c.s.store == c0.s.store && c.s.found == c0.s.found
    && Submitted(c0, c, Work(d.current, iid))
    && |h.asks| == |h.answers| + 1 && |h.asks[|h.answers|]| == SLOT
    && R.Key(h.asks[|h.answers|]) == iid && GetI32(h.asks[|h.answers|], 24) == 0
  }

  lemma Ask(c0: Config, iid: u32, now: nat)
    requires ReadInv(c0.s, c0.h) && c0.s.reader.Ready? && c0.s.rdev.used == 0
    requires var e := ClientLookup(Request(iid), true); Enabled(c0.s, e) && Safe(c0.s, e)
    ensures var e := ClientLookup(Request(iid), true);
            var c := Config(Next(c0.s, e), Record(c0.s, c0.h, e, now));
            && Asked(c0, c, iid) && Enabled(c.s, ReaderPeek) && !Overruns(c.h, ReaderPeek)
  {
    hide R.SlotOf, Request, GetU32, GetI32;
    RequestAsks(iid, c0.s.rdev.msgs[c0.s.rdev.current]);
  }

  lemma StillAsked(c0: Config, c: Config, c': Config, iid: u32)
    requires Asked(c0, c, iid)
    requires c'.s.rdev == c.s.rdev && c'.s.store == c.s.store && c'.s.found == c.s.found && c'.s.pool == c.s.pool
    requires c'.h.asks == c.h.asks && c'.h.answers == c.h.answers && c'.h.jobs == c.h.jobs && c'.h.ran == c.h.ran
    ensures Asked(c0, c', iid)
  {
  }

  lemma PeekChanges(s: State, h: History, now: nat)
    requires Enabled(s, ReaderPeek) && Safe(s, ReaderPeek)
    ensures Next(s, ReaderPeek) == s.(reader := Next(s, ReaderPeek).reader) && Next(s, ReaderPeek).reader.Looking?
    ensures Record(s, h, ReaderPeek, now) == h
  {
    hide HeadFrame, GetI32, GetU32;
  }

  lemma AskedIid(c0: Config, c: Config, iid: u32)
    requires Asked(c0, c, iid) && ReadInv(c.s, c.h) && c.s.reader.Looking?
    ensures c.s.reader.iid == iid
  {
    hide R.Queue, R.Retained, GetU32, GetI32;
  }

  lemma Peeked(c0: Config, c: Config, iid: u32, now: nat)
    requires Asked(c0, c, iid) && ReadInv(c.s, c.h) && Enabled(c.s, ReaderPeek) && Safe(c.s, ReaderPeek)
    ensures var c' := Config(Next(c.s, ReaderPeek), Record(c.s, c.h, ReaderPeek, now));
            && Asked(c0, c', iid) && c'.s.reader.Looking? && c'.s.reader.iid == iid
  {
    hide Next, Record, Enabled, Safe, Asked, ReadInv;
    var c' := Config(Next(c.s, ReaderPeek), Record(c.s, c.h, ReaderPeek, now));
    PeekChanges(c.s, c.h, now);
    StillAsked(c0, c, c', iid);
    PeekStep(c.s, c.h, now);
    AskedIid(c0, c', iid);
  }

  lemma GetChanges(s: State, h: History, e: Event, now: nat)
    requires e.ReaderGet? && Enabled(s, e) && Safe(s, e)
    ensures Next(s, e) == s.(reader := Replying(Frame(s.reader.id, Answer(s.store, s.reader.iid, e.get), e.junk)))
    ensures Record(s, h, e, now) == h.(gotAt := now)
  {
    hide Frame, Decode, GetI32, GetU32;
  }

  lemma AskedStore(c0: Config, c: Config, iid: u32, get: GetCodes)
    requires Asked(c0, c, iid) && WellFormed(c0.s.store) && iid in c0.s.store && get.Ok()
    ensures c.s.store == c0.s.store && Decodable(c.s.store[iid], 0)
    ensures var a := Answer(c.s.store, iid, get);
            a == Decode(c0.s.store[iid], 0) && a.Fits()
  {
    hide Asked, GetI32, GetU32;
    AskedKeepsStore(c0, c, iid);
    AnswerFits(c.s.store, iid, get);
  }

  lemma AskedKeepsStore(c0: Config, c: Config, iid: u32)
    requires Asked(c0, c, iid)
    ensures c.s.store == c0.s.store
  {
  }

  lemma LooksAtSlot(s: State, h: History)
    requires ReadInv(s, h) && s.reader.Looking?
    ensures 0 <= s.reader.id < |s.rdev.cbs| < 0x8000_0000
  {
  }

  lemma Got(c0: Config, c: Config, iid: u32, e: Event, now: nat)
    requires Asked(c0, c, iid) && ReadInv(c.s, c.h) && e.ReaderGet? && e.get.Ok() && Enabled(c.s, e) && Safe(c.s, e)
    requires c.s.reader.iid == iid && WellFormed(c0.s.store) && iid in c0.s.store
    ensures var c' := Config(Next(c.s, e), Record(c.s, c.h, e, now));
            && Asked(c0, c', iid) && c'.s.reader.Replying?
            && Decodable(c0.s.store[iid], 0)
            && Decodable(c'.s.reader.frame, 4) && Decode(c'.s.reader.frame, 4) == Decode(c0.s.store[iid], 0)
  {
    assert c.s.reader.Looking?;
    hide Next, Record, Enabled, Safe, Asked, ReadInv, WellFormed, Answer, Frame, Decode, Decodable;
    AskedStore(c0, c, iid, e.get);
    GetChanges(c.s, c.h, e, now);
    LooksAtSlot(c.s, c.h);
    R.FrameIsReply(c.s.rdev, c.s.reader.id, Answer(c.s.store, iid, e.get), e.junk, R.ALL_COPIED);
    StillAsked(c0, c, Config(Next(c.s, e), Record(c.s, c.h, e, now)), iid);
  }

  /** The lookup of `iid` from `c0`, answered by its record in the store, is all that happened. */
  ghost predicate Answered(c0: Config, c: Config, iid: u32, copied: bool) {
    var d, d', store := c0.s.rdev, c.s.rdev, c0.s.store;
    && d.Shape() && d'.Shape() && d'.Size() == d.Size()
    && c.s.reader.Ready? && d'.used == 0 && d'.current == (d.current + 1) % d.Size()
    && c.s.store == store && c.s.found == c0.s.found
    && Submitted(c0, c, Work(d.current, iid))
    && iid in store && Decodable(store[iid], 0)
    && var a, cb := Decode(store[iid], 0), d'.cbs[d.current];
    && !cb.isDone && R.Shows(cb.response, a, copied)
  }

  lemma Replied(c0: Config, c: Config, iid: u32, copied: bool, now: nat)
    requires var e := ReaderReply(R.Copies(true, true, copied));
             Asked(c0, c, iid) && ReadInv(c.s, c.h) && Enabled(c.s, e) && Safe(c.s, e)
    requires iid in c0.s.store && Decodable(c0.s.store[iid], 0)
    requires Decodable(c.s.reader.frame, 4) && Decode(c.s.reader.frame, 4) == Decode(c0.s.store[iid], 0)
    ensures var e := ReaderReply(R.Copies(true, true, copied));
            Answered(c0, Config(Next(c.s, e), Record(c.s, c.h, e, now)), iid, copied)
  {
    hide R.Retained, R.Queue;
  }

  lemma Append3(es: seq<Event>, a: Event, b: Event, c: Event)
    ensures es + [a] + [b] + [c] == es + [a, b, c]
  {
  }

  lemma Append4(es: seq<Event>, a: Event, b: Event, c: Event, d: Event)
    ensures es + [a, b, c] + [d] == es + [a, b, c, d]
  {
  }

  const GET := ReaderGet(Zeros(16), GetCodes(0, 0, 0))

  lemma AskAndPeek(cs: seq<Config>, es: seq<Event>, iid: u32) returns (cs': seq<Config>, es': seq<Event>)
    requires IsRun(cs, es) && Last(cs).s.reader.Ready? && Last(cs).s.rdev.used == 0
    ensures IsRun(cs', es') && cs <= cs' && |cs'| == |cs| + 2
    ensures es' == es + [ClientLookup(Request(iid), true)] + [ReaderPeek]
    ensures Asked(Last(cs), Last(cs'), iid) && ReadInv(Last(cs').s, Last(cs').h)
    ensures Last(cs').s.reader.Looking? && Last(cs').s.reader.iid == iid
  {
    assert cs != [];
    hide IsRun, Next, Record, Safe, Enabled, Overruns, ReadInv, Asked, Request;
    AtLast(cs, es);
    RequestEnabled(Last(cs).s, iid);
    var cs1, es1 := Extend(cs, es, ClientLookup(Request(iid), true));
    Ask(Last(cs), iid, |es|);
    cs', es' := Extend(cs1, es1, ReaderPeek);
    Peeked(Last(cs), Last(cs1), iid, |es1|);
  }

  lemma AskAndGet(cs: seq<Config>, es: seq<Event>, iid: u32) returns (cs': seq<Config>, es': seq<Event>)
    requires IsRun(cs, es)
    requires var s := Last(cs).s; s.reader.Ready? && s.rdev.used == 0 && iid in s.store
    ensures IsRun(cs', es') && cs <= cs' && |cs'| == |cs| + 3
    ensures es' == es + [ClientLookup(Request(iid), true), ReaderPeek, GET]
    ensures var c0, c := Last(cs), Last(cs');
            && Asked(c0, c, iid) && c.s.reader.Replying? && Decodable(c0.s.store[iid], 0)
            && Decodable(c.s.reader.frame, 4) && Decode(c.s.reader.frame, 4) == Decode(c0.s.store[iid], 0)
  {
    assert cs != [];
    hide IsRun, Next, Record, Safe, ReadInv, WellFormed, Asked, Request;
    AtLast(cs, es);
    var cs1, es1 := AskAndPeek(cs, es, iid);
    cs', es' := Extend(cs1, es1, GET);
    Got(Last(cs), Last(cs1), iid, GET, |es1|);
    Append3(es, ClientLookup(Request(iid), true), ReaderPeek, GET);
  }

  /** With nothing else in the ring, a lookup of a stored `iid` is asked and answered. */
  lemma Serve(cs: seq<Config>, es: seq<Event>, iid: u32, copied: bool) returns (cs': seq<Config>, es': seq<Event>)
    requires IsRun(cs, es)
    requires var s := Last(cs).s; s.reader.Ready? && s.rdev.used == 0 && iid in s.store
    ensures IsRun(cs', es') && cs <= cs' && |cs'| == |cs| + 4
    ensures es' == es + [ClientLookup(Request(iid), true), ReaderPeek, GET, ReaderReply(R.Copies(true, true, copied))]
    ensures Answered(Last(cs), Last(cs'), iid, copied)
  {
    assert cs != [];
    hide IsRun, Next, Record, Safe, ReadInv, Asked, Answered, Request;
    var cs1, es1 := AskAndGet(cs, es, iid);
    AtLast(cs1, es1);
    cs', es' := Extend(cs1, es1, ReaderReply(R.Copies(true, true, copied)));
    Replied(Last(cs), Last(cs1), iid, copied, |es1|);
    Append4(es, ClientLookup(Request(iid), true), ReaderPeek, GET, ReaderReply(R.Copies(true, true, copied)));
  }

  // ---------- what a worker may say ----------

  const STORED := Accepted(Header(0, 1, 0, 0, 0, 1), [7])
  const STORE: Db := map[1 := Encode(STORED, Zeros(16))]

  lemma StoreHasIt()
    ensures WellFormed(STORE) && Decodable(STORE[1], 0) && Decode(STORE[1], 0) == STORED
  {
    EncodedEntry(STORED, Zeros(16));
  }

  /** One slot, and as many workers as wanted; nothing has happened yet. */
  lemma Beginning(workers: nat) returns (cs: seq<Config>)
    requires workers > 0
    ensures cs == [Start(1, workers, STORE)] && IsRun(cs, [])
  {
    StoreHasIt();
    StartIsInit(1, workers, STORE);
    cs := [Start(1, workers, STORE)];
  }

  lemma IdleAtStart(workers: nat)
    ensures var s := Start(1, workers, STORE).s;
            s.reader.Ready? && s.rdev.used == 0 && 1 in s.store
  {
  }

  lemma CountsOne(s: State, w: nat)
    requires Enabled(s, WorkerStep(w)) && Safe(s, WorkerStep(w)) && IsFound(s, w)
    ensures Next(s, WorkerStep(w)).found == s.found + 1
  {
  }

  lemma ServedOnce(c: Config, copied: bool)
    requires Answered(Start(1, 1, STORE), c, 1, copied)
    ensures |c.s.rdev.cbs| == 1 && R.Shows(c.s.rdev.cbs[0].response, STORED, copied)
    ensures c.s.pool.queues == [[Work(0, 1)]] && IsFound(c.s, 0)
  {
    StoreHasIt();
    hide Decode, Decodable, WellFormed;
    var none: seq<Work> := [];
    assert none + [Work(0, 1)] == [Work(0, 1)];
    assert seq(1, _ => none)[0 := [Work(0, 1)]] == [[Work(0, 1)]];
  }

  /** The value of a reply cannot be copied: the worker counts the message, though the slot shows
      200 zero bytes instead of the stored value. */
  lemma CountedWithoutValue() returns (cs: seq<Config>, es: seq<Event>)
    ensures IsRun(cs, es) && |es| == 5 && es[3] == ReaderReply(R.Copies(true, true, false)) && es[4] == WorkerStep(0)
    ensures var d := cs[4].s.rdev;
            && |d.cbs| == 1 && d.cbs[0].response.header == Header(0, 1, 0, 0, 0, 1) && |d.cbs[0].response.val| == 200
            && forall k :: 0 <= k < 200 ==> d.cbs[0].response.val[k] == 0
    ensures cs[5].s.found == cs[4].s.found + 1
  {
    hide IsRun, Next, Record, Request, ReadInv, Safe, IsFound, Start, Answered;
    var cs0 := Beginning(1);
    IdleAtStart(1);
    var cs1, es1 := Serve(cs0, [], 1, false);
    ServedOnce(Last(cs1), false);
    cs, es := Extend(cs1, es1, WorkerStep(0));
    CountsOne(Last(cs1).s, 0);
  }

  lemma CloseKeepsFound(s: State, w: nat)
    requires Enabled(s, ReaderRelease) && Safe(s, ReaderRelease)
    requires w < |s.pool.queues| && s.pool.queues[w] != [] && s.pool.queues[w][0].slot < |s.rdev.cbs| && IsFound(s, w)
    ensures var s' := Next(s, ReaderRelease);
            s'.pool == s.pool && s'.rdev.cbs == s.rdev.cbs && s'.found == s.found && IsFound(s', w)
  {
  }

  /** The daemon closes the read device after its reply, and the worker counts the message all the same. */
  lemma CountedAfterClose() returns (cs: seq<Config>, es: seq<Event>)
    ensures IsRun(cs, es) && |es| == 6 && es[4] == ReaderRelease && es[5] == WorkerStep(0)
    ensures var d := cs[5].s.rdev;
            |d.cbs| == 1 && R.Shows(d.cbs[0].response, STORED, true) && d.used == 0 && cs[5].h.answers == []
    ensures cs[6].s.found == cs[5].s.found + 1
  {
    hide IsRun, Request, ReadInv, Safe, IsFound, Start, Answered, R.Shows;
    var cs0 := Beginning(1);
    IdleAtStart(1);
    var cs1, es1 := Serve(cs0, [], 1, true);
    ServedOnce(Last(cs1), true);
    var cs2, es2 := Extend(cs1, es1, ReaderRelease);
    CloseKeepsFound(Last(cs1).s, 0);
    cs, es := Extend(cs2, es2, WorkerStep(0));
    CountsOne(Last(cs2).s, 0);
  }

  lemma TwoJobs(job: Work)
    ensures AddWork(Pool(0, seq(2, _ => [])), job) == Pool(1, [[job], []])
    ensures AddWork(Pool(1, [[job], []]), job) == Pool(0, [[job], [job]])
  {
    var none: seq<Work> := [];
    assert none + [job] == [job];
    assert seq(2, _ => none)[0 := [job]] == [[job], none];
  }

  lemma OnceAnswered(c: Config)
    requires Answered(Start(1, 2, STORE), c, 1, true)
    ensures !Start(1, 2, STORE).s.rdev.Full() && Start(1, 2, STORE).h.jobs == []
    ensures !c.s.rdev.Full() && c.s.rdev.used == 0 && c.s.reader.Ready? && |c.h.jobs| == 1 && c.h.ran == [[], []]
    ensures c.s.rdev.Size() == 1 && c.s.rdev.Shape() && c.s.store == STORE
    ensures c.s.pool == Pool(1, [[Work(0, 1)], []])
  {
    hide R.Shows, Decode, Decodable;
    TwoJobs(Work(0, 1));
  }

  lemma TwiceAnswered(c: Config, c': Config)
    requires c.s.rdev.Size() == 1 && c.s.rdev.Shape() && c.s.store == STORE && c.h.ran == [[], []]
    requires c.s.pool == Pool(1, [[Work(0, 1)], []])
    requires Answered(c, c', 1, true)
    ensures |c'.s.rdev.cbs| == 1 && !c'.s.rdev.cbs[0].isDone && R.Shows(c'.s.rdev.cbs[0].response, STORED, true)
    ensures c'.s.pool.queues == [[Work(0, 1)], [Work(0, 1)]] && c'.h.ran == [[], []]
  {
    hide R.Shows, Decode, Decodable, Encode, Zeros, WellFormed;
    StoreHasIt();
    TwoJobs(Work(0, 1));
  }

  lemma TwoAnswered() returns (cs: seq<Config>, es: seq<Event>)
    ensures IsRun(cs, es) && |cs| == 9 && |es| == 8
    ensures es[0] == es[4] == ClientLookup(Request(1), true)
    ensures !cs[0].s.rdev.Full() && !cs[4].s.rdev.Full() && |cs[0].h.jobs| == 0 && |cs[4].h.jobs| == 1
    ensures var c := cs[8];
            && |c.s.rdev.cbs| == 1 && !c.s.rdev.cbs[0].isDone && R.Shows(c.s.rdev.cbs[0].response, STORED, true)
            && c.s.pool.queues == [[Work(0, 1)], [Work(0, 1)]] && c.h.ran == [[], []]
  {
    hide IsRun, Next, Record, Request, Start, Answered, R.Shows;
    IdleAtStart(2);
    var cs0 := Beginning(2);
    var cs1, es1 := Serve(cs0, [], 1, true);
    OnceAnswered(Last(cs1));
    cs, es := Serve(cs1, es1, 1, true);
    TwiceAnswered(Last(cs1), Last(cs));
  }

  /**
   Two lookups of the same stored record go through the only slot, one after the other, and both
   are answered with it before a worker runs. Either worker would count its own; but the one
   that comes first marks the slot done, and the other misses it.
   */
  lemma MissedThoughAnswered() returns (cs: seq<Config>, es: seq<Event>)
    ensures IsRun(cs, es) && |es| == 10 && es[8] == WorkerStep(0) && es[9] == WorkerStep(1)
    ensures RunsJobOf(cs, es, 0, 8, 0) && RunsJobOf(cs, es, 4, 8, 1)
    ensures |cs[8].s.rdev.cbs| == 1 && R.Shows(cs[8].s.rdev.cbs[0].response, STORED, true)
    ensures cs[8].s.pool.queues == [[Work(0, 1)], [Work(0, 1)]] && IsFound(cs[8].s, 0) && IsFound(cs[8].s, 1)
    ensures cs[10].s.found == cs[8].s.found + 1
  {
    hide IsRun, ReadInv, Request, Safe, JobsSubmitted, JobsRun;
    var cs2, es2 := TwoAnswered();
    var cs3, es3 := Extend(cs2, es2, WorkerStep(0));
    cs, es := Extend(cs3, es3, WorkerStep(1));
    WorkersStay(cs, es, 0);
    WorkersStay(cs, es, 4);
    JobsAreEvents(cs, es, 0, 0);
    JobsAreEvents(cs, es, 4, 0);
    JobsAreEvents(cs, es, 8, 0);
    JobsAreEvents(cs, es, 8, 1);
  }
}
