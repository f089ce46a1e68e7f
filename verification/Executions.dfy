/** Which executions are runs: exactly when a step of the code is defined. */
module Executions {
  import opened Bytes
  import opened Codec
  import opened Rings
  import opened Store
  import opened System
  import opened Invariants
  import W = WritePersistence
  import R = ReadPersistence

  /** The first `n` steps of an execution do not overrun the receive buffer. */
  ghost predicate NoOverrun(cs: seq<Config>, es: seq<Event>, n: nat)
    requires n <= |es| < |cs|
  {
    forall i :: 0 <= i < n ==> !Overruns(cs[i].h, es[i])
  }

  lemma PrefixIsRun(cs: seq<Config>, es: seq<Event>, n: nat)
    requires IsExecution(cs, es) && n <= |es| && NoOverrun(cs, es, n)
    ensures IsRun(cs[..n + 1], es[..n])
  {
  }

  lemma InvHere(cs: seq<Config>, es: seq<Event>, n: nat)
    requires IsExecution(cs, es) && n <= |es| && NoOverrun(cs, es, n)
    ensures LocalInv(cs[0].s.store, cs[n])
  {
    hide Init, Step, LocalInv, Overruns;
    PrefixIsRun(cs, es, n);
    InvAlong(cs[..n + 1], es[..n], n);
  }

  /** One of the daemon's assertions fails in this step. */
  predicate AssertionFails(s: State, e: Event) {
    match e
    case WriterPut(_, c) => c.Aborts()
    case ReaderGet(_, c) =>
      && s.reader.Looking?
      && s.reader.iid in s.store
      && Decodable(s.store[s.reader.iid], 0)
      && FindsOther(s.store, s.reader.iid, c)
    case _ => false
  }

  /**
   Up to the first overrun, whatever clients, daemon and workers do and whichever calls fail, a step
   is defined if and only if the record or request it reads, if it reads one, has room in the
   receive buffer; and an assertion fails if and only if a put fails in an open transaction.
   */
  lemma DefinedUnlessOverrun(cs: seq<Config>, es: seq<Event>, n: nat)
    requires IsExecution(cs, es) && n < |es| && NoOverrun(cs, es, n)
    ensures Enabled(cs[n].s, es[n])
    ensures Safe(cs[n].s, es[n]) <==> !Overruns(cs[n].h, es[n])
    ensures AssertionFails(cs[n].s, es[n]) <==> es[n].Aborts()
    ensures !Overruns(cs[n].h, es[n]) ==> Defined(cs[n], es[n], n, cs[n + 1])
  {
    assert Step(cs[n], es[n], n, cs[n + 1]);
    hide IsExecution, NoOverrun, LocalInv, Next, Record, Overruns;
    InvHere(cs, es, n);
    SafeHere(cs[0].s.store, cs[n], es[n]);
  }

  // ---------- which messages overrun ----------

  /** A record no longer than the receive buffer less the frame's id, or a request that
      announces no longer value. */
  predicate Short(e: Event) {
    match e
    case ClientWrite(msg) => |msg| <= 236
    case ClientLookup(msg, _) => |msg| >= 40 ==> GetI32(msg, 24) <= 196
    case _ => true
  }

  ghost predicate AllShort(h: History) {
    && (forall i :: 0 <= i < |h.writes| ==> |h.writes[i].value| <= 196)
    && (forall i :: 0 <= i < |h.asks| ==> |h.asks[i]| == SLOT && GetI32(h.asks[i], 24) <= 196)
  }

  lemma StillShort(s: State, h: History, e: Event, now: nat)
    requires Enabled(s, e) && Safe(s, e) && (e.WorkerStep? ==> e.worker < |h.ran|)
    requires AllShort(h) && Short(e)
    ensures AllShort(Record(s, h, e, now))
  {
    hide Next, NewWork, IsFound, Answer, HeadFrame, W.SlotOf, R.SlotOf, Decode;
    if e.ClientLookup? {
      SlotLength(e.msg, s.rdev.msgs[s.rdev.current]);
    }
  }

  lemma SlotLength(msg: seq<byte>, old_: seq<byte>)
    requires HEADER <= |msg| <= SLOT == |old_|
    ensures GetI32(R.SlotOf(msg, old_), 24) == GetI32(msg, 24)
  {
  }

  lemma NotYetOverrun(h: History, e: Event)
    requires AllShort(h)
    ensures !Overruns(h, e)
  {
  }

  lemma ShortStep(cs: seq<Config>, es: seq<Event>, n: nat)
    requires IsExecution(cs, es) && n < |es| && NoOverrun(cs, es, n) && AllShort(cs[n].h) && Short(es[n])
    ensures !Overruns(cs[n].h, es[n]) && AllShort(cs[n + 1].h)
  {
    hide Next, Record, Safe, Enabled, Overruns, AllShort, Short;
    NotYetOverrun(cs[n].h, es[n]);
    DefinedUnlessOverrun(cs, es, n);
    StillShort(cs[n].s, cs[n].h, es[n], n);
  }

  lemma {:induction false} ShortAlong(cs: seq<Config>, es: seq<Event>, n: nat)
    requires IsExecution(cs, es) && n <= |es| && forall i :: 0 <= i < |es| ==> Short(es[i])
    ensures NoOverrun(cs, es, n) && AllShort(cs[n].h)
  {
    if n > 0 {
      hide Step, Overruns, Short;
      ShortAlong(cs, es, n - 1);
      ShortStep(cs, es, n - 1);
    }
  }

  /** If clients send no record of more than 236 bytes, and no request that announces a value of
      more than 196, then every execution is a run. */
  lemma ShortMessagesNeverOverrun(cs: seq<Config>, es: seq<Event>)
    requires IsExecution(cs, es) && forall i :: 0 <= i < |es| ==> Short(es[i])
    ensures IsRun(cs, es)
  {
    ShortAlong(cs, es, |es|);
  }

  lemma FirstStep(c: Config, e: Event) returns (c': Config)
    requires Init(c) && Enabled(c.s, e) && !Overruns(c.h, e)
    ensures Safe(c.s, e) && (e.WorkerStep? ==> e.worker < |c.h.ran|)
    ensures c' == Config(Next(c.s, e), Record(c.s, c.h, e, 0))
    ensures IsExecution([c, c'], [e]) && LocalInv(c.s.store, c')
  {
    hide Next, Record, Safe, LocalInv;
    InitInv(c);
    SafeHere(c.s.store, c, e);
    c' := Config(Next(c.s, e), Record(c.s, c.h, e, 0));
    assert Step(c, e, 0, c');
    LocalStep(c.s.store, c, e, 0, c');
  }

  lemma FirstWrite(c: Config, msg: seq<byte>)
    requires var e := ClientWrite(msg); Init(c) && Enabled(c.s, e) && Safe(c.s, e)
    ensures var e := ClientWrite(msg);
            var s', h' := Next(c.s, e), Record(c.s, c.h, e, 0);
            && Enabled(s', WriterTake)
            && (Overruns(h', WriterTake) <==> |msg| > 236)
  {
    hide W.SlotOf, ParseHeader;
  }

  /** The bound is exact: when a client's first record is read, that is defined if and only if
      the client sent at most 236 bytes. */
  lemma FirstWriteOverruns(c: Config, msg: seq<byte>) returns (c': Config)
    requires Init(c) && |msg| >= HEADER
    ensures IsExecution([c, c'], [ClientWrite(msg)])
    ensures Enabled(c'.s, WriterTake)
    ensures Safe(c'.s, WriterTake) <==> |msg| <= 236
  {
    c' := FirstStep(c, ClientWrite(msg));
    FirstWrite(c, msg);
    hide Init, IsExecution, Next, Record, Safe, Enabled, Overruns, LocalInv;
    SafeHere(c.s.store, c', WriterTake);
  }

  lemma FirstLookup(c: Config, msg: seq<byte>)
    requires var e := ClientLookup(msg, false); Init(c) && Enabled(c.s, e) && Safe(c.s, e)
    ensures var e := ClientLookup(msg, false);
            var s', h' := Next(c.s, e), Record(c.s, c.h, e, 0);
            && Enabled(s', ReaderPeek)
            && (Overruns(h', ReaderPeek) <==> GetI32(msg, 24) > 196)
  {
    SlotLength(msg, c.s.rdev.msgs[c.s.rdev.current]);
    hide R.SlotOf, GetI32;
  }

  /** And when its first request is read, if and only if that announces at most 196 bytes. */
  lemma FirstLookupOverruns(c: Config, msg: seq<byte>) returns (c': Config)
    requires var e := ClientLookup(msg, false); Init(c) && Enabled(c.s, e)
    ensures IsExecution([c, c'], [ClientLookup(msg, false)])
    ensures Enabled(c'.s, ReaderPeek)
    ensures Safe(c'.s, ReaderPeek) <==> GetI32(msg, 24) <= 196
  {
    c' := FirstStep(c, ClientLookup(msg, false));
    FirstLookup(c, msg);
    hide Init, IsExecution, Next, Record, Safe, Enabled, Overruns, LocalInv, GetI32;
    SafeHere(c.s.store, c', ReaderPeek);
  }
}
