/** What was written is what is read. */
module EndToEnd {
  import opened Bytes
  import opened Codec
  import opened Store
  import opened System
  import opened Invariants
  import opened WriteTheorems
  import opened LookupTheorems
  import opened SlotTheorems
  import R = ReadPersistence

  /** All accepted writes have reached the store. */
  predicate Drained(s: State) {
    s.writer.Idle? && s.wdev.used == 0
  }

  /** The store answers every key by the last record committed for it. */
  lemma StoreIsLatest(cs: seq<Config>, es: seq<Event>, t: nat, k: u32)
    requires IsRun(cs, es) && t <= |es|
    ensures WellFormed(cs[0].s.store) && WellFormed(cs[t].s.store)
    ensures IsLatest(Records(cs[0].s.store), CommittedWrites(cs, es, t), k, Answer(cs[t].s.store, k, GetCodes(0, 0, 0)))
  {
    WritesAreALog(cs, es, t);
    LastWriterWins(Records(cs[0].s.store), CommittedWrites(cs, es, t), k);
    assert k in Records(cs[t].s.store) <==> k in cs[t].s.store;
  }

  /** When all accepted writes have been put, the committed ones are those whose puts succeeded. */
  lemma DrainedIsKept(cs: seq<Config>, es: seq<Event>, t: nat)
    requires IsRun(cs, es) && t <= |es| && Drained(cs[t].s)
    ensures var w, p := AcceptedWrites(cs, es, t), PutsSince(es, t);
            && |p| == |w|
            && CommittedWrites(cs, es, t) == CommittedWrites(cs, es, LastClose(es, t)) + Kept(w, p)
            && (AllOk(p) ==> Kept(w, p) == w)
  {
    WritesAreALog(cs, es, t);
    WritesAreInOrder(cs, es, t);
    if AllOk(PutsSince(es, t)) {
      AllKept(AcceptedWrites(cs, es, t), PutsSince(es, t));
    }
  }

  lemma SameAnswer(db: Db, iid: u32, c: GetCodes)
    requires WellFormed(db) && c.begin == 0 && c.get == 0
    ensures Answer(db, iid, c) == Answer(db, iid, GetCodes(0, 0, 0))
  {
  }

  /**
   An answer is the last record for its `iid` committed before it was fetched, and its slot shows
   exactly that until the slot is served again. If all accepted writes had been put by then,
   that is the last accepted one whose put succeeded.
   */
  lemma ReadYourWrites(cs: seq<Config>, es: seq<Event>, n: nat, i: nat)
    requires IsRun(cs, es) && n <= |es| && StillInSlot(cs[n], i)
    requires var a := cs[n].h.answers[i];
             a.copied && a.time < |es| && (es[a.time].ReaderGet? ==> es[a.time].get.begin == 0 && es[a.time].get.get == 0)
    ensures i < |cs[n].h.asks| && |cs[n].h.asks[i]| == SLOT && WellFormed(cs[0].s.store)
    ensures var a := cs[n].h.answers[i];
            IsLatest(Records(cs[0].s.store), CommittedWrites(cs, es, a.time), R.Key(cs[n].h.asks[i]), a.record)
    ensures var t := cs[n].h.answers[i].time;
            Drained(cs[t].s) ==>
              var w, p := AcceptedWrites(cs, es, t), PutsSince(es, t);
              && |p| == |w|
              && CommittedWrites(cs, es, t) == CommittedWrites(cs, es, LastClose(es, t)) + Kept(w, p)
    ensures var d, a := cs[n].s.rdev, cs[n].h.answers[i].record;
            && |d.cbs| > 0
            && var r := d.cbs[i % |d.cbs|].response;
            && r.header == a.header && |r.val| == 200 && |a.value| <= 200 && r.val[..|a.value|] == a.value
            && forall k :: |a.value| <= k < 200 ==> r.val[k] == 0
  {
    assert |cs| == |es| + 1;
    hide IsRun, Kept, IsLatest, ApplyAll, Records, AcceptedWrites, CommittedWrites, PutsSince, RingRecords;
    LookupsAreLinearizable(cs, es, n, i);
    AnswerIsShown(cs, es, n, i);
    var t := cs[n].h.answers[i].time;
    StoreIsLatest(cs, es, t, R.Key(cs[n].h.asks[i]));
    SameAnswer(cs[t].s.store, R.Key(cs[n].h.asks[i]), es[t].get);
    if Drained(cs[t].s) {
      DrainedIsKept(cs, es, t);
    }
  }

  /**
   End to end: right after a reply the slot of the lookup shows the last accepted write for its
   `iid`, cut to 200 bytes, in header and value, or what was stored before the write device was
   last closed, or the zero record; provided the write ring had been drained when it was fetched
   and no put had failed since.
   */
  lemma WriteThenRead(cs: seq<Config>, es: seq<Event>, n: nat) returns (a: Accepted)
    requires IsRun(cs, es) && n < |es| && es[n] == ReaderReply(R.ALL_COPIED)
    requires cs[n].h.gotAt < n && AllOk(PutsSince(es, cs[n].h.gotAt))
    requires var t := cs[n].h.gotAt; (es[t].ReaderGet? ==> es[t].get.begin == 0 && es[t].get.get == 0) && Drained(cs[t].s)
    ensures var h := cs[n].h;
            |h.answers| < |h.asks| && |h.asks[|h.answers|]| == SLOT && WellFormed(cs[0].s.store)
    ensures var t := cs[n].h.gotAt;
            IsLatest(Records(cs[0].s.store), CommittedWrites(cs, es, LastClose(es, t)) + AcceptedWrites(cs, es, t),
                     R.Key(cs[n].h.asks[|cs[n].h.answers|]), a)
    ensures var d, d' := cs[n].s.rdev, cs[n + 1].s.rdev;
            && d.first < |d'.cbs|
            && var r := d'.cbs[d.first].response;
            && r.header == a.header && |r.val| == 200 && |a.value| <= 200 && r.val[..|a.value|] == a.value
            && forall k :: |a.value| <= k < 200 ==> r.val[k] == 0
  {
    hide IsLatest, ApplyAll, Records, WellFormed;
    var i := |cs[n].h.answers|;
    ReplyMatchesHead(cs, es, n);
    StepAlong(cs, es, n);
    SizeStep(cs[n].s, es[n]);
    a := Decode(cs[n].s.reader.frame, 4);
    DeliveredNow(cs[n].s, cs[n].h, n);
    DrainedIsKept(cs, es, cs[n].h.gotAt);
    ReadYourWrites(cs, es, n + 1, i);
  }

  lemma DeliveredNow(s: State, h: History, now: nat)
    requires var e := ReaderReply(R.ALL_COPIED); Enabled(s, e) && Safe(s, e)
    requires s.rdev.working && Decodable(s.reader.frame, 4)
    ensures var h' := Record(s, h, ReaderReply(R.ALL_COPIED), now);
            && h'.answers == h.answers + [R.Answer(h.gotAt, Decode(s.reader.frame, 4), true)]
            && h'.asks == h.asks && !h'.cleared
  {
  }

  /**
   A reply leaves in the slot of the head what the store held for the head's `iid` when it was
   fetched, whatever its commit returned; or, if the store held nothing or the lookup failed,
   nothing but zeros.
   */
  lemma ReplyShowsStore(cs: seq<Config>, es: seq<Event>, n: nat)
    requires IsRun(cs, es) && n < |es| && es[n].ReaderReply? && es[n].copies.id && es[n].copies.header
    ensures var h := cs[n].h;
            && h.gotAt < n && es[h.gotAt].ReaderGet? && cs[n].s.rdev.first < |cs[n + 1].s.rdev.cbs|
            && |h.answers| < |h.asks| && |h.asks[|h.answers|]| == SLOT
    ensures var get, store := es[cs[n].h.gotAt].get, cs[cs[n].h.gotAt].s.store;
            var iid, r := R.Key(cs[n].h.asks[|cs[n].h.answers|]), cs[n + 1].s.rdev.cbs[cs[n].s.rdev.first].response;
            if iid in store && get.begin == 0 && get.get == 0 then
              Decodable(store[iid], 0) && R.Shows(r, Decode(store[iid], 0), es[n].copies.value)
            else
              r.header == Header(0, 0, 0, 0, 0, 0) && |r.val| == 200 && forall k :: 0 <= k < 200 ==> r.val[k] == 0
  {
    assert |cs| == |es| + 1;
    ReplyMatchesHead(cs, es, n);
    var h, t, k := cs[n].h, cs[n].h.gotAt, cs[n].s.rdev.first;
    var iid := R.Key(h.asks[|h.answers|]);
    AnswerFits(cs[t].s.store, iid, es[t].get);
    AnswerIs(cs[t].s.store, iid, es[t].get);
    hide IsRun, WellFormed, Answer;
    SlotStep(cs, es, n, k);
  }
}
