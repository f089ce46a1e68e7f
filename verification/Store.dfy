/** The database as a value: one encoded record per `iid`. */
module Store {
  import opened Bytes
  import opened Codec

  type Db = map<u32, seq<byte>>

  datatype Option<+T> = None | Some(value: T)

  /** The return codes of the database calls of one `storage_put`; 0 is success. */
  datatype PutCodes = PutCodes(begin: int, put: int, commit: int) {
    predicate Ok() {
      begin == 0 && put == 0 && commit == 0
    }

    /** The put fails inside a transaction that could be begun. */
    predicate Aborts() {
      begin == 0 && put != 0
    }
  }

  /** The return codes of the database calls of one `storage_get`. */
  datatype GetCodes = GetCodes(begin: int, get: int, commit: int) {
    predicate Ok() {
      begin == 0 && get == 0 && commit == 0
    }
  }

  /** The database after a `storage_put` whose calls return these codes. */
  function AfterPut(db: Db, a: Accepted, j: Junk, c: PutCodes): Db
    requires a.Proper()
  {
    if c.Ok() then db[a.header.iid := Encode(a, j)] else db
  }

  /** What `storage_get` returns: a failed begin or lookup is taken for a missing record,
      a failed commit is only reported. */
  function Fetch(db: Db, iid: u32, c: GetCodes): Option<Accepted>
    requires iid in db ==> Decodable(db[iid], 0)
  {
    if c.begin == 0 && c.get == 0 && iid in db then Some(Decode(db[iid], 0)) else None
  }

  /** What is sent back for it: a missing record is answered by the all-zero record. */
  function Answer(db: Db, iid: u32, c: GetCodes): Accepted
    requires iid in db ==> Decodable(db[iid], 0)
  {
    match Fetch(db, iid, c)
    case Some(a) => a
    case None => ZERO
  }

  /** A record that is there is found whatever the commit returns; otherwise the answer is all zero. */
  lemma AnswerIs(db: Db, iid: u32, c: GetCodes)
    requires iid in db ==> Decodable(db[iid], 0)
    ensures Answer(db, iid, c) ==
            if iid in db && c.begin == 0 && c.get == 0 then Decode(db[iid], 0)
            else Accepted(Header(0, 0, 0, 0, 0, 0), [])
  {
  }

  // ---------- well-formedness ----------

  /** `assert(iid == out->iid)` holds for this entry, and its value fits a response buffer. */
  predicate EntryOk(iid: u32, b: seq<byte>) {
    && |b| >= HEADER
    && ParseHeader(b, 0).iid == iid
    && 0 <= ParseHeader(b, 0).len <= MAX_VALUE
    && |b| == HEADER + ParseHeader(b, 0).len
  }

  ghost predicate WellFormed(db: Db) {
    forall k :: k in db ==> EntryOk(k, db[k])
  }

  lemma EncodedEntry(a: Accepted, j: Junk)
    requires a.Fits()
    ensures var b := Encode(a, j);
            EntryOk(a.header.iid, b) && Decodable(b, 0) && Decode(b, 0) == a
  {
    DecodeEncode([], a, j, []);
    assert [] + Encode(a, j) + [] == Encode(a, j);
  }

  lemma PutKeepsWellFormed(db: Db, a: Accepted, j: Junk, c: PutCodes)
    requires WellFormed(db) && a.Fits()
    ensures WellFormed(AfterPut(db, a, j, c))
  {
    EncodedEntry(a, j);
  }

  lemma AnswerFits(db: Db, iid: u32, c: GetCodes)
    requires WellFormed(db)
    ensures iid in db ==> Decodable(db[iid], 0)
    ensures Answer(db, iid, c).Fits()
    ensures Answer(db, iid, c).header.iid in {0, iid}
  {
  }

  // ---------- the records in a database ----------

  function Records(db: Db): (r: map<u32, Accepted>)
    requires WellFormed(db)
    ensures r.Keys == db.Keys
  {
    map k | k in db :: Decode(db[k], 0)
  }

  /** The store after a sequence of writes. */
  function ApplyAll(m: map<u32, Accepted>, log: seq<Accepted>): map<u32, Accepted> {
    if log == [] then m else
    var last := log[|log| - 1];
    ApplyAll(m, log[..|log| - 1])[last.header.iid := last]
  }

  lemma RecordsUpdate(db: Db, b: seq<byte>)
    requires WellFormed(db) && Decodable(b, 0)
    ensures var a := Decode(b, 0);
            EntryOk(a.header.iid, b) ==> Records(db[a.header.iid := b]) == Records(db)[a.header.iid := a]
  {
  }

  lemma PutIsApply(db: Db, m: map<u32, Accepted>, log: seq<Accepted>, a: Accepted, j: Junk)
    requires WellFormed(db) && Records(db) == ApplyAll(m, log)
    requires a.Fits()
    ensures var db' := AfterPut(db, a, j, PutCodes(0, 0, 0));
            WellFormed(db') && Records(db') == ApplyAll(m, log + [a])
  {
    PutKeepsWellFormed(db, a, j, PutCodes(0, 0, 0));
    EncodedEntry(a, j);
    RecordsUpdate(db, Encode(a, j));
    assert (log + [a])[..|log|] == log;
  }

  ghost predicate AllFit(log: seq<Accepted>) {
    forall i :: 0 <= i < |log| ==> log[i].Fits()
  }

  // ---------- puts that may fail ----------

  /** Of the first records of `log`, put with these codes, those whose puts succeed. */
  function Kept(log: seq<Accepted>, codes: seq<PutCodes>): seq<Accepted>
    requires |codes| <= |log|
  {
    if codes == [] then [] else
    var n := |codes| - 1;
    Kept(log, codes[..n]) + if codes[n].Ok() then [log[n]] else []
  }

  ghost predicate AllOk(codes: seq<PutCodes>) {
    forall i :: 0 <= i < |codes| ==> codes[i].Ok()
  }

  lemma {:induction false} KeptOfLonger(log: seq<Accepted>, more: seq<Accepted>, codes: seq<PutCodes>)
    requires |codes| <= |log|
    ensures Kept(log + more, codes) == Kept(log, codes)
  {
    if codes != [] {
      KeptOfLonger(log, more, codes[..|codes| - 1]);
    }
  }

  lemma KeptNext(log: seq<Accepted>, codes: seq<PutCodes>, c: PutCodes)
    requires |codes| < |log|
    ensures Kept(log, codes + [c]) == Kept(log, codes) + if c.Ok() then [log[|codes|]] else []
  {
    assert (codes + [c])[..|codes|] == codes;
  }

  /** When no put fails, all are kept. */
  lemma {:induction false} AllKept(log: seq<Accepted>, codes: seq<PutCodes>)
    requires |codes| <= |log| && AllOk(codes)
    ensures Kept(log, codes) == log[..|codes|]
  {
    if codes != [] {
      AllKept(log, codes[..|codes| - 1]);
    }
  }

  lemma PutsAreApply(db: Db, m: map<u32, Accepted>, kept: seq<Accepted>, a: Accepted, j: Junk, c: PutCodes)
    requires WellFormed(db) && Records(db) == ApplyAll(m, kept) && a.Fits()
    ensures var db' := AfterPut(db, a, j, c);
            WellFormed(db') && Records(db') == ApplyAll(m, kept + if c.Ok() then [a] else [])
  {
    if c.Ok() {
      PutIsApply(db, m, kept, a, j);
    } else {
      assert kept + [] == kept;
    }
  }

  /** `log[i]` is the last write for `k`. */
  ghost predicate IsLastWrite(log: seq<Accepted>, k: u32, i: nat) {
    && i < |log|
    && log[i].header.iid == k
    && forall l :: i < l < |log| ==> log[l].header.iid != k
  }

  ghost predicate NoWrite(log: seq<Accepted>, k: u32) {
    forall l :: 0 <= l < |log| ==> log[l].header.iid != k
  }

  /** `a` is what a reader must see for `k` after `log` on top of `m`. */
  ghost predicate IsLatest(m: map<u32, Accepted>, log: seq<Accepted>, k: u32, a: Accepted) {
    || (exists i: nat :: IsLastWrite(log, k, i) && a == log[i])
    || (NoWrite(log, k) && a == if k in m then m[k] else Accepted(Header(0, 0, 0, 0, 0, 0), []))
  }

  lemma LatestAfter(m: map<u32, Accepted>, front: seq<Accepted>, last: Accepted, k: u32, a: Accepted)
    requires last.header.iid != k && IsLatest(m, front, k, a)
    ensures IsLatest(m, front + [last], k, a)
  {
    var log := front + [last];
    if i: nat :| IsLastWrite(front, k, i) && a == front[i] {
      assert IsLastWrite(log, k, i) && a == log[i];
    } else {
      assert NoWrite(log, k);
    }
  }

  /** The last writer wins. */
  lemma {:induction false} LastWriterWins(m: map<u32, Accepted>, log: seq<Accepted>, k: u32)
    ensures var r := ApplyAll(m, log);
            IsLatest(m, log, k, if k in r then r[k] else ZERO)
  {
    if log == [] {
      assert NoWrite(log, k);
    } else {
      var n := |log| - 1;
      LastWriterWins(m, log[..n], k);
      assert log == log[..n] + [log[n]];
      if log[n].header.iid == k {
        assert IsLastWrite(log, k, n);
      } else {
        var r := ApplyAll(m, log[..n]);
        LatestAfter(m, log[..n], log[n], k, if k in r then r[k] else ZERO);
      }
    }
  }
}
