/** lmdb_operations.c: records to bytes and back, and the transactions around the database. */
module LmdbOperations {
  import opened Bytes
  import opened Codec
  import opened PaxosTypes
  import opened Store

  method BufferToPaxosAccepted(buffer: seq<byte>, at: nat, out: PaxosAccepted)
    requires Decodable(buffer, at)
    modifies out
    ensures out.Holds() && out.Record() == Decode(buffer, at)
    ensures if out.len > 0 then out.val.Heap? && fresh(out.val.buf) else out.val == Null
  {
    out.CopyHeader(buffer, at);
    if out.len > 0 {
      var val := new byte[out.len];
      CopyBytes(val, 0, buffer[at + HEADER..at + HEADER + out.len]);
      out.val := Heap(val);
    } else {
      out.val := Null;
    }
  }

  /** `junk` is what the padding and the pointer of the struct hold. */
  method PaxosAcceptedToBuffer(acc: PaxosAccepted, junk: Junk) returns (buffer: array<byte>)
    requires acc.Holds() && acc.len >= 0
    ensures fresh(buffer) && buffer[..] == Encode(acc.Record(), junk)
  {
    hide HeaderBytes;
    buffer := new byte[HEADER + acc.len];
    CopyBytes(buffer, 0, HeaderBytes(acc.Fields(), junk));
    if acc.len > 0 {
      CopyBytes(buffer, HEADER, acc.val.buf[..acc.len]);
    }
  }

  /** The buffer is a `client_value` (16 bytes) longer than the record; the frame needs only
      the id's four of them. */
  method ClientValueToBuffer(bufferId: i32, value: PaxosAccepted, junk: Junk) returns (buffer: array<byte>)
    requires value.Holds() && value.len >= 0
    ensures fresh(buffer) && buffer.Length == 16 + HEADER + value.len
    ensures buffer[..4 + HEADER + value.len] == Frame(bufferId, value.Record(), junk)
  {
    hide HeaderBytes, PutI32;
    buffer := new byte[16 + HEADER + value.len];
    var accepted := PaxosAcceptedToBuffer(value, junk);
    CopyBytes(buffer, 0, PutI32(bufferId));
    CopyBytes(buffer, 4, accepted[..]);
  }

  // ---------- transactions ----------

  /** The database shared by both threads: its committed contents, and how many
      transactions were begun and neither committed nor aborted. */
  class MdbEnv {
    var db: Db
    var openTxns: nat
  }

  datatype Txn = NoTxn | Txn(pending: Db)

  /** `struct lmdb_storage`. */
  class LmdbStorage {
    const env: MdbEnv
    var txn: Txn

    /** The struct is passed by value: callees work on a copy. */
    constructor Copy(s: LmdbStorage)
      ensures env == s.env && txn == s.txn
    {
      env := s.env;
      txn := s.txn;
    }
  }

  /** A return code, or the abort of the process by a failed `assert`. */
  datatype Outcome = Rc(code: int) | AssertFailed

  method TxBegin(s: LmdbStorage, rc: int) returns (r: Outcome)
    modifies s`txn, s.env`openTxns
    ensures old(s.txn) != NoTxn ==> r == AssertFailed && s.txn == old(s.txn)
    ensures old(s.txn) == NoTxn ==> r == Rc(rc) && s.txn == if rc == 0 then Txn(s.env.db) else NoTxn
    ensures s.env.openTxns == old(s.env.openTxns) + if r == Rc(0) then 1 else 0
  {
    if s.txn != NoTxn {
      return AssertFailed;
    }
    if rc == 0 {
      s.txn := Txn(s.env.db);
      s.env.openTxns := s.env.openTxns + 1;
    }
    r := Rc(rc);
  }

  method TxCommit(s: LmdbStorage, rc: int) returns (r: Outcome)
    requires s.txn.Txn? ==> s.env.openTxns > 0
    modifies s`txn, s.env
    ensures s.txn == NoTxn
    ensures r == if old(s.txn).NoTxn? then AssertFailed else Rc(rc)
    ensures s.env.db == if r == Rc(0) then old(s.txn).pending else old(s.env.db)
    ensures s.env.openTxns == old(s.env.openTxns) - if old(s.txn).Txn? then 1 else 0
  {
    if s.txn == NoTxn {
      return AssertFailed;
    }
    if rc == 0 {
      s.env.db := s.txn.pending;
    }
    s.env.openTxns := s.env.openTxns - 1;
    s.txn := NoTxn;
    r := Rc(rc);
  }

  method TxAbort(s: LmdbStorage)
    requires s.txn.Txn? ==> s.env.openTxns > 0
    modifies s`txn, s.env`openTxns
    ensures s.txn == NoTxn
    ensures s.env.openTxns == old(s.env.openTxns) - if old(s.txn).Txn? then 1 else 0
  {
    if s.txn.Txn? {
      s.env.openTxns := s.env.openTxns - 1;
      s.txn := NoTxn;
    }
  }

  method Put(s: LmdbStorage, acc: PaxosAccepted, junk: Junk, rc: int) returns (r: int)
    requires s.txn.Txn? && acc.Holds() && acc.len >= 0
    modifies s`txn
    ensures r == rc
    ensures s.txn == if rc == 0 then Txn(old(s.txn).pending[acc.iid := Encode(acc.Record(), junk)]) else old(s.txn)
  {
    var buffer := PaxosAcceptedToBuffer(acc, junk);
    if rc == 0 {
      s.txn := Txn(s.txn.pending[acc.iid := buffer[..]]);
    }
    r := rc;
  }

  /** Without a transaction the lookup fails like any other failed call. */
  method Get(s: LmdbStorage, iid: u32, out: PaxosAccepted, rc: int) returns (r: Outcome)
    requires s.txn.Txn? && iid in s.txn.pending ==> Decodable(s.txn.pending[iid], 0)
    modifies out
    ensures s.txn.NoTxn? || rc != 0 || iid !in s.txn.pending ==> r == Rc(0) && unchanged(out)
    ensures s.txn.Txn? && rc == 0 && iid in s.txn.pending ==>
              && out.Holds() && out.Record() == Decode(s.txn.pending[iid], 0)
              && (if out.len > 0 then out.val.Heap? && fresh(out.val.buf) else out.val == Null)
              && r == if out.iid == iid then Rc(1) else AssertFailed
  {
    if s.txn == NoTxn || rc != 0 || iid !in s.txn.pending {
      return Rc(0);
    }
    BufferToPaxosAccepted(s.txn.pending[iid], 0, out);
    if iid != out.iid {
      return AssertFailed;
    }
    r := Rc(1);
  }
}
