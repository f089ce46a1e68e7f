/** user_storage.c: the two threads that connect the devices to the database. */
module Daemon {
  import opened Bytes
  import opened Codec
  import opened PaxosTypes
  import opened Rings
  import opened KernelDevice
  import opened DeviceOperations
  import opened LmdbOperations
  import opened Store
  import W = WritePersistence
  import R = ReadPersistence

  /**
   On every path no transaction is left open. The process is aborted by `assert(s->txn)` if and
   only if the put fails in an open transaction: the transaction is then aborted, and the
   code goes on to commit it. Otherwise at most the record's own key changes, and it does
   so if and only if all three calls succeed.
   */
  method StoragePut(storage: LmdbStorage, accepted: PaxosAccepted, junk: Junk, c: PutCodes) returns (r: Outcome)
    requires storage.txn == NoTxn && accepted.Holds() && accepted.len >= 0
    modifies storage.env
    ensures storage.env.openTxns == old(storage.env.openTxns)
    ensures r == AssertFailed <==> c.Aborts()
    ensures r != AssertFailed ==> r == if c.Ok() then Rc(0) else Rc(1)
    ensures storage.env.db == AfterPut(old(storage.env.db), old(accepted.Record()), junk, c)
  {
    var s := new LmdbStorage.Copy(storage);
    var begun := TxBegin(s, c.begin);
    if begun != Rc(0) {
      return Rc(1);
    }
    var put := Put(s, accepted, junk, c.put);
    if put != 0 {
      TxAbort(s);
    }
    r := TxCommit(s, c.commit);
    if r != AssertFailed && r != Rc(0) {
      r := Rc(1);
    }
  }

  /**
   The database is unchanged, and every path that returns leaves no transaction open; the result
   is null exactly when begin or lookup fail or the record is missing. The assertion on the
   record's `iid` can only fail on an entry that is not well-formed.
   */
  method StorageGet(storage: LmdbStorage, iid: u32, c: GetCodes) returns (out: PaxosAccepted?, ghost asserted: bool)
    requires storage.txn == NoTxn
    requires iid in storage.env.db ==> Decodable(storage.env.db[iid], 0)
    modifies storage.env
    ensures storage.env.db == old(storage.env.db)
    ensures !asserted ==> storage.env.openTxns == old(storage.env.openTxns)
    ensures asserted <==> Fetch(storage.env.db, iid, c).Some? && Fetch(storage.env.db, iid, c).value.header.iid != iid
    ensures asserted ==> !EntryOk(iid, storage.env.db[iid])
    ensures !asserted ==> (out == null <==> Fetch(storage.env.db, iid, c).None?)
    ensures out != null ==>
              && fresh(out) && out.Holds() && (out.len > 0 ==> fresh(out.val.buf))
              && Fetch(storage.env.db, iid, c) == Some(out.Record())
  {
    asserted := false;
    var s := new LmdbStorage.Copy(storage);
    var begun := TxBegin(s, c.begin);
    var found := new PaxosAccepted(Null);
    var got := Get(s, iid, found, c.get);
    if got == AssertFailed {
      asserted := true;
      return null, asserted;
    }
    if got != Rc(1) {
      TxAbort(s);
      return null, asserted;
    }
    var committed := TxCommit(s, c.commit);
    assert committed != AssertFailed;
    out := found;
  }

  method ProcessWriteMessage(storage: LmdbStorage, value: PaxosAccepted, junk: Junk, c: PutCodes) returns (r: Outcome)
    requires storage.txn == NoTxn && value.Holds() && value.len >= 0
    modifies storage.env
    ensures storage.env.openTxns == old(storage.env.openTxns)
    ensures r == AssertFailed <==> c.Aborts()
    ensures storage.env.db == AfterPut(old(storage.env.db), old(value.Record()), junk, c)
  {
    r := StoragePut(storage, value, junk, c);
  }

  /** `client_value_to_buffer` and `write` of the read thread. */
  method SendReply(bufferId: i32, out: PaxosAccepted, dev: PaxosKernelDevice, junk: Junk, copies: R.Copies)
    requires out.Holds() && out.Record().Fits()
    requires dev.Valid() && 0 <= bufferId < dev.model.Size()
    modifies dev.Repr
    ensures R.ReplyOk(old(dev.model), Frame(bufferId, old(out.Record()), junk), copies)
    ensures dev.Valid() && dev.model == R.Reply(old(dev.model), Frame(bufferId, old(out.Record()), junk), copies)
  {
    R.FrameIsReply(dev.model, bufferId, out.Record(), junk, copies);
    var msg := ClientValueToBuffer(bufferId, out, junk);
    var ok := ReadPersistenceWrite(dev, msg[..4 + HEADER + out.len], copies);
  }

  /** The record sent for an `iid`: the one found, or a cleared one. */
  method LookUp(storage: LmdbStorage, iid: u32, c: GetCodes) returns (out: PaxosAccepted)
    requires storage.txn == NoTxn && WellFormed(storage.env.db)
    modifies storage.env
    ensures storage.env.openTxns == old(storage.env.openTxns) && storage.env.db == old(storage.env.db)
    ensures fresh(out) && out.Holds() && (out.len > 0 ==> fresh(out.val.buf))
    ensures out.Record() == Answer(storage.env.db, iid, c) && out.Record().Fits()
    ensures iid !in storage.env.db ==> out.Fields() == Header(0, 0, 0, 0, 0, 0)
  {
    AnswerFits(storage.env.db, iid, c);
    var found, asserted := StorageGet(storage, iid, c);
    if found == null {
      out := new PaxosAccepted(Null);
      out.aid, out.iid, out.promiseIid, out.ballot, out.valueBallot, out.len := 0, 0, 0, 0, 0, 0;
    } else {
      out := found;
    }
  }

  lemma ReplyLeaves(d: Device, db: Db, bufferId: i32, iid: u32, junk: Junk, c: GetCodes, copies: R.Copies)
    requires WellFormed(db) && d.Shape() && 0 <= bufferId < d.Size()
    ensures Answer(db, iid, c).Proper()
    ensures var f := Frame(bufferId, Answer(db, iid, c), junk);
            && R.ReplyOk(d, f, copies)
            && (d.working && copies.id && copies.header ==>
                  var r := R.Reply(d, f, copies).cbs[bufferId].response;
                  if iid in db && c.begin == 0 && c.get == 0 then
                    Decodable(db[iid], 0) && R.Shows(r, Decode(db[iid], 0), copies.value)
                  else
                    r.header == Header(0, 0, 0, 0, 0, 0) && |r.val| == 200 && forall k :: 0 <= k < 200 ==> r.val[k] == 0)
  {
    hide R.Reply, R.ReplyOk, R.Shows, Answer, Frame, WellFormed, Decode, Decodable;
    AnswerFits(db, iid, c);
    AnswerIs(db, iid, c);
    var a := Answer(db, iid, c);
    R.FrameIsReply(d, bufferId, a, junk, copies);
    if R.Delivers(d, copies) {
      var f := Frame(bufferId, a, junk);
      R.ReplyTouches(d, f, copies, bufferId);
      R.ReplyShows(d, f, copies);
      if !(iid in db && c.begin == 0 && c.get == 0) {
        R.NothingShown(R.Reply(d, f, copies).cbs[bufferId].response, copies.value);
      }
    }
  }

  /** The lookup is answered by a frame with the same buffer id, for a missing record by the
      all-zero record; what the device makes of it is not looked at. */
  method ProcessReadMessage(storage: LmdbStorage, bufferId: i32, iid: u32, dev: PaxosKernelDevice,
                            junk: Junk, c: GetCodes, copies: R.Copies)
    requires storage.txn == NoTxn && WellFormed(storage.env.db)
    requires dev.Valid() && 0 <= bufferId < dev.model.Size()
    requires storage !in dev.Repr && storage.env !in dev.Repr
    modifies storage.env, dev.Repr
    ensures storage.env.openTxns == old(storage.env.openTxns) && storage.env.db == old(storage.env.db)
    ensures Answer(storage.env.db, iid, c).Proper()
    ensures var f := Frame(bufferId, Answer(storage.env.db, iid, c), junk);
            && R.ReplyOk(old(dev.model), f, copies)
            && dev.Valid() && dev.model == R.Reply(old(dev.model), f, copies)
    ensures old(dev.model).working && copies.id && copies.header ==>
              var r := dev.model.cbs[bufferId].response;
              if iid in storage.env.db && c.begin == 0 && c.get == 0 then
                Decodable(storage.env.db[iid], 0) && R.Shows(r, Decode(storage.env.db[iid], 0), copies.value)
              else
                r.header == Header(0, 0, 0, 0, 0, 0) && |r.val| == 200 && forall k :: 0 <= k < 200 ==> r.val[k] == 0
  {
    ReplyLeaves(dev.model, storage.env.db, bufferId, iid, junk, c, copies);
    hide Answer, Frame, R.Reply, R.ReplyOk, R.Shows, Decode, WellFormed;
    var out := LookUp(storage, iid, c);
    SendReply(bufferId, out, dev, junk, copies);
  }

  // ---------- the write thread ----------

  /** The frames of the records of `log` from number `from` on have room in the receive buffer. */
  ghost predicate FramesFit(log: seq<Accepted>, from: nat, room: nat) {
    forall i :: from <= i < |log| ==> 4 + HEADER + |log[i].value| <= room
  }

  /** `read` of the write thread: the head of the ring is taken and decoded. */
  method ReceiveWrite(dev: PaxosKernelDevice, recv: array<byte>, accepted: PaxosAccepted,
                      ghost log: seq<Accepted>, ghost taken: nat)
    requires dev.Valid() && dev.model.working && dev.model.Readable() && W.Queue(dev.model, log, taken)
    requires {recv, accepted} !! dev.Repr && FramesFit(log, taken, recv.Length)
    modifies dev.Repr, recv, accepted
    ensures dev.Valid() && dev.model.working && dev.model.used == old(dev.model).used - 1
    ensures taken < |log| && W.Queue(dev.model, log, taken + 1)
    ensures accepted.Holds() && (accepted.len > 0 ==> fresh(accepted.val.buf))
    ensures accepted.Record() == log[taken] && log[taken].Fits()
  {
    W.TakeFromQueue(dev.model, log, taken);
    W.HeadFrameDecodes(dev.model, log[taken], recv[4 + HEADER + |log[taken].value|..]);
    var r := WritePersistenceRead(dev, recv, true);
    BufferToPaxosAccepted(recv[..], 4, accepted);
  }

  /** The records of `log` from number `from` on have left the ring and been put, as many as there
      are `codes`; those whose puts succeeded are what the store holds on top of `m`. */
  ghost predicate Writing(dev: PaxosKernelDevice, storage: LmdbStorage, m: map<u32, Accepted>,
                          log: seq<Accepted>, from: nat, codes: seq<PutCodes>)
    reads dev, dev.Repr, storage, storage.env
  {
    && dev.Valid() && dev.model.working
    && storage.txn == NoTxn && storage !in dev.Repr && storage.env !in dev.Repr
    && from + |codes| <= |log| && W.Queue(dev.model, log, from + |codes|) && AllFit(log)
    && WellFormed(storage.env.db) && Records(storage.env.db) == ApplyAll(m, Kept(log[from..], codes))
  }

  lemma OneMorePut(db: Db, m: map<u32, Accepted>, rest: seq<Accepted>, codes: seq<PutCodes>, j: Junk, c: PutCodes)
    requires |codes| < |rest| && rest[|codes|].Fits()
    requires WellFormed(db) && Records(db) == ApplyAll(m, Kept(rest, codes))
    ensures var db' := AfterPut(db, rest[|codes|], j, c);
            WellFormed(db') && Records(db') == ApplyAll(m, Kept(rest, codes + [c]))
  {
    PutsAreApply(db, m, Kept(rest, codes), rest[|codes|], j, c);
    KeptNext(rest, codes, c);
  }

  lemma OneMoreCode(codes: seq<PutCodes>, n: nat)
    requires n < |codes|
    ensures codes[..n] + [codes[n]] == codes[..n + 1]
  {
  }

  lemma BeforeWriting(dev: PaxosKernelDevice, storage: LmdbStorage, log: seq<Accepted>, taken: nat)
    requires dev.Valid() && dev.model.working && W.Queue(dev.model, log, taken) && AllFit(log)
    requires storage.txn == NoTxn && WellFormed(storage.env.db)
    requires storage !in dev.Repr && storage.env !in dev.Repr
    ensures Writing(dev, storage, Records(storage.env.db), log, taken, [])
  {
    hide W.Holds;
  }

  lemma AfterWriting(dev: PaxosKernelDevice, storage: LmdbStorage, m: map<u32, Accepted>,
                     log: seq<Accepted>, from: nat, codes: seq<PutCodes>)
    requires Writing(dev, storage, m, log, from, codes)
    ensures dev.Valid() && from + |codes| <= |log| && W.Queue(dev.model, log, from + |codes|)
    ensures dev.model.used == |log| - from - |codes|
    ensures WellFormed(storage.env.db) && Records(storage.env.db) == ApplyAll(m, Kept(log[from..], codes))
  {
  }

  /** One message of the write thread, whatever its put returns. */
  method ServeWrite(dev: PaxosKernelDevice, storage: LmdbStorage, recv: array<byte>, accepted: PaxosAccepted,
                    junk: Junk, c: PutCodes,
                    ghost m: map<u32, Accepted>, ghost log: seq<Accepted>, ghost from: nat, ghost codes: seq<PutCodes>)
    returns (r: Outcome)
    requires Writing(dev, storage, m, log, from, codes) && dev.model.Readable()
    requires {storage, storage.env, recv, accepted} !! dev.Repr && FramesFit(log, from, recv.Length)
    modifies storage.env, dev.Repr, recv, accepted
    ensures dev.Valid() && Writing(dev, storage, m, log, from, codes + [c])
    ensures dev.model.used == old(dev.model).used - 1 && (r == AssertFailed <==> c.Aborts())
    ensures storage.env.openTxns == old(storage.env.openTxns)
  {
    hide W.Queue, Kept, ApplyAll, Records, WellFormed;
    ghost var done, db := from + |codes|, storage.env.db;
    ReceiveWrite(dev, recv, accepted, log, done);
    assert log[from..][|codes|] == log[done];
    OneMorePut(db, m, log[from..], codes, junk, c);
    r := ProcessWriteMessage(storage, accepted, junk, c);
  }

  /**
   The loop of the write thread, when nothing is added: it serves exactly as many messages as the
   ring held, unless a put fails in an open transaction; then the process is aborted there.
   The store gets exactly the records whose puts succeed, in their order.
   */
  method DrainWrites(dev: PaxosKernelDevice, storage: LmdbStorage, recv: array<byte>, accepted: PaxosAccepted,
                     junks: nat -> Junk, codes: seq<PutCodes>,
                     ghost m: map<u32, Accepted>, ghost log: seq<Accepted>, ghost from: nat)
    returns (count: nat, aborted: bool)
    requires Writing(dev, storage, m, log, from, []) && dev.model.used <= |codes|
    requires {storage, storage.env, recv, accepted} !! dev.Repr && FramesFit(log, from, recv.Length)
    modifies storage.env, dev.Repr, recv, accepted
    ensures count <= old(dev.model).used && Writing(dev, storage, m, log, from, codes[..count])
    ensures forall i :: 0 <= i < count ==> (codes[i].Aborts() <==> aborted && i == count - 1)
    ensures aborted ==> count > 0
    ensures !aborted ==> count == old(dev.model).used && !dev.model.Readable()
    ensures storage.env.openTxns == old(storage.env.openTxns)
  {
    hide PaxosKernelDevice.Valid, Writing, W.Queue, Kept, ApplyAll, Records, WellFormed, FramesFit;
    count, aborted := 0, false;
    AfterWriting(dev, storage, m, log, from, []);
    var readable := dev.Poll();
    while readable && !aborted
      invariant dev.Valid() && count + dev.model.used == old(dev.model).used && 0 <= dev.model.used
      invariant Writing(dev, storage, m, log, from, codes[..count])
      invariant forall i :: 0 <= i < count ==> (codes[i].Aborts() <==> aborted && i == count - 1)
      invariant aborted ==> count > 0
      invariant readable == dev.model.Readable()
      invariant storage.env.openTxns == old(storage.env.openTxns)
      decreases dev.model.used
    {
      var r := ServeWrite(dev, storage, recv, accepted, junks(count), codes[count], m, log, from, codes[..count]);
      OneMoreCode(codes, count);
      aborted := r == AssertFailed;
      count := count + 1;
      readable := dev.Poll();
    }
  }

  /**
   What the write thread does to a ring that holds the records of `log` from number `taken`
   on, when their frames fit its receive buffer: unless a put aborts the process the ring is
   emptied, and the store is what the records whose puts succeeded make of it.
   */
  method WriteThread(dev: PaxosKernelDevice, storage: LmdbStorage, junks: nat -> Junk, codes: seq<PutCodes>,
                     ghost log: seq<Accepted>, ghost taken: nat) returns (count: nat, aborted: bool)
    requires dev.Valid() && dev.model.working && W.Queue(dev.model, log, taken) && dev.model.used <= |codes|
    requires AllFit(log) && FramesFit(log, taken, 240)
    requires storage.txn == NoTxn && WellFormed(storage.env.db)
    requires storage !in dev.Repr && storage.env !in dev.Repr
    modifies storage.env, dev.Repr
    ensures dev.Valid() && count <= |log| - taken && W.Queue(dev.model, log, taken + count)
    ensures forall i :: 0 <= i < count ==> (codes[i].Aborts() <==> aborted && i == count - 1)
    ensures if aborted then count > 0 else count == old(dev.model).used && !dev.model.Readable()
    ensures WellFormed(storage.env.db) && storage.env.openTxns == old(storage.env.openTxns)
    ensures Records(storage.env.db) == ApplyAll(Records(old(storage.env.db)), Kept(log[taken..], codes[..count]))
  {
    hide PaxosKernelDevice.Valid, Writing, W.Queue, Kept, ApplyAll, Records, WellFormed, FramesFit;
    ghost var m := Records(storage.env.db);
    var recv := new byte[HEADER + MAX_VALUE];
    var accepted := new PaxosAccepted(Null);
    BeforeWriting(dev, storage, log, taken);
    count, aborted := DrainWrites(dev, storage, recv, accepted, junks, codes, m, log, taken);
    AfterWriting(dev, storage, m, log, taken, codes[..count]);
  }

  // ---------- the read thread ----------

  /** The frames of the requests from number `from` on have room in the receive buffer. */
  ghost predicate RequestsFit(asks: seq<seq<byte>>, from: nat, room: nat)
    requires forall i :: 0 <= i < |asks| ==> |asks[i]| == SLOT
  {
    forall i :: from <= i < |asks| ==> 4 + HEADER + GetI32(asks[i], 24) <= room
  }

  lemma RequestFits(d: Device, asks: seq<seq<byte>>, served: nat, room: nat)
    requires R.Queue(d, asks, served) && d.Readable() && RequestsFit(asks, served, room)
    ensures served < |asks| && d.msgs[d.first] == asks[served]
    ensures 4 + HEADER <= |HeadFrame(d)| == 4 + HEADER + GetI32(asks[served], 24) <= room
  {
    R.HeadIsLive(d, asks, served);
  }

  /** `read` of the read thread: the head of the ring is copied and decoded. */
  method ReceiveLookup(dev: PaxosKernelDevice, recv: array<byte>, accepted: PaxosAccepted,
                       ghost asks: seq<seq<byte>>, ghost served: nat) returns (bufferId: i32)
    requires dev.Valid() && dev.model.working && dev.model.Readable() && R.Queue(dev.model, asks, served)
    requires {recv, accepted} !! dev.Repr && RequestsFit(asks, served, recv.Length)
    modifies recv, accepted
    ensures dev.Valid() && dev.model == old(dev.model)
    ensures served < |asks| && bufferId == dev.model.first && accepted.iid == R.Key(asks[served])
  {
    RequestFits(dev.model, asks, served, recv.Length);
    R.PeekQueue(dev.model, asks, served, recv[4 + HEADER + GetI32(asks[served], 24)..]);
    hide R.Queue, RequestsFit, GetI32, GetU32;
    var r := ReadPersistenceRead(dev, recv, true);
    bufferId := GetI32(recv[..], 0);
    BufferToPaxosAccepted(recv[..], 4, accepted);
  }

  /** The answers from number `from` on are what the database holds for their requests,
      when its calls return `codes`. */
  ghost predicate AnsweredFrom(db: Db, asks: seq<seq<byte>>, given: seq<R.Answer>, from: nat, codes: seq<GetCodes>)
    requires WellFormed(db) && |given| <= |asks| && (forall i :: 0 <= i < |asks| ==> |asks[i]| == SLOT)
    requires from <= |given| <= from + |codes|
  {
    forall i :: from <= i < |given| ==>
      given[i].copied && given[i].record == Answer(db, R.Key(asks[i]), codes[i - from])
  }

  lemma MoreAnswered(db: Db, asks: seq<seq<byte>>, given: seq<R.Answer>, from: nat, codes: seq<GetCodes>, a: R.Answer)
    requires WellFormed(db) && |given| < |asks| && (forall i :: 0 <= i < |asks| ==> |asks[i]| == SLOT)
    requires from <= |given| < from + |codes| && AnsweredFrom(db, asks, given, from, codes)
    requires a.copied && a.record == Answer(db, R.Key(asks[|given|]), codes[|given| - from])
    ensures AnsweredFrom(db, asks, given + [a], from, codes)
  {
  }

  /** The requests of `asks` up to the number of those `given` have been answered, those from
      number `from` on out of `db`, which is unchanged. */
  ghost predicate Reading(dev: PaxosKernelDevice, storage: LmdbStorage, db: Db,
                          asks: seq<seq<byte>>, from: nat, codes: seq<GetCodes>,
                          given: seq<R.Answer>, cleared: bool)
    reads dev, dev.Repr, storage, storage.env
  {
    && dev.Valid() && dev.model.working
    && storage.txn == NoTxn && storage !in dev.Repr && storage.env !in dev.Repr
    && R.Queue(dev.model, asks, |given|) && R.Retained(dev.model, given, cleared)
    && storage.env.db == db && WellFormed(db)
    && from <= |given| <= |asks| && |given| <= from + |codes| && AnsweredFrom(db, asks, given, from, codes)
  }

  /** The head of the ring is answered from the store. */
  method AnswerHead(dev: PaxosKernelDevice, storage: LmdbStorage, recv: array<byte>, accepted: PaxosAccepted,
                    junk: Junk, c: GetCodes, ghost asks: seq<seq<byte>>, ghost given: seq<R.Answer>, ghost cleared: bool)
    returns (ghost answer: R.Answer)
    requires dev.Valid() && dev.model.working && dev.model.Readable()
    requires R.Queue(dev.model, asks, |given|) && R.Retained(dev.model, given, cleared)
    requires storage.txn == NoTxn && WellFormed(storage.env.db)
    requires {storage, storage.env, recv, accepted} !! dev.Repr && RequestsFit(asks, |given|, recv.Length)
    modifies storage.env, dev.Repr, recv, accepted
    ensures dev.Valid() && dev.model.working && dev.model.used == old(dev.model).used - 1
    ensures dev.model.Size() == old(dev.model).Size()
    ensures storage.env.db == old(storage.env.db) && storage.env.openTxns == old(storage.env.openTxns)
    ensures |given| < |asks| && answer.copied
    ensures answer.record == Answer(storage.env.db, R.Key(asks[|given|]), c)
    ensures R.Queue(dev.model, asks, |given| + 1) && R.Retained(dev.model, given + [answer], false)
  {
    var bufferId := ReceiveLookup(dev, recv, accepted, asks, |given|);
    ghost var a := Answer(storage.env.db, accepted.iid, c);
    AnswerFits(storage.env.db, accepted.iid, c);
    R.FrameIsReply(dev.model, bufferId, a, junk, R.ALL_COPIED);
    R.DeliverHead(dev.model, asks, given, cleared, Frame(bufferId, a, junk), R.ALL_COPIED, 0);
    answer := R.Answer(0, a, true);
    ProcessReadMessage(storage, bufferId, accepted.iid, dev, junk, c, R.ALL_COPIED);
  }

  /** One message of the read thread, whose reply arrives. */
  method ServeLookup(dev: PaxosKernelDevice, storage: LmdbStorage, recv: array<byte>, accepted: PaxosAccepted,
                     junk: Junk, codes: seq<GetCodes>, next: nat, ghost db: Db,
                     ghost asks: seq<seq<byte>>, ghost from: nat, ghost given: seq<R.Answer>, ghost cleared: bool)
    returns (ghost answer: R.Answer)
    requires Reading(dev, storage, db, asks, from, codes, given, cleared) && dev.model.Readable()
    requires |given| == from + next && next < |codes|
    requires {storage, storage.env, recv, accepted} !! dev.Repr && RequestsFit(asks, from, recv.Length)
    modifies storage.env, dev.Repr, recv, accepted
    ensures dev.Valid() && Reading(dev, storage, db, asks, from, codes, given + [answer], false)
    ensures dev.model.used == old(dev.model).used - 1 && dev.model.Size() == old(dev.model).Size()
    ensures storage.env.openTxns == old(storage.env.openTxns)
  {
    answer := AnswerHead(dev, storage, recv, accepted, junk, codes[next], asks, given, cleared);
    MoreAnswered(db, asks, given, from, codes, answer);
  }

  lemma BeforeReading(dev: PaxosKernelDevice, storage: LmdbStorage, asks: seq<seq<byte>>, codes: seq<GetCodes>,
                      answers: seq<R.Answer>, cleared: bool)
    requires dev.Valid() && dev.model.working && dev.model.used <= |codes|
    requires R.Queue(dev.model, asks, |answers|) && R.Retained(dev.model, answers, cleared)
    requires storage.txn == NoTxn && WellFormed(storage.env.db)
    requires storage !in dev.Repr && storage.env !in dev.Repr
    ensures Reading(dev, storage, storage.env.db, asks, |answers|, codes, answers, cleared)
    ensures 0 <= dev.model.used == |asks| - |answers| <= dev.model.Size()
  {
  }

  lemma AfterReading(dev: PaxosKernelDevice, storage: LmdbStorage, db: Db, asks: seq<seq<byte>>, from: nat,
                     codes: seq<GetCodes>, given: seq<R.Answer>, cleared: bool)
    requires Reading(dev, storage, db, asks, from, codes, given, cleared)
    ensures dev.Valid() && storage.env.db == db && WellFormed(db)
    ensures R.Queue(dev.model, asks, |given|) && R.Retained(dev.model, given, cleared)
    ensures from <= |given| <= |asks| && |given| <= from + |codes| && AnsweredFrom(db, asks, given, from, codes)
    ensures dev.model.used == |asks| - |given|
  {
  }

  /** When all requests are answered, those of the last lap are shown in their slots. */
  lemma AllShown(d: Device, db: Db, asks: seq<seq<byte>>, from: nat, codes: seq<GetCodes>,
                 given: seq<R.Answer>, cleared: bool)
    requires WellFormed(db) && R.Queue(d, asks, |asks|) && R.Retained(d, given, cleared)
    requires from <= |given| == |asks| <= from + |codes| && AnsweredFrom(db, asks, given, from, codes)
    requires |asks| <= from + d.Size() && (cleared ==> from == |asks|)
    ensures forall i :: from <= i < |asks| ==>
              R.Shows(d.cbs[Place(i, d.Size())].response, Answer(db, R.Key(asks[i]), codes[i - from]), true)
  {
    forall i | from <= i < |asks|
      ensures R.Shows(d.cbs[Place(i, d.Size())].response, Answer(db, R.Key(asks[i]), codes[i - from]), true)
    {
      assert R.Shows(d.cbs[Place(i, d.Size())].response, given[i].record, given[i].copied);
    }
  }

  /**
   The read thread on a ring that holds the requests of `asks` from number `|answers|` on, when
   every reply arrives and nothing is added: it serves exactly as many messages as the ring held,
   leaves the store alone, and each request's slot then shows what the store holds for it, or
   the zero record if the database calls for it failed.
   */
  method DrainLookups(dev: PaxosKernelDevice, storage: LmdbStorage, recv: array<byte>, accepted: PaxosAccepted,
                      junks: nat -> Junk, codes: seq<GetCodes>,
                      ghost asks: seq<seq<byte>>, ghost answers: seq<R.Answer>, ghost cleared: bool)
    returns (count: nat)
    requires dev.Valid() && dev.model.working && dev.model.used <= |codes|
    requires R.Queue(dev.model, asks, |answers|) && R.Retained(dev.model, answers, cleared)
    requires storage.txn == NoTxn && WellFormed(storage.env.db)
    requires {storage, storage.env, recv, accepted} !! dev.Repr && RequestsFit(asks, |answers|, recv.Length)
    modifies storage.env, dev.Repr, recv, accepted
    ensures dev.Valid() && R.Queue(dev.model, asks, |asks|) && !dev.model.Readable()
    ensures count == old(dev.model).used
    ensures storage.env.db == old(storage.env.db) && storage.env.openTxns == old(storage.env.openTxns)
    ensures forall i :: |answers| <= i < |asks| ==>
              R.Shows(dev.model.cbs[Place(i, dev.model.Size())].response,
                      Answer(storage.env.db, R.Key(asks[i]), codes[i - |answers|]), true)
  {
    ghost var given, unclear, db := answers, cleared, storage.env.db;
    BeforeReading(dev, storage, asks, codes, answers, cleared);
    hide PaxosKernelDevice.Valid, Reading, R.Queue, R.Retained, WellFormed, RequestsFit, AnsweredFrom;
    count := 0;
    var readable := dev.Poll();
    while readable
      invariant dev.Valid() && Reading(dev, storage, db, asks, |answers|, codes, given, unclear)
      invariant 0 <= dev.model.used && (count > 0 ==> !unclear)
      invariant |given| == |answers| + count
      invariant count + dev.model.used == old(dev.model).used && readable == dev.model.Readable()
      invariant dev.model.Size() == old(dev.model).Size()
      invariant storage.env.openTxns == old(storage.env.openTxns)
      decreases dev.model.used
    {
      ghost var answer := ServeLookup(dev, storage, recv, accepted, junks(count), codes, count, db, asks, |answers|,
                                          given, unclear);
      given, unclear := given + [answer], false;
      count := count + 1;
      readable := dev.Poll();
    }
    AfterReading(dev, storage, db, asks, |answers|, codes, given, unclear);
    AllShown(dev.model, db, asks, |answers|, codes, given, unclear);
  }
}
