/** The file operations of the two persistence devices, in place. */
module DeviceOperations {
  import opened Bytes
  import opened Codec
  import opened Rings
  import opened KernelDevice
  import opened PaxosTypes
  import W = WritePersistence
  import R = ReadPersistence

  /** The end of both `add_message` functions, once `slot` is in the message buffer. */
  method FinishAdd(dev: PaxosKernelDevice, ghost slot: seq<byte>) returns (callback: KernelDeviceCallback)
    requires dev.Separate() && dev.model.Shape() && dev.model.Size() == |dev.msgBuf|
    requires dev.working == dev.model.working && dev.firstBuf == dev.model.first
    requires dev.currentBuf == dev.model.current && dev.usedBuf == dev.model.used + 1
    requires |slot| == SLOT
    requires forall i :: 0 <= i < |dev.msgBuf| ==>
      dev.SlotValid(i, if i == dev.currentBuf then slot else dev.model.msgs[i], dev.model.cbs[i])
    modifies dev, dev.callbackBuf[dev.currentBuf]
    ensures dev.Valid() && dev.model == Enqueue(old(dev.model), slot)
    ensures callback == dev.callbackBuf[old(dev.currentBuf)]
  {
    ghost var d := dev.model;
    assert dev.SlotValid(dev.currentBuf, slot, d.cbs[d.current]);
    callback := dev.callbackBuf[dev.currentBuf];
    callback.bufferId := dev.currentBuf;
    callback.iid := GetU32(dev.msgBuf[dev.currentBuf][..], 4);
    callback.isDone := false;
    dev.model := Enqueue(dev.model, slot);
    dev.currentBuf := (dev.currentBuf + 1) % |dev.msgBuf|;
    forall i | 0 <= i < |dev.msgBuf|
      ensures dev.SlotValid(i, dev.model.msgs[i], dev.model.cbs[i])
    {
      assert old(dev.SlotValid(i, if i == dev.currentBuf then slot else dev.model.msgs[i], dev.model.cbs[i]));
    }
  }

  /** The copy of `read_persistence_add_message`. */
  method StoreLookup(buf: array<byte>, msg: seq<byte>)
    requires |msg| <= buf.Length == SLOT
    modifies buf
    ensures buf[..] == R.SlotOf(msg, old(buf[..]))
  {
    ClearBytes(buf, HEADER);
    CopyBytes(buf, 0, msg);
  }

  lemma TailOfZeros(size: nat)
    requires size <= SLOT
    ensures Zeros(SLOT)[size..] == Zeros(SLOT - size)
  {
  }

  /** The copies of `write_persistence_add_message`: what is too long is cut off, and the length
      field is set to the size of what was copied. */
  method StoreRecord(buf: array<byte>, msg: seq<byte>)
    requires buf.Length == SLOT
    modifies buf
    ensures buf[..] == W.SlotOf(msg)
  {
    var size := |msg|;
    if size > SLOT {
      size := SLOT;
    }
    hide Zeros, PutI32;
    ClearBytes(buf, SLOT);
    CopyBytes(buf, 0, msg[..size]);
    TailOfZeros(size);
    assert buf[..] == msg[..size] + Zeros(SLOT - size);
    CopyBytes(buf, 24, PutI32(size - HEADER));
  }

  method ReadPersistenceAddMessage(dev: PaxosKernelDevice, msg: seq<byte>) returns (callback: KernelDeviceCallback?)
    requires dev.Valid() && |msg| <= SLOT
    modifies dev.Repr
    ensures dev.Valid() && dev.model == R.AddMessage(old(dev.model), msg)
    ensures callback == if old(dev.model).Full() then null else dev.callbackBuf[old(dev.model).current]
  {
    if dev.usedBuf >= |dev.msgBuf| {
      return null;
    }
    dev.usedBuf := dev.usedBuf + 1;
    assert dev.SlotValid(dev.currentBuf, dev.model.msgs[dev.currentBuf], dev.model.cbs[dev.currentBuf]);
    StoreLookup(dev.msgBuf[dev.currentBuf], msg);
    callback := FinishAdd(dev, R.SlotOf(msg, dev.model.msgs[dev.currentBuf]));
  }

  method WritePersistenceAddMessage(dev: PaxosKernelDevice, msg: seq<byte>) returns (callback: KernelDeviceCallback?)
    requires dev.Valid()
    modifies dev.Repr
    ensures dev.Valid() && dev.model == W.AddMessage(old(dev.model), msg)
    ensures |msg| >= 40 && old(dev.model).used < |old(dev.model).msgs| ==>
              var slot, len := dev.model.msgs[old(dev.model).current], if |msg| - 40 < 200 then |msg| - 40 else 200;
              && |slot| == 240 && ParseHeader(slot, 0) == ParseHeader(msg, 0).(len := len)
              && slot[40..40 + len] == msg[40..40 + len]
    ensures callback == if old(dev.model).Full() then null else dev.callbackBuf[old(dev.model).current]
  {
    if dev.usedBuf >= |dev.msgBuf| {
      return null;
    }
    dev.usedBuf := dev.usedBuf + 1;
    assert dev.SlotValid(dev.currentBuf, dev.model.msgs[dev.currentBuf], dev.model.cbs[dev.currentBuf]);
    StoreRecord(dev.msgBuf[dev.currentBuf], msg);
    if |msg| >= 40 {
      W.CutTo200(msg);
    }
    callback := FinishAdd(dev, W.SlotOf(msg));
  }

  /** What a `read` did: nothing, a failed copy, or a number of bytes. */
  datatype ReadResult = Stop | Failed | Copied(n: nat)

  /** The two copies to the user of both `read` functions. */
  method SendHead(user: array<byte>, id: i32, buf: array<byte>, llen: nat)
    requires user != buf && llen <= buf.Length && 4 + llen <= user.Length
    modifies user
    ensures user[..] == PutI32(id) + buf[..llen] + old(user[4 + llen..])
  {
    hide PutI32;
    CopyBytes(user, 0, PutI32(id));
    CopyBytes(user, 4, buf[..llen]);
  }

  /** The end of `write_persistence_read`. */
  method PassHead(dev: PaxosKernelDevice, copied: bool)
    requires dev.Valid() && dev.model.working
    modifies dev
    ensures dev.Valid() && dev.model == W.Read(old(dev.model), copied)
  {
    dev.usedBuf := dev.usedBuf - 1;
    if copied {
      dev.firstBuf := (dev.firstBuf + 1) % |dev.msgBuf|;
    }
    dev.model := W.Read(dev.model, copied);
  }

  /** `write_persistence_read`; `copied` says whether the copies to the user succeed. */
  method WritePersistenceRead(dev: PaxosKernelDevice, user: array<byte>, copied: bool) returns (r: ReadResult)
    requires dev.Valid() && user !in dev.Repr
    requires dev.model.working ==>
               Sendable(dev.model.msgs[dev.model.first])
               && 4 + HEADER + GetI32(dev.model.msgs[dev.model.first], 24) <= user.Length
    modifies dev.Repr, user
    ensures dev.Valid() && dev.model == W.Read(old(dev.model), copied)
    ensures r == if !old(dev.model).working then Stop
                 else if !copied then Failed
                 else Copied(|HeadFrame(old(dev.model))| - 4)
    ensures user[..] == if r.Copied? then HeadFrame(old(dev.model)) + old(user[r.n + 4..]) else old(user[..])
  {
    if !dev.working {
      return Stop;
    }
    assert dev.SlotValid(dev.firstBuf, dev.model.msgs[dev.firstBuf], dev.model.cbs[dev.firstBuf]);
    var buf := dev.msgBuf[dev.firstBuf];
    var llen := HEADER + GetI32(buf[..], 24);
    if copied {
      SendHead(user, dev.firstBuf, buf, llen);
    }
    PassHead(dev, copied);
    r := if copied then Copied(llen) else Failed;
  }

  /** `read_persistence_read`: the head is copied, not removed. */
  method ReadPersistenceRead(dev: PaxosKernelDevice, user: array<byte>, copied: bool) returns (r: ReadResult)
    requires dev.Valid() && user !in dev.Repr
    requires dev.model.working ==>
               Sendable(dev.model.msgs[dev.model.first])
               && 4 + HEADER + GetI32(dev.model.msgs[dev.model.first], 24) <= user.Length
    modifies user
    ensures dev.Valid() && dev.model == old(dev.model)
    ensures r == if !dev.model.working then Stop else if !copied then Failed else Copied(|HeadFrame(dev.model)|)
    ensures user[..] == if r.Copied? then HeadFrame(dev.model) + old(user[r.n..]) else old(user[..])
  {
    if !dev.working {
      return Stop;
    }
    assert dev.SlotValid(dev.firstBuf, dev.model.msgs[dev.firstBuf], dev.model.cbs[dev.firstBuf]);
    var buf := dev.msgBuf[dev.firstBuf];
    var llen := HEADER + GetI32(buf[..], 24);
    if !copied {
      return Failed;
    }
    SendHead(user, dev.firstBuf, buf, llen);
    r := Copied(llen + 4);
  }

  /** The header and value copies of `read_persistence_write` into a response: its pointer is
      overwritten with the header and put back. */
  method FillResponse(accepted: PaxosAccepted, buffer: seq<byte>, c: R.Copies)
    requires accepted.val.Heap? && accepted.val.buf.Length == MAX_VALUE
    requires c.header ==> Decodable(buffer, 4) && ParseHeader(buffer, 4).len <= MAX_VALUE
    modifies accepted, accepted.val.buf
    ensures accepted.val == old(accepted.val)
    ensures Response(accepted.Fields(), accepted.val.buf[..]) ==
      if c.header then R.Filled(Decode(buffer, 4).header, Decode(buffer, 4).value, c.value)
      else R.Clear(old(Response(accepted.Fields(), accepted.val.buf[..])))
    ensures !c.header ==> accepted.iid == accepted.promiseIid == accepted.ballot == accepted.len == 0
    ensures c.header ==> accepted.Fields() == ParseHeader(buffer, 4)
    ensures accepted.len > 0 && c.value ==> accepted.val.buf[..accepted.len] == buffer[44..44 + accepted.len]
    ensures forall k :: (if accepted.len > 0 && c.value then accepted.len else 0) <= k < 200 ==> accepted.val.buf[k] == 0
  {
    ClearPaxosAccepted(accepted);
    var paxosVal := accepted.val;
    if c.header {
      accepted.CopyHeader(buffer, 4);
      accepted.val := paxosVal;
      if accepted.len > 0 && c.value {
        CopyBytes(accepted.val.buf, 0, buffer[4 + HEADER..4 + HEADER + accepted.len]);
      }
    }
  }

  /** The response of a slot is filled, or only cleared; the indices stay. */
  method RespondInSlot(dev: PaxosKernelDevice, id: nat, buffer: seq<byte>, c: R.Copies) returns (value: nat)
    requires dev.Valid() && id < dev.model.Size()
    requires c.header ==> Decodable(buffer, 4) && ParseHeader(buffer, 4).len <= MAX_VALUE
    modifies dev`model, dev.responses[id], dev.values[id]
    ensures dev.Valid()
    ensures value == if c.header then |Decode(buffer, 4).value| else 0
    ensures var cb := old(dev.model).cbs[id];
            var r := if c.header then R.Filled(Decode(buffer, 4).header, Decode(buffer, 4).value, c.value)
                     else R.Clear(cb.response);
            dev.model == old(dev.model).(cbs := old(dev.model).cbs[id := cb.(response := r)])
  {
    ghost var before := dev.model;
    assert dev.SlotValid(id, before.msgs[id], before.cbs[id]);
    var accepted := dev.callbackBuf[id].response;
    FillResponse(accepted, buffer, c);
    value := if accepted.len > 0 then accepted.len else 0;
    ghost var cb := before.cbs[id].(response := Response(accepted.Fields(), accepted.val.buf[..]));
    dev.model := before.(cbs := before.cbs[id := cb]);
    forall i | 0 <= i < |dev.msgBuf|
      ensures dev.SlotValid(i, dev.model.msgs[i], dev.model.cbs[i])
    {
      assert old(dev.SlotValid(i, dev.model.msgs[i], dev.model.cbs[i]));
    }
  }

  /** The head is removed from the ring. */
  method DropHead(dev: PaxosKernelDevice)
    requires dev.Valid()
    modifies dev
    ensures dev.Valid()
    ensures var d := old(dev.model);
            dev.model == Dequeue(d)
  {
    dev.firstBuf := (dev.firstBuf + 1) % |dev.msgBuf|;
    dev.usedBuf := dev.usedBuf - 1;
    dev.model := Dequeue(dev.model);
  }

  /** The end of `read_persistence_write`: the pointer assigned is the one already there. */
  method PublishResponse(dev: PaxosKernelDevice, id: nat)
    requires dev.Valid() && id < dev.model.Size()
    modifies dev.callbackBuf[id]
    ensures dev.Valid() && dev.model == old(dev.model)
  {
    assert dev.SlotValid(id, dev.model.msgs[id], dev.model.cbs[id]);
    var callback := dev.callbackBuf[id];
    var accepted := callback.response;
    if !callback.isDone {
      callback.response := accepted;
    }
    forall i | 0 <= i < |dev.msgBuf|
      ensures dev.SlotValid(i, dev.model.msgs[i], dev.model.cbs[i])
    {
      assert old(dev.SlotValid(i, dev.model.msgs[i], dev.model.cbs[i]));
    }
  }

  /** `read_persistence_write`. */
  method ReadPersistenceWrite(dev: PaxosKernelDevice, buffer: seq<byte>, c: R.Copies) returns (ok: bool)
    requires dev.Valid() && R.ReplyOk(dev.model, buffer, c)
    modifies dev.Repr
    ensures dev.Valid() && dev.model == R.Reply(old(dev.model), buffer, c)
    ensures ok <==> R.Delivers(old(dev.model), c) && (c.value || Decode(buffer, 4).value == [])
    ensures old(dev.model).working && c.id ==>
              var r := dev.model.cbs[GetI32(buffer, 0)].response;
              if c.header then Decode(buffer, 4).Proper() ==> R.Shows(r, Decode(buffer, 4), c.value) else Blank(r)
  {
    if dev.working && c.id {
      R.ReplyShows(dev.model, buffer, c);
    }
    if !dev.working || !c.id {
      return false;
    }
    var value := RespondInSlot(dev, GetI32(buffer, 0), buffer, c);
    if !c.header {
      return false;
    }
    DropHead(dev);
    ok := c.value || value == 0;
    if ok {
      PublishResponse(dev, GetI32(buffer, 0));
    }
  }
}
