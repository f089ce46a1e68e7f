/** kernel_device.c and paxos.c: the objects in kernel memory, built once and updated in place. */
module KernelDevice {
  import opened Bytes
  import opened Codec
  import opened PaxosTypes
  import opened Rings
  import R = ReadPersistence

  method ClearPaxosAccepted(a: PaxosAccepted)
    requires a.val.Heap? && a.val.buf.Length == MAX_VALUE
    modifies a, a.val.buf
    ensures a.val == old(a.val)
    ensures a.iid == a.promiseIid == a.ballot == a.len == 0
    ensures a.aid == old(a.aid) && a.valueBallot == old(a.valueBallot)
    ensures forall k :: 0 <= k < 200 ==> a.val.buf[k] == 0
    ensures Response(a.Fields(), a.val.buf[..]) == R.Clear(Response(old(a.Fields()), old(a.val.buf[..])))
  {
    a.iid := 0;
    a.promiseIid := 0;
    a.ballot := 0;
    a.len := 0;
    ClearBytes(a.val.buf, MAX_VALUE);
  }

  /** `kernel_device_callback`, without its wait queue. */
  class KernelDeviceCallback {
    var response: PaxosAccepted
    var bufferId: int
    var isDone: bool
    var iid: u32

    constructor (response: PaxosAccepted)
      ensures this.response == response && !isDone
    {
      this.response := response;
      this.isDone := false;
    }
  }

  /** The objects of one slot. */
  datatype Slot = Slot(msg: array<byte>, callback: KernelDeviceCallback, response: PaxosAccepted, val: array<byte>) {
    ghost function Objects(): set<object> {
      {msg, callback, response, val}
    }

    ghost predicate OwnedBy(owner: map<object, nat>, k: nat) {
      forall o :: o in Objects() ==> o in owner && owner[o] == k
    }

    ghost predicate Built()
      reads callback, response
    {
      && msg != val && msg.Length == SLOT && val.Length == MAX_VALUE
      && callback.response == response && response.val == Heap(val)
    }

    ghost function Value(): Callback
      reads callback, response, val
    {
      Callback(callback.bufferId, callback.iid, callback.isDone, Response(response.Fields(), val[..]))
    }

    /** The slot holds these values, and its response is cleared. */
    ghost predicate Holds(m: seq<byte>, cb: Callback)
      reads msg, callback, response, val
    {
      m == msg[..] && cb == Value() && Blank(cb.response) && !cb.isDone
    }
  }

  /** One round of the loop of `kdevchar_init`. */
  method NewSlot() returns (s: Slot)
    ensures fresh(s.Objects()) && s.Built()
    ensures Blank(s.Value().response) && !s.Value().isDone
  {
    var msg := new byte[SLOT];
    var val := new byte[MAX_VALUE];
    var response := new PaxosAccepted(Heap(val));
    ClearPaxosAccepted(response);
    var callback := new KernelDeviceCallback(response);
    s := Slot(msg, callback, response, val);
  }

  /** The loop of `kdevchar_init`. */
  method NewSlots(size: nat)
    returns (slots: seq<Slot>, ghost owner: map<object, nat>, ghost msgs: seq<seq<byte>>, ghost cbs: seq<Callback>)
    ensures |slots| == |msgs| == |cbs| == size && fresh(owner.Keys)
    ensures forall k :: 0 <= k < size ==> slots[k].OwnedBy(owner, k)
    ensures forall k :: 0 <= k < size ==> slots[k].Built() && slots[k].Holds(msgs[k], cbs[k])
  {
    slots, owner, msgs, cbs := [], map[], [], [];
    for i := 0 to size
      invariant |slots| == |msgs| == |cbs| == i && fresh(owner.Keys)
      invariant forall k :: 0 <= k < i ==> slots[k].OwnedBy(owner, k)
      invariant forall k :: 0 <= k < i ==> slots[k].Built() && slots[k].Holds(msgs[k], cbs[k])
    {
      var slot := NewSlot();
      slots := slots + [slot];
      owner := owner + map o | o in slot.Objects() :: i as nat;
      msgs, cbs := msgs + [slot.msg[..]], cbs + [slot.Value()];
    }
  }

  /** `struct paxos_kernel_device`, without its kernel bookkeeping. */
  class PaxosKernelDevice {
    const msgBuf: seq<array<byte>>
    const callbackBuf: seq<KernelDeviceCallback>
    var working: bool
    var firstBuf: nat
    var currentBuf: nat
    var usedBuf: int

    // the objects the callbacks are to lead to, all objects of the device, and the device as a value
    ghost const responses: seq<PaxosAccepted>
    ghost const values: seq<array<byte>>
    ghost const Repr: set<object>
    ghost const slotOf: map<object, nat>
    ghost var model: Device

    /** Every object belongs to one slot only, and a slot's two buffers are different ones. */
    ghost predicate Separate() {
      && this in Repr
      && |msgBuf| == |callbackBuf| == |responses| == |values|
      && (forall i :: 0 <= i < |msgBuf| ==>
            && msgBuf[i] in Repr && callbackBuf[i] in Repr && responses[i] in Repr && values[i] in Repr
            && msgBuf[i].Length == SLOT && values[i].Length == MAX_VALUE && msgBuf[i] != values[i])
      && (forall i :: 0 <= i < |msgBuf| ==>
            && Owner(msgBuf[i]) == i && Owner(callbackBuf[i]) == i
            && Owner(responses[i]) == i && Owner(values[i]) == i)
    }

    ghost function Owner(o: object): int {
      if o in slotOf then slotOf[o] else -1
    }

    /** Slot `i` is wired to its own objects, which hold these values. */
    ghost predicate SlotValid(i: nat, msg: seq<byte>, cb: Callback)
      requires i < |msgBuf| == |callbackBuf| == |responses| == |values|
      reads msgBuf[i], callbackBuf[i], responses[i], values[i]
    {
      && callbackBuf[i].response == responses[i]
      && responses[i].val == Heap(values[i])
      && msg == msgBuf[i][..]
      && cb == Callback(callbackBuf[i].bufferId, callbackBuf[i].iid, callbackBuf[i].isDone,
                        Response(responses[i].Fields(), values[i][..]))
    }

    ghost predicate Valid()
      reads Repr
    {
      && Separate()
      && model.Shape()
      && model.Size() == |msgBuf|
      && model.working == working
      && model.first == firstBuf
      && model.current == currentBuf
      && model.used == usedBuf
      && forall i :: 0 <= i < |msgBuf| ==> SlotValid(i, model.msgs[i], model.cbs[i])
    }

    /** `kdevchar_init`: all slots are allocated and every response is cleared; the message
        buffers keep whatever the allocator left in them. */
    constructor KdevcharInit(size: nat)
      requires 0 < size < 0x8000_0000
      ensures Valid() && fresh(Repr)
      ensures model.Size() == size && Built(model)
    {
      var slots, owner, msgs, cbs := NewSlots(size);
      this.msgBuf := seq(size, i requires 0 <= i < size => slots[i].msg);
      this.callbackBuf := seq(size, i requires 0 <= i < size => slots[i].callback);
      this.responses := seq(size, i requires 0 <= i < size => slots[i].response);
      this.values := seq(size, i requires 0 <= i < size => slots[i].val);
      this.Repr := {this} + owner.Keys;
      this.slotOf := owner;
      this.working := true;
      this.currentBuf := 0;
      this.firstBuf := 0;
      this.usedBuf := 0;
      this.model := Device(true, 0, 0, 0, msgs, cbs);
    }

    /** `read_persistence_release` and `write_persistence_release`. */
    method Release()
      requires Valid()
      modifies Repr
      ensures Valid() && model == old(model).Release()
    {
      usedBuf := 0;
      currentBuf := 0;
      firstBuf := 0;
      model := model.Release();
    }

    /** `read_persistence_poll` and `write_persistence_poll`. */
    method Poll() returns (readable: bool)
      requires Valid()
      ensures readable == model.Readable()
    {
      readable := usedBuf > 0;
    }
  }

  /** Followed through the heap, the pointers of different slots never lead to the same object:
      every reply overwrites a value pointer and still leaves it where it was. */
  lemma SlotsStaySeparate(dev: PaxosKernelDevice, i: nat, j: nat)
    requires dev.Valid() && i < j < |dev.msgBuf|
    ensures dev.msgBuf[i] != dev.msgBuf[j] && dev.callbackBuf[i] != dev.callbackBuf[j]
    ensures var r, r' := dev.callbackBuf[i].response, dev.callbackBuf[j].response;
            && r != r'
            && r.val.Heap? && r'.val.Heap? && r.val.buf.Length == r'.val.buf.Length == MAX_VALUE
            && r.val.buf != r'.val.buf
            && r.val.buf !in {dev.msgBuf[i], dev.msgBuf[j]} && r'.val.buf !in {dev.msgBuf[i], dev.msgBuf[j]}
  {
    assert dev.SlotValid(i, dev.model.msgs[i], dev.model.cbs[i]);
    assert dev.SlotValid(j, dev.model.msgs[j], dev.model.cbs[j]);
    assert dev.Owner(dev.msgBuf[i]) == dev.Owner(dev.values[i]) == i;
    assert dev.Owner(dev.msgBuf[j]) == dev.Owner(dev.values[j]) == j;
  }
}
