/**
 The state of a `paxos_kernel_device` as a value, and what its operations do to it.

 Both persistence devices own `BUFFER_SIZE` slots, each a message buffer and a callback,
 used as a ring through `first_buf`, `current_buf` and `used_buf`. `BUFFER_SIZE` is the
 number of slots here, any positive number a C `int` can index.
 */
module Rings {
  import opened Bytes
  import opened Codec

  /** A `paxos_accepted` in kernel memory with the 200-byte buffer its pointer leads to. */
  datatype Response = Response(header: Header, val: seq<byte>)

  datatype Callback = Callback(bufferId: int, iid: u32, isDone: bool, response: Response)

  datatype Device = Device(working: bool, first: nat, current: nat, used: int,
                           msgs: seq<seq<byte>>, cbs: seq<Callback>)
  {
    function Size(): nat {
      |msgs|
    }

    ghost predicate Shape() {
      && 0 < |msgs| == |cbs| < 0x8000_0000
      && first < |msgs|
      && current < |msgs|
      && (forall s :: 0 <= s < |msgs| ==> |msgs[s]| == SLOT)
      && (forall s :: 0 <= s < |cbs| ==> |cbs[s].response.val| == MAX_VALUE)
    }

    predicate Full() {
      used >= |msgs|
    }

    /** `poll` reports input. */
    predicate Readable() {
      used > 0
    }

    /** `release` on either device. */
    function Release(): Device {
      this.(used := 0, current := 0, first := 0)
    }
  }

  /** What both `add_message` functions do once they know what to put in the slot. */
  function Enqueue(d: Device, slot: seq<byte>): (r: Device)
    requires d.Shape() && |slot| == SLOT
    ensures r.Shape()
  {
    var cb := d.cbs[d.current].(bufferId := d.current, iid := GetU32(slot, 4), isDone := false);
    d.(msgs := d.msgs[d.current := slot], cbs := d.cbs[d.current := cb],
       current := (d.current + 1) % d.Size(), used := d.used + 1)
  }

  /** Adding a message touches its own slot only, whose callback is then fresh. */
  lemma EnqueueTouches(d: Device, slot: seq<byte>, k: nat)
    requires d.Shape() && |slot| == SLOT && k < |d.msgs|
    ensures var d' := Enqueue(d, slot);
            && d'.first == d.first && d'.working == d.working
            && d'.msgs[k] == (if k == d.current then slot else d.msgs[k])
            && d'.cbs[k].response == d.cbs[k].response
            && (k == d.current ==>
                  d'.cbs[k].bufferId == k && d'.cbs[k].iid == GetU32(slot, 4) && !d'.cbs[k].isDone)
            && (k != d.current ==> d'.cbs[k] == d.cbs[k])
  {
  }

  /** A response with nothing in it; `aid` and `value_ballot` are not looked after. */
  ghost predicate Blank(r: Response) {
    && r.header.iid == r.header.promiseIid == r.header.ballot == r.header.len == 0
    && |r.val| == 200 && forall k :: 0 <= k < 200 ==> r.val[k] == 0
  }

  /** What `kdevchar_init` leaves behind. */
  ghost predicate Built(d: Device) {
    && d.Shape() && d.working
    && d.first == d.current == d.used == 0
    && (forall s :: 0 <= s < |d.msgs| ==> |d.msgs[s]| == 240)
    && forall s :: 0 <= s < |d.cbs| ==> Blank(d.cbs[s].response) && !d.cbs[s].isDone
  }

  /** A slot holds a length `read` can copy. */
  predicate Sendable(slot: seq<byte>)
    requires |slot| == SLOT
  {
    -HEADER <= GetI32(slot, 24) <= MAX_VALUE
  }

  /** The bytes both `read` functions copy to the user. */
  function HeadFrame(d: Device): seq<byte>
    requires d.Shape() && Sendable(d.msgs[d.first])
  {
    PutI32(d.first) + d.msgs[d.first][..HEADER + GetI32(d.msgs[d.first], 24)]
  }

  /** The head leaves the ring. */
  function Dequeue(d: Device): (r: Device)
    requires d.Shape()
    ensures r.Shape()
  {
    d.(first := (d.first + 1) % d.Size(), used := d.used - 1)
  }

  /** The slot of message number `i`, counted from the last release. */
  function Place(i: nat, n: nat): (s: nat)
    requires n > 0
    ensures s < n
  {
    i % n
  }

  /** The indices of a ring to which `total` messages were added and from which `done` were removed. */
  ghost predicate Indexed(d: Device, total: nat, done: nat)
    requires d.Shape()
  {
    && done <= total
    && d.used == total - done <= d.Size()
    && d.current == Place(total, d.Size())
    && d.first == Place(done, d.Size())
  }

  lemma MulBounds(n: int, k: int)
    requires n >= 0
    ensures k >= 1 ==> n * k >= n
    ensures k <= 0 ==> n * k <= 0
    ensures k <= -1 ==> n * k <= -n
  {
  }

  /** Quotient and remainder are determined by their defining equation. */
  lemma ModIs(x: int, n: nat, q: int, r: int)
    requires n > 0 && x == n * q + r && 0 <= r < n
    ensures x % n == r
  {
    MulBounds(n, q - x / n);
    assert n * (q - x / n) == x % n - r;
  }

  lemma ModSucc(i: int, n: nat)
    requires n > 0
    ensures (i + 1) % n == (i % n + 1) % n
  {
    var q, r := i / n, i % n + 1;
    if r < n {
      ModIs(i + 1, n, q, r);
    } else {
      ModIs(i + 1, n, q + 1, 0);
    }
  }

  lemma ModAddLeft(x: int, z: int, n: nat)
    requires n > 0
    ensures (x % n + z) % n == (x + z) % n
  {
    var q, m := x / n, (x % n + z) / n;
    assert n * q + n * m == n * (q + m);
    ModIs(x + z, n, q + m, (x % n + z) % n);
  }

  /** Two numbers less than a lap apart never share a slot. */
  lemma ModDistinct(i: nat, j: nat, n: nat)
    requires i < j < i + n
    ensures i % n != j % n
  {
    var k := j / n - i / n;
    assert j - i == n * k + (j % n - i % n);
    MulBounds(n, k);
  }

  /** The slots in use, oldest first, read off the device alone. */
  function RingSlots(d: Device): seq<seq<byte>>
    requires d.Shape() && 0 <= d.used
  {
    seq(d.used, k requires 0 <= k < d.used => d.msgs[(d.first + k) % d.Size()])
  }

  lemma SlotAt(d: Device, done: nat, k: nat)
    requires d.Shape() && d.first == Place(done, d.Size()) && k < d.used
    ensures RingSlots(d)[k] == d.msgs[Place(done + k, d.Size())]
  {
    ModAddLeft(done, k, d.Size());
  }
}

/** write_persistence_device_operations.c: records on their way to the store, consumed by `read`. */
module WritePersistence {
  import opened Bytes
  import opened Codec
  import opened Rings

  /** What `write_persistence_add_message` leaves in a slot, for a message of any size. */
  function SlotOf(msg: seq<byte>): (slot: seq<byte>)
    ensures |slot| == SLOT
  {
    var size := Min(|msg|, SLOT);
    var raw := msg[..size] + Zeros(SLOT - size);
    raw[..24] + PutI32(size - HEADER) + raw[28..]
  }

  /** The record a message stands for: its value is what follows the header, cut to 200 bytes. */
  function Truncated(msg: seq<byte>): (a: Accepted)
    requires |msg| >= HEADER
    ensures a.Proper()
  {
    var value := msg[HEADER..Min(|msg|, SLOT)];
    Accepted(ParseHeader(msg, 0).(len := |value|), value)
  }

  function AddMessage(d: Device, msg: seq<byte>): (r: Device)
    requires d.Shape()
    ensures r.Shape()
  {
    if d.Full() then d else
    Enqueue(d, SlotOf(msg))
  }

  /** `write_persistence_read` removes the head; if a copy failed the index stays behind. */
  function Read(d: Device, copied: bool): (r: Device)
    requires d.Shape()
    ensures r.Shape()
  {
    if !d.working then d else
    if copied then Dequeue(d) else d.(used := d.used - 1)
  }

  // ---------- what a slot holds ----------

  /** The slot decodes to the record. */
  ghost predicate Holds(slot: seq<byte>, a: Accepted) {
    |slot| == SLOT && a.Fits() && Decodable(slot, 0) && Decode(slot, 0) == a
  }

  /** Byte by byte, for a message of any size. */
  lemma SlotBytes(msg: seq<byte>, k: nat)
    requires k < 240
    ensures |SlotOf(msg)| == 240
    ensures SlotOf(msg)[k] ==
            if 24 <= k < 28 then PutI32((if |msg| < 240 then |msg| else 240) - 40)[k - 24]
            else if k < |msg| then msg[k] else 0
  {
    hide PutI32;
  }

  /** A message's value is cut to 200 bytes, not less and not more. */
  lemma CutTo200(msg: seq<byte>)
    requires |msg| >= 40
    ensures var a := Truncated(msg);
            && a.header == ParseHeader(msg, 0).(len := |a.value|)
            && |a.value| == (if |msg| - 40 < 200 then |msg| - 40 else 200)
            && a.value == msg[40..40 + |a.value|]
    ensures var slot, a := SlotOf(msg), Truncated(msg);
            && Decodable(slot, 0) && Decode(slot, 0) == a
            && GetI32(slot, 24) == |a.value| && slot[40..40 + |a.value|] == a.value
  {
    SlotHolds(msg);
  }

  /** A read changes indices only: none on a device that has stopped, and only `used` if a copy fails. */
  lemma ReadTouches(d: Device, copied: bool)
    requires d.Shape()
    ensures var d' := Read(d, copied);
            && d'.msgs == d.msgs && d'.cbs == d.cbs && d'.current == d.current && d'.working == d.working
            && (!d.working ==> d' == d)
            && (d.working ==> d'.used == d.used - 1)
            && (d.working && !copied ==> d'.first == d.first)
  {
  }

  lemma SlotHeader(msg: seq<byte>)
    requires |msg| >= HEADER
    ensures ParseHeader(SlotOf(msg), 0) == ParseHeader(msg, 0).(len := Min(|msg|, SLOT) - HEADER)
  {
    var slot := SlotOf(msg);
    assert slot[24..28] == PutI32(Min(|msg|, SLOT) - HEADER);
    GetPutI32(Min(|msg|, SLOT) - HEADER, slot, 24);
    assert slot[..24] == msg[..24];
    forall f: nat | f + 4 <= 24
      ensures GetU32(slot, f) == GetU32(msg, f)
    {
      assert slot[..24][f] == msg[f] && slot[..24][f + 1] == msg[f + 1];
      assert slot[..24][f + 2] == msg[f + 2] && slot[..24][f + 3] == msg[f + 3];
    }
  }

  lemma SlotHolds(msg: seq<byte>)
    requires |msg| >= HEADER
    ensures Holds(SlotOf(msg), Truncated(msg))
  {
    SlotHeader(msg);
    var size, slot := Min(|msg|, SLOT), SlotOf(msg);
    var raw := msg[..size] + Zeros(SLOT - size);
    forall k | HEADER <= k < size
      ensures slot[k] == msg[k]
    {
      assert slot[k] == raw[28..][k - 28] == raw[k] == msg[k];
    }
    assert slot[HEADER..size] == msg[HEADER..size];
  }

  /** A slot that holds a record is sent as a frame of exactly that record. */
  lemma HeadFrameDecodes(d: Device, a: Accepted, rest: seq<byte>)
    requires d.Shape() && Holds(d.msgs[d.first], a)
    ensures Sendable(d.msgs[d.first])
    ensures var b := HeadFrame(d) + rest;
            GetI32(b, 0) == d.first && Decodable(b, 4) && Decode(b, 4) == a
  {
    var slot := d.msgs[d.first];
    EncodeDecode(slot, 0);
    var j := JunkOf(slot, 0);
    assert slot[..HEADER + a.header.len] == Encode(a, j);
    assert HeadFrame(d) == Frame(d.first, a, j);
    FrameParses(d.first, a, j, rest);
  }

  // ---------- the ring is a queue of records ----------

  /** The ring holds the records of `log` from number `taken` on, in order. */
  ghost predicate Queue(d: Device, log: seq<Accepted>, taken: nat) {
    && d.Shape()
    && Indexed(d, |log|, taken)
    && forall i {:trigger Place(i, d.Size())} :: taken <= i < |log| ==> Holds(d.msgs[Place(i, d.Size())], log[i])
  }

  lemma AddToQueue(d: Device, log: seq<Accepted>, taken: nat, msg: seq<byte>)
    requires Queue(d, log, taken) && |msg| >= HEADER
    ensures d.Full() <==> |log| - taken == d.Size()
    ensures d.Full() ==> AddMessage(d, msg) == d
    ensures !d.Full() ==> Queue(AddMessage(d, msg), log + [Truncated(msg)], taken)
  {
    hide Holds, SlotOf, Truncated;
    if !d.Full() {
      var n := d.Size();
      var d', log' := AddMessage(d, msg), log + [Truncated(msg)];
      ModSucc(|log|, n);
      SlotHolds(msg);
      forall i | taken <= i < |log'|
        ensures Holds(d'.msgs[Place(i, n)], log'[i])
      {
        if i < |log| {
          ModDistinct(i, |log|, n);
        }
      }
    }
  }

  lemma TakeFromQueue(d: Device, log: seq<Accepted>, taken: nat)
    requires Queue(d, log, taken) && d.working && d.Readable()
    ensures taken < |log| && Holds(d.msgs[d.first], log[taken])
    ensures Queue(Read(d, true), log, taken + 1)
  {
    ModSucc(taken, d.Size());
  }

  lemma ReleaseQueue(d: Device, log: seq<Accepted>, taken: nat)
    requires Queue(d, log, taken)
    ensures Queue(d.Release(), [], 0)
  {
  }
}

/** read_persistence_device_operations.c: lookups, removed only when their reply arrives. */
module ReadPersistence {
  import opened Bytes
  import opened Codec
  import opened Rings

  /** What `read_persistence_add_message` leaves in a slot: the tail is not cleared. */
  function SlotOf(msg: seq<byte>, old_: seq<byte>): (slot: seq<byte>)
    requires |msg| <= SLOT == |old_|
    ensures |slot| == SLOT
  {
    msg + (Zeros(HEADER) + old_[HEADER..])[|msg|..]
  }

  function AddMessage(d: Device, msg: seq<byte>): (r: Device)
    requires d.Shape() && |msg| <= SLOT
    ensures r.Shape()
  {
    if d.Full() then d else
    Enqueue(d, SlotOf(msg, d.msgs[d.current]))
  }

  /** Byte by byte: the message, then zeros to the end of the header, then what was there before. */
  lemma SlotBytes(msg: seq<byte>, old_: seq<byte>, k: nat)
    requires |msg| <= 240 == |old_| && k < 240
    ensures SlotOf(msg, old_)[k] == if k < |msg| then msg[k] else if k < 40 then 0 else old_[k]
  {
  }

  /** The length field of a request is one a value may have. */
  predicate Announces(request: seq<byte>)
    requires |request| == SLOT
  {
    0 <= GetI32(request, 24) <= MAX_VALUE
  }

  /** `clearPaxosAccepted`, which leaves `aid` and `value_ballot` as they are. */
  function Clear(r: Response): Response {
    Response(r.header.(iid := 0, promiseIid := 0, ballot := 0, len := 0), Zeros(MAX_VALUE))
  }

  /** Which of the three copies from the user succeed. */
  datatype Copies = Copies(id: bool, header: bool, value: bool)

  const ALL_COPIED := Copies(true, true, true)

  /** `read_persistence_write` may be given this buffer: what it copies exists and fits. */
  predicate ReplyOk(d: Device, buf: seq<byte>, c: Copies) {
    d.working && c.id ==>
      && 4 <= |buf|
      && 0 <= GetI32(buf, 0) < |d.cbs|
      && (c.header ==> Decodable(buf, 4) && ParseHeader(buf, 4).len <= MAX_VALUE)
  }

  /** The reply gets past its id and header copies. */
  predicate Delivers(d: Device, c: Copies) {
    d.working && c.id && c.header
  }

  /** The response after a header and, if it could be copied, a value. */
  function Filled(h: Header, value: seq<byte>, copied: bool): (r: Response)
    requires |value| <= MAX_VALUE
    ensures |r.val| == MAX_VALUE
  {
    Response(h, if copied then value + Zeros(MAX_VALUE - |value|) else Zeros(MAX_VALUE))
  }

  lemma ClearBlanks(r: Response)
    ensures Blank(Clear(r))
    ensures Clear(r).header.aid == r.header.aid && Clear(r).header.valueBallot == r.header.valueBallot
  {
  }

  /** The response is the record: its header, its value at the start of the 200 bytes if that
      could be copied, and zeros. */
  ghost predicate Shows(r: Response, a: Accepted, copied: bool) {
    && a.Fits() && r.header == a.header && |r.val| == 200
    && (copied ==> r.val[..|a.value|] == a.value)
    && forall k :: (if copied then |a.value| else 0) <= k < 200 ==> r.val[k] == 0
  }

  lemma NothingShown(r: Response, copied: bool)
    requires Shows(r, Accepted(Header(0, 0, 0, 0, 0, 0), []), copied)
    ensures r.header == Header(0, 0, 0, 0, 0, 0) && |r.val| == 200 && forall k :: 0 <= k < 200 ==> r.val[k] == 0
  {
  }

  lemma FilledShows(a: Accepted, copied: bool)
    requires a.Fits()
    ensures Shows(Filled(a.header, a.value, copied), a, copied)
  {
  }

  /** `read_persistence_write`. */
  function Reply(d: Device, buf: seq<byte>, c: Copies): (r: Device)
    requires d.Shape() && ReplyOk(d, buf, c)
    ensures r.Shape()
  {
    if !d.working || !c.id then d else
    var id := GetI32(buf, 0);
    if !c.header then
      d.(cbs := d.cbs[id := d.cbs[id].(response := Clear(d.cbs[id].response))])
    else
      var a := Decode(buf, 4);
      Deliver(d, id, Filled(a.header, a.value, c.value))
  }

  /** A response arrives in a slot and the head of the ring is removed. */
  function Deliver(d: Device, id: nat, response: Response): (r: Device)
    requires d.Shape() && id < |d.cbs| && |response.val| == MAX_VALUE
    ensures r.Shape()
  {
    Dequeue(d.(cbs := d.cbs[id := d.cbs[id].(response := response)]))
  }

  /** A reply touches no response but that of the slot it names, and nothing else of any slot. */
  lemma ReplyTouches(d: Device, buf: seq<byte>, c: Copies, k: nat)
    requires d.Shape() && ReplyOk(d, buf, c) && k < |d.cbs|
    ensures var d' := Reply(d, buf, c);
            && d'.msgs == d.msgs && d'.current == d.current && d'.working == d.working && |d'.cbs| == |d.cbs|
            && (!d.working || !c.id ==> d' == d)
            && (!c.header ==> d'.first == d.first && d'.used == d.used)
            && d'.cbs[k] == d.cbs[k].(response := d'.cbs[k].response)
            && (d.working && c.id && k != GetI32(buf, 0) ==> d'.cbs[k] == d.cbs[k])
  {
    hide GetI32, Decode;
  }

  /** The slot a reply names shows its record, or nothing if the header could not be copied. */
  lemma ReplyShows(d: Device, buf: seq<byte>, c: Copies)
    requires d.Shape() && ReplyOk(d, buf, c) && d.working && c.id
    ensures var r := Reply(d, buf, c).cbs[GetI32(buf, 0)].response;
            if c.header then Decode(buf, 4).Proper() ==> Shows(r, Decode(buf, 4), c.value) else Blank(r)
  {
    if c.header {
      if Decode(buf, 4).Proper() {
        FilledShows(Decode(buf, 4), c.value);
      }
    } else {
      ClearBlanks(d.cbs[GetI32(buf, 0)].response);
    }
  }

  /** A frame made for an existing slot from a record that fits is a reply with just that record. */
  lemma FrameIsReply(d: Device, id: i32, a: Accepted, j: Junk, c: Copies)
    requires a.Fits() && 0 <= id < |d.cbs|
    ensures var f := Frame(id, a, j);
            ReplyOk(d, f, c) && GetI32(f, 0) == id && Decodable(f, 4) && Decode(f, 4) == a
  {
    FrameParses(id, a, j, []);
    assert Frame(id, a, j) + [] == Frame(id, a, j);
  }

  // ---------- what a worker sees ----------

  /** The test in `wait_response`. */
  predicate Counts(cb: Callback, iid: u32) {
    !cb.isDone && cb.response.header.iid == iid && cb.response.header.len > 0
  }

  function Finish(d: Device, s: nat): (r: Device)
    requires d.Shape() && s < |d.cbs|
    ensures r.Shape()
  {
    d.(cbs := d.cbs[s := d.cbs[s].(isDone := true)])
  }

  // ---------- the ring is a queue of requests ----------

  /** The `iid` a stored request asks for. */
  function Key(request: seq<byte>): u32
    requires |request| == SLOT
  {
    GetU32(request, 4)
  }

  /** The ring holds the requests of `asks` from number `served` on, in order, each
      with the callback that belongs to it. */
  ghost predicate Queue(d: Device, asks: seq<seq<byte>>, served: nat) {
    && d.Shape()
    && Indexed(d, |asks|, served)
    && (forall i :: 0 <= i < |asks| ==> |asks[i]| == SLOT)
    && forall i {:trigger Place(i, d.Size())} :: served <= i < |asks| ==> Live(d, Place(i, d.Size()), asks[i])
  }

  ghost predicate Live(d: Device, s: nat, request: seq<byte>)
    requires d.Shape() && s < d.Size() && |request| == SLOT
  {
    && d.msgs[s] == request
    && d.cbs[s].iid == Key(request)
    && d.cbs[s].bufferId == s
    && Announces(request)
  }

  datatype Answer = Answer(time: nat, record: Accepted, copied: bool)

  /** The answers of the last lap are still in their slots; the oldest of them, whose slot
      is the next to be served, may have been cleared by a failed attempt to serve it. */
  ghost predicate Retained(d: Device, answers: seq<Answer>, cleared: bool)
    requires d.Shape()
  {
    forall i {:trigger Place(i, d.Size())} :: 0 <= i < |answers| <= i + d.Size() && (cleared ==> |answers| < i + d.Size())
      ==> Shows(d.cbs[Place(i, d.Size())].response, answers[i].record, answers[i].copied)
  }

  lemma AddToQueue(d: Device, asks: seq<seq<byte>>, served: nat, msg: seq<byte>)
    requires Queue(d, asks, served)
    requires |msg| <= SLOT && Announces(SlotOf(msg, d.msgs[d.current]))
    ensures d.Full() <==> |asks| - served == d.Size()
    ensures d.Full() ==> AddMessage(d, msg) == d
    ensures !d.Full() ==> Queue(AddMessage(d, msg), asks + [SlotOf(msg, d.msgs[d.current])], served)
  {
    hide SlotOf, GetI32, GetU32;
    if !d.Full() {
      var n := d.Size();
      var d', asks' := AddMessage(d, msg), asks + [SlotOf(msg, d.msgs[d.current])];
      ModSucc(|asks|, n);
      forall i | served <= i < |asks'|
        ensures Live(d', Place(i, n), asks'[i])
      {
        if i < |asks| {
          ModDistinct(i, |asks|, n);
        }
      }
    }
  }

  /** Only replies touch responses. */
  lemma SameResponses(d: Device, d': Device, answers: seq<Answer>, cleared: bool)
    requires d.Shape() && d'.Shape() && Retained(d, answers, cleared) && d'.Size() == d.Size()
    requires forall s :: 0 <= s < d.Size() ==> d'.cbs[s].response == d.cbs[s].response
    ensures Retained(d', answers, cleared)
  {
  }

  lemma HeadIsLive(d: Device, asks: seq<seq<byte>>, served: nat)
    requires Queue(d, asks, served) && d.Readable()
    ensures served < |asks| && d.msgs[d.first] == asks[served] && Announces(asks[served])
  {
    assert Live(d, Place(served, d.Size()), asks[served]);
  }

  /** What the daemon reads from the ring is the head's slot and `iid`. */
  lemma PeekQueue(d: Device, asks: seq<seq<byte>>, served: nat, rest: seq<byte>)
    requires Queue(d, asks, served) && d.Readable()
    ensures served < |asks| && Sendable(d.msgs[d.first])
    ensures var b := HeadFrame(d) + rest;
            GetI32(b, 0) == d.first && Decodable(b, 4) && ParseHeader(b, 4).iid == Key(asks[served])
  {
    var slot := d.msgs[d.first];
    HeadIsLive(d, asks, served);
    assert ParseHeader(slot, 0).len == GetI32(slot, 24);
    EncodeDecode(slot, 0);
    var a, j := Decode(slot, 0), JunkOf(slot, 0);
    assert HeadFrame(d) == Frame(d.first, a, j);
    FrameParses(d.first, a, j, rest);
  }

  lemma DeliverKeepsRest(d: Device, asks: seq<seq<byte>>, served: nat, id: nat, r: Response)
    requires Queue(d, asks, served) && d.Readable() && id < d.Size() && |r.val| == MAX_VALUE
    ensures Queue(Deliver(d, id, r), asks, served + 1)
  {
    var d' := Deliver(d, id, r);
    ModSucc(served, d.Size());
    forall i | served < i < |asks|
      ensures Live(d', Place(i, d.Size()), asks[i])
    {
      assert Live(d, Place(i, d.Size()), asks[i]);
    }
  }

  lemma DeliverRetains(d: Device, answers: seq<Answer>, cleared: bool, r: Response, a: Answer)
    requires d.Shape() && Retained(d, answers, cleared) && d.first == Place(|answers|, d.Size())
    requires |r.val| == MAX_VALUE && Shows(r, a.record, a.copied)
    ensures Retained(Deliver(d, d.first, r), answers + [a], false)
  {
    var n, k := d.Size(), |answers|;
    var d' := Deliver(d, d.first, r);
    forall i: nat | i < k < i + n
      ensures d'.cbs[Place(i, n)].response == d.cbs[Place(i, n)].response
    {
      ModDistinct(i, k, n);
    }
  }

  /** A reply addressed to the head that gets past its header answers exactly the head. */
  lemma DeliverHead(d: Device, asks: seq<seq<byte>>, answers: seq<Answer>, cleared: bool,
                    buf: seq<byte>, c: Copies, time: nat)
    requires Queue(d, asks, |answers|) && Retained(d, answers, cleared) && d.Readable()
    requires ReplyOk(d, buf, c) && Delivers(d, c) && GetI32(buf, 0) == d.first && Decode(buf, 4).Proper()
    ensures var d' := Reply(d, buf, c);
            var answers' := answers + [Answer(time, Decode(buf, 4), c.value)];
            Queue(d', asks, |answers'|) && Retained(d', answers', false)
  {
    var a := Decode(buf, 4);
    var r := Filled(a.header, a.value, c.value);
    FilledShows(a, c.value);
    DeliverKeepsRest(d, asks, |answers|, d.first, r);
    DeliverRetains(d, answers, cleared, r, Answer(time, a, c.value));
  }

  /** A reply that fails before that leaves the ring alone; if its id was copied it clears
      the response of the head, which then cannot be counted for any `iid`. */
  lemma FailHead(d: Device, asks: seq<seq<byte>>, answers: seq<Answer>, cleared: bool, buf: seq<byte>, c: Copies)
    requires Queue(d, asks, |answers|) && Retained(d, answers, cleared)
    requires ReplyOk(d, buf, c) && !Delivers(d, c) && (d.working && c.id ==> GetI32(buf, 0) == d.first)
    ensures var d' := Reply(d, buf, c);
            && Queue(d', asks, |answers|)
            && Retained(d', answers, cleared || (d.working && c.id))
            && d' == d.(cbs := d'.cbs)
            && (d.working && c.id ==> forall iid :: !Counts(d'.cbs[d.first], iid))
  {
    var n, k := d.Size(), |answers|;
    var d' := Reply(d, buf, c);
    forall i | k <= i < |asks|
      ensures Live(d', Place(i, n), asks[i])
    {
      assert Live(d, Place(i, n), asks[i]);
    }
    forall i: nat | i < k < i + n
      ensures d'.cbs[Place(i, n)].response == d.cbs[Place(i, n)].response
    {
      ModDistinct(i, k, n);
    }
  }

  lemma FinishKeeps(d: Device, asks: seq<seq<byte>>, served: nat, s: nat)
    requires Queue(d, asks, served) && s < |d.cbs|
    ensures Queue(Finish(d, s), asks, served)
  {
    var d' := Finish(d, s);
    forall i | served <= i < |asks|
      ensures Live(d', Place(i, d.Size()), asks[i])
    {
      assert Live(d, Place(i, d.Size()), asks[i]);
    }
  }
}
