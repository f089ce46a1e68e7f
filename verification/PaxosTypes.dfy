/** paxos_types.h: records in memory, and the copying of bytes. */
module PaxosTypes {
  import opened Bytes
  import opened Codec

  /** A `char*`: null, a buffer of this address space, or eight bytes copied from elsewhere. */
  datatype Pointer = Null | Heap(buf: array<byte>) | Foreign(address: seq<byte>)

  /** `struct paxos_accepted`. */
  class PaxosAccepted {
    var aid: u32
    var iid: u32
    var promiseIid: u32
    var ballot: u32
    var valueBallot: u32
    var len: i32
    var val: Pointer

    constructor (val: Pointer)
      ensures this.val == val
    {
      this.val := val;
    }

    function Fields(): Header
      reads this
    {
      Header(aid, iid, promiseIid, ballot, valueBallot, len)
    }

    /** The value pointer leads to as many bytes as the length announces. */
    predicate Holds()
      reads this
    {
      len > 0 ==> val.Heap? && len <= val.buf.Length
    }

    function Record(): Accepted
      requires Holds()
      reads this, if len > 0 then {val.buf} else {}
    {
      Accepted(Fields(), if len > 0 then val.buf[..len] else [])
    }

    /** `memcpy` of the 40 bytes of a header over the struct, pointer included. */
    method CopyHeader(b: seq<byte>, at: nat)
      requires at + HEADER <= |b|
      modifies this
      ensures Fields() == ParseHeader(b, at)
      ensures val == Foreign(b[at + 32..at + 40])
    {
      aid, iid, promiseIid := GetU32(b, at), GetU32(b, at + 4), GetU32(b, at + 8);
      ballot, valueBallot, len := GetU32(b, at + 12), GetU32(b, at + 16), GetI32(b, at + 24);
      val := Foreign(b[at + 32..at + 40]);
    }
  }

  /** `memset(dst, 0, n)`. */
  method ClearBytes(dst: array<byte>, n: nat)
    requires n <= dst.Length
    modifies dst
    ensures dst[..] == Zeros(n) + old(dst[n..])
  {
    forall k | 0 <= k < n {
      dst[k] := 0;
    }
  }

  /** `memcpy(&dst[at], src, |src|)`. */
  method CopyBytes(dst: array<byte>, at: nat, src: seq<byte>)
    requires at + |src| <= dst.Length
    modifies dst
    ensures dst[..] == old(dst[..at]) + src + old(dst[at + |src|..])
  {
    forall k | at <= k < at + |src| {
      dst[k] := src[k - at];
    }
  }
}
