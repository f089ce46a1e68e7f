/**
 The byte layouts that cross the kernel/user boundary: a record (`paxos_accepted`
 followed by its value) and a frame (a buffer id followed by a record).

 A `paxos_accepted` takes 40 bytes: five unsigned words at offsets 0 to 16, four bytes
 of padding, the value length at 24, four more bytes of padding, and at 32 the pointer
 to the value. Padding and pointer are copied around with the rest of the struct
 but carry no information; they are the `Junk` of a header.
 */
module Codec {
  import opened Bytes

  const HEADER := 40
  const MAX_VALUE := 200
  const SLOT := HEADER + MAX_VALUE

  datatype Header = Header(aid: u32, iid: u32, promiseIid: u32, ballot: u32, valueBallot: u32, len: i32)

  /** A header together with the bytes its value pointer leads to. */
  datatype Accepted = Accepted(header: Header, value: seq<byte>) {
    predicate Proper() {
      header.len == |value|
    }

    predicate Fits() {
      Proper() && |value| <= MAX_VALUE
    }
  }

  type Junk = j: seq<byte> | |j| == 16 witness Zeros(16)

  const ZERO := Accepted(Header(0, 0, 0, 0, 0, 0), [])

  function HeaderBytes(h: Header, j: Junk): (r: seq<byte>)
    ensures |r| == HEADER
  {
    PutU32(h.aid) + PutU32(h.iid) + PutU32(h.promiseIid) + PutU32(h.ballot) + PutU32(h.valueBallot)
    + j[..4] + PutI32(h.len) + j[4..]
  }

  function ParseHeader(b: seq<byte>, at: nat): Header
    requires at + HEADER <= |b|
  {
    Header(GetU32(b, at), GetU32(b, at + 4), GetU32(b, at + 8), GetU32(b, at + 12), GetU32(b, at + 16),
           GetI32(b, at + 24))
  }

  function JunkOf(b: seq<byte>, at: nat): Junk
    requires at + HEADER <= |b|
  {
    b[at + 20..at + 24] + b[at + 28..at + 40]
  }

  /** `paxos_accepted_to_buffer`; `j` is whatever the struct's padding and pointer hold. */
  function Encode(a: Accepted, j: Junk): (r: seq<byte>)
    requires a.Proper()
    ensures |r| == HEADER + |a.value|
  {
    HeaderBytes(a.header, j) + a.value
  }

  /** The bytes at `at` hold a header and as much value as the header announces. */
  predicate Decodable(b: seq<byte>, at: nat) {
    at + HEADER <= |b| && at + HEADER + ParseHeader(b, at).len <= |b|
  }

  /** `buffer_to_paxos_accepted`: a length that is not positive means no value. */
  function Decode(b: seq<byte>, at: nat): Accepted
    requires Decodable(b, at)
  {
    var h := ParseHeader(b, at);
    Accepted(h, if h.len > 0 then b[at + HEADER..at + HEADER + h.len] else [])
  }

  /** The used part of what `client_value_to_buffer` produces. */
  function Frame(id: i32, a: Accepted, j: Junk): (r: seq<byte>)
    requires a.Proper()
    ensures |r| == 4 + HEADER + |a.value|
  {
    PutI32(id) + Encode(a, j)
  }

  /** The offsets of `struct paxos_accepted` on x86-64. */
  lemma HeaderLayout(h: Header, j: Junk)
    ensures var b := HeaderBytes(h, j);
            && |b| == 40
            && b[0..4] == PutU32(h.aid) && b[4..8] == PutU32(h.iid) && b[8..12] == PutU32(h.promiseIid)
            && b[12..16] == PutU32(h.ballot) && b[16..20] == PutU32(h.valueBallot) && b[24..28] == PutI32(h.len)
  {
    hide PutU32, PutI32;
  }

  /** A frame is the id, the header and the value, without gaps. */
  lemma FrameLayout(id: i32, a: Accepted, j: Junk)
    requires a.Proper()
    ensures var f := Frame(id, a, j);
            && |f| == 44 + |a.value|
            && f[..4] == PutI32(id) && f[4..44] == HeaderBytes(a.header, j) && f[44..] == a.value
  {
    hide PutI32, HeaderBytes;
  }

  lemma ParseHeaderBytes(h: Header, j: Junk, b: seq<byte>, at: nat)
    requires at + HEADER <= |b| && b[at..at + HEADER] == HeaderBytes(h, j)
    ensures ParseHeader(b, at) == h && JunkOf(b, at) == j
  {
    hide PutU32, PutI32, GetU32, GetI32;
    Subslice(b, at, HEADER, 0, 4);
    Subslice(b, at, HEADER, 4, 4);
    Subslice(b, at, HEADER, 8, 4);
    Subslice(b, at, HEADER, 12, 4);
    Subslice(b, at, HEADER, 16, 4);
    Subslice(b, at, HEADER, 20, 4);
    Subslice(b, at, HEADER, 24, 4);
    Subslice(b, at, HEADER, 28, 12);
    GetPutU32(h.aid, b, at);
    GetPutU32(h.iid, b, at + 4);
    GetPutU32(h.promiseIid, b, at + 8);
    GetPutU32(h.ballot, b, at + 12);
    GetPutU32(h.valueBallot, b, at + 16);
    GetPutI32(h.len, b, at + 24);
  }

  lemma Subslice(b: seq<byte>, at: nat, n: nat, k: nat, m: nat)
    requires at + n <= |b| && k + m <= n
    ensures b[at..at + n][k..k + m] == b[at + k..at + k + m]
  {
    var l, r := b[at..at + n][k..k + m], b[at + k..at + k + m];
    assert |l| == |r| && forall i :: 0 <= i < m ==> l[i] == r[i];
  }

  lemma Glue(b: seq<byte>, x: nat, y: nat, z: nat)
    requires x <= y <= z <= |b|
    ensures b[x..y] + b[y..z] == b[x..z]
  {
  }

  lemma HeaderBytesParse(b: seq<byte>, at: nat)
    requires at + HEADER <= |b|
    ensures HeaderBytes(ParseHeader(b, at), JunkOf(b, at)) == b[at..at + HEADER]
  {
    hide PutU32, PutI32, GetU32, GetI32;
    var h, j := ParseHeader(b, at), JunkOf(b, at);
    PutGetU32(b, at);
    PutGetU32(b, at + 4);
    PutGetU32(b, at + 8);
    PutGetU32(b, at + 12);
    PutGetU32(b, at + 16);
    PutGetI32(b, at + 24);
    Glue(b, at, at + 4, at + 8);
    Glue(b, at, at + 8, at + 12);
    Glue(b, at, at + 12, at + 16);
    Glue(b, at, at + 16, at + 20);
    Glue(b, at, at + 20, at + 24);
    Glue(b, at, at + 24, at + 28);
    Glue(b, at, at + 28, at + 40);
    HeaderFromParts(h, j, b[at + 20..at + 24], b[at + 28..at + 40]);
  }

  lemma HeaderFromParts(h: Header, j: Junk, j0: seq<byte>, j1: seq<byte>)
    requires |j0| == 4 && j == j0 + j1
    ensures HeaderBytes(h, j) == PutU32(h.aid) + PutU32(h.iid) + PutU32(h.promiseIid) + PutU32(h.ballot)
                                 + PutU32(h.valueBallot) + j0 + PutI32(h.len) + j1
  {
    assert j[..4] == j0 && j[4..] == j1;
  }

  /** Decoding what was encoded gives the record back, whatever the junk, the place and the rest. */
  lemma DecodeEncode(before: seq<byte>, a: Accepted, j: Junk, after: seq<byte>)
    requires a.Proper()
    ensures var b := before + Encode(a, j) + after;
            Decodable(b, |before|) && Decode(b, |before|) == a && JunkOf(b, |before|) == j
  {
    hide PutU32, PutI32, GetU32, GetI32;
    var b := before + Encode(a, j) + after;
    assert b[|before|..|before| + HEADER] == HeaderBytes(a.header, j);
    ParseHeaderBytes(a.header, j, b, |before|);
    assert b[|before| + HEADER..|before| + HEADER + |a.value|] == a.value;
  }

  /** Encoding what was decoded gives the same bytes back, provided the junk is kept. */
  lemma EncodeDecode(b: seq<byte>, at: nat)
    requires Decodable(b, at) && ParseHeader(b, at).len >= 0
    ensures var a := Decode(b, at);
            a.Proper() && Encode(a, JunkOf(b, at)) == b[at..at + HEADER + a.header.len]
  {
    hide HeaderBytes;
    HeaderBytesParse(b, at);
    var a := Decode(b, at);
    assert b[at..at + HEADER + a.header.len] == b[at..at + HEADER] + b[at + HEADER..at + HEADER + a.header.len];
  }

  /** Two records with the same encoding are the same record. */
  lemma EncodeInjective(a: Accepted, j: Junk, a': Accepted, j': Junk)
    requires a.Proper() && a'.Proper() && Encode(a, j) == Encode(a', j')
    ensures a == a' && j == j'
  {
    DecodeEncode([], a, j, []);
    DecodeEncode([], a', j', []);
    assert [] + Encode(a, j) + [] == Encode(a, j);
    assert [] + Encode(a', j') + [] == Encode(a', j');
  }

  /** What the kernel parses from a frame is the buffer id and the record put into it. */
  lemma FrameParses(id: i32, a: Accepted, j: Junk, after: seq<byte>)
    requires a.Proper()
    ensures var b := Frame(id, a, j) + after;
            GetI32(b, 0) == id && Decodable(b, 4) && Decode(b, 4) == a
  {
    var b := Frame(id, a, j) + after;
    assert forall k :: 0 <= k < 4 ==> b[k] == PutI32(id)[k];
    GetPutI32(id, b, 0);
    assert b == PutI32(id) + Encode(a, j) + after;
    DecodeEncode(PutI32(id), a, j, after);
  }
}
