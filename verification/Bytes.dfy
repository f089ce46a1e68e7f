/** Fixed-width integers and their little-endian layout in memory, as on x86-64. */
module Bytes {

  type byte = b: int | 0 <= b < 0x100 witness 0
  type u32 = x: int | 0 <= x < 0x1_0000_0000 witness 0
  type i32 = x: int | -0x8000_0000 <= x < 0x8000_0000 witness 0

  function Zeros(n: nat): (r: seq<byte>)
    ensures |r| == n
    ensures forall k :: 0 <= k < n ==> r[k] == 0
  {
    seq(n, _ => 0)
  }

  function Min(a: int, b: int): int {
    if a < b then a else b
  }

  function PutU32(x: u32): (r: seq<byte>)
    ensures |r| == 4
  {
    [x % 0x100, x / 0x100 % 0x100, x / 0x1_0000 % 0x100, x / 0x100_0000]
  }

  /** The word with these bytes, least significant first. */
  function Word(b0: int, b1: int, b2: int, b3: int): (r: int)
    ensures 0 <= b0 < 0x100 && 0 <= b1 < 0x100 && 0 <= b2 < 0x100 && 0 <= b3 < 0x100 ==> 0 <= r < 0x1_0000_0000
  {
    b0 + 0x100 * b1 + 0x1_0000 * b2 + 0x100_0000 * b3
  }

  function GetU32(b: seq<byte>, at: nat): u32
    requires at + 4 <= |b|
  {
    Word(b[at], b[at + 1], b[at + 2], b[at + 3])
  }

  /** A C `int` is stored in two's complement. */
  function PutI32(x: i32): (r: seq<byte>)
    ensures |r| == 4
  {
    PutU32(if x < 0 then x + 0x1_0000_0000 else x)
  }

  function GetI32(b: seq<byte>, at: nat): i32
    requires at + 4 <= |b|
  {
    var u := GetU32(b, at);
    if u < 0x8000_0000 then u else u - 0x1_0000_0000
  }

  lemma Digits(x: u32)
    ensures Word(x % 0x100, x / 0x100 % 0x100, x / 0x1_0000 % 0x100, x / 0x100_0000) == x
  {
    var y: int := x / 0x100;
    var z: int := y / 0x100;
    assert x == 0x100 * y + x % 0x100;
    assert y == 0x100 * z + y % 0x100;
    assert z == x / 0x1_0000 && z / 0x100 == x / 0x100_0000;
    assert z == 0x100 * (z / 0x100) + z % 0x100;
  }

  lemma GetPutU32(x: u32, b: seq<byte>, at: nat)
    requires at + 4 <= |b| && b[at..at + 4] == PutU32(x)
    ensures GetU32(b, at) == x
  {
    var w := b[at..at + 4];
    assert w[0] == b[at] && w[1] == b[at + 1] && w[2] == b[at + 2] && w[3] == b[at + 3];
    Digits(x);
  }

  lemma GetPutI32(x: i32, b: seq<byte>, at: nat)
    requires at + 4 <= |b| && b[at..at + 4] == PutI32(x)
    ensures GetI32(b, at) == x
  {
    GetPutU32(if x < 0 then x + 0x1_0000_0000 else x, b, at);
  }

  lemma WordBytes(b0: int, b1: int, b2: int, b3: int)
    requires 0 <= b0 < 0x100 && 0 <= b1 < 0x100 && 0 <= b2 < 0x100 && 0 <= b3 < 0x100
    ensures var x := Word(b0, b1, b2, b3);
            x % 0x100 == b0 && x / 0x100 % 0x100 == b1 && x / 0x1_0000 % 0x100 == b2 && x / 0x100_0000 == b3
  {
    var x := Word(b0, b1, b2, b3);
    assert x == b0 + 0x100 * (b1 + 0x100 * (b2 + 0x100 * b3));
    assert x / 0x100 == b1 + 0x100 * (b2 + 0x100 * b3);
    assert x / 0x1_0000 == b2 + 0x100 * b3;
  }

  lemma PutGetU32(b: seq<byte>, at: nat)
    requires at + 4 <= |b|
    ensures PutU32(GetU32(b, at)) == b[at..at + 4]
  {
    WordBytes(b[at], b[at + 1], b[at + 2], b[at + 3]);
  }

  lemma PutGetI32(b: seq<byte>, at: nat)
    requires at + 4 <= |b|
    ensures PutI32(GetI32(b, at)) == b[at..at + 4]
  {
    PutGetU32(b, at);
  }

  /** The least significant byte comes first, and a negative number has its top bit set. */
  lemma LittleEndian()
    ensures PutU32(0x1234_5678) == [0x78, 0x56, 0x34, 0x12] && GetU32([0x78, 0x56, 0x34, 0x12], 0) == 0x1234_5678
    ensures PutI32(-2) == [0xFE, 0xFF, 0xFF, 0xFF] && GetI32([0xFE, 0xFF, 0xFF, 0xFF], 0) == -2
    ensures GetI32([0xFF, 0xFF, 0xFF, 0x7F], 0) == 0x7FFF_FFFF && GetI32([0, 0, 0, 0x80], 0) == -0x8000_0000
  {
    Digits(0x1234_5678);
    Digits(0xFFFF_FFFE);
    Digits(0x7FFF_FFFF);
    Digits(0x8000_0000);
  }
}
