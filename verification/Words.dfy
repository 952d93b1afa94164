/**
 Fixed-width unsigned integers as subset types of `int`, wrap-around, and the
 little-endian field encodings shared by every record and packet format.
 */
module Words {

  type u8 = x: int | 0 <= x < 0x100
  type u16 = x: int | 0 <= x < 0x1_0000
  type u32 = x: int | 0 <= x < 0x1_0000_0000

  const U32_MAX: u32 := 0xFFFF_FFFF

  datatype Option<+T> = None | Some(value: T)

  /** Unsigned 32-bit arithmetic wraps; `%` is Euclidean, so this also wraps differences. */
  function Wrap32(x: int): u32 {
    x % 0x1_0000_0000
  }

  function Wrap8(x: int): u8 {
    x % 0x100
  }

  function Le16(x: u16): (b: seq<u8>)
    ensures |b| == 2
  {
    [x % 0x100, x / 0x100]
  }

  function Le32(x: u32): (b: seq<u8>)
    ensures |b| == 4
  {
    [x % 0x100, x / 0x100 % 0x100, x / 0x100 / 0x100 % 0x100, x / 0x100 / 0x100 / 0x100]
  }

  function Read16(b: seq<u8>, at: nat): u16
    requires at + 2 <= |b|
  {
    b[at] as int + 0x100 * (b[at + 1] as int)
  }

  function Read32(b: seq<u8>, at: nat): u32
    requires at + 4 <= |b|
  {
    b[at] as int + 0x100 * (b[at + 1] as int) + 0x1_0000 * (b[at + 2] as int) + 0x100_0000 * (b[at + 3] as int)
  }

  /** Reading a field back from any buffer that holds its encoding gives the value. */
  lemma Read16OfLe16(b: seq<u8>, at: nat, x: u16)
    requires at + 2 <= |b|
    requires b[at..at + 2] == Le16(x)
    ensures Read16(b, at) == x
  {
    assert b[at] == b[at..at + 2][0] && b[at + 1] == b[at..at + 2][1];
  }

  lemma Read32OfLe32(b: seq<u8>, at: nat, x: u32)
    requires at + 4 <= |b|
    requires b[at..at + 4] == Le32(x)
    ensures Read32(b, at) == x
  {
    var c := b[at..at + 4];
    assert b[at] == c[0] && b[at + 1] == c[1] && b[at + 2] == c[2] && b[at + 3] == c[3];
    ByteDigits(x);
  }

  lemma ByteDigits(x: int)
    ensures x % 0x100 + 0x100 * (x / 0x100 % 0x100) + 0x1_0000 * (x / 0x100 / 0x100 % 0x100)
            + 0x100_0000 * (x / 0x100 / 0x100 / 0x100) == x
  {
    var q := x / 0x100;
    var r := q / 0x100;
    assert x == 0x100 * q + x % 0x100 && q == 0x100 * r + q % 0x100 && r == 0x100 * (r / 0x100) + r % 0x100;
  }

  /** Four bytes are determined by the value they read as. */
  lemma Le32OfRead32(b: seq<u8>, at: nat)
    requires at + 4 <= |b|
    ensures Le32(Read32(b, at)) == b[at..at + 4]
  {
    var x: int, b1: int, b2: int, b3: int := Read32(b, at), b[at + 1], b[at + 2], b[at + 3];
    assert x / 0x100 == b1 + 0x100 * (b2 + 0x100 * b3);
    assert x / 0x100 / 0x100 == b2 + 0x100 * b3;
    assert x / 0x100 / 0x100 / 0x100 == b3;
  }

  lemma Le16OfRead16(b: seq<u8>, at: nat)
    requires at + 2 <= |b|
    ensures Le16(Read16(b, at)) == b[at..at + 2]
  {
  }

  lemma ConcatAssociative<T>(a: seq<T>, b: seq<T>, c: seq<T>)
    ensures a + b + c == a + (b + c)
  {
  }

  // ----- exclusive or, bit by bit, as the CRC loops use it

  function Pow2(n: nat): nat {
    if n == 0 then 1 else 2 * Pow2(n - 1)
  }

  lemma Pow2Widths()
    ensures Pow2(16) == 0x1_0000 && Pow2(32) == 0x1_0000_0000
  {
    assert Pow2(4) == 16;
    assert Pow2(8) == 16 * Pow2(4);
    assert Pow2(12) == 16 * Pow2(8);
    assert Pow2(16) == 16 * Pow2(12);
    assert Pow2(20) == 16 * Pow2(16);
    assert Pow2(24) == 16 * Pow2(20);
    assert Pow2(28) == 16 * Pow2(24);
    assert Pow2(32) == 16 * Pow2(28);
  }

  function XorBits(x: nat, y: nat, width: nat): (r: nat)
    ensures r < Pow2(width)
    decreases width
  {
    if width == 0 then 0
    else (x % 2 + y % 2) % 2 + 2 * XorBits(x / 2, y / 2, width - 1)
  }

  function Xor32(x: u32, y: u32): u32 {
    Pow2Widths();
    XorBits(x, y, 32)
  }

  function Xor16(x: u16, y: u16): u16 {
    Pow2Widths();
    XorBits(x, y, 16)
  }
}
