/** Bytes, the fixed-width integers of the wire formats, and their encodings. */
module Bytes {
  type byte = x: int | 0 <= x < 0x100
  type u16 = x: int | 0 <= x < 0x1_0000
  type u32 = x: int | 0 <= x < 0x1_0000_0000
  type u64 = x: int | 0 <= x < 0x1_0000_0000_0000_0000
  type i16 = x: int | -0x8000 <= x < 0x8000

  datatype Option<+T> = None | Some(value: T)
  datatype Result<+T, +E> = Ok(value: T) | Err(error: E)

  /** Addition modulo 2^16 (`u16::wrapping_add`). */
  function WrapAdd16(a: u16, d: int): u16 { (a + d) % 0x1_0000 }

  /** Addition modulo 2^32 (`u32::wrapping_add`). */
  function WrapAdd32(a: u32, d: int): u32 { (a + d) % 0x1_0000_0000 }

  /** 256^width: how many values `width` bytes can hold. */
  function Range(width: nat): nat { if width == 0 then 1 else 0x100 * Range(width - 1) }

  function FromLe(b: seq<byte>): (n: nat)
    ensures n < Range(|b|)
  {
    if b == [] then 0 else var lo: int := b[0]; lo + 0x100 * FromLe(b[1..])
  }

  function Le(n: nat, width: nat): (b: seq<byte>)
    ensures |b| == width
    ensures n < Range(width) ==> FromLe(b) == n
  {
    if width == 0 then [] else
      var lo: byte := n % 0x100;
      var rest := Le(n / 0x100, width - 1);
      assert ([lo] + rest)[1..] == rest;
      [lo] + rest
  }

  function FromBe(b: seq<byte>): (n: nat)
    ensures n < Range(|b|)
  {
    if b == [] then 0 else var lo: int := b[|b| - 1]; lo + 0x100 * FromBe(b[..|b| - 1])
  }

  function Be(n: nat, width: nat): (b: seq<byte>)
    ensures |b| == width
    ensures n < Range(width) ==> FromBe(b) == n
  {
    if width == 0 then [] else
      var lo: byte := n % 0x100;
      var rest := Be(n / 0x100, width - 1);
      assert (rest + [lo])[..width - 1] == rest;
      rest + [lo]
  }

  /** Every byte string is the encoding of the number it decodes to. */
  lemma {:induction false} LeOnto(b: seq<byte>)
    ensures Le(FromLe(b), |b|) == b
  {
    if b != [] {
      LeOnto(b[1..]);
      var lo: int := b[0];
      assert FromLe(b) == lo + 0x100 * FromLe(b[1..]);
      assert FromLe(b) % 0x100 == lo && FromLe(b) / 0x100 == FromLe(b[1..]);
    }
  }

  lemma Ranges()
    ensures Range(1) == 0x100 && Range(2) == 0x1_0000 && Range(4) == 0x1_0000_0000
    ensures Range(8) == 0x1_0000_0000_0000_0000
  {}

  function FromLe16(b: seq<byte>): u16 requires |b| == 2 { Ranges(); FromLe(b) }
  function FromBe16(b: seq<byte>): u16 requires |b| == 2 { Ranges(); FromBe(b) }
  function FromLe32(b: seq<byte>): u32 requires |b| == 4 { Ranges(); FromLe(b) }
  function FromBe32(b: seq<byte>): u32 requires |b| == 4 { Ranges(); FromBe(b) }
  function FromLe64(b: seq<byte>): u64 requires |b| == 8 { Ranges(); FromLe(b) }

  function Le16(n: u16): (b: seq<byte>) ensures |b| == 2 && FromLe16(b) == n { Ranges(); Le(n, 2) }
  function Be16(n: u16): (b: seq<byte>) ensures |b| == 2 && FromBe16(b) == n { Ranges(); Be(n, 2) }
  function Le32(n: u32): (b: seq<byte>) ensures |b| == 4 && FromLe32(b) == n { Ranges(); Le(n, 4) }
  function Be32(n: u32): (b: seq<byte>) ensures |b| == 4 && FromBe32(b) == n { Ranges(); Be(n, 4) }
  function Le64(n: u64): (b: seq<byte>) ensures |b| == 8 && FromLe64(b) == n { Ranges(); Le(n, 8) }

  /** Which byte stands where: big-endian puts the most significant first. */
  lemma BigEndian(b: seq<byte>)
    ensures |b| == 2 ==> FromBe16(b) == (b[0] as int) * 0x100 + b[1]
    ensures |b| == 4 ==> FromBe32(b) == (b[0] as int) * 0x100_0000 + (b[1] as int) * 0x1_0000 + (b[2] as int) * 0x100 + b[3]
  {
    if |b| == 2 || |b| == 4 {
      assert FromBe(b[..1]) == b[0] by { assert b[..1][..0] == []; }
      assert FromBe(b[..2]) == b[1] + 0x100 * FromBe(b[..1]) by { assert b[..2][..1] == b[..1]; }
      assert b[..|b|] == b;
    }
    if |b| == 4 {
      assert FromBe(b[..3]) == b[2] + 0x100 * FromBe(b[..2]) by { assert b[..3][..2] == b[..2]; }
      assert FromBe(b) == b[3] + 0x100 * FromBe(b[..3]);
    }
  }

  /** Little-endian puts it last. */
  lemma LittleEndian(b: seq<byte>)
    ensures |b| == 2 ==> FromLe16(b) == b[0] + (b[1] as int) * 0x100
    ensures |b| == 4 ==> FromLe32(b) == b[0] + (b[1] as int) * 0x100 + (b[2] as int) * 0x1_0000 + (b[3] as int) * 0x100_0000
    ensures |b| == 8 ==> FromLe64(b) == FromLe32(b[..4]) + FromLe32(b[4..]) * 0x1_0000_0000
  {
    if |b| == 2 || |b| == 4 { LittleEndianEnd(b); }
    if |b| == 8 {
      LittleEndianEnd(b[4..]);
      LittleEndianEnd(b[..4]);
      assert b[1..][1..] == b[2..] && b[2..][1..] == b[3..] && b[3..][1..] == b[4..];
      assert FromLe(b) == b[0] + 0x100 * FromLe(b[1..]);
      assert FromLe(b[1..]) == b[1] + 0x100 * FromLe(b[2..]);
      assert FromLe(b[2..]) == b[2] + 0x100 * FromLe(b[3..]);
      assert FromLe(b[3..]) == b[3] + 0x100 * FromLe(b[4..]);
    }
  }

  lemma LittleEndianEnd(b: seq<byte>)
    requires |b| == 2 || |b| == 4
    ensures |b| == 2 ==> FromLe(b) == b[0] + (b[1] as int) * 0x100
    ensures |b| == 4 ==> FromLe(b) == b[0] + (b[1] as int) * 0x100 + (b[2] as int) * 0x1_0000 + (b[3] as int) * 0x100_0000
  {
    assert b[1..][1..] == b[2..] && FromLe(b) == b[0] + 0x100 * FromLe(b[1..]);
    assert FromLe(b[1..]) == b[1] + 0x100 * FromLe(b[2..]);
    if |b| == 4 {
      assert b[2..][1..] == b[3..] && b[3..][1..] == [];
      assert FromLe(b[2..]) == b[2] + 0x100 * FromLe(b[3..]);
      assert FromLe(b[3..]) == b[3];
    }
  }

  /** Two's complement: the signed reading of a 16-bit pattern, and the pattern of a signed number. */
  function AsI16(n: u16): (i: i16)
    ensures I16Bits(i) == n
  {
    if n < 0x8000 then n else n - 0x1_0000
  }

  function I16Bits(i: i16): (n: u16)
    ensures (if n < 0x8000 then n else n - 0x1_0000) == i
  {
    if i >= 0 then i else i + 0x1_0000
  }
}
