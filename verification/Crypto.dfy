/**
 The cipher modes built over AES-128: raw ECB for the pairing handshake and CBC with PKCS7 padding
 for audio packets. The block cipher itself is a parameter, known only by its inverse law.
 */
module Crypto {
  import opened Bytes
  import Gf256

  type Key = seq<byte>
  type Block = b: seq<byte> | |b| == 16 witness seq(16, i => 0)

  datatype BlockCipher = BlockCipher(enc: (Key, Block) -> Block, dec: (Key, Block) -> Block)

  /** Decryption inverts encryption under the same key. */
  ghost predicate Lawful(c: BlockCipher) {
    forall k: Key, b: Block :: c.dec(k, c.enc(k, b)) == b
  }

  // ECB.

  /** A block function applied to each block in turn. */
  function MapBlocks(f: Block -> Block, data: seq<byte>): (r: seq<byte>)
    requires |data| % 16 == 0
    ensures |r| == |data|
  {
    if data == [] then [] else f(data[..16]) + MapBlocks(f, data[16..])
  }

  lemma ApplyEnds(f: Block -> Block, data: seq<byte>)
    requires |data| % 16 == 0
    ensures MapBlocks(f, data[..0]) + data[0..] == data
    ensures MapBlocks(f, data[..|data|]) + data[|data|..] == MapBlocks(f, data)
  {
    assert data[..|data|] == data;
  }

  lemma {:induction false} MapBlocksAppend(f: Block -> Block, data: seq<byte>, block: Block)
    requires |data| % 16 == 0
    ensures MapBlocks(f, data + block) == MapBlocks(f, data) + f(block)
  {
    if data == [] {
      assert data + block == block && block[16..] == [] && block[..16] == block;
    } else {
      assert (data + block)[..16] == data[..16] && (data + block)[16..] == data[16..] + block;
      MapBlocksAppend(f, data[16..], block);
    }
  }

  /** Overwrites one block of a buffer. */
  method StoreBlock(a: array<byte>, at: nat, block: Block)
    requires at + 16 <= a.Length
    modifies a
    ensures a[..] == old(a[..at]) + block + old(a[at + 16..])
  {
    forall j | 0 <= j < 16 { a[at + j] := block[j]; }
  }

  /** One more block of a buffer whose first `at` bytes are done. */
  lemma ApplyStep(f: Block -> Block, data: seq<byte>, at: nat, s: seq<byte>)
    requires |data| % 16 == at % 16 == 0 && at < |data|
    requires s == MapBlocks(f, data[..at]) + data[at..]
    ensures s[at..at + 16] == data[at..at + 16]
    ensures s[..at] + f(data[at..at + 16]) + s[at + 16..] == MapBlocks(f, data[..at + 16]) + data[at + 16..]
  {
    MapBlocksAppend(f, data[..at], data[at..at + 16]);
    hide MapBlocks;
    assert data[..at] + data[at..at + 16] == data[..at + 16];
    var head: seq<byte> := MapBlocks(f, data[..at]);
    assert s[..at] == head && s[at..] == data[at..];
    assert s[at..at + 16] == s[at..][..16] && data[at..at + 16] == data[at..][..16];
    assert s[at + 16..] == s[at..][16..] && data[at + 16..] == data[at..][16..];
  }

  method ApplyChunk(f: Block -> Block, out: array<byte>, at: nat, ghost data: seq<byte>)
    requires |data| % 16 == at % 16 == 0 && at < |data|
    requires out[..] == MapBlocks(f, data[..at]) + data[at..]
    modifies out
    ensures out[..] == MapBlocks(f, data[..at + 16]) + data[at + 16..]
  {
    ghost var s := out[..];
    ApplyStep(f, data, at, s);
    assert |s| == |data|;
    hide MapBlocks;
    var chunk := out[at..at + 16];
    assert chunk == s[at..at + 16] && out[..at] == s[..at] && out[at + 16..] == s[at + 16..];
    StoreBlock(out, at, f(chunk));
  }

  /** The in-place loop over 16-byte chunks that both ECB directions share. */
  method ApplyBlocks(f: Block -> Block, out: array<byte>)
    requires out.Length % 16 == 0
    modifies out
    ensures out[..] == MapBlocks(f, old(out[..]))
  {
    hide MapBlocks;
    ghost var data := out[..];
    ApplyEnds(f, data);
    var at := 0;
    while at < out.Length
      invariant 0 <= at <= out.Length && at % 16 == 0
      invariant out[..] == MapBlocks(f, data[..at]) + data[at..]
    {
      ApplyChunk(f, out, at, data);
      at := at + 16;
    }
  }

  datatype LengthError = NotBlockMultiple(length: nat)

  function Encryptor(c: BlockCipher, key: Key): Block -> Block { b => c.enc(key, b) }
  function Decryptor(c: BlockCipher, key: Key): Block -> Block { b => c.dec(key, b) }

  function EcbEncrypted(c: BlockCipher, data: seq<byte>, key: Key): Result<seq<byte>, LengthError> {
    if |data| % 16 != 0 then Err(NotBlockMultiple(|data|)) else Ok(MapBlocks(Encryptor(c, key), data))
  }

  function EcbDecrypted(c: BlockCipher, data: seq<byte>, key: Key): Result<seq<byte>, LengthError> {
    if |data| % 16 != 0 then Err(NotBlockMultiple(|data|)) else Ok(MapBlocks(Decryptor(c, key), data))
  }

  method EcbEncrypt(c: BlockCipher, data: seq<byte>, key: Key) returns (r: Result<seq<byte>, LengthError>)
    ensures r == EcbEncrypted(c, data, key)
  {
    if |data| % 16 != 0 { return Err(NotBlockMultiple(|data|)); }
    var out := new byte[|data|](i requires 0 <= i < |data| => data[i]);
    assert out[..] == data;
    ApplyBlocks(Encryptor(c, key), out);
    r := Ok(out[..]);
  }

  method EcbDecrypt(c: BlockCipher, data: seq<byte>, key: Key) returns (r: Result<seq<byte>, LengthError>)
    ensures r == EcbDecrypted(c, data, key)
  {
    if |data| % 16 != 0 { return Err(NotBlockMultiple(|data|)); }
    var out := new byte[|data|](i requires 0 <= i < |data| => data[i]);
    assert out[..] == data;
    ApplyBlocks(Decryptor(c, key), out);
    r := Ok(out[..]);
  }

  lemma {:induction false} MapBlocksInverse(c: BlockCipher, data: seq<byte>, key: Key)
    requires Lawful(c) && |data| % 16 == 0
    ensures MapBlocks(Decryptor(c, key), MapBlocks(Encryptor(c, key), data)) == data
  {
    if data != [] {
      var first: seq<byte> := c.enc(key, data[..16]);
      var rest: seq<byte> := MapBlocks(Encryptor(c, key), data[16..]);
      assert (first + rest)[..16] == first && (first + rest)[16..] == rest;
      MapBlocksInverse(c, data[16..], key);
    }
  }

  /** ECB succeeds exactly on whole blocks, and then decryption gives the data back. */
  lemma EcbRoundTrip(c: BlockCipher, data: seq<byte>, key: Key)
    requires Lawful(c)
    ensures EcbEncrypted(c, data, key).Ok? <==> |data| % 16 == 0
    ensures EcbEncrypted(c, data, key).Ok? ==> EcbDecrypted(c, EcbEncrypted(c, data, key).value, key) == Ok(data)
  {
    if |data| % 16 == 0 { MapBlocksInverse(c, data, key); }
  }

  lemma {:induction false} MapBlocksAt(f: Block -> Block, data: seq<byte>, at: nat)
    requires |data| % 16 == 0 && at % 16 == 0 && at + 16 <= |data|
    ensures MapBlocks(f, data)[at..at + 16] == f(data[at..at + 16])
    decreases at
  {
    var first: seq<byte> := f(data[..16]);
    var rest := MapBlocks(f, data[16..]);
    assert MapBlocks(f, data) == first + rest;
    hide MapBlocks;
    if at == 0 {
      assert (first + rest)[..16] == first;
    } else {
      MapBlocksAt(f, data[16..], at - 16);
      assert data[16..][at - 16..at] == data[at..at + 16];
      assert (first + rest)[at..at + 16] == rest[at - 16..at];
    }
  }

  /** Each block is the cipher's own image of the block in its place, under the key given. */
  lemma EcbBlocks(c: BlockCipher, data: seq<byte>, key: Key, at: nat)
    requires |data| % 16 == 0 && at % 16 == 0 && at + 16 <= |data|
    ensures var e, d := EcbEncrypted(c, data, key), EcbDecrypted(c, data, key);
            && e.Ok? && |e.value| == |data| && e.value[at..at + 16] == c.enc(key, data[at..at + 16])
            && d.Ok? && |d.value| == |data| && d.value[at..at + 16] == c.dec(key, data[at..at + 16])
  {
    hide MapBlocks;
    MapBlocksAt(Encryptor(c, key), data, at);
    MapBlocksAt(Decryptor(c, key), data, at);
  }

  // CBC with PKCS7 padding.

  function XorByte(a: byte, b: byte): byte {
    Gf256.ToByte(Gf256.Add(Gf256.FromByte(a), Gf256.FromByte(b)))
  }

  lemma XorTwice(a: byte, b: byte)
    ensures XorByte(XorByte(a, b), b) == a
  {
    hide Gf256.ToByte, Gf256.FromByte, Gf256.Add;
    var x, y := Gf256.FromByte(a), Gf256.FromByte(b);
    Gf256.ByteRoundTrip(a, Gf256.Add(x, y));
    Gf256.AddAssoc(x, y, y);
    Gf256.AddZero(x);
    Gf256.AddZero(y);
  }

  /** Exclusive or, bit by bit from the lowest. */
  function Xor(a: nat, b: nat, width: nat): nat {
    if width == 0 then 0 else (if a % 2 == b % 2 then 0 else 1) + 2 * Xor(a / 2, b / 2, width - 1)
  }

  function XorBits(a: Gf256.Bits, b: Gf256.Bits): Gf256.Bits {
    if a.End? || b.End? then Gf256.End else Gf256.Bit(a.low != b.low, XorBits(a.high, b.high))
  }

  lemma {:induction false} XorSpread(a: nat, b: nat, width: nat)
    ensures Gf256.Weight(XorBits(Gf256.Spread(a, width), Gf256.Spread(b, width))) == Xor(a, b, width)
  {
    if width > 0 { XorSpread(a / 2, b / 2, width - 1); }
  }

  lemma XorStep(a: bool, b: bool, x: Gf256.Bits, y: Gf256.Bits, sum: Gf256.Bits)
    requires XorBits(x, y) == sum
    ensures XorBits(Gf256.Bit(a, x), Gf256.Bit(b, y)) == Gf256.Bit(a != b, sum)
  {}

  function Two(low: bool, next: bool, high: Gf256.Bits): Gf256.Bits { Gf256.Bit(low, Gf256.Bit(next, high)) }

  /** Two bits of a sum, over a sum of the higher ones. */
  lemma XorTwo(x: bool, y: bool, x': bool, y': bool, a: Gf256.Bits, b: Gf256.Bits, sum: Gf256.Bits)
    requires XorBits(a, b) == sum
    ensures XorBits(Two(x, x', a), Two(y, y', b)) == Two(x != y, x' != y', sum)
  {
    hide XorBits;
    XorStep(x', y', a, b, sum);
    XorStep(x, y, Gf256.Bit(x', a), Gf256.Bit(y', b), Gf256.Bit(x' != y', sum));
  }

  lemma BitsInTwos(x: Gf256.Gf)
    ensures x.Bits() == Two(x.c0, x.c1, Two(x.c2, x.c3, Two(x.c4, x.c5, Two(x.c6, x.c7, Gf256.End))))
  {}

  lemma AddIsXor(x: Gf256.Gf, y: Gf256.Gf)
    ensures Gf256.Add(x, y).Bits() == XorBits(x.Bits(), y.Bits())
  {
    assert XorBits(Gf256.End, Gf256.End) == Gf256.End;
    hide XorBits, Two;
    var s := Gf256.Add(x, y);
    BitsInTwos(x);
    BitsInTwos(y);
    BitsInTwos(s);
    hide Gf256.Gf.Bits;
    var a, b, r := Gf256.End, Gf256.End, Gf256.End;
    XorTwo(x.c6, y.c6, x.c7, y.c7, a, b, r);
    a, b, r := Two(x.c6, x.c7, a), Two(y.c6, y.c7, b), Two(s.c6, s.c7, r);
    XorTwo(x.c4, y.c4, x.c5, y.c5, a, b, r);
    a, b, r := Two(x.c4, x.c5, a), Two(y.c4, y.c5, b), Two(s.c4, s.c5, r);
    XorTwo(x.c2, y.c2, x.c3, y.c3, a, b, r);
    a, b, r := Two(x.c2, x.c3, a), Two(y.c2, y.c3, b), Two(s.c2, s.c3, r);
    XorTwo(x.c0, y.c0, x.c1, y.c1, a, b, r);
  }

  /** Adding field elements is the exclusive or of their bytes. */
  lemma XorExactly(a: byte, b: byte)
    ensures XorByte(a, b) == Xor(a, b, 8)
  {
    hide Xor, XorBits, Gf256.Spread, Gf256.FromBits, Gf256.Weight;
    Gf256.EightBits(Gf256.Spread(a, 8));
    Gf256.EightBits(Gf256.Spread(b, 8));
    AddIsXor(Gf256.FromByte(a), Gf256.FromByte(b));
    XorSpread(a, b, 8);
  }

  function XorBlock(a: seq<byte>, b: seq<byte>): (r: seq<byte>)
    requires |a| == |b|
    ensures |r| == |a| && forall i | 0 <= i < |a| :: r[i] == XorByte(a[i], b[i])
  {
    seq(|a|, i requires 0 <= i < |a| => XorByte(a[i], b[i]))
  }

  lemma XorBlockTwice(a: seq<byte>, b: seq<byte>)
    requires |a| == |b|
    ensures XorBlock(XorBlock(a, b), b) == a
  {
    forall i | 0 <= i < |a|
      ensures XorBlock(XorBlock(a, b), b)[i] == a[i]
    {
      XorTwice(a[i], b[i]);
    }
  }

  /** Each plaintext block is masked with the ciphertext block before it. */
  function CbcChain(c: BlockCipher, key: Key, previous: Block, data: seq<byte>): (r: seq<byte>)
    requires |data| % 16 == 0
    ensures |r| == |data|
    decreases |data|
  {
    if data == [] then [] else
      var block := c.enc(key, XorBlock(data[..16], previous));
      block + CbcChain(c, key, block, data[16..])
  }

  function CbcUnchain(c: BlockCipher, key: Key, previous: Block, data: seq<byte>): (r: seq<byte>)
    requires |data| % 16 == 0
    ensures |r| == |data|
    decreases |data|
  {
    if data == [] then [] else
      XorBlock(c.dec(key, data[..16]), previous) + CbcUnchain(c, key, data[..16], data[16..])
  }

  lemma {:induction false} ChainInverse(c: BlockCipher, key: Key, previous: Block, data: seq<byte>)
    requires Lawful(c) && |data| % 16 == 0
    ensures CbcUnchain(c, key, previous, CbcChain(c, key, previous, data)) == data
    decreases |data|
  {
    if data != [] {
      var block := c.enc(key, XorBlock(data[..16], previous));
      var head: seq<byte> := block;
      var rest: seq<byte> := CbcChain(c, key, block, data[16..]);
      assert (head + rest)[..16] == head && (head + rest)[16..] == rest;
      XorBlockTwice(data[..16], previous);
      ChainInverse(c, key, block, data[16..]);
    }
  }

  function CbcMask(iv: Block, r: seq<byte>, at: nat): Block
    requires at <= |r| && at % 16 == 0
  {
    if at == 0 then iv else r[at - 16..at]
  }

  /** Each ciphertext block is the image of its plaintext block masked with the block before it. */
  lemma {:induction false} CbcBlocks(c: BlockCipher, key: Key, iv: Block, data: seq<byte>, at: nat)
    requires |data| % 16 == 0 && at % 16 == 0 && at + 16 <= |data|
    ensures var r := CbcChain(c, key, iv, data);
            r[at..at + 16] == c.enc(key, XorBlock(data[at..at + 16], CbcMask(iv, r, at)))
    decreases at
  {
    hide XorBlock, CbcMask, CbcChain;
    ChainHead(c, key, iv, data);
    var first: Block := c.enc(key, XorBlock(data[..16], iv));
    var rest := CbcChain(c, key, first, data[16..]);
    if at == 0 {
      MaskShifts(iv, first, rest, 0);
    } else {
      CbcBlocks(c, key, first, data[16..], at - 16);
      assert data[16..][at - 16..at] == data[at..at + 16];
      assert (first + rest)[at..at + 16] == rest[at - 16..at];
      MaskShifts(iv, first, rest, at);
    }
  }

  lemma ChainHead(c: BlockCipher, key: Key, iv: Block, data: seq<byte>)
    requires |data| % 16 == 0 && data != []
    ensures var first := c.enc(key, XorBlock(data[..16], iv));
            CbcChain(c, key, iv, data) == first + CbcChain(c, key, first, data[16..])
            && CbcChain(c, key, iv, data)[..16] == first
  {
    hide XorBlock;
  }

  lemma MaskShifts(iv: Block, first: Block, rest: seq<byte>, at: nat)
    requires at % 16 == 0 && at - 16 <= |rest|
    ensures at == 0 ==> CbcMask(iv, first + rest, at) == iv
    ensures at > 0 ==> CbcMask(first, rest, at - 16) == CbcMask(iv, first + rest, at)
  {
    if at > 16 { assert (first + rest)[at - 16..at] == rest[at - 32..at - 16]; }
    else if at == 16 { assert (first + rest)[..16] == first; }
  }

  function PadLength(n: nat): byte { 16 - n % 16 }

  /** PKCS7 (section 6.3 of RFC 5652): fill to a block boundary, at least one byte, with the fill count. */
  function Pad(data: seq<byte>): (r: seq<byte>)
    ensures |r| == (|data| / 16 + 1) * 16
  {
    data + seq(PadLength(|data|), i => PadLength(|data|))
  }

  lemma PadBytes(data: seq<byte>, i: nat)
    ensures Pad(data)[..|data|] == data && |Pad(data)| - |data| == 16 - |data| % 16
    ensures |data| <= i < |Pad(data)| ==> Pad(data)[i] == 16 - |data| % 16
  {}

  function Unpad(data: seq<byte>): Option<seq<byte>> {
    if data == [] then None else
      var n: int := data[|data| - 1];
      if 1 <= n <= 16 && n <= |data| && (forall i | |data| - n <= i < |data| :: data[i] == data[|data| - 1])
      then Some(data[..|data| - n]) else None
  }

  function CbcEncrypted(c: BlockCipher, plaintext: seq<byte>, key: Key, iv: Block): (r: seq<byte>)
    ensures |r| == (|plaintext| / 16 + 1) * 16
  {
    CbcChain(c, key, iv, Pad(plaintext))
  }

  function CbcDecrypted(c: BlockCipher, ciphertext: seq<byte>, key: Key, iv: Block): Option<seq<byte>>
  {
    if |ciphertext| % 16 != 0 then None else Unpad(CbcUnchain(c, key, iv, ciphertext))
  }

  /** What is encrypted is the padded plaintext, chained from the initialisation vector. */
  lemma CbcEncryptedBlocks(c: BlockCipher, plaintext: seq<byte>, key: Key, iv: Block, at: nat)
    requires at % 16 == 0 && at + 16 <= |Pad(plaintext)|
    ensures var r := CbcEncrypted(c, plaintext, key, iv);
            r[at..at + 16] == c.enc(key, XorBlock(Pad(plaintext)[at..at + 16], CbcMask(iv, r, at)))
  {
    hide CbcChain, XorBlock, Pad, CbcMask;
    CbcBlocks(c, key, iv, Pad(plaintext), at);
  }

  /** For every plaintext, empty and block-aligned ones included, the client decrypts what was encrypted. */
  lemma CbcRoundTrip(c: BlockCipher, plaintext: seq<byte>, key: Key, iv: Block)
    requires Lawful(c)
    ensures CbcDecrypted(c, CbcEncrypted(c, plaintext, key, iv), key, iv) == Some(plaintext)
  {
    hide CbcChain, CbcUnchain, Pad, Unpad;
    ChainInverse(c, key, iv, Pad(plaintext));
    UnpadPad(plaintext);
  }

  lemma UnpadPad(data: seq<byte>)
    ensures Unpad(Pad(data)) == Some(data)
  {
    var p := Pad(data);
    assert p[..|p| - PadLength(|data|)] == data;
  }

  /** The ciphertext block that masks the block after `data`. */
  function Carry(c: BlockCipher, key: Key, previous: Block, data: seq<byte>): Block
    requires |data| % 16 == 0
    decreases |data|
  {
    if data == [] then previous else Carry(c, key, c.enc(key, XorBlock(data[..16], previous)), data[16..])
  }

  lemma {:induction false} ChainAppend(c: BlockCipher, key: Key, previous: Block, data: seq<byte>, block: Block)
    requires |data| % 16 == 0
    ensures var next := c.enc(key, XorBlock(block, Carry(c, key, previous, data)));
            && CbcChain(c, key, previous, data + block) == CbcChain(c, key, previous, data) + next
            && Carry(c, key, previous, data + block) == next
    decreases |data|
  {
    hide XorBlock;
    if data == [] {
      assert data + block == block && block[16..] == [] && block[..16] == block;
    } else {
      var next := c.enc(key, XorBlock(data[..16], previous));
      assert (data + block)[..16] == data[..16] && (data + block)[16..] == data[16..] + block;
      ChainAppend(c, key, next, data[16..], block);
    }
  }

  function NextBlock(c: BlockCipher, key: Key, iv: Block, p: seq<byte>, at: nat): Block
    requires |p| % 16 == at % 16 == 0 && at < |p|
  {
    c.enc(key, XorBlock(p[at..at + 16], Carry(c, key, iv, p[..at])))
  }

  lemma ChainStep(c: BlockCipher, key: Key, iv: Block, p: seq<byte>, at: nat, s: seq<byte>)
    requires |p| % 16 == at % 16 == 0 && at < |p| <= |s|
    requires s[..|p|] == CbcChain(c, key, iv, p[..at]) + p[at..]
    ensures s[at..at + 16] == p[at..at + 16]
    ensures (s[..at] + NextBlock(c, key, iv, p, at) + s[at + 16..])[..|p|] == CbcChain(c, key, iv, p[..at + 16]) + p[at + 16..]
    ensures Carry(c, key, iv, p[..at + 16]) == NextBlock(c, key, iv, p, at)
  {
    ChainAppend(c, key, iv, p[..at], p[at..at + 16]);
    hide CbcChain, Carry, XorBlock;
    assert p[..at] + p[at..at + 16] == p[..at + 16];
    var t: seq<byte>, head: seq<byte> := s[..|p|], CbcChain(c, key, iv, p[..at]);
    assert t[..at] == head && t[at..] == p[at..];
    assert t[at..at + 16] == t[at..][..16] && p[at..at + 16] == p[at..][..16];
    assert t[at + 16..] == t[at..][16..] && p[at + 16..] == p[at..][16..];
    assert s[..at] == t[..at] && s[at..at + 16] == t[at..at + 16] && s[at + 16..|p|] == t[at + 16..];
    var next: seq<byte> := NextBlock(c, key, iv, p, at);
    hide NextBlock;
    assert (s[..at] + next + s[at + 16..])[..|p|] == head + next + t[at + 16..];
  }

  method ChainChunk(c: BlockCipher, key: Key, previous: Block, buffer: array<byte>, at: nat, ghost iv: Block, ghost p: seq<byte>)
    returns (next: Block)
    requires |p| % 16 == at % 16 == 0 && at < |p| <= buffer.Length
    requires buffer[..|p|] == CbcChain(c, key, iv, p[..at]) + p[at..]
    requires previous == Carry(c, key, iv, p[..at])
    modifies buffer
    ensures buffer[..|p|] == CbcChain(c, key, iv, p[..at + 16]) + p[at + 16..]
    ensures next == Carry(c, key, iv, p[..at + 16])
  {
    hide CbcChain, Carry, XorBlock;
    ghost var s := buffer[..];
    assert s[..|p|] == buffer[..|p|];
    ChainStep(c, key, iv, p, at, s);
    var chunk: seq<byte> := buffer[at..at + 16];
    assert chunk == s[at..at + 16] && buffer[..at] == s[..at] && buffer[at + 16..] == s[at + 16..];
    next := c.enc(key, XorBlock(chunk, previous));
    assert next == NextBlock(c, key, iv, p, at);
    hide NextBlock;
    StoreBlock(buffer, at, next);
    assert buffer[..|p|] == buffer[..][..|p|];
  }

  /** The library's in-place padded encryption: `None` when the buffer has no room for the padding. */
  method EncryptPadded(c: BlockCipher, key: Key, iv: Block, buffer: array<byte>, length: nat) returns (r: Option<nat>)
    requires length <= buffer.Length
    modifies buffer
    ensures r.Some? <==> (length / 16 + 1) * 16 <= buffer.Length
    ensures r.Some? ==> r.value == (length / 16 + 1) * 16
                        && buffer[..r.value] == CbcEncrypted(c, old(buffer[..length]), key, iv)
  {
    var padded := (length / 16 + 1) * 16;
    if padded > buffer.Length { return None; }
    ghost var p := Pad(buffer[..length]);
    forall i | length <= i < padded { buffer[i] := PadLength(length); }
    assert buffer[..padded] == p;
    assert p[..0] == [] && p[0..] == p;
    assert CbcChain(c, key, iv, []) == [] && Carry(c, key, iv, []) == iv;
    hide CbcChain, Carry;
    var at := 0;
    var previous := iv;
    while at < padded
      invariant 0 <= at <= padded && at % 16 == 0
      invariant buffer[..padded] == CbcChain(c, key, iv, p[..at]) + p[at..]
      invariant previous == Carry(c, key, iv, p[..at])
    {
      previous := ChainChunk(c, key, previous, buffer, at, iv, p);
      at := at + 16;
    }
    assert p[..at] == p && p[at..] == [];
    r := Some(padded);
  }

  /** The buffer the server allocates always has room for the padding. */
  method CbcEncrypt(c: BlockCipher, plaintext: seq<byte>, key: Key, iv: Block) returns (r: seq<byte>)
    ensures r == CbcEncrypted(c, plaintext, key, iv)
  {
    var size := (|plaintext| + 16 - 1) / 16 * 16 + 16;
    var buffer := new byte[size](i requires 0 <= i < size => if i < |plaintext| then plaintext[i] else 0);
    assert buffer[..|plaintext|] == plaintext;
    var length := EncryptPadded(c, key, iv, buffer, |plaintext|);
    assert length.Some?;
    r := buffer[..length.value];
  }
}
