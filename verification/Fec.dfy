/**
 The 4+2 Reed-Solomon code of the audio stream: two parity shards over four data shards, computed
 byte position by byte position with a fixed matrix, and a decoder that needs any four of the six.
 */
module Fec {
  import opened Bytes
  import opened Gf256

  const DATA_SHARDS := 4
  const FEC_SHARDS := 2
  const PARITY_MATRIX: seq<byte> := [0x77, 0x40, 0x38, 0x0E, 0xC7, 0xA7, 0x0D, 0x6C]

  function Coef(j: nat, i: nat): Gf
    requires j < FEC_SHARDS && i < DATA_SHARDS
  {
    FromByte(PARITY_MATRIX[j * DATA_SHARDS + i])
  }

  // One byte position of the four shards.

  function Dot(j: nat, d: seq<Gf>): Gf
    requires j < FEC_SHARDS && |d| == DATA_SHARDS
  {
    Add(Add(Mul(Coef(j, 0), d[0]), Mul(Coef(j, 1), d[1])), Add(Mul(Coef(j, 2), d[2]), Mul(Coef(j, 3), d[3])))
  }

  lemma DotAdd(j: nat, d: seq<Gf>, e: seq<Gf>, f: seq<Gf>)
    requires j < FEC_SHARDS && |d| == |e| == |f| == DATA_SHARDS
    requires forall i | 0 <= i < DATA_SHARDS :: f[i] == Add(d[i], e[i])
    ensures Add(Dot(j, d), Dot(j, e)) == Dot(j, f)
  {
    forall i | 0 <= i < DATA_SHARDS
      ensures Mul(Coef(j, i), f[i]) == Add(Mul(Coef(j, i), d[i]), Mul(Coef(j, i), e[i]))
    {
      MulAdd(Coef(j, i), d[i], e[i]);
    }
    hide Mul, Coef, Add;
    var d0, d1, d2, d3 := Mul(Coef(j, 0), d[0]), Mul(Coef(j, 1), d[1]), Mul(Coef(j, 2), d[2]), Mul(Coef(j, 3), d[3]);
    var e0, e1, e2, e3 := Mul(Coef(j, 0), e[0]), Mul(Coef(j, 1), e[1]), Mul(Coef(j, 2), e[2]), Mul(Coef(j, 3), e[3]);
    AddSwap(Add(d0, d1), Add(d2, d3), Add(e0, e1), Add(e2, e3));
    AddSwap(d0, d1, e0, e1);
    AddSwap(d2, d3, e2, e3);
  }

  /** When only positions `a` and `b` are nonzero, two products remain. */
  lemma DotSparse(j: nat, e: seq<Gf>, a: nat, b: nat)
    requires j < FEC_SHARDS && |e| == DATA_SHARDS && a < b < DATA_SHARDS
    requires forall i | 0 <= i < DATA_SHARDS && i != a && i != b :: e[i] == ZERO
    ensures Dot(j, e) == Add(Mul(Coef(j, a), e[a]), Mul(Coef(j, b), e[b]))
  {
    forall i | 0 <= i < DATA_SHARDS && i != a && i != b
      ensures Mul(Coef(j, i), e[i]) == ZERO
    {
      HornerZero(Coef(j, i).Bits());
    }
    hide Mul, Coef;
    AddZero(Mul(Coef(j, a), e[a]));
    AddZero(Mul(Coef(j, b), e[b]));
    AddZero(Add(Mul(Coef(j, a), e[a]), Mul(Coef(j, b), e[b])));
    AddZero(ZERO);
    hide Add;
  }

  function Det(a: nat, b: nat): Gf
    requires a < b < DATA_SHARDS
  {
    Add(Mul(Coef(0, a), Coef(1, b)), Mul(Coef(0, b), Coef(1, a)))
  }

  // Every coefficient, and every two-by-two minor, of the matrix has an inverse.

  lemma Coefs()
    ensures Coef(0, 0) == FromByte(0x77) && Coef(0, 1) == FromByte(0x40)
    ensures Coef(0, 2) == FromByte(0x38) && Coef(0, 3) == FromByte(0x0E)
    ensures Coef(1, 0) == FromByte(0xC7) && Coef(1, 1) == FromByte(0xA7)
    ensures Coef(1, 2) == FromByte(0x0D) && Coef(1, 3) == FromByte(0x6C)
  {
    hide FromByte;
  }

  lemma Inverses0()
    ensures Mul(FromByte(0x77), FromByte(0x79)) == ONE && Mul(FromByte(0x40), FromByte(0x36)) == ONE
  {}

  lemma Inverses1()
    ensures Mul(FromByte(0x38), FromByte(0x50)) == ONE && Mul(FromByte(0x0E), FromByte(0x5D)) == ONE
  {}

  lemma Inverses2()
    ensures Mul(FromByte(0xC7), FromByte(0x9E)) == ONE && Mul(FromByte(0xA7), FromByte(0x05)) == ONE
  {}

  lemma Inverses3()
    ensures Mul(FromByte(0x0D), FromByte(0xAA)) == ONE && Mul(FromByte(0x6C), FromByte(0x20)) == ONE
  {}

  lemma CoefInvertible(j: nat, i: nat) returns (w: Gf)
    requires j < FEC_SHARDS && i < DATA_SHARDS
    ensures Mul(Coef(j, i), w) == ONE
  {
    Coefs();
    Inverses0();
    Inverses1();
    Inverses2();
    Inverses3();
    hide Mul, FromByte, Coef;
    if j == 0 {
      w := FromByte(if i == 0 then 0x79 else if i == 1 then 0x36 else if i == 2 then 0x50 else 0x5D);
    } else {
      w := FromByte(if i == 0 then 0x9E else if i == 1 then 0x05 else if i == 2 then 0xAA else 0x20);
    }
  }

  lemma Inverses4()
    ensures Mul(FromByte(0x8C), FromByte(0x53)) == ONE && Mul(FromByte(0x76), FromByte(0xDA)) == ONE
  {}

  lemma Inverses5()
    ensures Mul(FromByte(0x4A), FromByte(0x2B)) == ONE && Mul(FromByte(0xCD), FromByte(0x7D)) == ONE
  {}

  lemma Inverses6()
    ensures Mul(FromByte(0xA6), FromByte(0x46)) == ONE && Mul(FromByte(0x8E), FromByte(0x02)) == ONE
  {}

  lemma Minor01()
    ensures Add(Mul(FromByte(0x77), FromByte(0xA7)), Mul(FromByte(0x40), FromByte(0xC7))) == FromByte(0x8C)
  {}

  lemma Minor02()
    ensures Add(Mul(FromByte(0x77), FromByte(0x0D)), Mul(FromByte(0x38), FromByte(0xC7))) == FromByte(0x76)
  {}

  lemma Minor03()
    ensures Add(Mul(FromByte(0x77), FromByte(0x6C)), Mul(FromByte(0x0E), FromByte(0xC7))) == FromByte(0x4A)
  {}

  lemma Minor12()
    ensures Add(Mul(FromByte(0x40), FromByte(0x0D)), Mul(FromByte(0x38), FromByte(0xA7))) == FromByte(0xCD)
  {}

  lemma Minor13()
    ensures Add(Mul(FromByte(0x40), FromByte(0x6C)), Mul(FromByte(0x0E), FromByte(0xA7))) == FromByte(0xA6)
  {}

  lemma Minor23()
    ensures Add(Mul(FromByte(0x38), FromByte(0x6C)), Mul(FromByte(0x0E), FromByte(0x0D))) == FromByte(0x8E)
  {}

  lemma MinorInvertible(a: nat, b: nat) returns (w: Gf)
    requires a < b < DATA_SHARDS
    ensures Mul(Det(a, b), w) == ONE
  {
    Coefs();
    Inverses4();
    Inverses5();
    Inverses6();
    Minor01();
    Minor02();
    Minor03();
    Minor12();
    Minor13();
    Minor23();
    hide Mul, FromByte, Coef, Add;
    if a == 0 {
      w := FromByte(if b == 1 then 0x53 else if b == 2 then 0xDA else 0x2B);
    } else if a == 1 {
      w := FromByte(if b == 2 then 0x7D else 0x46);
    } else {
      w := FromByte(0x02);
    }
  }

  // The decoder, and the recovery theorem for one byte position.

  /** The received value of shard `i`, or zero when it is lost. */
  function Known(have: seq<Option<Gf>>, i: nat): Gf
    requires i < |have|
  {
    if have[i].Some? then have[i].value else ZERO
  }

  function KnownData(have: seq<Option<Gf>>): (d: seq<Gf>)
    requires |have| == DATA_SHARDS + FEC_SHARDS
    ensures |d| == DATA_SHARDS && forall i | 0 <= i < DATA_SHARDS :: d[i] == Known(have, i)
  {
    seq(DATA_SHARDS, i requires 0 <= i < DATA_SHARDS => Known(have, i))
  }

  /** What parity `j` says about the lost data shards together. */
  function Syndrome(have: seq<Option<Gf>>, j: nat): Gf
    requires |have| == DATA_SHARDS + FEC_SHARDS && j < FEC_SHARDS
  {
    Add(Known(have, DATA_SHARDS + j), Dot(j, KnownData(have)))
  }

  /** The only lost shard `a`, from a parity that arrived. */
  ghost function SolveOne(have: seq<Option<Gf>>, a: nat): Gf
    requires |have| == DATA_SHARDS + FEC_SHARDS && a < DATA_SHARDS
  {
    var j := if have[DATA_SHARDS].Some? then 0 else 1;
    Mul(Inverse(Coef(j, a)), Syndrome(have, j))
  }

  /** Lost shard `a` when `a` and `b` are lost, from both parities. */
  ghost function SolveTwo(have: seq<Option<Gf>>, a: nat, b: nat): Gf
    requires |have| == DATA_SHARDS + FEC_SHARDS && a < DATA_SHARDS && b < DATA_SHARDS && a != b
  {
    var det := if a < b then Det(a, b) else Det(b, a);
    Mul(Inverse(det), Add(Mul(Coef(1, b), Syndrome(have, 0)), Mul(Coef(0, b), Syndrome(have, 1))))
  }

  /** The first lost data shard other than `i` at or after `k`. */
  function OtherLost<T>(have: seq<Option<T>>, i: nat, k: nat): (b: nat)
    requires |have| == DATA_SHARDS + FEC_SHARDS && k <= DATA_SHARDS
    ensures k <= b <= DATA_SHARDS && (b < DATA_SHARDS ==> b != i && have[b].None?)
    ensures forall m | k <= m < b && m != i :: have[m].Some?
    decreases DATA_SHARDS - k
  {
    if k == DATA_SHARDS || (k != i && have[k].None?) then k else OtherLost(have, i, k + 1)
  }

  /** Data shard `i`: as received, or else solved for. */
  ghost function RecoverAt(have: seq<Option<Gf>>, i: nat): Gf
    requires |have| == DATA_SHARDS + FEC_SHARDS && i < DATA_SHARDS
  {
    if have[i].Some? then have[i].value else
      var b := OtherLost(have, i, 0);
      if b < DATA_SHARDS then SolveTwo(have, i, b) else SolveOne(have, i)
  }

  function Losses<T>(have: seq<Option<T>>): nat {
    if have == [] then 0 else (if have[0].None? then 1 else 0) + Losses(have[1..])
  }

  lemma SixLosses<T>(have: seq<Option<T>>)
    requires |have| == 6
    ensures Losses(have) == (if have[0].None? then 1 else 0) + (if have[1].None? then 1 else 0) + (if have[2].None? then 1 else 0)
                            + (if have[3].None? then 1 else 0) + (if have[4].None? then 1 else 0) + (if have[5].None? then 1 else 0)
  {
    assert have[0..] == have && have[6..] == [];
    forall i | 0 <= i < 6
      ensures Losses(have[i..]) == (if have[i].None? then 1 else 0) + Losses(have[i + 1..])
    {
      assert have[i..][1..] == have[i + 1..];
    }
    assert Losses(have[5..]) == if have[5].None? then 1 else 0;
    assert Losses(have[3..]) == (if have[3].None? then 1 else 0) + ((if have[4].None? then 1 else 0) + Losses(have[5..]));
  }

  lemma {:induction false} SameLosses<T, U>(a: seq<Option<T>>, b: seq<Option<U>>)
    requires |a| == |b| && forall i | 0 <= i < |a| :: a[i].None? <==> b[i].None?
    ensures Losses(a) == Losses(b)
  {
    if a != [] { SameLosses(a[1..], b[1..]); }
  }

  /** Everything that arrived is what was sent. */
  ghost predicate Received<T>(have: seq<Option<T>>, sent: seq<T>) {
    |have| == |sent| && forall i | 0 <= i < |have| && have[i].Some? :: have[i].value == sent[i]
  }

  /** The six values of one byte position: four of data and two of parity. */
  function EncodeColumn(d: seq<Gf>): (c: seq<Gf>)
    requires |d| == DATA_SHARDS
    ensures |c| == DATA_SHARDS + FEC_SHARDS
    ensures forall i | 0 <= i < DATA_SHARDS :: c[i] == d[i]
    ensures forall j | 0 <= j < FEC_SHARDS :: c[DATA_SHARDS + j] == Dot(j, d)
  {
    seq(DATA_SHARDS + FEC_SHARDS, k requires 0 <= k < DATA_SHARDS + FEC_SHARDS =>
      if k < DATA_SHARDS then d[k] else Dot(k - DATA_SHARDS, d))
  }

  /** `d` with the received shards blanked out. */
  function Lost(d: seq<Gf>, have: seq<Option<Gf>>): (e: seq<Gf>)
    requires |d| == DATA_SHARDS && |have| == DATA_SHARDS + FEC_SHARDS
    ensures |e| == DATA_SHARDS
    ensures forall i | 0 <= i < DATA_SHARDS :: e[i] == (if have[i].Some? then ZERO else d[i])
  {
    seq(DATA_SHARDS, i requires 0 <= i < DATA_SHARDS => if have[i].Some? then ZERO else d[i])
  }

  /** A parity's syndrome is its dot product with the lost shards alone. */
  lemma SyndromeOfLost(d: seq<Gf>, have: seq<Option<Gf>>, j: nat)
    requires |d| == DATA_SHARDS && |have| == DATA_SHARDS + FEC_SHARDS && j < FEC_SHARDS
    ensures Received(have, EncodeColumn(d)) && have[DATA_SHARDS + j].Some? ==> Syndrome(have, j) == Dot(j, Lost(d, have))
  {
    hide Dot, Add;
    if Received(have, EncodeColumn(d)) && have[DATA_SHARDS + j].Some? {
      forall i | 0 <= i < DATA_SHARDS
        ensures Lost(d, have)[i] == Add(d[i], KnownData(have)[i])
      {
        AddZero(d[i]);
      }
      assert Known(have, DATA_SHARDS + j) == Dot(j, d);
      DotAdd(j, d, KnownData(have), Lost(d, have));
    }
  }

  lemma OneLost(d: seq<Gf>, have: seq<Option<Gf>>, a: nat)
    requires |d| == DATA_SHARDS && |have| == DATA_SHARDS + FEC_SHARDS && a < DATA_SHARDS
    requires forall i | 0 <= i < DATA_SHARDS :: have[i].None? <==> i == a
    requires have[4].Some? || have[5].Some?
    ensures Received(have, EncodeColumn(d)) ==> SolveOne(have, a) == d[a]
  {
    hide Mul, Coef, Add, Dot, Inverse, EncodeColumn;
    if Received(have, EncodeColumn(d)) {
      var j := if have[DATA_SHARDS].Some? then 0 else 1;
      var c := if a == 0 then 1 else 0;
      SyndromeOfLost(d, have, j);
      hide Syndrome;
      DotSparse(j, Lost(d, have), if a < c then a else c, if a < c then c else a);
      MulZero(Coef(j, c));
      AddZero(Mul(Coef(j, a), d[a]));
      var w := CoefInvertible(j, a);
      DivideMul(Coef(j, a), w, d[a]);
    }
  }

  lemma TwoLost(d: seq<Gf>, have: seq<Option<Gf>>, a: nat, b: nat)
    requires |d| == DATA_SHARDS && |have| == DATA_SHARDS + FEC_SHARDS && a < b < DATA_SHARDS
    requires forall i | 0 <= i < DATA_SHARDS :: have[i].None? <==> (i == a || i == b)
    requires have[4].Some? && have[5].Some?
    ensures Received(have, EncodeColumn(d)) ==> SolveTwo(have, a, b) == d[a] && SolveTwo(have, b, a) == d[b]
  {
    hide Mul, Coef, Add, Dot, Inverse, EncodeColumn;
    if Received(have, EncodeColumn(d)) {
      SyndromeOfLost(d, have, 0);
      SyndromeOfLost(d, have, 1);
      hide Syndrome;
      DotSparse(0, Lost(d, have), a, b);
      DotSparse(1, Lost(d, have), a, b);
      Cramer(Coef(0, a), Coef(0, b), Coef(1, a), Coef(1, b), d[a], d[b]);
      var w := MinorInvertible(a, b);
      DivideMul(Det(a, b), w, d[a]);
      DivideMul(Det(a, b), w, d[b]);
    }
  }

  /** Any four of the six values determine the four of data, and the decoder finds them. */
  lemma ColumnRecovered(d: seq<Gf>, have: seq<Option<Gf>>, i: nat)
    requires |d| == DATA_SHARDS && Received(have, EncodeColumn(d)) && Losses(have) <= FEC_SHARDS && i < DATA_SHARDS
    ensures RecoverAt(have, i) == d[i]
  {
    hide SolveOne, SolveTwo, Dot;
    SixLosses(have);
    assert EncodeColumn(d)[i] == d[i];
    hide EncodeColumn, Losses;
    if have[i].None? {
      var b := OtherLost(have, i, 0);
      if b == DATA_SHARDS {
        OneLost(d, have, i);
      } else {
        TwoLost(d, have, if i < b then i else b, if i < b then b else i);
      }
    }
  }

  // Whole shards.

  /** Four data shards of `n` bytes each. */
  predicate Uniform(data: seq<seq<byte>>, n: nat) {
    |data| == DATA_SHARDS && forall i | 0 <= i < DATA_SHARDS :: |data[i]| == n
  }

  function ColumnOf(data: seq<seq<byte>>, n: nat, b: nat): (d: seq<Gf>)
    requires Uniform(data, n) && b < n
    ensures |d| == DATA_SHARDS
  {
    seq(DATA_SHARDS, i requires 0 <= i < DATA_SHARDS => FromByte(data[i][b]))
  }

  /** Parity shard `j`: the matrix row applied to every byte position. */
  function Parity(j: nat, data: seq<seq<byte>>, n: nat): (p: seq<byte>)
    requires Uniform(data, n) && j < FEC_SHARDS
    ensures |p| == n
  {
    seq(n, b requires 0 <= b < n => ToByte(Dot(j, ColumnOf(data, n, b))))
  }

  /** Shard `k` of the six: data first, then parity. */
  function Shard(data: seq<seq<byte>>, n: nat, k: nat): (s: seq<byte>)
    requires Uniform(data, n) && k < DATA_SHARDS + FEC_SHARDS
    ensures |s| == n
  {
    if k < DATA_SHARDS then data[k] else Parity(k - DATA_SHARDS, data, n)
  }

  function EncodeShards(data: seq<seq<byte>>, n: nat): (e: seq<seq<byte>>)
    requires Uniform(data, n)
    ensures |e| == DATA_SHARDS + FEC_SHARDS
    ensures forall k | 0 <= k < |e| :: e[k] == Shard(data, n, k)
  {
    seq(DATA_SHARDS + FEC_SHARDS, k requires 0 <= k < DATA_SHARDS + FEC_SHARDS => Shard(data, n, k))
  }

  function HaveColumn(have: seq<Option<seq<byte>>>, b: nat): (c: seq<Option<Gf>>)
    requires forall k | 0 <= k < |have| && have[k].Some? :: b < |have[k].value|
    ensures |c| == |have|
  {
    seq(|have|, k requires 0 <= k < |have| => if have[k].Some? then Some(FromByte(have[k].value[b])) else None)
  }

  /** Data shard `i` of a group, from whatever arrived of it. */
  ghost function RecoverShard(have: seq<Option<seq<byte>>>, n: nat, i: nat): (s: seq<byte>)
    requires |have| == DATA_SHARDS + FEC_SHARDS && i < DATA_SHARDS
    requires forall k | 0 <= k < |have| && have[k].Some? :: |have[k].value| == n
    ensures |s| == n
  {
    seq(n, b requires 0 <= b < n => ToByte(RecoverAt(HaveColumn(have, b), i)))
  }

  lemma ShardColumn(data: seq<seq<byte>>, n: nat, k: nat, b: nat)
    requires Uniform(data, n) && k < DATA_SHARDS + FEC_SHARDS && b < n
    ensures FromByte(Shard(data, n, k)[b]) == EncodeColumn(ColumnOf(data, n, b))[k]
  {
    hide Dot, FromByte, ToByte;
    var d := ColumnOf(data, n, b);
    if k >= DATA_SHARDS {
      var j: nat := k - DATA_SHARDS;
      ByteRoundTrip(0, Dot(j, d));
      assert EncodeColumn(d)[DATA_SHARDS + j] == Dot(j, d);
    }
  }

  lemma ColumnReceived(data: seq<seq<byte>>, n: nat, have: seq<Option<seq<byte>>>, b: nat)
    requires Uniform(data, n) && Received(have, EncodeShards(data, n)) && b < n
    ensures Received(HaveColumn(have, b), EncodeColumn(ColumnOf(data, n, b)))
    ensures Losses(HaveColumn(have, b)) == Losses(have)
  {
    var c, d := HaveColumn(have, b), ColumnOf(data, n, b);
    SameLosses(have, c);
    hide Losses, FromByte, ToByte, EncodeColumn, Shard, ColumnOf, Dot;
    forall k | 0 <= k < |c| && c[k].Some?
      ensures c[k].value == EncodeColumn(d)[k]
    {
      ShardColumn(data, n, k, b);
      assert have[k].value == EncodeShards(data, n)[k];
    }
  }

  /**
   Any four of the six shards give all four data shards back, whichever two are lost, for data of
   every length and content.
   */
  lemma ShardsRecovered(data: seq<seq<byte>>, n: nat, have: seq<Option<seq<byte>>>, i: nat)
    requires Uniform(data, n) && Received(have, EncodeShards(data, n)) && Losses(have) <= FEC_SHARDS && i < DATA_SHARDS
    ensures RecoverShard(have, n, i) == data[i]
  {
    hide Losses, FromByte, ToByte, RecoverAt, EncodeColumn;
    forall b | 0 <= b < n
      ensures RecoverShard(have, n, i)[b] == data[i][b]
    {
      ColumnReceived(data, n, have, b);
      ColumnRecovered(ColumnOf(data, n, b), HaveColumn(have, b), i);
      ByteRoundTrip(data[i][b], ZERO);
    }
  }
}
