/**
 The field GF(2^8) with the polynomial x^8+x^4+x^3+x^2+1 (section 8.1 of RFC 5510), in which the
 audio stream's Reed-Solomon parity is computed.
 */
module Gf256 {
  import opened Bytes

  /** A polynomial over GF(2) of degree below 8: `ci` is the coefficient of x^i. */
  datatype Gf = Gf(c0: bool, c1: bool, c2: bool, c3: bool, c4: bool, c5: bool, c6: bool, c7: bool) {
    function Bits(): Bits {
      Bit(c0, Bit(c1, Bit(c2, Bit(c3, Bit(c4, Bit(c5, Bit(c6, Bit(c7, End))))))))
    }
  }

  /** The coefficients of a polynomial, lowest first. */
  datatype Bits = End | Bit(low: bool, high: Bits)

  const ZERO := Gf(false, false, false, false, false, false, false, false)
  const ONE := ZERO.(c0 := true)

  // Bytes and field elements correspond one to one: bit i is the coefficient of x^i.

  function Pow2(n: nat): nat { if n == 0 then 1 else 2 * Pow2(n - 1) }

  function Length(bits: Bits): nat {
    match bits
    case End => 0
    case Bit(_, high) => 1 + Length(high)
  }

  function Weight(bits: Bits): (n: nat)
    ensures n < Pow2(Length(bits))
  {
    match bits
    case End => 0
    case Bit(low, high) => (if low then 1 else 0) + 2 * Weight(high)
  }

  function Spread(n: nat, width: nat): (bits: Bits)
    ensures Length(bits) == width
    ensures n < Pow2(width) ==> Weight(bits) == n
  {
    if width == 0 then End else Bit(n % 2 == 1, Spread(n / 2, width - 1))
  }

  lemma {:induction false} WeightSpread(bits: Bits)
    ensures Spread(Weight(bits), Length(bits)) == bits
  {
    match bits
    case End =>
    case Bit(low, high) =>
      WeightSpread(high);
      assert Weight(bits) / 2 == Weight(high) && (Weight(bits) % 2 == 1 <==> low);
  }

  function FromBits(bits: Bits): Gf
  {
    match bits
    case Bit(c0, Bit(c1, Bit(c2, Bit(c3, Bit(c4, Bit(c5, Bit(c6, Bit(c7, End)))))))) =>
      Gf(c0, c1, c2, c3, c4, c5, c6, c7)
    case _ => ZERO
  }

  function FromByte(n: byte): Gf { FromBits(Spread(n, 8)) }

  lemma EightBits(bits: Bits)
    requires Length(bits) == 8
    ensures FromBits(bits).Bits() == bits
  {
    assert Length(bits.high) == 7 && Length(bits.high.high) == 6 && Length(bits.high.high.high) == 5;
    var b4 := bits.high.high.high.high;
    assert Length(b4) == 4 && Length(b4.high) == 3 && Length(b4.high.high) == 2 && Length(b4.high.high.high) == 1;
    assert Length(b4.high.high.high.high) == 0;
  }

  lemma BitsLength(g: Gf)
    ensures Length(g.Bits()) == 8 && FromBits(g.Bits()) == g
  {
    var b4 := Bit(g.c4, Bit(g.c5, Bit(g.c6, Bit(g.c7, End))));
    assert Length(b4) == 4;
  }

  function ToByte(g: Gf): byte {
    BitsLength(g);
    assert Pow2(8) == 0x100;
    Weight(g.Bits())
  }

  lemma ByteRoundTrip(n: byte, g: Gf)
    ensures ToByte(FromByte(n)) == n
    ensures FromByte(ToByte(g)) == g
  {
    assert Pow2(8) == 0x100;
    EightBits(Spread(n, 8));
    BitsLength(g);
    hide FromBits, Length, Pow2, Spread, Weight;
    WeightSpread(g.Bits());
  }

  // The field operations.

  /** Addition, which is also subtraction, is exclusive or. */
  function Add(a: Gf, b: Gf): Gf {
    Gf(a.c0 != b.c0, a.c1 != b.c1, a.c2 != b.c2, a.c3 != b.c3,
       a.c4 != b.c4, a.c5 != b.c5, a.c6 != b.c6, a.c7 != b.c7)
  }

  /** Multiplication by x, reduced by the field polynomial. */
  function Double(a: Gf): Gf {
    Gf(a.c7, a.c0, a.c1 != a.c7, a.c2 != a.c7, a.c3 != a.c7, a.c4, a.c5, a.c6)
  }

  function Scale(bit: bool, x: Gf): Gf { if bit then x else ZERO }

  /** Horner's rule: the sum over i of the i-th bit times x^i * y. */
  function Horner(bits: Bits, y: Gf): Gf {
    match bits
    case End => ZERO
    case Bit(low, high) => Add(Scale(low, y), Double(Horner(high, y)))
  }

  function Mul(a: Gf, b: Gf): Gf { Horner(a.Bits(), b) }

  // The field laws.

  lemma AddZero(a: Gf)
    ensures Add(a, ZERO) == a && Add(ZERO, a) == a && Add(a, a) == ZERO
  {}

  lemma AddComm(a: Gf, b: Gf)
    ensures Add(a, b) == Add(b, a)
  {}

  lemma AddAssoc(a: Gf, b: Gf, c: Gf)
    ensures Add(Add(a, b), c) == Add(a, Add(b, c))
  {}

  lemma DoubleAdd(a: Gf, b: Gf)
    ensures Double(Add(a, b)) == Add(Double(a), Double(b))
  {}

  lemma AddSwap(a: Gf, b: Gf, c: Gf, d: Gf)
    ensures Add(Add(a, b), Add(c, d)) == Add(Add(a, c), Add(b, d))
  {}

  lemma ScaleAdd(bit: bool, y: Gf, z: Gf)
    ensures Scale(bit, Add(y, z)) == Add(Scale(bit, y), Scale(bit, z))
  {}

  lemma ScaleDouble(bit: bool, y: Gf)
    ensures Scale(bit, Double(y)) == Double(Scale(bit, y)) && Scale(bit, ZERO) == ZERO && Double(ZERO) == ZERO
  {}

  lemma {:induction false} HornerAdd(bits: Bits, y: Gf, z: Gf)
    ensures Horner(bits, Add(y, z)) == Add(Horner(bits, y), Horner(bits, z))
  {
    AddZero(ZERO);
    hide Add, Double, Scale;
    match bits
    case End =>
    case Bit(low, high) =>
      var p, q := Horner(high, y), Horner(high, z);
      HornerAdd(high, y, z);
      ScaleAdd(low, y, z);
      DoubleAdd(p, q);
      AddSwap(Scale(low, y), Scale(low, z), Double(p), Double(q));
  }

  lemma {:induction false} HornerDouble(bits: Bits, y: Gf)
    ensures Horner(bits, Double(y)) == Double(Horner(bits, y))
  {
    ScaleDouble(true, y);
    hide Add, Double, Scale;
    match bits
    case End =>
    case Bit(low, high) =>
      HornerDouble(high, y);
      ScaleDouble(low, y);
      DoubleAdd(Scale(low, y), Double(Horner(high, y)));
  }

  lemma {:induction false} HornerZero(bits: Bits)
    ensures Horner(bits, ZERO) == ZERO
  {
    AddZero(ZERO);
    ScaleDouble(true, ZERO);
    hide Add, Double, Scale;
    match bits
    case End =>
    case Bit(low, high) =>
      ScaleDouble(low, ZERO);
      HornerZero(high);
  }

  lemma ScaleMul(bit: bool, b: Bits, y: Gf)
    ensures Horner(b, Scale(bit, y)) == Scale(bit, Horner(b, y))
  {
    HornerZero(b);
    hide Horner;
  }

  lemma {:induction false} HornerSwap(a: Bits, b: Bits, y: Gf)
    ensures Horner(a, Horner(b, y)) == Horner(b, Horner(a, y))
  {
    HornerZero(b);
    match a
    case End =>
    case Bit(low, high) =>
      HornerSwap(high, b, y);
      HornerAdd(b, Scale(low, y), Double(Horner(high, y)));
      HornerDouble(b, Horner(high, y));
      ScaleMul(low, b, y);
      hide Add, Double, Scale;
  }

  lemma OneStep(low: bool, t: Gf)
    requires !t.c7
    ensures Add(Scale(low, ONE), Double(t)) == Gf(low, t.c0, t.c1, t.c2, t.c3, t.c4, t.c5, t.c6)
  {}

  /** Evaluating a polynomial's bits at one gives the polynomial back. */
  lemma MulOne(a: Gf)
    ensures Mul(a, ONE) == a
  {
    hide Add, Double, Scale;
    var b7 := Bit(a.c7, End);
    var b6 := Bit(a.c6, b7);
    var b5 := Bit(a.c5, b6);
    var b4 := Bit(a.c4, b5);
    var b3 := Bit(a.c3, b4);
    var b2 := Bit(a.c2, b3);
    var b1 := Bit(a.c1, b2);
    OneStep(a.c7, ZERO);
    OneStep(a.c6, Horner(b7, ONE));
    OneStep(a.c5, Horner(b6, ONE));
    OneStep(a.c4, Horner(b5, ONE));
    OneStep(a.c3, Horner(b4, ONE));
    OneStep(a.c2, Horner(b3, ONE));
    OneStep(a.c1, Horner(b2, ONE));
    OneStep(a.c0, Horner(b1, ONE));
  }

  lemma MulAdd(a: Gf, b: Gf, c: Gf)
    ensures Mul(a, Add(b, c)) == Add(Mul(a, b), Mul(a, c))
  {
    hide Add;
    HornerAdd(a.Bits(), b, c);
  }

  lemma MulZero(a: Gf)
    ensures Mul(a, ZERO) == ZERO
  {
    HornerZero(a.Bits());
  }

  lemma MulComm(a: Gf, b: Gf)
    ensures Mul(a, b) == Mul(b, a)
  {
    MulOne(a);
    MulOne(b);
    hide Horner;
    HornerSwap(a.Bits(), b.Bits(), ONE);
  }

  lemma MulAssoc(a: Gf, b: Gf, c: Gf)
    ensures Mul(Mul(a, b), c) == Mul(a, Mul(b, c))
  {
    MulComm(Mul(a, b), c);
    HornerSwap(c.Bits(), a.Bits(), b);
    MulComm(c, b);
    hide Horner;
  }

  lemma AddMul(a: Gf, b: Gf, c: Gf)
    ensures Mul(Add(a, b), c) == Add(Mul(a, c), Mul(b, c))
  {
    MulComm(Add(a, b), c);
    MulAdd(c, a, b);
    MulComm(c, a);
    MulComm(c, b);
    hide Mul, Add;
  }

  // Division.

  ghost function Inverse(a: Gf): Gf {
    if exists b :: Mul(a, b) == ONE then (var b :| Mul(a, b) == ONE; b) else ZERO
  }

  /** Dividing by an element that has an inverse undoes multiplying by it. */
  lemma DivideMul(a: Gf, w: Gf, x: Gf)
    ensures Mul(a, w) == ONE ==> Mul(Inverse(a), Mul(a, x)) == x
  {
    hide Horner;
    MulAssoc(Inverse(a), a, x);
    MulComm(Inverse(a), a);
    MulComm(ONE, x);
    MulOne(x);
  }

  /** Cramer's rule for two unknowns, before the division by the determinant. */
  lemma Cramer(p: Gf, q: Gf, r: Gf, s: Gf, x: Gf, y: Gf)
    ensures var e, f, det := Add(Mul(p, x), Mul(q, y)), Add(Mul(r, x), Mul(s, y)), Add(Mul(p, s), Mul(q, r));
            && Add(Mul(s, e), Mul(q, f)) == Mul(det, x)
            && Add(Mul(r, e), Mul(p, f)) == Mul(det, y)
  {
    Eliminate(s, p, q, r, x, y);
    MulComm(p, s);
    Eliminate(r, q, p, s, y, x);
    MulComm(q, r);
    hide Mul;
    AddComm(Mul(p, x), Mul(q, y));
    AddComm(Mul(r, x), Mul(s, y));
    AddComm(Mul(r, q), Mul(p, s));
  }

  /** s(px + qy) + q(rx + sy) = (sp + qr)x: the terms in y cancel. */
  lemma Eliminate(s: Gf, p: Gf, q: Gf, r: Gf, x: Gf, y: Gf)
    ensures Add(Mul(s, Add(Mul(p, x), Mul(q, y))), Mul(q, Add(Mul(r, x), Mul(s, y)))) == Mul(Add(Mul(s, p), Mul(q, r)), x)
  {
    MulAdd(s, Mul(p, x), Mul(q, y));
    MulAdd(q, Mul(r, x), Mul(s, y));
    MulAssoc(s, p, x);
    MulAssoc(q, r, x);
    AddMul(Mul(s, p), Mul(q, r), x);
    HornerSwap(s.Bits(), q.Bits(), y);
    var u, v, w := Mul(s, Mul(p, x)), Mul(s, Mul(q, y)), Mul(q, Mul(r, x));
    assert Mul(q, Mul(s, y)) == v;
    hide Mul;
    AddSwap(u, v, w, v);
    AddZero(v);
    AddZero(Add(u, w));
  }
}
