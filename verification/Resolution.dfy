/** Resolutions as text: the keys the paired store files scales under, and the parsers of user and client input. */
module Resolution {
  import opened Bytes

  // Decimal numbers.

  function Digit(d: nat): (c: char)
    requires d < 10
    ensures '0' <= c <= '9'
  {
    '0' + d as char
  }

  function DigitValue(c: char): (d: nat)
    requires '0' <= c <= '9'
    ensures d < 10 && Digit(d) == c
  {
    (c - '0') as nat
  }

  predicate AllDigits(s: string) { forall i :: 0 <= i < |s| ==> '0' <= s[i] <= '9' }

  /** What formatting an unsigned integer prints. */
  function Decimal(n: nat): (s: string)
    ensures s != [] && AllDigits(s)
  {
    if n < 10 then [Digit(n)] else Decimal(n / 10) + [Digit(n % 10)]
  }

  function Value(s: string): nat
    requires AllDigits(s)
  {
    if s == [] then 0 else 10 * Value(s[..|s| - 1]) + DigitValue(s[|s| - 1])
  }

  lemma {:induction false} ValueOfDecimal(n: nat)
    ensures Value(Decimal(n)) == n
  {
    if n >= 10 {
      ValueOfDecimal(n / 10);
      assert Decimal(n)[..|Decimal(n)| - 1] == Decimal(n / 10);
    } else {
      assert Decimal(n)[..0] == [];
    }
  }

  /** `str::parse::<u32>`: digits after an optional plus sign, if there are any and they fit. */
  function ParseU32(s: string): Option<u32> {
    var digits := if s != [] && s[0] == '+' then s[1..] else s;
    if digits != [] && AllDigits(digits) && Value(digits) < 0x1_0000_0000 then Some(Value(digits)) else None
  }

  lemma ParseDecimal(n: u32)
    ensures ParseU32(Decimal(n)) == Some(n)
  {
    hide Decimal, Value;
    ValueOfDecimal(n);
    assert Decimal(n)[0] in Decimal(n);
  }

  /**
   Which strings are numbers: a plus sign may lead and zeros may pad; nothing but digits may follow,
   there must be one, and the number must be below 2^32.
   */
  lemma NumberForms(n: nat, s: string)
    ensures ParseU32(Decimal(n)) == ParseU32("+" + Decimal(n)) == ParseU32("0" + Decimal(n))
            == if n < 0x1_0000_0000 then Some(n) else None
    ensures ParseU32("") == ParseU32("+") == None
    ensures (exists i :: 0 <= i < |s| && !('0' <= s[i] <= '9') && !(i == 0 && s[0] == '+')) ==> ParseU32(s).None?
  {
    hide Decimal, Value;
    ValueOfDecimal(n);
    assert Decimal(n)[0] in Decimal(n);
    LeadingZero(Decimal(n));
    if i :| 0 <= i < |s| && !('0' <= s[i] <= '9') && !(i == 0 && s[0] == '+') {
      if s[0] == '+' { assert s[1..][i - 1] == s[i]; }
    }
  }

  lemma {:induction false} LeadingZero(s: string)
    requires AllDigits(s)
    ensures AllDigits("0" + s) && Value("0" + s) == Value(s)
  {
    if s != [] {
      var n := |s| - 1;
      LeadingZero(s[..n]);
      assert ("0" + s)[..n + 1] == "0" + s[..n];
    } else {
      assert "0"[..0] == [];
    }
  }

  // Splitting at 'x'.

  /** The position of the first 'x', or the length if there is none. */
  function FindX(s: string): (i: nat)
    ensures i <= |s| && 'x' !in s[..i]
    ensures i < |s| ==> s[i] == 'x'
  {
    if s == [] || s[0] == 'x' then 0 else
      var i := FindX(s[1..]);
      assert s[..i + 1] == [s[0]] + s[1..][..i];
      i + 1
  }

  /** `split('x')`: the pieces between the separators. */
  function Split(s: string): (parts: seq<string>)
    ensures parts != []
    decreases |s|
  {
    var i := FindX(s);
    if i == |s| then [s] else [s[..i]] + Split(s[i + 1..])
  }

  lemma {:induction false} FindXAfter(a: string, b: string)
    requires 'x' !in a
    ensures FindX(a + "x" + b) == |a|
  {
    if a != [] {
      FindXAfter(a[1..], b);
      assert (a + "x" + b)[1..] == a[1..] + "x" + b;
    }
  }

  lemma FindNoX(s: string)
    requires 'x' !in s
    ensures FindX(s) == |s|
  {}

  lemma SplitAfter(a: string, b: string)
    requires 'x' !in a
    ensures Split(a + "x" + b) == [a] + Split(b)
  {
    FindXAfter(a, b);
    var s := a + "x" + b;
    assert s[..|a|] == a && s[|a| + 1..] == b;
  }

  lemma DecimalHasNoX(n: nat)
    ensures 'x' !in Decimal(n)
  {}

  // Resolutions.

  type Size = (u32, u32)

  function ResolutionKey(width: u32, height: u32): string {
    Decimal(width) + "x" + Decimal(height)
  }

  datatype ResolutionError = NoSeparator | NotNumbers | Zero

  function ParseResolution(s: string): Result<Size, ResolutionError> {
    var i := FindX(s);
    if i == |s| then Err(NoSeparator) else
      var (width, height) := (ParseU32(s[..i]), ParseU32(s[i + 1..]));
      if width.None? || height.None? then Err(NotNumbers)
      else if width.value == 0 || height.value == 0 then Err(Zero)
      else Ok((width.value, height.value))
  }

  lemma KeyParts(width: u32, height: u32)
    ensures var s := ResolutionKey(width, height); var i := FindX(s);
            i < |s| && ParseU32(s[..i]) == Some(width) && ParseU32(s[i + 1..]) == Some(height)
  {
    hide Decimal, ParseU32, FindX;
    DecimalHasNoX(width);
    FindXAfter(Decimal(width), Decimal(height));
    ParseDecimal(width);
    ParseDecimal(height);
    var s := ResolutionKey(width, height);
    assert s[..|Decimal(width)|] == Decimal(width);
    assert s[|Decimal(width)| + 1..] == Decimal(height);
  }

  /** Different resolutions never share a key. */
  lemma KeyInjective(w1: u32, h1: u32, w2: u32, h2: u32)
    requires ResolutionKey(w1, h1) == ResolutionKey(w2, h2)
    ensures w1 == w2 && h1 == h2
  {
    hide ResolutionKey, ParseU32, FindX;
    KeyParts(w1, h1);
    KeyParts(w2, h2);
  }

  /** The parser inverts the printed form exactly on sizes without a zero side. */
  lemma ParseInvertsKey(width: u32, height: u32)
    ensures ParseResolution(ResolutionKey(width, height))
         == if width == 0 || height == 0 then Err(Zero) else Ok((width, height))
  {
    hide ResolutionKey, ParseU32, FindX;
    KeyParts(width, height);
  }

  /** Every string: it is split at its first 'x', both sides must be numbers, and neither zero. */
  lemma ParseResolutionExactly(width: string, height: string)
    requires 'x' !in width
    ensures ParseResolution(width) == Err(NoSeparator)
    ensures var (w, h) := (ParseU32(width), ParseU32(height));
            ParseResolution(width + "x" + height)
            == if w.None? || h.None? then Err(NotNumbers)
               else if w == Some(0) || h == Some(0) then Err(Zero) else Ok((w.value, h.value))
  {
    hide ParseU32, FindX;
    FindNoX(width);
    FindXAfter(width, height);
    var s := width + "x" + height;
    assert s[..|width|] == width && s[|width| + 1..] == height;
  }

  const DEFAULT_MODE: (u32, u32, u32) := (1920, 1080, 60)

  function EvenDown(n: u32): (e: u32) ensures e % 2 == 0 && n - 1 <= e <= n { n - n % 2 }

  /** The `mode` parameter of a launch request, or the default when it is absent or malformed. */
  function ParseMode(mode: Option<string>): (u32, u32, u32) {
    if mode.None? then DEFAULT_MODE else
      var parts := Split(mode.value);
      if |parts| < 3 then DEFAULT_MODE else
        var (width, height, fps) := (ParseU32(parts[0]), ParseU32(parts[1]), ParseU32(parts[2]));
        if width.None? || height.None? || fps.None? then DEFAULT_MODE
        else (EvenDown(width.value), EvenDown(height.value), fps.value)
  }

  /** Whatever the mode, both sides are even, as the encoders need. */
  lemma ModeIsEven(mode: Option<string>)
    ensures ParseMode(mode).0 % 2 == 0 && ParseMode(mode).1 % 2 == 0
  {
    hide ParseU32, Split, EvenDown;
  }

  lemma LastField(field: string, rest: string)
    requires 'x' !in field && (rest == "" || rest[0] == 'x')
    ensures Split(field + rest)[0] == field
  {
    hide FindX;
    var s := field + rest;
    if rest == "" {
      assert s == field;
      FindNoX(s);
    } else {
      assert s == field + "x" + rest[1..];
      SplitAfter(field, rest[1..]);
    }
  }

  /** A mode of three fields or more: the first three decide, and all must be numbers. */
  lemma ParseModeFields(width: string, height: string, fps: string, rest: string)
    requires 'x' !in width && 'x' !in height && 'x' !in fps && (rest == "" || rest[0] == 'x')
    ensures var (w, h, f) := (ParseU32(width), ParseU32(height), ParseU32(fps));
            ParseMode(Some(width + "x" + height + "x" + fps + rest))
            == if w.Some? && h.Some? && f.Some? then (EvenDown(w.value), EvenDown(h.value), f.value) else DEFAULT_MODE
  {
    hide ParseU32, FindX, Split;
    assert width + "x" + height + "x" + fps + rest == width + "x" + (height + "x" + (fps + rest));
    SplitAfter(width, height + "x" + (fps + rest));
    SplitAfter(height, fps + rest);
    LastField(fps, rest);
  }

  /** A mode of fewer fields is the default. */
  lemma ParseModeShort(width: string, height: string)
    requires 'x' !in width && 'x' !in height
    ensures ParseMode(None) == ParseMode(Some(width)) == ParseMode(Some(width + "x" + height)) == (1920, 1080, 60)
  {
    hide ParseU32, FindX;
    FindNoX(width);
    FindNoX(height);
    SplitAfter(width, height);
  }

  /** A printed mode is read back with both sides rounded down to even; more fields are ignored. */
  lemma ParseModeOfPrinted(width: u32, height: u32, fps: u32, rest: string)
    requires rest == "" || rest[0] == 'x'
    ensures ParseMode(Some(ResolutionKey(width, height) + "x" + Decimal(fps) + rest))
         == (EvenDown(width), EvenDown(height), fps)
  {
    hide Decimal, ParseU32, ParseMode;
    DecimalHasNoX(width);
    DecimalHasNoX(height);
    DecimalHasNoX(fps);
    ParseDecimal(width);
    ParseDecimal(height);
    ParseDecimal(fps);
    ParseModeFields(Decimal(width), Decimal(height), Decimal(fps), rest);
  }
}
