/**
 Reading one RTSP request: the request line's target, which the strict parser would refuse, is
 replaced in the buffer as soon as the line is there. The parser and the lossy UTF-8 decoding are
 parameters under laws; text is its UTF-8 bytes.
 */
module Rtsp {
  import opened Bytes

  const CR: byte := 0x0D
  const LF: byte := 0x0A
  const SPACE: byte := 0x20
  const STAR: byte := 0x2A
  const RTSP_SCHEME: seq<byte> := [0x72, 0x74, 0x73, 0x70, 0x3A, 0x2F, 0x2F]

  type Lossy = seq<byte> -> seq<byte>

  /** An ASCII byte is never part of a malformed sequence, so decoding works piecewise around it. */
  ghost predicate LossyLawful(d: Lossy) {
    && (forall b :: d(d(b)) == d(b))
    && (forall a, c: byte, b :: c < 0x80 ==> d(a + [c] + b) == d(a) + [c] + d(b))
    && (forall b, c: byte :: c < 0x80 && c !in b ==> c !in d(b))
    && (forall b :: d(b) == [] <==> b == [])
  }

  /** The laws can be met: replace every byte that is not ASCII by one fixed such byte. */
  function Blurred(b: seq<byte>): seq<byte> {
    seq(|b|, i requires 0 <= i < |b| => if b[i] < 0x80 then b[i] else 0xFF)
  }

  // The request line.

  predicate CrLfAt(b: seq<byte>, i: nat) { i + 2 <= |b| && b[i] == CR && b[i + 1] == LF }

  /** The position of the first CR LF. */
  function LineEnd(b: seq<byte>): (r: Option<nat>)
    ensures r.Some? ==> CrLfAt(b, r.value)
    ensures forall j: nat :: (r.Some? ==> j < r.value) ==> !CrLfAt(b, j)
  {
    if |b| < 2 then None
    else if CrLfAt(b, 0) then Some(0)
    else
      var r := LineEnd(b[1..]);
      assert forall j: nat :: j > 0 && CrLfAt(b, j) ==> CrLfAt(b[1..], j - 1);
      match r case Some(i) => Some(i + 1) case None => None
  }

  /** The text before the first space and after it. */
  function SplitSpace(s: seq<byte>): (r: Option<(seq<byte>, seq<byte>)>)
    ensures r.None? <==> SPACE !in s
    ensures r.Some? ==> SPACE !in r.value.0 && s == r.value.0 + [SPACE] + r.value.1
  {
    if s == [] then None
    else if s[0] == SPACE then Some(([], s[1..]))
    else match SplitSpace(s[1..]) case Some((a, b)) => Some(([s[0]] + a, b)) case None => None
  }

  datatype Line = Line(verb: seq<byte>, target: seq<byte>, version: seq<byte>)

  function ParseLine(text: seq<byte>): Option<Line> {
    match SplitSpace(text)
    case None => None
    case Some((m, rest)) =>
      match SplitSpace(rest)
      case None => None
      case Some((t, v)) => Some(Line(m, t, v))
  }

  predicate Acceptable(target: seq<byte>) { target == [STAR] || RTSP_SCHEME <= target }

  function Starred(l: Line): seq<byte> { l.verb + [SPACE, STAR, SPACE] + l.version }

  /** A buffer and the target its request line had, once that is known. */
  datatype Request = Request(buf: seq<byte>, target: Option<seq<byte>>)

  function Rewrite(d: Lossy, b: seq<byte>): Request {
    match LineEnd(b)
    case None => Request(b, None)
    case Some(end) =>
      match ParseLine(d(b[..end]))
      case None => Request(b, None)
      case Some(line) =>
        if Acceptable(line.target) then Request(b, Some(line.target))
        else Request(Starred(line) + b[end..], Some(line.target))
  }

  // What rewriting keeps.

  lemma LineEndIs(b: seq<byte>, i: nat)
    requires CrLfAt(b, i) && forall j: nat :: j < i ==> !CrLfAt(b, j)
    ensures LineEnd(b) == Some(i)
  {
    hide LineEnd, CrLfAt;
  }

  lemma LineEndExtends(b: seq<byte>, more: seq<byte>)
    requires LineEnd(b).Some?
    ensures LineEnd(b + more) == LineEnd(b)
  {
    hide LineEnd;
    var i := LineEnd(b).value;
    forall j: nat | j < i ensures !CrLfAt(b + more, j) {
      assert !CrLfAt(b, j);
    }
    LineEndIs(b + more, i);
  }

  /** Once the line is complete, bytes that arrive later do not change how it is rewritten. */
  lemma RewriteExtends(d: Lossy, b: seq<byte>, more: seq<byte>)
    requires LineEnd(b).Some?
    ensures Rewrite(d, b + more) == Request(Rewrite(d, b).buf + more, Rewrite(d, b).target)
  {
    hide LineEnd, ParseLine, Starred;
    LineEndExtends(b, more);
    var end := LineEnd(b).value;
    assert (b + more)[..end] == b[..end] && (b + more)[end..] == b[end..] + more;
    var line := ParseLine(d(b[..end]));
    if line.Some? { assert Starred(line.value) + (b[end..] + more) == Starred(line.value) + b[end..] + more; }
  }

  /** From the first CR LF on, the buffer is as it was. */
  lemma RewriteKeepsTail(d: Lossy, b: seq<byte>)
    ensures LineEnd(b).Some? ==>
      var tail := b[LineEnd(b).value..]; var r := Rewrite(d, b).buf;
      |r| >= |tail| && r[|r| - |tail|..] == tail
    ensures LineEnd(b).None? ==> Rewrite(d, b).buf == b
  {
    hide LineEnd, ParseLine, Starred;
  }

  /**
   The rewriting byte for byte: a first line of three fields or more keeps its buffer if its target is
   the star or an rtsp URL, and otherwise gets the star for its target.
   */
  lemma RewriteExactly(d: Lossy, b: seq<byte>, end: nat, verb: seq<byte>, target: seq<byte>, version: seq<byte>)
    requires end + 2 <= |b| && b[end..end + 2] == [0x0D, 0x0A]
    requires forall j: nat :: j < end ==> b[j] != 0x0D || b[j + 1] != 0x0A
    requires d(b[..end]) == verb + [0x20] + target + [0x20] + version && 0x20 !in verb && 0x20 !in target
    ensures var accepted := target == [0x2A] || [0x72, 0x74, 0x73, 0x70, 0x3A, 0x2F, 0x2F] <= target;
            Rewrite(d, b)
            == Request(if accepted then b else verb + [0x20, 0x2A, 0x20] + version + b[end..], Some(target))
  {
    hide LineEnd;
    FirstLineEnd(b, end);
    SplitAt(verb, target + [0x20] + version);
    assert d(b[..end]) == verb + [0x20] + (target + [0x20] + version);
    SplitAt(target, version);
  }

  lemma FirstLineEnd(b: seq<byte>, end: nat)
    requires end + 2 <= |b| && b[end..end + 2] == [0x0D, 0x0A]
    requires forall j: nat :: j < end ==> b[j] != 0x0D || b[j + 1] != 0x0A
    ensures LineEnd(b) == Some(end)
  {
    assert b[end] == b[end..end + 2][0] && b[end + 1] == b[end..end + 2][1];
    LineEndIs(b, end);
  }

  /** Without a line end, or with fewer than two spaces before it, the buffer stays and has no target. */
  lemma ShortLineUntouched(d: Lossy, b: seq<byte>, end: nat)
    requires end <= |b| && forall j: nat :: j < end && j + 1 < |b| ==> b[j] != 0x0D || b[j + 1] != 0x0A
    requires end == |b| || (end + 2 <= |b| && b[end..end + 2] == [0x0D, 0x0A] && multiset(d(b[..end]))[0x20] < 2)
    ensures Rewrite(d, b) == Request(b, None)
  {
    hide LineEnd;
    if end < |b| {
      FirstLineEnd(b, end);
      var text := d(b[..end]);
      var first := SplitSpace(text);
      if first.Some? {
        var (m, rest) := first.value;
        assert multiset(text) == multiset(m) + multiset{0x20} + multiset(rest);
        assert multiset(rest)[0x20] == 0;
      }
    }
  }

  // A second rewrite does nothing.

  lemma {:induction false} SplitAt(a: seq<byte>, b: seq<byte>)
    requires SPACE !in a
    ensures SplitSpace(a + [SPACE] + b) == Some((a, b))
  {
    var s := a + [SPACE] + b;
    if a == [] {
      assert s == [SPACE] + b;
    } else {
      assert s[1..] == a[1..] + [SPACE] + b;
      SplitAt(a[1..], b);
      assert [s[0]] + a[1..] == a;
    }
  }

  /** Decoding leaves a piece of decoded text before a space alone, and what follows it. */
  lemma DecodedPieces(d: Lossy, a: seq<byte>, b: seq<byte>)
    requires LossyLawful(d) && SPACE !in a && d(a + [SPACE] + b) == a + [SPACE] + b
    ensures d(a) == a && d(b) == b
  {
    assert d(a) + [SPACE] + d(b) == a + [SPACE] + b;
    assert SPACE !in d(a);
    SplitAt(a, b);
    SplitAt(d(a), d(b));
  }

  lemma StarredIsDecoded(d: Lossy, text: seq<byte>)
    requires LossyLawful(d) && d(text) == text && ParseLine(text).Some?
    ensures var line := ParseLine(text).value;
            d(Starred(line)) == Starred(line)
            && ParseLine(Starred(line)) == Some(Line(line.verb, [STAR], line.version))
  {
    var line := ParseLine(text).value;
    var rest := line.target + [SPACE] + line.version;
    DecodedPieces(d, line.verb, rest);
    DecodedPieces(d, line.target, line.version);
    StarIsItself(d);
    var star := [STAR] + [SPACE] + line.version;
    assert d(star) == [STAR] + [SPACE] + line.version;
    assert Starred(line) == line.verb + [SPACE] + star;
    SplitAt(line.verb, star);
    SplitAt([STAR], line.version);
  }

  lemma StarIsItself(d: Lossy)
    requires LossyLawful(d)
    ensures d([STAR]) == [STAR]
  {
    var e: seq<byte> := [];
    assert e + [STAR] + e == [STAR];
    assert d(e + [STAR] + e) == d(e) + [STAR] + d(e);
  }

  ghost predicate NoCrLf(b: seq<byte>) { forall j: nat :: !CrLfAt(b, j) }

  /** Around the first occurrence of a byte. */
  lemma {:induction false} FirstOf(b: seq<byte>, c: byte) returns (p: seq<byte>, q: seq<byte>)
    requires c in b
    ensures b == p + [c] + q && c !in p
    ensures (p == [] <==> b[0] == c)
  {
    if b[0] == c {
      p, q := [], b[1..];
    } else {
      assert b == [b[0]] + b[1..];
      p, q := FirstOf(b[1..], c);
      p := [b[0]] + p;
    }
  }

  lemma DecodedStart(d: Lossy, b: seq<byte>)
    requires LossyLawful(d) && !(b != [] && b[0] == LF)
    ensures !(d(b) != [] && d(b)[0] == LF)
  {
    if LF in b {
      var p, q := FirstOf(b, LF);
      assert d(b) == d(p) + [LF] + d(q) && LF !in d(p) && d(p) != [];
      assert d(b)[0] == d(p)[0];
    } else {
      assert LF !in d(b);
    }
  }

  lemma {:induction false} DecodedNoCrLf(d: Lossy, b: seq<byte>)
    requires LossyLawful(d) && NoCrLf(b)
    ensures NoCrLf(d(b))
    decreases |b|
  {
    if CR in b {
      var p, q := FirstOf(b, CR);
      assert d(b) == d(p) + [CR] + d(q) && CR !in d(p);
      assert !CrLfAt(b, |p|);
      assert forall j: nat :: CrLfAt(q, j) ==> CrLfAt(b, |p| + 1 + j);
      DecodedStart(d, q);
      DecodedNoCrLf(d, q);
      NoCrLfAround(d(p), d(q));
    } else {
      assert CR !in d(b);
    }
  }

  lemma NoCrLfAround(p: seq<byte>, q: seq<byte>)
    requires CR !in p && NoCrLf(q) && !(q != [] && q[0] == LF)
    ensures NoCrLf(p + [CR] + q)
  {
    var s := p + [CR] + q;
    forall j: nat ensures !CrLfAt(s, j) {
      if j < |p| { assert p[j] in p; }
      else if j > |p| { assert !CrLfAt(q, j - |p| - 1); }
    }
  }

  /** Starring a line brings no line end into it. */
  lemma StarredNoCrLf(text: seq<byte>)
    requires NoCrLf(text) && ParseLine(text).Some?
    ensures NoCrLf(Starred(ParseLine(text).value))
  {
    hide SplitSpace;
    var l := ParseLine(text).value;
    var (m, n) := (|l.verb|, |l.verb| + 1 + |l.target| + 1);
    assert text == l.verb + [SPACE] + l.target + [SPACE] + l.version;
    forall j: nat ensures !CrLfAt(Starred(l), j) {
      if j + 1 < m { assert !CrLfAt(text, j); }
      else if j >= m + 3 { assert !CrLfAt(text, j - (m + 3) + n); }
    }
  }

  /** Rewriting an already rewritten buffer leaves it alone, and finds the star. */
  lemma SecondRewriteNothing(d: Lossy, b: seq<byte>)
    requires LossyLawful(d)
    ensures var r := Rewrite(d, b);
            && Rewrite(d, r.buf).buf == r.buf
            && Rewrite(d, r.buf).target ==
               if r.target.None? || Acceptable(r.target.value) then r.target else Some([STAR])
  {
    hide LineEnd, ParseLine, Starred;
    var r := Rewrite(d, b);
    if r.target.Some? && !Acceptable(r.target.value) {
      var end := LineEnd(b).value;
      var line := ParseLine(d(b[..end])).value;
      StarredIsDecoded(d, d(b[..end]));
      StarredEnds(d, b);
      assert r.buf[..|Starred(line)|] == Starred(line) && r.buf[|Starred(line)|..] == b[end..];
    }
  }

  lemma StarredEnds(d: Lossy, b: seq<byte>)
    requires LossyLawful(d) && LineEnd(b).Some? && ParseLine(d(b[..LineEnd(b).value])).Some?
    ensures var end := LineEnd(b).value; var s := Starred(ParseLine(d(b[..end])).value);
            LineEnd(s + b[end..]) == Some(|s|)
  {
    hide LineEnd, ParseLine, Starred;
    var end := LineEnd(b).value;
    var s := Starred(ParseLine(d(b[..end])).value);
    forall j: nat ensures !CrLfAt(b[..end], j) { assert j < end ==> !CrLfAt(b, j); }
    DecodedNoCrLf(d, b[..end]);
    StarredNoCrLf(d(b[..end]));
    forall j: nat | j < |s| ensures !CrLfAt(s + b[end..], j) { assert !CrLfAt(s, j); }
    LineEndIs(s + b[end..], |s|);
  }

  lemma LossyLawsAreConsistent()
    ensures LossyLawful(Blurred)
  {}

  // Reading a request.

  /** What the message parser makes of a buffer; `OtherMessage` is a response or an interleaved data frame. */
  datatype Parsed<M> = Incomplete | RequestMessage(message: M) | OtherMessage | Malformed

  type Parser<!M> = seq<byte> -> Parsed<M>

  /** How a connection ends. A target never found is handed on as the empty one. */
  datatype Outcome<M> = Received(message: M, target: seq<byte>) | Ignored | Closed | ParseError

  function Decide<M>(p: Parser<M>, r: Request): Outcome<M> {
    match p(r.buf)
    case Incomplete => Closed
    case RequestMessage(m) => Received(m, if r.target.Some? then r.target.value else [])
    case OtherMessage => Ignored
    case Malformed => ParseError
  }

  /** The rewriting at the top of each turn of the loop. */
  function Retarget(d: Lossy, r: Request): Request {
    if r.target.Some? then r else Rewrite(d, r.buf)
  }

  /** The loop, over the reads still to come; no more reads, or an empty one, is the peer closing. */
  function ReadLoop<M>(d: Lossy, p: Parser<M>, r: Request, chunks: seq<seq<byte>>): Outcome<M>
    decreases |chunks|
  {
    var s := Retarget(d, r);
    if !p(s.buf).Incomplete? then Decide(p, s)
    else if chunks == [] || chunks[0] == [] then Closed
    else ReadLoop(d, p, s.(buf := s.buf + chunks[0]), chunks[1..])
  }

  function Concat(chunks: seq<seq<byte>>): seq<byte> {
    if chunks == [] then [] else chunks[0] + Concat(chunks[1..])
  }

  /** A way for a stream to arrive: in reads, none of them empty. */
  ghost predicate Arrives(stream: seq<byte>, chunks: seq<seq<byte>>) {
    Concat(chunks) == stream && forall i :: 0 <= i < |chunks| ==> chunks[i] != []
  }

  /** The buffer and target after part of the stream: not yet rewritten, or rewritten all at once. */
  predicate Holds(d: Lossy, r: Request, part: seq<byte>) {
    r == Request(part, None) || r == Rewrite(d, part)
  }

  lemma RetargetGivesRewrite(d: Lossy, r: Request, part: seq<byte>)
    requires Holds(d, r, part)
    ensures Retarget(d, r) == Rewrite(d, part)
  {
    hide Rewrite;
    RewriteKnown(d, part);
  }

  lemma RewriteKnown(d: Lossy, b: seq<byte>)
    ensures Rewrite(d, b).target.None? ==> Rewrite(d, b).buf == b
    ensures Rewrite(d, b).target.Some? ==> LineEnd(b).Some?
  {
    hide LineEnd, ParseLine;
  }

  lemma MoreHolds(d: Lossy, part: seq<byte>, chunk: seq<byte>)
    ensures var r := Rewrite(d, part); Holds(d, r.(buf := r.buf + chunk), part + chunk)
  {
    hide LineEnd, Rewrite;
    RewriteKnown(d, part);
    if Rewrite(d, part).target.Some? { RewriteExtends(d, part, chunk); }
  }

  /** Whatever part of the stream is decided on, the decision is the one on the whole. */
  ghost predicate Robust<M(!new)>(d: Lossy, p: Parser<M>, stream: seq<byte>) {
    forall part :: part <= stream && !p(Rewrite(d, part).buf).Incomplete?
                   ==> Decide(p, Rewrite(d, part)) == Decide(p, Rewrite(d, stream))
  }

  lemma {:induction false} RobustReads<M(!new)>(
    d: Lossy, p: Parser<M>, r: Request, part: seq<byte>, chunks: seq<seq<byte>>, stream: seq<byte>)
    requires Robust(d, p, stream) && Holds(d, r, part) && part + Concat(chunks) == stream
    requires forall i :: 0 <= i < |chunks| ==> chunks[i] != []
    ensures ReadLoop(d, p, r, chunks) == Decide(p, Rewrite(d, stream))
    decreases |chunks|
  {
    hide LineEnd, Rewrite, Holds, Retarget;
    RetargetGivesRewrite(d, r, part);
    var s := Rewrite(d, part);
    assert part <= stream;
    if p(s.buf).Incomplete? {
      if chunks == [] {
        assert part == stream;
      } else {
        MoreHolds(d, part, chunks[0]);
        assert part + chunks[0] + Concat(chunks[1..]) == part + Concat(chunks);
        RobustReads(d, p, s.(buf := s.buf + chunks[0]), part + chunks[0], chunks[1..], stream);
      }
    }
  }

  /** A stream whose first read is `part`: the loop decides on it, if it can be decided. */
  lemma FirstRead<M(!new)>(d: Lossy, p: Parser<M>, part: seq<byte>, rest: seq<seq<byte>>)
    requires p([]).Incomplete? && part != []
    requires !p(Rewrite(d, part).buf).Incomplete? || rest == []
    ensures ReadLoop(d, p, Request([], None), [part] + rest) == Decide(p, Rewrite(d, part))
  {
    hide Rewrite;
    assert Rewrite(d, []) == Request([], None) by { RewriteKnown(d, []); NothingEnds(d); }
    assert ([part] + rest)[1..] == rest && [] + part == part;
  }

  lemma NothingEnds(d: Lossy)
    ensures Rewrite(d, []).target.None?
  {}

  /** Two ways to arrive that the parser could tell apart: all at once, and `part` first. */
  function PartFirst(part: seq<byte>, stream: seq<byte>): seq<seq<byte>>
    requires part <= stream
  {
    if part == stream then [stream] else [part, stream[|part|..]]
  }

  lemma PartArrives(part: seq<byte>, stream: seq<byte>)
    requires part <= stream && part != []
    ensures Arrives(stream, PartFirst(part, stream))
  {
    assert Concat([stream]) == stream + Concat([]);
    if part != stream {
      var rest := stream[|part|..];
      assert [part, rest][1..] == [rest] && Concat([rest]) == rest + Concat([]);
    }
  }

  lemma PartDecides<M(!new)>(d: Lossy, p: Parser<M>, part: seq<byte>, stream: seq<byte>)
    requires p([]).Incomplete? && part <= stream && part != []
    requires !p(Rewrite(d, part).buf).Incomplete? || part == stream
    ensures ReadLoop(d, p, Request([], None), PartFirst(part, stream)) == Decide(p, Rewrite(d, part))
  {
    hide Rewrite, ReadLoop, Decide;
    var rest := if part == stream then [] else [stream[|part|..]];
    assert PartFirst(part, stream) == [part] + rest;
    FirstRead(d, p, part, rest);
  }

  /**
   When reads do not matter, exactly, for any parser that wants something: every way for a stream to
   arrive gives what rewriting and parsing the whole at once gives, request, target and errors alike,
   if and only if no part of the stream is decided on differently.
   */
  lemma ReadsDoNotMatter<M(!new)>(d: Lossy, p: Parser<M>, stream: seq<byte>)
    requires p([]).Incomplete?
    ensures (forall chunks | Arrives(stream, chunks) ::
               ReadLoop(d, p, Request([], None), chunks) == Decide(p, Rewrite(d, stream)))
            <==> Robust(d, p, stream)
  {
    hide ReadLoop, Rewrite, Decide, PartFirst;
    if Robust(d, p, stream) {
      forall chunks | Arrives(stream, chunks)
        ensures ReadLoop(d, p, Request([], None), chunks) == Decide(p, Rewrite(d, stream))
      {
        assert [] + Concat(chunks) == stream;
        RobustReads(d, p, Request([], None), [], chunks, stream);
      }
    }
    if forall chunks | Arrives(stream, chunks) ::
         ReadLoop(d, p, Request([], None), chunks) == Decide(p, Rewrite(d, stream)) {
      forall part | part <= stream && !p(Rewrite(d, part).buf).Incomplete?
        ensures Decide(p, Rewrite(d, part)) == Decide(p, Rewrite(d, stream))
      {
        NothingIsUndecided(d, p, part);
        PartArrives(part, stream);
        PartDecides(d, p, part, stream);
      }
    }
  }

  lemma NothingIsUndecided<M(!new)>(d: Lossy, p: Parser<M>, part: seq<byte>)
    requires p([]).Incomplete? && !p(Rewrite(d, part).buf).Incomplete?
    ensures part != []
  {
    RewriteKnown(d, part);
    NothingEnds(d);
  }

  /** Any two ways to arrive agree with each other under exactly the same condition. */
  lemma ChunkIndependence<M(!new)>(d: Lossy, p: Parser<M>, stream: seq<byte>)
    requires p([]).Incomplete?
    ensures (forall a, b | Arrives(stream, a) && Arrives(stream, b) ::
               ReadLoop(d, p, Request([], None), a) == ReadLoop(d, p, Request([], None), b))
            <==> Robust(d, p, stream)
  {
    hide ReadLoop, Rewrite, Decide, Robust, PartFirst;
    ReadsDoNotMatter(d, p, stream);
    var whole := WholeArrives(d, p, stream);
    assert Arrives(stream, whole);
  }

  lemma WholeArrives<M(!new)>(d: Lossy, p: Parser<M>, stream: seq<byte>) returns (whole: seq<seq<byte>>)
    requires p([]).Incomplete?
    ensures Arrives(stream, whole)
    ensures ReadLoop(d, p, Request([], None), whole) == Decide(p, Rewrite(d, stream))
  {
    hide Rewrite;
    if stream == [] {
      whole := [];
      RewriteKnown(d, []);
      NothingEnds(d);
    } else {
      whole := PartFirst(stream, stream);
      PartArrives(stream, stream);
      PartDecides(d, p, stream, stream);
    }
  }

  /** A parser that never changes its mind on more bytes. */
  ghost predicate Stable<M(!new)>(p: Parser<M>) {
    forall b, more :: !p(b).Incomplete? ==> p(b + more) == p(b)
  }

  /** The condition, for a stable parser: only decisions before the request line ends can differ. */
  lemma StableRobust<M(!new)>(d: Lossy, p: Parser<M>, stream: seq<byte>)
    requires Stable(p)
    ensures Robust(d, p, stream) <==>
            forall part :: part <= stream && LineEnd(part).None? && !p(part).Incomplete?
                           ==> Decide(p, Request(part, None)) == Decide(p, Rewrite(d, stream))
  {
    hide LineEnd, ParseLine, Starred, Decide;
    forall part | part <= stream && LineEnd(part).Some? && !p(Rewrite(d, part).buf).Incomplete?
      ensures Decide(p, Rewrite(d, part)) == Decide(p, Rewrite(d, stream))
    {
      RewriteExtends(d, part, stream[|part|..]);
      assert part + stream[|part|..] == stream;
      StableDecision(p, Rewrite(d, part), stream[|part|..]);
    }
    forall part | LineEnd(part).None? ensures Rewrite(d, part) == Request(part, None) {}
  }

  lemma StableDecision<M(!new)>(p: Parser<M>, r: Request, more: seq<byte>)
    requires Stable(p) && !p(r.buf).Incomplete?
    ensures Decide(p, r.(buf := r.buf + more)) == Decide(p, r)
  {}

  /** A stable parser that waits for the line end is never misled. */
  lemma WaitingParserIsRobust<M(!new)>(d: Lossy, p: Parser<M>, stream: seq<byte>)
    requires Stable(p) && forall part :: part <= stream && LineEnd(part).None? ==> p(part).Incomplete?
    ensures Robust(d, p, stream)
  {
    hide Rewrite, LineEnd, Decide, Robust;
    StableRobust(d, p, stream);
  }

  /** Nor is any stable parser by a stream the rewriting leaves alone, unless it makes a request of it. */
  lemma UntouchedStreamIsRobust<M(!new)>(d: Lossy, p: Parser<M>, stream: seq<byte>)
    requires Stable(p) && Rewrite(d, stream).buf == stream && !p(stream).RequestMessage?
    ensures Robust(d, p, stream)
  {
    hide Rewrite, LineEnd, Robust;
    forall part | part <= stream && LineEnd(part).None? && !p(part).Incomplete?
      ensures Decide(p, Request(part, None)) == Decide(p, Rewrite(d, stream))
    {
      assert part + stream[|part|..] == stream;
    }
    StableRobust(d, p, stream);
  }

  /** A strict parser that refuses a target as soon as it sees one. */
  function StrictTarget(b: seq<byte>): Parsed<bool> {
    if |b| < 3 then Incomplete else if b[2] == STAR then RequestMessage(true) else Malformed
  }

  const A_B_C: seq<byte> := [0x41, SPACE, 0x42, SPACE, 0x43, CR, LF]

  /** Such a parser is stable, and yet one stream is received in one read and refused in two. */
  lemma ReadsCanMatter()
    ensures LossyLawful(Blurred) && Stable(StrictTarget) && StrictTarget([]).Incomplete?
    ensures Arrives(A_B_C, PartFirst(A_B_C, A_B_C)) && Arrives(A_B_C, PartFirst(A_B_C[..3], A_B_C))
    ensures ReadLoop(Blurred, StrictTarget, Request([], None), PartFirst(A_B_C, A_B_C)) == Received(true, [0x42])
    ensures ReadLoop(Blurred, StrictTarget, Request([], None), PartFirst(A_B_C[..3], A_B_C)) == ParseError
  {
    hide ReadLoop, PartFirst, Rewrite, LossyLawful;
    LossyLawsAreConsistent();
    PartArrives(A_B_C, A_B_C);
    PartArrives(A_B_C[..3], A_B_C);
    AbcIsRewritten();
    PartDecides(Blurred, StrictTarget, A_B_C, A_B_C);
    StartIsNotRewritten();
    PartDecides(Blurred, StrictTarget, A_B_C[..3], A_B_C);
  }

  lemma StartIsNotRewritten()
    ensures Rewrite(Blurred, A_B_C[..3]) == Request(A_B_C[..3], None)
  {
    forall j: nat ensures !CrLfAt(A_B_C[..3], j) {}
  }

  lemma AbcIsRewritten()
    ensures Rewrite(Blurred, A_B_C) == Request([0x41, SPACE, STAR, SPACE, 0x43, CR, LF], Some([0x42]))
  {
    hide LineEnd, SplitSpace;
    LineEndIs(A_B_C, 5);
    var line := A_B_C[..5];
    assert Blurred(line) == line;
    assert line == [0x41] + [SPACE] + [0x42, SPACE, 0x43] && [0x42, SPACE, 0x43] == [0x42] + [SPACE] + [0x43];
    SplitAt([0x41], [0x42, SPACE, 0x43]);
    SplitAt([0x42], [0x43]);
  }

  /** The buffer itself, while the parser wants more: as if the whole so far had been rewritten at once. */
  function Accumulate(d: Lossy, r: Request, chunks: seq<seq<byte>>): Request
    decreases |chunks|
  {
    var s := Retarget(d, r);
    if chunks == [] then s else Accumulate(d, s.(buf := s.buf + chunks[0]), chunks[1..])
  }

  lemma {:induction false} AccumulateGivesRewrite(d: Lossy, r: Request, part: seq<byte>, chunks: seq<seq<byte>>)
    requires Holds(d, r, part)
    ensures Accumulate(d, r, chunks) == Rewrite(d, part + Concat(chunks))
    decreases |chunks|
  {
    hide LineEnd, Rewrite, Holds, Retarget;
    RetargetGivesRewrite(d, r, part);
    if chunks == [] {
      assert part + Concat(chunks) == part;
    } else {
      MoreHolds(d, part, chunks[0]);
      var s := Rewrite(d, part);
      AccumulateGivesRewrite(d, s.(buf := s.buf + chunks[0]), part + chunks[0], chunks[1..]);
      assert part + chunks[0] + Concat(chunks[1..]) == part + Concat(chunks);
    }
  }

  // The connection.

  /** A connection's buffer, edited in place. */
  class Connection {
    var buf: seq<byte>

    constructor ()
      ensures buf == []
    {
      buf := [];
    }

    method RewriteRequestTarget(d: Lossy) returns (target: Option<seq<byte>>)
      modifies this
      ensures Request(buf, target) == Rewrite(d, old(buf))
    {
      hide LineEnd, ParseLine;
      var end := 0;
      while end + 1 < |buf| && !(buf[end] == CR && buf[end + 1] == LF)
        invariant buf == old(buf)
        invariant end <= |buf| && forall j: nat :: j < end ==> !CrLfAt(buf, j)
        decreases |buf| - end
      {
        end := end + 1;
      }
      if end + 1 >= |buf| {
        assert forall j: nat :: !CrLfAt(buf, j);
        return None;
      }
      LineEndIs(buf, end);
      var line := ParseLine(d(buf[..end]));
      if line.None? { return None; }
      target := Some(line.value.target);
      if !Acceptable(line.value.target) {
        buf := line.value.verb + [SPACE, STAR, SPACE] + line.value.version + buf[end..];
      }
    }

    method HandleConnection<M>(d: Lossy, p: Parser<M>, chunks: seq<seq<byte>>) returns (outcome: Outcome<M>)
      requires buf == []
      modifies this
      ensures outcome == ReadLoop(d, p, Request([], None), chunks)
    {
      hide Rewrite;
      var i, target: Option<seq<byte>> := 0, None;
      while true
        invariant i <= |chunks|
        invariant ReadLoop(d, p, Request([], None), chunks) == ReadLoop(d, p, Request(buf, target), chunks[i..])
        decreases |chunks| - i
      {
        if target.None? { target := RewriteRequestTarget(d); }
        match p(buf) {
          case RequestMessage(m) => return Received(m, if target.Some? then target.value else []);
          case OtherMessage => return Ignored;
          case Malformed => return ParseError;
          case Incomplete =>
        }
        if i == |chunks| || chunks[i] == [] { return Closed; }
        buf := buf + chunks[i];
        i := i + 1;
      }
    }
  }
}
