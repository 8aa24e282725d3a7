/**
 The login screen's frame protocol: tagged, length-prefixed messages over one byte stream. The JSON
 form of input events is a parameter.
 */
module LoginFrames {
  import opened Bytes

  const TAG_FRAME: byte := 1
  const TAG_INPUT: byte := 2

  datatype Json<!E> = Json(encode: E -> seq<byte>, decode: seq<byte> -> Option<E>)

  datatype Message<E> = Frame(width: u32, height: u32, rgba: seq<byte>) | Input(event: E)

  /** An event that its JSON form carries faithfully, as all but non-finite numbers are. */
  predicate Faithful<E(==)>(j: Json<E>, m: Message<E>) {
    m.Input? ==> j.decode(j.encode(m.event)) == Some(m.event)
  }

  function Tag<E>(m: Message<E>): byte { if m.Frame? then TAG_FRAME else TAG_INPUT }

  function Payload<E>(j: Json<E>, m: Message<E>): seq<byte> {
    match m
    case Frame(width, height, rgba) => Le32(width) + Le32(height) + rgba
    case Input(event) => j.encode(event)
  }

  /** The length is cut to 32 bits, whatever the payload's length. */
  function LengthField(n: nat): u32 { n % 0x1_0000_0000 }

  function Framed(tag: byte, payload: seq<byte>): seq<byte> {
    [tag] + Le32(LengthField(|payload|)) + payload
  }

  function Written<E>(j: Json<E>, m: Message<E>): seq<byte> { Framed(Tag(m), Payload(j, m)) }

  datatype ReadError = UnexpectedEof | FrameTooShort | BadInput | UnknownTag(tag: byte)

  /** What one read gives: a message or the end of the stream, and what is left. */
  datatype Read<E> = Got(message: Option<Message<E>>, rest: seq<byte>) | Failed(error: ReadError)

  function Decoded<E>(j: Json<E>, tag: byte, payload: seq<byte>): Result<Message<E>, ReadError> {
    if tag == TAG_FRAME then
      if |payload| < 8 then Err(FrameTooShort)
      else Ok(Frame(FromLe32(payload[..4]), FromLe32(payload[4..8]), payload[8..]))
    else if tag == TAG_INPUT then
      match j.decode(payload) case Some(event) => Ok(Input(event)) case None => Err(BadInput)
    else Err(UnknownTag(tag))
  }

  function ReadMessage<E>(j: Json<E>, b: seq<byte>): (r: Read<E>)
    ensures r.Got? && r.message.Some? ==> |r.rest| < |b|
  {
    if b == [] then Got(None, [])
    else if |b| < 5 then Failed(UnexpectedEof)
    else
      var n := FromLe32(b[1..5]);
      if |b| - 5 < n then Failed(UnexpectedEof) else
        match Decoded(j, b[0], b[5..5 + n])
        case Ok(m) => Got(Some(m), b[5 + n..])
        case Err(e) => Failed(e)
  }

  /** Everything read up to the end of the stream or the first error. */
  datatype Session<E> = Session(messages: seq<Message<E>>, error: Option<ReadError>)

  function ReadAll<E>(j: Json<E>, b: seq<byte>): Session<E>
    decreases |b|
  {
    match ReadMessage(j, b)
    case Failed(e) => Session([], Some(e))
    case Got(None, _) => Session([], None)
    case Got(Some(m), rest) =>
      var later := ReadAll(j, rest);
      Session([m] + later.messages, later.error)
  }

  function WrittenAll<E>(j: Json<E>, ms: seq<Message<E>>): seq<byte> {
    if ms == [] then [] else Written(j, ms[0]) + WrittenAll(j, ms[1..])
  }

  /** Messages the protocol can carry: payloads below 2^32 bytes, events their JSON form keeps. */
  ghost predicate Sendable<E>(j: Json<E>, m: Message<E>) { |Payload(j, m)| < 0x1_0000_0000 && Faithful(j, m) }

  /** The bytes of each message: its tag, its length cut to 32 bits, low byte first, and its payload. */
  lemma WrittenBytes<E>(j: Json<E>, m: Message<E>)
    ensures var b, p := Written(j, m), Payload(j, m);
            && |b| == 5 + |p| && b[5..] == p && b[0] == (if m.Frame? then 1 else 2)
            && (b[1] as int) + (b[2] as int) * 0x100 + (b[3] as int) * 0x1_0000 + (b[4] as int) * 0x100_0000
               == |p| % 0x1_0000_0000
    ensures m.Frame? ==>
      var b := Written(j, m);
      && (b[5] as int) + (b[6] as int) * 0x100 + (b[7] as int) * 0x1_0000 + (b[8] as int) * 0x100_0000 == m.width
      && (b[9] as int) + (b[10] as int) * 0x100 + (b[11] as int) * 0x1_0000 + (b[12] as int) * 0x100_0000 == m.height
      && b[13..] == m.rgba
    ensures m.Input? ==> Written(j, m)[5..] == j.encode(m.event)
  {
    hide Le32, FromLe32;
    var p := Payload(j, m);
    LittleEndian(Le32(|p| % 0x1_0000_0000));
    if m.Frame? {
      LittleEndian(Le32(m.width));
      LittleEndian(Le32(m.height));
    }
  }

  /** Every way a read can go, by the bytes at hand. */
  lemma ReadsExactly<E>(j: Json<E>, b: seq<byte>)
    ensures b == [] ==> ReadMessage(j, b) == Got(None, [])
    ensures 0 < |b| < 5 ==> ReadMessage(j, b) == Failed(UnexpectedEof)
    ensures |b| >= 5 ==>
      var n := (b[1] as int) + (b[2] as int) * 0x100 + (b[3] as int) * 0x1_0000 + (b[4] as int) * 0x100_0000;
      && (|b| < 5 + n ==> ReadMessage(j, b) == Failed(UnexpectedEof))
      && (|b| >= 5 + n ==>
            && (b[0] !in {1, 2} ==> ReadMessage(j, b) == Failed(UnknownTag(b[0])))
            && (b[0] == 1 && n < 8 ==> ReadMessage(j, b) == Failed(FrameTooShort))
            && (b[0] == 2 ==>
                  ReadMessage(j, b) == match j.decode(b[5..5 + n])
                                       case None => Failed(BadInput)
                                       case Some(event) => Got(Some(Input(event)), b[5 + n..])))
  {
    hide FromLe32;
    if |b| >= 5 { LittleEndian(b[1..5]); }
  }

  lemma DecodedPayload<E>(j: Json<E>, m: Message<E>)
    requires Faithful(j, m)
    ensures Decoded(j, Tag(m), Payload(j, m)) == Ok(m)
  {
    if m.Frame? {
      var p := Payload(j, m);
      assert p[..4] == Le32(m.width) && p[4..8] == Le32(m.height) && p[8..] == m.rgba;
    }
  }

  /**
   Reading back what was written, followed by anything, gives the message and exactly what follows,
   if and only if the payload's length fits its field.
   */
  lemma RoundTrip<E>(j: Json<E>, m: Message<E>, rest: seq<byte>)
    requires Faithful(j, m)
    ensures ReadMessage(j, Written(j, m) + rest) == Got(Some(m), rest) <==> |Payload(j, m)| < 0x1_0000_0000
  {
    hide Decoded;
    var p := Payload(j, m);
    var b := Written(j, m) + rest;
    assert b[0] == Tag(m) && b[1..5] == Le32(LengthField(|p|)) && b[5..] == p + rest;
    if |p| < 0x1_0000_0000 {
      DecodedPayload(j, m);
      assert b[5..5 + |p|] == p && b[5 + |p|..] == rest;
    }
  }

  /** Every list of messages is read back as written, and then the end of the stream. */
  lemma {:induction false} StreamRoundTrip<E>(j: Json<E>, ms: seq<Message<E>>)
    requires forall i :: 0 <= i < |ms| ==> Sendable(j, ms[i])
    ensures ReadAll(j, WrittenAll(j, ms)) == Session(ms, None)
  {
    WrittenThen(j, ms, []);
    assert WrittenAll(j, ms) + [] == WrittenAll(j, ms);
    assert ms + [] == ms;
  }

  lemma OneMore<E>(j: Json<E>, m: Message<E>, rest: seq<byte>)
    requires Sendable(j, m)
    ensures var later := ReadAll(j, rest);
            ReadAll(j, Written(j, m) + rest) == Session([m] + later.messages, later.error)
  {
    hide Written, ReadMessage, Payload;
    RoundTrip(j, m, rest);
  }

  /** Written messages, then other bytes: the messages come first, then whatever the bytes give. */
  lemma {:induction false} WrittenThen<E>(j: Json<E>, ms: seq<Message<E>>, tail: seq<byte>)
    requires forall i :: 0 <= i < |ms| ==> Sendable(j, ms[i])
    ensures var later := ReadAll(j, tail);
            ReadAll(j, WrittenAll(j, ms) + tail) == Session(ms + later.messages, later.error)
  {
    hide Written, ReadAll, Sendable;
    var later := ReadAll(j, tail);
    if ms == [] {
      assert WrittenAll(j, ms) + tail == tail && ms + later.messages == later.messages;
    } else {
      WrittenThen(j, ms[1..], tail);
      OneMore(j, ms[0], WrittenAll(j, ms[1..]) + tail);
      assert WrittenAll(j, ms) + tail == Written(j, ms[0]) + (WrittenAll(j, ms[1..]) + tail);
      assert ms + later.messages == [ms[0]] + (ms[1..] + later.messages);
    }
  }

  lemma Header<E>(j: Json<E>, m: Message<E>)
    ensures var p, w := Payload(j, m), Written(j, m);
            |w| == 5 + |p| && w[1..5] == Le32(LengthField(|p|))
  {
    hide Payload;
  }

  lemma CutMessage<E>(j: Json<E>, m: Message<E>, cut: nat)
    requires |Payload(j, m)| < 0x1_0000_0000 && 0 < cut < |Written(j, m)|
    ensures ReadMessage(j, Written(j, m)[..cut]) == Failed(UnexpectedEof)
  {
    hide Decoded, Payload, Written, FromLe32;
    Header(j, m);
    var w := Written(j, m);
    if cut >= 5 { assert w[..cut][1..5] == w[1..5]; }
  }

  /** A stream cut inside a message gives the messages before it, then an end-of-file error. */
  lemma CutStream<E>(j: Json<E>, ms: seq<Message<E>>, last: Message<E>, cut: nat)
    requires forall i :: 0 <= i < |ms| ==> Sendable(j, ms[i])
    requires |Payload(j, last)| < 0x1_0000_0000 && 0 < cut < |Written(j, last)|
    ensures ReadAll(j, WrittenAll(j, ms) + Written(j, last)[..cut]) == Session(ms, Some(UnexpectedEof))
  {
    hide WrittenAll, ReadMessage, Sendable, Written, Payload;
    CutMessage(j, last, cut);
    WrittenThen(j, ms, Written(j, last)[..cut]);
    assert ms + [] == ms;
  }

  // The stream ends.

  class Writer {
    var out: seq<byte>

    method WriteMessage(tag: byte, payload: seq<byte>)
      modifies this
      ensures out == old(out) + Framed(tag, payload)
    {
      out := out + [tag];
      out := out + Le32(LengthField(|payload|));
      out := out + payload;
    }

    method WriteFrame(width: u32, height: u32, rgba: seq<byte>)
      modifies this
      ensures out == old(out) + Framed(TAG_FRAME, Le32(width) + Le32(height) + rgba)
    {
      var payload := Le32(width);
      payload := payload + Le32(height);
      payload := payload + rgba;
      WriteMessage(TAG_FRAME, payload);
    }

    method WriteInput<E>(j: Json<E>, event: E)
      modifies this
      ensures out == old(out) + Written(j, Input(event))
    {
      WriteMessage(TAG_INPUT, j.encode(event));
    }
  }

  class Reader {
    var left: seq<byte>

    /** Exactly n bytes, or nothing and the stream used up. */
    method ReadExact(n: nat) returns (buffer: Option<seq<byte>>)
      modifies this
      ensures if |old(left)| < n then buffer.None? && left == []
              else buffer == Some(old(left)[..n]) && left == old(left)[n..]
    {
      if |left| < n {
        left := [];
        return None;
      }
      buffer, left := Some(left[..n]), left[n..];
    }

    method Read<E>(j: Json<E>) returns (r: Result<Option<Message<E>>, ReadError>)
      modifies this
      ensures match ReadMessage(j, old(left))
              case Got(message, rest) => r == Ok(message) && left == rest
              case Failed(e) => r == Err(e)
    {
      ghost var all := left;
      var tag := ReadExact(1);
      if tag.None? { return Ok(None); }
      var length := ReadExact(4);
      if length.None? { return Err(UnexpectedEof); }
      assert length.value == all[1..5];
      var payload := ReadExact(FromLe32(length.value));
      if payload.None? { return Err(UnexpectedEof); }
      assert payload.value == all[5..5 + FromLe32(all[1..5])];
      match Decoded(j, tag.value[0], payload.value)
      case Ok(m) => return Ok(Some(m));
      case Err(e) => return Err(e);
    }
  }
}
