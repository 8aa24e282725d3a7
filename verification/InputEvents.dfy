/**
 Input events carried by the control channel: the server's decoder, a client's encoder, and the
 proof that the decoder recovers what was encoded. The keyboard table is a parameter.
 */
module InputEvents {
  import opened Bytes

  /** A 32-bit float is moved as its bit pattern. */
  type F32 = b: seq<byte> | |b| == 4 witness [0, 0, 0, 0]

  datatype InputEvent =
    | KeyDown(keycode: u32)
    | KeyUp(keycode: u32)
    | MouseMoveRelative(dx: i16, dy: i16)
    | MouseMoveAbsolute(x: i16, y: i16, screenWidth: i16, screenHeight: i16)
    | MouseButtonDown(button: u32)
    | MouseButtonUp(button: u32)
    | ScrollVertical(amount: i16)
    | ScrollHorizontal(amount: i16)
    | TouchDown(pointerId: u32, tx: F32, ty: F32, pressure: F32)
    | TouchMotion(pointerId: u32, tx: F32, ty: F32, pressure: F32)
    | TouchUp(pointerId: u32)
    | TouchCancel(pointerId: u32)
    | TouchCancelAll
    | GamepadState(controllerNumber: byte, buttons: u32, leftTrigger: byte, rightTrigger: byte,
                   leftX: i16, leftY: i16, rightX: i16, rightY: i16)

  /** `Panics` stands for the out-of-range slice that ends the control thread. */
  datatype Decoded = Event(event: InputEvent) | Unknown | Panics

  const KEY_DOWN: u32 := 0x03
  const KEY_UP: u32 := 0x04
  const MOUSE_ABSOLUTE: u32 := 0x05
  const MOUSE_RELATIVE: u32 := 0x07
  const BUTTON_DOWN: u32 := 0x08
  const BUTTON_UP: u32 := 0x09
  const SCROLL_VERTICAL: u32 := 0x0A
  const GAMEPAD_GEN5: u32 := 0x0C
  const GAMEPAD: u32 := 0x0D
  const SCROLL_HORIZONTAL: u32 := 0x5500_0001
  const TOUCH: u32 := 0x5500_0002

  function Found<T>(o: Option<T>, make: T -> InputEvent): Decoded {
    match o
    case Some(v) => Event(make(v))
    case None => Unknown
  }

  function KeyFrom(keymap: byte -> Option<u32>, body: seq<byte>): Option<u32> {
    if |body| < 2 then None else keymap(body[1])
  }

  function MouseButtonFrom(body: seq<byte>): Option<u32> {
    if body == [] then None
    else match body[0]
      case 1 => Some(0x110)
      case 2 => Some(0x112)
      case 3 => Some(0x111)
      case 4 => Some(0x113)
      case 5 => Some(0x114)
      case _ => None
  }

  function I16Be(b: seq<byte>): i16 requires |b| == 2 { AsI16(FromBe16(b)) }
  function I16Le(b: seq<byte>): i16 requires |b| == 2 { AsI16(FromLe16(b)) }

  function DecodeTouch(body: seq<byte>): Decoded {
    if |body| < 28 then Unknown else
      var pointerId := FromLe32(body[4..8]);
      match body[0]
      case 1 => Event(TouchDown(pointerId, body[8..12], body[12..16], body[16..20]))
      case 2 => Event(TouchUp(pointerId))
      case 3 => Event(TouchMotion(pointerId, body[8..12], body[12..16], body[16..20]))
      case 4 => Event(TouchCancel(pointerId))
      case 7 => Event(TouchCancelAll)
      case _ => Unknown
  }

  /** The low byte of the controller number; the two 16-bit masks side by side as one of 32 bits. */
  function DecodeGamepad(body: seq<byte>): Decoded {
    if |body| < 26 then Unknown else
      Event(GamepadState(
        FromLe16(body[2..4]) % 0x100,
        FromLe16(body[8..10]) + FromLe16(body[22..24]) * 0x1_0000,
        body[10], body[11],
        I16Le(body[12..14]), I16Le(body[14..16]), I16Le(body[16..18]), I16Le(body[18..20])))
  }

  function DecodeScroll(body: seq<byte>, make: i16 -> InputEvent): Decoded {
    if body == [] then Unknown
    else if |body| < 2 then Panics
    else Event(make(I16Be(body[..2])))
  }

  function Decode(keymap: byte -> Option<u32>, payload: seq<byte>): Decoded {
    if |payload| < 4 then Unknown else DecodeBody(keymap, FromLe32(payload[..4]), payload[4..])
  }

  function DecodeBody(keymap: byte -> Option<u32>, eventType: u32, body: seq<byte>): Decoded {
    if eventType == KEY_DOWN then Found(KeyFrom(keymap, body), k => KeyDown(k))
    else if eventType == KEY_UP then Found(KeyFrom(keymap, body), k => KeyUp(k))
    else if eventType == MOUSE_ABSOLUTE then
      if |body| < 10 then Unknown
      else Event(MouseMoveAbsolute(I16Be(body[..2]), I16Be(body[2..4]), I16Be(body[6..8]), I16Be(body[8..10])))
    else if eventType == MOUSE_RELATIVE then
      if |body| < 4 then Unknown else Event(MouseMoveRelative(I16Be(body[..2]), I16Be(body[2..4])))
    else if eventType == BUTTON_DOWN then Found(MouseButtonFrom(body), b => MouseButtonDown(b))
    else if eventType == BUTTON_UP then Found(MouseButtonFrom(body), b => MouseButtonUp(b))
    else if eventType == SCROLL_VERTICAL then DecodeScroll(body, (a: i16) => ScrollVertical(a))
    else if eventType == SCROLL_HORIZONTAL then DecodeScroll(body, (a: i16) => ScrollHorizontal(a))
    else if eventType == TOUCH then DecodeTouch(body)
    else if eventType == GAMEPAD || eventType == GAMEPAD_GEN5 then DecodeGamepad(body)
    else Unknown
  }

  // A client's encoder. Bytes the server ignores are taken from `junk`.

  predicate Encodable(e: InputEvent) {
    match e
    case KeyDown(_) => false
    case KeyUp(_) => false
    case MouseButtonDown(b) => 0x110 <= b <= 0x114
    case MouseButtonUp(b) => 0x110 <= b <= 0x114
    case _ => true
  }

  function ButtonCode(button: u32): (code: byte)
    requires 0x110 <= button <= 0x114
    ensures MouseButtonFrom([code]) == Some(button)
  {
    match button
    case 0x110 => 1
    case 0x112 => 2
    case 0x111 => 3
    case 0x113 => 4
    case _ => 5
  }

  function BeI16(i: i16): (b: seq<byte>) ensures |b| == 2 && I16Be(b) == i { Be16(I16Bits(i)) }
  function LeI16(i: i16): (b: seq<byte>) ensures |b| == 2 && I16Le(b) == i { Le16(I16Bits(i)) }

  function TouchBody(kind: byte, pointerId: u32, x: F32, y: F32, pressure: F32, junk: seq<byte>): (b: seq<byte>)
    requires |junk| == 28
    ensures |b| == 28
  {
    [kind] + junk[1..4] + Le32(pointerId) + x + y + pressure + junk[20..28]
  }

  function GamepadBody(e: InputEvent, junk: seq<byte>): (b: seq<byte>)
    requires e.GamepadState? && |junk| == 28
    ensures |b| == 26
  {
    junk[..2] + Le16(e.controllerNumber) + junk[4..8] + Le16(e.buttons % 0x1_0000) + [e.leftTrigger, e.rightTrigger]
    + LeI16(e.leftX) + LeI16(e.leftY) + LeI16(e.rightX) + LeI16(e.rightY)
    + junk[20..22] + Le16(e.buttons / 0x1_0000) + junk[24..26]
  }

  function TypeOf(e: InputEvent, gen5: bool): u32 {
    match e
    case KeyDown(_) => KEY_DOWN
    case KeyUp(_) => KEY_UP
    case MouseMoveRelative(_, _) => MOUSE_RELATIVE
    case MouseMoveAbsolute(_, _, _, _) => MOUSE_ABSOLUTE
    case MouseButtonDown(_) => BUTTON_DOWN
    case MouseButtonUp(_) => BUTTON_UP
    case ScrollVertical(_) => SCROLL_VERTICAL
    case ScrollHorizontal(_) => SCROLL_HORIZONTAL
    case GamepadState(_, _, _, _, _, _, _, _) => if gen5 then GAMEPAD_GEN5 else GAMEPAD
    case _ => TOUCH
  }

  function Body(e: InputEvent, junk: seq<byte>): seq<byte>
    requires Encodable(e) && |junk| == 28
  {
    match e
    case MouseMoveRelative(dx, dy) => BeI16(dx) + BeI16(dy)
    case MouseMoveAbsolute(x, y, w, h) => BeI16(x) + BeI16(y) + junk[4..6] + BeI16(w) + BeI16(h)
    case MouseButtonDown(b) => [ButtonCode(b)]
    case MouseButtonUp(b) => [ButtonCode(b)]
    case ScrollVertical(a) => BeI16(a)
    case ScrollHorizontal(a) => BeI16(a)
    case TouchDown(id, x, y, p) => TouchBody(1, id, x, y, p, junk)
    case TouchUp(id) => TouchBody(2, id, junk[8..12], junk[12..16], junk[16..20], junk)
    case TouchMotion(id, x, y, p) => TouchBody(3, id, x, y, p, junk)
    case TouchCancel(id) => TouchBody(4, id, junk[8..12], junk[12..16], junk[16..20], junk)
    case TouchCancelAll => [7] + junk[1..]
    case GamepadState(_, _, _, _, _, _, _, _) => GamepadBody(e, junk)
  }

  function Encode(e: InputEvent, junk: seq<byte>, gen5: bool): (b: seq<byte>)
    requires Encodable(e) && |junk| == 28
    ensures |b| <= 32
  {
    Le32(TypeOf(e, gen5)) + Body(e, junk)
  }

  lemma TouchInverts(kind: byte, pointerId: u32, x: F32, y: F32, pressure: F32, junk: seq<byte>, trailing: seq<byte>)
    requires |junk| == 28
    ensures var b := TouchBody(kind, pointerId, x, y, pressure, junk) + trailing;
            b[0] == kind && b[4..8] == Le32(pointerId) && b[8..12] == x && b[12..16] == y && b[16..20] == pressure
  {}

  lemma GamepadInverts(e: InputEvent, junk: seq<byte>, trailing: seq<byte>)
    requires e.GamepadState? && |junk| == 28
    ensures DecodeGamepad(GamepadBody(e, junk) + trailing) == Event(e)
  {
    var b := GamepadBody(e, junk) + trailing;
    assert b[2..4] == Le16(e.controllerNumber);
    assert b[8..10] == Le16(e.buttons % 0x1_0000);
    assert b[12..14] == LeI16(e.leftX) && b[14..16] == LeI16(e.leftY);
    assert b[16..18] == LeI16(e.rightX) && b[18..20] == LeI16(e.rightY);
    assert b[22..24] == Le16(e.buttons / 0x1_0000);
  }

  lemma PointerInverts(keymap: byte -> Option<u32>, e: InputEvent, junk: seq<byte>, trailing: seq<byte>)
    requires Encodable(e) && |junk| == 28 && TypeOf(e, false) != TOUCH && !e.GamepadState?
    ensures DecodeBody(keymap, TypeOf(e, false), Body(e, junk) + trailing) == Event(e)
  {
    var body := Body(e, junk) + trailing;
    hide BeI16, I16Be;
    match e
    case MouseMoveRelative(dx, dy) =>
      assert body[..2] == BeI16(dx) && body[2..4] == BeI16(dy);
    case MouseMoveAbsolute(x, y, w, h) =>
      assert body[..2] == BeI16(x) && body[2..4] == BeI16(y) && body[6..8] == BeI16(w) && body[8..10] == BeI16(h);
    case ScrollVertical(a) =>
      assert body[..2] == BeI16(a);
    case ScrollHorizontal(a) =>
      assert body[..2] == BeI16(a);
    case MouseButtonDown(b) =>
      assert body[0] == ButtonCode(b);
    case MouseButtonUp(b) =>
      assert body[0] == ButtonCode(b);
  }

  lemma TouchEventInverts(e: InputEvent, junk: seq<byte>, trailing: seq<byte>)
    requires Encodable(e) && |junk| == 28 && TypeOf(e, false) == TOUCH
    ensures DecodeTouch(Body(e, junk) + trailing) == Event(e)
  {
    hide TouchBody;
    match e
    case TouchDown(id, x, y, p) => TouchInverts(1, id, x, y, p, junk, trailing);
    case TouchUp(id) => TouchInverts(2, id, junk[8..12], junk[12..16], junk[16..20], junk, trailing);
    case TouchMotion(id, x, y, p) => TouchInverts(3, id, x, y, p, junk, trailing);
    case TouchCancel(id) => TouchInverts(4, id, junk[8..12], junk[12..16], junk[16..20], junk, trailing);
    case TouchCancelAll =>
  }

  /**
   The decoder inverts the encoder for every mouse, touch and gamepad event, whatever stands in the
   ignored bytes or after the event: every 16-bit coordinate and axis, every 32-bit button mask,
   every float pattern, under either gamepad type.
   */
  lemma DecodeInvertsEncode(keymap: byte -> Option<u32>, e: InputEvent, junk: seq<byte>, gen5: bool, trailing: seq<byte>)
    requires Encodable(e) && |junk| == 28
    ensures Decode(keymap, Encode(e, junk, gen5) + trailing) == Event(e)
  {
    hide Body, DecodeTouch, DecodeGamepad, GamepadBody;
    var payload, body := Encode(e, junk, gen5) + trailing, Body(e, junk) + trailing;
    assert payload[..4] == Le32(TypeOf(e, gen5)) && payload[4..] == body;
    if e.GamepadState? {
      GamepadInverts(e, junk, trailing);
      assert Body(e, junk) == GamepadBody(e, junk) by { BodyOfGamepad(e, junk); }
    } else if TypeOf(e, false) == TOUCH {
      TouchEventInverts(e, junk, trailing);
    } else {
      PointerInverts(keymap, e, junk, trailing);
      hide DecodeBody;
    }
  }

  lemma BodyOfGamepad(e: InputEvent, junk: seq<byte>)
    requires e.GamepadState? && |junk| == 28
    ensures Body(e, junk) == GamepadBody(e, junk)
  {}

  // What the numbers mean.

  /** A payload by its type's number. */
  lemma DecodeByType(keymap: byte -> Option<u32>, payload: seq<byte>)
    ensures |payload| < 4 ==> Decode(keymap, payload).Unknown?
    ensures |payload| >= 4 ==>
              var n := payload[0] + (payload[1] as int) * 0x100 + (payload[2] as int) * 0x1_0000 + (payload[3] as int) * 0x100_0000;
              Decode(keymap, payload) == DecodeBody(keymap, n, payload[4..])
  {
    hide DecodeBody;
    if |payload| >= 4 { LittleEndian(payload[..4]); }
  }

  /** Keys, by the second byte of the body and the table; the first of the two types presses. */
  lemma KeysDecode(keymap: byte -> Option<u32>, body: seq<byte>)
    ensures var code := if |body| < 2 then None else keymap(body[1]);
            && DecodeBody(keymap, 0x03, body) == (if code.None? then Unknown else Event(KeyDown(code.value)))
            && DecodeBody(keymap, 0x04, body) == (if code.None? then Unknown else Event(KeyUp(code.value)))
  {}

  /** The five mouse buttons: left, middle, right, side, extra. */
  lemma ButtonsDecode(keymap: byte -> Option<u32>, body: seq<byte>)
    ensures var button := if body == [] || body[0] == 0 || body[0] > 5 then None
                          else Some([0x110, 0x112, 0x111, 0x113, 0x114][body[0] - 1]);
            && DecodeBody(keymap, 0x08, body) == (if button.None? then Unknown else Event(MouseButtonDown(button.value)))
            && DecodeBody(keymap, 0x09, body) == (if button.None? then Unknown else Event(MouseButtonUp(button.value)))
  {}

  /** The numbers of the other types, and that no number beyond them means anything. */
  lemma TypeNumbers(keymap: byte -> Option<u32>, n: u32, body: seq<byte>)
    ensures TypeOf(MouseMoveRelative(0, 0), false) == 0x07 && TypeOf(MouseMoveAbsolute(0, 0, 0, 0), false) == 0x05
    ensures TypeOf(ScrollVertical(0), false) == 0x0A && TypeOf(ScrollHorizontal(0), false) == 0x5500_0001
    ensures TypeOf(TouchCancelAll, false) == 0x5500_0002
    ensures TypeOf(GamepadState(0, 0, 0, 0, 0, 0, 0, 0), true) == 0x0C && TypeOf(GamepadState(0, 0, 0, 0, 0, 0, 0, 0), false) == 0x0D
    ensures n !in [0x03, 0x04, 0x05, 0x07, 0x08, 0x09, 0x0A, 0x0C, 0x0D, 0x5500_0001, 0x5500_0002]
            ==> DecodeBody(keymap, n, body).Unknown?
  {}

  /** The decoder panics on exactly one shape of input: a scroll event with a one-byte body. */
  lemma PanicsExactly(keymap: byte -> Option<u32>, payload: seq<byte>)
    ensures Decode(keymap, payload).Panics? <==>
            |payload| == 5 && (FromLe32(payload[..4]) == SCROLL_VERTICAL || FromLe32(payload[..4]) == SCROLL_HORIZONTAL)
  {
    if |payload| >= 4 {
      assert (payload[4..] == []) == (|payload| == 4);
      assert |payload| == 5 ==> payload[4..] != [];
    }
  }
}
