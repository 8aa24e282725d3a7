/** From a client's hand to the session: what an honest client's encrypted messages make the handler hear. */
module ControlDelivery {
  import opened Bytes
  import opened ControlWire
  import opened ControlServer
  import InputEvents

  /** A plain control message: type, length, payload. */
  function PlainMessage(messageType: u16, payload: seq<byte>): seq<byte>
    requires |payload| < 0x1_0000
  {
    Le16(messageType) + Le16(|payload|) + payload
  }

  function InputPayload(event: seq<byte>): seq<byte>
    requires |event| < 0x1_0000
  {
    Be32(|event|) + event
  }

  /** The statistics a client reports: the frame number stands at offset 12 of 32 bytes. */
  function LossPayload(lastGoodFrame: u64, junk: seq<byte>): seq<byte>
    requires |junk| == 24
  {
    junk[..12] + Le64(lastGoodFrame) + junk[12..]
  }

  lemma PlainParts(messageType: u16, payload: seq<byte>)
    requires |payload| < 0x1_0000
    ensures var m := PlainMessage(messageType, payload);
            m[..2] == Le16(messageType) && m[4..] == payload && |m| == 4 + |payload|
  {}

  lemma InputParses(event: seq<byte>)
    requires |event| < 0x1_0000
    ensures FromTypeAndPayload(INPUT_DATA, InputPayload(event)) == Ok(InputData(event))
  {
    var p := InputPayload(event);
    assert p[..4] == Be32(|event|) && p[4..4 + |event|] == event;
  }

  lemma LossParses(lastGoodFrame: u64, junk: seq<byte>)
    requires |junk| == 24
    ensures FromTypeAndPayload(LOSS_STATS, LossPayload(lastGoodFrame, junk)) == Ok(LossStats(lastGoodFrame))
  {
    assert LossPayload(lastGoodFrame, junk)[12..20] == Le64(lastGoodFrame);
  }

  /** What a message of a session is to be reported as. */
  predicate Says(env: Env, rikey: Key, messageType: u16, payload: seq<byte>, note: Note) {
    match FromTypeAndPayload(messageType, payload)
    case Ok(InputData(event)) =>
      (match InputEvents.Decode(env.keymap, event) case Event(e) => note == Input(rikey, e) case _ => false)
    case Ok(RequestIdrFrame) => note == RequestIdr(rikey)
    case Ok(LossStats(frame)) => note == LossReport(rikey, frame)
    case _ => false
  }

  /** What the server tells the handler when a matched peer sends `inner` wrapped under its key. */
  lemma WrappedIsHandled(env: Env, h: Host, snap: map<Key, u64>, i: nat, sequenceNumber: u32, messageType: u16,
                         payload: seq<byte>, trailing: seq<byte>, choice: Option<Key>, now: nat, note: Note)
    requires Lawful(env.gcm) && i < |h.slots| && h.slots[i].Matched? && |payload| < 0xFF00
    requires Says(env, h.slots[i].rikey, messageType, payload, note)
    ensures var data := Wrap(env.gcm, h.slots[i].rikey, sequenceNumber, PlainMessage(messageType, payload)) + trailing;
            Serve(env, h, snap, Receive(i, data), choice, now)
            == Served(h.(calls := h.calls + [Call(h.slots[i].conn, note)]), false)
  {
    hide Parse, Wrap, FromTypeAndPayload, InputEvents.Decode;
    PlainParts(messageType, payload);
    ParseWrapped(env.gcm, h.slots[i].rikey, sequenceNumber, PlainMessage(messageType, payload), trailing);
  }

  /**
   Every mouse, touch and gamepad event a matched client sends reaches the handler once, unchanged,
   under that client's key, whatever trails on the wire.
   */
  lemma EventsArrive(env: Env, h: Host, snap: map<Key, u64>, i: nat, sequenceNumber: u32, e: InputEvents.InputEvent,
                     junk: seq<byte>, gen5: bool, trailing: seq<byte>, choice: Option<Key>, now: nat)
    requires Lawful(env.gcm) && i < |h.slots| && h.slots[i].Matched? && InputEvents.Encodable(e) && |junk| == 28
    ensures var inner := PlainMessage(INPUT_DATA, InputPayload(InputEvents.Encode(e, junk, gen5)));
            var data := Wrap(env.gcm, h.slots[i].rikey, sequenceNumber, inner) + trailing;
            Serve(env, h, snap, Receive(i, data), choice, now)
            == Served(h.(calls := h.calls + [Call(h.slots[i].conn, Input(h.slots[i].rikey, e))]), false)
  {
    hide InputEvents.Encode, InputEvents.Decode, FromTypeAndPayload, Serve, Wrap, PlainMessage;
    var event := InputEvents.Encode(e, junk, gen5);
    InputParses(event);
    InputEvents.DecodeInvertsEncode(env.keymap, e, junk, gen5, []);
    assert event + [] == event;
    WrappedIsHandled(env, h, snap, i, sequenceNumber, INPUT_DATA, InputPayload(event), trailing, choice, now,
                     Input(h.slots[i].rikey, e));
  }

  /** Keyframe requests, of either type, and loss reports arrive likewise. */
  lemma RequestsArrive(env: Env, h: Host, snap: map<Key, u64>, i: nat, sequenceNumber: u32, payload: seq<byte>,
                       frame: u64, junk: seq<byte>, trailing: seq<byte>, choice: Option<Key>, now: nat)
    requires Lawful(env.gcm) && i < |h.slots| && h.slots[i].Matched? && |payload| < 0xFF00 && |junk| == 24
    ensures forall t :: t == REQUEST_IDR_FRAME || t == INVALIDATE_REFERENCE_FRAMES ==>
              var data := Wrap(env.gcm, h.slots[i].rikey, sequenceNumber, PlainMessage(t, payload)) + trailing;
              Serve(env, h, snap, Receive(i, data), choice, now)
              == Served(h.(calls := h.calls + [Call(h.slots[i].conn, RequestIdr(h.slots[i].rikey))]), false)
    ensures var data := Wrap(env.gcm, h.slots[i].rikey, sequenceNumber, PlainMessage(LOSS_STATS, LossPayload(frame, junk))) + trailing;
            Serve(env, h, snap, Receive(i, data), choice, now)
            == Served(h.(calls := h.calls + [Call(h.slots[i].conn, LossReport(h.slots[i].rikey, frame))]), false)
  {
    hide Serve, Wrap, PlainMessage;
    var rikey := h.slots[i].rikey;
    WrappedIsHandled(env, h, snap, i, sequenceNumber, REQUEST_IDR_FRAME, payload, trailing, choice, now, RequestIdr(rikey));
    WrappedIsHandled(env, h, snap, i, sequenceNumber, INVALIDATE_REFERENCE_FRAMES, payload, trailing, choice, now, RequestIdr(rikey));
    LossParses(frame, junk);
    WrappedIsHandled(env, h, snap, i, sequenceNumber, LOSS_STATS, LossPayload(frame, junk), trailing, choice, now, LossReport(rikey, frame));
  }
}
