/**
 The control channel's wire format: typed messages, an encrypted wrapper around them, and the input
 events inside. AES-GCM and the keyboard table are parameters.
 */
module ControlWire {
  import opened Bytes

  type Key = k: seq<byte> | |k| == 16 witness seq(16, i => 0)

  /** `seal` gives ciphertext and tag; `open` gives the plaintext when the tag verifies. */
  datatype Gcm = Gcm(
    seal: (seq<byte>, Key, seq<byte>) -> (seq<byte>, seq<byte>),
    open: (seq<byte>, Key, seq<byte>, seq<byte>) -> Option<seq<byte>>)

  /** Opening inverts sealing; ciphertexts are as long as plaintexts and tags 16 bytes. */
  ghost predicate Lawful(g: Gcm) {
    forall p, k, iv ::
      var s := g.seal(p, k, iv);
      |s.0| == |p| && |s.1| == 16 && g.open(s.0, k, iv, s.1) == Some(p)
  }

  predicate Opens(g: Gcm, ciphertext: seq<byte>, key: Key, iv: seq<byte>, tag: seq<byte>) {
    g.open(ciphertext, key, iv, tag).Some?
  }

  /** No message authenticates under two keys. */
  ghost predicate SingleKey(g: Gcm) {
    forall c: seq<byte>, k: Key, l: Key, iv: seq<byte>, t: seq<byte> ::
      Opens(g, c, k, iv, t) && Opens(g, c, l, iv, t) ==> k == l
  }

  const ENCRYPTED: u16 := 0x0001
  const LOSS_STATS: u16 := 0x0201
  const INPUT_DATA: u16 := 0x0206
  const INVALIDATE_REFERENCE_FRAMES: u16 := 0x0301
  const REQUEST_IDR_FRAME: u16 := 0x0302

  datatype ControlMessage =
    | InputData(payload: seq<byte>)
    | RequestIdrFrame
    | LossStats(lastGoodFrame: u64)
    | Other

  datatype ParseError =
    | TooShort
    | LengthMismatch
    | WrapperTooShort
    | NotAuthentic
    | InnerTooShort
    | InputTooShort
    | EventLengthMismatch
    | LossStatsTooShort

  function FromTypeAndPayload(messageType: u16, payload: seq<byte>): Result<ControlMessage, ParseError> {
    if messageType == INPUT_DATA then
      if |payload| < 4 then Err(InputTooShort) else
        var eventLength := FromBe32(payload[..4]);
        if eventLength > |payload| - 4 then Err(EventLengthMismatch)
        else Ok(InputData(payload[4..4 + eventLength]))
    else if messageType == REQUEST_IDR_FRAME || messageType == INVALIDATE_REFERENCE_FRAMES then
      Ok(RequestIdrFrame)
    else if messageType == LOSS_STATS then
      if |payload| < 20 then Err(LossStatsTooShort) else Ok(LossStats(FromLe64(payload[12..20])))
    else
      Ok(Other)
  }

  /** The initialisation vector of a serverbound message. */
  function ServerboundIv(sequenceNumber: u32): seq<byte> {
    Le32(sequenceNumber) + [0, 0, 0, 0, 0, 0, 0x43, 0x43]
  }

  function DecryptWrapper(g: Gcm, payload: seq<byte>, key: Key): Result<seq<byte>, ParseError> {
    if |payload| < 24 then Err(WrapperTooShort) else
      match g.open(payload[20..], key, ServerboundIv(FromLe32(payload[..4])), payload[4..20])
      case Some(plain) => Ok(plain)
      case None => Err(NotAuthentic)
  }

  function Parse(g: Gcm, buffer: seq<byte>, key: Key): Result<ControlMessage, ParseError> {
    if |buffer| < 4 then Err(TooShort) else
      var length := FromLe16(buffer[2..4]);
      if length > |buffer| - 4 then Err(LengthMismatch) else
        var payload := buffer[4..4 + length];
        if FromLe16(buffer[..2]) != ENCRYPTED then FromTypeAndPayload(FromLe16(buffer[..2]), payload) else
          match DecryptWrapper(g, payload, key)
          case Err(e) => Err(e)
          case Ok(inner) =>
            if |inner| < 4 then Err(InnerTooShort)
            else FromTypeAndPayload(FromLe16(inner[..2]), inner[4..])
  }

  predicate IsEncryptedMessage(buffer: seq<byte>) {
    |buffer| >= 4 && FromLe16(buffer[..2]) == ENCRYPTED
  }

  // What the bytes mean, number by number.

  /** The sequence number, least significant byte first, six zeros and twice the letter C. */
  lemma ServerboundIvBytes(sequenceNumber: u32)
    ensures var iv := ServerboundIv(sequenceNumber);
            && |iv| == 12 && iv[4..] == [0, 0, 0, 0, 0, 0, 0x43, 0x43]
            && iv[0] + (iv[1] as int) * 0x100 + (iv[2] as int) * 0x1_0000 + (iv[3] as int) * 0x100_0000 == sequenceNumber
  {
    assert ServerboundIv(sequenceNumber)[..4] == Le32(sequenceNumber);
    LittleEndian(Le32(sequenceNumber));
  }

  /** Every message type: input, the two keyframe requests, loss statistics; all others mean nothing. */
  lemma MessageTypes(messageType: u16, payload: seq<byte>)
    ensures messageType == 0x0206 && |payload| < 4 ==> FromTypeAndPayload(messageType, payload) == Err(InputTooShort)
    ensures messageType == 0x0206 && |payload| >= 4 ==>
              var n := (payload[0] as int) * 0x100_0000 + (payload[1] as int) * 0x1_0000 + (payload[2] as int) * 0x100 + payload[3];
              FromTypeAndPayload(messageType, payload)
              == if n > |payload| - 4 then Err(EventLengthMismatch) else Ok(InputData(payload[4..4 + n]))
    ensures messageType == 0x0301 || messageType == 0x0302 ==> FromTypeAndPayload(messageType, payload) == Ok(RequestIdrFrame)
    ensures messageType == 0x0201 ==>
              FromTypeAndPayload(messageType, payload)
              == if |payload| < 20 then Err(LossStatsTooShort)
                 else Ok(LossStats(FromLe32(payload[12..16]) + FromLe32(payload[16..20]) * 0x1_0000_0000))
    ensures messageType !in [0x0201, 0x0206, 0x0301, 0x0302] ==> FromTypeAndPayload(messageType, payload) == Ok(Other)
  {
    if |payload| >= 4 {
      BigEndian(payload[..4]);
    }
    if |payload| >= 20 {
      LittleEndian(payload[12..20]);
      assert payload[12..20][..4] == payload[12..16] && payload[12..20][4..] == payload[16..20];
    }
  }

  /** A plain message is read by its type and exactly as many bytes as its length field says. */
  lemma ParsePlain(g: Gcm, buffer: seq<byte>, key: Key)
    requires |buffer| >= 4
    ensures var messageType, length := buffer[0] + (buffer[1] as int) * 0x100, buffer[2] + (buffer[3] as int) * 0x100;
            && (length > |buffer| - 4 ==> Parse(g, buffer, key) == Err(LengthMismatch))
            && (length <= |buffer| - 4 && messageType != 0x0001 ==>
                  Parse(g, buffer, key) == FromTypeAndPayload(messageType, buffer[4..4 + length]))
            && (IsEncryptedMessage(buffer) <==> messageType == 0x0001)
  {
    hide FromTypeAndPayload, DecryptWrapper;
    LittleEndian(buffer[..2]);
    LittleEndian(buffer[2..4]);
  }

  /** An encrypted message that does not authenticate is refused, with the parts taken from their places. */
  lemma UnauthenticIsRefused(g: Gcm, payload: seq<byte>, key: Key)
    ensures |payload| < 24 ==> DecryptWrapper(g, payload, key) == Err(WrapperTooShort)
    ensures |payload| >= 24 ==>
              DecryptWrapper(g, payload, key)
              == match g.open(payload[20..], key, payload[..4] + [0, 0, 0, 0, 0, 0, 0x43, 0x43], payload[4..20])
                 case Some(plain) => Ok(plain)
                 case None => Err(NotAuthentic)
  {
    if |payload| >= 24 { LeOnto(payload[..4]); Ranges(); }
  }

  // The wrapper, against the plain message inside it.

  /** What a client sends to wrap `inner` under `key`. */
  function Wrap(g: Gcm, key: Key, sequenceNumber: u32, inner: seq<byte>): seq<byte>
    requires Lawful(g) && |inner| + 20 < 0x1_0000
  {
    var (ciphertext, tag) := g.seal(inner, key, ServerboundIv(sequenceNumber));
    Le16(ENCRYPTED) + Le16(20 + |ciphertext|) + Le32(sequenceNumber) + tag + ciphertext
  }

  /** How many payload bytes a message of this type makes the parser look at. */
  function Reach(messageType: u16, payload: seq<byte>): nat {
    if messageType == INPUT_DATA then if |payload| < 4 then 4 else 4 + FromBe32(payload[..4])
    else if messageType == LOSS_STATS then 20
    else 0
  }

  lemma ReachDecides(messageType: u16, payload: seq<byte>, length: nat)
    requires length <= |payload|
    ensures FromTypeAndPayload(messageType, payload).Ok? <==> Reach(messageType, payload) <= |payload|
    ensures Reach(messageType, payload) <= length
            ==> FromTypeAndPayload(messageType, payload[..length]) == FromTypeAndPayload(messageType, payload)
    ensures Reach(messageType, payload) > length ==> FromTypeAndPayload(messageType, payload[..length]).Err?
  {
    if length >= 4 { assert payload[..length][..4] == payload[..4]; }
    if length >= 20 { assert payload[..length][12..20] == payload[12..20]; }
    if messageType == INPUT_DATA && Reach(messageType, payload) <= length {
      var n := FromBe32(payload[..4]);
      assert payload[..length][4..4 + n] == payload[4..4 + n];
    }
  }

  /** Parsing a wrapped message parses the whole of what was wrapped, whatever follows on the wire. */
  lemma ParseWrapped(g: Gcm, key: Key, sequenceNumber: u32, inner: seq<byte>, trailing: seq<byte>)
    requires Lawful(g) && 4 <= |inner| && |inner| + 20 < 0x1_0000
    ensures Parse(g, Wrap(g, key, sequenceNumber, inner) + trailing, key)
         == FromTypeAndPayload(FromLe16(inner[..2]), inner[4..])
  {
    var (c, t) := g.seal(inner, key, ServerboundIv(sequenceNumber));
    var payload := Le32(sequenceNumber) + t + c;
    var buffer := Wrap(g, key, sequenceNumber, inner) + trailing;
    assert buffer[..2] == Le16(ENCRYPTED) && buffer[2..4] == Le16(20 + |c|);
    assert buffer[4..4 + (20 + |c|)] == payload;
    assert payload[..4] == Le32(sequenceNumber) && payload[4..20] == t && payload[20..] == c;
  }

  predicate SameOutcome(a: Result<ControlMessage, ParseError>, b: Result<ControlMessage, ParseError>) {
    a == b || (a.Err? && b.Err?)
  }

  /**
   When the wrapper is transparent, exactly. The wrapped message means what the plain one means if
   and only if its length field, which only the plain path reads, covers what the type's parser
   looks at without overrunning the message, or the payload is too short for either path. So a
   message with an exact length field always qualifies.
   */
  lemma WrapperTransparent(g: Gcm, key: Key, sequenceNumber: u32, inner: seq<byte>, trailing: seq<byte>)
    requires Lawful(g) && 4 <= |inner| && |inner| + 20 < 0x1_0000 && FromLe16(inner[..2]) != ENCRYPTED
    ensures var reach, length, n := Reach(FromLe16(inner[..2]), inner[4..]), FromLe16(inner[2..4]), |inner| - 4;
            && (SameOutcome(Parse(g, Wrap(g, key, sequenceNumber, inner) + trailing, key), Parse(g, inner, key))
                <==> reach > n || reach <= length <= n)
            && (length == n ==> Parse(g, Wrap(g, key, sequenceNumber, inner) + trailing, key) == Parse(g, inner, key))
  {
    ParseWrapped(g, key, sequenceNumber, inner, trailing);
    var length, payload := FromLe16(inner[2..4]), inner[4..];
    ReachDecides(FromLe16(inner[..2]), payload, |payload|);
    if length <= |payload| {
      ReachDecides(FromLe16(inner[..2]), payload, length);
      assert inner[4..4 + length] == payload[..length];
      if length == |payload| { assert payload[..length] == payload; }
    }
  }

  lemma OneKey(g: Gcm, ciphertext: seq<byte>, k: Key, l: Key, iv: seq<byte>, tag: seq<byte>)
    requires SingleKey(g) && Opens(g, ciphertext, k, iv, tag) && Opens(g, ciphertext, l, iv, tag)
    ensures k == l
  {}

  lemma Authenticated(g: Gcm, payload: seq<byte>, key: Key)
    ensures DecryptWrapper(g, payload, key).Ok?
            ==> |payload| >= 24 && Opens(g, payload[20..], key, ServerboundIv(FromLe32(payload[..4])), payload[4..20])
  {}

  /**
   Why only encrypted messages can identify a session: any other message parses the same under
   every key, while an encrypted one parses under at most one.
   */
  lemma KeysThatParse(g: Gcm, buffer: seq<byte>, k: Key, l: Key)
    requires SingleKey(g)
    ensures !IsEncryptedMessage(buffer) ==> Parse(g, buffer, k) == Parse(g, buffer, l)
    ensures IsEncryptedMessage(buffer) && Parse(g, buffer, k).Ok? && Parse(g, buffer, l).Ok? ==> k == l
  {
    if IsEncryptedMessage(buffer) && Parse(g, buffer, k).Ok? && Parse(g, buffer, l).Ok? {
      var payload := buffer[4..4 + FromLe16(buffer[2..4])];
      Authenticated(g, payload, k);
      Authenticated(g, payload, l);
      OneKey(g, payload[20..], k, l, ServerboundIv(FromLe32(payload[..4])), payload[4..20]);
    }
  }

  /** The laws can be met: a cipher that writes the key into the tag. */
  lemma LawsAreConsistent() returns (g: Gcm)
    ensures Lawful(g) && SingleKey(g)
  {
    g := Gcm((p, k, iv) => (p, k), (c, k, iv, t) => if t == k then Some(c) else None);
  }
}
