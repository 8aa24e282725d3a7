/**
 The client manager: the five-step pairing handshake and the settings of pending and paired devices.
 Hashing, signing and certificates are parameters under laws; random draws and peer addresses are
 arguments of the calls. Every call holds its locks throughout, so a run is a sequence of calls.
 */
module Pairing {
  import opened Bytes
  import opened Crypto
  import opened PairedStore
  import opened Resolution

  type Cert = string
  type PrivateKey = string

  /** What SHA-256 gives: always 32 bytes. */
  type Digest = d: seq<byte> | |d| == 32 witness seq(32, i => 0)

  datatype Suite = Suite(
    cipher: BlockCipher,
    sha256: seq<byte> -> Digest,
    certSignature: Cert -> Option<seq<byte>>,
    fingerprint: Cert -> Option<string>,
    sign: (seq<byte>, PrivateKey) -> Option<seq<byte>>,
    verify: (seq<byte>, seq<byte>, Cert) -> bool)

  ghost predicate SuiteLawful(s: Suite) { Lawful(s.cipher) }

  /** A well-formed certificate and the private key that belongs to it. */
  ghost predicate Identity(s: Suite, cert: Cert, key: PrivateKey) {
    && s.certSignature(cert).Some? && s.fingerprint(cert).Some?
    && forall d :: s.sign(d, key).Some? && s.verify(d, s.sign(d, key).value, cert)
  }

  /** The laws can be met, together with an identity. */
  lemma LawsAreConsistent() returns (s: Suite, cert: Cert, key: PrivateKey)
    ensures SuiteLawful(s) && Identity(s, cert, key)
  {
    var zeros: Digest := seq(32, i => 0);
    s := Suite(BlockCipher((k, b) => b, (k, b) => b), d => zeros, c => Some([]), c => Some(c),
               (d, k) => Some(d), (d, signature, c) => signature == d);
    cert, key := "", "";
  }

  /** The suite, and the server's own certificate and key. */
  datatype Server = Server(suite: Suite, cert: Cert, key: PrivateKey)

  datatype Pending = Pending(
    cert: Cert, salt: Block, key: Option<Block>,
    serverSecret: Option<Block>, serverChallenge: Option<Block>, clientHash: Option<seq<byte>>,
    scale: Option<real>, scaleByResolution: map<string, real>, name: Option<string>)

  datatype Manager = Manager(pending: map<string, Pending>, state: Store, disk: File)

  datatype PairError =
    | NoPendingClient | NoKey | BadLength(length: nat) | BadCert | NoServerSecret | CannotSign
    | SecretTooShort | NoClientHash | NoServerChallenge | HashMismatch | BadSignature
    | Unresolved(error: ResolveError)

  datatype Reply = Done | Data(bytes: seq<byte>) | Refused(error: PairError)

  datatype Call =
    | StartPairing(id: string, cert: Cert, salt: Block)
    | SubmitPin(id: string, pin: seq<byte>)
    | ClientChallenge(id: string, challenge: seq<byte>, drawnSecret: Block, drawnChallenge: Block)
    | ChallengeResponse(id: string, response: seq<byte>)
    | CheckSecret(id: string, secret: seq<byte>, ip: string)
    | SetScalePending(id: string, scale: real, resolution: Option<Size>)
    | SetNamePending(id: string, name: string)
    | SetScalePaired(fingerprint: string, scale: real, resolution: Option<Size>)
    | SetNamePaired(fingerprint: string, name: string)
    | NoteSeen(fingerprint: string, ip: string, width: u32, height: u32)
    | Restart

  /** The first 16 bytes of the hash of salt and PIN. */
  function DeriveKey(s: Suite, salt: Block, pin: seq<byte>): Block { s.sha256(salt + pin)[..16] }

  function Persisted(m: Manager, state: Store): Manager { m.(state := state, disk := Encoded(state)) }

  /** A manager constructed over a file: whatever was loaded is written back at once. */
  function Opened(disk: File, order: seq<string>): Manager
    requires NeedsOrder(disk) ==> forall k <- order :: k in disk.legacy.value
  {
    var state := Load(disk, order);
    Manager(map[], state, Encoded(state))
  }

  function WithPending(m: Manager, id: string, p: Pending): Manager { m.(pending := m.pending[id := p]) }

  // The handshake, on the pending record alone.

  datatype Outcome = Outcome(p: Pending, reply: Reply)

  function AnswerChallenge(s: Server, p: Pending, challenge: seq<byte>, secret: Block, drawn: Block): Outcome {
    if p.key.None? then Outcome(p, Refused(NoKey)) else
      match EcbDecrypted(s.suite.cipher, challenge, p.key.value)
      case Err(_) => Outcome(p, Refused(BadLength(|challenge|)))
      case Ok(clientChallenge) =>
        var q := p.(serverSecret := Some(secret), serverChallenge := Some(drawn));
        match s.suite.certSignature(s.cert)
        case None => Outcome(q, Refused(BadCert))
        case Some(signature) =>
          var plain := s.suite.sha256(clientChallenge + signature + secret) + drawn;
          match EcbEncrypted(s.suite.cipher, plain, p.key.value)
          case Err(_) => Outcome(q, Refused(BadLength(|plain|)))
          case Ok(response) => Outcome(q, Data(response))
  }

  function AnswerResponse(s: Server, p: Pending, response: seq<byte>): Outcome {
    if p.key.None? then Outcome(p, Refused(NoKey)) else
      match EcbDecrypted(s.suite.cipher, response, p.key.value)
      case Err(_) => Outcome(p, Refused(BadLength(|response|)))
      case Ok(hash) =>
        var q := p.(clientHash := Some(hash));
        if q.serverSecret.None? then Outcome(q, Refused(NoServerSecret)) else
          match s.suite.sign(q.serverSecret.value, s.key)
          case None => Outcome(q, Refused(CannotSign))
          case Some(signature) => Outcome(q, Data(q.serverSecret.value + signature))
  }

  /** The fingerprint that the last step pairs, if it accepts. */
  function Verified(s: Server, p: Pending, secret: seq<byte>): Result<string, PairError> {
    if |secret| < 16 then Err(SecretTooShort)
    else if p.clientHash.None? then Err(NoClientHash)
    else if p.serverChallenge.None? then Err(NoServerChallenge)
    else
      match s.suite.certSignature(p.cert)
      case None => Err(BadCert)
      case Some(signature) =>
        if s.suite.sha256(p.serverChallenge.value + signature + secret[..16]) != p.clientHash.value
        then Err(HashMismatch)
        else if !s.suite.verify(secret[..16], secret[16..], p.cert) then Err(BadSignature)
        else
          match s.suite.fingerprint(p.cert)
          case None => Err(BadCert)
          case Some(fingerprint) => Ok(fingerprint)
  }

  function NewRecord(p: Pending, ip: string): Paired {
    Paired(p.scale, p.scaleByResolution, p.name, Some(ip), None, {})
  }

  function ScaledPending(p: Pending, scale: real, resolution: Option<Size>): Pending {
    match resolution
    case Some((w, h)) => p.(scaleByResolution := p.scaleByResolution[ResolutionKey(w, h) := scale])
    case None => p.(scale := Some(scale))
  }

  function ScaledPaired(e: Paired, scale: real, resolution: Option<Size>): Paired {
    match resolution
    case Some((w, h)) => e.(scaleByResolution := e.scaleByResolution[ResolutionKey(w, h) := scale])
    case None => e.(scale := Some(scale))
  }

  function Seen(e: Paired, ip: string, width: u32, height: u32): Paired {
    var r := ResolutionKey(width, height);
    e.(lastSeenIp := Some(ip), seenResolutions := e.seenResolutions + {r}, lastSeenResolution := Some(r))
  }

  /** Updates the record a fingerprint or prefix resolves to. */
  ghost function UpdatePaired(m: Manager, prefix: string, update: Paired -> Paired): (Manager, Reply) {
    ResolveExactly(m.state.Keys, prefix);
    match Resolve(m.state.Keys, prefix)
    case Err(e) => (m, Refused(Unresolved(e)))
    case Ok(key) => (Persisted(m, m.state[key := update(m.state[key])]), Done)
  }

  /** One call. A restart reads back what the manager itself wrote, so no order of iteration matters. */
  ghost function Perform(s: Server, m: Manager, c: Call): (Manager, Reply) {
    match c
    case StartPairing(id, cert, salt) =>
      (WithPending(m, id, Pending(cert, salt, None, None, None, None, None, map[], None)), Done)
    case SetScalePaired(fingerprint, scale, resolution) =>
      UpdatePaired(m, fingerprint, e => ScaledPaired(e, scale, resolution))
    case SetNamePaired(fingerprint, name) =>
      UpdatePaired(m, fingerprint, (e: Paired) => e.(name := Some(name)))
    case NoteSeen(fingerprint, ip, width, height) =>
      if fingerprint !in m.state then (m, Done)
      else (Persisted(m, m.state[fingerprint := Seen(m.state[fingerprint], ip, width, height)]), Done)
    case Restart => (Opened(m.disk, []), Done)
    case _ =>
      if c.id !in m.pending then (m, Refused(NoPendingClient)) else
        var p := m.pending[c.id];
        match c
        case SubmitPin(id, pin) =>
          (WithPending(m, id, p.(key := Some(DeriveKey(s.suite, p.salt, pin)))), Done)
        case ClientChallenge(id, challenge, secret, drawn) =>
          var o := AnswerChallenge(s, p, challenge, secret, drawn);
          (WithPending(m, id, o.p), o.reply)
        case ChallengeResponse(id, response) =>
          var o := AnswerResponse(s, p, response);
          (WithPending(m, id, o.p), o.reply)
        case CheckSecret(id, secret, ip) =>
          (match Verified(s, p, secret)
           case Err(e) => (m, Refused(e))
           case Ok(fingerprint) => (Persisted(m, m.state[fingerprint := NewRecord(p, ip)]), Done))
        case SetScalePending(id, scale, resolution) => (WithPending(m, id, ScaledPending(p, scale, resolution)), Done)
        case SetNamePending(id, name) => (WithPending(m, id, p.(name := Some(name))), Done)
  }
}
