/** An honest client's side of the handshake, and what the two sides together achieve. */
module PairingClient {
  import opened Bytes
  import opened Crypto
  import opened PairedStore
  import opened Pairing
  import opened PairingRuns

  datatype Client = Client(
    id: string, cert: Cert, privateKey: PrivateKey, salt: Block, pin: seq<byte>, challenge: Block, payload: Block)

  /** The client's own derivation: the first 16 bytes of its hash over salt and PIN. */
  function SharedKey(s: Suite, c: Client): Block { s.sha256(c.salt + c.pin)[..16] }

  function Encrypt(s: Suite, c: Client, data: seq<byte>): seq<byte> {
    match EcbEncrypted(s.cipher, data, SharedKey(s, c)) case Ok(bytes) => bytes case Err(_) => []
  }

  function Decrypt(s: Suite, c: Client, data: seq<byte>): seq<byte> {
    match EcbDecrypted(s.cipher, data, SharedKey(s, c)) case Ok(bytes) => bytes case Err(_) => []
  }

  function SignatureOf(s: Suite, cert: Cert): seq<byte> {
    match s.certSignature(cert) case Some(bytes) => bytes case None => []
  }

  function FirstMessage(s: Suite, c: Client): seq<byte> { Encrypt(s, c, c.challenge) }

  /** The client's commitment, over the challenge it finds in the server's reply. */
  function Commitment(s: Suite, c: Client, reply: seq<byte>): seq<byte> {
    var plain := Decrypt(s, c, reply);
    if |plain| != 48 then [] else
      Encrypt(s, c, s.sha256(plain[32..] + SignatureOf(s, c.cert) + c.payload))
  }

  /** The client's check that the server knew the PIN and owns its certificate. */
  predicate Accepts(s: Suite, c: Client, serverCert: Cert, challengeReply: seq<byte>, pairingSecret: seq<byte>) {
    var plain := Decrypt(s, c, challengeReply);
    && |plain| == 48 && |pairingSecret| >= 16
    && s.verify(pairingSecret[..16], pairingSecret[16..], serverCert)
    && s.sha256(c.challenge + SignatureOf(s, serverCert) + pairingSecret[..16]) == plain[..32]
  }

  function LastMessage(s: Suite, c: Client): seq<byte> {
    c.payload + (match s.sign(c.payload, c.privateKey) case Some(bytes) => bytes case None => [])
  }

  ghost predicate AllUndisturbed(calls: seq<Call>, id: string) { forall c <- calls :: Undisturbed(c, id) }

  lemma {:induction false} OthersKeep(s: Server, m: Manager, calls: seq<Call>, id: string)
    requires id in m.pending && AllUndisturbed(calls, id)
    ensures id in After(s, m, calls).pending && SameHandshake(m.pending[id], After(s, m, calls).pending[id])
  {
    hide Perform, Undisturbed;
    if calls != [] {
      var n := |calls| - 1;
      assert calls[n] in calls;
      OthersKeep(s, m, calls[..n], id);
      PendingKept(s, After(s, m, calls[..n]), calls[n], id);
    }
  }

  /** A record that has been through the steps so far. */
  ghost predicate Ready(m: Manager, c: Client, key: Option<Block>, secret: Option<Block>, drawn: Option<Block>, hash: Option<seq<byte>>) {
    && c.id in m.pending
    && var p := m.pending[c.id];
       p.cert == c.cert && p.salt == c.salt && p.key == key
       && p.serverSecret == secret && p.serverChallenge == drawn && p.clientHash == hash
  }

  lemma Waits(s: Server, m: Manager, c: Client, key: Option<Block>, secret: Option<Block>, drawn: Option<Block>,
              hash: Option<seq<byte>>, others: seq<Call>)
    requires Ready(m, c, key, secret, drawn, hash) && AllUndisturbed(others, c.id)
    ensures Ready(After(s, m, others), c, key, secret, drawn, hash)
  {
    hide After, AllUndisturbed;
    OthersKeep(s, m, others, c.id);
  }

  lemma EncryptDecrypt(s: Suite, c: Client, data: seq<byte>)
    requires SuiteLawful(s) && |data| % 16 == 0
    ensures EcbDecrypted(s.cipher, Encrypt(s, c, data), SharedKey(s, c)) == Ok(data)
    ensures Decrypt(s, c, Encrypt(s, c, data)) == data
  {
    hide EcbEncrypted, EcbDecrypted;
    EcbRoundTrip(s.cipher, data, SharedKey(s, c));
  }

  /** Step 2: the reply carries the hash the client will check and the challenge drawn. */
  lemma ChallengeStep(s: Server, m: Manager, c: Client, secret: Block, drawn: Block)
    requires SuiteLawful(s.suite) && s.suite.certSignature(s.cert).Some?
    requires Ready(m, c, Some(SharedKey(s.suite, c)), None, None, None)
    ensures var (n, reply) := Perform(s, m, ClientChallenge(c.id, FirstMessage(s.suite, c), secret, drawn));
            && Ready(n, c, Some(SharedKey(s.suite, c)), Some(secret), Some(drawn), None)
            && reply.Data?
            && Decrypt(s.suite, c, reply.bytes)
               == s.suite.sha256(c.challenge + SignatureOf(s.suite, s.cert) + secret) + drawn
  {
    hide MapBlocks;
    EncryptDecrypt(s.suite, c, c.challenge);
    EncryptDecrypt(s.suite, c, s.suite.sha256(c.challenge + SignatureOf(s.suite, s.cert) + secret) + drawn);
  }

  /** Step 3: the commitment is stored and the signed secret comes back. */
  lemma ResponseStep(s: Server, m: Manager, c: Client, secret: Block, drawn: Block, hash: seq<byte>)
    requires SuiteLawful(s.suite) && Identity(s.suite, s.cert, s.key) && |hash| == 32
    requires Ready(m, c, Some(SharedKey(s.suite, c)), Some(secret), Some(drawn), None)
    ensures var (n, reply) := Perform(s, m, ChallengeResponse(c.id, Encrypt(s.suite, c, hash)));
            && Ready(n, c, Some(SharedKey(s.suite, c)), Some(secret), Some(drawn), Some(hash))
            && reply == Data(secret + s.suite.sign(secret, s.key).value)
  {
    hide EcbEncrypted, EcbDecrypted;
    EncryptDecrypt(s.suite, c, hash);
  }

  /** Step 5: the revealed secret matches the commitment and its signature verifies. */
  lemma SecretStep(s: Server, m: Manager, c: Client, secret: Block, drawn: Block, ip: string)
    requires SuiteLawful(s.suite) && Identity(s.suite, c.cert, c.privateKey)
    requires Ready(m, c, Some(SharedKey(s.suite, c)), Some(secret), Some(drawn),
                   Some(s.suite.sha256(drawn + SignatureOf(s.suite, c.cert) + c.payload)))
    ensures var (n, reply) := Perform(s, m, CheckSecret(c.id, LastMessage(s.suite, c), ip));
            reply == Done && s.suite.fingerprint(c.cert).value in n.state
  {
    var signature := s.suite.sign(c.payload, c.privateKey).value;
    assert LastMessage(s.suite, c)[..16] == c.payload && LastMessage(s.suite, c)[16..] == signature;
  }

  lemma FirstHalf(s: Server, m: Manager, c: Client, secret: Block, drawn: Block, g1: seq<Call>, g2: seq<Call>)
    requires SuiteLawful(s.suite) && Identity(s.suite, s.cert, s.key)
    requires AllUndisturbed(g1, c.id) && AllUndisturbed(g2, c.id)
    ensures var m1 := After(s, Perform(s, m, StartPairing(c.id, c.cert, c.salt)).0, g1);
            var m2 := After(s, Perform(s, m1, SubmitPin(c.id, c.pin)).0, g2);
            var (n2, first) := Perform(s, m2, ClientChallenge(c.id, FirstMessage(s.suite, c), secret, drawn));
            && Ready(n2, c, Some(SharedKey(s.suite, c)), Some(secret), Some(drawn), None)
            && first.Data?
            && Decrypt(s.suite, c, first.bytes)
               == s.suite.sha256(c.challenge + SignatureOf(s.suite, s.cert) + secret) + drawn
  {
    hide After, AllUndisturbed, AnswerChallenge, AnswerResponse, Verified, UpdatePaired, Decrypt, FirstMessage;
    var m0 := Perform(s, m, StartPairing(c.id, c.cert, c.salt)).0;
    Waits(s, m0, c, None, None, None, None, g1);
    var m1 := After(s, m0, g1);
    var k1 := Perform(s, m1, SubmitPin(c.id, c.pin)).0;
    Waits(s, k1, c, Some(SharedKey(s.suite, c)), None, None, None, g2);
    ChallengeStep(s, After(s, k1, g2), c, secret, drawn);
  }

  lemma SecondHalf(s: Server, n2: Manager, c: Client, secret: Block, drawn: Block, first: seq<byte>, ip: string,
                   g3: seq<Call>, g4: seq<Call>)
    requires SuiteLawful(s.suite) && Identity(s.suite, s.cert, s.key) && Identity(s.suite, c.cert, c.privateKey)
    requires AllUndisturbed(g3, c.id) && AllUndisturbed(g4, c.id)
    requires Ready(n2, c, Some(SharedKey(s.suite, c)), Some(secret), Some(drawn), None)
    requires Decrypt(s.suite, c, first) == s.suite.sha256(c.challenge + SignatureOf(s.suite, s.cert) + secret) + drawn
    ensures var m3 := After(s, n2, g3);
            var (n3, second) := Perform(s, m3, ChallengeResponse(c.id, Commitment(s.suite, c, first)));
            second.Data? && Accepts(s.suite, c, s.cert, first, second.bytes) &&
            var m4 := After(s, n3, g4);
            var (n4, last) := Perform(s, m4, CheckSecret(c.id, LastMessage(s.suite, c), ip));
            last == Done && s.suite.fingerprint(c.cert).value in n4.state
  {
    hide Perform, DeriveKey, After, AllUndisturbed, Encrypt, Decrypt, LastMessage, Ready, SharedKey;
    var key := SharedKey(s.suite, c);
    Waits(s, n2, c, Some(key), Some(secret), Some(drawn), None, g3);
    var serverHash := s.suite.sha256(c.challenge + SignatureOf(s.suite, s.cert) + secret);
    assert (serverHash + drawn)[..32] == serverHash && (serverHash + drawn)[32..] == drawn;
    var hash := s.suite.sha256(drawn + SignatureOf(s.suite, c.cert) + c.payload);
    ResponseStep(s, After(s, n2, g3), c, secret, drawn, hash);
    var (n3, second) := Perform(s, After(s, n2, g3), ChallengeResponse(c.id, Commitment(s.suite, c, first)));
    var signature := s.suite.sign(secret, s.key).value;
    assert (secret + signature)[..16] == secret && (secret + signature)[16..] == signature;
    Waits(s, n3, c, Some(key), Some(secret), Some(drawn), Some(hash), g4);
    SecretStep(s, After(s, n3, g4), c, secret, drawn, ip);
  }

  /**
   Pairing is complete: for every PIN, salt and random draw, and whatever other clients and settings
   do in between, an honest client and this server end with the client's checks passed, the last
   step accepted and the client's fingerprint paired.
   */
  lemma HonestClientPairs(s: Server, m: Manager, c: Client, secret: Block, drawn: Block, ip: string,
                          g1: seq<Call>, g2: seq<Call>, g3: seq<Call>, g4: seq<Call>)
    requires SuiteLawful(s.suite) && Identity(s.suite, s.cert, s.key) && Identity(s.suite, c.cert, c.privateKey)
    requires AllUndisturbed(g1, c.id) && AllUndisturbed(g2, c.id) && AllUndisturbed(g3, c.id) && AllUndisturbed(g4, c.id)
    ensures var m1 := After(s, Perform(s, m, StartPairing(c.id, c.cert, c.salt)).0, g1);
            var m2 := After(s, Perform(s, m1, SubmitPin(c.id, c.pin)).0, g2);
            var (n2, first) := Perform(s, m2, ClientChallenge(c.id, FirstMessage(s.suite, c), secret, drawn));
            first.Data? &&
            var m3 := After(s, n2, g3);
            var (n3, second) := Perform(s, m3, ChallengeResponse(c.id, Commitment(s.suite, c, first.bytes)));
            second.Data? && Accepts(s.suite, c, s.cert, first.bytes, second.bytes) &&
            var m4 := After(s, n3, g4);
            var (n4, last) := Perform(s, m4, CheckSecret(c.id, LastMessage(s.suite, c), ip));
            last == Done && s.suite.fingerprint(c.cert).value in n4.state
  {
    hide Perform, DeriveKey, After, AllUndisturbed, Encrypt, Decrypt, LastMessage, Commitment, Accepts, Ready, SharedKey;
    FirstHalf(s, m, c, secret, drawn, g1, g2);
    var m1 := After(s, Perform(s, m, StartPairing(c.id, c.cert, c.salt)).0, g1);
    var m2 := After(s, Perform(s, m1, SubmitPin(c.id, c.pin)).0, g2);
    var (n2, first) := Perform(s, m2, ClientChallenge(c.id, FirstMessage(s.suite, c), secret, drawn));
    SecondHalf(s, n2, c, secret, drawn, first.bytes, ip, g3, g4);
  }

  /**
   A refused step 3 still counts, since the hash is stored first. Here the hash is sent before any
   challenge is drawn and is refused for that; the last step accepts it all the same, but only
   because the draw that follows is the very one guessed, which no client can arrange.
   */
  lemma RefusedStepStillCounts(s: Server, m: Manager, c: Client, secret: Block, drawn: Block, ip: string)
    requires SuiteLawful(s.suite) && Identity(s.suite, s.cert, s.key) && Identity(s.suite, c.cert, c.privateKey)
    ensures var hash := s.suite.sha256(drawn + SignatureOf(s.suite, c.cert) + c.payload);
            var m1 := Perform(s, m, StartPairing(c.id, c.cert, c.salt)).0;
            var m2 := Perform(s, m1, SubmitPin(c.id, c.pin)).0;
            var (m3, refused) := Perform(s, m2, ChallengeResponse(c.id, Encrypt(s.suite, c, hash)));
            var m4 := Perform(s, m3, ClientChallenge(c.id, FirstMessage(s.suite, c), secret, drawn)).0;
            refused == Refused(NoServerSecret)
            && Perform(s, m4, CheckSecret(c.id, LastMessage(s.suite, c), ip)).1 == Done
  {
    hide Encrypt, LastMessage, FirstMessage, MapBlocks, Verified;
    var hash := s.suite.sha256(drawn + SignatureOf(s.suite, c.cert) + c.payload);
    EncryptDecrypt(s.suite, c, hash);
    WholeBlock(s.suite, c);
    var m1 := Perform(s, m, StartPairing(c.id, c.cert, c.salt)).0;
    var m2 := Perform(s, m1, SubmitPin(c.id, c.pin)).0;
    var m3 := Perform(s, m2, ChallengeResponse(c.id, Encrypt(s.suite, c, hash))).0;
    var m4 := Perform(s, m3, ClientChallenge(c.id, FirstMessage(s.suite, c), secret, drawn)).0;
    assert Ready(m4, c, Some(SharedKey(s.suite, c)), Some(secret), Some(drawn), Some(hash));
    SecretStep(s, m4, c, secret, drawn, ip);
  }

  /**
   A run that a client can make on purpose: the server cannot sign, so step 3 of an otherwise honest
   handshake is refused, and step 5 pairs the client nevertheless.
   */
  lemma UnsignedStepStillCounts(s: Server, m: Manager, c: Client, secret: Block, drawn: Block, ip: string)
    requires SuiteLawful(s.suite) && s.suite.certSignature(s.cert).Some? && s.suite.sign(secret, s.key).None?
    requires Identity(s.suite, c.cert, c.privateKey)
    ensures var m1 := Perform(s, m, StartPairing(c.id, c.cert, c.salt)).0;
            var m2 := Perform(s, m1, SubmitPin(c.id, c.pin)).0;
            var (m3, first) := Perform(s, m2, ClientChallenge(c.id, FirstMessage(s.suite, c), secret, drawn));
            first.Data? &&
            var (m4, refused) := Perform(s, m3, ChallengeResponse(c.id, Commitment(s.suite, c, first.bytes)));
            var (m5, last) := Perform(s, m4, CheckSecret(c.id, LastMessage(s.suite, c), ip));
            refused == Refused(CannotSign) && last == Done && s.suite.fingerprint(c.cert).value in m5.state
  {
    hide Encrypt, Decrypt, LastMessage, FirstMessage, MapBlocks, Verified, AnswerChallenge, AnswerResponse, UpdatePaired;
    var m1 := Perform(s, m, StartPairing(c.id, c.cert, c.salt)).0;
    var m2 := Perform(s, m1, SubmitPin(c.id, c.pin)).0;
    ChallengeStep(s, m2, c, secret, drawn);
    var (m3, first) := Perform(s, m2, ClientChallenge(c.id, FirstMessage(s.suite, c), secret, drawn));
    var serverHash := s.suite.sha256(c.challenge + SignatureOf(s.suite, s.cert) + secret);
    assert (serverHash + drawn)[32..] == drawn;
    var hash := s.suite.sha256(drawn + SignatureOf(s.suite, c.cert) + c.payload);
    UnsignedResponseStep(s, m3, c, secret, drawn, hash);
    SecretStep(s, Perform(s, m3, ChallengeResponse(c.id, Commitment(s.suite, c, first.bytes))).0, c, secret, drawn, ip);
  }

  lemma UnsignedResponseStep(s: Server, m: Manager, c: Client, secret: Block, drawn: Block, hash: seq<byte>)
    requires SuiteLawful(s.suite) && s.suite.sign(secret, s.key).None? && |hash| == 32
    requires Ready(m, c, Some(SharedKey(s.suite, c)), Some(secret), Some(drawn), None)
    ensures var (n, reply) := Perform(s, m, ChallengeResponse(c.id, Encrypt(s.suite, c, hash)));
            Ready(n, c, Some(SharedKey(s.suite, c)), Some(secret), Some(drawn), Some(hash)) && reply == Refused(CannotSign)
  {
    hide EcbEncrypted, EcbDecrypted;
    EncryptDecrypt(s.suite, c, hash);
  }

  lemma WholeBlock(s: Suite, c: Client)
    ensures |FirstMessage(s, c)| % 16 == 0
  {
  }

  // A client that does not know the PIN.

  /** The key in force on the server, of the PIN that was submitted there. */
  function ServerKey(s: Suite, c: Client, submitted: seq<byte>): Block { s.sha256(c.salt + submitted)[..16] }

  /** The steps of a client up to its commitment, when some PIN was submitted for it. */
  ghost function Committed(s: Server, m: Manager, c: Client, submitted: seq<byte>, secret: Block, drawn: Block)
    : (Manager, seq<byte>)
  {
    var m1 := Perform(s, m, StartPairing(c.id, c.cert, c.salt)).0;
    var m2 := Perform(s, m1, SubmitPin(c.id, submitted)).0;
    var (m3, first) := Perform(s, m2, ClientChallenge(c.id, FirstMessage(s.suite, c), secret, drawn));
    var commitment := if first.Data? then Commitment(s.suite, c, first.bytes) else [];
    (Perform(s, m3, ChallengeResponse(c.id, commitment)).0, commitment)
  }

  /** A record after these steps: whatever the client's key, its commitment is read under the server's. */
  lemma CommittedRecord(s: Server, m: Manager, c: Client, submitted: seq<byte>, secret: Block, drawn: Block)
    requires s.suite.certSignature(s.cert).Some?
    ensures var (n, commitment) := Committed(s, m, c, submitted, secret, drawn);
            var hash := EcbDecrypted(s.suite.cipher, commitment, ServerKey(s.suite, c, submitted));
            && |commitment| == 32 && hash.Ok?
            && Ready(n, c, Some(ServerKey(s.suite, c, submitted)), Some(secret), Some(drawn), Some(hash.value))
  {
    hide MapBlocks;
    var m1 := Perform(s, m, StartPairing(c.id, c.cert, c.salt)).0;
    var m2 := Perform(s, m1, SubmitPin(c.id, submitted)).0;
    WholeBlock(s.suite, c);
    assert |FirstMessage(s.suite, c)| == 16;
    var first := Perform(s, m2, ClientChallenge(c.id, FirstMessage(s.suite, c), secret, drawn)).1;
    assert first.Data? && |first.bytes| == 48;
  }

  /**
   A client that follows the steps with a PIN of its own is accepted if and only if its commitment,
   encrypted under its key, decrypts under the submitted PIN's key to the hash the server expects.
   */
  lemma OtherPinExactly(s: Server, m: Manager, c: Client, submitted: seq<byte>, secret: Block, drawn: Block, ip: string)
    requires s.suite.certSignature(s.cert).Some? && Identity(s.suite, c.cert, c.privateKey)
    ensures var (n, commitment) := Committed(s, m, c, submitted, secret, drawn);
            var last := Perform(s, n, CheckSecret(c.id, LastMessage(s.suite, c), ip)).1;
            var expected := s.suite.sha256(drawn + SignatureOf(s.suite, c.cert) + c.payload);
            last == if EcbDecrypted(s.suite.cipher, commitment, s.suite.sha256(c.salt + submitted)[..16]) == Ok(expected)
                    then Done else Refused(HashMismatch)
  {
    hide Committed, EcbDecrypted, UpdatePaired, AnswerChallenge, AnswerResponse;
    CommittedRecord(s, m, c, submitted, secret, drawn);
    var signature := s.suite.sign(c.payload, c.privateKey).value;
    assert LastMessage(s.suite, c)[..16] == c.payload && LastMessage(s.suite, c)[16..] == signature;
  }

  function LastByte(b: seq<byte>): byte { if b == [] then 0 else b[|b| - 1] }

  function Bump(b: Block, amount: nat): Block { [((b[0] as int + amount) % 0x100) as byte] + b[1..] }

  /** A small lawful suite: the hash is the last byte, and the cipher adds the key's first byte. */
  function SmallSuite(): Suite {
    Suite(BlockCipher((k: seq<byte>, b: Block) => Bump(b, if k == [] then 0 else k[0]),
                      (k: seq<byte>, b: Block) => Bump(b, if k == [] then 0 else 0x100 - (k[0] as int))),
          (d: seq<byte>) => [LastByte(d)] + seq(31, i => 0), c => Some([]), c => Some(c), (d, k) => Some(d),
          (d, signature, c) => signature == d)
  }

  lemma BumpBack(b: Block, amount: byte)
    ensures Bump(Bump(b, amount), 0x100 - amount as int) == b
    ensures Bump(Bump(b, 0), 0) == b
  {
    var c := Bump(b, amount);
    assert c[1..] == b[1..] && b == [b[0]] + b[1..];
  }

  lemma SmallSuiteLawful()
    ensures SuiteLawful(SmallSuite()) && forall cert, key :: Identity(SmallSuite(), cert, key)
  {
    hide Bump;
    forall k: seq<byte>, b: Block ensures SmallSuite().cipher.dec(k, SmallSuite().cipher.enc(k, b)) == b {
      BumpBack(b, if k == [] then 0 else k[0]);
    }
  }

  /** Under it, a client with any PIN that ends differently from the submitted one is refused at step 5. */
  lemma OtherPinIsRefused(
    m: Manager, serverCert: Cert, c: Client, submitted: seq<byte>, secret: Block, drawn: Block, ip: string)
    requires submitted != [] && c.pin != [] && LastByte(submitted) != LastByte(c.pin)
    ensures var s := Server(SmallSuite(), serverCert, "");
            Perform(s, Committed(s, m, c, submitted, secret, drawn).0, CheckSecret(c.id, LastMessage(s.suite, c), ip)).1
            == Refused(HashMismatch)
  {
    hide Committed, Perform, EcbDecrypted, LastMessage, SmallSuite, Encrypt;
    var s := Server(SmallSuite(), serverCert, "");
    SmallSuiteLawful();
    OtherPinExactly(s, m, c, submitted, secret, drawn, ip);
    CommitmentIs(s, m, c, submitted, secret, drawn);
    WrongHash(s.suite, c, submitted, drawn);
  }

  /** The commitment made under one PIN's key does not decrypt to its hash under the other's. */
  lemma WrongHash(s: Suite, c: Client, submitted: seq<byte>, drawn: Block)
    requires s == SmallSuite() && submitted != [] && c.pin != [] && LastByte(submitted) != LastByte(c.pin)
    ensures EcbDecrypted(s.cipher, Encrypt(s, c, [LastByte(c.payload)] + seq(31, i => 0)), s.sha256(c.salt + submitted)[..16])
            != Ok(s.sha256(drawn + SignatureOf(s, c.cert) + c.payload))
  {
    hide EcbEncrypted, EcbDecrypted, SmallSuite, LastByte;
    KeyByte(c.salt, c.pin);
    KeyByte(c.salt, submitted);
    WrongKey(SharedKey(s, c), ServerKey(s, c, submitted), [LastByte(c.payload)] + seq(31, i => 0));
    LastOfHashed(drawn + SignatureOf(s, c.cert), c.payload);
    SmallHash(drawn + SignatureOf(s, c.cert) + c.payload);
  }

  lemma LastOfHashed(before: seq<byte>, payload: Block)
    ensures LastByte(before + payload) == LastByte(payload)
  {}

  lemma WrongKey(theirs: Block, ours: Block, hash: Digest)
    requires theirs[0] != ours[0]
    ensures var c := SmallSuite().cipher;
            var e := EcbEncrypted(c, hash, theirs);
            e.Ok? && var d := EcbDecrypted(c, e.value, ours); d.Ok? && d.value != [] && d.value[0] != hash[0]
  {
    hide EcbEncrypted, EcbDecrypted, SmallSuite;
    SmallFirstByte(theirs, hash);
    SmallFirstByte(ours, EcbEncrypted(SmallSuite().cipher, hash, theirs).value);
    StaysApart(hash[0], theirs[0], ours[0]);
  }

  lemma StaysApart(h: byte, k: byte, l: byte)
    requires k != l
    ensures ((h as int + k) % 0x100 - l) % 0x100 != h
  {}

  lemma SmallHash(data: seq<byte>)
    ensures SmallSuite().sha256(data)[0] == LastByte(data)
  {}

  lemma KeyByte(salt: Block, pin: seq<byte>)
    requires pin != []
    ensures SmallSuite().sha256(salt + pin)[..16][0] == LastByte(pin)
  {
    assert LastByte(salt + pin) == LastByte(pin);
  }

  lemma SmallFirstByte(key: Block, data: seq<byte>)
    requires |data| == 32
    ensures var e := EcbEncrypted(SmallSuite().cipher, data, key);
            e.Ok? && |e.value| == 32 && e.value[0] as int == (data[0] as int + key[0] as int) % 0x100
    ensures var d := EcbDecrypted(SmallSuite().cipher, data, key);
            d.Ok? && |d.value| == 32 && d.value[0] as int == (data[0] as int - key[0] as int) % 0x100
  {
    hide MapBlocks;
    var c := SmallSuite().cipher;
    EcbBlocks(c, data, key, 0);
    assert c.enc(key, data[0..16]) == Bump(data[0..16], key[0]);
    assert c.dec(key, data[0..16]) == Bump(data[0..16], 0x100 - (key[0] as int));
    var e, d := EcbEncrypted(c, data, key).value, EcbDecrypted(c, data, key).value;
    assert e[0] == e[0..16][0] && d[0] == d[0..16][0];
  }

  /** The commitment a client makes under this suite, whatever it finds in the reply. */
  lemma CommitmentIs(s: Server, m: Manager, c: Client, submitted: seq<byte>, secret: Block, drawn: Block)
    requires s.suite == SmallSuite()
    ensures Committed(s, m, c, submitted, secret, drawn).1
            == Encrypt(s.suite, c, [LastByte(c.payload)] + seq(31, i => 0))
  {
    hide MapBlocks;
    var m1 := Perform(s, m, StartPairing(c.id, c.cert, c.salt)).0;
    var m2 := Perform(s, m1, SubmitPin(c.id, submitted)).0;
    WholeBlock(s.suite, c);
    var first := Perform(s, m2, ClientChallenge(c.id, FirstMessage(s.suite, c), secret, drawn)).1;
    assert first.Data? && |first.bytes| == 48;
    var plain := Decrypt(s.suite, c, first.bytes);
    assert |plain| == 48;
    assert LastByte(plain[32..] + SignatureOf(s.suite, c.cert) + c.payload) == LastByte(c.payload);
  }
}
