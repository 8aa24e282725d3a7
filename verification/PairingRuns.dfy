/** Whole runs of the client manager: who gets paired, and that honest clients do. */
module PairingRuns {
  import opened Bytes
  import opened Crypto
  import opened PairedStore
  import opened Pairing
  import opened Resolution

  ghost function After(s: Server, m: Manager, calls: seq<Call>): Manager {
    if calls == [] then m else
      var n := |calls| - 1;
      Perform(s, After(s, m, calls[..n]), calls[n]).0
  }

  /** What the i-th call answered. */
  ghost function Replied(s: Server, m: Manager, calls: seq<Call>, i: nat): Reply
    requires i < |calls|
  {
    Perform(s, After(s, m, calls[..i]), calls[i]).1
  }

  // Soundness: what must have happened before the last step accepts.

  datatype Kind = Start | Pin | Challenge | Response

  /** Calls that matter to a handshake; a step with a partial block has no effect. */
  predicate Is(c: Call, id: string, kind: Kind) {
    match kind
    case Start => (c.StartPairing? && c.id == id) || c.Restart?
    case Pin => c.SubmitPin? && c.id == id
    case Challenge => c.ClientChallenge? && c.id == id && |c.challenge| % 16 == 0
    case Response => c.ChallengeResponse? && c.id == id && |c.response| % 16 == 0
  }

  ghost predicate LastOf(calls: seq<Call>, id: string, kind: Kind, t: nat) {
    t < |calls| && Is(calls[t], id, kind) && forall u :: t < u < |calls| ==> !Is(calls[u], id, kind)
  }

  /** Which calls brought a pending record about. */
  datatype Story = Story(
    start: nat, pin: nat, challengePin: nat, challenge: nat, responsePin: nat, response: nat)

  ghost predicate TellsStart(calls: seq<Call>, id: string, p: Pending, y: Story) {
    LastOf(calls, id, Start, y.start) && calls[y.start] == StartPairing(id, p.cert, p.salt)
  }

  ghost predicate TellsKey(s: Server, calls: seq<Call>, id: string, p: Pending, y: Story) {
    p.key.Some? ==>
      && y.start < y.pin && LastOf(calls, id, Pin, y.pin)
      && p.key.value == DeriveKey(s.suite, p.salt, calls[y.pin].pin)
  }

  ghost predicate TellsChallenge(calls: seq<Call>, id: string, p: Pending, y: Story) {
    p.serverChallenge.Some? ==>
      && p.key.Some?
      && y.start < y.challengePin < y.challenge && LastOf(calls, id, Challenge, y.challenge)
      && LastOf(calls[..y.challenge], id, Pin, y.challengePin)
      && p.serverChallenge.value == calls[y.challenge].drawnChallenge
  }

  ghost predicate TellsHash(s: Server, calls: seq<Call>, id: string, p: Pending, y: Story) {
    p.clientHash.Some? ==>
      && p.key.Some?
      && y.start < y.responsePin < y.response && LastOf(calls, id, Response, y.response)
      && LastOf(calls[..y.response], id, Pin, y.responsePin)
      && EcbDecrypted(s.suite.cipher, calls[y.response].response,
                      DeriveKey(s.suite, p.salt, calls[y.responsePin].pin)) == Ok(p.clientHash.value)
  }

  /** A challenge since the start that found a key: it drew a server secret. */
  ghost predicate Draws(calls: seq<Call>, id: string, start: nat, c: nat) {
    && start < c < |calls| && Is(calls[c], id, Challenge)
    && exists t :: start < t < c && Is(calls[t], id, Pin)
  }

  /** There is a key once a PIN came, and a server secret, the latest drawn, once a challenge drew one. */
  ghost predicate TellsSecret(calls: seq<Call>, id: string, p: Pending, y: Story) {
    && (p.key.None? ==> forall t :: y.start < t < |calls| ==> !Is(calls[t], id, Pin))
    && (p.serverSecret.Some? <==> p.serverChallenge.Some?)
    && (p.serverSecret.Some? ==>
          LastOf(calls, id, Challenge, y.challenge) && p.serverSecret.value == calls[y.challenge].drawnSecret)
    && (p.serverSecret.None? ==> forall c: nat :: !Draws(calls, id, y.start, c))
  }

  ghost predicate Tells(s: Server, calls: seq<Call>, id: string, p: Pending, y: Story) {
    && TellsStart(calls, id, p, y)
    && TellsKey(s, calls, id, p, y)
    && TellsChallenge(calls, id, p, y)
    && TellsHash(s, calls, id, p, y)
    && TellsSecret(calls, id, p, y)
  }

  lemma LastExtends(calls: seq<Call>, c: Call, id: string, kind: Kind)
    ensures Is(c, id, kind) ==> LastOf(calls + [c], id, kind, |calls|)
    ensures forall t :: LastOf(calls, id, kind, t) && !Is(c, id, kind) ==> LastOf(calls + [c], id, kind, t)
  {}

  lemma DrawsExtends(calls: seq<Call>, c: Call, id: string, start: nat, k: nat)
    ensures Draws(calls + [c], id, start, k) <==>
            || Draws(calls, id, start, k)
            || (k == |calls| && start < k && Is(c, id, Challenge) && exists t :: start < t < k && Is(calls[t], id, Pin))
  {
    if Draws(calls, id, start, k) {
      var t :| start < t < k && Is(calls[t], id, Pin);
      assert Is((calls + [c])[t], id, Pin);
    }
    if Draws(calls + [c], id, start, k) {
      var t :| start < t < k && Is((calls + [c])[t], id, Pin);
      assert Is(calls[t], id, Pin);
    }
    if t :| k == |calls| && start < t < k && Is(calls[t], id, Pin) {
      assert Is((calls + [c])[t], id, Pin);
    }
  }

  /** A call that draws no secret: not a challenge, or one that finds no key. */
  lemma SecretKept(calls: seq<Call>, c: Call, id: string, p: Pending, q: Pending, y: Story, z: Story)
    requires TellsSecret(calls, id, p, y) && z.start == y.start && z.challenge == y.challenge
    requires Is(c, id, Challenge) ==> p.key.None? && p.serverSecret.None?
    requires q.key.None? ==> p.key.None? && !Is(c, id, Pin)
    requires q.serverSecret == p.serverSecret && q.serverChallenge == p.serverChallenge
    ensures TellsSecret(calls + [c], id, q, z)
  {
    hide Draws;
    LastExtends(calls, c, id, Challenge);
    forall k: nat ensures Draws(calls + [c], id, y.start, k) ==> Draws(calls, id, y.start, k) {
      DrawsExtends(calls, c, id, y.start, k);
    }
  }

  lemma SecretDrawn(calls: seq<Call>, c: Call, id: string, q: Pending, z: Story)
    requires Is(c, id, Challenge) && z.challenge == |calls| && q.key.Some?
    requires q.serverSecret == Some(c.drawnSecret) && q.serverChallenge.Some?
    ensures TellsSecret(calls + [c], id, q, z)
  {
    LastExtends(calls, c, id, Challenge);
  }

  /** A call that leaves the record's handshake fields alone and is not of its id's kinds. */
  lemma TellsExtends(s: Server, calls: seq<Call>, c: Call, id: string, p: Pending, q: Pending, y: Story)
    requires Tells(s, calls, id, p, y)
    requires !Is(c, id, Start) && !Is(c, id, Pin) && !Is(c, id, Challenge) && !Is(c, id, Response)
    requires q.cert == p.cert && q.salt == p.salt && q.key == p.key
    requires q.serverSecret == p.serverSecret && q.serverChallenge == p.serverChallenge && q.clientHash == p.clientHash
    ensures Tells(s, calls + [c], id, q, y)
  {
    hide EcbDecrypted, TellsSecret;
    SecretKept(calls, c, id, p, q, y, y);
    LastExtends(calls, c, id, Start);
    LastExtends(calls, c, id, Pin);
    LastExtends(calls, c, id, Challenge);
    LastExtends(calls, c, id, Response);
    if p.serverChallenge.Some? { assert (calls + [c])[..y.challenge] == calls[..y.challenge]; }
    if p.clientHash.Some? { assert (calls + [c])[..y.response] == calls[..y.response]; }
  }

  lemma PinTells(s: Server, calls: seq<Call>, c: Call, id: string, p: Pending, y: Story)
    requires Tells(s, calls, id, p, y) && c.SubmitPin? && c.id == id
    ensures Tells(s, calls + [c], id, p.(key := Some(DeriveKey(s.suite, p.salt, c.pin))), y.(pin := |calls|))
  {
    hide EcbDecrypted, DeriveKey, TellsSecret;
    SecretKept(calls, c, id, p, p.(key := Some(DeriveKey(s.suite, p.salt, c.pin))), y, y.(pin := |calls|));
    LastExtends(calls, c, id, Start);
    LastExtends(calls, c, id, Pin);
    LastExtends(calls, c, id, Challenge);
    LastExtends(calls, c, id, Response);
    if p.serverChallenge.Some? { assert (calls + [c])[..y.challenge] == calls[..y.challenge]; }
    if p.clientHash.Some? { assert (calls + [c])[..y.response] == calls[..y.response]; }
  }

  lemma ChallengeTells(s: Server, calls: seq<Call>, c: Call, id: string, p: Pending, y: Story) returns (z: Story)
    requires Tells(s, calls, id, p, y) && c.ClientChallenge? && c.id == id
    ensures Tells(s, calls + [c], id, AnswerChallenge(s, p, c.challenge, c.drawnSecret, c.drawnChallenge).p, z)
  {
    hide EcbEncrypted, DeriveKey, MapBlocks, TellsSecret;
    NoSecretWithoutKey(calls, id, p, y);
    LastExtends(calls, c, id, Start);
    LastExtends(calls, c, id, Pin);
    LastExtends(calls, c, id, Challenge);
    LastExtends(calls, c, id, Response);
    z := y;
    if p.clientHash.Some? { assert (calls + [c])[..y.response] == calls[..y.response]; }
    if p.key.Some? && |c.challenge| % 16 == 0 {
      z := y.(challenge := |calls|, challengePin := y.pin);
      assert (calls + [c])[..|calls|] == calls;
      SecretDrawn(calls, c, id, AnswerChallenge(s, p, c.challenge, c.drawnSecret, c.drawnChallenge).p, z);
    } else {
      SecretKept(calls, c, id, p, p, y, y);
      if p.serverChallenge.Some? { assert (calls + [c])[..y.challenge] == calls[..y.challenge]; }
    }
  }

  lemma NoSecretWithoutKey(calls: seq<Call>, id: string, p: Pending, y: Story)
    requires TellsChallenge(calls, id, p, y) && TellsSecret(calls, id, p, y)
    ensures p.key.None? ==> p.serverSecret.None?
  {}

  lemma ResponseTells(s: Server, calls: seq<Call>, c: Call, id: string, p: Pending, y: Story) returns (z: Story)
    requires Tells(s, calls, id, p, y) && c.ChallengeResponse? && c.id == id
    ensures Tells(s, calls + [c], id, AnswerResponse(s, p, c.response).p, z)
  {
    hide DeriveKey, MapBlocks, TellsSecret;
    SecretKept(calls, c, id, p, AnswerResponse(s, p, c.response).p, y, y);
    LastExtends(calls, c, id, Start);
    LastExtends(calls, c, id, Pin);
    LastExtends(calls, c, id, Challenge);
    LastExtends(calls, c, id, Response);
    z := y;
    if p.serverChallenge.Some? { assert (calls + [c])[..y.challenge] == calls[..y.challenge]; }
    if p.key.Some? && |c.response| % 16 == 0 {
      z := y.(response := |calls|, responsePin := y.pin);
      SecretKept(calls, c, id, p, AnswerResponse(s, p, c.response).p, y, z);
      assert (calls + [c])[..|calls|] == calls;
    } else if p.clientHash.Some? {
      assert (calls + [c])[..y.response] == calls[..y.response];
    }
  }

  /** One call carries the story of a pending record on. */
  lemma StoryStep(s: Server, m: Manager, calls: seq<Call>, c: Call, id: string, y: Story) returns (z: Story)
    requires id in m.pending ==> Tells(s, calls, id, m.pending[id], y)
    requires id in Perform(s, m, c).0.pending
    ensures Tells(s, calls + [c], id, Perform(s, m, c).0.pending[id], z)
  {
    hide Tells, UpdatePaired, AnswerChallenge, AnswerResponse, Verified, DeriveKey;
    if c.StartPairing? && c.id == id {
      z := Story(|calls|, 0, 0, 0, 0, 0);
      StartTells(s, calls, c, id);
    } else {
      PendingWas(s, m, c, id);
      var p := m.pending[id];
      if c.SubmitPin? && c.id == id {
        z := y.(pin := |calls|);
        PinTells(s, calls, c, id, p, y);
      } else if c.ClientChallenge? && c.id == id {
        z := ChallengeTells(s, calls, c, id, p, y);
      } else if c.ChallengeResponse? && c.id == id {
        z := ResponseTells(s, calls, c, id, p, y);
      } else {
        z := y;
        PendingKept(s, m, c, id);
        TellsExtends(s, calls, c, id, p, Perform(s, m, c).0.pending[id], y);
      }
    }
  }

  lemma StartTells(s: Server, calls: seq<Call>, c: Call, id: string)
    requires c.StartPairing? && c.id == id
    ensures Tells(s, calls + [c], id, Pending(c.cert, c.salt, None, None, None, None, None, map[], None),
                  Story(|calls|, 0, 0, 0, 0, 0))
  {
    LastExtends(calls, c, id, Start);
  }

  lemma PendingWas(s: Server, m: Manager, c: Call, id: string)
    requires id in Perform(s, m, c).0.pending && !(c.StartPairing? && c.id == id)
    ensures id in m.pending
  {
    hide AnswerChallenge, AnswerResponse, Verified, DeriveKey, Resolve;
  }

  /** Calls that are not a handshake step of this client, nor a restart. */
  predicate Undisturbed(c: Call, id: string) {
    !c.Restart? && !((c.StartPairing? || c.SubmitPin? || c.ClientChallenge? || c.ChallengeResponse?) && c.id == id)
  }

  predicate SameHandshake(p: Pending, q: Pending) {
    && q.cert == p.cert && q.salt == p.salt && q.key == p.key
    && q.serverSecret == p.serverSecret && q.serverChallenge == p.serverChallenge && q.clientHash == p.clientHash
  }

  lemma PendingKept(s: Server, m: Manager, c: Call, id: string)
    requires id in m.pending && Undisturbed(c, id)
    ensures id in Perform(s, m, c).0.pending && SameHandshake(m.pending[id], Perform(s, m, c).0.pending[id])
  {
    hide AnswerChallenge, AnswerResponse, Verified, DeriveKey, Resolve;
  }

  lemma {:induction false} StoryOf(s: Server, m: Manager, calls: seq<Call>, id: string) returns (y: Story)
    requires m.pending == map[] && id in After(s, m, calls).pending
    ensures Tells(s, calls, id, After(s, m, calls).pending[id], y)
  {
    hide Tells, Perform;
    y := Story(0, 0, 0, 0, 0, 0);
    if calls != [] {
      var n := |calls| - 1;
      if id in After(s, m, calls[..n]).pending {
        y := StoryOf(s, m, calls[..n], id);
      }
      y := StoryStep(s, After(s, m, calls[..n]), calls[..n], calls[n], id, y);
      assert calls[..n] + [calls[n]] == calls;
    }
  }

  /**
   Pairing is sound over every run: when the last step accepts a client, then since the last time
   that client started, a PIN was submitted and after it a challenge was drawn and a response
   stored; the response decrypts, under the key of the PIN then in force, to the hash over the
   latest challenge, the client certificate's signature and the revealed secret; and the
   certificate verifies the signature over that secret. A PIN's key is written out: the first 16
   bytes of the hash over salt and PIN.
   */
  lemma PairingSound(s: Server, m: Manager, calls: seq<Call>, i: nat) returns (y: Story)
    requires m.pending == map[] && i < |calls| && calls[i].CheckSecret? && Replied(s, m, calls, i) == Done
    ensures var id, secret, before := calls[i].id, calls[i].secret, calls[..i];
            && LastOf(before, id, Start, y.start) && calls[y.start].StartPairing?
            && y.start < y.challengePin < y.challenge < i && LastOf(before, id, Challenge, y.challenge)
            && y.start < y.responsePin < y.response < i && LastOf(before, id, Response, y.response)
            && LastOf(calls[..y.challenge], id, Pin, y.challengePin)
            && LastOf(calls[..y.response], id, Pin, y.responsePin)
            && |secret| >= 16 && s.suite.certSignature(calls[y.start].cert).Some?
            && EcbDecrypted(s.suite.cipher, calls[y.response].response,
                            s.suite.sha256(calls[y.start].salt + calls[y.responsePin].pin)[..16])
               == Ok(s.suite.sha256(calls[y.challenge].drawnChallenge
                     + s.suite.certSignature(calls[y.start].cert).value + secret[..16]))
            && s.suite.verify(secret[..16], secret[16..], calls[y.start].cert)
  {
    hide EcbDecrypted, UpdatePaired, AnswerChallenge, AnswerResponse;
    var id, before := calls[i].id, calls[..i];
    y := StoryOf(s, m, before, id);
    var p := After(s, m, before).pending[id];
    assert before[y.start] == calls[y.start];
    assert before[..y.challenge] == calls[..y.challenge] && before[..y.response] == calls[..y.response];
    assert before[y.challenge] == calls[y.challenge] && before[y.response] == calls[y.response];
    assert before[y.responsePin] == calls[y.responsePin];
  }

  // Step 3: the hash is stored first, so its answer does not decide whether it counts.

  lemma PendingStays(s: Server, m: Manager, c: Call, id: string)
    requires !c.Restart? && (id in m.pending || (c.StartPairing? && c.id == id))
    ensures id in Perform(s, m, c).0.pending
  {
    hide AnswerChallenge, AnswerResponse, Verified, DeriveKey, Resolve;
  }

  lemma {:induction false} StillPending(s: Server, m: Manager, calls: seq<Call>, id: string, start: nat)
    requires LastOf(calls, id, Start, start) && calls[start].StartPairing?
    ensures id in After(s, m, calls).pending
  {
    hide Perform;
    var n := |calls| - 1;
    if start < n {
      StillPending(s, m, calls[..n], id, start);
    }
    PendingStays(s, After(s, m, calls[..n]), calls[n], id);
  }

  /** The secret in force is that of the last challenge that drew one. */
  ghost predicate DrawnLast(calls: seq<Call>, id: string, start: nat, c: nat) {
    Draws(calls, id, start, c) && LastOf(calls, id, Challenge, c)
  }

  /** How step 3 answers a pending client that has a key, given the calls before it. */
  ghost predicate AnsweredAs(s: Server, before: seq<Call>, id: string, start: nat, reply: Reply) {
    && (reply == Refused(NoServerSecret) <==> forall c: nat :: !Draws(before, id, start, c))
    && (reply != Refused(NoServerSecret) ==> exists c: nat :: DrawnLast(before, id, start, c))
    && (forall c: nat :: DrawnLast(before, id, start, c) ==>
          reply == match s.suite.sign(before[c].drawnSecret, s.key)
                   case Some(signature) => Data(before[c].drawnSecret + signature)
                   case None => Refused(CannotSign))
    && (reply.Data? || reply == Refused(NoServerSecret) || reply == Refused(CannotSign))
  }

  lemma RecordAnswers(s: Server, calls: seq<Call>, id: string, p: Pending, y: Story, response: seq<byte>)
    requires Tells(s, calls, id, p, y) && p.key.Some? && |response| % 16 == 0
    ensures AnsweredAs(s, calls, id, y.start, AnswerResponse(s, p, response).reply)
  {
    hide DeriveKey, MapBlocks, Draws;
    if p.serverSecret.Some? {
      SecretIsDrawn(calls, id, p, y);
    }
  }

  lemma SecretIsDrawn(calls: seq<Call>, id: string, p: Pending, y: Story)
    requires TellsChallenge(calls, id, p, y) && TellsSecret(calls, id, p, y) && p.serverSecret.Some?
    ensures DrawnLast(calls, id, y.start, y.challenge)
  {
    assert Is(calls[..y.challenge][y.challengePin], id, Pin);
  }

  /**
   Step 3 of a client that has a key, over every run: it is refused for want of a server secret if
   and only if no challenge has drawn one since the client's start; otherwise it carries the latest
   secret and its signature, or is refused because the server cannot sign.
   */
  lemma ResponseAnsweredExactly(s: Server, m: Manager, calls: seq<Call>, r: nat, start: nat, pin: nat)
    requires m.pending == map[] && r < |calls| && calls[r].ChallengeResponse? && Is(calls[r], calls[r].id, Response)
    requires LastOf(calls[..r], calls[r].id, Start, start) && calls[start].StartPairing?
    requires start < pin < r && Is(calls[pin], calls[r].id, Pin)
    ensures AnsweredAs(s, calls[..r], calls[r].id, start, Replied(s, m, calls, r))
  {
    hide Tells, AnsweredAs, AnswerResponse, AnswerChallenge, UpdatePaired, Verified;
    var id, before := calls[r].id, calls[..r];
    StillPending(s, m, before, id, start);
    var y := StoryOf(s, m, before, id);
    var p := After(s, m, before).pending[id];
    SameStart(s, before, id, p, y, start, pin);
    RecordAnswers(s, before, id, p, y, calls[r].response);
  }

  lemma SameStart(s: Server, calls: seq<Call>, id: string, p: Pending, y: Story, start: nat, pin: nat)
    requires Tells(s, calls, id, p, y) && LastOf(calls, id, Start, start)
    requires start < pin < |calls| && Is(calls[pin], id, Pin)
    ensures y.start == start && p.key.Some?
  {
    hide Draws, EcbDecrypted, DeriveKey;
  }

  /**
   Whenever step 5 accepts, the response it accepts on may itself have been answered or refused, and
   which of them is decided by the secrets drawn before that response and not by the hash it carried.
   */
  lemma AcceptedResponseAnswered(s: Server, m: Manager, calls: seq<Call>, i: nat) returns (y: Story)
    requires m.pending == map[] && i < |calls| && calls[i].CheckSecret? && Replied(s, m, calls, i) == Done
    ensures LastOf(calls[..i], calls[i].id, Start, y.start) && LastOf(calls[..i], calls[i].id, Response, y.response)
    ensures y.start < y.response < i
    ensures AnsweredAs(s, calls[..y.response], calls[i].id, y.start, Replied(s, m, calls, y.response))
  {
    hide AnsweredAs, Replied, EcbDecrypted, DeriveKey;
    y := PairingSound(s, m, calls, i);
    var id, r := calls[i].id, y.response;
    assert calls[..i][r] == calls[r] && calls[..i][..r] == calls[..r] && calls[..i][y.start] == calls[y.start];
    assert calls[..r][y.start] == calls[y.start] && calls[..r][y.responsePin] == calls[y.responsePin];
    forall u | y.start < u < r ensures !Is(calls[..r][u], id, Start) {
      assert calls[..i][u] == calls[..r][u];
    }
    ResponseAnsweredExactly(s, m, calls, r, y.start, y.responsePin);
  }

  // Who is paired.

  /** The file always decodes to the state in memory. */
  predicate DiskAgrees(m: Manager) { m.disk == Encoded(m.state) }

  lemma DiskStep(s: Server, m: Manager, c: Call)
    requires DiskAgrees(m)
    ensures DiskAgrees(Perform(s, m, c).0)
    ensures c.Restart? ==> Perform(s, m, c).0.state == m.state
  {
    hide AnswerChallenge, AnswerResponse, Verified, DeriveKey, Resolve, Migrate;
  }

  /**
   Over every run of a manager opened on any file, loading what is on disk, in any order, gives the
   state in memory after every call.
   */
  lemma {:induction false} DiskAlwaysAgrees(s: Server, file: File, order: seq<string>, calls: seq<Call>, again: seq<string>)
    requires OrderFor(file, order)
    ensures var m := After(s, Opened(file, order), calls);
            DiskAgrees(m) && OrderFor(m.disk, again) && Load(m.disk, again) == m.state
  {
    hide Perform, Migrate;
    if calls != [] {
      DiskAlwaysAgrees(s, file, order, calls[..|calls| - 1], again);
      DiskStep(s, After(s, Opened(file, order), calls[..|calls| - 1]), calls[|calls| - 1]);
    }
  }

  /** This call paired the fingerprint: the last step of a handshake, accepted. */
  ghost predicate Pairs(s: Server, m: Manager, calls: seq<Call>, i: nat, fingerprint: string) {
    && i < |calls| && calls[i].CheckSecret? && Replied(s, m, calls, i) == Done
    && calls[i].id in After(s, m, calls[..i]).pending
    && s.suite.fingerprint(After(s, m, calls[..i]).pending[calls[i].id].cert) == Some(fingerprint)
  }

  lemma PairedStep(s: Server, m: Manager, c: Call, fingerprint: string)
    requires DiskAgrees(m)
    ensures fingerprint in m.state ==> fingerprint in Perform(s, m, c).0.state
    ensures fingerprint in Perform(s, m, c).0.state && fingerprint !in m.state
            ==> c.CheckSecret? && Perform(s, m, c).1 == Done && c.id in m.pending
                && s.suite.fingerprint(m.pending[c.id].cert) == Some(fingerprint)
  {
    hide AnswerChallenge, AnswerResponse, DeriveKey, Resolve, Migrate;
    DiskStep(s, m, c);
    ResolveIsKey(m.state.Keys, if c.SetScalePaired? || c.SetNamePaired? then c.fingerprint else "");
  }

  lemma ResolveIsKey(keys: set<string>, prefix: string)
    ensures var r := Resolve(keys, prefix); r.Ok? ==> r.value in keys
  {
    hide Resolve;
    ResolveExactly(keys, prefix);
    var r := Resolve(keys, prefix);
    if r.Ok? { assert Means(keys, prefix, r.value); }
  }

  /** A fingerprint is paired exactly when it was in the loaded state or a handshake paired it since. */
  lemma {:induction false} PairedExactly(s: Server, m: Manager, calls: seq<Call>, fingerprint: string)
    requires DiskAgrees(m)
    ensures DiskAgrees(After(s, m, calls))
    ensures fingerprint in After(s, m, calls).state
            <==> fingerprint in m.state || exists i: nat :: Pairs(s, m, calls, i, fingerprint)
  {
    hide Perform, Pairs;
    if calls == [] {
      NothingPairs(s, m, fingerprint);
    } else {
      var n := |calls| - 1;
      var w := After(s, m, calls[..n]);
      PairedExactly(s, m, calls[..n], fingerprint);
      PairedStep(s, w, calls[n], fingerprint);
      DiskStep(s, w, calls[n]);
      PairsExtends(s, m, calls, fingerprint);
    }
  }

  lemma NothingPairs(s: Server, m: Manager, fingerprint: string)
    ensures !exists i: nat :: Pairs(s, m, [], i, fingerprint)
  {}

  lemma PairsExtends(s: Server, m: Manager, calls: seq<Call>, fingerprint: string)
    requires calls != []
    ensures var n := |calls| - 1; var w := After(s, m, calls[..n]);
            && (Pairs(s, m, calls, n, fingerprint)
                <==> calls[n].CheckSecret? && Perform(s, w, calls[n]).1 == Done && calls[n].id in w.pending
                     && s.suite.fingerprint(w.pending[calls[n].id].cert) == Some(fingerprint))
            && (forall i: nat :: i != n ==> (Pairs(s, m, calls, i, fingerprint) <==> Pairs(s, m, calls[..n], i, fingerprint)))
            && !Pairs(s, m, calls[..n], n, fingerprint)
            && (Pairs(s, m, calls, n, fingerprint) ==> fingerprint in Perform(s, w, calls[n]).0.state)
  {
    hide AnswerChallenge, AnswerResponse, DeriveKey, UpdatePaired;
    var n := |calls| - 1;
    forall i: nat | i < n ensures calls[..n][..i] == calls[..i] {}
  }
}
