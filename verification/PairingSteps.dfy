/** What single calls of the client manager change and answer, told field by field. */
module PairingSteps {
  import opened Bytes
  import opened Crypto
  import opened PairedStore
  import opened Pairing
  import opened PairingRuns
  import opened Resolution

  /** The state `n` differs from `m` in the pending record of one client at most. */
  ghost predicate OnlyPending(m: Manager, n: Manager, id: string) {
    && n.state == m.state && n.disk == m.disk && n.pending.Keys == m.pending.Keys
    && forall other <- m.pending :: other != id ==> n.pending[other] == m.pending[other]
  }

  /** The state `n` differs from `m` in the record of one device at most, and is on disk. */
  ghost predicate OnlyPaired(m: Manager, n: Manager, fingerprint: string) {
    && n.pending == m.pending && n.disk == Text(true, Some(n.state), Some(map[]))
    && n.state.Keys == m.state.Keys + {fingerprint}
    && forall other <- m.state :: other != fingerprint ==> n.state[other] == m.state[other]
  }

  /** A handshake or setting for a client that is not pending is refused and changes nothing. */
  lemma UnknownClientIsRefused(s: Server, m: Manager, c: Call)
    requires c.SubmitPin? || c.ClientChallenge? || c.ChallengeResponse? || c.CheckSecret? || c.SetScalePending? || c.SetNamePending?
    requires c.id !in m.pending
    ensures Perform(s, m, c) == (m, Refused(NoPendingClient))
  {}

  /** A submitted PIN replaces the key and nothing else. */
  lemma PinExactly(s: Server, m: Manager, id: string, pin: seq<byte>)
    requires id in m.pending
    ensures var (n, reply) := Perform(s, m, SubmitPin(id, pin));
            && reply == Done && OnlyPending(m, n, id)
            && n.pending[id] == m.pending[id].(key := Some(s.suite.sha256(m.pending[id].salt + pin)[..16]))
  {}

  /**
   Step 2 is refused without effect if there is no key or a partial block; otherwise both draws are
   stored, and the answer, if the server's certificate can be read, is the hash that commits to the
   secret, followed by the challenge, encrypted.
   */
  lemma ChallengeExactly(s: Server, m: Manager, id: string, challenge: seq<byte>, secret: Block, drawn: Block)
    requires id in m.pending && SuiteLawful(s.suite)
    ensures var (n, reply) := Perform(s, m, ClientChallenge(id, challenge, secret, drawn));
            var p, signature := m.pending[id], s.suite.certSignature(s.cert);
            if p.key.None? then n.pending == m.pending && n == m && reply == Refused(NoKey)
            else if |challenge| % 16 != 0 then n == m && reply == Refused(BadLength(|challenge|))
            else
              && OnlyPending(m, n, id)
              && n.pending[id] == p.(serverSecret := Some(secret), serverChallenge := Some(drawn))
              && (signature.None? ==> reply == Refused(BadCert))
              && (signature.Some? ==>
                    var plain := EcbDecrypted(s.suite.cipher, challenge, p.key.value);
                    && plain.Ok? && reply.Data?
                    && EcbDecrypted(s.suite.cipher, reply.bytes, p.key.value)
                       == Ok(s.suite.sha256(plain.value + signature.value + secret) + drawn))
  {
    hide MapBlocks;
    var p, signature := m.pending[id], s.suite.certSignature(s.cert);
    assert m.pending[id := p] == m.pending;
    if p.key.Some? && |challenge| % 16 == 0 && signature.Some? {
      var plain := EcbDecrypted(s.suite.cipher, challenge, p.key.value).value;
      EcbRoundTrip(s.suite.cipher, s.suite.sha256(plain + signature.value + secret) + drawn, p.key.value);
    }
  }

  /** Step 3 stores the decrypted hash unless there is no key or a partial block, whatever it then answers. */
  lemma ResponseExactly(s: Server, m: Manager, id: string, response: seq<byte>)
    requires id in m.pending
    ensures var (n, reply) := Perform(s, m, ChallengeResponse(id, response));
            var p := m.pending[id];
            if p.key.None? then n == m && reply == Refused(NoKey)
            else if |response| % 16 != 0 then n == m && reply == Refused(BadLength(|response|))
            else
              var hash := EcbDecrypted(s.suite.cipher, response, p.key.value);
              && hash.Ok? && OnlyPending(m, n, id) && n.pending[id] == p.(clientHash := Some(hash.value))
              && (p.serverSecret.None? ==> reply == Refused(NoServerSecret))
              && (p.serverSecret.Some? ==>
                    match s.suite.sign(p.serverSecret.value, s.key)
                    case None => reply == Refused(CannotSign)
                    case Some(signature) => reply == Data(p.serverSecret.value + signature))
  {
    hide MapBlocks;
    assert m.pending[id := m.pending[id]] == m.pending;
  }

  /** What step 5 demands: every value is there, the hash matches, and the signature verifies. */
  ghost predicate Convinces(s: Server, p: Pending, secret: seq<byte>) {
    && |secret| >= 16 && p.clientHash.Some? && p.serverChallenge.Some?
    && s.suite.certSignature(p.cert).Some? && s.suite.fingerprint(p.cert).Some?
    && p.clientHash.value
       == s.suite.sha256(p.serverChallenge.value + s.suite.certSignature(p.cert).value + secret[..16])
    && s.suite.verify(secret[..16], secret[16..], p.cert)
  }

  /**
   Step 5 accepts exactly what convinces it; the device is then paired with the settings made during
   its handshake, seen at its address, and on disk. Otherwise it is refused and nothing changes.
   */
  lemma StepFiveExactly(s: Server, m: Manager, id: string, secret: seq<byte>, ip: string)
    requires id in m.pending
    ensures var (n, reply) := Perform(s, m, CheckSecret(id, secret, ip));
            var p := m.pending[id];
            if Convinces(s, p, secret) then
              var fingerprint := s.suite.fingerprint(p.cert).value;
              && reply == Done && OnlyPaired(m, n, fingerprint)
              && n.state[fingerprint] == Paired(p.scale, p.scaleByResolution, p.name, Some(ip), None, {})
            else n == m && reply.Refused?
    ensures var reply := Perform(s, m, CheckSecret(id, secret, ip)).1;
            var p := m.pending[id];
            && (reply == Refused(SecretTooShort) <==> |secret| < 16)
            && (reply == Refused(NoClientHash) <==> |secret| >= 16 && p.clientHash.None?)
            && (reply == Refused(NoServerChallenge) <==> |secret| >= 16 && p.clientHash.Some? && p.serverChallenge.None?)
  {}

  /** A pending client's name or scale: that field alone. */
  lemma PendingSettingExactly(s: Server, m: Manager, id: string, name: string, scale: real, size: Size)
    requires id in m.pending
    ensures var (n, reply) := Perform(s, m, SetNamePending(id, name));
            reply == Done && OnlyPending(m, n, id) && n.pending[id] == m.pending[id].(name := Some(name))
    ensures var (n, reply) := Perform(s, m, SetScalePending(id, scale, None));
            reply == Done && OnlyPending(m, n, id) && n.pending[id] == m.pending[id].(scale := Some(scale))
    ensures var (n, reply) := Perform(s, m, SetScalePending(id, scale, Some(size)));
            var p := m.pending[id];
            && reply == Done && OnlyPending(m, n, id)
            && n.pending[id] == p.(scaleByResolution := p.scaleByResolution[ResolutionKey(size.0, size.1) := scale])
  {}

  /** The value in a paired device's record after a setting for it: that field alone. */
  function Set(e: Paired, c: Call): Paired
    requires c.SetScalePaired? || c.SetNamePaired?
  {
    match c
    case SetNamePaired(_, name) => Paired(e.scale, e.scaleByResolution, Some(name), e.lastSeenIp, e.lastSeenResolution, e.seenResolutions)
    case SetScalePaired(_, scale, None) =>
      Paired(Some(scale), e.scaleByResolution, e.name, e.lastSeenIp, e.lastSeenResolution, e.seenResolutions)
    case SetScalePaired(_, scale, Some((w, h))) =>
      Paired(e.scale, e.scaleByResolution[ResolutionKey(w, h) := scale], e.name, e.lastSeenIp, e.lastSeenResolution, e.seenResolutions)
  }

  /**
   A setting for a paired device reaches the one key that the fingerprint given can mean, and is
   refused without effect exactly when there is none: no key begins with it, or several do.
   */
  lemma PairedSettingExactly(s: Server, m: Manager, c: Call)
    requires c.SetScalePaired? || c.SetNamePaired?
    ensures var (n, reply) := Perform(s, m, c);
            && (forall key :: Means(m.state.Keys, c.fingerprint, key) ==>
                  reply == Done && OnlyPaired(m, n, key) && n.state[key] == Set(m.state[key], c))
            && ((forall key :: !Means(m.state.Keys, c.fingerprint, key)) ==>
                  && n == m
                  && reply == if forall k <- m.state :: !(c.fingerprint <= k) then Refused(Unresolved(NoMatch))
                              else Refused(Unresolved(Ambiguous(set k | k in m.state && c.fingerprint <= k))))
  {
    ResolveExactly(m.state.Keys, c.fingerprint);
  }

  /** A sighting of a paired device updates what was seen of it; of any other, nothing changes. */
  lemma SeenExactly(s: Server, m: Manager, fingerprint: string, ip: string, width: u32, height: u32)
    ensures var (n, reply) := Perform(s, m, NoteSeen(fingerprint, ip, width, height));
            && reply == Done
            && (fingerprint !in m.state ==> n == m)
            && (fingerprint in m.state ==>
                  && OnlyPaired(m, n, fingerprint)
                  && var e, r := m.state[fingerprint], ResolutionKey(width, height);
                     n.state[fingerprint]
                     == Paired(e.scale, e.scaleByResolution, e.name, Some(ip), Some(r), e.seenResolutions + {r}))
  {}

  /** A restart forgets pending clients and keeps every paired device. */
  lemma RestartExactly(s: Server, m: Manager)
    requires DiskAgrees(m)
    ensures Perform(s, m, Restart) == (Manager(map[], m.state, m.disk), Done)
  {}
}
