/** The client manager object, proved against the calls of `Pairing`. */
module ClientManagers {
  import opened Bytes
  import opened Crypto
  import opened PairedStore
  import opened Pairing
  import opened Resolution

  class ClientManager {
    const server: Server
    var pending: map<string, Pending>
    var state: Store
    var disk: File

    ghost function View(): Manager
      reads this
    {
      Manager(pending, state, disk)
    }

    /** Loads the file, migrating a legacy one, and writes the current shape back. */
    constructor (server: Server, file: File)
      ensures this.server == server
      ensures exists order :: OrderFor(file, order) && View() == Opened(file, order)
      ensures Reads(file, state) && pending == map[] && disk == Text(true, Some(state), Some(map[]))
    {
      var loaded: Store := map[];
      ghost var order := [];
      if NeedsOrder(file) {
        loaded, order := MigrateLegacy(file.legacy.value);
      } else if file.Text? && file.hasCurrentKey && file.current.Some? {
        loaded := file.current.value;
      }
      assert OrderFor(file, order) && loaded == Load(file, order);
      this.server, pending, state, disk := server, map[], loaded, Encoded(loaded);
    }

    method Persist()
      modifies this`disk
      ensures disk == Encoded(state)
    {
      disk := Text(true, Some(state), Some(map[]));
    }

    method StartPairing(id: string, cert: Cert, salt: Block)
      modifies this`pending
      ensures (View(), Done) == Perform(server, old(View()), Call.StartPairing(id, cert, salt))
    {
      pending := pending[id := Pending(cert, salt, None, None, None, None, None, map[], None)];
    }

    method SubmitPin(id: string, pin: seq<byte>) returns (reply: Reply)
      modifies this`pending
      ensures (View(), reply) == Perform(server, old(View()), Call.SubmitPin(id, pin))
    {
      if id !in pending { return Refused(NoPendingClient); }
      pending := pending[id := pending[id].(key := Some(DeriveKey(server.suite, pending[id].salt, pin)))];
      return Done;
    }

    method ClientChallenge(id: string, challenge: seq<byte>, drawnSecret: Block, drawnChallenge: Block)
      returns (reply: Reply)
      modifies this`pending
      ensures (View(), reply)
           == Perform(server, old(View()), Call.ClientChallenge(id, challenge, drawnSecret, drawnChallenge))
    {
      hide EcbEncrypted, EcbDecrypted;
      if id !in pending { return Refused(NoPendingClient); }
      var client := pending[id];
      assert pending == pending[id := client];
      if client.key.None? { return Refused(NoKey); }
      var clientChallenge := EcbDecrypt(server.suite.cipher, challenge, client.key.value);
      if clientChallenge.Err? { return Refused(BadLength(|challenge|)); }
      client := client.(serverSecret := Some(drawnSecret), serverChallenge := Some(drawnChallenge));
      pending := pending[id := client];
      var signature := server.suite.certSignature(server.cert);
      if signature.None? { return Refused(BadCert); }
      var hashInput := clientChallenge.value;
      hashInput := hashInput + signature.value;
      hashInput := hashInput + drawnSecret;
      var plain := server.suite.sha256(hashInput) + drawnChallenge;
      var response := EcbEncrypt(server.suite.cipher, plain, client.key.value);
      reply := match response case Ok(bytes) => Data(bytes) case Err(_) => Refused(BadLength(|plain|));
    }

    method ServerChallengeResponse(id: string, response: seq<byte>) returns (reply: Reply)
      modifies this`pending
      ensures (View(), reply) == Perform(server, old(View()), ChallengeResponse(id, response))
    {
      hide EcbDecrypted;
      if id !in pending { return Refused(NoPendingClient); }
      var client := pending[id];
      assert pending == pending[id := client];
      if client.key.None? { return Refused(NoKey); }
      var hash := EcbDecrypt(server.suite.cipher, response, client.key.value);
      if hash.Err? { return Refused(BadLength(|response|)); }
      client := client.(clientHash := Some(hash.value));
      pending := pending[id := client];
      if client.serverSecret.None? { return Refused(NoServerSecret); }
      var signature := server.suite.sign(client.serverSecret.value, server.key);
      if signature.None? { return Refused(CannotSign); }
      return Data(client.serverSecret.value + signature.value);
    }

    method CheckClientPairingSecret(id: string, secret: seq<byte>, ip: string) returns (reply: Reply)
      modifies this`state, this`disk
      ensures (View(), reply) == Perform(server, old(View()), CheckSecret(id, secret, ip))
    {
      if id !in pending { return Refused(NoPendingClient); }
      var client := pending[id];
      if |secret| < 16 { return Refused(SecretTooShort); }
      var payload, signature := secret[..16], secret[16..];
      if client.clientHash.None? { return Refused(NoClientHash); }
      if client.serverChallenge.None? { return Refused(NoServerChallenge); }
      var certSignature := server.suite.certSignature(client.cert);
      if certSignature.None? { return Refused(BadCert); }
      var hashInput: seq<byte> := client.serverChallenge.value;
      hashInput := hashInput + certSignature.value;
      hashInput := hashInput + payload;
      if server.suite.sha256(hashInput) != client.clientHash.value { return Refused(HashMismatch); }
      if !server.suite.verify(payload, signature, client.cert) { return Refused(BadSignature); }
      var fingerprint := server.suite.fingerprint(client.cert);
      if fingerprint.None? { return Refused(BadCert); }
      state := state[fingerprint.value := Paired(client.scale, client.scaleByResolution, client.name, Some(ip), None, {})];
      Persist();
      return Done;
    }

    method SetScaleForPending(id: string, scale: real, resolution: Option<Size>) returns (reply: Reply)
      modifies this`pending
      ensures (View(), reply) == Perform(server, old(View()), SetScalePending(id, scale, resolution))
    {
      if id !in pending { return Refused(NoPendingClient); }
      var client := pending[id];
      match resolution {
        case Some((w, h)) =>
          client := client.(scaleByResolution := client.scaleByResolution[ResolutionKey(w, h) := scale]);
        case None => client := client.(scale := Some(scale));
      }
      pending := pending[id := client];
      return Done;
    }

    method SetNameForPending(id: string, name: string) returns (reply: Reply)
      modifies this`pending
      ensures (View(), reply) == Perform(server, old(View()), SetNamePending(id, name))
    {
      if id !in pending { return Refused(NoPendingClient); }
      pending := pending[id := pending[id].(name := Some(name))];
      return Done;
    }

    method SetScaleForPaired(fingerprint: string, scale: real, resolution: Option<Size>) returns (reply: Reply)
      modifies this`state, this`disk
      ensures (View(), reply) == Perform(server, old(View()), SetScalePaired(fingerprint, scale, resolution))
    {
      hide Resolve;
      var resolved := ResolveFingerprint(state, fingerprint);
      if resolved.Err? { return Refused(Unresolved(resolved.error)); }
      ResolveExactly(state.Keys, fingerprint);
      var entry := state[resolved.value];
      match resolution {
        case Some((w, h)) =>
          entry := entry.(scaleByResolution := entry.scaleByResolution[ResolutionKey(w, h) := scale]);
        case None => entry := entry.(scale := Some(scale));
      }
      state := state[resolved.value := entry];
      Persist();
      return Done;
    }

    method SetNameForPaired(fingerprint: string, name: string) returns (reply: Reply)
      modifies this`state, this`disk
      ensures (View(), reply) == Perform(server, old(View()), SetNamePaired(fingerprint, name))
    {
      hide Resolve;
      var resolved := ResolveFingerprint(state, fingerprint);
      if resolved.Err? { return Refused(Unresolved(resolved.error)); }
      ResolveExactly(state.Keys, fingerprint);
      state := state[resolved.value := state[resolved.value].(name := Some(name))];
      Persist();
      return Done;
    }

    method NoteSeen(fingerprint: string, ip: string, width: u32, height: u32)
      modifies this`state, this`disk
      ensures (View(), Done) == Perform(server, old(View()), Call.NoteSeen(fingerprint, ip, width, height))
    {
      if fingerprint in state {
        var entry, resolution := state[fingerprint], ResolutionKey(width, height);
        entry := entry.(lastSeenIp := Some(ip));
        entry := entry.(seenResolutions := entry.seenResolutions + {resolution});
        entry := entry.(lastSeenResolution := Some(resolution));
        state := state[fingerprint := entry];
        Persist();
      }
    }
  }
}
