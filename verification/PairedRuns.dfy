/** Whole runs of the paired store: what stays unchanged, and which scale a session is given. */
module PairedRuns {
  import opened Bytes
  import Crypto
  import opened PairedStore
  import opened Pairing
  import opened PairingRuns
  import opened Resolution

  // Frames and invariants.

  /** The one record a call may touch. */
  ghost function Target(s: Server, m: Manager, c: Call): Option<string> {
    match c
    case SetScalePaired(f, _, _) => (match Resolve(m.state.Keys, f) case Ok(k) => Some(k) case Err(_) => None)
    case SetNamePaired(f, _) => (match Resolve(m.state.Keys, f) case Ok(k) => Some(k) case Err(_) => None)
    case NoteSeen(f, _, _, _) => Some(f)
    case CheckSecret(id, _, _) => if id in m.pending then s.suite.fingerprint(m.pending[id].cert) else None
    case _ => None
  }

  /** A call on one fingerprint leaves every other record as it was, and removes none. */
  lemma OthersUnchanged(s: Server, m: Manager, c: Call, fingerprint: string)
    requires DiskAgrees(m) && fingerprint in m.state
    ensures fingerprint in Perform(s, m, c).0.state
    ensures Target(s, m, c) != Some(fingerprint) ==> Perform(s, m, c).0.state[fingerprint] == m.state[fingerprint]
  {
    hide AnswerChallenge, AnswerResponse, DeriveKey, Resolve, Migrate;
    DiskStep(s, m, c);
  }

  lemma {:induction false} KeysNeverShrink(s: Server, m: Manager, calls: seq<Call>, i: nat, fingerprint: string)
    requires DiskAgrees(m) && i <= |calls| && fingerprint in After(s, m, calls[..i]).state
    ensures fingerprint in After(s, m, calls).state
  {
    hide Perform;
    if i == |calls| {
      assert calls[..i] == calls;
    } else {
      var n := |calls| - 1;
      assert calls[..n][..i] == calls[..i];
      KeysNeverShrink(s, m, calls[..n], i, fingerprint);
      PairedExactly(s, m, calls[..n], fingerprint);
      PairedStep(s, After(s, m, calls[..n]), calls[n], fingerprint);
    }
  }

  /** The last resolution seen is among the resolutions seen. */
  predicate SeenValid(p: Paired) {
    p.lastSeenResolution.Some? ==> p.lastSeenResolution.value in p.seenResolutions
  }

  ghost predicate AllSeenValid(m: Manager) { forall f <- m.state :: SeenValid(m.state[f]) }

  lemma SeenStep(s: Server, m: Manager, c: Call)
    requires DiskAgrees(m) && AllSeenValid(m)
    ensures AllSeenValid(Perform(s, m, c).0)
  {
    hide AnswerChallenge, AnswerResponse, DeriveKey, Resolve, Migrate, Verified, Encoded;
    DiskStep(s, m, c);
    if c.SetScalePaired? || c.SetNamePaired? {
      ResolveIsKey(m.state.Keys, c.fingerprint);
    }
  }

  /** If the loaded records are consistent about what was seen, they stay so over every run. */
  lemma {:induction false} SeenAlways(s: Server, m: Manager, calls: seq<Call>)
    requires DiskAgrees(m) && AllSeenValid(m)
    ensures DiskAgrees(After(s, m, calls)) && AllSeenValid(After(s, m, calls))
  {
    hide Perform, AllSeenValid, DiskAgrees;
    if calls != [] {
      var n := |calls| - 1;
      SeenAlways(s, m, calls[..n]);
      SeenStep(s, After(s, m, calls[..n]), calls[n]);
      DiskStep(s, After(s, m, calls[..n]), calls[n]);
    }
  }

  // Which scale a session gets: a specification by the history of settings.

  datatype Setting = ForSize(size: Size, scale: real) | Default(scale: real)

  /** The scale last set for exactly this size. */
  function LastFor(settings: seq<Setting>, size: Size): Option<real> {
    if settings == [] then None else
      var last := settings[|settings| - 1];
      if last.ForSize? && last.size == size then Some(last.scale) else LastFor(settings[..|settings| - 1], size)
  }

  function LastDefault(settings: seq<Setting>): Option<real> {
    if settings == [] then None else
      var last := settings[|settings| - 1];
      if last.Default? then Some(last.scale) else LastDefault(settings[..|settings| - 1])
  }

  /** Settings made since a record was loaded or created, over what it began with. */
  datatype Entry = Entry(base: Paired, settings: seq<Setting>)

  const BLANK := Paired(None, map[], None, None, None, {})

  /** The value last set for this size, else the last default. */
  function Lookup(e: Entry, size: Size): Option<real> {
    var own, key := LastFor(e.settings, size), ResolutionKey(size.0, size.1);
    if own.Some? then own
    else if key in e.base.scaleByResolution then Some(e.base.scaleByResolution[key])
    else if LastDefault(e.settings).Some? then LastDefault(e.settings)
    else e.base.scale
  }

  datatype Draft = Draft(cert: Cert, settings: seq<Setting>)

  /** The settings of every pending client and paired device, told by calls and answers alone. */
  datatype Book = Book(drafts: map<string, Draft>, entries: map<string, Entry>)

  function SettingOf(scale: real, resolution: Option<Size>): Setting {
    match resolution case Some(size) => ForSize(size, scale) case None => Default(scale)
  }

  ghost function BookStep(s: Server, b: Book, c: Call, reply: Reply): Book {
    if c.StartPairing? then b.(drafts := b.drafts[c.id := Draft(c.cert, [])])
    else if c.Restart? then b.(drafts := map[])
    else if reply != Done then b
    else match c
      case SetScalePending(id, scale, resolution) =>
        if id !in b.drafts then b
        else b.(drafts := b.drafts[id := b.drafts[id].(settings := b.drafts[id].settings + [SettingOf(scale, resolution)])])
      case SetScalePaired(f, scale, resolution) =>
        (match Resolve(b.entries.Keys, f)
         case Err(_) => b
         case Ok(k) =>
           ResolveIsKey(b.entries.Keys, f);
           b.(entries := b.entries[k := b.entries[k].(settings := b.entries[k].settings + [SettingOf(scale, resolution)])]))
      case CheckSecret(id, _, _) =>
        if id !in b.drafts then b
        else (match s.suite.fingerprint(b.drafts[id].cert)
              case None => b
              case Some(f) => b.(entries := b.entries[f := Entry(BLANK, b.drafts[id].settings)]))
      case _ => b
  }

  ghost function BookAfter(s: Server, m: Manager, calls: seq<Call>): Book {
    if calls == [] then Book(map[], map f | f in m.state :: Entry(m.state[f], [])) else
      var n := |calls| - 1;
      BookStep(s, BookAfter(s, m, calls[..n]), calls[n], Replied(s, m, calls, n))
  }

  /** A record whose scales are those of a history. */
  ghost predicate ScalesMatch(scale: Option<real>, byResolution: map<string, real>, e: Entry) {
    && scale == Or(LastDefault(e.settings), e.base.scale)
    && forall size: Size ::
         Override(byResolution, ResolutionKey(size.0, size.1))
         == Or(LastFor(e.settings, size), Override(e.base.scaleByResolution, ResolutionKey(size.0, size.1)))
  }

  ghost predicate DraftMatches(p: Pending, d: Draft) {
    p.cert == d.cert && ScalesMatch(p.scale, p.scaleByResolution, Entry(BLANK, d.settings))
  }

  ghost predicate EntryMatches(p: Paired, e: Entry) { ScalesMatch(p.scale, p.scaleByResolution, e) }

  ghost predicate BookMatches(m: Manager, b: Book) {
    && m.pending.Keys == b.drafts.Keys && (forall id <- m.pending :: DraftMatches(m.pending[id], b.drafts[id]))
    && m.state.Keys == b.entries.Keys && (forall f <- m.state :: EntryMatches(m.state[f], b.entries[f]))
  }

  lemma Later(settings: seq<Setting>, x: Setting)
    ensures LastDefault(settings + [x]) == if x.Default? then Some(x.scale) else LastDefault(settings)
    ensures forall size :: LastFor(settings + [x], size)
                        == if x.ForSize? && x.size == size then Some(x.scale) else LastFor(settings, size)
  {
    assert (settings + [x])[..|settings|] == settings;
  }

  /** One more setting: the record's fields follow the history. Distinct sizes have distinct keys. */
  lemma SettingMatches(scale: Option<real>, byResolution: map<string, real>, e: Entry, x: real, resolution: Option<Size>)
    requires ScalesMatch(scale, byResolution, e)
    ensures var f := e.(settings := e.settings + [SettingOf(x, resolution)]);
            match resolution
            case Some(size) => ScalesMatch(scale, byResolution[ResolutionKey(size.0, size.1) := x], f)
            case None => ScalesMatch(Some(x), byResolution, f)
  {
    hide ResolutionKey, LastFor, LastDefault;
    Later(e.settings, SettingOf(x, resolution));
    if resolution.Some? {
      var chosen := resolution.value;
      forall size: Size | ResolutionKey(size.0, size.1) == ResolutionKey(chosen.0, chosen.1) ensures size == chosen {
        KeyInjective(size.0, size.1, chosen.0, chosen.1);
      }
    }
  }

  lemma ScalePairedMatches(s: Server, m: Manager, b: Book, c: Call)
    requires BookMatches(m, b) && c.SetScalePaired?
    ensures BookMatches(Perform(s, m, c).0, BookStep(s, b, c, Perform(s, m, c).1))
  {
    hide Resolve, ScalesMatch, Encoded;
    ResolveIsKey(m.state.Keys, c.fingerprint);
    var r := Resolve(m.state.Keys, c.fingerprint);
    if r.Ok? {
      SettingMatches(m.state[r.value].scale, m.state[r.value].scaleByResolution, b.entries[r.value], c.scale, c.resolution);
    }
  }

  lemma ScalePendingMatches(s: Server, m: Manager, b: Book, c: Call)
    requires BookMatches(m, b) && c.SetScalePending?
    ensures BookMatches(Perform(s, m, c).0, BookStep(s, b, c, Perform(s, m, c).1))
  {
    hide Resolve, ScalesMatch, EntryMatches;
    if c.id in m.pending {
      var p := m.pending[c.id];
      SettingMatches(p.scale, p.scaleByResolution, Entry(BLANK, b.drafts[c.id].settings), c.scale, c.resolution);
    }
  }

  lemma CheckSecretMatches(s: Server, m: Manager, b: Book, c: Call)
    requires BookMatches(m, b) && c.CheckSecret?
    ensures BookMatches(Perform(s, m, c).0, BookStep(s, b, c, Perform(s, m, c).1))
  {
    hide Resolve, ScalesMatch, Encoded;
  }

  /** Calls that set no scale. */
  lemma OtherCallsMatch(s: Server, m: Manager, b: Book, c: Call)
    requires DiskAgrees(m) && BookMatches(m, b)
    requires !c.SetScalePaired? && !c.SetScalePending? && !c.CheckSecret? && !c.SetNamePaired? && !c.NoteSeen?
    ensures BookMatches(Perform(s, m, c).0, BookStep(s, b, c, Perform(s, m, c).1))
  {
    hide AnswerChallenge, AnswerResponse, DeriveKey, Resolve, Migrate, ScalesMatch, EntryMatches, Encoded, Verified;
    hide UpdatePaired;
    DiskStep(s, m, c);
    BlankMatches();
    if !c.Restart? && !c.StartPairing? && c.id in m.pending {
      HandshakeKeepsSettings(s, m.pending[c.id], c);
    }
  }

  lemma HandshakeKeepsSettings(s: Server, p: Pending, c: Call)
    ensures c.ClientChallenge? ==>
      var q := AnswerChallenge(s, p, c.challenge, c.drawnSecret, c.drawnChallenge).p;
      q.cert == p.cert && q.scale == p.scale && q.scaleByResolution == p.scaleByResolution
    ensures c.ChallengeResponse? ==>
      var q := AnswerResponse(s, p, c.response).p;
      q.cert == p.cert && q.scale == p.scale && q.scaleByResolution == p.scaleByResolution
  {
    hide Crypto.EcbDecrypted, Crypto.EcbEncrypted;
  }

  lemma NameAndSeenMatch(s: Server, m: Manager, b: Book, c: Call)
    requires BookMatches(m, b) && (c.SetNamePaired? || c.NoteSeen?)
    ensures BookMatches(Perform(s, m, c).0, BookStep(s, b, c, Perform(s, m, c).1))
  {
    hide Resolve, ScalesMatch, DraftMatches, Encoded;
    ResolveIsKey(m.state.Keys, c.fingerprint);
  }

  lemma BookMatchesStep(s: Server, m: Manager, b: Book, c: Call)
    requires DiskAgrees(m) && BookMatches(m, b)
    ensures BookMatches(Perform(s, m, c).0, BookStep(s, b, c, Perform(s, m, c).1))
  {
    hide Perform, BookStep, BookMatches;
    match c
    case SetScalePaired(_, _, _) => ScalePairedMatches(s, m, b, c);
    case SetScalePending(_, _, _) => ScalePendingMatches(s, m, b, c);
    case CheckSecret(_, _, _) => CheckSecretMatches(s, m, b, c);
    case SetNamePaired(_, _) => NameAndSeenMatch(s, m, b, c);
    case NoteSeen(_, _, _, _) => NameAndSeenMatch(s, m, b, c);
    case _ => OtherCallsMatch(s, m, b, c);
  }

  lemma BlankMatches()
    ensures ScalesMatch(None, map[], Entry(BLANK, []))
  {}

  lemma {:induction false} BookAlways(s: Server, m: Manager, calls: seq<Call>)
    requires m.pending == map[] && DiskAgrees(m)
    ensures BookMatches(After(s, m, calls), BookAfter(s, m, calls)) && DiskAgrees(After(s, m, calls))
  {
    hide Perform, BookStep;
    if calls == [] {
      BookStarts(s, m);
    } else {
      var n := |calls| - 1;
      BookAlways(s, m, calls[..n]);
      BookMatchesStep(s, After(s, m, calls[..n]), BookAfter(s, m, calls[..n]), calls[n]);
      DiskStep(s, After(s, m, calls[..n]), calls[n]);
    }
  }

  lemma BookStarts(s: Server, m: Manager)
    requires m.pending == map[]
    ensures BookMatches(m, BookAfter(s, m, []))
  {
    hide ResolutionKey;
  }

  function ScaleForFingerprint(m: Manager, fingerprint: string, size: Size): Option<real> {
    if fingerprint in m.state then ScaleOf(m.state[fingerprint], size.0, size.1) else None
  }

  /**
   The scale a session is given, over every run: for a paired device, the value last set for exactly
   the requested size, else the last default, counting what was set while it was pending; a new
   pairing starts from the settings made during its own handshake.
   */
  lemma ScaleFollowsHistory(s: Server, m: Manager, calls: seq<Call>, fingerprint: string, size: Size)
    requires m.pending == map[] && DiskAgrees(m)
    ensures var b := BookAfter(s, m, calls);
            ScaleForFingerprint(After(s, m, calls), fingerprint, size)
            == if fingerprint in b.entries then Lookup(b.entries[fingerprint], size) else None
  {
    hide Perform, BookStep, After, BookAfter, ResolutionKey;
    BookAlways(s, m, calls);
  }
}
