/**
 The records of paired devices, keyed by certificate fingerprint: loading them from either file
 shape, and finding one by a fingerprint prefix. JSON text is represented by what it decodes to.
 */
module PairedStore {
  import opened Bytes
  import opened Resolution

  datatype Paired = Paired(
    scale: Option<real>, scaleByResolution: map<string, real>, name: Option<string>,
    lastSeenIp: Option<string>, lastSeenResolution: Option<string>, seenResolutions: set<string>)

  /** Fingerprint to record. */
  type Store = map<string, Paired>

  function Override<V>(m: map<string, V>, key: string): Option<V> { if key in m then Some(m[key]) else None }

  function Or<T>(a: Option<T>, b: Option<T>): Option<T> { if a.Some? then a else b }

  function ScaleOf(p: Paired, width: u32, height: u32): Option<real> {
    Or(Override(p.scaleByResolution, ResolutionKey(width, height)), p.scale)
  }

  // Loading.

  datatype Legacy =
    | BareFingerprint(fingerprint: string)
    | WithScale(fingerprint: string, scale: Option<real>, scaleByResolution: map<string, real>)

  /** What a file decodes to: whether it has the current key, and its reading in either shape. */
  datatype File =
    | Absent
    | Text(hasCurrentKey: bool, current: Option<Store>, legacy: Option<map<string, Legacy>>)

  function Migrated(l: Legacy): Paired {
    match l
    case BareFingerprint(_) => Paired(None, map[], None, None, None, {})
    case WithScale(_, scale, byResolution) => Paired(scale, byResolution, None, None, None, {})
  }

  /** Legacy entries re-keyed by fingerprint, taken in the given order; later ones overwrite. */
  function Migrate(entries: map<string, Legacy>, order: seq<string>): Store
    requires forall k <- order :: k in entries
  {
    if order == [] then map[] else
      var l := entries[order[|order| - 1]];
      Migrate(entries, order[..|order| - 1])[l.fingerprint := Migrated(l)]
  }

  ghost predicate Enumerates(order: seq<string>, keys: set<string>) {
    && (forall k :: k in order <==> k in keys)
    && (forall i, j :: 0 <= i < j < |order| ==> order[i] != order[j])
  }

  /** Loading a file; only a legacy file's reading depends on the order of iteration. */
  function Load(f: File, order: seq<string>): Store
    requires NeedsOrder(f) ==> forall k <- order :: k in f.legacy.value
  {
    match f
    case Absent => map[]
    case Text(hasCurrentKey, current, legacy) =>
      if hasCurrentKey && current.Some? then current.value
      else if legacy.None? then map[]
      else Migrate(legacy.value, order)
  }

  predicate NeedsOrder(f: File) { f.Text? && !(f.hasCurrentKey && f.current.Some?) && f.legacy.Some? }

  ghost predicate OrderFor(f: File, order: seq<string>) {
    NeedsOrder(f) ==> Enumerates(order, f.legacy.value.Keys)
  }

  /** What persisting writes: the current shape, in which no legacy entry is found. */
  function Encoded(s: Store): File { Text(true, Some(s), Some(map[])) }

  /** Writing a store and loading it again gives it back, in whatever order anything is iterated. */
  lemma LoadInvertsEncoded(s: Store, order: seq<string>)
    ensures OrderFor(Encoded(s), order) && Load(Encoded(s), order) == s
  {}

  /** Whether an entry names this fingerprint. */
  predicate Names(entries: map<string, Legacy>, id: string, fingerprint: string) {
    id in entries && entries[id].fingerprint == fingerprint
  }

  /** The record of a legacy entry: its scales, and nothing known beyond them. */
  predicate CarriesOver(l: Legacy, p: Paired) {
    && (l.BareFingerprint? ==> p.scale == None && p.scaleByResolution == map[])
    && (l.WithScale? ==> p.scale == l.scale && p.scaleByResolution == l.scaleByResolution)
    && p.name == None && p.lastSeenIp == None && p.lastSeenResolution == None && p.seenResolutions == {}
  }

  /**
   What opening a file must give: nothing for an absent or unreadable one, the store itself in the
   current shape, and otherwise exactly the fingerprints that legacy entries name, each with the
   settings of an entry that names it.
   */
  ghost predicate Reads(f: File, s: Store) {
    match f
    case Absent => s == map[]
    case Text(hasCurrentKey, current, legacy) =>
      if hasCurrentKey && current.Some? then s == current.value
      else if legacy.None? then s == map[]
      else
        && (forall fp :: fp in s <==> exists id :: Names(legacy.value, id, fp))
        && forall fp :: fp in s ==> exists id :: Names(legacy.value, id, fp) && CarriesOver(legacy.value[id], s[fp])
  }

  /** Loading gives that, in whatever order legacy entries are taken. */
  lemma LoadReads(f: File, order: seq<string>)
    requires OrderFor(f, order)
    ensures Reads(f, Load(f, order))
  {
    if NeedsOrder(f) {
      var m, s := f.legacy.value, Migrate(f.legacy.value, order);
      forall fp ensures fp in s <==> exists id :: Names(m, id, fp) { MigrateKeys(m, order, fp); }
      forall fp | fp in s ensures exists id :: Names(m, id, fp) && CarriesOver(m[id], s[fp]) {
        MigrateCarries(m, order, fp);
      }
    }
  }

  lemma {:induction false} MigrateCarries(entries: map<string, Legacy>, order: seq<string>, fingerprint: string)
    requires (forall k <- order :: k in entries) && fingerprint in Migrate(entries, order)
    ensures exists id :: Names(entries, id, fingerprint) && CarriesOver(entries[id], Migrate(entries, order)[fingerprint])
  {
    var n := |order| - 1;
    if entries[order[n]].fingerprint == fingerprint {
      assert Names(entries, order[n], fingerprint);
    } else {
      assert order == order[..n] + [order[n]];
      MigrateCarries(entries, order[..n], fingerprint);
    }
  }

  method MigrateLegacy(entries: map<string, Legacy>) returns (s: Store, ghost order: seq<string>)
    ensures Enumerates(order, entries.Keys) && s == Migrate(entries, order)
    ensures forall f :: f in s <==> exists id :: Names(entries, id, f)
    ensures forall f :: f in s ==> exists id :: Names(entries, id, f) && CarriesOver(entries[id], s[f])
  {
    var left := entries.Keys;
    s, order := map[], [];
    while left != {}
      invariant left <= entries.Keys
      invariant Enumerates(order, entries.Keys - left)
      invariant s == Migrate(entries, order)
      invariant forall f :: f in s <==> exists id :: id !in left && Names(entries, id, f)
      invariant forall f :: f in s ==> exists id :: Names(entries, id, f) && CarriesOver(entries[id], s[f])
    {
      var id :| id in left;
      var (fingerprint, scale, byResolution) :=
        match entries[id]
        case BareFingerprint(f) => (f, None, map[])
        case WithScale(f, sc, m) => (f, sc, m);
      s := s[fingerprint := Paired(scale, byResolution, None, None, None, {})];
      left := left - {id};
      assert (order + [id])[..|order|] == order;
      order := order + [id];
    }
  }

  lemma {:induction false} MigrateHas(entries: map<string, Legacy>, order: seq<string>, fingerprint: string)
    requires forall k <- order :: k in entries
    ensures fingerprint in Migrate(entries, order) <==> exists k :: k in order && Names(entries, k, fingerprint)
  {
    if order != [] {
      var n := |order| - 1;
      assert order == order[..n] + [order[n]];
      MigrateHas(entries, order[..n], fingerprint);
      if k :| k in order[..n] && Names(entries, k, fingerprint) { assert k in order; }
      if Names(entries, order[n], fingerprint) { assert order[n] in order; }
    }
  }

  /** The entry that decides a fingerprint's record is the last in the order that names it. */
  lemma {:induction false} MigrateLast(entries: map<string, Legacy>, before: seq<string>, id: string, after: seq<string>)
    requires (forall k <- before + [id] + after :: k in entries)
    requires forall k <- after :: entries[k].fingerprint != entries[id].fingerprint
    ensures entries[id].fingerprint in Migrate(entries, before + [id] + after)
    ensures CarriesOver(entries[id], Migrate(entries, before + [id] + after)[entries[id].fingerprint])
  {
    var order := before + [id] + after;
    if after == [] {
      assert order == before + [id] && (before + [id])[..|before|] == before;
    } else {
      var n := |after| - 1;
      assert order[..|order| - 1] == before + [id] + after[..n];
      assert after[n] in after;
      MigrateLast(entries, before, id, after[..n]);
    }
  }

  /** No two legacy entries give one fingerprint different settings. */
  ghost predicate Consistent(entries: map<string, Legacy>) {
    forall a <- entries, b <- entries ::
      entries[a].fingerprint == entries[b].fingerprint ==> Migrated(entries[a]) == Migrated(entries[b])
  }

  lemma {:induction false} MigrateConsistent(entries: map<string, Legacy>, order: seq<string>, k: string)
    requires Consistent(entries) && (forall x <- order :: x in entries) && k in order
    ensures entries[k].fingerprint in Migrate(entries, order)
    ensures Migrate(entries, order)[entries[k].fingerprint] == Migrated(entries[k])
  {
    var n := |order| - 1;
    if entries[order[n]].fingerprint != entries[k].fingerprint {
      assert order == order[..n] + [order[n]];
      MigrateConsistent(entries, order[..n], k);
    }
  }

  lemma {:induction false} EnumerationExists(keys: set<string>) returns (order: seq<string>)
    ensures Enumerates(order, keys)
    decreases |keys|
  {
    if keys == {} {
      order := [];
    } else {
      var k :| k in keys;
      var rest := EnumerationExists(keys - {k});
      order := rest + [k];
    }
  }

  /**
   Migration keeps every device paired, but its outcome is independent of the iteration order
   exactly when the file gives no fingerprint two different settings.
   */
  lemma MigrationOrder(entries: map<string, Legacy>)
    ensures Consistent(entries)
            <==> forall o, p :: Enumerates(o, entries.Keys) && Enumerates(p, entries.Keys)
                                ==> Migrate(entries, o) == Migrate(entries, p)
  {
    hide Migrate;
    if Consistent(entries) {
      forall o, p | Enumerates(o, entries.Keys) && Enumerates(p, entries.Keys)
        ensures Migrate(entries, o) == Migrate(entries, p)
      {
        SameMigration(entries, o, p);
      }
    } else {
      var a, b :| a in entries && b in entries && entries[a].fingerprint == entries[b].fingerprint
                  && Migrated(entries[a]) != Migrated(entries[b]);
      var o := EndingWith(entries, a);
      var p := EndingWith(entries, b);
      assert Migrate(entries, o) != Migrate(entries, p);
    }
  }

  lemma SameMigration(entries: map<string, Legacy>, o: seq<string>, p: seq<string>)
    requires Consistent(entries) && Enumerates(o, entries.Keys) && Enumerates(p, entries.Keys)
    ensures Migrate(entries, o) == Migrate(entries, p)
  {
    hide Migrate, Consistent;
    forall f ensures f in Migrate(entries, o) <==> f in Migrate(entries, p) {
      MigrateKeys(entries, o, f);
      MigrateKeys(entries, p, f);
    }
    forall f | f in Migrate(entries, o) ensures Migrate(entries, o)[f] == Migrate(entries, p)[f] {
      MigrateKeys(entries, o, f);
      var k :| Names(entries, k, f);
      MigrateConsistent(entries, o, k);
      MigrateConsistent(entries, p, k);
    }
  }

  /** The migrated fingerprints are those of the file. */
  lemma MigrateKeys(entries: map<string, Legacy>, order: seq<string>, fingerprint: string)
    requires Enumerates(order, entries.Keys)
    ensures fingerprint in Migrate(entries, order) <==> exists k :: Names(entries, k, fingerprint)
  {
    hide Migrate;
    MigrateHas(entries, order, fingerprint);
  }

  lemma EndingWith(entries: map<string, Legacy>, last: string) returns (order: seq<string>)
    requires last in entries
    ensures Enumerates(order, entries.Keys)
    ensures entries[last].fingerprint in Migrate(entries, order)
         && Migrate(entries, order)[entries[last].fingerprint] == Migrated(entries[last])
  {
    var rest := EnumerationExists(entries.Keys - {last});
    order := rest + [last];
  }

  // Finding a record.

  datatype ResolveError = NoMatch | Ambiguous(matches: set<string>)

  function Matches(keys: set<string>, prefix: string): set<string> { set k | k in keys && prefix <= k }

  /** The fingerprint itself if it is a key, else the only key it is a prefix of. */
  ghost function Resolve(keys: set<string>, prefix: string): Result<string, ResolveError> {
    var matches := Matches(keys, prefix);
    if prefix in keys then Ok(prefix)
    else if |matches| == 0 then Err(NoMatch)
    else if |matches| == 1 then (var k :| k in matches; Ok(k))
    else Err(Ambiguous(matches))
  }

  /** `key` is the only one the prefix can mean. */
  ghost predicate Means(keys: set<string>, prefix: string, key: string) {
    && key in keys && prefix <= key
    && (key == prefix || (prefix !in keys && forall k :: k in keys && prefix <= k ==> k == key))
  }

  /** Resolving finds the key meant exactly when there is one, in whatever order the keys come. */
  lemma ResolveExactly(keys: set<string>, prefix: string)
    ensures forall key :: Resolve(keys, prefix) == Ok(key) <==> Means(keys, prefix, key)
    ensures Resolve(keys, prefix) == Err(NoMatch) <==> forall k :: k in keys ==> !(prefix <= k)
  {
    var matches := Matches(keys, prefix);
    assert forall k :: k in matches <==> k in keys && prefix <= k;
    if prefix !in keys {
      forall key | Means(keys, prefix, key) ensures |matches| == 1 {
        assert matches == {key};
      }
      if |matches| == 1 {
        var k :| k in matches;
        OnlyMember(matches, k);
      } else if matches != {} {
        var k :| k in matches;
      }
    }
  }

  lemma {:induction false} DistinctCount(s: seq<string>, elements: set<string>)
    requires Enumerates(s, elements)
    ensures |elements| == |s|
  {
    if s == [] {
      assert elements == {};
    } else {
      var n := |s| - 1;
      assert forall i :: 0 <= i < n ==> s[..n][i] == s[i];
      assert s == s[..n] + [s[n]];
      DistinctCount(s[..n], elements - {s[n]});
    }
  }

  method ResolveFingerprint(s: Store, prefix: string) returns (r: Result<string, ResolveError>)
    ensures r == Resolve(s.Keys, prefix)
  {
    if prefix in s { return Ok(prefix); }
    var left, matched: seq<string> := s.Keys, [];
    while left != {}
      invariant left <= s.Keys
      invariant Enumerates(matched, Matches(s.Keys - left, prefix))
    {
      var k :| k in left;
      assert k !in Matches(s.Keys - left, prefix);
      if prefix <= k { matched := matched + [k]; }
      left := left - {k};
    }
    assert s.Keys - left == s.Keys;
    DistinctCount(matched, Matches(s.Keys, prefix));
    if |matched| == 0 { return Err(NoMatch); }
    if |matched| == 1 {
      OnlyMember(Matches(s.Keys, prefix), matched[0]);
      return Ok(matched[0]);
    }
    return Err(Ambiguous(set k | k in s.Keys && prefix <= k));
  }

  lemma OnlyMember(keys: set<string>, k: string)
    requires |keys| == 1 && k in keys
    ensures keys == {k}
  {
    assert |keys - {k}| == 0;
  }
}
