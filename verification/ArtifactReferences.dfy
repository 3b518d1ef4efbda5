/**
  Which manifests a cache keeps alive: the files under refs/ and the locked files under leases/ each name
  one by its digest, in a line format whose parser is inverted here.
*/
module ArtifactReferences {
  import opened Prelude
  import opened ArtifactNames
  import opened Strings

  const REFERENCE_MAGIC := "CHNXTREF1"
  const LEASE_MAGIC := "CHNXTLEASE1"
  const REFERENCE_FIELDS: seq<string> := ["target", "root", "manifest"]
  const LEASE_FIELDS: seq<string> := ["session", "target", "root", "manifest"]

  // contents holds every file that can be read, lines every one of those that is UTF-8 text,
  // and locked the leases whose lock another process holds.
  datatype Cache = Cache(
    entries: seq<Entry>,
    contents: map<string, seq<byte>>,
    lines: map<string, seq<string>>,
    locked: set<string>)

  // ---- The line format ----

  predicate GoodValue(value: string) {
    value != "" && '\t' !in value && '\r' !in value && '\n' !in value
  }

  function FieldLine(field: string, value: string): string { field + "\t" + value }

  predicate Distinct(fields: seq<string>) {
    forall i, j :: 0 <= i < j < |fields| ==> fields[i] != fields[j]
  }

  // These lines are the magic followed by one line for each field.
  ghost predicate Spells(lines: seq<string>, magic: string, fields: seq<string>, values: map<string, string>) {
    && |lines| == |fields| + 1 && lines[0] == magic
    && (forall field :: field in values <==> field in fields)
    && forall i :: 0 <= i < |fields| ==>
        GoodValue(values[fields[i]]) && lines[i + 1] == FieldLine(fields[i], values[fields[i]])
  }

  lemma SpellingIsUnique(lines: seq<string>, magic: string, fields: seq<string>,
                         a: map<string, string>, b: map<string, string>)
    requires Spells(lines, magic, fields, a) && Spells(lines, magic, fields, b)
    ensures a == b
  {
    forall field | field in a
      ensures a[field] == b[field]
    {
      var i :| 0 <= i < |fields| && fields[i] == field;
      assert FieldLine(field, a[field])[|field| + 1..] == a[field];
      assert FieldLine(field, b[field])[|field| + 1..] == b[field];
    }
  }

  method ParseFields(lines: seq<string>, magic: string, fields: seq<string>)
    returns (r: Option<map<string, string>>)
    requires Distinct(fields)
    ensures r.Some? ==> Spells(lines, magic, fields, r.value)
    ensures r.None? ==> forall values :: !Spells(lines, magic, fields, values)
  {
    if |lines| != |fields| + 1 || lines[0] != magic {
      return None;
    }
    var result: map<string, string> := map[];
    for i := 0 to |fields|
      invariant forall field :: field in result <==> field in fields[..i]
      invariant forall j :: 0 <= j < i ==>
        GoodValue(result[fields[j]]) && lines[j + 1] == FieldLine(fields[j], result[fields[j]])
    {
      var line, field := lines[i + 1], fields[i];
      var prefix := field + "\t";
      assert forall value :: FieldLine(field, value)[..|prefix|] == prefix;
      assert forall value :: FieldLine(field, value)[|prefix|..] == value;
      if !(prefix <= line) || field in result {
        return None;
      }
      var value := line[|prefix|..];
      assert line == FieldLine(field, value);
      if value == "" || '\t' in value || '\r' in value || '\n' in value {
        return None;
      }
      result := result[field := value];
      assert fields[..i + 1] == fields[..i] + [field];
    }
    assert fields[..|fields|] == fields;
    return Some(result);
  }

  // ---- Canonical files by digest ----

  predicate NamedBy(e: Entry, digest: string) {
    DigestFromName(e.relative) == Some(digest) && IsCanonical(e, digest)
  }

  function CanonicalNamed(entries: seq<Entry>, digest: string): (r: seq<Entry>)
    ensures forall e :: e in r <==> e in entries && NamedBy(e, digest)
  {
    if entries == [] then []
    else
      var last := entries[|entries| - 1];
      var before := CanonicalNamed(entries[..|entries| - 1], digest);
      assert entries == entries[..|entries| - 1] + [last];
      before + if NamedBy(last, digest) then [last] else []
  }

  function OfFamily(entries: seq<Entry>, family: string): (r: seq<Entry>)
    ensures forall e :: e in r <==> e in entries && e.family == family
  {
    if entries == [] then []
    else
      var last := entries[|entries| - 1];
      var before := OfFamily(entries[..|entries| - 1], family);
      assert entries == entries[..|entries| - 1] + [last];
      before + if last.family == family then [last] else []
  }

  // The dictionary from digests to canonical files, and its keys in the order they were added.
  ghost predicate Indexes(entries: seq<Entry>, index: map<string, seq<Entry>>, order: seq<string>) {
    && (forall d :: d in index <==> d in order)
    && (forall d :: d !in index ==> CanonicalNamed(entries, d) == [])
    && forall d :: d in index ==> index[d] == CanonicalNamed(entries, d) && IsDigest(d)
  }

  lemma IndexNext(entries: seq<Entry>, i: nat, d: string)
    requires i < |entries|
    ensures CanonicalNamed(entries[..i + 1], d) ==
      CanonicalNamed(entries[..i], d) + if NamedBy(entries[i], d) then [entries[i]] else []
  {
    assert entries[..i + 1][..i] == entries[..i];
  }

  lemma NextEntryIsNotCanonical(entries: seq<Entry>, i: nat, index: map<string, seq<Entry>>, order: seq<string>)
    requires i < |entries| && Indexes(entries[..i], index, order)
    requires forall d :: !NamedBy(entries[i], d)
    ensures Indexes(entries[..i + 1], index, order)
  {
    hide CanonicalNamed, NamedBy;
    forall d ensures CanonicalNamed(entries[..i + 1], d) == CanonicalNamed(entries[..i], d) {
      IndexNext(entries, i, d);
    }
  }

  lemma NextEntryIsCanonical(entries: seq<Entry>, i: nat, index: map<string, seq<Entry>>, order: seq<string>,
                             digest: string)
    requires i < |entries| && Indexes(entries[..i], index, order)
    requires IsDigest(digest) && digest in index
    requires forall d :: NamedBy(entries[i], d) <==> d == digest
    ensures Indexes(entries[..i + 1], index[digest := index[digest] + [entries[i]]], order)
  {
    hide CanonicalNamed, NamedBy;
    forall d
      ensures CanonicalNamed(entries[..i + 1], d)
        == CanonicalNamed(entries[..i], d) + if d == digest then [entries[i]] else []
    {
      IndexNext(entries, i, d);
    }
  }

  lemma FreshDigest(entries: seq<Entry>, index: map<string, seq<Entry>>, order: seq<string>, digest: string)
    requires Indexes(entries, index, order) && IsDigest(digest) && digest !in index
    ensures Indexes(entries, index[digest := []], order + [digest])
  {
    hide CanonicalNamed;
  }

  method BuildIndex(entries: seq<Entry>) returns (index: map<string, seq<Entry>>, order: seq<string>)
    ensures Indexes(entries, index, order)
  {
    hide CanonicalNamed, DigestFromName, IsCanonical, Indexes;
    index, order := map[], [];
    assert Indexes(entries[..0], index, order) by {
      NothingIndexed();
    }
    for i := 0 to |entries|
      invariant Indexes(entries[..i], index, order)
    {
      var entry := entries[i];
      var name := DigestFromName(entry.relative);
      if name.Some? && IsCanonical(entry, name.value) {
        var digest := name.value;
        if digest !in index {
          FreshDigest(entries[..i], index, order, digest);
          index, order := index[digest := []], order + [digest];
        }
        NextEntryIsCanonical(entries, i, index, order, digest);
        index := index[digest := index[digest] + [entry]];
      } else {
        NextEntryIsNotCanonical(entries, i, index, order);
      }
    }
    assert entries[..|entries|] == entries;
  }

  lemma NothingIndexed()
    ensures Indexes([], map[], [])
  {
  }

  // ---- Roots ----

  predicate Between(prefix: string, s: string, suffix: string) {
    prefix <= s && |suffix| <= |s| && s[|s| - |suffix|..] == suffix
  }

  // The file spells a well-formed reference to the manifest with this digest.
  ghost predicate Spelled(cache: Cache, e: Entry, magic: string, fields: seq<string>, digest: string) {
    e.relative in cache.lines && exists values: map<string, string> ::
      && Spells(cache.lines[e.relative], magic, fields, values)
      && ("session" in values ==> IsDigest(values["session"]))
      && "manifest" in values && values["manifest"] == digest && IsDigest(digest)
  }

  function Manifests(cache: Cache, digest: string): seq<Entry> {
    OfFamily(CanonicalNamed(cache.entries, digest), "manifests")
  }

  datatype RootKind = SessionReference | ActiveLease

  predicate IsRootFile(cache: Cache, kind: RootKind, e: Entry) {
    e.family == "other" && match kind
      case SessionReference => Between("refs/", e.relative, ".ref")
      case ActiveLease => Between("leases/", e.relative, ".lease") && e.relative in cache.locked
  }

  function Magic(kind: RootKind): string {
    if kind == SessionReference then REFERENCE_MAGIC else LEASE_MAGIC
  }

  function Fields(kind: RootKind): (r: seq<string>)
    ensures Distinct(r) && "manifest" in r
  {
    var fields := if kind == SessionReference then REFERENCE_FIELDS else LEASE_FIELDS;
    assert fields[|fields| - 1] == "manifest";
    fields
  }

  // The file is a root of the closure and refers to this manifest, which is in the cache.
  ghost predicate Names(cache: Cache, kind: RootKind, e: Entry, digest: string) {
    && IsRootFile(cache, kind, e)
    && Spelled(cache, e, Magic(kind), Fields(kind), digest)
    && Manifests(cache, digest) != []
  }

  // Reads one root file; None is the ScanError it raises.
  method ReadRoot(cache: Cache, kind: RootKind, e: Entry, index: map<string, seq<Entry>>,
                  ghost order: seq<string>)
    returns (r: Option<set<string>>, ghost digest: string)
    requires IsRootFile(cache, kind, e)
    requires Indexes(cache.entries, index, order)
    ensures r.Some? <==> exists d :: Names(cache, kind, e, d)
    ensures forall d :: Names(cache, kind, e, d) ==> r.Some? && d == digest
    ensures r.Some? ==> forall x :: x in r.value <==> exists t :: t in Manifests(cache, digest) && t.relative == x
  {
    hide CanonicalNamed, OfFamily, IsRootFile, Fields, Magic, IsDigest, REFERENCE_FIELDS, LEASE_FIELDS,
      REFERENCE_MAGIC, LEASE_MAGIC;
    digest := "";
    if e.relative !in cache.lines {
      return None, digest;
    }
    var lines, magic, fields := cache.lines[e.relative], Magic(kind), Fields(kind);
    var parsed := ParseFields(lines, magic, fields);
    if parsed.None? {
      return None, digest;
    }
    var values := parsed.value;
    forall other | Spells(lines, magic, fields, other) ensures other == values {
      SpellingIsUnique(lines, magic, fields, other, values);
    }
    hide Spells;
    assert "manifest" in values;
    if "session" in values && !IsDigest(values["session"]) {
      return None, digest;
    }
    if !IsDigest(values["manifest"]) {
      return None, digest;
    }
    digest := values["manifest"];
    var found := if values["manifest"] in index then index[values["manifest"]] else [];
    assert found == CanonicalNamed(cache.entries, digest);
    var roots := OfFamily(found, "manifests");
    if roots == [] {
      return None, digest;
    }
    assert Names(cache, kind, e, digest);
    r := Some(set t | t in roots :: t.relative);
  }

  // Manifests named by a root file among these.
  ghost predicate RootAmong(cache: Cache, kind: RootKind, files: seq<Entry>, x: string) {
    exists e, digest, t ::
      e in files && Names(cache, kind, e, digest) && t in Manifests(cache, digest) && t.relative == x
  }

  ghost predicate AllName(cache: Cache, kind: RootKind, files: seq<Entry>) {
    forall e :: e in files && IsRootFile(cache, kind, e) ==> exists digest :: Names(cache, kind, e, digest)
  }

  lemma OneMoreRoot(cache: Cache, kind: RootKind, files: seq<Entry>, e: Entry, digest: string, x: string)
    requires Names(cache, kind, e, digest)
    requires forall d :: Names(cache, kind, e, d) ==> d == digest
    ensures RootAmong(cache, kind, files + [e], x) <==>
      RootAmong(cache, kind, files, x) || exists t :: t in Manifests(cache, digest) && t.relative == x
  {
    hide Names, Manifests;
  }

  lemma NoMoreRoots(cache: Cache, kind: RootKind, files: seq<Entry>, e: Entry, x: string)
    requires !IsRootFile(cache, kind, e)
    ensures RootAmong(cache, kind, files + [e], x) <==> RootAmong(cache, kind, files, x)
  {
    hide Manifests, Spelled, IsRootFile;
  }

  datatype Collected = Collected(roots: set<string>) | BadReference(kind: RootKind, entry: Entry)

  // The first root file of a kind that does not name a manifest in the cache.
  ghost predicate FirstBad(cache: Cache, kind: RootKind, i: nat) {
    && i < |cache.entries| && IsRootFile(cache, kind, cache.entries[i])
    && !(exists digest :: Names(cache, kind, cache.entries[i], digest))
    && AllName(cache, kind, cache.entries[..i])
  }

  lemma BadIsFirst(cache: Cache, kind: RootKind, i: nat)
    requires i < |cache.entries| && IsRootFile(cache, kind, cache.entries[i])
    requires AllName(cache, kind, cache.entries[..i])
    requires forall digest :: !Names(cache, kind, cache.entries[i], digest)
    ensures FirstBad(cache, kind, i)
  {
    hide AllName, IsRootFile, Names;
  }

  // One pass over the root files of a kind.
  method CollectKind(cache: Cache, kind: RootKind, index: map<string, seq<Entry>>, ghost order: seq<string>)
    returns (r: Collected)
    requires Indexes(cache.entries, index, order)
    ensures r.Collected? <==> AllName(cache, kind, cache.entries)
    ensures r.Collected? ==> forall x :: x in r.roots <==> RootAmong(cache, kind, cache.entries, x)
    ensures r.BadReference? ==>
      r.kind == kind && exists i: nat :: FirstBad(cache, kind, i) && cache.entries[i] == r.entry
  {
    hide FirstBad;
    var roots: set<string> := {};
    for i := 0 to |cache.entries|
      invariant AllName(cache, kind, cache.entries[..i])
      invariant forall x :: x in roots <==> RootAmong(cache, kind, cache.entries[..i], x)
    {
      var entry := cache.entries[i];
      assert cache.entries[..i + 1] == cache.entries[..i] + [entry];
      hide Names, Manifests, IsRootFile, RootAmong, Indexes;
      if IsRootFile(cache, kind, entry) {
        var found, digest := ReadRoot(cache, kind, entry, index, order);
        if found.None? {
          BadIsFirst(cache, kind, i);
          return BadReference(kind, entry);
        }
        forall x {
          OneMoreRoot(cache, kind, cache.entries[..i], entry, digest, x);
        }
        roots := roots + found.value;
      } else {
        forall x {
          NoMoreRoots(cache, kind, cache.entries[..i], entry, x);
        }
      }
    }
    assert cache.entries[..|cache.entries|] == cache.entries;
    return Collected(roots);
  }

  ghost predicate IsRoot(cache: Cache, x: string) {
    RootAmong(cache, SessionReference, cache.entries, x) || RootAmong(cache, ActiveLease, cache.entries, x)
  }

  ghost predicate RootsAreGood(cache: Cache) {
    AllName(cache, SessionReference, cache.entries) && AllName(cache, ActiveLease, cache.entries)
  }

  // Session references first, then active leases: either every one of them names manifests that are in
  // the cache, and those are the roots, or the scan fails at the first one that does not.
  method CollectRoots(cache: Cache, index: map<string, seq<Entry>>, ghost order: seq<string>)
    returns (r: Collected)
    requires Indexes(cache.entries, index, order)
    ensures r.Collected? <==> RootsAreGood(cache)
    ensures r.Collected? ==> forall x :: x in r.roots <==> IsRoot(cache, x)
    ensures r.BadReference? ==>
      && (exists i: nat :: FirstBad(cache, r.kind, i) && cache.entries[i] == r.entry)
      && (r.kind == SessionReference <==> !AllName(cache, SessionReference, cache.entries))
  {
    hide AllName, RootAmong, Indexes, FirstBad;
    var sessions := CollectKind(cache, SessionReference, index, order);
    if sessions.BadReference? {
      return sessions;
    }
    var leases := CollectKind(cache, ActiveLease, index, order);
    if leases.BadReference? {
      return leases;
    }
    return Collected(sessions.roots + leases.roots);
  }

  ghost function Roots(cache: Cache): set<string> {
    set e | e in cache.entries && IsRoot(cache, e.relative) :: e.relative
  }

  // A root is a canonical file of the cache.
  lemma RootsAreCanonical(cache: Cache, x: string)
    requires IsRoot(cache, x)
    ensures exists t, digest :: t in cache.entries && NamedBy(t, digest) && t.relative == x
    ensures x in Roots(cache)
  {
    hide Names, IsCanonical, DigestFromName, NamedBy;
    var kind := if RootAmong(cache, SessionReference, cache.entries, x) then SessionReference else ActiveLease;
    var e, digest, t :| e in cache.entries && Names(cache, kind, e, digest) && t in Manifests(cache, digest)
                        && t.relative == x;
    assert t in cache.entries && NamedBy(t, digest);
  }

  // ---- The reference files, spelled out ----

  lemma DigestIsGoodValue(digest: string)
    requires IsDigest(digest)
    ensures GoodValue(digest)
  {
    assert digest[0] == digest[0];
    assert forall i :: 0 <= i < |digest| ==> IsHexDigit(digest[i]);
  }

  lemma FieldNames()
    ensures REFERENCE_FIELDS[0] == "target" && REFERENCE_FIELDS[1] == "root" && REFERENCE_FIELDS[2] == "manifest"
    ensures LEASE_FIELDS[0] == "session" && LEASE_FIELDS[1] == "target"
    ensures LEASE_FIELDS[2] == "root" && LEASE_FIELDS[3] == "manifest"
  {
  }

  lemma TabbedLine(field: string, tabbed: string, value: string)
    requires tabbed == field + "\t"
    ensures FieldLine(field, value) == tabbed + value
  {
  }

  // A session reference is four lines, an active lease five; each names the manifest in its last line.
  ghost predicate IsReferenceText(lines: seq<string>, target: string, root: string, digest: string) {
    && GoodValue(target) && GoodValue(root)
    && lines == ["CHNXTREF1", "target\t" + target, "root\t" + root, "manifest\t" + digest]
  }

  ghost predicate IsLeaseText(lines: seq<string>, session: string, target: string, root: string, digest: string) {
    && IsDigest(session) && GoodValue(target) && GoodValue(root)
    && lines == ["CHNXTLEASE1", "session\t" + session, "target\t" + target, "root\t" + root, "manifest\t" + digest]
  }

  lemma ReferenceIsSpelled(lines: seq<string>, values: map<string, string>)
    requires values.Keys == {"target", "root", "manifest"}
    ensures Spells(lines, Magic(SessionReference), Fields(SessionReference), values) <==>
      GoodValue(values["manifest"]) && IsReferenceText(lines, values["target"], values["root"], values["manifest"])
  {
    FieldNames();
    TabbedLine("target", "target\t", values["target"]);
    TabbedLine("root", "root\t", values["root"]);
    TabbedLine("manifest", "manifest\t", values["manifest"]);
    hide GoodValue, FieldLine;
  }

  lemma LeaseIsSpelled(lines: seq<string>, values: map<string, string>)
    requires values.Keys == {"session", "target", "root", "manifest"} && IsDigest(values["session"])
    ensures Spells(lines, Magic(ActiveLease), Fields(ActiveLease), values) <==>
      && GoodValue(values["manifest"])
      && IsLeaseText(lines, values["session"], values["target"], values["root"], values["manifest"])
  {
    FieldNames();
    DigestIsGoodValue(values["session"]);
    TabbedLine("session", "session\t", values["session"]);
    TabbedLine("target", "target\t", values["target"]);
    TabbedLine("root", "root\t", values["root"]);
    TabbedLine("manifest", "manifest\t", values["manifest"]);
    hide GoodValue, FieldLine, IsDigest;
  }

  lemma SpelledKeys(lines: seq<string>, values: map<string, string>)
    ensures Spells(lines, Magic(SessionReference), Fields(SessionReference), values) ==>
      values.Keys == {"target", "root", "manifest"}
    ensures Spells(lines, Magic(ActiveLease), Fields(ActiveLease), values) ==>
      values.Keys == {"session", "target", "root", "manifest"}
  {
    FieldNames();
    hide GoodValue, FieldLine;
    assert forall f :: f in REFERENCE_FIELDS <==> f in {"target", "root", "manifest"};
    assert forall f :: f in LEASE_FIELDS <==> f in {"session", "target", "root", "manifest"};
  }

  lemma ReferenceTextFrom(cache: Cache, e: Entry, digest: string) returns (target: string, root: string)
    requires Spelled(cache, e, Magic(SessionReference), Fields(SessionReference), digest)
    ensures IsReferenceText(cache.lines[e.relative], target, root, digest)
  {
    hide Spells, IsReferenceText, Fields, Magic, GoodValue, IsDigest;
    var lines := cache.lines[e.relative];
    var values :| Spells(lines, Magic(SessionReference), Fields(SessionReference), values)
                  && "manifest" in values && values["manifest"] == digest;
    SpelledKeys(lines, values);
    ReferenceIsSpelled(lines, values);
    target, root := values["target"], values["root"];
  }

  lemma ReferenceTextTo(cache: Cache, e: Entry, digest: string, target: string, root: string)
    requires e.relative in cache.lines && IsDigest(digest)
    requires IsReferenceText(cache.lines[e.relative], target, root, digest)
    ensures Spelled(cache, e, Magic(SessionReference), Fields(SessionReference), digest)
  {
    DigestIsGoodValue(digest);
    hide Spells, IsReferenceText, Fields, Magic, GoodValue, IsDigest;
    ReferenceIsSpelled(cache.lines[e.relative], map["target" := target, "root" := root, "manifest" := digest]);
  }

  lemma LeaseTextFrom(cache: Cache, e: Entry, digest: string)
      returns (session: string, target: string, root: string)
    requires Spelled(cache, e, Magic(ActiveLease), Fields(ActiveLease), digest)
    ensures IsLeaseText(cache.lines[e.relative], session, target, root, digest)
  {
    hide Spells, IsLeaseText, Fields, Magic, GoodValue, IsDigest;
    var lines := cache.lines[e.relative];
    var values :| Spells(lines, Magic(ActiveLease), Fields(ActiveLease), values)
                  && ("session" in values ==> IsDigest(values["session"]))
                  && "manifest" in values && values["manifest"] == digest;
    SpelledKeys(lines, values);
    LeaseIsSpelled(lines, values);
    session, target, root := values["session"], values["target"], values["root"];
  }

  lemma LeaseTextTo(cache: Cache, e: Entry, digest: string, session: string, target: string, root: string)
    requires e.relative in cache.lines && IsDigest(digest)
    requires IsLeaseText(cache.lines[e.relative], session, target, root, digest)
    ensures Spelled(cache, e, Magic(ActiveLease), Fields(ActiveLease), digest)
  {
    DigestIsGoodValue(digest);
    LeaseTextHasSession(cache.lines[e.relative], session, target, root, digest);
    hide Spells, IsLeaseText, Fields, Magic, GoodValue, IsDigest;
    LeaseIsSpelled(cache.lines[e.relative],
                   map["session" := session, "target" := target, "root" := root, "manifest" := digest]);
  }

  lemma LeaseTextHasSession(lines: seq<string>, session: string, target: string, root: string, digest: string)
    requires IsLeaseText(lines, session, target, root, digest)
    ensures IsDigest(session)
  {
  }

  // A session reference names a manifest exactly when it lies under refs/, spells that digest in its four lines,
  // and the manifest is in the cache.
  lemma SessionReferencesAreRead(cache: Cache, e: Entry, digest: string)
    ensures Names(cache, SessionReference, e, digest) <==>
      && e.family == "other" && Between("refs/", e.relative, ".ref")
      && e.relative in cache.lines && IsDigest(digest) && Manifests(cache, digest) != []
      && exists target, root :: IsReferenceText(cache.lines[e.relative], target, root, digest)
  {
    SpelledIsSpelled(cache, e, SessionReference, digest);
    hide Spelled, IsReferenceText, IsDigest, Manifests, Between, Fields, Magic;
    if e.relative in cache.lines && IsDigest(digest) {
      forall target, root | IsReferenceText(cache.lines[e.relative], target, root, digest) {
        ReferenceTextTo(cache, e, digest, target, root);
      }
      if Spelled(cache, e, Magic(SessionReference), Fields(SessionReference), digest) {
        var target, root := ReferenceTextFrom(cache, e, digest);
      }
    }
  }

  // An active lease does so under leases/, while locked, in its five lines.
  lemma ActiveLeasesAreRead(cache: Cache, e: Entry, digest: string)
    ensures Names(cache, ActiveLease, e, digest) <==>
      && e.family == "other" && Between("leases/", e.relative, ".lease") && e.relative in cache.locked
      && e.relative in cache.lines && IsDigest(digest) && Manifests(cache, digest) != []
      && exists session, target, root :: IsLeaseText(cache.lines[e.relative], session, target, root, digest)
  {
    SpelledIsSpelled(cache, e, ActiveLease, digest);
    hide Spelled, IsLeaseText, IsDigest, Manifests, Between, Fields, Magic;
    if e.relative in cache.lines && IsDigest(digest) {
      forall session, target, root | IsLeaseText(cache.lines[e.relative], session, target, root, digest) {
        LeaseTextTo(cache, e, digest, session, target, root);
      }
      if Spelled(cache, e, Magic(ActiveLease), Fields(ActiveLease), digest) {
        var session, target, root := LeaseTextFrom(cache, e, digest);
      }
    }
  }

  lemma SpelledIsSpelled(cache: Cache, e: Entry, kind: RootKind, digest: string)
    ensures Spelled(cache, e, Magic(kind), Fields(kind), digest) ==> e.relative in cache.lines && IsDigest(digest)
  {
  }

  // The two ends of a root file's path do not overlap, and every path between them is filed under "other".
  lemma RootPaths(e: Entry)
    requires Filed(e)
    ensures e.family == "other" && Between("refs/", e.relative, ".ref") <==>
      exists middle :: e.relative == "refs/" + middle + ".ref"
    ensures e.family == "other" && Between("leases/", e.relative, ".lease") <==>
      exists middle :: e.relative == "leases/" + middle + ".lease"
  {
    EndsDoNotOverlap("refs/", e.relative, ".ref");
    EndsDoNotOverlap("leases/", e.relative, ".lease");
    hide Between, Family;
    forall middle | e.relative == "refs/" + middle + ".ref"
      ensures e.family == "other"
    {
      assert e.relative == "refs" + ['/'] + (middle + ".ref");
      OtherDirectory("refs", middle + ".ref");
    }
    forall middle | e.relative == "leases/" + middle + ".lease"
      ensures e.family == "other"
    {
      assert e.relative == "leases" + ['/'] + (middle + ".lease");
      OtherDirectory("leases", middle + ".lease");
    }
  }

  lemma OtherDirectory(directory: string, rest: string)
    requires directory == "refs" || directory == "leases"
    ensures Family(directory + ['/'] + rest) == "other"
  {
    hide Before, FAMILIES;
    assert |directory| == 4 || |directory| == 6;
    if directory in FAMILIES {
      var i :| 0 <= i < |FAMILIES| && FAMILIES[i] == directory;
      FamilyLength(i);
    }
    BeforeSeparator(directory, rest, '/');
  }

  lemma FamilyLength(i: nat)
    requires i < |FAMILIES|
    ensures |FAMILIES[i]| != 4 && |FAMILIES[i]| != 6
  {
  }

  // A prefix that ends with a slash and a suffix without one cannot overlap.
  lemma EndsDoNotOverlap(prefix: string, s: string, suffix: string)
    requires prefix != "" && prefix[|prefix| - 1] == '/' && '/' !in suffix
    ensures Between(prefix, s, suffix) <==> exists middle :: s == prefix + middle + suffix
  {
    if Between(prefix, s, suffix) {
      var k, cut := |prefix| - 1, |s| - |suffix|;
      assert s[k] == '/' && forall j :: cut <= j < |s| ==> s[j] == suffix[j - cut];
      assert s == prefix + s[|prefix|..cut] + suffix;
    }
    forall middle | s == prefix + middle + suffix
      ensures Between(prefix, s, suffix)
    {
      assert s == prefix + (middle + suffix);
    }
  }

  // ---- Index files: each refers to one artifact of its target family ----

  const INDEX_FAMILIES: seq<string> := [
    "specialization-index", "type-specific-index", "nominal-semantic-witness-index", "type-layout-index"]

  function IndexMagic(family: string): string {
    if family == "specialization-index" then "CHNXTSPECREF1"
    else if family == "type-specific-index" then "CHNXTYPEIDX1"
    else if family == "nominal-semantic-witness-index" then "CHNXWITIDX1"
    else "CHNXLAYIDX1"
  }

  function IndexField(family: string): string {
    if family == "specialization-index" then "component" else "result"
  }

  function TargetFamily(family: string): string {
    if family == "specialization-index" then "specializations"
    else if family == "type-specific-index" then "type-specifics"
    else if family == "nominal-semantic-witness-index" then "nominal-semantic-witnesses"
    else "type-layouts"
  }

  predicate IsIndexFile(family: string, e: Entry) {
    e.family == family && Between("", e.relative, ".ref")
  }

  lemma IndexFilesEndInRef(family: string, e: Entry)
    ensures IsIndexFile(family, e) <==> e.family == family && exists stem :: e.relative == stem + ".ref"
  {
    var cut := |e.relative| - 4;
    if IsIndexFile(family, e) {
      assert e.relative == e.relative[..cut] + ".ref";
    }
  }

  ghost predicate RefersTo(cache: Cache, family: string, e: Entry, digest: string) {
    && e.relative in cache.lines
    && (exists values: map<string, string> ::
      && Spells(cache.lines[e.relative], IndexMagic(family), [IndexField(family)], values)
      && IndexField(family) in values && values[IndexField(family)] == digest)
    && IsDigest(digest) && OfFamily(CanonicalNamed(cache.entries, digest), TargetFamily(family)) != []
  }

  // The four kinds of index files: the family, its magic, its one field and the family it refers to.
  ghost predicate IsIndexFormat(family: string, magic: string, field: string, target: string) {
    || (family, magic, field, target)
       == ("specialization-index", "CHNXTSPECREF1", "component", "specializations")
    || (family, magic, field, target) == ("type-specific-index", "CHNXTYPEIDX1", "result", "type-specifics")
    || (family, magic, field, target)
       == ("nominal-semantic-witness-index", "CHNXWITIDX1", "result", "nominal-semantic-witnesses")
    || (family, magic, field, target) == ("type-layout-index", "CHNXLAYIDX1", "result", "type-layouts")
  }

  lemma IndexFormats(family: string, magic: string, field: string, target: string)
    requires IsIndexFormat(family, magic, field, target)
    ensures IndexMagic(family) == magic && IndexField(family) == field && TargetFamily(family) == target
    ensures family in INDEX_FAMILIES
  {
    assert INDEX_FAMILIES[0] == "specialization-index" && INDEX_FAMILIES[1] == "type-specific-index";
    assert INDEX_FAMILIES[2] == "nominal-semantic-witness-index" && INDEX_FAMILIES[3] == "type-layout-index";
  }

  lemma OneFieldIsSpelled(lines: seq<string>, magic: string, field: string, digest: string)
    requires IsDigest(digest)
    ensures (exists values: map<string, string> ::
               Spells(lines, magic, [field], values) && field in values && values[field] == digest)
       <==> lines == [magic, field + "\t" + digest]
  {
    DigestIsGoodValue(digest);
    assert FieldLine(field, digest) == field + "\t" + digest;
    hide GoodValue, IsDigest, FieldLine;
    if lines == [magic, field + "\t" + digest] {
      assert Spells(lines, magic, [field], map[field := digest]);
    }
  }

  // An index file is two lines, and refers to an artifact of its target family by the digest in the second.
  lemma IndexFilesAreRead(
      cache: Cache, e: Entry, digest: string, family: string, magic: string, field: string, target: string)
    requires IsIndexFormat(family, magic, field, target)
    ensures RefersTo(cache, family, e, digest) <==>
      && e.relative in cache.lines && cache.lines[e.relative] == [magic, field + "\t" + digest]
      && IsDigest(digest) && exists t :: t in cache.entries && NamedBy(t, digest) && t.family == target
  {
    IndexFormats(family, magic, field, target);
    hide IndexMagic, IndexField, TargetFamily, NamedBy, CanonicalNamed, OfFamily, IsDigest, Spells, IsIndexFormat;
    var found := OfFamily(CanonicalNamed(cache.entries, digest), target);
    assert found != [] ==> found[0] in found;
    if e.relative in cache.lines && IsDigest(digest) {
      OneFieldIsSpelled(cache.lines[e.relative], magic, field, digest);
    }
  }

  ghost predicate GoodIndexFile(cache: Cache, family: string, e: Entry) {
    && (exists own :: NamedBy(e, own))
    && exists digest :: RefersTo(cache, family, e, digest)
  }

  method CheckIndexFile(cache: Cache, family: string, e: Entry, index: map<string, seq<Entry>>,
                        ghost order: seq<string>)
    returns (ok: bool)
    requires Indexes(cache.entries, index, order)
    ensures ok <==> GoodIndexFile(cache, family, e)
  {
    hide CanonicalNamed, OfFamily, IndexMagic, IndexField, TargetFamily, DigestFromName, IsCanonical;
    var own := DigestFromName(e.relative);
    if own.None? || !IsCanonical(e, own.value) {
      return false;
    }
    assert NamedBy(e, own.value);
    if e.relative !in cache.lines {
      return false;
    }
    var lines, magic, field := cache.lines[e.relative], IndexMagic(family), IndexField(family);
    var parsed := ParseFields(lines, magic, [field]);
    if parsed.None? {
      return false;
    }
    var values := parsed.value;
    forall other | Spells(lines, magic, [field], other) ensures other == values {
      SpellingIsUnique(lines, magic, [field], other, values);
    }
    assert field in [field];
    var digest := values[field];
    if !IsDigest(digest) {
      return false;
    }
    var found := if digest in index then index[digest] else [];
    assert found == CanonicalNamed(cache.entries, digest);
    ok := OfFamily(found, TargetFamily(family)) != [];
    assert ok ==> RefersTo(cache, family, e, digest);
  }

  ghost predicate FamilyIsGood(cache: Cache, family: string, files: seq<Entry>) {
    forall e :: e in files && IsIndexFile(family, e) ==> GoodIndexFile(cache, family, e)
  }

  ghost predicate IndexesAreGood(cache: Cache) {
    forall family :: family in INDEX_FAMILIES ==> FamilyIsGood(cache, family, cache.entries)
  }

  method CheckIndexes(cache: Cache, index: map<string, seq<Entry>>, ghost order: seq<string>) returns (ok: bool)
    requires Indexes(cache.entries, index, order)
    ensures ok <==> IndexesAreGood(cache)
  {
    hide Indexes, GoodIndexFile, IsIndexFile, INDEX_FAMILIES;
    for f := 0 to |INDEX_FAMILIES|
      invariant forall k :: 0 <= k < f ==> FamilyIsGood(cache, INDEX_FAMILIES[k], cache.entries)
    {
      var family := INDEX_FAMILIES[f];
      for i := 0 to |cache.entries|
        invariant FamilyIsGood(cache, family, cache.entries[..i])
      {
        var entry := cache.entries[i];
        assert cache.entries[..i + 1] == cache.entries[..i] + [entry];
        if IsIndexFile(family, entry) {
          var good := CheckIndexFile(cache, family, entry, index, order);
          if !good {
            assert family in INDEX_FAMILIES && !FamilyIsGood(cache, family, cache.entries);
            return false;
          }
        }
      }
      assert cache.entries[..|cache.entries|] == cache.entries;
    }
    return true;
  }
}
