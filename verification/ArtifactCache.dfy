/**
  The reachability scan of the artifact cache: a worklist marks every file whose digest occurs in the
  bytes of a marked file, and each family is then charged with its reachable and unreachable bytes.
*/
module ArtifactCache {
  import opened Prelude
  import opened ArtifactNames
  import opened ArtifactReferences
  import Hex

  // ---- Raw digests ----

  function Zeros(n: nat): string { if n == 0 then "" else "0" + Zeros(n - 1) }

  const ZERO_DIGEST := Zeros(64)

  function DigitValue(c: char): (v: nat)
    requires IsHexDigit(c)
    ensures v < 16
  {
    if c <= '9' then (c - '0') as nat else (c - 'a') as nat + 10
  }

  function RawByte(digest: string, i: nat): byte
    requires IsDigest(digest) && i < 32
  {
    16 * DigitValue(digest[2 * i]) + DigitValue(digest[2 * i + 1])
  }

  function RawDigest(digest: string): (r: seq<byte>)
    requires IsDigest(digest)
    ensures |r| == 32
  {
    seq(32, i requires 0 <= i < 32 => RawByte(digest, i))
  }

  lemma DigitsAreRead(a: char, b: char, c: char, d: char)
    requires IsHexDigit(a) && IsHexDigit(b) && IsHexDigit(c) && IsHexDigit(d)
    requires 16 * DigitValue(a) + DigitValue(b) == 16 * DigitValue(c) + DigitValue(d)
    ensures a == c && b == d
  {
    assert DigitValue(a) == DigitValue(c) && DigitValue(b) == DigitValue(d);
  }

  lemma DigitIsSpelled(c: char)
    requires IsHexDigit(c)
    ensures Hex.HexDigit(DigitValue(c)) == c as nat
  {
  }

  lemma MarkerByte(digest: string, k: nat)
    requires IsDigest(digest) && k < 32
    ensures Hex.HexByte(RawDigest(digest)[k])[0] == digest[2 * k] as nat
    ensures Hex.HexByte(RawDigest(digest)[k])[1] == digest[2 * k + 1] as nat
  {
    assert RawDigest(digest)[k] == RawByte(digest, k);
    hide DigitValue, Hex.HexDigit;
    DigitIsSpelled(digest[2 * k]);
    DigitIsSpelled(digest[2 * k + 1]);
  }

  // The marker is the 32 bytes whose hexadecimal digits the digest is.
  lemma MarkerIsSpelled(digest: string, i: nat)
    requires IsDigest(digest) && i < 64
    ensures Hex.Hex(RawDigest(digest))[i] == digest[i] as nat
  {
    hide RawDigest, Hex.Hex, Hex.HexByte;
    Hex.HexAt(RawDigest(digest), i / 2);
    MarkerByte(digest, i / 2);
    assert i == 2 * (i / 2) || i == 2 * (i / 2) + 1;
  }

  lemma SpelledDigit(n: byte)
    requires n < 16
    ensures IsHexDigit(Hex.HexDigit(n) as char)
  {
  }

  ghost predicate SpellsBytes(s: string, b: seq<byte>) {
    |b| == 32 && |s| == 64 && forall i :: 0 <= i < 64 ==> s[i] as nat == Hex.Hex(b)[i]
  }

  // The digests are the lower-case hexadecimal spellings of 32 bytes, and the marker of a digest is its bytes.
  lemma DigestsSpellBytes(s: string)
    ensures IsDigest(s) <==> exists b :: SpellsBytes(s, b)
    ensures IsDigest(s) ==> SpellsBytes(s, RawDigest(s))
  {
    hide Hex.HexDigit, RawDigest, Hex.Hex, IsHexDigit;
    if IsDigest(s) {
      forall i | 0 <= i < 64
        ensures s[i] as nat == Hex.Hex(RawDigest(s))[i]
      {
        MarkerIsSpelled(s, i);
      }
      assert SpellsBytes(s, RawDigest(s));
    }
    forall b | SpellsBytes(s, b)
      ensures IsDigest(s)
    {
      forall i | 0 <= i < 64
        ensures IsHexDigit(s[i])
      {
        SpelledAt(b, i);
        assert s[i] == Hex.Hex(b)[i] as char;
      }
    }
  }

  lemma SpelledAt(b: seq<byte>, i: nat)
    requires i < 2 * |b|
    ensures IsHexDigit(Hex.Hex(b)[i] as char)
  {
    hide Hex.HexDigit, Hex.Hex, IsHexDigit;
    Hex.HexAt(b, i / 2);
    SpelledDigit(b[i / 2] / 16);
    SpelledDigit(b[i / 2] % 16);
    assert i == 2 * (i / 2) || i == 2 * (i / 2) + 1;
  }

  // Two digests are found at the same place only when they are the same digest.
  lemma RawDigestIsInjective(a: string, b: string)
    requires IsDigest(a) && IsDigest(b) && RawDigest(a) == RawDigest(b)
    ensures a == b
  {
    forall i: nat | i < 32
      ensures a[2 * i] == b[2 * i] && a[2 * i + 1] == b[2 * i + 1]
    {
      assert RawDigest(a)[i] == RawByte(a, i) && RawDigest(b)[i] == RawByte(b, i);
      DigitsAreRead(a[2 * i], a[2 * i + 1], b[2 * i], b[2 * i + 1]);
    }
    forall k | 0 <= k < 64
      ensures a[k] == b[k]
    {
      assert k == 2 * (k / 2) || k == 2 * (k / 2) + 1;
    }
  }

  lemma {:induction false} ZerosAre(n: nat)
    ensures |Zeros(n)| == n && forall i :: 0 <= i < n ==> Zeros(n)[i] == '0'
  {
    if n > 0 {
      ZerosAre(n - 1);
    }
  }

  // The digest that is no mention is the one of 32 zero bytes.
  lemma ZeroDigestIsZero(digest: string)
    requires IsDigest(digest)
    ensures digest == ZERO_DIGEST <==> forall i :: 0 <= i < 32 ==> RawDigest(digest)[i] == 0
  {
    ZerosAre(64);
    if forall i :: 0 <= i < 32 ==> RawDigest(digest)[i] == 0 {
      forall k | 0 <= k < 64
        ensures digest[k] == '0'
      {
        assert RawDigest(digest)[k / 2] == RawByte(digest, k / 2);
      }
    } else {
      var i :| 0 <= i < 32 && RawDigest(digest)[i] != 0;
      assert RawByte(digest, i) != 0;
    }
  }

  predicate OccursAt(data: seq<byte>, marker: seq<byte>, i: nat) {
    i + |marker| <= |data| && data[i..i + |marker|] == marker
  }

  predicate Contains(data: seq<byte>, marker: seq<byte>) {
    exists i: nat :: i <= |data| && OccursAt(data, marker, i)
  }

  lemma ContainsIsInfix(data: seq<byte>, marker: seq<byte>)
    ensures Contains(data, marker) <==> exists before, after :: data == before + marker + after
  {
    if Contains(data, marker) {
      var i: nat :| i <= |data| && OccursAt(data, marker, i);
      assert data == data[..i] + marker + data[i + |marker|..];
    }
    forall before, after | data == before + marker + after
      ensures Contains(data, marker)
    {
      assert OccursAt(data, marker, |before|);
    }
  }

  // ---- What the marking means ----

  ghost predicate Mentions(cache: Cache, source: string, e: Entry, digest: string) {
    && source in cache.contents
    && e in cache.entries && NamedBy(e, digest)
    && IsDigest(digest) && digest != ZERO_DIGEST
    && Contains(cache.contents[source], RawDigest(digest))
  }

  // The bytes of the first file hold the digest that the second is canonically named after.
  ghost predicate Leads(cache: Cache, source: string, target: string) {
    exists e, digest :: Mentions(cache, source, e, digest) && e.relative == target
  }

  ghost predicate Chain(cache: Cache, roots: set<string>, path: seq<string>) {
    && |path| > 0 && path[0] in roots
    && forall i :: 0 <= i < |path| - 1 ==> Leads(cache, path[i], path[i + 1])
  }

  // Reachable from a root by a chain of mentions.
  ghost predicate Alive(cache: Cache, roots: set<string>, x: string) {
    exists path :: Chain(cache, roots, path) && path[|path| - 1] == x
  }

  lemma RootIsAlive(cache: Cache, roots: set<string>, x: string)
    requires x in roots
    ensures Alive(cache, roots, x)
  {
    hide Leads;
    assert Chain(cache, roots, [x]);
  }

  lemma LedToIsAlive(cache: Cache, roots: set<string>, source: string, target: string)
    requires Alive(cache, roots, source) && Leads(cache, source, target)
    ensures Alive(cache, roots, target)
  {
    hide Leads;
    var path :| Chain(cache, roots, path) && path[|path| - 1] == source;
    assert Chain(cache, roots, path + [target]);
  }

  ghost predicate Closed(cache: Cache, files: set<string>) {
    forall source, target :: source in files && Leads(cache, source, target) ==> target in files
  }

  // Every closed set that holds the roots holds everything alive.
  lemma ClosedSetHoldsAlive(cache: Cache, roots: set<string>, files: set<string>, x: string)
    requires roots <= files && Closed(cache, files) && Alive(cache, roots, x)
    ensures x in files
  {
    hide Closed;
    var path :| Chain(cache, roots, path) && path[|path| - 1] == x;
    ClosedSetHoldsChain(cache, roots, files, path);
  }

  lemma {:induction false} ClosedSetHoldsChain(cache: Cache, roots: set<string>, files: set<string>, path: seq<string>)
    requires roots <= files && Closed(cache, files) && Chain(cache, roots, path)
    ensures path[|path| - 1] in files
  {
    hide Leads;
    if |path| > 1 {
      var before := path[..|path| - 1];
      ClosedSetHoldsChain(cache, roots, files, before);
      assert Leads(cache, before[|before| - 1], path[|path| - 1]);
    }
  }

  // ---- The worklist ----

  ghost predicate Pends(pending: seq<Entry>, x: string) {
    exists e :: e in pending && e.relative == x
  }

  method AddAll(candidates: seq<Entry>, reachable: set<string>, pending: seq<Entry>)
    returns (reachable': set<string>, pending': seq<Entry>)
    ensures forall x :: x in reachable' <==> x in reachable || Pends(candidates, x)
    ensures forall e :: e in pending' ==> e in pending || e in candidates
    ensures forall x :: Pends(pending', x) <==> Pends(pending, x) || (x in reachable' && x !in reachable)
  {
    hide Pends;
    NothingPends();
    assert candidates[..0] == [];
    reachable', pending' := reachable, pending;
    for j := 0 to |candidates|
      invariant forall x :: x in reachable' <==> x in reachable || Pends(candidates[..j], x)
      invariant forall e :: e in pending' ==> e in pending || e in candidates
      invariant forall x :: Pends(pending', x) <==> Pends(pending, x) || (x in reachable' && x !in reachable)
    {
      var candidate := candidates[j];
      PendsAppend(candidates[..j], candidate);
      assert candidates[..j + 1] == candidates[..j] + [candidate];
      PendsAppend(pending', candidate);
      if candidate.relative !in reachable' {
        reachable', pending' := reachable' + {candidate.relative}, pending' + [candidate];
      }
    }
    assert candidates[..|candidates|] == candidates;
  }

  lemma PendsAppend(pending: seq<Entry>, e: Entry)
    ensures forall x :: Pends(pending + [e], x) <==> Pends(pending, x) || x == e.relative
  {
    assert e in pending + [e];
  }

  ghost predicate LeadsVia(cache: Cache, source: string, digests: seq<string>, target: string) {
    exists e, digest :: digest in digests && Mentions(cache, source, e, digest) && e.relative == target
  }

  lemma OneMoreDigest(cache: Cache, source: string, digests: seq<string>, digest: string, target: string)
    requires source in cache.contents && IsDigest(digest)
    ensures LeadsVia(cache, source, digests + [digest], target) <==>
      || LeadsVia(cache, source, digests, target)
      || (&& digest != ZERO_DIGEST && Contains(cache.contents[source], RawDigest(digest))
          && Pends(CanonicalNamed(cache.entries, digest), target))
  {
    hide ZERO_DIGEST, Contains, RawDigest, CanonicalNamed, NamedBy, IsDigest;
    var more := digests + [digest];
    assert digest in more && forall d :: d in more <==> d in digests || d == digest;
    if LeadsVia(cache, source, digests, target) {
      var e, d :| d in digests && Mentions(cache, source, e, d) && e.relative == target;
      assert d in more;
    } else if Pends(CanonicalNamed(cache.entries, digest), target) {
      var e :| e in CanonicalNamed(cache.entries, digest) && e.relative == target;
      assert NamedBy(e, digest) && e in cache.entries;
      if digest != ZERO_DIGEST && Contains(cache.contents[source], RawDigest(digest)) {
        assert Mentions(cache, source, e, digest);
      }
    }
  }

  lemma EveryDigestIsListed(cache: Cache, source: string, index: map<string, seq<Entry>>, order: seq<string>,
                            target: string)
    requires Indexes(cache.entries, index, order)
    ensures LeadsVia(cache, source, order, target) <==> Leads(cache, source, target)
  {
    hide ZERO_DIGEST, Contains, RawDigest, CanonicalNamed, NamedBy, IsDigest;
    if Leads(cache, source, target) {
      var e, digest :| Mentions(cache, source, e, digest) && e.relative == target;
      assert e in CanonicalNamed(cache.entries, digest);
      assert digest in order;
    }
    if LeadsVia(cache, source, order, target) {
      var e, digest :| digest in order && Mentions(cache, source, e, digest) && e.relative == target;
      assert Leads(cache, source, target);
    }
  }

  // Marks the canonical files that the bytes of one file mention.
  method Discover(cache: Cache, source: string, index: map<string, seq<Entry>>, order: seq<string>,
                  reachable: set<string>, pending: seq<Entry>)
    returns (reachable': set<string>, pending': seq<Entry>)
    requires source in cache.contents && Indexes(cache.entries, index, order)
    ensures forall x :: x in reachable' <==> x in reachable || Leads(cache, source, x)
    ensures forall e :: e in pending' ==> e in pending || e in cache.entries
    ensures forall x :: Pends(pending', x) <==> Pends(pending, x) || (x in reachable' && x !in reachable)
  {
    var data := cache.contents[source];
    reachable', pending' := reachable, pending;
    for k := 0 to |order|
      invariant forall x :: x in reachable' <==> x in reachable || LeadsVia(cache, source, order[..k], x)
      invariant forall e :: e in pending' ==> e in pending || e in cache.entries
      invariant forall x :: Pends(pending', x) <==> Pends(pending, x) || (x in reachable' && x !in reachable)
    {
      hide Pends, LeadsVia, Contains, RawDigest, CanonicalNamed, ZERO_DIGEST, IsDigest;
      var digest := order[k];
      assert digest in order;
      assert order[..k + 1] == order[..k] + [digest];
      forall x {
        OneMoreDigest(cache, source, order[..k], digest, x);
      }
      if digest != ZERO_DIGEST && Contains(data, RawDigest(digest)) {
        reachable', pending' := AddAll(index[digest], reachable', pending');
      }
    }
    assert order[..|order|] == order;
    forall x {
      EveryDigestIsListed(cache, source, index, order, x);
    }
  }

  ghost predicate InCache(cache: Cache, x: string) {
    exists e :: e in cache.entries && e.relative == x
  }

  datatype Outcome = Marked(reachable: set<string>) | Unreadable(source: string)

  method PendingRoots(cache: Cache, roots: set<string>) returns (pending: seq<Entry>)
    ensures forall e :: e in pending <==> e in cache.entries && e.relative in roots
  {
    pending := [];
    for i := 0 to |cache.entries|
      invariant forall e :: e in pending <==> e in cache.entries[..i] && e.relative in roots
    {
      var entry := cache.entries[i];
      if entry.relative in roots {
        pending := pending + [entry];
      }
    }
  }

  lemma PopLast(pending: seq<Entry>)
    requires |pending| > 0
    ensures var last := |pending| - 1;
      forall x :: Pends(pending, x) <==> Pends(pending[..last], x) || x == pending[last].relative
  {
    var last := |pending| - 1;
    PendsAppend(pending[..last], pending[last]);
    assert pending == pending[..last] + [pending[last]];
  }

  // What the worklist loop keeps.
  ghost predicate Marking(cache: Cache, roots: set<string>, reachable: set<string>, visited: set<string>,
                          pending: seq<Entry>)
  {
    && roots <= reachable
    && (forall x :: x in reachable ==> Alive(cache, roots, x))
    && (forall x :: x in visited ==> x in cache.contents)
    && (forall x, y :: x in visited && Leads(cache, x, y) ==> y in reachable)
    && (forall x :: x in reachable ==> x in visited || Pends(pending, x))
    && (forall e :: e in pending ==> e in cache.entries)
    && (forall x :: Pends(pending, x) ==> x in reachable)
  }

  lemma MarkingStarts(cache: Cache, roots: set<string>, pending: seq<Entry>)
    requires forall x :: x in roots ==> InCache(cache, x)
    requires forall e :: e in pending <==> e in cache.entries && e.relative in roots
    ensures Marking(cache, roots, roots, {}, pending)
  {
    RootsPend(cache, roots, pending);
    hide Alive, Leads, Pends;
    forall x | x in roots ensures Alive(cache, roots, x) {
      RootIsAlive(cache, roots, x);
    }
  }

  lemma MarkingVisits(cache: Cache, roots: set<string>, reachable: set<string>, visited: set<string>,
                      pending: seq<Entry>, source: string, rest: seq<Entry>,
                      reachable': set<string>, pending': seq<Entry>)
    requires Marking(cache, roots, reachable, visited, pending)
    requires forall x :: Pends(pending, x) <==> Pends(rest, x) || x == source
    requires source in cache.contents
    requires forall x :: x in reachable' <==> x in reachable || Leads(cache, source, x)
    requires forall e :: e in pending' ==> e in cache.entries
    requires forall x :: Pends(pending', x) <==> Pends(rest, x) || (x in reachable' && x !in reachable)
    ensures Marking(cache, roots, reachable', visited + {source}, pending')
  {
    hide Alive, Leads, Pends;
    assert source in reachable && Alive(cache, roots, source);
    forall y | Leads(cache, source, y) ensures Alive(cache, roots, y) {
      LedToIsAlive(cache, roots, source, y);
    }
  }

  lemma MarkingSkips(cache: Cache, roots: set<string>, reachable: set<string>, visited: set<string>,
                     pending: seq<Entry>, source: string, rest: seq<Entry>)
    requires Marking(cache, roots, reachable, visited, pending) && source in visited
    requires forall x :: Pends(pending, x) <==> Pends(rest, x) || x == source
    requires forall e :: e in rest ==> e in pending
    ensures Marking(cache, roots, reachable, visited, rest)
  {
    hide Alive, Leads, Pends;
  }

  lemma MarkingEnds(cache: Cache, roots: set<string>, reachable: set<string>, visited: set<string>)
    requires Marking(cache, roots, reachable, visited, [])
    ensures forall x :: x in reachable <==> Alive(cache, roots, x)
    ensures forall x :: x in reachable ==> x in cache.contents
  {
    NothingPends();
    hide Alive, Leads, Pends;
    forall x | Alive(cache, roots, x) ensures x in reachable {
      ClosedSetHoldsAlive(cache, roots, reachable, x);
    }
  }

  // The result is exactly what is alive, or a live file that cannot be read.
  method Mark(cache: Cache, roots: set<string>, index: map<string, seq<Entry>>, order: seq<string>)
    returns (r: Outcome)
    requires Indexes(cache.entries, index, order)
    requires forall x :: x in roots ==> InCache(cache, x)
    ensures r.Marked? ==> forall x :: x in r.reachable <==> Alive(cache, roots, x)
    ensures r.Marked? ==> forall x :: x in r.reachable ==> x in cache.contents
    ensures r.Unreadable? ==> Alive(cache, roots, r.source) && r.source !in cache.contents
  {
    var reachable := roots;
    var pending := PendingRoots(cache, roots);
    var visited: set<string> := {};
    ghost var relatives := set e | e in cache.entries :: e.relative;
    MarkingStarts(cache, roots, pending);
    while pending != []
      invariant Marking(cache, roots, reachable, visited, pending)
      decreases relatives - visited, |pending|
    {
      hide Alive, Leads, Indexes, Pends;
      PopLast(pending);
      ghost var before := pending;
      var last := |pending| - 1;
      var source := pending[last].relative;
      assert source in relatives && source in reachable;
      pending := pending[..last];
      if source in visited {
        MarkingSkips(cache, roots, reachable, visited, before, source, pending);
      } else {
        if source !in cache.contents {
          return Unreadable(source);
        }
        var reachable', pending' := Discover(cache, source, index, order, reachable, pending);
        MarkingVisits(cache, roots, reachable, visited, before, source, pending, reachable', pending');
        visited := visited + {source};
        reachable, pending := reachable', pending';
      }
    }
    MarkingEnds(cache, roots, reachable, visited);
    return Marked(reachable);
  }

  lemma RootsPend(cache: Cache, roots: set<string>, pending: seq<Entry>)
    requires forall x :: x in roots ==> InCache(cache, x)
    requires forall e :: e in pending <==> e in cache.entries && e.relative in roots
    ensures forall x :: Pends(pending, x) <==> x in roots
  {
    forall x | x in roots ensures Pends(pending, x) {
      assert InCache(cache, x);
    }
  }

  lemma NothingPends()
    ensures forall x :: !Pends([], x)
  {
  }
}
