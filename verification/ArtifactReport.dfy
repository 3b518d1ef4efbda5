/**
  The report of a scan: every family charged with its files and bytes, reachable and unreachable, from
  the set of files the marking left alive.
*/
module ArtifactReport {
  import opened Prelude
  import opened ArtifactNames
  import opened ArtifactReferences
  import opened ArtifactCache

  datatype FamilyReport = FamilyReport(fileCount: nat, totalBytes: nat, reachableBytes: nat, unreachableBytes: nat)

  function Bytes(entries: seq<Entry>): nat {
    if entries == [] then 0 else Bytes(entries[..|entries| - 1]) + entries[|entries| - 1].size
  }

  // The entries that are (or are not) in the set.
  function Select(entries: seq<Entry>, reachable: set<string>, wanted: bool): seq<Entry> {
    if entries == [] then []
    else
      var last := entries[|entries| - 1];
      Select(entries[..|entries| - 1], reachable, wanted)
        + if (last.relative in reachable) == wanted then [last] else []
  }

  function ReportOf(entries: seq<Entry>, reachable: set<string>): FamilyReport {
    FamilyReport(|entries|, Bytes(entries), Bytes(Select(entries, reachable, true)),
                 Bytes(Select(entries, reachable, false)))
  }

  lemma BytesAppend(entries: seq<Entry>, e: Entry)
    ensures Bytes(entries + [e]) == Bytes(entries) + e.size
  {
    assert (entries + [e])[..|entries|] == entries;
  }

  lemma SelectAppend(entries: seq<Entry>, e: Entry, reachable: set<string>, wanted: bool)
    ensures Select(entries + [e], reachable, wanted)
      == Select(entries, reachable, wanted) + if (e.relative in reachable) == wanted then [e] else []
  {
    assert (entries + [e])[..|entries|] == entries;
  }

  lemma OfFamilyAppend(entries: seq<Entry>, e: Entry, family: string)
    ensures OfFamily(entries + [e], family) == OfFamily(entries, family) + if e.family == family then [e] else []
  {
    assert (entries + [e])[..|entries|] == entries;
  }

  // Every byte of a family is either reachable or unreachable.
  lemma {:induction false} ReachabilityPartitionsBytes(entries: seq<Entry>, reachable: set<string>)
    ensures Bytes(Select(entries, reachable, true)) + Bytes(Select(entries, reachable, false)) == Bytes(entries)
    ensures |Select(entries, reachable, true)| + |Select(entries, reachable, false)| == |entries|
  {
    if entries != [] {
      var before, last := entries[..|entries| - 1], entries[|entries| - 1];
      assert entries == before + [last];
      ReachabilityPartitionsBytes(before, reachable);
      SelectAppend(before, last, reachable, true);
      SelectAppend(before, last, reachable, false);
      BytesAppend(before, last);
      BytesAppend(Select(before, reachable, last.relative in reachable), last);
      var other := Select(before, reachable, last.relative !in reachable);
      assert other + [] == other;
      hide Bytes, Select;
    }
  }

  // ---- Families ----

  function SumBytes(families: seq<string>, entries: seq<Entry>): nat {
    if families == [] then 0 else Bytes(OfFamily(entries, families[0])) + SumBytes(families[1..], entries)
  }

  function SumCounts(families: seq<string>, entries: seq<Entry>): nat {
    if families == [] then 0 else |OfFamily(entries, families[0])| + SumCounts(families[1..], entries)
  }

  lemma {:induction false} SumsOfNothing(families: seq<string>)
    ensures SumBytes(families, []) == 0 && SumCounts(families, []) == 0
  {
    if families != [] {
      SumsOfNothing(families[1..]);
    }
  }

  lemma {:induction false} SumsAppend(families: seq<string>, entries: seq<Entry>, e: Entry)
    requires Distinct(families)
    ensures SumBytes(families, entries + [e])
      == SumBytes(families, entries) + if e.family in families then e.size else 0
    ensures SumCounts(families, entries + [e])
      == SumCounts(families, entries) + if e.family in families then 1 else 0
  {
    if families != [] {
      hide OfFamily, Bytes, SumBytes, SumCounts;
      SumsAppend(families[1..], entries, e);
      SumsStep(families, entries);
      SumsStep(families, entries + [e]);
      OfFamilyAppend(entries, e, families[0]);
      BytesAppend(OfFamily(entries, families[0]), e);
      NothingAppended(OfFamily(entries, families[0]));
      assert e.family in families <==> e.family == families[0] || e.family in families[1..];
    } else {
      NoFamilies(entries);
      NoFamilies(entries + [e]);
    }
  }

  lemma NoFamilies(entries: seq<Entry>)
    ensures SumBytes([], entries) == 0 && SumCounts([], entries) == 0
  {
  }

  lemma SumsStep(families: seq<string>, entries: seq<Entry>)
    requires families != []
    ensures SumBytes(families, entries) == Bytes(OfFamily(entries, families[0])) + SumBytes(families[1..], entries)
    ensures SumCounts(families, entries) == |OfFamily(entries, families[0])| + SumCounts(families[1..], entries)
  {
    hide OfFamily, Bytes;
  }

  // Distinct families that cover every entry share out all files and all bytes.
  lemma {:induction false} FamiliesPartition(families: seq<string>, entries: seq<Entry>)
    requires Distinct(families) && forall e :: e in entries ==> e.family in families
    ensures SumBytes(families, entries) == Bytes(entries)
    ensures SumCounts(families, entries) == |entries|
  {
    if entries == [] {
      SumsOfNothing(families);
    } else {
      var before, last := entries[..|entries| - 1], entries[|entries| - 1];
      assert entries == before + [last];
      FamiliesPartition(families, before);
      SumsAppend(families, before, last);
      BytesAppend(before, last);
    }
  }

  lemma {:induction false} SelectOfFamily(entries: seq<Entry>, family: string, reachable: set<string>, wanted: bool)
    ensures OfFamily(Select(entries, reachable, wanted), family) == Select(OfFamily(entries, family), reachable, wanted)
  {
    if entries != [] {
      hide OfFamily, Select;
      var before, last := entries[..|entries| - 1], entries[|entries| - 1];
      assert entries == before + [last];
      SelectOfFamily(before, family, reachable, wanted);
      SelectAppend(before, last, reachable, wanted);
      OfFamilyAppend(before, last, family);
      if (last.relative in reachable) == wanted {
        OfFamilyAppend(Select(before, reachable, wanted), last, family);
      }
      if last.family == family {
        SelectAppend(OfFamily(before, family), last, reachable, wanted);
      }
      NothingAppended(Select(before, reachable, wanted));
      NothingAppended(OfFamily(before, family));
      NothingAppended(OfFamily(Select(before, reachable, wanted), family));
    } else {
      assert OfFamily([], family) == [] && Select([], reachable, wanted) == [];
    }
  }

  lemma NothingAppended(entries: seq<Entry>)
    ensures entries + [] == entries
  {
  }

  function Lengths(names: seq<string>): seq<nat> { seq(|names|, i requires 0 <= i < |names| => |names[i]|) }

  lemma FamiliesAreDistinct()
    ensures Distinct(FAMILIES) && "other" in FAMILIES
  {
    assert Lengths(FAMILIES) == [9, 7, 15, 20, 14, 19, 26, 30, 12, 17, 5];
    assert forall i :: 0 <= i < |FAMILIES| ==> |FAMILIES[i]| == Lengths(FAMILIES)[i];
    assert FAMILIES[10] == "other";
  }

  // ---- The report ----

  ghost predicate Reports(families: map<string, FamilyReport>, entries: seq<Entry>, reachable: set<string>) {
    && (forall family :: family in families <==> family in FAMILIES)
    && forall family :: family in families ==> families[family] == ReportOf(OfFamily(entries, family), reachable)
  }

  datatype Column = Files | All | Reachable | Unreachable

  function At(r: FamilyReport, column: Column): nat {
    match column
    case Files => r.fileCount
    case All => r.totalBytes
    case Reachable => r.reachableBytes
    case Unreachable => r.unreachableBytes
  }

  // The sum of one column of the report over all families.
  function Total(order: seq<string>, families: map<string, FamilyReport>, column: Column): nat
    requires forall family :: family in order ==> family in families
  {
    if order == [] then 0 else At(families[order[0]], column) + Total(order[1..], families, column)
  }

  lemma {:induction false} TotalsAreSums(order: seq<string>, families: map<string, FamilyReport>,
                                         entries: seq<Entry>, reachable: set<string>)
    requires forall family :: family in order ==> family in families
    requires forall family :: family in order ==> families[family] == ReportOf(OfFamily(entries, family), reachable)
    ensures Total(order, families, Files) == SumCounts(order, entries)
    ensures Total(order, families, All) == SumBytes(order, entries)
    ensures Total(order, families, Reachable) == SumBytes(order, Select(entries, reachable, true))
    ensures Total(order, families, Unreachable) == SumBytes(order, Select(entries, reachable, false))
  {
    hide OfFamily, Bytes, Select;
    if order != [] {
      assert order[0] in order;
      TotalsAreSums(order[1..], families, entries, reachable);
      SelectOfFamily(entries, order[0], reachable, true);
      SelectOfFamily(entries, order[0], reachable, false);
    }
  }

  // Conservation: in every family reachable and unreachable bytes make up the total, and over all
  // families the four columns account for every entry of the cache exactly once.
  lemma {:induction false} ReportConserves(families: map<string, FamilyReport>, entries: seq<Entry>,
                                           reachable: set<string>)
    requires Reports(families, entries, reachable)
    requires forall e :: e in entries ==> Filed(e)
    ensures forall family :: family in families ==>
      families[family].reachableBytes + families[family].unreachableBytes == families[family].totalBytes
    ensures Total(FAMILIES, families, Files) == |entries|
    ensures Total(FAMILIES, families, All) == Bytes(entries)
    ensures Total(FAMILIES, families, Reachable) == Bytes(Select(entries, reachable, true))
    ensures Total(FAMILIES, families, Unreachable) == Bytes(Select(entries, reachable, false))
  {
    FamiliesAreDistinct();
    EveryEntryIsInAFamily(entries);
    hide OfFamily, Bytes, Select, FAMILIES, Total, SumBytes, SumCounts;
    forall family | family in families
      ensures families[family].reachableBytes + families[family].unreachableBytes == families[family].totalBytes
    {
      ReachabilityPartitionsBytes(OfFamily(entries, family), reachable);
    }
    TotalsAreSums(FAMILIES, families, entries, reachable);
    FamiliesPartition(FAMILIES, entries);
    SelectionIsPart(entries, reachable, true);
    SelectionIsPart(entries, reachable, false);
    FamiliesPartition(FAMILIES, Select(entries, reachable, true));
    FamiliesPartition(FAMILIES, Select(entries, reachable, false));
  }

  lemma EveryEntryIsInAFamily(entries: seq<Entry>)
    requires forall e :: e in entries ==> Filed(e)
    ensures forall e :: e in entries ==> e.family in FAMILIES
  {
    FamiliesAreDistinct();
    hide FAMILIES;
  }

  lemma {:induction false} SelectionIsPart(entries: seq<Entry>, reachable: set<string>, wanted: bool)
    ensures forall e :: e in Select(entries, reachable, wanted) <==>
      e in entries && (e.relative in reachable) == wanted
  {
    if entries != [] {
      var before, last := entries[..|entries| - 1], entries[|entries| - 1];
      SelectionIsPart(before, reachable, wanted);
      assert entries == before + [last];
    }
  }

  method Group(entries: seq<Entry>) returns (groups: map<string, seq<Entry>>)
    ensures forall family :: family in FAMILIES ==> family in groups
    ensures forall family :: family in groups ==> groups[family] == OfFamily(entries, family)
  {
    hide OfFamily, FAMILIES;
    NoEntries();
    groups := map family | family in FAMILIES :: [];
    assert entries[..0] == [];
    for i := 0 to |entries|
      invariant forall family :: family in FAMILIES ==> family in groups
      invariant forall family :: family in groups ==> groups[family] == OfFamily(entries[..i], family)
      invariant forall family :: family !in groups ==> OfFamily(entries[..i], family) == []
    {
      var entry := entries[i];
      assert entries[..i + 1] == entries[..i] + [entry];
      forall family {
        OfFamilyAppend(entries[..i], entry, family);
      }
      if entry.family !in groups {
        groups := groups[entry.family := []];
      }
      groups := groups[entry.family := groups[entry.family] + [entry]];
    }
    assert entries[..|entries|] == entries;
  }

  lemma NoEntries()
    ensures forall family :: OfFamily([], family) == []
  {
  }

  function Charged(values: FamilyReport, e: Entry, reachable: set<string>): FamilyReport {
    FamilyReport(values.fileCount + 1, values.totalBytes + e.size,
                 values.reachableBytes + (if e.relative in reachable then e.size else 0),
                 values.unreachableBytes + (if e.relative in reachable then 0 else e.size))
  }

  function Accumulated(entries: seq<Entry>, reachable: set<string>): FamilyReport {
    if entries == [] then FamilyReport(0, 0, 0, 0)
    else Charged(Accumulated(entries[..|entries| - 1], reachable), entries[|entries| - 1], reachable)
  }

  lemma AccumulateOne(entries: seq<Entry>, e: Entry, reachable: set<string>)
    ensures Accumulated(entries + [e], reachable) == Charged(Accumulated(entries, reachable), e, reachable)
  {
    assert (entries + [e])[..|entries|] == entries;
  }

  lemma NothingAccumulated(reachable: set<string>)
    ensures Accumulated([], reachable) == ReportOf([], reachable)
  {
  }

  // Charging the entries one by one gives the sums.
  lemma {:induction false} AccumulatedIsReport(entries: seq<Entry>, reachable: set<string>)
    ensures Accumulated(entries, reachable) == ReportOf(entries, reachable)
  {
    hide Bytes, Select, Accumulated;
    if entries == [] {
      NothingAccumulated(reachable);
    } else {
      var before, e := entries[..|entries| - 1], entries[|entries| - 1];
      assert entries == before + [e];
      AccumulatedIsReport(before, reachable);
      AccumulateOne(before, e, reachable);
      BytesAppend(before, e);
      SelectionGrows(before, e, reachable, true);
      SelectionGrows(before, e, reachable, false);
    }
  }

  lemma SelectionGrows(entries: seq<Entry>, e: Entry, reachable: set<string>, wanted: bool)
    ensures Bytes(Select(entries + [e], reachable, wanted))
      == Bytes(Select(entries, reachable, wanted)) + if (e.relative in reachable) == wanted then e.size else 0
  {
    hide Bytes, Select;
    SelectAppend(entries, e, reachable, wanted);
    BytesAppend(Select(entries, reachable, wanted), e);
    NothingAppended(Select(entries, reachable, wanted));
  }

  method Charge(entries: seq<Entry>, reachable: set<string>) returns (values: FamilyReport)
    ensures values == ReportOf(entries, reachable)
  {
    hide ReportOf;
    values := FamilyReport(0, 0, 0, 0);
    for i := 0 to |entries|
      invariant values == Accumulated(entries[..i], reachable)
    {
      var entry := entries[i];
      assert entries[..i + 1] == entries[..i] + [entry];
      AccumulateOne(entries[..i], entry, reachable);
      values := values.(fileCount := values.fileCount + 1, totalBytes := values.totalBytes + entry.size);
      if entry.relative in reachable {
        values := values.(reachableBytes := values.reachableBytes + entry.size);
      } else {
        values := values.(unreachableBytes := values.unreachableBytes + entry.size);
      }
    }
    assert entries[..|entries|] == entries;
    AccumulatedIsReport(entries, reachable);
  }

  method ChargeFamilies(entries: seq<Entry>, reachable: set<string>) returns (families: map<string, FamilyReport>)
    ensures Reports(families, entries, reachable)
  {
    hide FAMILIES, OfFamily, ReportOf;
    var groups := Group(entries);
    families := map[];
    for i := 0 to |FAMILIES|
      invariant forall family :: family in families <==> family in FAMILIES[..i]
      invariant forall family :: family in families ==>
        families[family] == ReportOf(OfFamily(entries, family), reachable)
    {
      var family := FAMILIES[i];
      assert family in FAMILIES && FAMILIES[..i + 1] == FAMILIES[..i] + [family];
      var values := Charge(groups[family], reachable);
      families := families[family := values];
    }
    assert FAMILIES[..|FAMILIES|] == FAMILIES;
  }

  ghost predicate Verifies(cache: Cache) {
    && RootsAreGood(cache) && IndexesAreGood(cache)
    && forall x :: Alive(cache, Roots(cache), x) ==> x in cache.contents
  }

  lemma RootsCollected(cache: Cache, roots: set<string>)
    requires forall x :: x in roots <==> IsRoot(cache, x)
    ensures roots == Roots(cache) && forall x :: x in roots ==> InCache(cache, x)
  {
    hide IsRoot, NamedBy;
    forall x | x in roots ensures x in Roots(cache) && InCache(cache, x) {
      RootsAreCanonical(cache, x);
    }
  }

  // The scan: without reference verification nothing is reachable; with it, the report is produced
  // exactly when every reference is good and every live file can be read, and it charges what is alive.
  method Scan(cache: Cache, verifyReferences: bool)
    returns (families: Option<map<string, FamilyReport>>, reachable: set<string>)
    ensures families.Some? <==> !verifyReferences || Verifies(cache)
    ensures families.Some? ==> Reports(families.value, cache.entries, reachable)
    ensures families.Some? && verifyReferences ==> forall x :: x in reachable <==> Alive(cache, Roots(cache), x)
    ensures families.Some? && !verifyReferences ==> reachable == {}
  {
    hide Indexes, RootsAreGood, IndexesAreGood, Alive, Reports, Roots, IsRoot;
    reachable := {};
    if verifyReferences {
      var index, order := BuildIndex(cache.entries);
      var roots := CollectRoots(cache, index, order);
      if roots.BadReference? {
        return None, reachable;
      }
      var good := CheckIndexes(cache, index, order);
      if !good {
        return None, reachable;
      }
      RootsCollected(cache, roots.roots);
      var marking := Mark(cache, roots.roots, index, order);
      if marking.Unreadable? {
        return None, reachable;
      }
      reachable := marking.reachable;
    }
    var charged := ChargeFamilies(cache.entries, reachable);
    families := Some(charged);
  }
}
