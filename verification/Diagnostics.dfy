/**
  The diagnostic engine: a list of diagnostics with snapshots. Deduplication compacts the list in place,
  overwriting diagnostics that have been moved away, and is proved to be a stable filter.
*/
module Diagnostics {
  datatype Severity = Note | Warning | Error

  datatype Location = Location(valid: bool, file: nat, offset: nat)

  // presentation: spans, related notes and fix-its, which do not take part in the comparison.
  datatype Diagnostic = Diagnostic(
    severity: Severity, location: Location, message: string, stableCode: string,
    fields: seq<(string, string)>, presentation: string)

  predicate Same(a: Diagnostic, b: Diagnostic) {
    && a.severity == b.severity
    && a.location.valid == b.location.valid
    && (!a.location.valid || (a.location.file == b.location.file && a.location.offset == b.location.offset))
    && a.message == b.message && a.stableCode == b.stableCode && a.fields == b.fields
  }

  // What the comparison looks at: everything but the presentation, and no place where none is given.
  ghost function Essence(d: Diagnostic): Diagnostic {
    d.(presentation := "", location := if d.location.valid then d.location else Location(false, 0, 0))
  }

  lemma SameIsSameEssence(a: Diagnostic, b: Diagnostic)
    ensures Same(a, b) <==> Essence(a) == Essence(b)
  {
  }

  predicate OneSame(list: seq<Diagnostic>, d: Diagnostic) {
    exists i :: 0 <= i < |list| && Same(list[i], d)
  }

  // What is left of the first n diagnostics: those before the snapshot, and of the others those that are
  // the same as no earlier diagnostic.
  function Deduplicated(list: seq<Diagnostic>, snapshot: nat, n: nat): (r: seq<Diagnostic>)
    requires n <= |list|
    ensures |r| <= n
  {
    if n <= snapshot then list[..n]
    else
      var before := Deduplicated(list, snapshot, n - 1);
      if OneSame(list[..n - 1], list[n - 1]) then before else before + [list[n - 1]]
  }

  lemma OneSameAppend(list: seq<Diagnostic>, last: Diagnostic, d: Diagnostic)
    ensures OneSame(list + [last], d) <==> OneSame(list, d) || Same(last, d)
  {
    var more := list + [last];
    if OneSame(list, d) {
      var i :| 0 <= i < |list| && Same(list[i], d);
      assert more[i] == list[i];
    }
    assert more[|list|] == last;
  }

  // Sameness is an equivalence, so comparing with the diagnostics that were kept is comparing with all.
  lemma {:induction false} KeptRepresentAll(list: seq<Diagnostic>, snapshot: nat, n: nat, d: Diagnostic)
    requires n <= |list|
    ensures OneSame(Deduplicated(list, snapshot, n), d) <==> OneSame(list[..n], d)
  {
    if n > snapshot {
      var before, last := list[..n - 1], list[n - 1];
      var kept := Deduplicated(list, snapshot, n - 1);
      KeptRepresentAll(list, snapshot, n - 1, d);
      assert list[..n] == before + [last];
      OneSameAppend(before, last, d);
      OneSameAppend(kept, last, d);
      if Same(last, d) {
        SameCarriesOver(before, last, d);
      }
      hide Same, OneSame;
    }
  }

  lemma SameCarriesOver(list: seq<Diagnostic>, a: Diagnostic, b: Diagnostic)
    requires Same(a, b)
    ensures OneSame(list, a) <==> OneSame(list, b)
  {
    assert forall i :: 0 <= i < |list| ==> (Same(list[i], a) <==> Same(list[i], b));
  }

  // ---- What deduplication promises ----

  ghost predicate NoRepeats(list: seq<Diagnostic>, snapshot: nat) {
    forall i, j :: 0 <= i < j < |list| && snapshot <= j ==> !Same(list[i], list[j])
  }

  // The part before the snapshot is untouched, and nothing after it repeats anything before it.
  lemma {:induction false} DeduplicatedHasNoRepeats(list: seq<Diagnostic>, snapshot: nat, n: nat)
    requires n <= |list|
    ensures var kept := Deduplicated(list, snapshot, n);
      && NoRepeats(kept, snapshot)
      && (n <= snapshot ==> kept == list[..n])
      && (n > snapshot ==> |kept| >= snapshot && kept[..snapshot] == list[..snapshot])
  {
    hide Same;
    if n > snapshot {
      DeduplicatedHasNoRepeats(list, snapshot, n - 1);
      KeptRepresentAll(list, snapshot, n - 1, list[n - 1]);
    }
  }

  // Keeping everything is what deduplication does to a list without repeats.
  lemma {:induction false} NothingToRemove(list: seq<Diagnostic>, snapshot: nat, n: nat)
    requires n <= |list| && NoRepeats(list, snapshot)
    ensures Deduplicated(list, snapshot, n) == list[..n]
  {
    hide Same;
    if n > snapshot {
      NothingToRemove(list, snapshot, n - 1);
      assert list[..n] == list[..n - 1] + [list[n - 1]];
    }
  }

  lemma DeduplicationIsIdempotent(list: seq<Diagnostic>, snapshot: nat)
    ensures var once := Deduplicated(list, snapshot, |list|);
      Deduplicated(once, snapshot, |once|) == once
  {
    var once := Deduplicated(list, snapshot, |list|);
    DeduplicatedHasNoRepeats(list, snapshot, |list|);
    NothingToRemove(once, snapshot, |once|);
    assert once[..|once|] == once;
  }

  // Increasing positions of the list, whose diagnostics are what is kept: those of the snapshot and every
  // first occurrence after it.
  ghost predicate Selects(list: seq<Diagnostic>, snapshot: nat, n: nat, positions: seq<nat>) {
    && n <= |list|
    && (forall k :: 0 <= k < |positions| ==> positions[k] < n)
    && (forall j, k :: 0 <= j < k < |positions| ==> positions[j] < positions[k])
    && forall p: nat :: p < n ==> (p in positions <==> p < snapshot || !OneSame(list[..p], list[p]))
  }

  lemma SelectNext(list: seq<Diagnostic>, snapshot: nat, n: nat, positions: seq<nat>)
    requires n < |list| && Selects(list, snapshot, n, positions)
    ensures Selects(list, snapshot, n + 1,
      if n < snapshot || !OneSame(list[..n], list[n]) then positions + [n] else positions)
  {
    hide OneSame;
    var more := positions + [n];
    forall p: nat ensures p in more <==> p in positions || p == n {
    }
  }

  ghost predicate Reads(list: seq<Diagnostic>, positions: seq<nat>, result: seq<Diagnostic>) {
    && |positions| == |result|
    && forall k :: 0 <= k < |positions| ==> positions[k] < |list| && result[k] == list[positions[k]]
  }

  lemma ReadsNext(list: seq<Diagnostic>, positions: seq<nat>, result: seq<Diagnostic>, n: nat)
    requires Reads(list, positions, result) && n < |list|
    ensures Reads(list, positions + [n], result + [list[n]])
  {
  }

  lemma DeduplicatedNext(list: seq<Diagnostic>, snapshot: nat, n: nat)
    requires n < |list|
    ensures Deduplicated(list, snapshot, n + 1) == Deduplicated(list, snapshot, n)
      + if n < snapshot || !OneSame(list[..n], list[n]) then [list[n]] else []
  {
    hide OneSame;
    if n < snapshot {
      assert list[..n + 1] == list[..n] + [list[n]];
    }
  }

  lemma NothingSelected(list: seq<Diagnostic>, snapshot: nat)
    ensures Selects(list, snapshot, 0, []) && Reads(list, [], Deduplicated(list, snapshot, 0))
  {
  }

  // Order is preserved: the result is the list read at increasing positions.
  lemma {:induction false} DeduplicationIsASelection(list: seq<Diagnostic>, snapshot: nat, n: nat)
    returns (positions: seq<nat>)
    requires n <= |list|
    ensures Selects(list, snapshot, n, positions)
    ensures Reads(list, positions, Deduplicated(list, snapshot, n))
  {
    hide OneSame, Deduplicated, Selects, Reads;
    if n == 0 {
      NothingSelected(list, snapshot);
      positions := [];
    } else {
      var last := n - 1;
      var before := DeduplicationIsASelection(list, snapshot, last);
      SelectNext(list, snapshot, last, before);
      DeduplicatedNext(list, snapshot, last);
      var kept := Deduplicated(list, snapshot, last);
      ReadsNext(list, before, kept, last);
      assert kept + [] == kept;
      positions := if last < snapshot || !OneSame(list[..last], list[last]) then before + [last] else before;
    }
  }

  predicate AnyError(list: seq<Diagnostic>) {
    exists i :: 0 <= i < |list| && list[i].severity == Error
  }

  // Deduplication never removes the last error of a list and adds none.
  lemma {:induction false} DeduplicationKeepsErrors(list: seq<Diagnostic>, snapshot: nat, n: nat)
    requires n <= |list|
    ensures AnyError(Deduplicated(list, snapshot, n)) <==> AnyError(list[..n])
  {
    if n > snapshot {
      var before, last := list[..n - 1], list[n - 1];
      var kept := Deduplicated(list, snapshot, n - 1);
      DeduplicationKeepsErrors(list, snapshot, n - 1);
      assert list[..n] == before + [last];
      ErrorsAppend(before, last);
      ErrorsAppend(kept, last);
    }
  }

  lemma ErrorsAppend(list: seq<Diagnostic>, last: Diagnostic)
    ensures AnyError(list + [last]) <==> AnyError(list) || last.severity == Error
  {
    var more := list + [last];
    assert more[|list|] == last;
    assert forall i :: 0 <= i < |list| ==> more[i] == list[i];
  }

  // ---- The engine ----

  class DiagnosticEngine {
    var diagnostics: seq<Diagnostic>

    constructor ()
      ensures diagnostics == []
    {
      diagnostics := [];
    }

    method HasError() returns (found: bool)
      ensures found <==> AnyError(diagnostics)
    {
      for i := 0 to |diagnostics|
        invariant forall k :: 0 <= k < i ==> diagnostics[k].severity != Error
      {
        if diagnostics[i].severity == Error {
          return true;
        }
      }
      return false;
    }

    method Restore(snapshot: nat)
      modifies this
      ensures diagnostics == if snapshot < |old(diagnostics)| then old(diagnostics)[..snapshot] else old(diagnostics)
    {
      if snapshot < |diagnostics| {
        diagnostics := diagnostics[..snapshot];
      }
    }

    method FindSame(end: nat, d: Diagnostic) returns (found: bool)
      requires end <= |diagnostics|
      ensures found <==> OneSame(diagnostics[..end], d)
    {
      for i := 0 to end
        invariant forall k :: 0 <= k < i ==> !Same(diagnostics[k], d)
      {
        if Same(diagnostics[i], d) {
          assert diagnostics[..end][i] == diagnostics[i];
          return true;
        }
      }
      return false;
    }

    // A diagnostic that has been moved away is left in an unspecified state.
    method DeduplicateSince(snapshot: nat)
      modifies this
      ensures diagnostics == Deduplicated(old(diagnostics), snapshot, |old(diagnostics)|)
    {
      hide Same, OneSame;
      ghost var list := diagnostics;
      if snapshot >= |diagnostics| {
        assert list[..|list|] == list;
        return;
      }
      var write := snapshot;
      for read := snapshot to |diagnostics|
        invariant |diagnostics| == |list|
        invariant snapshot <= write <= read
        invariant diagnostics[..write] == Deduplicated(list, snapshot, read)
        invariant diagnostics[read..] == list[read..]
      {
        ghost var kept := diagnostics[..write];
        var d := diagnostics[read];
        assert d == diagnostics[read..][0] == list[read];
        KeptRepresentAll(list, snapshot, read, d);
        var found := FindSame(write, d);
        assert diagnostics[read + 1..] == diagnostics[read..][1..] == list[read..][1..] == list[read + 1..];
        if found {
          continue;
        }
        if write != read {
          var movedFrom: Diagnostic := *;
          diagnostics := diagnostics[write := d];
          diagnostics := diagnostics[read := movedFrom];
        }
        write := write + 1;
        assert diagnostics[..write] == kept + [d];
      }
      diagnostics := diagnostics[..write];
    }
  }
}
