/**
  Which accepted components share their canonical contract text with another one.

  The text is a list of lines, and the verifier never asks where a name ends. For a component whose identity and names
  are one line each, and do not look like the digests around them, every other reading of the lines makes one
  name, or the identity, swallow the export that follows.
*/
module ContractSharing {
  import opened Prelude
  import opened Exports
  import opened Descriptor
  import Hex
  import MerkleTree

  // ----- Texts as lines -----

  function SplitLines(text: seq<byte>): (r: seq<seq<byte>>)
    ensures r != []
  {
    if text == [] then [[]]
    else
      var rest := SplitLines(text[1..]);
      if text[0] == NEWLINE then [[]] + rest else [[text[0]] + rest[0]] + rest[1..]
  }

  lemma {:induction false} SplitLinesJoin(text: seq<byte>)
    ensures NewlineFree(SplitLines(text)) && Unlines(SplitLines(text)) == text + [NEWLINE]
  {
    if text != [] {
      var rest := SplitLines(text[1..]);
      SplitLinesJoin(text[1..]);
      assert text == [text[0]] + text[1..];
      if text[0] == NEWLINE {
        assert ([[]] + rest)[1..] == rest;
        assert [] + [NEWLINE] + (text[1..] + [NEWLINE]) == text + [NEWLINE];
      } else {
        var c := [text[0]];
        assert ([c + rest[0]] + rest[1..])[1..] == rest[1..];
        assert c + rest[0] + [NEWLINE] + Unlines(rest[1..]) == c + (rest[0] + [NEWLINE] + Unlines(rest[1..]));
        assert c + (text[1..] + [NEWLINE]) == text + [NEWLINE];
      }
    }
  }

  lemma OneLine(text: seq<byte>)
    requires NEWLINE !in text
    ensures SplitLines(text) == [text]
  {
    SplitLinesJoin(text);
    assert [text][1..] == [] && Unlines([text]) == text + [NEWLINE] + [];
    UnlinesIsInjective(SplitLines(text), [text]);
  }

  lemma OneLineOnly(text: seq<byte>, line: seq<byte>)
    requires SplitLines(text) == [line]
    ensures text == line
  {
    SplitLinesJoin(text);
    assert [line][1..] == [] && Unlines([line]) == line + [NEWLINE] + [];
    assert (text + [NEWLINE])[..|text|] == text && (line + [NEWLINE])[..|line|] == line;
  }

  function Lines(exports: seq<Export>): seq<seq<byte>> {
    if exports == [] then []
    else
      [Hex.Hex(exports[0].exportId), Hex.Hex(exports[0].signatureDigest)] + SplitLines(NameOf(exports[0]))
      + Lines(exports[1..])
  }

  lemma LastExport(exports: seq<Export>)
    requires exports != []
    ensures ExportsText(exports)
      == ExportsText(exports[..|exports| - 1]) + ExportText(exports[|exports| - 1])
  {
    hide ExportText;
  }

  lemma {:induction false} ExportsTextConcat(a: seq<Export>, b: seq<Export>)
    ensures ExportsText(a + b) == ExportsText(a) + ExportsText(b)
    decreases |b|
  {
    hide ExportText;
    if b == [] {
      assert a + b == a;
    } else {
      hide ExportsText;
      var n := |b| - 1;
      ExportsTextConcat(a, b[..n]);
      LastExport(b);
      LastExport(a + b);
      assert (a + b)[..|a + b| - 1] == a + b[..n] && (a + b)[|a + b| - 1] == b[n];
      Regroup(ExportsText(a), ExportsText(b[..n]), ExportText(b[n]));
    }
  }

  lemma EntryText(e: Export)
    ensures var lines := [Hex.Hex(e.exportId), Hex.Hex(e.signatureDigest)] + SplitLines(NameOf(e));
      NewlineFree(lines) && Unlines(lines) == ExportText(e)
  {
    var a, b, name := Hex.Hex(e.exportId), Hex.Hex(e.signatureDigest), SplitLines(NameOf(e));
    Hex.HexHasNoNewline(e.exportId);
    Hex.HexHasNoNewline(e.signatureDigest);
    SplitLinesJoin(NameOf(e));
    hide Hex.Hex, SplitLines;
    assert ([a, b] + name)[1..] == [b] + name && ([b] + name)[1..] == name;
    assert Unlines([b] + name) == b + [NEWLINE] + Unlines(name);
  }

  lemma {:induction false} TextIsLines(exports: seq<Export>)
    ensures NewlineFree(Lines(exports)) && Unlines(Lines(exports)) == ExportsText(exports)
  {
    hide Hex.Hex, SplitLines, ExportText;
    if exports == [] {
      UnlinesOfNone();
    } else {
      var e, rest := exports[0], exports[1..];
      TextIsLines(rest);
      EntryText(e);
      UnlinesConcat([Hex.Hex(e.exportId), Hex.Hex(e.signatureDigest)] + SplitLines(NameOf(e)), Lines(rest));
      ExportsTextConcat([e], rest);
      OneExportText(e);
      assert [e] + rest == exports;
      hide Unlines, ExportsText;
    }
  }

  // ----- Plain components -----

  predicate PlainText(text: seq<byte>) { NEWLINE !in text && !MerkleTree.IsHexDigest(text) }

  ghost predicate PlainExports(exports: seq<Export>) {
    forall i :: 0 <= i < |exports| ==> PlainText(NameOf(exports[i]))
  }

  lemma IdsAreHexDigests(d: Digest)
    ensures MerkleTree.IsHexDigest(Hex.Hex(d))
  {
    MerkleTree.HexIsHexDigits(d);
  }

  lemma PlainEntryLines(e: Export)
    requires PlainText(NameOf(e))
    ensures var a, b := Hex.Hex(e.exportId), Hex.Hex(e.signatureDigest);
      [a, b] + SplitLines(NameOf(e)) == [a, b, NameOf(e)]
  {
    hide SplitLines, Hex.Hex, PlainText;
    PlainIsOneLine(NameOf(e));
  }

  lemma {:induction false} PlainLines(exports: seq<Export>)
    requires PlainExports(exports)
    ensures |Lines(exports)| == 3 * |exports|
    ensures exports != [] ==>
      Lines(exports) == [Hex.Hex(exports[0].exportId), Hex.Hex(exports[0].signatureDigest), NameOf(exports[0])]
        + Lines(exports[1..])
  {
    hide SplitLines, PlainText, Hex.Hex;
    if exports != [] {
      PlainLines(exports[1..]);
      PlainEntryLines(exports[0]);
    }
  }

  lemma PlainIsOneLine(text: seq<byte>)
    requires PlainText(text)
    ensures SplitLines(text) == [text]
  {
    OneLine(text);
  }

  lemma {:induction false} UnlinesLength(a: seq<seq<byte>>, n: nat)
    requires n <= |a|
    ensures |Unlines(a)| >= |Unlines(a[..n])|
  {
    UnlinesConcat(a[..n], a[n..]);
    assert a[..n] + a[n..] == a;
  }

  lemma FourLines(a: seq<byte>, b: seq<byte>, c: seq<byte>, d: seq<byte>)
    ensures |Unlines([a, b, c, d])| == |a| + |b| + |c| + |d| + 4
  {
    assert [a, b, c, d][1..] == [b, c, d] && [b, c, d][1..] == [c, d] && [c, d][1..] == [d] && [d][1..] == [];
    assert |Unlines([d])| == |d| + 1;
    assert |Unlines([c, d])| == |c| + 1 + |Unlines([d])|;
    assert |Unlines([b, c, d])| == |b| + 1 + |Unlines([c, d])|;
  }

  // A text that holds the first four of these lines is that long.
  lemma FourLinesFit(text: seq<byte>, head: seq<byte>, e: Export, lines: seq<seq<byte>>)
    requires SplitLines(text) <= lines && |SplitLines(text)| >= 4 && |lines| >= 4
    requires lines[..4] == [head, Hex.Hex(e.exportId), Hex.Hex(e.signatureDigest), NameOf(e)]
    ensures |text| >= |head| + |NameOf(e)| + 131
  {
    SplitLinesJoin(text);
    hide Unlines, SplitLines, Hex.Hex;
    assert SplitLines(text)[..4] == lines[..4];
    UnlinesLength(SplitLines(text), 4);
    FourLines(head, Hex.Hex(e.exportId), Hex.Hex(e.signatureDigest), NameOf(e));
  }

  // The first two lines of another reading's next export are digests.
  lemma NextExport(other: seq<Export>)
    requires other != []
    ensures |Lines(other)| >= 3
    ensures MerkleTree.IsHexDigest(Lines(other)[0]) && MerkleTree.IsHexDigest(Lines(other)[1])
  {
    IdsAreHexDigests(other[0].exportId);
    IdsAreHexDigests(other[0].signatureDigest);
    hide Hex.Hex, SplitLines, MerkleTree.IsHexDigest;
  }

  // Where another reading's next export can begin: not in the next three lines of the plain one.
  lemma NextStart(head: seq<byte>, e: Export, rest: seq<seq<byte>>, n: nat, other: seq<Export>)
    requires PlainText(NameOf(e)) && n >= 2 && other != []
    requires var all := [head, Hex.Hex(e.exportId), Hex.Hex(e.signatureDigest), NameOf(e)] + rest;
      n <= |all| && all[n..] == Lines(other)
    ensures n >= 4
  {
    hide Hex.Hex, MerkleTree.IsHexDigest, Lines;
    NextExport(other);
    var all := [head, Hex.Hex(e.exportId), Hex.Hex(e.signatureDigest), NameOf(e)] + rest;
    assert all[n] == Lines(other)[0] && all[n + 1] == Lines(other)[1] && all[3] == NameOf(e);
  }

  lemma LongEntry(head: seq<byte>, exports: seq<Export>, text: seq<byte>, other: seq<Export>)
    requires PlainExports(exports) && |SplitLines(text)| >= 2
    requires SplitLines(text) + Lines(other) == [head] + Lines(exports)
    ensures |exports| >= 1 && |text| >= |head| + |NameOf(exports[0])| + 131 && (other != [] ==> |exports| >= 2)
  {
    hide SplitLines, Hex.Hex, PlainText;
    PlainLines(exports);
    var all, n := [head] + Lines(exports), |SplitLines(text)|;
    assert all[..n] == SplitLines(text) && all[n..] == Lines(other);
    if other == [] {
      assert Lines(other) == [];
    }
    hide Lines;
    assert exports != [];
    var e := exports[0];
    assert PlainText(NameOf(e));
    var rest := Lines(exports[1..]);
    assert all == [head, Hex.Hex(e.exportId), Hex.Hex(e.signatureDigest), NameOf(e)] + rest;
    if other != [] {
      NextStart(head, e, rest, n, other);
      NextExport(other);
    }
    FourLinesFit(text, head, e, all);
  }

  // Lines that a plain reading and another one share: the other's first text is the plain one's first line, or
  // it reaches over the whole next export.
  lemma OneEntry(head: seq<byte>, exports: seq<Export>, text: seq<byte>, other: seq<Export>)
    requires PlainExports(exports)
    requires SplitLines(text) + Lines(other) == [head] + Lines(exports)
    ensures (text == head && Lines(other) == Lines(exports))
      || (|exports| >= 1 && |text| >= |head| + |NameOf(exports[0])| + 131 && (other != [] ==> |exports| >= 2))
  {
    hide SplitLines, Lines, PlainExports;
    if |SplitLines(text)| == 1 {
      var all := [head] + Lines(exports);
      assert SplitLines(text) == all[..1] == [head] && Lines(other) == all[1..] == Lines(exports);
      OneLineOnly(text, head);
    } else {
      LongEntry(head, exports, text, other);
    }
  }

  // ----- Room for another reading -----

  ghost predicate NamesFit(exports: seq<Export>, k: nat) {
    k + 1 < |exports| && |NameOf(exports[k])| + |NameOf(exports[k + 1])| + 131 <= MAX_TEXT
  }

  ghost predicate IdentityFits(identity: seq<byte>, exports: seq<Export>) {
    |exports| >= 2 && |identity| + |NameOf(exports[0])| + 131 <= MAX_TEXT
  }

  ghost predicate ShortNames(exports: seq<Export>) {
    forall i :: 0 <= i < |exports| ==> |NameOf(exports[i])| <= MAX_TEXT
  }

  lemma {:induction false} SameLines(exports: seq<Export>, other: seq<Export>)
    requires PlainExports(exports) && ShortNames(other) && Lines(other) == Lines(exports)
    ensures SameContract(other, exports) || exists k: nat :: NamesFit(exports, k)
    decreases |exports|
  {
    hide SplitLines, Hex.Hex, PlainText;
    PlainLines(exports);
    if other != [] {
      NextExport(other);
    }
    if exports != [] && other != [] {
      var e, o := exports[0], other[0];
      assert PlainText(NameOf(e));
      SameHead(e, exports[1..], o, other[1..]);
      OneEntry(NameOf(e), exports[1..], NameOf(o), other[1..]);
      if Lines(other[1..]) == Lines(exports[1..]) && NameOf(o) == NameOf(e) {
        SameLines(exports[1..], other[1..]);
        SameContractFrom(exports, other);
      } else {
        assert NamesFit(exports, 0);
      }
    }
  }

  lemma SameHead(e: Export, rest: seq<Export>, o: Export, others: seq<Export>)
    requires PlainText(NameOf(e))
    requires [Hex.Hex(o.exportId), Hex.Hex(o.signatureDigest)] + SplitLines(NameOf(o)) + Lines(others)
      == [Hex.Hex(e.exportId), Hex.Hex(e.signatureDigest), NameOf(e)] + Lines(rest)
    ensures o.exportId == e.exportId && o.signatureDigest == e.signatureDigest
    ensures SplitLines(NameOf(o)) + Lines(others) == [NameOf(e)] + Lines(rest)
  {
    hide SplitLines, Hex.Hex, Lines;
    var left := [Hex.Hex(o.exportId), Hex.Hex(o.signatureDigest)] + SplitLines(NameOf(o)) + Lines(others);
    var right := [Hex.Hex(e.exportId), Hex.Hex(e.signatureDigest), NameOf(e)] + Lines(rest);
    assert left[0] == right[0] && left[1] == right[1];
    assert left[2..] == SplitLines(NameOf(o)) + Lines(others) && right[2..] == [NameOf(e)] + Lines(rest);
    Hex.HexIsInjective(o.exportId, e.exportId);
    Hex.HexIsInjective(o.signatureDigest, e.signatureDigest);
  }

  lemma SameContractFrom(exports: seq<Export>, other: seq<Export>)
    requires exports != [] && other != []
    requires other[0].exportId == exports[0].exportId && other[0].signatureDigest == exports[0].signatureDigest
    requires NameOf(other[0]) == NameOf(exports[0])
    requires SameContract(other[1..], exports[1..]) || exists k: nat :: NamesFit(exports[1..], k)
    ensures SameContract(other, exports) || exists k: nat :: NamesFit(exports, k)
  {
    if SameContract(other[1..], exports[1..]) {
      assert forall i :: 1 <= i < |other| ==> other[i] == other[1..][i - 1] && exports[i] == exports[1..][i - 1];
    } else {
      var k: nat :| NamesFit(exports[1..], k);
      assert NamesFit(exports, k + 1);
    }
  }

  // Another accepted component with this text, but not with this identity and these exports.
  ghost predicate Shares(c: Component, d: Component)
    requires Accepted(c) && Accepted(d)
  {
    && ContractText(c.identity.value, c.exports.value) == ContractText(d.identity.value, d.exports.value)
    && !(d.identity == c.identity && SameContract(d.exports.value, c.exports.value))
  }

  ghost predicate HasRoom(identity: seq<byte>, exports: seq<Export>) {
    IdentityFits(identity, exports) || exists k: nat :: NamesFit(exports, k)
  }

  lemma BodyLines(identity: seq<byte>, exports: seq<Export>)
    ensures var lines := SplitLines(identity) + Lines(exports);
      NewlineFree(lines) && identity + [NEWLINE] + ExportsText(exports) == Unlines(lines)
  {
    hide SplitLines, Lines, ExportsText, Unlines;
    SplitLinesJoin(identity);
    TextIsLines(exports);
    UnlinesConcat(SplitLines(identity), Lines(exports));
  }

  lemma SharingNeedsRoom(identity: seq<byte>, exports: seq<Export>, identity': seq<byte>, exports': seq<Export>)
    requires PlainText(identity) && PlainExports(exports)
    requires |identity'| <= MAX_TEXT && ShortNames(exports') && exports' != []
    requires ContractText(identity, exports) == ContractText(identity', exports')
    ensures (identity' == identity && SameContract(exports', exports)) || HasRoom(identity, exports)
  {
    hide Ascii, ExportsText, Unlines, PlainText;
    var n := |CONTRACT_HEADER|;
    assert identity + [NEWLINE] + ExportsText(exports) == ContractText(identity, exports)[n..];
    assert identity' + [NEWLINE] + ExportsText(exports') == ContractText(identity', exports')[n..];
    BodyLines(identity, exports);
    BodyLines(identity', exports');
    UnlinesIsInjective(SplitLines(identity) + Lines(exports), SplitLines(identity') + Lines(exports'));
    PlainIsOneLine(identity);
    hide SplitLines, Lines;
    OneEntry(identity, exports, identity', exports');
    if identity' == identity && Lines(exports') == Lines(exports) {
      SameLines(exports, exports');
    }
  }

  // ----- Making use of the room -----

  function MergedAt(exports: seq<Export>, k: nat): seq<Export>
    requires k + 1 < |exports|
  {
    exports[..k] + ([Merged(exports[k], exports[k + 1])] + exports[k + 2..])
  }

  lemma MergedAtReadsAlike(exports: seq<Export>, k: nat)
    requires k + 1 < |exports|
    ensures ExportsText(MergedAt(exports, k)) == ExportsText(exports)
  {
    hide ExportsText, Merged;
    var merged, two := [Merged(exports[k], exports[k + 1])], [exports[k], exports[k + 1]];
    MergedReadsAlike(exports[k], exports[k + 1]);
    ExportsTextConcat(merged, exports[k + 2..]);
    ExportsTextConcat(two, exports[k + 2..]);
    ExportsTextConcat(exports[..k], merged + exports[k + 2..]);
    ExportsTextConcat(exports[..k], two + exports[k + 2..]);
    assert exports[..k] + (two + exports[k + 2..]) == exports;
  }

  lemma MergedAtIsOk(exports: seq<Export>, k: nat)
    requires ExportsOk(exports) && NamesFit(exports, k)
    ensures ExportsOk(MergedAt(exports, k)) && |MergedAt(exports, k)| == |exports| - 1
  {
    MergedIsOk(exports[k], exports[k + 1]);
    if k + 2 < |exports| {
      BelowIsTransitive(exports[k].exportId, exports[k + 1].exportId, exports[k + 2].exportId);
    }
    hide Below, EntryOk, SpelledOut;
    var merged := MergedAt(exports, k);
    assert merged[k] == [Merged(exports[k], exports[k + 1])][0];
    forall i | 0 <= i < |merged|
      ensures EntryOk(merged[i])
    {
      assert i < k ==> merged[i] == exports[i];
      assert i > k ==> merged[i] == exports[i + 1];
    }
    forall i | 0 < i < |merged|
      ensures Below(merged[i - 1].exportId, merged[i].exportId)
    {
      assert i < k ==> merged[i] == exports[i] && merged[i - 1] == exports[i - 1];
      assert i > k ==> merged[i] == exports[i + 1];
    }
  }

  lemma SwallowedReadsAlike(identity: seq<byte>, exports: seq<Export>)
    requires exports != []
    ensures ContractText(SpelledOut(identity, exports[0]), exports[1..]) == ContractText(identity, exports)
  {
    hide Hex.Hex, Ascii, ExportsText;
    ExportsTextConcat([exports[0]], exports[1..]);
    OneExportText(exports[0]);
    assert [exports[0]] + exports[1..] == exports;
    assert CONTRACT_HEADER + SpelledOut(identity, exports[0]) + [NEWLINE] + ExportsText(exports[1..])
      == CONTRACT_HEADER + identity + [NEWLINE] + (ExportText(exports[0]) + ExportsText(exports[1..]));
  }

  lemma MergedComponentShares(c: Component, k: nat)
    requires Accepted(c) && NamesFit(c.exports.value, k)
    ensures var d := Declared(c.identity.value, MergedAt(c.exports.value, k)); Accepted(d) && Shares(c, d)
  {
    var exports := c.exports.value;
    MergedAtReadsAlike(exports, k);
    MergedAtIsOk(exports, k);
    hide ExportsOk, MergedAt, ExportsText, Ascii;
    DeclaredIsAccepted(c.identity.value, MergedAt(exports, k));
  }

  lemma SwallowingComponentShares(c: Component)
    requires Accepted(c) && IdentityFits(c.identity.value, c.exports.value)
    ensures var d := Declared(SpelledOut(c.identity.value, c.exports.value[0]), c.exports.value[1..]);
      Accepted(d) && Shares(c, d)
  {
    var identity, exports := c.identity.value, c.exports.value;
    SwallowedReadsAlike(identity, exports);
    SpelledOutLength(identity, exports[0]);
    TailIsOk(exports);
    hide ExportsOk, ContractText, SpelledOut;
    DeclaredIsAccepted(SpelledOut(identity, exports[0]), exports[1..]);
  }

  lemma TailIsOk(exports: seq<Export>)
    requires ExportsOk(exports) && exports != []
    ensures ExportsOk(exports[1..])
  {
    hide EntryOk, Below;
  }

  // The verifier accepts another component with the text of this plain one, but another contract, if and only if
  // two neighbouring names, or the identity and the first name of several, leave room for 131 bytes between them.
  lemma PlainContractIsSharedExactlyWithRoom(c: Component)
    requires Accepted(c) && PlainText(c.identity.value) && PlainExports(c.exports.value)
    ensures (exists d :: Accepted(d) && Shares(c, d)) <==> HasRoom(c.identity.value, c.exports.value)
  {
    hide ContractText, PlainText, SameContract, ContractDigestOk, IdentityDigestOk;
    var identity, exports := c.identity.value, c.exports.value;
    if IdentityFits(identity, exports) {
      SwallowingComponentShares(c);
    } else if HasRoom(identity, exports) {
      var k: nat :| NamesFit(exports, k);
      MergedComponentShares(c, k);
    } else if exists d :: Accepted(d) && Shares(c, d) {
      var d :| Accepted(d) && Shares(c, d);
      SharingNeedsRoom(identity, exports, d.identity.value, d.exports.value);
    }
  }
}
