/**
  The ABI-1 component descriptor: what the loader accepts, why its export ids are then distinct, and the
  canonical text whose digest names the contract.
*/
module Descriptor {
  import opened Prelude
  import opened Exports
  import opened Sha256Spec
  import Hex
  import Sha256

  datatype Component = Component(
    structSize: nat,
    abiEpoch: nat,
    flags: nat,
    reserved: nat,
    identityDigest: Digest,
    contractDigest: Digest,
    identity: Option<seq<byte>>,
    exports: Option<seq<Export>>,
    reservedWords: seq<nat>)

  const NEWLINE: byte := 10
  const COMPONENT_SIZE := 208
  const EXPORT_SIZE := 112
  const MAX_TEXT := 4096
  const MAX_EXPORTS := 1024

  // ----- memcmp on 32-byte ids -----

  // Lexicographic order of unsigned bytes.
  ghost predicate Below(a: seq<byte>, b: seq<byte>)
    requires |a| == |b|
  {
    exists k :: 0 <= k < |a| && a[..k] == b[..k] && a[k] < b[k]
  }

  method Memcmp(a: seq<byte>, b: seq<byte>) returns (order: int)
    requires |a| == |b|
    ensures order == 0 <==> a == b
    ensures order < 0 <==> Below(a, b)
    ensures order > 0 <==> Below(b, a)
  {
    var k := 0;
    while k < |a| && a[k] == b[k]
      invariant 0 <= k <= |a| && a[..k] == b[..k]
    {
      k := k + 1;
    }
    if k == |a| {
      assert a[..k] == a && b[..k] == b;
      order := 0;
      NotBelowItself(a);
    } else {
      order := if a[k] < b[k] then -1 else 1;
      OneSided(a, b, k);
    }
  }

  lemma NotBelowItself(a: seq<byte>)
    ensures !Below(a, a)
  {
  }

  lemma OneSided(a: seq<byte>, b: seq<byte>, k: nat)
    requires |a| == |b| && k < |a| && a[..k] == b[..k] && a[k] != b[k]
    ensures Below(a, b) <==> a[k] < b[k]
    ensures Below(b, a) <==> b[k] < a[k]
  {
    FirstDifference(a, b, k);
    FirstDifference(b, a, k);
  }

  lemma FirstDifference(a: seq<byte>, b: seq<byte>, k: nat)
    requires |a| == |b| && k < |a| && a[..k] == b[..k] && a[k] != b[k]
    ensures Below(a, b) <==> a[k] < b[k]
  {
    if Below(a, b) {
      var j :| 0 <= j < |a| && a[..j] == b[..j] && a[j] < b[j];
      assert forall i :: 0 <= i < k ==> a[..k][i] == a[i] && b[..k][i] == b[i];
      assert forall i :: 0 <= i < j ==> a[..j][i] == a[i] && b[..j][i] == b[i];
      assert j == k;
    }
  }

  lemma BelowIsTransitive(a: seq<byte>, b: seq<byte>, c: seq<byte>)
    requires |a| == |b| == |c| && Below(a, b) && Below(b, c)
    ensures Below(a, c)
  {
    var i :| 0 <= i < |a| && a[..i] == b[..i] && a[i] < b[i];
    var j :| 0 <= j < |b| && b[..j] == c[..j] && b[j] < c[j];
    var k := if i < j then i else j;
    assert a[..k] == a[..i][..k] && b[..k] == b[..i][..k];
    assert b[..k] == b[..j][..k] && c[..k] == c[..j][..k];
    assert i < j ==> b[..j][i] == c[..j][i];
    assert j < i ==> a[..i][j] == b[..i][j];
  }

  // ----- What an accepted descriptor looks like -----

  ghost predicate AllZero(words: seq<nat>) { forall i :: 0 <= i < |words| ==> words[i] == 0 }

  ghost predicate HeaderOk(c: Component) {
    && c.structSize == COMPONENT_SIZE && c.abiEpoch == 1 && c.flags == 0 && c.reserved == 0
    && c.identity.Some? && 0 < |c.identity.value| <= MAX_TEXT
    && c.exports.Some? && 0 < |c.exports.value| <= MAX_EXPORTS
    && AllZero(c.reservedWords)
  }

  ghost predicate EntryOk(e: Export) {
    && e.structSize == EXPORT_SIZE && e.flags == 0
    && e.canonicalName.Some? && 0 < |e.canonicalName.value| <= MAX_TEXT
    && e.invokable && AllZero(e.reserved)
  }

  // Every export is well formed and the ids ascend from one export to the next.
  ghost predicate ExportsOk(exports: seq<Export>) {
    && (forall i :: 0 <= i < |exports| ==> EntryOk(exports[i]))
    && (forall i :: 0 < i < |exports| ==> Below(exports[i - 1].exportId, exports[i].exportId))
  }

  function Ascii(text: string): seq<byte> {
    seq(|text|, i requires 0 <= i < |text| => text[i] as int % 256)
  }

  const IDENTITY_HEADER: seq<byte> := Ascii("chtholly.component.identity.v1\n")
  const CONTRACT_HEADER: seq<byte> := Ascii("chtholly.component.contract.v1\n")

  function ExportText(e: Export): seq<byte> {
    Hex.Hex(e.exportId) + [NEWLINE] + Hex.Hex(e.signatureDigest) + [NEWLINE] + NameOf(e) + [NEWLINE]
  }

  function ExportsText(exports: seq<Export>): seq<byte> {
    if exports == [] then []
    else ExportsText(exports[..|exports| - 1]) + ExportText(exports[|exports| - 1])
  }

  function ContractText(identity: seq<byte>, exports: seq<Export>): seq<byte> {
    CONTRACT_HEADER + identity + [NEWLINE] + ExportsText(exports)
  }

  ghost predicate IdentityDigestOk(c: Component)
    requires c.identity.Some?
  {
    c.identityDigest == Sha256Spec.Sha256(IDENTITY_HEADER + c.identity.value)
  }

  ghost predicate ContractDigestOk(c: Component)
    requires c.identity.Some? && c.exports.Some?
  {
    c.contractDigest == Sha256Spec.Sha256(ContractText(c.identity.value, c.exports.value))
  }

  ghost predicate Accepted(c: Component) {
    && HeaderOk(c) && IdentityDigestOk(c) && ExportsOk(c.exports.value) && ContractDigestOk(c)
  }

  // ----- The verifier -----

  datatype Verdict = Valid | HeaderInvalid | IdentityDigestInvalid | ExportInvalid | ContractDigestInvalid

  method DigestBytes(text: seq<byte>) returns (digest: Digest)
    requires Hashable(text)
    ensures digest == Sha256Spec.Sha256(text)
  {
    hide Sha256Spec.Sha256, Hex.Hex;
    var hex := Sha256.HashText(text);
    var bytes := Hex.ReadHex(hex, Sha256Spec.Sha256(text));
    digest := bytes;
  }

  method AnyNonZero(words: seq<nat>) returns (r: bool)
    ensures r <==> !AllZero(words)
  {
    for i := 0 to |words|
      invariant forall j :: 0 <= j < i ==> words[j] == 0
    {
      if words[i] != 0 {
        return true;
      }
    }
    return false;
  }

  lemma {:induction false} ExportsTextBound(exports: seq<Export>)
    requires forall i :: 0 <= i < |exports| ==> EntryOk(exports[i])
    ensures |ExportsText(exports)| <= 4300 * |exports|
  {
    if exports != [] {
      ExportsTextBound(exports[..|exports| - 1]);
      assert EntryOk(exports[|exports| - 1]);
    }
  }

  // The loop over the exports: `canonical` is None when one of them is malformed or out of order.
  method VerifyExports(identity: seq<byte>, exports: seq<Export>) returns (canonical: Option<seq<byte>>)
    ensures canonical.Some? <==> ExportsOk(exports)
    ensures canonical.Some? ==> canonical.value == ContractText(identity, exports)
  {
    hide Hex.Hex, ExportText, Ascii, ContractText;
    var text := CONTRACT_HEADER + identity + [NEWLINE];
    ContractTextOfNone(identity);
    var previous: Digest := seq(32, _ => 0);
    var havePrevious := false;
    for index := 0 to |exports|
      invariant text == ContractText(identity, exports[..index])
      invariant ExportsOk(exports[..index])
      invariant havePrevious <==> index > 0
      invariant havePrevious ==> previous == exports[index - 1].exportId
    {
      var entry := exports[index];
      var reservedSet := AnyNonZero(entry.reserved);
      var order := Memcmp(previous, entry.exportId);
      ExportsOkSnoc(exports, index);
      if entry.structSize != EXPORT_SIZE || entry.flags != 0
         || entry.canonicalName.None? || |entry.canonicalName.value| == 0
         || |entry.canonicalName.value| > MAX_TEXT || !entry.invokable || reservedSet
         || (havePrevious && order >= 0)
      {
        return None;
      }
      previous := entry.exportId;
      havePrevious := true;
      ContractTextSnoc(identity, exports, index);
      text := text + ExportText(entry);
    }
    assert exports[..|exports|] == exports;
    return Some(text);
  }

  lemma ExportsOkSnoc(exports: seq<Export>, index: nat)
    requires index < |exports| && ExportsOk(exports[..index])
    ensures ExportsOk(exports[..index + 1]) <==>
      EntryOk(exports[index]) && (index > 0 ==> Below(exports[index - 1].exportId, exports[index].exportId))
    ensures !ExportsOk(exports[..index + 1]) ==> !ExportsOk(exports)
  {
    hide EntryOk, Below;
    var longer := exports[..index + 1];
    assert longer[index] == exports[index];
    assert forall i :: 0 <= i < index ==> longer[i] == exports[i] == exports[..index][i];
  }

  lemma ContractTextOfNone(identity: seq<byte>)
    ensures ContractText(identity, []) == CONTRACT_HEADER + identity + [NEWLINE]
  {
  }

  method VerifyDescriptor(c: Component) returns (verdict: Verdict)
    ensures verdict == Valid <==> Accepted(c)
    ensures verdict == HeaderInvalid <==> !HeaderOk(c)
    ensures verdict == IdentityDigestInvalid <==> HeaderOk(c) && !IdentityDigestOk(c)
    ensures verdict == ExportInvalid <==>
      HeaderOk(c) && IdentityDigestOk(c) && !ExportsOk(c.exports.value)
  {
    hide Sha256Spec.Sha256, ContractText, Ascii, ExportsOk;
    var wordsSet := AnyNonZero(c.reservedWords);
    if c.structSize != COMPONENT_SIZE || c.abiEpoch != 1 || c.flags != 0 || c.reserved != 0
       || c.identity.None? || |c.identity.value| == 0 || |c.identity.value| > MAX_TEXT
       || c.exports.None? || |c.exports.value| == 0 || |c.exports.value| > MAX_EXPORTS || wordsSet
    {
      return HeaderInvalid;
    }
    var identity, exports := c.identity.value, c.exports.value;
    HeaderSizes();
    var identityDigest := DigestBytes(IDENTITY_HEADER + identity);
    var order := Memcmp(identityDigest, c.identityDigest);
    if order != 0 {
      return IdentityDigestInvalid;
    }
    var canonical := VerifyExports(identity, exports);
    if canonical.None? {
      return ExportInvalid;
    }
    ContractTextBound(identity, exports);
    var contract := DigestBytes(canonical.value);
    order := Memcmp(contract, c.contractDigest);
    return if order != 0 then ContractDigestInvalid else Valid;
  }

  lemma HeaderSizes()
    ensures |IDENTITY_HEADER| == 31 && |CONTRACT_HEADER| == 31
  {
  }

  lemma ContractTextSnoc(identity: seq<byte>, exports: seq<Export>, index: nat)
    requires index < |exports|
    ensures ContractText(identity, exports[..index + 1]) ==
            ContractText(identity, exports[..index]) + ExportText(exports[index])
  {
    assert exports[..index + 1][..index] == exports[..index];
  }

  lemma ContractTextBound(identity: seq<byte>, exports: seq<Export>)
    requires |identity| <= MAX_TEXT && |exports| <= MAX_EXPORTS && ExportsOk(exports)
    ensures Hashable(ContractText(identity, exports))
  {
    HeaderSizes();
    ExportsTextBound(exports);
  }

  // ----- Distinct ids -----

  lemma {:induction false} IdsAscend(exports: seq<Export>, i: nat, j: nat)
    requires ExportsOk(exports) && i < j < |exports|
    ensures Below(exports[i].exportId, exports[j].exportId)
  {
    if i + 1 < j {
      IdsAscend(exports, i, j - 1);
      BelowIsTransitive(exports[i].exportId, exports[j - 1].exportId, exports[j].exportId);
    }
  }

  // Comparing neighbours only is enough: all ids of an accepted descriptor differ.
  lemma IdsAreDistinct(exports: seq<Export>, i: nat, j: nat)
    requires ExportsOk(exports) && i < |exports| && j < |exports|
    ensures exports[i].exportId == exports[j].exportId <==> i == j
  {
    if i < j {
      IdsAscend(exports, i, j);
      NotBelowItself(exports[i].exportId);
    } else if j < i {
      IdsAscend(exports, j, i);
      NotBelowItself(exports[i].exportId);
    }
  }

  // So the first match that an invocation takes is the only one.
  lemma FirstMatchIsOnlyMatch(exports: seq<Export>, id: Digest, k: nat)
    requires ExportsOk(exports)
    ensures FirstMatch(exports, id) == Some(k) <==> k < |exports| && exports[k].exportId == id
  {
    match FirstMatch(exports, id) {
      case None =>
      case Some(f) =>
        if k < |exports| {
          IdsAreDistinct(exports, f, k);
        }
    }
  }

  // ----- The canonical text determines the contract -----

  // The text as lines: every line is followed by a newline.
  function Unlines(lines: seq<seq<byte>>): seq<byte> {
    if lines == [] then [] else lines[0] + [NEWLINE] + Unlines(lines[1..])
  }

  ghost predicate NewlineFree(lines: seq<seq<byte>>) {
    forall i :: 0 <= i < |lines| ==> NEWLINE !in lines[i]
  }

  // Where the first line of a text ends.
  lemma FirstNewline(line: seq<byte>, rest: seq<byte>)
    requires NEWLINE !in line
    ensures var text := line + [NEWLINE] + rest;
      && text[|line|] == NEWLINE
      && (forall k :: 0 <= k < |line| ==> text[k] != NEWLINE)
      && text[..|line|] == line && text[|line| + 1..] == rest
  {
  }

  lemma FirstLineIsUnique(a: seq<byte>, x: seq<byte>, b: seq<byte>, y: seq<byte>)
    requires NEWLINE !in a && NEWLINE !in b && a + [NEWLINE] + x == b + [NEWLINE] + y
    ensures a == b && x == y
  {
    FirstNewline(a, x);
    FirstNewline(b, y);
    assert |a| == |b|;
  }

  lemma {:induction false} UnlinesIsInjective(a: seq<seq<byte>>, b: seq<seq<byte>>)
    requires NewlineFree(a) && NewlineFree(b) && Unlines(a) == Unlines(b)
    ensures a == b
    decreases |a|
  {
    if a != [] && b != [] {
      FirstLineIsUnique(a[0], Unlines(a[1..]), b[0], Unlines(b[1..]));
      UnlinesIsInjective(a[1..], b[1..]);
      assert a == [a[0]] + a[1..] && b == [b[0]] + b[1..];
    }
  }

  lemma {:induction false} UnlinesConcat(a: seq<seq<byte>>, b: seq<seq<byte>>)
    ensures Unlines(a + b) == Unlines(a) + Unlines(b)
  {
    if a == [] {
      assert a + b == b;
    } else {
      UnlinesConcat(a[1..], b);
      assert (a + b)[0] == a[0] && (a + b)[1..] == a[1..] + b;
      Regroup(a[0] + [NEWLINE], Unlines(a[1..]), Unlines(b));
    }
  }

  lemma UnlinesOfNone()
    ensures Unlines([]) == []
  {
  }

  function ExportLines(e: Export): seq<seq<byte>> {
    [Hex.Hex(e.exportId), Hex.Hex(e.signatureDigest), NameOf(e)]
  }

  function ExportsLines(exports: seq<Export>): (r: seq<seq<byte>>)
    ensures |r| == 3 * |exports|
  {
    if exports == [] then []
    else ExportsLines(exports[..|exports| - 1]) + ExportLines(exports[|exports| - 1])
  }

  lemma ExportTextIsLines(e: Export)
    ensures ExportText(e) == Unlines(ExportLines(e))
  {
    hide Hex.Hex;
    var lines := ExportLines(e);
    assert lines[1..] == [lines[1], lines[2]] && lines[1..][1..] == [lines[2]];
    assert Unlines([lines[2]]) == lines[2] + [NEWLINE];
    assert Unlines([lines[1], lines[2]]) == lines[1] + [NEWLINE] + Unlines([lines[2]]);
  }

  lemma {:induction false} ExportsTextIsLines(exports: seq<Export>)
    ensures ExportsText(exports) == Unlines(ExportsLines(exports))
  {
    hide ExportText, ExportLines, Unlines;
    if exports == [] {
      UnlinesOfNone();
    } else {
      var last := exports[|exports| - 1];
      ExportsTextIsLines(exports[..|exports| - 1]);
      ExportTextIsLines(last);
      UnlinesConcat(ExportsLines(exports[..|exports| - 1]), ExportLines(last));
    }
  }

  ghost predicate PlainNames(exports: seq<Export>) {
    forall i :: 0 <= i < |exports| ==> NEWLINE !in NameOf(exports[i])
  }

  lemma {:induction false} PlainNamesGivePlainLines(exports: seq<Export>)
    requires PlainNames(exports)
    ensures NewlineFree(ExportsLines(exports))
  {
    if exports != [] {
      var last := exports[|exports| - 1];
      PlainNamesGivePlainLines(exports[..|exports| - 1]);
      Hex.HexHasNoNewline(last.exportId);
      Hex.HexHasNoNewline(last.signatureDigest);
    }
  }

  // What the contract is about: the id, signature and name of every export, in order.
  ghost predicate SameContract(a: seq<Export>, b: seq<Export>) {
    && |a| == |b|
    && forall i :: 0 <= i < |a| ==>
         && a[i].exportId == b[i].exportId
         && a[i].signatureDigest == b[i].signatureDigest
         && NameOf(a[i]) == NameOf(b[i])
  }

  lemma {:induction false} SameLinesSameContract(a: seq<Export>, b: seq<Export>)
    requires ExportsLines(a) == ExportsLines(b)
    ensures SameContract(a, b)
  {
    hide Hex.Hex;
    if a != [] && b != [] {
      var x, y := a[|a| - 1], b[|b| - 1];
      var n := |ExportsLines(a)| - 3;
      assert ExportsLines(a)[..n] == ExportsLines(a[..|a| - 1]);
      assert ExportsLines(b)[..n] == ExportsLines(b[..|b| - 1]);
      SameLinesSameContract(a[..|a| - 1], b[..|b| - 1]);
      assert ExportsLines(a)[n..] == ExportLines(x) && ExportsLines(b)[n..] == ExportLines(y);
      assert ExportLines(x)[0] == ExportLines(y)[0] && ExportLines(x)[1] == ExportLines(y)[1]
          && ExportLines(x)[2] == ExportLines(y)[2];
      Hex.HexIsInjective(x.exportId, y.exportId);
      Hex.HexIsInjective(x.signatureDigest, y.signatureDigest);
    }
  }

  // For identities and names without newlines, two contracts have the same canonical text exactly when
  // they agree on the identity and on every export.
  lemma ContractTextIsInjective(i1: seq<byte>, e1: seq<Export>, i2: seq<byte>, e2: seq<Export>)
    requires NEWLINE !in i1 && NEWLINE !in i2 && PlainNames(e1) && PlainNames(e2)
    ensures ContractText(i1, e1) == ContractText(i2, e2) <==> i1 == i2 && SameContract(e1, e2)
  {
    hide Ascii, ExportText;
    if ContractText(i1, e1) == ContractText(i2, e2) {
      var n := |CONTRACT_HEADER|;
      assert i1 + [NEWLINE] + ExportsText(e1) == ContractText(i1, e1)[n..];
      assert i2 + [NEWLINE] + ExportsText(e2) == ContractText(i2, e2)[n..];
      FirstLineIsUnique(i1, ExportsText(e1), i2, ExportsText(e2));
      ExportsTextIsLines(e1);
      ExportsTextIsLines(e2);
      PlainNamesGivePlainLines(e1);
      PlainNamesGivePlainLines(e2);
      UnlinesIsInjective(ExportsLines(e1), ExportsLines(e2));
      SameLinesSameContract(e1, e2);
    }
    if SameContract(e1, e2) {
      SameContractSameText(e1, e2);
    }
  }

  lemma {:induction false} SameContractSameText(a: seq<Export>, b: seq<Export>)
    requires SameContract(a, b)
    ensures ExportsText(a) == ExportsText(b)
  {
    if a != [] {
      SameContractSameText(a[..|a| - 1], b[..|b| - 1]);
      assert ExportText(a[|a| - 1]) == ExportText(b[|b| - 1]);
    }
  }

  // ----- Without that condition -----

  // The lines that a second export adds to the canonical text, before its closing newline.
  function SpelledOut(before: seq<byte>, e: Export): seq<byte> {
    before + [NEWLINE] + Hex.Hex(e.exportId) + [NEWLINE] + Hex.Hex(e.signatureDigest) + [NEWLINE] + NameOf(e)
  }

  function Merged(first: Export, second: Export): Export {
    first.(canonicalName := Some(SpelledOut(NameOf(first), second)))
  }

  // The condition on the names is needed: a name that spells out the lines of a second export makes one
  // export read like two, and the verifier accepts the exports either way.
  lemma NewlineInNameMergesExports(identity: seq<byte>, first: Export, second: Export)
    requires EntryOk(first) && EntryOk(second) && Below(first.exportId, second.exportId)
    requires |NameOf(first)| + |NameOf(second)| + 131 <= MAX_TEXT
    ensures ExportsOk([Merged(first, second)]) && ExportsOk([first, second])
    ensures ContractText(identity, [Merged(first, second)]) == ContractText(identity, [first, second])
    ensures !SameContract([Merged(first, second)], [first, second])
  {
    MergedIsOk(first, second);
    MergedReadsAlike(first, second);
    hide Hex.Hex, Ascii, Below, EntryOk, Merged, ExportsText, ExportsOk;
  }

  lemma MergedIsOk(first: Export, second: Export)
    requires EntryOk(first) && EntryOk(second) && Below(first.exportId, second.exportId)
    requires |NameOf(first)| + |NameOf(second)| + 131 <= MAX_TEXT
    ensures ExportsOk([Merged(first, second)]) && ExportsOk([first, second])
  {
    hide Below, SpelledOut;
    SpelledOutLength(NameOf(first), second);
  }

  lemma MergedReadsAlike(first: Export, second: Export)
    ensures ExportsText([Merged(first, second)]) == ExportsText([first, second])
  {
    hide Hex.Hex, ExportsText;
    OneExportText(Merged(first, second));
    TwoExportsText(first, second);
    MergedText(first, second);
  }

  lemma MergedText(first: Export, second: Export)
    ensures ExportText(Merged(first, second)) == ExportText(first) + ExportText(second)
  {
    hide Hex.Hex;
    SixLines([NEWLINE], Hex.Hex(first.exportId), Hex.Hex(first.signatureDigest), NameOf(first),
             Hex.Hex(second.exportId), Hex.Hex(second.signatureDigest), NameOf(second));
    assert NameOf(Merged(first, second)) == SpelledOut(NameOf(first), second);
  }

  lemma SixLines(n: seq<byte>, a: seq<byte>, b: seq<byte>, c: seq<byte>, d: seq<byte>, e: seq<byte>, f: seq<byte>)
    ensures a + n + b + n + (c + n + d + n + e + n + f) + n == (a + n + b + n + c + n) + (d + n + e + n + f + n)
  {
  }

  lemma OneExportText(e: Export)
    ensures ExportsText([e]) == ExportText(e)
  {
    hide ExportText;
    assert [e][..0] == [];
  }

  lemma TwoExportsText(first: Export, second: Export)
    ensures ExportsText([first, second]) == ExportText(first) + ExportText(second)
  {
    hide ExportText;
    assert [first, second][..1] == [first];
    OneExportText(first);
  }

  // So is the condition on the identity, which can spell out the first of two exports.
  lemma NewlineInIdentityMergesExports(identity: seq<byte>, first: Export, second: Export)
    requires EntryOk(first) && EntryOk(second) && Below(first.exportId, second.exportId)
    ensures ExportsOk([second]) && ExportsOk([first, second])
    ensures ContractText(SpelledOut(identity, first), [second]) == ContractText(identity, [first, second])
    ensures SpelledOut(identity, first) != identity && !SameContract([second], [first, second])
  {
    hide Hex.Hex, Ascii, Below, ExportsText;
    OneExportText(second);
    TwoExportsText(first, second);
    assert CONTRACT_HEADER + SpelledOut(identity, first) + [NEWLINE] + ExportText(second)
      == CONTRACT_HEADER + identity + [NEWLINE] + (ExportText(first) + ExportText(second));
  }

  // The component that declares this identity and these exports.
  function Declared(identity: seq<byte>, exports: seq<Export>): Component {
    Component(COMPONENT_SIZE, 1, 0, 0, Sha256Spec.Sha256(IDENTITY_HEADER + identity),
              Sha256Spec.Sha256(ContractText(identity, exports)), Some(identity), Some(exports), [0, 0, 0, 0])
  }

  lemma DeclaredIsAccepted(identity: seq<byte>, exports: seq<Export>)
    requires 0 < |identity| <= MAX_TEXT && 0 < |exports| <= MAX_EXPORTS && ExportsOk(exports)
    ensures Accepted(Declared(identity, exports))
  {
    hide Sha256Spec.Sha256, ExportsOk, ContractText;
  }

  // Two components that the verifier accepts, with one contract digest and different exports.
  ghost predicate Collide(a: Component, b: Component) {
    && Accepted(a) && Accepted(b) && a.contractDigest == b.contractDigest
    && a.exports.Some? && b.exports.Some? && !SameContract(a.exports.value, b.exports.value)
  }

  lemma MergedNamesCollide(identity: seq<byte>, first: Export, second: Export)
    requires 0 < |identity| <= MAX_TEXT
    requires EntryOk(first) && EntryOk(second) && Below(first.exportId, second.exportId)
    requires |NameOf(first)| + |NameOf(second)| + 131 <= MAX_TEXT
    ensures Collide(Declared(identity, [Merged(first, second)]), Declared(identity, [first, second]))
  {
    hide Below, SameContract, Accepted, ContractText, ExportsOk, Merged, EntryOk;
    NewlineInNameMergesExports(identity, first, second);
    DeclaredIsAccepted(identity, [Merged(first, second)]);
    DeclaredIsAccepted(identity, [first, second]);
  }

  lemma MergedIdentitiesCollide(identity: seq<byte>, first: Export, second: Export)
    requires 0 < |identity| && |identity| + |NameOf(first)| + 131 <= MAX_TEXT
    requires EntryOk(first) && EntryOk(second) && Below(first.exportId, second.exportId)
    ensures SpelledOut(identity, first) != identity
    ensures Collide(Declared(SpelledOut(identity, first), [second]), Declared(identity, [first, second]))
  {
    SpelledOutLength(identity, first);
    hide Below, SameContract, Accepted, ContractText, ExportsOk, EntryOk, SpelledOut;
    NewlineInIdentityMergesExports(identity, first, second);
    DeclaredIsAccepted(SpelledOut(identity, first), [second]);
    DeclaredIsAccepted(identity, [first, second]);
  }

  lemma SpelledOutLength(before: seq<byte>, e: Export)
    ensures |SpelledOut(before, e)| == |before| + |NameOf(e)| + 131
  {
    hide Hex.Hex;
  }

  function PlainExport(id: byte, name: byte): Export {
    Export(EXPORT_SIZE, 0, seq(31, _ => 0) + [id], seq(32, _ => 0), Some([name]), true, [0, 0])
  }

  lemma PlainExportsAscend()
    ensures EntryOk(PlainExport(1, 97)) && EntryOk(PlainExport(2, 98))
    ensures Below(PlainExport(1, 97).exportId, PlainExport(2, 98).exportId)
    ensures |NameOf(PlainExport(1, 97))| == |NameOf(PlainExport(2, 98))| == 1
  {
    var a, b := PlainExport(1, 97).exportId, PlainExport(2, 98).exportId;
    assert a[..31] == b[..31];
    FirstDifference(a, b, 31);
  }

  lemma DeclaredIdentity(identity: seq<byte>, exports: seq<Export>)
    ensures Declared(identity, exports).identity == Some(identity)
  {
    hide Sha256Spec.Sha256, ContractText;
  }

  // Every identity has two such components that differ in their exports only.
  lemma AcceptedContractsCanCollide(identity: seq<byte>) returns (a: Component, b: Component)
    requires 0 < |identity| <= MAX_TEXT
    ensures Collide(a, b) && a.identity == b.identity == Some(identity)
  {
    var first, second := PlainExport(1, 97), PlainExport(2, 98);
    PlainExportsAscend();
    hide *;
    MergedNamesCollide(identity, first, second);
    a, b := Declared(identity, [Merged(first, second)]), Declared(identity, [first, second]);
    DeclaredIdentity(identity, [Merged(first, second)]);
    DeclaredIdentity(identity, [first, second]);
  }

  // Every identity that leaves room has two such components of which the other has another identity.
  lemma AcceptedIdentitiesCanCollide(identity: seq<byte>) returns (a: Component, b: Component)
    requires 0 < |identity| && |identity| + 132 <= MAX_TEXT
    ensures Collide(a, b) && a.identity.Some? && a.identity != b.identity && b.identity == Some(identity)
  {
    var first, second := PlainExport(1, 97), PlainExport(2, 98);
    PlainExportsAscend();
    hide *;
    MergedIdentitiesCollide(identity, first, second);
    a, b := Declared(SpelledOut(identity, first), [second]), Declared(identity, [first, second]);
    DeclaredIdentity(SpelledOut(identity, first), [second]);
    DeclaredIdentity(identity, [first, second]);
  }
}
