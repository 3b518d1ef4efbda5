// The exports of an ABI-1 component and the scan that finds one of them.
module Exports {
  import opened Prelude

  type Digest = s: seq<byte> | |s| == 32 witness seq(32, _ => 0)

  // A `None` name is a null pointer.
  datatype Export = Export(
    structSize: nat,
    flags: nat,
    exportId: Digest,
    signatureDigest: Digest,
    canonicalName: Option<seq<byte>>,
    invokable: bool,
    reserved: seq<nat>)

  function NameOf(e: Export): seq<byte> {
    if e.canonicalName.Some? then e.canonicalName.value else []
  }

  // ----- The export scan of an invocation -----

  function FirstMatch(exports: seq<Export>, id: Digest): (r: Option<nat>)
    ensures r.Some? ==> r.value < |exports| && exports[r.value].exportId == id
    ensures r.Some? ==> forall k :: 0 <= k < r.value ==> exports[k].exportId != id
    ensures r.None? ==> forall k :: 0 <= k < |exports| ==> exports[k].exportId != id
    decreases |exports|
  {
    if |exports| == 0 then None
    else if exports[0].exportId == id then Some(0)
    else
      match FirstMatch(exports[1..], id)
      case None =>
        assert forall k :: 1 <= k < |exports| ==> exports[k] == exports[1..][k - 1];
        None
      case Some(k) =>
        assert forall j :: 1 <= j < |exports| ==> exports[j] == exports[1..][j - 1];
        Some(k + 1)
  }
}
