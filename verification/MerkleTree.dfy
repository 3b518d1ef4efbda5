/**
  The Merkle tree of the registry's transparency log: node hashes, roots and the generation of proofs.

  The program splits a list of leaf hashes top-down at a power of two. The specification pairs neighbours level by
  level from the leaves up, so that a proof is what the nodes above a leaf find beside them, in that order.
*/
module MerkleTree {
  import opened Prelude
  import Hex
  import Sha256
  import Sha256Spec

  // ----- Digests and nodes -----

  type Text = seq<byte>

  predicate IsHexDigit(c: byte) { 48 <= c <= 57 || 97 <= c <= 102 }

  predicate IsHexDigest(t: Text) { |t| == 64 && forall i :: 0 <= i < 64 ==> IsHexDigit(t[i]) }

  predicate AllDigests(texts: seq<Text>) { forall i :: 0 <= i < |texts| ==> IsHexDigest(texts[i]) }

  function DigitOf(c: byte): (r: byte)
    requires IsHexDigit(c)
    ensures r < 16
  {
    if c <= 57 then c - 48 else c - 97 + 10
  }

  function RawByte(t: Text, i: nat): byte
    requires IsHexDigest(t) && i < 32
  {
    16 * DigitOf(t[2 * i]) + DigitOf(t[2 * i + 1])
  }

  function RawDigest(t: Text): (r: seq<byte>)
    requires IsHexDigest(t)
    ensures |r| == 32
  {
    seq(32, i requires 0 <= i < 32 => RawByte(t, i))
  }

  lemma RawDigestIsInjective(a: Text, b: Text)
    requires IsHexDigest(a) && IsHexDigest(b) && RawDigest(a) == RawDigest(b)
    ensures a == b
  {
    forall j | 0 <= j < 64
      ensures a[j] == b[j]
    {
      var i := j / 2;
      assert RawDigest(a)[i] == RawByte(a, i) && RawDigest(b)[i] == RawByte(b, i);
      assert DigitOf(a[2 * i]) == DigitOf(b[2 * i]) && DigitOf(a[2 * i + 1]) == DigitOf(b[2 * i + 1]);
    }
  }

  lemma {:induction false} HexIsHexDigits(bytes: seq<byte>)
    ensures forall i :: 0 <= i < |Hex.Hex(bytes)| ==> IsHexDigit(Hex.Hex(bytes)[i])
  {
    if bytes != [] {
      HexIsHexDigits(bytes[1..]);
    }
  }

  lemma DigitIsRead(n: byte)
    requires n < 16
    ensures IsHexDigit(Hex.HexDigit(n)) && DigitOf(Hex.HexDigit(n)) == n
  {
  }

  lemma BytesAreRead(b: seq<byte>)
    requires |b| == 32
    ensures IsHexDigest(Hex.Hex(b)) && RawDigest(Hex.Hex(b)) == b
  {
    HexIsHexDigits(b);
    hide DigitOf, Hex.HexDigit, IsHexDigit, Hex.Hex;
    forall i | 0 <= i < 32
      ensures RawDigest(Hex.Hex(b))[i] == b[i]
    {
      Hex.HexAt(b, i);
      DigitIsRead(b[i] / 16);
      DigitIsRead(b[i] % 16);
      assert RawDigest(Hex.Hex(b))[i] == RawByte(Hex.Hex(b), i);
    }
  }

  // The texts that pass are the hexadecimal digits of 32 bytes, and what is read from them is those bytes.
  lemma DigestsAreHex(t: Text, b: seq<byte>)
    requires |b| == 32
    ensures IsHexDigest(t) && RawDigest(t) == b <==> t == Hex.Hex(b)
  {
    hide Hex.Hex, RawDigest, IsHexDigest;
    BytesAreRead(b);
    if IsHexDigest(t) && RawDigest(t) == b {
      RawDigestIsInjective(t, Hex.Hex(b));
    }
  }

  // Exactly the 32 bytes whose lower-case digits the text is, or none.
  method DigestBytes(hex: Text) returns (bytes: Option<seq<byte>>)
    ensures bytes == if IsHexDigest(hex) then Some(RawDigest(hex)) else None
    ensures forall b: seq<byte> :: |b| == 32 ==> (bytes == Some(b) <==> hex == Hex.Hex(b))
  {
    forall b: seq<byte> | |b| == 32
      ensures IsHexDigest(hex) && RawDigest(hex) == b <==> hex == Hex.Hex(b)
    {
      DigestsAreHex(hex, b);
    }
    hide RawDigest, Hex.Hex;
    if !IsHexDigest(hex) {
      return None;
    }
    var result: seq<byte> := seq(32, _ => 0);
    for i := 0 to 32
      invariant |result| == 32 && forall k :: 0 <= k < i ==> result[k] == RawByte(hex, k)
    {
      result := result[i := 16 * DigitOf(hex[2 * i]) + DigitOf(hex[2 * i + 1])];
    }
    assert result == RawDigest(hex);
    return Some(result);
  }

  function NodeInput(left: Text, right: Text): (r: seq<byte>)
    requires IsHexDigest(left) && IsHexDigest(right)
    ensures |r| == 65
  {
    [1] + RawDigest(left) + RawDigest(right)
  }

  // The hash of an inner node, empty for children that are no digests.
  function Node(left: Text, right: Text): Text {
    if IsHexDigest(left) && IsHexDigest(right) then Hex.Hex(Sha256Spec.Sha256(NodeInput(left, right))) else []
  }

  method NodeHash(left: Text, right: Text) returns (hash: Text)
    ensures hash == Node(left, right)
    ensures forall a: seq<byte>, b: seq<byte> ::
      |a| == 32 && |b| == 32 && left == Hex.Hex(a) && right == Hex.Hex(b) ==>
        hash == Hex.Hex(Sha256Spec.Sha256([1] + a + b))
    ensures !IsHexDigest(left) || !IsHexDigest(right) ==> hash == []
  {
    hide IsHexDigest, Sha256Spec.Sha256, RawDigest;
    var leftBytes := DigestBytes(left);
    var rightBytes := DigestBytes(right);
    if leftBytes.None? || rightBytes.None? {
      return [];
    }
    var input: seq<byte> := [1] + leftBytes.value + rightBytes.value;
    hash := Sha256.HashText(input);
  }

  lemma NodeIsDigest(left: Text, right: Text)
    requires IsHexDigest(left) && IsHexDigest(right)
    ensures IsHexDigest(Node(left, right))
  {
    hide Sha256Spec.Sha256, Hex.Hex;
    HexIsHexDigits(Sha256Spec.Sha256(NodeInput(left, right)));
  }

  // Two messages with one SHA-256 digest.
  ghost predicate Collide(x: seq<byte>, y: seq<byte>) {
    x != y && Sha256Spec.Sha256(x) == Sha256Spec.Sha256(y)
  }

  lemma NodeTellsChildren(a: Text, b: Text, c: Text, d: Text)
    requires IsHexDigest(a) && IsHexDigest(b) && IsHexDigest(c) && IsHexDigest(d)
    requires Node(a, b) == Node(c, d)
    ensures (a == c && b == d) || Collide(NodeInput(a, b), NodeInput(c, d))
  {
    hide Sha256Spec.Sha256, IsHexDigest, RawDigest;
    var x, y := NodeInput(a, b), NodeInput(c, d);
    Hex.HexIsInjective(Sha256Spec.Sha256(x), Sha256Spec.Sha256(y));
    if x == y {
      assert x[1..33] == RawDigest(a) && y[1..33] == RawDigest(c);
      assert x[33..] == RawDigest(b) && y[33..] == RawDigest(d);
      RawDigestIsInjective(a, c);
      RawDigestIsInjective(b, d);
    }
  }

  // ----- The split -----

  predicate IsPower(n: nat) { n == 1 || (n > 0 && n % 2 == 0 && IsPower(n / 2)) }

  // The power of two below n that is at least half of it.
  function Split(n: nat): (k: nat)
    requires n >= 2
    ensures IsPower(k) && 1 <= k < n <= 2 * k
  {
    if n == 2 then 1 else 2 * Split((n + 1) / 2)
  }

  lemma {:induction false} PowersAreApart(a: nat, b: nat)
    requires IsPower(a) && IsPower(b) && a < b
    ensures 2 * a <= b
  {
    if a > 1 {
      PowersAreApart(a / 2, b / 2);
    }
  }

  method LargestPowerOfTwoLessThan(value: nat) returns (result: nat)
    requires value >= 2
    ensures result == Split(value)
  {
    result := 1;
    while result <= (value - 1) / 2
      invariant IsPower(result) && result < value
      decreases value - result
    {
      result := result * 2;
    }
    var split := Split(value);
    if split < result {
      PowersAreApart(split, result);
    } else if result < split {
      PowersAreApart(result, split);
    }
  }

  // ----- Levels -----

  // The level above: neighbours are hashed together, and a last one without a neighbour moves up.
  function Above(level: seq<Text>): (r: seq<Text>)
    ensures |r| == (|level| + 1) / 2
  {
    seq((|level| + 1) / 2, i requires 0 <= i < (|level| + 1) / 2 =>
      if 2 * i + 1 < |level| then Node(level[2 * i], level[2 * i + 1]) else level[2 * i])
  }

  // The root: the one node of the top level; an empty tree has the hash of the empty text.
  function Root(level: seq<Text>): Text
    decreases |level|
  {
    if level == [] then Hex.Hex(Sha256Spec.Sha256([]))
    else if |level| == 1 then level[0]
    else Root(Above(level))
  }

  function Sibling(level: seq<Text>, index: nat): seq<Text>
    requires index < |level|
  {
    if index % 2 == 1 then [level[index - 1]]
    else if index + 1 < |level| then [level[index + 1]]
    else []
  }

  // The siblings of the nodes above a leaf, from the leaves up.
  function Path(level: seq<Text>, index: nat): seq<Text>
    requires index < |level|
    decreases |level|
  {
    if |level| == 1 then [] else Sibling(level, index) + Path(Above(level), index / 2)
  }

  // The last complete subtree of the first `prefix` leaves: its root, unless it is all of them and the verifier
  // knows that root, and the siblings of the nodes above it.
  function Bridge(level: seq<Text>, prefix: nat, known: bool): seq<Text>
    requires 0 < prefix <= |level|
    decreases |level|
  {
    if prefix == |level| then (if known then [] else [Root(level)])
    else if prefix % 2 == 0 then Bridge(Above(level), prefix / 2, known)
    else (if known && prefix == 1 then [] else [level[prefix - 1]]) + Path(level, prefix - 1)
  }

  lemma AboveIsDigests(level: seq<Text>)
    requires AllDigests(level)
    ensures AllDigests(Above(level))
  {
    hide Node, IsHexDigest;
    forall i | 0 <= i < |Above(level)|
      ensures IsHexDigest(Above(level)[i])
    {
      if 2 * i + 1 < |level| {
        NodeIsDigest(level[2 * i], level[2 * i + 1]);
      }
    }
  }

  lemma {:induction false} RootIsDigest(level: seq<Text>)
    requires AllDigests(level)
    ensures IsHexDigest(Root(level))
    decreases |level|
  {
    hide Above, IsHexDigest, Sha256Spec.Sha256;
    if level == [] {
      EmptyRootIsDigest();
    } else if |level| > 1 {
      AboveIsDigests(level);
      RootIsDigest(Above(level));
    }
  }

  lemma EmptyRootIsDigest()
    ensures IsHexDigest(Hex.Hex(Sha256Spec.Sha256([])))
  {
    hide Sha256Spec.Sha256, Hex.Hex;
    HexIsHexDigits(Sha256Spec.Sha256([]));
  }

  // A cut at an even place is a cut of the level above at half of it.
  lemma AboveOfParts(level: seq<Text>, half: nat)
    requires 2 * half <= |level|
    ensures Above(level[..2 * half]) == Above(level)[..half]
    ensures Above(level[2 * half..]) == Above(level)[half..]
  {
    hide Node;
  }

  lemma RootOfAbove(level: seq<Text>)
    requires level != []
    ensures Root(Above(level)) == Root(level)
  {
    hide Node;
    if |level| == 1 {
      assert Above(level) == level;
    }
  }

  lemma RootOfTwo(level: seq<Text>)
    requires |level| == 2
    ensures Root(level) == Node(level[0], level[1])
  {
    hide Node;
    assert Above(level) == [Node(level[0], level[1])];
  }

  // The tree built level by level splits where the program splits it.
  lemma {:induction false} RootSplits(level: seq<Text>)
    requires |level| >= 2
    ensures var k := Split(|level|); Root(level) == Node(Root(level[..k]), Root(level[k..]))
    decreases |level|
  {
    hide Node, Above, Root;
    if |level| == 2 {
      RootOfTwo(level);
      RootOfOne(level[..1]);
      RootOfOne(level[1..]);
    } else {
      var half := Split((|level| + 1) / 2);
      RootSplits(Above(level));
      AboveOfParts(level, half);
      RootOfAbove(level);
      RootOfAbove(level[..2 * half]);
      RootOfAbove(level[2 * half..]);
    }
  }

  lemma RootOfOne(level: seq<Text>)
    requires |level| == 1
    ensures Root(level) == level[0]
  {
  }

  lemma PathAbove(level: seq<Text>, index: nat)
    requires index < |level| && |level| >= 2
    ensures Path(level, index) == Sibling(level, index) + Path(Above(level), index / 2)
  {
    hide Above, Sibling;
  }

  lemma PathOfOne(level: seq<Text>)
    requires |level| == 1
    ensures Path(level, 0) == []
  {
  }

  // The same as PathAbove for a single node, which has no sibling and is its own level above.
  lemma PathFromAnywhere(level: seq<Text>, index: nat)
    requires index < |level|
    ensures Path(level, index) == Sibling(level, index) + Path(Above(level), index / 2)
  {
    hide Node;
    if |level| == 1 {
      assert Above(level) == level;
    }
  }

  lemma SiblingInParts(level: seq<Text>, index: nat, half: nat)
    requires index < |level| && 2 * half < |level|
    ensures index < 2 * half ==> Sibling(level, index) == Sibling(level[..2 * half], index)
    ensures index >= 2 * half ==> Sibling(level, index) == Sibling(level[2 * half..], index - 2 * half)
  {
  }

  lemma {:induction false} PathSplits(level: seq<Text>, index: nat)
    requires |level| >= 2 && index < |level|
    ensures var k := Split(|level|);
      Path(level, index) ==
        if index < k then Path(level[..k], index) + [Root(level[k..])]
        else Path(level[k..], index - k) + [Root(level[..k])]
    decreases |level|
  {
    hide Node, Above, Root, Path, Sibling;
    if |level| == 2 {
      PathOfTwo(level, index);
    } else {
      var half := Split((|level| + 1) / 2);
      var k := 2 * half;
      PathSplits(Above(level), index / 2);
      AboveOfParts(level, half);
      SiblingInParts(level, index, half);
      RootOfAbove(level[..k]);
      RootOfAbove(level[k..]);
      PathFromAnywhere(level, index);
      if index < k {
        PathFromAnywhere(level[..k], index);
      } else {
        PathFromAnywhere(level[k..], index - k);
      }
    }
  }

  lemma PathOfTwo(level: seq<Text>, index: nat)
    requires |level| == 2 && index < 2
    ensures Path(level, index) ==
      if index < 1 then Path(level[..1], index) + [Root(level[1..])]
      else Path(level[1..], index - 1) + [Root(level[..1])]
  {
    hide Above;
    PathOfOne(level[..1]);
    PathOfOne(level[1..]);
    PathOfOne(Above(level));
  }

  lemma BridgeOfEven(level: seq<Text>, prefix: nat, known: bool)
    requires 0 < prefix < |level| && prefix % 2 == 0
    ensures Bridge(level, prefix, known) == Bridge(Above(level), prefix / 2, known)
  {
    hide Above, Root, Path;
  }

  // Half of a complete subtree is one of the level above.
  lemma BridgeFromAnywhere(level: seq<Text>, prefix: nat, known: bool)
    requires 0 < prefix <= |level| && prefix % 2 == 0
    ensures Bridge(level, prefix, known) == Bridge(Above(level), prefix / 2, known)
  {
    hide Above, Root, Path, Bridge;
    if prefix < |level| {
      BridgeOfEven(level, prefix, known);
    } else {
      RootOfAbove(level);
      BridgeOfAll(level, known);
      BridgeOfAll(Above(level), known);
    }
  }

  lemma BridgeOfAll(level: seq<Text>, known: bool)
    requires level != []
    ensures Bridge(level, |level|, known) == if known then [] else [Root(level)]
  {
    hide Above, Root;
  }

  lemma BridgeOfOdd(level: seq<Text>, prefix: nat, known: bool)
    requires 0 < prefix < |level| && prefix % 2 == 1
    ensures Bridge(level, prefix, known)
      == (if known && prefix == 1 then [] else [level[prefix - 1]]) + Path(level, prefix - 1)
  {
    hide Above, Root, Path;
  }

  lemma OddBridgeSplits(level: seq<Text>, prefix: nat, known: bool)
    requires 0 < prefix < |level| && prefix % 2 == 1
    ensures var k := Split(|level|);
      Bridge(level, prefix, known) ==
        if prefix <= k then Bridge(level[..k], prefix, known) + [Root(level[k..])]
        else Bridge(level[k..], prefix - k, false) + [Root(level[..k])]
  {
    hide Above, Root, Path, Bridge;
    var k := Split(|level|);
    PathSplits(level, prefix - 1);
    BridgeOfOdd(level, prefix, known);
    if prefix < k {
      BridgeOfOdd(level[..k], prefix, known);
    } else if prefix == k {
      assert k == 1;
      BridgeOfAll(level[..1], known);
      RootOfOne(level[..1]);
      PathOfOne(level[..1]);
    } else {
      BridgeOfOdd(level[k..], prefix - k, false);
    }
  }

  lemma {:induction false} BridgeSplits(level: seq<Text>, prefix: nat, known: bool)
    requires 0 < prefix < |level|
    ensures var k := Split(|level|);
      Bridge(level, prefix, known) ==
        if prefix <= k then Bridge(level[..k], prefix, known) + [Root(level[k..])]
        else Bridge(level[k..], prefix - k, false) + [Root(level[..k])]
    decreases |level|
  {
    hide Node, Above, Root, Path, Bridge;
    if prefix % 2 == 1 {
      OddBridgeSplits(level, prefix, known);
    } else {
      var half := Split((|level| + 1) / 2);
      var k := 2 * half;
      BridgeSplits(Above(level), prefix / 2, known);
      AboveOfParts(level, half);
      RootOfAbove(level[..k]);
      RootOfAbove(level[k..]);
      BridgeOfEven(level, prefix, known);
      if prefix <= k {
        BridgeFromAnywhere(level[..k], prefix, known);
      } else {
        BridgeFromAnywhere(level[k..], prefix - k, false);
      }
    }
  }

  // ----- The program's ranges -----

  function MerkleRange(leaves: seq<Text>, begin: nat, count: nat): Text
    requires begin + count <= |leaves|
    decreases count
  {
    if count == 0 then Hex.Hex(Sha256Spec.Sha256([]))
    else if count == 1 then leaves[begin]
    else
      var split := Split(count);
      Node(MerkleRange(leaves, begin, split), MerkleRange(leaves, begin + split, count - split))
  }

  function InclusionRange(leaves: seq<Text>, begin: nat, count: nat, index: nat): seq<Text>
    requires begin + count <= |leaves| && index < count
    decreases count
  {
    if count <= 1 then []
    else
      var split := Split(count);
      if index < split then
        InclusionRange(leaves, begin, split, index) + [MerkleRange(leaves, begin + split, count - split)]
      else
        InclusionRange(leaves, begin + split, count - split, index - split) + [MerkleRange(leaves, begin, split)]
  }

  function ConsistencyRange(
      leaves: seq<Text>, begin: nat, oldSize: nat, newSize: nat, complete: bool): seq<Text>
    requires begin + newSize <= |leaves| && 0 < oldSize <= newSize
    decreases newSize
  {
    if oldSize == newSize then (if complete then [] else [MerkleRange(leaves, begin, newSize)])
    else
      var split := Split(newSize);
      if oldSize <= split then
        ConsistencyRange(leaves, begin, oldSize, split, complete)
        + [MerkleRange(leaves, begin + split, newSize - split)]
      else
        ConsistencyRange(leaves, begin + split, oldSize - split, newSize - split, false)
        + [MerkleRange(leaves, begin, split)]
  }

  function Range(leaves: seq<Text>, begin: nat, count: nat): (r: seq<Text>)
    requires begin + count <= |leaves|
    ensures |r| == count
  {
    leaves[begin..begin + count]
  }

  lemma RangeInParts(leaves: seq<Text>, begin: nat, count: nat, k: nat)
    requires begin + count <= |leaves| && k <= count
    ensures Range(leaves, begin, count)[..k] == Range(leaves, begin, k)
    ensures Range(leaves, begin, count)[k..] == Range(leaves, begin + k, count - k)
  {
  }

  lemma {:induction false} MerkleRangeIsRoot(leaves: seq<Text>, begin: nat, count: nat)
    requires begin + count <= |leaves|
    ensures MerkleRange(leaves, begin, count) == Root(Range(leaves, begin, count))
    decreases count
  {
    hide Node, Above, Sha256Spec.Sha256;
    var range := Range(leaves, begin, count);
    if count >= 2 {
      hide Root;
      var k := Split(count);
      RootSplits(range);
      RangeInParts(leaves, begin, count, k);
      hide Range;
      MerkleRangeIsRoot(leaves, begin, k);
      MerkleRangeIsRoot(leaves, begin + k, count - k);
    }
  }

  // The program's inclusion proof is the path of siblings.
  lemma {:induction false} InclusionRangeIsPath(leaves: seq<Text>, begin: nat, count: nat, index: nat)
    requires begin + count <= |leaves| && index < count
    ensures InclusionRange(leaves, begin, count, index) == Path(Range(leaves, begin, count), index)
    decreases count
  {
    hide Above, Root, Path, MerkleRange;
    var range := Range(leaves, begin, count);
    if count == 1 {
      PathOfOne(range);
    } else {
      var k := Split(count);
      PathSplits(range, index);
      RangeInParts(leaves, begin, count, k);
      MerkleRangeIsRoot(leaves, begin, k);
      MerkleRangeIsRoot(leaves, begin + k, count - k);
      if index < k {
        InclusionRangeIsPath(leaves, begin, k, index);
      } else {
        InclusionRangeIsPath(leaves, begin + k, count - k, index - k);
      }
    }
    hide Range;
  }

  lemma {:induction false} ConsistencyRangeIsBridge(
      leaves: seq<Text>, begin: nat, oldSize: nat, newSize: nat, complete: bool)
    requires begin + newSize <= |leaves| && 0 < oldSize <= newSize
    ensures ConsistencyRange(leaves, begin, oldSize, newSize, complete)
      == Bridge(Range(leaves, begin, newSize), oldSize, complete)
    decreases newSize
  {
    hide Above, Root, Bridge, MerkleRange;
    var range := Range(leaves, begin, newSize);
    if oldSize == newSize {
      BridgeOfAll(range, complete);
      MerkleRangeIsRoot(leaves, begin, newSize);
    } else {
      var k := Split(newSize);
      BridgeSplits(range, oldSize, complete);
      RangeInParts(leaves, begin, newSize, k);
      MerkleRangeIsRoot(leaves, begin, k);
      MerkleRangeIsRoot(leaves, begin + k, newSize - k);
      if oldSize <= k {
        ConsistencyRangeIsBridge(leaves, begin, oldSize, k, complete);
      } else {
        ConsistencyRangeIsBridge(leaves, begin + k, oldSize - k, newSize - k, false);
      }
    }
    hide Range;
  }

  function MerkleRoot(leaves: seq<Text>): Text {
    if AllDigests(leaves) then MerkleRange(leaves, 0, |leaves|) else []
  }

  function InclusionProof(leaves: seq<Text>, index: nat): seq<Text> {
    if index >= |leaves| || !AllDigests(leaves) then [] else InclusionRange(leaves, 0, |leaves|, index)
  }

  function ConsistencyProof(leaves: seq<Text>, oldSize: nat): seq<Text> {
    if oldSize == 0 || oldSize > |leaves| || !AllDigests(leaves) then []
    else if oldSize != |leaves| then ConsistencyRange(leaves, 0, oldSize, |leaves|, true)
    else []
  }

  // What the program computes top-down is what the levels give from the leaves up.
  lemma GeneratedFromLevels(leaves: seq<Text>, index: nat, oldSize: nat)
    requires AllDigests(leaves)
    ensures MerkleRoot(leaves) == Root(leaves)
    ensures index < |leaves| ==> InclusionProof(leaves, index) == Path(leaves, index)
    ensures 0 < oldSize <= |leaves| ==> ConsistencyProof(leaves, oldSize) == Bridge(leaves, oldSize, true)
  {
    hide Root, Path, Bridge, MerkleRange, InclusionRange, ConsistencyRange, AllDigests;
    assert Range(leaves, 0, |leaves|) == leaves;
    MerkleRangeIsRoot(leaves, 0, |leaves|);
    if index < |leaves| {
      InclusionRangeIsPath(leaves, 0, |leaves|, index);
    }
    if 0 < oldSize < |leaves| {
      ConsistencyRangeIsBridge(leaves, 0, oldSize, |leaves|, true);
    } else if 0 < oldSize == |leaves| {
      BridgeOfAll(leaves, true);
    }
  }
}
