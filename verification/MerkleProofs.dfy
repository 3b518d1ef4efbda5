/**
  The verification of inclusion and consistency proofs of the registry's transparency log.

  An inclusion proof is checked by recursion over the split, a consistency proof by a loop over the bits of the two
  last indices. Both are complete, and sound up to an explicit collision: the lemmas return two messages that have
  one SHA-256 digest unless the log is what the proof claims.
*/
module MerkleProofs {
  import opened Prelude
  import opened MerkleTree

  // ----- Inclusion -----

  predicate GoesLeft(index: nat, count: nat)
    requires index < count && count >= 2
  {
    index < Split(count)
  }

  // The index and the number of leaves in the part of the tree that holds the leaf.
  function Child(index: nat, count: nat): (r: (nat, nat))
    requires index < count && count >= 2
    ensures r.0 < r.1 < count
  {
    var split := Split(count);
    if GoesLeft(index, count) then (index, split) else (index - split, count - split)
  }

  // The hash of a child and its sibling.
  function Joined(left: bool, child: Text, sibling: Text): Text {
    if left then Node(child, sibling) else Node(sibling, child)
  }

  // The root rebuilt from a leaf, and the position in the proof after the siblings it took.
  function Rebuild(leaf: Text, index: nat, count: nat, proof: seq<Text>, at: nat): (r: Option<(Text, nat)>)
    requires index < count && at <= |proof|
    ensures r.Some? ==> at <= r.value.1 <= |proof|
    decreases count
  {
    if count == 1 then Some((leaf, at))
    else
      var child := Rebuild(leaf, Child(index, count).0, Child(index, count).1, proof, at);
      if child.None? || child.value.1 >= |proof| then None
      else
        var (hash, next) := child.value;
        Some((Joined(GoesLeft(index, count), hash, proof[next]), next + 1))
  }

  predicate VerifyInclusion(leaf: Text, index: nat, size: nat, proof: seq<Text>, root: Text) {
    && IsHexDigest(leaf) && IsHexDigest(root) && size != 0 && index < size && AllDigests(proof)
    && Rebuild(leaf, index, size, proof, 0) == Some((root, |proof|))
  }

  // The part of the tree that holds the leaf, and the other part.
  function Part(leaves: seq<Text>, index: nat): (r: seq<Text>)
    requires index < |leaves| && |leaves| >= 2
    ensures |r| == Child(index, |leaves|).1
  {
    if GoesLeft(index, |leaves|) then leaves[..Split(|leaves|)] else leaves[Split(|leaves|)..]
  }

  function Rest(leaves: seq<Text>, index: nat): seq<Text>
    requires index < |leaves| && |leaves| >= 2
  {
    if GoesLeft(index, |leaves|) then leaves[Split(|leaves|)..] else leaves[..Split(|leaves|)]
  }

  lemma TreeSplits(leaves: seq<Text>, index: nat)
    requires index < |leaves| && |leaves| >= 2
    ensures var part, rest, i := Part(leaves, index), Rest(leaves, index), Child(index, |leaves|).0;
      && part[i] == leaves[index]
      && Root(leaves) == Joined(GoesLeft(index, |leaves|), Root(part), Root(rest))
      && Path(leaves, index) == Path(part, i) + [Root(rest)]
      && (AllDigests(leaves) ==> AllDigests(part) && AllDigests(rest))
  {
    hide Path, Root, Node, IsHexDigest;
    RootSplits(leaves);
    PathSplits(leaves, index);
  }

  lemma {:induction false} RebuildsRoot(leaves: seq<Text>, index: nat, proof: seq<Text>, at: nat)
    requires index < |leaves| && at + |Path(leaves, index)| <= |proof|
    requires proof[at..at + |Path(leaves, index)|] == Path(leaves, index)
    ensures Rebuild(leaves[index], index, |leaves|, proof, at)
      == Some((Root(leaves), at + |Path(leaves, index)|))
    decreases |leaves|
  {
    hide Path, Root, Joined, Part, Rest, GoesLeft, Child;
    if |leaves| == 1 {
      PathOfOne(leaves);
      RootOfOne(leaves);
    } else {
      var part, i := Part(leaves, index), Child(index, |leaves|).0;
      TreeSplits(leaves, index);
      var path, inner := Path(leaves, index), Path(part, i);
      assert proof[at..at + |inner|] == path[..|inner|] == inner;
      assert proof[at + |inner|] == path[|inner|];
      RebuildsRoot(part, i, proof, at);
    }
  }

  lemma {:induction false} RebuiltIsDigest(leaf: Text, index: nat, count: nat, proof: seq<Text>, at: nat)
    requires index < count && at <= |proof| && IsHexDigest(leaf) && AllDigests(proof)
    ensures var r := Rebuild(leaf, index, count, proof, at); r.Some? ==> IsHexDigest(r.value.0)
    decreases count
  {
    hide IsHexDigest, Node, Child, GoesLeft;
    if count > 1 {
      RebuiltIsDigest(leaf, Child(index, count).0, Child(index, count).1, proof, at);
      var child := Rebuild(leaf, Child(index, count).0, Child(index, count).1, proof, at);
      if child.Some? && child.value.1 < |proof| {
        NodeIsDigest(child.value.0, proof[child.value.1]);
        NodeIsDigest(proof[child.value.1], child.value.0);
      }
    }
  }

  // Equal nodes have equal children, on the given side and on the other, or collide.
  lemma OneNode(left: bool, a: Text, b: Text, c: Text, d: Text) returns (x: seq<byte>, y: seq<byte>)
    requires IsHexDigest(a) && IsHexDigest(b) && IsHexDigest(c) && IsHexDigest(d)
    requires Joined(left, a, b) == Joined(left, c, d)
    ensures (a == c && b == d) || Collide(x, y)
  {
    hide Node, IsHexDigest, Collide, NodeInput;
    if left {
      x, y := NodeInput(a, b), NodeInput(c, d);
      NodeTellsChildren(a, b, c, d);
    } else {
      x, y := NodeInput(b, a), NodeInput(d, c);
      NodeTellsChildren(b, a, d, c);
    }
  }

  // A rebuilt root is the tree's only if leaf and siblings are the tree's, or else two messages collide.
  lemma {:induction false} RebuildIsSound(
      leaves: seq<Text>, leaf: Text, index: nat, proof: seq<Text>, at: nat, next: nat)
    returns (x: seq<byte>, y: seq<byte>)
    requires AllDigests(leaves) && AllDigests(proof) && IsHexDigest(leaf)
    requires index < |leaves| && at <= next <= |proof|
    requires Rebuild(leaf, index, |leaves|, proof, at) == Some((Root(leaves), next))
    ensures (leaf == leaves[index] && proof[at..next] == Path(leaves, index)) || Collide(x, y)
    decreases |leaves|
  {
    hide Path, Root, Joined, IsHexDigest, Collide, Part, Rest, GoesLeft, Child;
    x, y := [], [];
    if |leaves| == 1 {
      PathOfOne(leaves);
      RootOfOne(leaves);
    } else {
      var (i, n) := Child(index, |leaves|);
      var part, rest := Part(leaves, index), Rest(leaves, index);
      TreeSplits(leaves, index);
      RebuiltIsDigest(leaf, i, n, proof, at);
      var (hash, before) := Rebuild(leaf, i, n, proof, at).value;
      RootIsDigest(part);
      RootIsDigest(rest);
      x, y := OneNode(GoesLeft(index, |leaves|), hash, proof[before], Root(part), Root(rest));
      if hash == Root(part) && proof[before] == Root(rest) {
        x, y := RebuildIsSound(part, leaf, i, proof, at, before);
        assert proof[at..next] == proof[at..before] + [proof[before]];
      }
    }
  }

  // The generated proof of every leaf is accepted, if and only if the log holds digests only.
  lemma GeneratedInclusionVerifies(leaves: seq<Text>, index: nat)
    requires index < |leaves|
    ensures VerifyInclusion(leaves[index], index, |leaves|, InclusionProof(leaves, index), MerkleRoot(leaves))
      <==> AllDigests(leaves)
  {
    hide Path, Root, Node, MerkleRange, Bridge;
    if AllDigests(leaves) {
      hide MerkleRoot, InclusionProof, IsHexDigest;
      GeneratedFromLevels(leaves, index, 0);
      RootIsDigest(leaves);
      PathIsDigests(leaves, index);
      var path := Path(leaves, index);
      assert path[0..0 + |path|] == path;
      RebuildsRoot(leaves, index, path, 0);
    }
  }

  lemma {:induction false} PathIsDigests(level: seq<Text>, index: nat)
    requires index < |level| && AllDigests(level)
    ensures AllDigests(Path(level, index))
    decreases |level|
  {
    hide Above, IsHexDigest;
    if |level| > 1 {
      AboveIsDigests(level);
      PathIsDigests(Above(level), index / 2);
    }
  }

  // An accepted inclusion proof against the root of a log shows that the leaf is in the log at that index, and
  // is the generated proof, or it shows two messages with one digest.
  lemma InclusionIsMembership(leaves: seq<Text>, leaf: Text, index: nat, proof: seq<Text>)
    returns (x: seq<byte>, y: seq<byte>)
    requires AllDigests(leaves) && VerifyInclusion(leaf, index, |leaves|, proof, MerkleRoot(leaves))
    ensures (leaf == leaves[index] && proof == InclusionProof(leaves, index)) || Collide(x, y)
  {
    hide Path, Root, Node, MerkleRoot, InclusionProof, Collide, IsHexDigest;
    GeneratedFromLevels(leaves, index, 0);
    x, y := RebuildIsSound(leaves, leaf, index, proof, 0, |proof|);
    assert proof[0..|proof|] == proof;
  }

  // ----- Consistency -----

  // Both indices shifted until the first is odd or zero.
  function SkipEven(fn: nat, sn: nat): (r: (nat, nat)) {
    if fn != 0 && fn % 2 == 0 then SkipEven(fn / 2, sn / 2) else (fn, sn)
  }

  // The roots of the old and the new tree after the rest of the proof, if it has the right length.
  function Climb(fn: nat, sn: nat, first: Text, second: Text, proof: seq<Text>): Option<(Text, Text)>
    decreases |proof|
  {
    if proof == [] then (if sn == 0 then Some((first, second)) else None)
    else if sn == 0 then None
    else if fn % 2 == 1 || fn == sn then
      var (f, s) := SkipEven(fn, sn);
      Climb(f / 2, s / 2, Node(proof[0], first), Node(proof[0], second), proof[1..])
    else Climb(fn / 2, sn / 2, first, Node(second, proof[0]), proof[1..])
  }

  // The same from the leaves on, past the ones at the end of the old tree's last index.
  function Start(fn: nat, sn: nat, oldRoot: Text, proof: seq<Text>): Option<(Text, Text)> {
    if fn % 2 == 1 then Start(fn / 2, sn / 2, oldRoot, proof)
    else if fn == 0 then Climb(fn, sn, oldRoot, oldRoot, proof)
    else if proof == [] then None
    else Climb(fn, sn, proof[0], proof[0], proof[1..])
  }

  predicate Consistent(oldSize: nat, newSize: nat, oldRoot: Text, newRoot: Text, proof: seq<Text>) {
    && oldSize != 0 && oldSize <= newSize
    && IsHexDigest(oldRoot) && IsHexDigest(newRoot) && AllDigests(proof)
    && if oldSize == newSize then proof == [] && oldRoot == newRoot
       else Start(oldSize - 1, newSize - 1, oldRoot, proof) == Some((oldRoot, newRoot))
  }

  method VerifyConsistency(oldSize: nat, newSize: nat, oldRoot: Text, newRoot: Text, proof: seq<Text>)
    returns (accepted: bool)
    ensures accepted == Consistent(oldSize, newSize, oldRoot, newRoot, proof)
  {
    hide Node, IsHexDigest;
    if oldSize == 0 || oldSize > newSize || !IsHexDigest(oldRoot) || !IsHexDigest(newRoot) || !AllDigests(proof) {
      return false;
    }
    if oldSize == newSize {
      return proof == [] && oldRoot == newRoot;
    }
    var fn: nat, sn: nat := oldSize - 1, newSize - 1;
    ghost var result := Start(fn, sn, oldRoot, proof);
    while fn % 2 != 0
      invariant Start(fn, sn, oldRoot, proof) == result
      decreases fn
    {
      fn, sn := fn / 2, sn / 2;
    }
    var proofIndex: nat, first, second := 0, oldRoot, oldRoot;
    if fn != 0 {
      if proof == [] {
        return false;
      }
      first, second, proofIndex := proof[0], proof[0], 1;
    }
    assert proof[0..] == proof;
    while proofIndex < |proof|
      invariant proofIndex <= |proof| && Climb(fn, sn, first, second, proof[proofIndex..]) == result
    {
      if sn == 0 {
        return false;
      }
      var hash := proof[proofIndex];
      assert proof[proofIndex..][1..] == proof[proofIndex + 1..];
      if fn % 2 != 0 || fn == sn {
        first := NodeHash(hash, first);
        second := NodeHash(hash, second);
        ghost var skipped := SkipEven(fn, sn);
        while fn != 0 && fn % 2 == 0
          invariant SkipEven(fn, sn) == skipped
          decreases fn
        {
          fn, sn := fn / 2, sn / 2;
        }
      } else {
        second := NodeHash(second, hash);
      }
      fn, sn := fn / 2, sn / 2;
      proofIndex := proofIndex + 1;
    }
    return sn == 0 && first == oldRoot && second == newRoot;
  }

  // On the right edge of both trees a node without a left sibling moves up and takes nothing from the proof.
  lemma ClimbSkips(fn: nat, first: Text, second: Text, proof: seq<Text>)
    requires fn > 0 && fn % 2 == 0
    ensures Climb(fn, fn, first, second, proof) == Climb(fn / 2, fn / 2, first, second, proof)
  {
    hide Node;
  }

  lemma ClimbLeft(fn: nat, sn: nat, first: Text, second: Text, proof: seq<Text>)
    requires fn % 2 == 1 && sn > 0 && Climb(fn, sn, first, second, proof).Some?
    ensures proof != []
    ensures Climb(fn, sn, first, second, proof)
      == Climb(fn / 2, sn / 2, Node(proof[0], first), Node(proof[0], second), proof[1..])
  {
    hide Node;
    assert SkipEven(fn, sn) == (fn, sn);
  }

  lemma ClimbRight(fn: nat, sn: nat, first: Text, second: Text, proof: seq<Text>)
    requires fn % 2 == 0 && fn < sn && Climb(fn, sn, first, second, proof).Some?
    ensures proof != []
    ensures Climb(fn, sn, first, second, proof)
      == Climb(fn / 2, sn / 2, first, Node(second, proof[0]), proof[1..])
  {
    hide Node;
  }

  // The level above an old level that differs from the new one in its last node only.
  lemma AboveOfOld(level: seq<Text>, fn: nat, first: Text)
    requires fn < |level|
    ensures Above(level[..fn] + [first]) == Above(level)[..fn / 2]
      + [if fn % 2 == 1 then Node(level[fn - 1], first) else first]
  {
    hide Node;
  }

  lemma AboveAt(level: seq<Text>, fn: nat)
    requires fn < |level|
    ensures fn / 2 < |Above(level)|
    ensures Above(level)[fn / 2] ==
      if fn % 2 == 1 then Node(level[fn - 1], level[fn])
      else if fn + 1 < |level| then Node(level[fn], level[fn + 1])
      else level[fn]
  {
    hide Node;
  }

  // With `first` in the old tree where the new one has node fn, the siblings lead to both roots.
  lemma {:induction false} ClimbReachesRoots(level: seq<Text>, fn: nat, first: Text)
    requires fn < |level|
    ensures Climb(fn, |level| - 1, first, level[fn], Path(level, fn))
      == Some((Root(level[..fn] + [first]), Root(level)))
    decreases |level|
  {
    hide Node, Above, Root, Path;
    if |level| == 1 {
      PathOfOne(level);
      RootOfOne(level);
      RootOfOne([] + [first]);
      assert level[..0] + [first] == [] + [first];
    } else {
      var sn, above := |level| - 1, Above(level);
      AboveAt(level, fn);
      AboveOfOld(level, fn, first);
      RootOfAbove(level);
      RootOfAbove(level[..fn] + [first]);
      PathAbove(level, fn);
      var up := if fn % 2 == 1 then Node(level[fn - 1], first) else first;
      ClimbReachesRoots(above, fn / 2, up);
      var rest := Path(above, fn / 2);
      if fn % 2 == 0 && fn == sn {
        assert Path(level, fn) == rest;
        ClimbSkips(fn, first, level[fn], rest);
      } else {
        var proof := Path(level, fn);
        assert proof[0] == Sibling(level, fn)[0] && proof[1..] == rest;
      }
    }
  }

  lemma {:induction false} StartReachesRoots(level: seq<Text>, prefix: nat)
    requires 0 < prefix < |level|
    ensures Start(prefix - 1, |level| - 1, Root(level[..prefix]), Bridge(level, prefix, true))
      == Some((Root(level[..prefix]), Root(level)))
    decreases |level|
  {
    hide Node, Above, Root, Path, Bridge, Climb;
    if prefix % 2 == 0 {
      StartReachesRoots(Above(level), prefix / 2);
      AboveOfParts(level, prefix / 2);
      RootOfAbove(level);
      RootOfAbove(level[..prefix]);
      BridgeOfEven(level, prefix, true);
    } else {
      var fn := prefix - 1;
      assert level[..prefix] == level[..fn] + [level[fn]];
      ClimbReachesRoots(level, fn, level[fn]);
      BridgeOfOdd(level, prefix, true);
      var proof := Bridge(level, prefix, true);
      if fn == 0 {
        RootOfOne(level[..1]);
        assert proof == Path(level, fn);
      } else {
        assert proof[0] == level[fn] && proof[1..] == Path(level, fn);
      }
    }
  }

  lemma BridgeIsDigests(level: seq<Text>, prefix: nat, known: bool)
    requires 0 < prefix <= |level| && AllDigests(level)
    ensures AllDigests(Bridge(level, prefix, known))
    decreases |level|
  {
    hide Above, Root, Path, IsHexDigest;
    if prefix == |level| {
      RootIsDigest(level);
    } else if prefix % 2 == 0 {
      AboveIsDigests(level);
      BridgeIsDigests(Above(level), prefix / 2, known);
    } else {
      PathIsDigests(level, prefix - 1);
    }
  }

  // The generated proof for every earlier size of the log is accepted, if and only if the log holds digests only.
  lemma GeneratedConsistencyVerifies(leaves: seq<Text>, oldSize: nat)
    requires 0 < oldSize <= |leaves|
    ensures Consistent(oldSize, |leaves|, MerkleRoot(leaves[..oldSize]), MerkleRoot(leaves),
                       ConsistencyProof(leaves, oldSize))
      <==> AllDigests(leaves)
  {
    hide Path, Root, Node, MerkleRange, Bridge, Start;
    if AllDigests(leaves) {
      hide MerkleRoot, ConsistencyProof, IsHexDigest;
      GeneratedFromLevels(leaves, 0, oldSize);
      GeneratedFromLevels(leaves[..oldSize], 0, 0);
      RootIsDigest(leaves);
      RootIsDigest(leaves[..oldSize]);
      BridgeIsDigests(leaves, oldSize, true);
      if oldSize < |leaves| {
        StartReachesRoots(leaves, oldSize);
      } else {
        BridgeOfAll(leaves, true);
        assert leaves[..oldSize] == leaves;
      }
    }
  }

  // Equal levels above come from equal levels, or two messages collide.
  lemma AboveTellsLevels(a: seq<Text>, b: seq<Text>) returns (x: seq<byte>, y: seq<byte>)
    requires |a| == |b| && AllDigests(a) && AllDigests(b) && Above(a) == Above(b)
    ensures a == b || Collide(x, y)
  {
    hide Node, IsHexDigest, Collide, NodeInput;
    x, y := [], [];
    if a != b {
      var j :| 0 <= j < |a| && a[j] != b[j];
      AboveAt(a, j);
      AboveAt(b, j);
      var i := if j % 2 == 1 then j - 1 else j;
      if i + 1 < |a| {
        x, y := NodeInput(a[i], a[i + 1]), NodeInput(b[i], b[i + 1]);
        NodeTellsChildren(a[i], a[i + 1], b[i], b[i + 1]);
      }
    }
  }

  // Logs of one size with one root are equal, or two messages collide.
  lemma {:induction false} RootTellsLevels(a: seq<Text>, b: seq<Text>) returns (x: seq<byte>, y: seq<byte>)
    requires |a| == |b| && a != [] && AllDigests(a) && AllDigests(b) && Root(a) == Root(b)
    ensures a == b || Collide(x, y)
    decreases |a|
  {
    hide Above, IsHexDigest, Collide;
    x, y := [], [];
    if |a| == 1 {
      assert a == [a[0]] && b == [b[0]];
    } else {
      AboveIsDigests(a);
      AboveIsDigests(b);
      x, y := RootTellsLevels(Above(a), Above(b));
      if Above(a) == Above(b) {
        x, y := AboveTellsLevels(a, b);
      }
    }
  }

  // The first index nodes of two levels agree.
  ghost predicate Agree(a: seq<Text>, b: seq<Text>, index: nat)
    requires index <= |a| && index <= |b|
  {
    a[..index] == b[..index]
  }

  lemma AgreeBelow(a: seq<Text>, b: seq<Text>, half: nat) returns (x: seq<byte>, y: seq<byte>)
    requires 2 * half <= |a| && 2 * half <= |b| && AllDigests(a) && AllDigests(b)
    requires Agree(Above(a), Above(b), half)
    ensures Agree(a, b, 2 * half) || Collide(x, y)
  {
    hide Above, IsHexDigest, Collide;
    AboveOfParts(a, half);
    AboveOfParts(b, half);
    x, y := AboveTellsLevels(a[..2 * half], b[..2 * half]);
  }

  // What a climb that reaches both roots shows of the old and the new level it started from.
  ghost predicate Shown(older: seq<Text>, newer: seq<Text>, first: Text, second: Text, proof: seq<Text>)
    requires 0 < |older| <= |newer|
  {
    var fn := |older| - 1;
    && first == older[fn] && second == newer[fn] && Agree(older, newer, fn) && proof == Path(newer, fn)
  }

  lemma ClimbEnds(older: seq<Text>, newer: seq<Text>, first: Text, second: Text, proof: seq<Text>)
    requires |older| == |newer| == 1
    requires Climb(0, 0, first, second, proof) == Some((Root(older), Root(newer)))
    ensures Shown(older, newer, first, second, proof)
  {
    RootOfOne(older);
    RootOfOne(newer);
    PathOfOne(newer);
    hide Node, Root, Path;
  }

  lemma {:induction false} ClimbIsSound(
      older: seq<Text>, newer: seq<Text>, first: Text, second: Text, proof: seq<Text>)
    returns (x: seq<byte>, y: seq<byte>)
    requires 0 < |older| <= |newer| && AllDigests(older) && AllDigests(newer) && AllDigests(proof)
    requires IsHexDigest(first) && IsHexDigest(second)
    requires Climb(|older| - 1, |newer| - 1, first, second, proof) == Some((Root(older), Root(newer)))
    ensures Shown(older, newer, first, second, proof) || Collide(x, y)
    decreases |newer|
  {
    hide Node, Above, Root, Path, IsHexDigest, Collide, Shown, Climb;
    var fn, sn := |older| - 1, |newer| - 1;
    x, y := [], [];
    if sn == 0 {
      ClimbEnds(older, newer, first, second, proof);
    } else {
      AboveIsDigests(older);
      AboveIsDigests(newer);
      RootOfAbove(older);
      RootOfAbove(newer);
      if fn % 2 == 0 && fn == sn {
        ClimbSkips(fn, first, second, proof);
        x, y := ClimbIsSound(Above(older), Above(newer), first, second, proof);
        if Shown(Above(older), Above(newer), first, second, proof) {
          x, y := EdgeStep(older, newer, first, second, proof);
        }
      } else if fn % 2 == 1 {
        ClimbLeft(fn, sn, first, second, proof);
        var hash := proof[0];
        NodeIsDigest(hash, first);
        NodeIsDigest(hash, second);
        x, y := ClimbIsSound(Above(older), Above(newer), Node(hash, first), Node(hash, second), proof[1..]);
        if Shown(Above(older), Above(newer), Node(hash, first), Node(hash, second), proof[1..]) {
          x, y := LeftStep(older, newer, first, second, proof);
        }
      } else {
        ClimbRight(fn, sn, first, second, proof);
        var hash := proof[0];
        NodeIsDigest(second, hash);
        x, y := ClimbIsSound(Above(older), Above(newer), first, Node(second, hash), proof[1..]);
        if Shown(Above(older), Above(newer), first, Node(second, hash), proof[1..]) {
          x, y := RightStep(older, newer, first, second, proof);
        }
      }
    }
  }

  lemma EdgeStep(older: seq<Text>, newer: seq<Text>, first: Text, second: Text, proof: seq<Text>)
    returns (x: seq<byte>, y: seq<byte>)
    requires |older| == |newer| > 1 && |older| % 2 == 1 && AllDigests(older) && AllDigests(newer)
    requires Shown(Above(older), Above(newer), first, second, proof)
    ensures Shown(older, newer, first, second, proof) || Collide(x, y)
  {
    hide Node, Above, Path, IsHexDigest, Collide;
    var fn := |older| - 1;
    AboveAt(older, fn);
    AboveAt(newer, fn);
    PathAbove(newer, fn);
    assert Sibling(newer, fn) == [];
    x, y := AgreeBelow(older, newer, fn / 2);
  }

  lemma LeftStep(older: seq<Text>, newer: seq<Text>, first: Text, second: Text, proof: seq<Text>)
    returns (x: seq<byte>, y: seq<byte>)
    requires 1 < |older| <= |newer| && |older| % 2 == 0 && AllDigests(older) && AllDigests(newer)
    requires proof != [] && AllDigests(proof) && IsHexDigest(first) && IsHexDigest(second)
    requires Shown(Above(older), Above(newer), Node(proof[0], first), Node(proof[0], second), proof[1..])
    ensures Shown(older, newer, first, second, proof) || Collide(x, y)
  {
    hide Node, Above, Path, IsHexDigest, Collide;
    var fn, hash := |older| - 1, proof[0];
    AboveAt(older, fn);
    AboveAt(newer, fn);
    PathAbove(newer, fn);
    x, y := OneNode(true, hash, first, older[fn - 1], older[fn]);
    if hash == older[fn - 1] && first == older[fn] {
      x, y := OneNode(true, hash, second, newer[fn - 1], newer[fn]);
      if hash == newer[fn - 1] && second == newer[fn] {
        x, y := AgreeBelow(older, newer, fn / 2);
        if Agree(older, newer, fn - 1) {
          assert older[..fn] == older[..fn - 1] + [hash] && newer[..fn] == newer[..fn - 1] + [hash];
          assert proof == [hash] + proof[1..];
        }
      }
    }
  }

  lemma RightStep(older: seq<Text>, newer: seq<Text>, first: Text, second: Text, proof: seq<Text>)
    returns (x: seq<byte>, y: seq<byte>)
    requires 0 < |older| < |newer| && |older| % 2 == 1 && AllDigests(older) && AllDigests(newer)
    requires proof != [] && AllDigests(proof) && IsHexDigest(first) && IsHexDigest(second)
    requires Shown(Above(older), Above(newer), first, Node(second, proof[0]), proof[1..])
    ensures Shown(older, newer, first, second, proof) || Collide(x, y)
  {
    hide Node, Above, Path, IsHexDigest, Collide;
    var fn, hash := |older| - 1, proof[0];
    AboveAt(older, fn);
    AboveAt(newer, fn);
    PathAbove(newer, fn);
    x, y := OneNode(true, second, hash, newer[fn], newer[fn + 1]);
    if second == newer[fn] && hash == newer[fn + 1] {
      x, y := AgreeBelow(older, newer, fn / 2);
      assert proof == [hash] + proof[1..];
    }
  }

  lemma OddStartIsSound(older: seq<Text>, newer: seq<Text>, proof: seq<Text>)
    returns (x: seq<byte>, y: seq<byte>)
    requires 0 < |older| < |newer| && |older| % 2 == 1
    requires AllDigests(older) && AllDigests(newer) && AllDigests(proof)
    requires Start(|older| - 1, |newer| - 1, Root(older), proof) == Some((Root(older), Root(newer)))
    ensures (older == newer[..|older|] && proof == Bridge(newer, |older|, true)) || Collide(x, y)
  {
    hide Node, Above, Root, Path, Bridge, Climb, IsHexDigest, Collide;
    var fn := |older| - 1;
    BridgeOfOdd(newer, |older|, true);
    assert older == older[..fn] + [older[fn]] && newer[..|older|] == newer[..fn] + [newer[fn]];
    var first, rest := if fn == 0 then older[0] else proof[0], if fn == 0 then proof else proof[1..];
    RootIsDigest(older);
    if fn == 0 {
      RootOfOne(older);
    }
    assert Climb(fn, |newer| - 1, first, first, rest) == Some((Root(older), Root(newer)));
    hide Start;
    x, y := ClimbIsSound(older, newer, first, first, rest);
    assert proof == (if fn == 0 then [] else [first]) + rest;
  }

  lemma {:induction false} StartIsSound(older: seq<Text>, newer: seq<Text>, proof: seq<Text>)
    returns (x: seq<byte>, y: seq<byte>)
    requires 0 < |older| < |newer| && AllDigests(older) && AllDigests(newer) && AllDigests(proof)
    requires Start(|older| - 1, |newer| - 1, Root(older), proof) == Some((Root(older), Root(newer)))
    ensures (older == newer[..|older|] && proof == Bridge(newer, |older|, true)) || Collide(x, y)
    decreases |newer|
  {
    hide Node, Above, Root, Path, Bridge, Climb, IsHexDigest, Collide;
    if |older| % 2 == 1 {
      x, y := OddStartIsSound(older, newer, proof);
    } else {
      var half := |older| / 2;
      AboveIsDigests(older);
      AboveIsDigests(newer);
      RootOfAbove(older);
      RootOfAbove(newer);
      BridgeOfEven(newer, |older|, true);
      hide AllDigests;
      x, y := StartIsSound(Above(older), Above(newer), proof);
      if Above(older) == Above(newer)[..half] && proof == Bridge(newer, |older|, true) {
        AboveOfParts(newer, half);
        assert 2 * half == |older|;
        x, y := PrefixStep(older, newer);
      }
    }
  }

  lemma PrefixStep(older: seq<Text>, newer: seq<Text>) returns (x: seq<byte>, y: seq<byte>)
    requires |older| <= |newer| && AllDigests(older) && AllDigests(newer)
    requires Above(older) == Above(newer[..|older|])
    ensures older == newer[..|older|] || Collide(x, y)
  {
    hide Above, IsHexDigest, Collide;
    x, y := AboveTellsLevels(older, newer[..|older|]);
  }

  // An accepted consistency proof between the roots of two logs shows that the old log is a prefix of the new
  // one, and is the generated proof, or it shows two messages with one digest.
  lemma ConsistencyIsPrefix(older: seq<Text>, newer: seq<Text>, proof: seq<Text>)
    returns (x: seq<byte>, y: seq<byte>)
    requires AllDigests(older) && AllDigests(newer)
    requires Consistent(|older|, |newer|, MerkleRoot(older), MerkleRoot(newer), proof)
    ensures (older == newer[..|older|] && proof == ConsistencyProof(newer, |older|)) || Collide(x, y)
  {
    hide Path, Root, Bridge, Start, MerkleRoot, ConsistencyProof, Collide, IsHexDigest;
    GeneratedFromLevels(older, 0, 0);
    GeneratedFromLevels(newer, 0, |older|);
    if |older| == |newer| {
      BridgeOfAll(newer, true);
      x, y := RootTellsLevels(older, newer);
      assert newer[..|older|] == newer;
    } else {
      x, y := StartIsSound(older, newer, proof);
    }
  }
}
