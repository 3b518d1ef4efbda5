// Stores that hand out dense 32-bit ids. The block store interns blocks of trivially copyable elements by comparing
// their bytes inside a hash bucket; the canonical value store interns values through a map. Both are proved against
// one abstract store, in which hashes do not occur.
module Interning {
  import opened Prelude
  import Words

  // ----- The abstract store -----

  datatype Store<!V> = Store(values: seq<V>, interned: map<V, nat>)

  datatype Request<V> = Plain(value: V) | Canonical(value: V)

  function Apply<V(==)>(s: Store<V>, r: Request<V>): (Store<V>, nat) {
    match r
    case Plain(v) => (s.(values := s.values + [v]), |s.values|)
    case Canonical(v) =>
      if v in s.interned then (s, s.interned[v])
      else (Store(s.values + [v], s.interned[v := |s.values|]), |s.values|)
  }

  function Replay<V(==)>(s: Store<V>, requests: seq<Request<V>>): (r: (Store<V>, seq<nat>))
    ensures |r.1| == |requests|
    decreases |requests|
  {
    if requests == [] then (s, [])
    else
      var (next, id) := Apply(s, requests[0]);
      var (end, ids) := Replay(next, requests[1..]);
      (end, [id] + ids)
  }

  ghost predicate Consistent<V(!new)>(s: Store<V>) {
    forall v :: v in s.interned ==> s.interned[v] < |s.values| && s.values[s.interned[v]] == v
  }

  // What a request leaves behind: earlier values and interned ids stay, and its own id holds its value.
  lemma ApplyKeeps<V(!new)>(s: Store<V>, r: Request<V>)
    requires Consistent(s)
    ensures var (next, id) := Apply(s, r);
      && Consistent(next)
      && s.values <= next.values && |next.values| <= |s.values| + 1
      && (forall v :: v in s.interned ==> v in next.interned && next.interned[v] == s.interned[v])
      && id < |next.values| && next.values[id] == r.value
      && (r.Canonical? ==> r.value in next.interned && next.interned[r.value] == id)
  {
  }

  lemma {:induction false} ReplayKeeps<V(!new)>(s: Store<V>, requests: seq<Request<V>>)
    requires Consistent(s)
    ensures var (end, ids) := Replay(s, requests);
      && Consistent(end) && s.values <= end.values
      && (forall v :: v in s.interned ==> v in end.interned && end.interned[v] == s.interned[v])
      && forall i :: 0 <= i < |requests| ==>
        && ids[i] < |end.values| && end.values[ids[i]] == requests[i].value
        && (requests[i].Canonical? ==>
          requests[i].value in end.interned && end.interned[requests[i].value] == ids[i])
    decreases |requests|
  {
    hide Apply, Consistent;
    if requests != [] {
      var (next, id) := Apply(s, requests[0]);
      ApplyKeeps(s, requests[0]);
      ReplayKeeps(next, requests[1..]);
      var (end, ids) := Replay(s, requests);
      forall i | 0 <= i < |requests|
        ensures ids[i] < |end.values| && end.values[ids[i]] == requests[i].value
        ensures requests[i].Canonical? ==>
          requests[i].value in end.interned && end.interned[requests[i].value] == ids[i]
      {
        if i > 0 {
          assert requests[i] == requests[1..][i - 1];
        }
      }
    }
  }

  // After any history two canonical requests got the same id if and only if their values are equal.
  lemma CanonicalIdsAreEqualIffValuesAre<V(!new)>(requests: seq<Request<V>>, i: nat, j: nat)
    requires i < |requests| && requests[i].Canonical? && j < |requests| && requests[j].Canonical?
    ensures var (end, ids) := Replay(Store([], map[]), requests);
      ids[i] == ids[j] <==> requests[i].value == requests[j].value
  {
    assert Consistent<V>(Store([], map[]));
    ReplayKeeps(Store([], map[]), requests);
  }

  // Every id of a history still holds the value it was handed out for.
  lemma EarlierIdsKeepTheirContents<V(!new)>(requests: seq<Request<V>>, i: nat)
    requires i < |requests|
    ensures var (end, ids) := Replay(Store([], map[]), requests);
      ids[i] < |end.values| && end.values[ids[i]] == requests[i].value
  {
    assert Consistent<V>(Store([], map[]));
    ReplayKeeps(Store([], map[]), requests);
  }

  // Ids below the size of the store that are not interned ids are handed out to nobody else.
  lemma {:induction false} PlainIdStaysFree<V(!new)>(s: Store<V>, requests: seq<Request<V>>, id: nat)
    requires Consistent(s) && id < |s.values| && forall v :: v in s.interned ==> s.interned[v] != id
    ensures forall k :: 0 <= k < |requests| ==> Replay(s, requests).1[k] != id
    decreases |requests|
  {
    if requests != [] {
      var (next, first) := Apply(s, requests[0]);
      assert first != id && id < |next.values|;
      assert forall v :: v in next.interned ==> next.interned[v] != id;
      ApplyKeeps(s, requests[0]);
      PlainIdStaysFree(next, requests[1..], id);
    }
  }

  // The id of a plain request is shared with no other request of the history.
  lemma {:induction false} PlainIdsAreTheirOwn<V(!new)>(s: Store<V>, requests: seq<Request<V>>, i: nat, j: nat)
    requires Consistent(s) && i < |requests| && j < |requests| && i != j && requests[i].Plain?
    ensures Replay(s, requests).1[i] != Replay(s, requests).1[j]
    decreases |requests|
  {
    var (next, id) := Apply(s, requests[0]);
    ApplyKeeps(s, requests[0]);
    if i == 0 {
      PlainIdStaysFree(next, requests[1..], id);
    } else if j == 0 {
      hide Apply, Consistent;
      NewIdsAreLater(next, requests[1..], i - 1);
    } else {
      hide Apply, Consistent;
      PlainIdsAreTheirOwn(next, requests[1..], i - 1, j - 1);
    }
  }

  lemma {:induction false} NewIdsAreLater<V(!new)>(s: Store<V>, requests: seq<Request<V>>, i: nat)
    requires Consistent(s) && i < |requests| && requests[i].Plain?
    ensures Replay(s, requests).1[i] >= |s.values|
    decreases |requests|
  {
    var (next, id) := Apply(s, requests[0]);
    ApplyKeeps(s, requests[0]);
    if i > 0 {
      hide Apply, Consistent;
      NewIdsAreLater(next, requests[1..], i - 1);
    }
  }

  // Ids are dense: every index below the size of the store was handed out by some request.
  lemma {:induction false} IdsAreDense<V(!new)>(s: Store<V>, requests: seq<Request<V>>, id: nat)
    requires |s.values| <= id < |Replay(s, requests).0.values|
    ensures exists k :: 0 <= k < |requests| && Replay(s, requests).1[k] == id
    decreases |requests|
  {
    if requests != [] {
      var (next, first) := Apply(s, requests[0]);
      var (end, ids) := Replay(s, requests);
      assert ids[0] == first;
      if id >= |next.values| {
        IdsAreDense(next, requests[1..], id);
        var k :| 0 <= k < |requests| - 1 && Replay(next, requests[1..]).1[k] == id;
        assert ids[k + 1] == id;
      }
    }
  }

  // ----- The canonical value store -----

  class CanonicalValueStore<V(==, !new)> {
    var values: seq<V>
    var lookup: map<V, nat>

    ghost predicate Valid()
      reads this
    {
      && |values| <= INVALID_INDEX
      && Consistent(View())
      && forall i :: 0 <= i < |values| ==> values[i] in lookup && lookup[values[i]] == i
    }

    function View(): Store<V>
      reads this
    {
      Store(values, lookup)
    }

    constructor ()
      ensures Valid() && View() == Store([], map[])
    {
      values, lookup := [], map[];
    }

    method Add(value: V) returns (id: nat)
      requires Valid() && (value in lookup || |values| < INVALID_INDEX)
      modifies this
      ensures Valid() && (View(), id) == Apply(old(View()), Canonical(value))
      ensures id < INVALID_INDEX
    {
      if value in lookup {
        return lookup[value];
      }
      id := |values|;
      values := values + [value];
      lookup := lookup[value := id];
    }

    method Get(id: nat) returns (value: V)
      requires Valid() && id < |values|
      ensures value == values[id] && lookup[value] == id
    {
      value := values[id];
    }
  }

  // ----- The block store -----

  // A trivially copyable element is the bytes of its representation, a block a list of elements that
  // all have the same width.
  type Element = seq<byte>
  type Block = seq<Element>

  predicate HasWidth(b: Block, width: nat) { forall i :: 0 <= i < |b| ==> |b[i]| == width }

  function Flat(b: Block): seq<byte> { if b == [] then [] else b[0] + Flat(b[1..]) }

  // Comparing sizes and then bytes compares the elements.
  lemma {:induction false} BytesDetermineBlocks(a: Block, b: Block, width: nat)
    requires HasWidth(a, width) && HasWidth(b, width)
    ensures |a| == |b| && Flat(a) == Flat(b) <==> a == b
  {
    if a != [] && b != [] {
      BytesDetermineBlocks(a[1..], b[1..], width);
      if |a| == |b| && Flat(a) == Flat(b) {
        assert Flat(a)[..width] == a[0] && Flat(b)[..width] == b[0];
        assert Flat(a)[width..] == Flat(a[1..]) && Flat(b)[width..] == Flat(b[1..]);
        assert a == [a[0]] + a[1..] && b == [b[0]] + b[1..];
      }
    }
  }

  // FNV-1a's offset and prime on a word of 64 or of 32 bits.
  const OFFSET64: nat := 1469598103934665603
  const PRIME64: nat := 1099511628211
  const OFFSET32: nat := 2166136261
  const PRIME32: nat := 16777619

  function Limit(wide: bool): nat { if wide then WORD64 else WORD32 }

  // hash ^= byte; hash *= prime; on a word of either size.
  function HashStep(hash: nat, b: byte, wide: bool): (r: nat)
    requires hash < Limit(wide)
    ensures r < Limit(wide)
  {
    var high, low: Words.Word := hash / WORD32, hash % WORD32;
    var mixed := high * WORD32 + Words.Xor(low, b);
    if wide then mixed * PRIME64 % WORD64 else mixed * PRIME32 % WORD32
  }

  lemma {:induction false} XorWithZero(x: nat, n: nat)
    requires x < Words.Pow2(n)
    ensures Words.OnBits(Words.BitXor, x, 0, n) == x
  {
    if n > 0 {
      XorWithZero(x / 2, n - 1);
    }
  }

  lemma {:induction false} XorOfLowBits(high: nat, low: nat, y: nat, k: nat, m: nat)
    requires low < Words.Pow2(k) && y < Words.Pow2(k) && high < Words.Pow2(m)
    ensures Words.OnBits(Words.BitXor, high * Words.Pow2(k) + low, y, k + m)
         == high * Words.Pow2(k) + Words.OnBits(Words.BitXor, low, y, k)
  {
    if k == 0 {
      XorWithZero(high, m);
    } else {
      var rest := high * Words.Pow2(k - 1);
      assert high * Words.Pow2(k) == 2 * rest;
      XorOfLowBits(high, low / 2, y / 2, k - 1, m);
      assert (2 * rest + low) / 2 == rest + low / 2 && (2 * rest + low) % 2 == low % 2;
    }
  }

  lemma XorOfLowWord(high: Words.Word, low: Words.Word, b: byte)
    ensures Words.OnBits(Words.BitXor, high * WORD32 + low, b, 64) == high * WORD32 + Words.Xor(low, b)
  {
    hide Words.OnBits;
    Words.Pow2Values();
    hide Words.Pow2;
    XorOfLowBits(high, low, b, 32, 32);
  }

  lemma MixedIsXor(hash: nat, b: byte)
    requires hash < WORD64
    ensures hash / WORD32 < WORD32
    ensures hash / WORD32 * WORD32 + Words.Xor(hash % WORD32, b) == Words.OnBits(Words.BitXor, hash, b, 64)
    ensures hash < WORD32 ==> Words.Xor(hash, b) == Words.OnBits(Words.BitXor, hash, b, 32)
  {
    hide Words.OnBits, Words.Pow2;
    var high, low := hash / WORD32, hash % WORD32;
    assert hash == high * WORD32 + low && high < WORD32;
    XorOfLowWord(high, low, b);
  }

  // One step of FNV-1a: the exclusive or of the whole word with the byte, times the prime.
  lemma HashStepIsFnv(hash: nat, b: byte, wide: bool)
    requires hash < Limit(wide)
    ensures HashStep(hash, b, wide) ==
      if wide then Words.OnBits(Words.BitXor, hash, b, 64) * 1099511628211 % WORD64
      else Words.OnBits(Words.BitXor, hash, b, 32) * 16777619 % WORD32
  {
    hide Words.OnBits, Words.Xor;
    MixedIsXor(hash, b);
    if !wide {
      assert hash / WORD32 == 0 && hash % WORD32 == hash;
    }
  }

  function HashFrom(hash: nat, bytes: seq<byte>, wide: bool): (r: nat)
    requires hash < Limit(wide)
    ensures r < Limit(wide)
    decreases |bytes|
  {
    if bytes == [] then hash else HashFrom(HashStep(hash, bytes[0], wide), bytes[1..], wide)
  }

  // The hash takes in one byte after the other.
  lemma {:induction false} HashAppend(hash: nat, bytes: seq<byte>, b: byte, wide: bool)
    requires hash < Limit(wide)
    ensures HashFrom(hash, [], wide) == hash
    ensures HashFrom(hash, bytes + [b], wide) == HashStep(HashFrom(hash, bytes, wide), b, wide)
    decreases |bytes|
  {
    hide HashStep;
    if bytes == [] {
      assert [] + [b] == [b] && [b][1..] == [];
    } else {
      HashAppend(HashStep(hash, bytes[0], wide), bytes[1..], b, wide);
      assert (bytes + [b])[1..] == bytes[1..] + [b];
    }
  }

  function Hash(b: Block, wide: bool): nat { HashFrom(if wide then OFFSET64 else OFFSET32, Flat(b), wide) }

  // `wide` says that std::size_t has eight bytes.
  method HashBlock(b: Block, wide: bool) returns (hash: nat)
    ensures hash == Hash(b, wide)
  {
    hide HashStep;
    var bytes := Flat(b);
    hash := if wide then OFFSET64 else OFFSET32;
    for index := 0 to |bytes|
      invariant hash < Limit(wide)
      invariant HashFrom(hash, bytes[index..], wide) == Hash(b, wide)
    {
      assert bytes[index..][1..] == bytes[index + 1..];
      hash := HashStep(hash, bytes[index], wide);
    }
  }

  // The buckets hold exactly the interned ids, each in the bucket of its contents' hash.
  ghost predicate Bucketed(buckets: map<nat, seq<nat>>, s: Store<Block>, wide: bool) {
    && (forall h, id :: Lists(buckets, h, id) ==> Hash(Contents(s, id), wide) == h && Interned(s, id))
    && (forall b :: b in s.interned ==> Lists(buckets, Hash(b, wide), s.interned[b]))
  }

  predicate Lists(buckets: map<nat, seq<nat>>, h: nat, id: nat) { h in buckets && id in buckets[h] }

  function Contents(s: Store<Block>, id: nat): Block { if id < |s.values| then s.values[id] else [] }

  predicate Interned(s: Store<Block>, id: nat) {
    id < |s.values| && s.values[id] in s.interned && s.interned[s.values[id]] == id
  }

  lemma PlainKeepsBuckets(buckets: map<nat, seq<nat>>, s: Store<Block>, values: Block, wide: bool)
    requires Bucketed(buckets, s, wide)
    ensures Bucketed(buckets, Apply(s, Plain(values)).0, wide)
  {
    hide Hash, Lists;
  }

  lemma OthersStayInterned(s: Store<Block>, values: Block, id: nat)
    requires Interned(s, id) && values !in s.interned
    ensures var s' := Apply(s, Canonical(values)).0;
      Contents(s', id) == Contents(s, id) && Interned(s', id)
  {
  }

  lemma BucketNext(buckets: map<nat, seq<nat>>, s: Store<Block>, values: Block, wide: bool)
    requires Bucketed(buckets, s, wide) && values !in s.interned
    ensures var h := Hash(values, wide);
      var bucket := if h in buckets then buckets[h] else [];
      Bucketed(buckets[h := bucket + [|s.values|]], Apply(s, Canonical(values)).0, wide)
  {
    hide Hash;
    var hash, n := Hash(values, wide), |s.values|;
    var bucket := if hash in buckets then buckets[hash] else [];
    var more, s' := buckets[hash := bucket + [n]], Apply(s, Canonical(values)).0;
    assert Contents(s', n) == values && Interned(s', n);
    forall h, id
      ensures Lists(more, h, id) <==> Lists(buckets, h, id) || (h == hash && id == n)
    {
      assert id in bucket + [n] <==> id in bucket || id == n;
    }
    assert forall b :: b in s'.interned <==> b in s.interned || b == values;
    hide Lists, Interned, Contents;
    forall h, id | Lists(buckets, h, id)
      ensures Hash(Contents(s', id), wide) == h && Interned(s', id)
    {
      OthersStayInterned(s, values, id);
    }
  }

  class BlockStore {
    const width: nat
    const wide: bool
    var blocks: seq<Block>
    // The multimap from hashes to ids, bucket by bucket.
    var buckets: map<nat, seq<nat>>
    ghost var interned: map<Block, nat>

    ghost predicate Valid()
      reads this
    {
      && |blocks| <= INVALID_INDEX
      && Consistent(View())
      && (forall i :: 0 <= i < |blocks| ==> HasWidth(blocks[i], width))
      && Bucketed(buckets, View(), wide)
    }

    ghost function View(): Store<Block>
      reads this
    {
      Store(blocks, interned)
    }

    constructor (width: nat, wide: bool)
      ensures Valid() && View() == Store([], map[]) && this.width == width && this.wide == wide
    {
      this.width, this.wide := width, wide;
      blocks, buckets, interned := [], map[], map[];
    }

    method Add(values: Block) returns (id: nat)
      requires Valid() && HasWidth(values, width) && |blocks| < INVALID_INDEX
      modifies this`blocks
      ensures Valid() && (View(), id) == Apply(old(View()), Plain(values))
      ensures id < INVALID_INDEX
    {
      hide HasWidth, Bucketed;
      PlainKeepsBuckets(buckets, View(), values, wide);
      id := |blocks|;
      blocks := blocks + [values];
    }

    function Bucket(h: nat): seq<nat>
      reads this
    {
      if h in buckets then buckets[h] else []
    }

    lemma BucketEntry(h: nat, k: nat)
      requires Valid() && k < |Bucket(h)|
      ensures var id := Bucket(h)[k];
        id < |blocks| && HasWidth(blocks[id], width) && blocks[id] in interned && interned[blocks[id]] == id
    {
      hide Hash, HasWidth;
      assert Lists(buckets, h, Bucket(h)[k]);
    }

    lemma InternedIsInBucket(values: Block)
      requires Valid() && values in interned
      ensures interned[values] < |blocks| && blocks[interned[values]] == values
      ensures interned[values] in Bucket(Hash(values, wide))
    {
      hide Hash, HasWidth;
      assert Lists(buckets, Hash(values, wide), interned[values]);
    }

    // The loop over the bucket of a hash finds the interned id of these contents, if they have one.
    method FindInBucket(values: Block, hash: nat) returns (found: Option<nat>)
      requires Valid() && HasWidth(values, width) && hash == Hash(values, wide)
      ensures found == if values in interned then Some(interned[values]) else None
    {
      hide Hash, HasWidth, Bucketed, Consistent;
      var bucket := Bucket(hash);
      for current := 0 to |bucket|
        invariant forall k :: 0 <= k < current ==> bucket[k] < |blocks| && blocks[bucket[k]] != values
      {
        BucketEntry(hash, current);
        var existing := blocks[bucket[current]];
        BytesDetermineBlocks(existing, values, width);
        if |existing| == |values| && (|values| == 0 || Flat(existing) == Flat(values)) {
          return Some(bucket[current]);
        }
      }
      if values in interned {
        InternedIsInBucket(values);
      }
      return None;
    }

    method AddCanonical(values: Block) returns (id: nat)
      requires Valid() && HasWidth(values, width) && (values in interned || |blocks| < INVALID_INDEX)
      modifies this
      ensures Valid() && (View(), id) == Apply(old(View()), Canonical(values))
      ensures id < INVALID_INDEX
    {
      hide HasWidth, Hash, Bucketed;
      var hash := HashBlock(values, wide);
      var found := FindInBucket(values, hash);
      if found.Some? {
        return found.value;
      }
      BucketNext(buckets, View(), values, wide);
      var bucket := Bucket(hash);
      id := Add(values);
      buckets := buckets[hash := bucket + [id]];
      interned := interned[values := id];
    }

    method Get(id: nat) returns (values: Block)
      requires Valid() && id < |blocks|
      ensures values == View().values[id]
    {
      values := blocks[id];
    }
  }
}
