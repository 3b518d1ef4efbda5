/**
  The buffered hasher of lib/Support/Digest.cpp: it fills a 64-byte block, folds every full block into
  eight words, and pads what is left at the end. `message` is everything it was given so far.

  The loops are proved against the functions of FIPS 180-4: ExpandBlock against the message schedule,
  RunRounds and Transform against the compression function, HashTail against the padded message.
*/
module Sha256 {
  import opened Prelude
  import opened Sha256Spec
  import opened Words
  import Hex

  // The value of an unsigned 32-bit word as eight lower-case hexadecimal digits.
  function HexWord(w: Word): seq<byte> {
    [Hex.HexDigit(w / 0x1000_0000), Hex.HexDigit(w / 0x100_0000 % 16),
     Hex.HexDigit(w / 0x10_0000 % 16), Hex.HexDigit(w / 0x1_0000 % 16),
     Hex.HexDigit(w / 0x1000 % 16), Hex.HexDigit(w / 0x100 % 16),
     Hex.HexDigit(w / 0x10 % 16), Hex.HexDigit(w % 16)]
  }

  lemma HexOfFour(a: byte, b: byte, c: byte, d: byte)
    ensures Hex.Hex([a, b, c, d]) == Hex.HexByte(a) + Hex.HexByte(b) + Hex.HexByte(c) + Hex.HexByte(d)
  {
    assert [a, b, c, d] == [a, b] + [c, d];
    Hex.HexConcat([a, b], [c, d]);
    assert [a, b] == [a] + [b] && [c, d] == [c] + [d];
    Hex.HexConcat([a], [b]);
    Hex.HexConcat([c], [d]);
    assert Hex.Hex([a]) == Hex.HexByte(a) && Hex.Hex([b]) == Hex.HexByte(b);
    assert Hex.Hex([c]) == Hex.HexByte(c) && Hex.Hex([d]) == Hex.HexByte(d);
  }

  lemma TwoDigits(x: nat)
    ensures HexPair(x) == Hex.HexByte(x % 256)
  {
    assert x % 256 / 16 == x / 16 % 16 && x % 256 % 16 == x % 16;
  }

  function HexPair(x: nat): seq<byte> { [Hex.HexDigit(x / 16 % 16), Hex.HexDigit(x % 16)] }

  lemma HexWordPairs(w: Word)
    ensures HexWord(w) == HexPair(w / 0x100_0000) + HexPair(w / 0x1_0000) + HexPair(w / 0x100) + HexPair(w)
  {
    hide Hex.HexDigit;
    assert w / 0x100_0000 / 16 == w / 0x1000_0000 && w / 0x1000_0000 % 16 == w / 0x1000_0000;
    assert w / 0x1_0000 / 16 == w / 0x10_0000;
    assert w / 0x100 / 16 == w / 0x1000;
  }

  lemma HexWordIsHex(w: Word)
    ensures HexWord(w) == Hex.Hex(WordBytes(w))
  {
    hide HexWord, HexPair, Hex.HexByte, Hex.Hex;
    HexWordPairs(w);
    TwoDigits(w / 0x100_0000);
    TwoDigits(w / 0x1_0000);
    TwoDigits(w / 0x100);
    TwoDigits(w);
    assert w / 0x100_0000 % 256 == w / 0x100_0000;
    HexOfFour(w / 0x100_0000, w / 0x1_0000 % 0x100, w / 0x100 % 0x100, w % 0x100);
  }

  class Hasher {
    const state: array<Word>
    const block: array<byte>
    var blockSize: nat
    var totalBytes: nat
    ghost var message: seq<byte>

    // The words summarise the whole blocks of `fed`, the block holds the rest of it.
    ghost predicate Absorbed(fed: seq<byte>)
      reads this`blockSize, state, block
    {
      && state.Length == 8 && block.Length == 64 && state as object != block
      && blockSize == |fed| % 64
      && block[..blockSize] == fed[|fed| - blockSize..]
      && state[..] == HashBlocks(fed[..|fed| - blockSize])
    }

    ghost predicate Valid()
      reads this, state, block
    {
      Absorbed(message) && totalBytes == |message| % WORD64
    }

    constructor ()
      ensures Valid() && message == []
      ensures fresh(state) && fresh(block)
    {
      state := new Word[8] [
        0x6a09e667, 0xbb67ae85, 0x3c6ef372, 0xa54ff53a, 0x510e527f, 0x9b05688c, 0x1f83d9ab, 0x5be0cd19];
      block := new byte[64](_ => 0);
      blockSize, totalBytes, message := 0, 0, [];
      new;
      assert state[..] == H0;
    }

    method ExpandBlock() returns (words: array<Word>)
      requires block.Length == 64
      ensures fresh(words) && words.Length == 64
      ensures forall t :: 0 <= t < 64 ==> words[t] == Schedule(block[..], t)
    {
      hide Schedule, BigEndianWord, Add, Or, Shl, Xor, RotateRight, Shr;
      words := new Word[64](_ => 0);
      for index := 0 to 16
        invariant forall t :: 0 <= t < index ==> words[t] == Schedule(block[..], t)
      {
        var offset := index * 4;
        ScheduleStart(block[..], index);
        OrIsBigEndian(block[offset], block[offset + 1], block[offset + 2], block[offset + 3]);
        words[index] := Or(Or(Or(Shl(block[offset], 24), Shl(block[offset + 1], 16)),
                              Shl(block[offset + 2], 8)), block[offset + 3]);
      }
      for index := 16 to 64
        invariant forall t :: 0 <= t < index ==> words[t] == Schedule(block[..], t)
      {
        ScheduleStep(block[..], index);
        var s0 := Xor(Xor(RotateRight(words[index - 15], 7), RotateRight(words[index - 15], 18)),
                      Shr(words[index - 15], 3));
        var s1 := Xor(Xor(RotateRight(words[index - 2], 17), RotateRight(words[index - 2], 19)),
                      Shr(words[index - 2], 10));
        ScheduleSum(words[index - 16], s0, words[index - 7], s1);
        words[index] := Add(Add(Add(words[index - 16], s0), words[index - 7]), s1);
      }
    }

    method RunRounds(words: array<Word>) returns (v: Working)
      requires state.Length == 8 && block.Length == 64 && words.Length == 64
      requires forall t :: 0 <= t < 64 ==> words[t] == Schedule(block[..], t)
      ensures v == Rounds(state[..], block[..], 64)
    {
      hide Add, Xor, And, Not, RotateRight;
      var a, b, c, d := state[0], state[1], state[2], state[3];
      var e, f, g, h := state[4], state[5], state[6], state[7];
      for index := 0 to 64
        invariant Working(a, b, c, d, e, f, g, h) == Rounds(state[..], block[..], index)
      {
        var sum1 := Xor(Xor(RotateRight(e, 6), RotateRight(e, 11)), RotateRight(e, 25));
        var choice := Xor(And(e, f), And(Not(e), g));
        var temp1 := Add(Add(Add(Add(h, sum1), choice), K(index)), words[index]);
        var sum0 := Xor(Xor(RotateRight(a, 2), RotateRight(a, 13)), RotateRight(a, 22));
        var majority := Xor(Xor(And(a, b), And(a, c)), And(b, c));
        var temp2 := Add(sum0, majority);
        h := g;
        g := f;
        f := e;
        e := Add(d, temp1);
        d := c;
        c := b;
        b := a;
        a := Add(temp1, temp2);
      }
      v := Working(a, b, c, d, e, f, g, h);
    }

    method Transform()
      requires state.Length == 8 && block.Length == 64 && state as object != block
      modifies state
      ensures state[..] == Compress(old(state[..]), block[..])
    {
      hide Rounds, Schedule, Compress, Add;
      var words := ExpandBlock();
      var v := RunRounds(words);
      FoldIn(state[..], block[..], v);
      state[0] := Add(state[0], v.a);
      state[1] := Add(state[1], v.b);
      state[2] := Add(state[2], v.c);
      state[3] := Add(state[3], v.d);
      state[4] := Add(state[4], v.e);
      state[5] := Add(state[5], v.f);
      state[6] := Add(state[6], v.g);
      state[7] := Add(state[7], v.h);
    }

    method CopyIn(part: seq<byte>)
      requires block.Length == 64 && blockSize + |part| <= 64
      modifies this`blockSize, block
      ensures blockSize == old(blockSize) + |part|
      ensures block[..blockSize] == old(block[..blockSize]) + part
    {
      for index := 0 to |part|
        modifies block
        invariant block[..blockSize + index] == old(block[..blockSize]) + part[..index]
      {
        block[blockSize + index] := part[index];
        assert part[..index + 1] == part[..index] + [part[index]];
      }
      assert part[..|part|] == part;
      blockSize := blockSize + |part|;
    }

    // One turn of the loop of `Update`: the bytes that fit, and the compression of a full block.
    method AbsorbPart(data: seq<byte>, offset: nat, ghost fed: seq<byte>) returns (count: nat)
      requires Absorbed(fed) && offset < |data|
      modifies this`blockSize, state, block
      ensures 0 < count <= |data| - offset
      ensures Absorbed(fed + data[offset..offset + count])
    {
      hide Compress, HashBlocks;
      var size := |data| - offset;
      var available := 64 - blockSize;
      count := if size < available then size else available;
      var part := data[offset..offset + count];
      ghost var whole, kept := Cut(fed);
      CopyIn(part);
      CutLonger(fed, whole, kept, part);
      if blockSize == 64 {
        ghost var full := block[..];
        assert full == kept + part;
        Transform();
        HashOneMore(whole, full);
        blockSize := 0;
        assert (fed + part)[..|fed + part|] == whole + full;
      }
    }

    method Update(data: seq<byte>)
      requires Valid()
      modifies this, state, block
      ensures Valid() && message == old(message) + data
    {
      hide Absorbed, HashBlocks, Compress;
      WrapSum(|message|, |data|);
      totalBytes := (totalBytes + |data|) % WORD64;
      ghost var fed := message;
      var offset := 0;
      while offset < |data|
        modifies this`blockSize, state, block
        invariant offset <= |data|
        invariant fed == message + data[..offset] && Absorbed(fed)
      {
        var count := AbsorbPart(data, offset, fed);
        fed := fed + data[offset..offset + count];
        assert data[..offset + count] == data[..offset] + data[offset..offset + count];
        offset := offset + count;
      }
      assert data[..offset] == data;
      message := message + data;
    }

    method ZeroTo(limit: nat)
      requires block.Length == 64 && blockSize <= limit <= 64
      modifies this`blockSize, block
      ensures blockSize == limit
      ensures block[..limit] == old(block[..blockSize]) + Zeros(limit - old(blockSize))
    {
      ghost var start := block[..blockSize];
      while blockSize < limit
        invariant |start| <= blockSize <= limit
        invariant block[..blockSize] == start + Zeros(blockSize - |start|)
      {
        block[blockSize] := 0;
        blockSize := blockSize + 1;
      }
    }

    method StoreLength(bitLength: nat)
      requires block.Length == 64
      modifies block
      ensures block[..] == old(block[..56]) + BigEndian64(bitLength)
    {
      for index := 0 to 8
        invariant block[..56] == old(block[..56])
        invariant forall j :: 0 <= j < index ==> block[63 - j] == ByteOf(bitLength, j)
      {
        block[63 - index] := ByteOf(bitLength, index);
      }
      forall j | 56 <= j < 64
        ensures block[j] == BigEndian64(bitLength)[j - 56]
      {
        assert block[63 - (63 - j)] == ByteOf(bitLength, 63 - j);
      }
    }

    method HashTail(bitLength: nat, ghost fed: seq<byte>)
      requires Absorbed(fed)
      modifies this`blockSize, state, block
      ensures state[..] == HashBlocks(PadWith(fed, bitLength))
    {
      hide Compress, HashBlocks, BigEndian64, PadWith;
      ghost var whole, rest := Cut(fed);
      block[blockSize] := 0x80;
      blockSize := blockSize + 1;
      assert block[..blockSize] == rest + [0x80];
      ghost var done := whole;
      if blockSize > 56 {
        ZeroTo(64);
        ghost var first := block[..];
        assert first == rest + [0x80] + Zeros(63 - |rest|);
        Transform();
        HashOneMore(whole, first);
        done := whole + first;
        blockSize := 0;
      }
      ZeroTo(56);
      ghost var start := block[..56];
      StoreLength(bitLength);
      HashOneMore(done, start + BigEndian64(bitLength));
      Transform();
      PadSplits(whole, rest, bitLength);
      if |rest| < 56 {
        assert start == rest + [0x80] + Zeros(55 - |rest|);
      } else {
        assert start == Zeros(56);
      }
    }

    method DigestText() returns (text: seq<byte>)
      requires state.Length == 8
      ensures text == Hex.Hex(WordsBytes(state[..]))
    {
      hide HexWord;
      text := [];
      for index := 0 to 8
        invariant text == HexWords(state[..index])
      {
        text := text + HexWord(state[index]);
        HexWordsSnoc(state[..index], state[index]);
        assert state[..index + 1] == state[..index] + [state[index]];
      }
      assert state[..8] == state[..];
      HexWordsIsHex(state[..]);
    }

    method Finish() returns (text: seq<byte>)
      requires Valid()
      modifies this`blockSize, state, block
      ensures Hashable(message) ==> text == Hex.Hex(Sha256(message))
    {
      hide HashBlocks, PadWith, WordsBytes;
      var bitLength := totalBytes * 8 % WORD64;
      HashTail(bitLength, message);
      text := DigestText();
    }
  }

  lemma WrapSum(x: nat, y: nat)
    ensures (x % WORD64 + y) % WORD64 == (x + y) % WORD64
  {
  }

  // A message as whole blocks and the bytes after them.
  lemma Cut(fed: seq<byte>) returns (whole: seq<byte>, rest: seq<byte>)
    ensures fed == whole + rest && |whole| % 64 == 0 && |rest| == |fed| % 64
    ensures whole == fed[..|fed| - |fed| % 64] && rest == fed[|fed| - |fed| % 64..]
  {
    whole, rest := fed[..|fed| - |fed| % 64], fed[|fed| - |fed| % 64..];
  }

  lemma CutLonger(fed: seq<byte>, whole: seq<byte>, rest: seq<byte>, part: seq<byte>)
    requires fed == whole + rest && |whole| % 64 == 0 && |rest| + |part| <= 64 && |rest| == |fed| % 64
    ensures |rest| + |part| < 64 ==>
      && |fed + part| % 64 == |rest| + |part|
      && (fed + part)[..|fed + part| - |rest + part|] == whole
      && (fed + part)[|fed + part| - |rest + part|..] == rest + part
    ensures |rest| + |part| == 64 ==> |fed + part| % 64 == 0 && fed + part == whole + (rest + part)
  {
    assert fed + part == whole + (rest + part);
  }

  function HexWords(words: seq<Word>): seq<byte> {
    if words == [] then [] else HexWord(words[0]) + HexWords(words[1..])
  }

  lemma {:induction false} HexWordsSnoc(words: seq<Word>, w: Word)
    ensures HexWords(words + [w]) == HexWords(words) + HexWord(w)
  {
    hide HexWord;
    if words == [] {
      assert HexWords([w]) == HexWord(w) + HexWords([w][1..]);
    } else {
      HexWordsSnoc(words[1..], w);
      assert (words + [w])[1..] == words[1..] + [w];
    }
  }

  lemma {:induction false} HexWordsIsHex(words: seq<Word>)
    ensures HexWords(words) == Hex.Hex(WordsBytes(words))
  {
    hide HexWord, WordBytes, Hex.Hex;
    if words == [] {
      assert Hex.Hex([]) == [] by { Hex.HexConcat([], []); }
    } else {
      HexWordIsHex(words[0]);
      HexWordsIsHex(words[1..]);
      Hex.HexConcat(WordBytes(words[0]), WordsBytes(words[1..]));
    }
  }

  lemma HashOneMore(whole: seq<byte>, block: seq<byte>)
    requires |whole| % 64 == 0 && |block| == 64
    ensures HashBlocks(whole + block) == Compress(HashBlocks(whole), block)
  {
    hide Compress;
    var all := whole + block;
    assert all[..|all| - 64] == whole && all[|all| - 64..] == block;
  }

  // The padded message, cut into the blocks that the tail is hashed in.
  lemma PadSplits(whole: seq<byte>, rest: seq<byte>, bitLength: nat)
    requires |whole| % 64 == 0 && |rest| < 64
    ensures var length := BigEndian64(bitLength);
      PadWith(whole + rest, bitLength) ==
        if |rest| < 56 then whole + (rest + [0x80] + Zeros(55 - |rest|) + length)
        else whole + (rest + [0x80] + Zeros(63 - |rest|)) + (Zeros(56) + length)
  {
    hide BigEndian64;
    assert |whole + rest| % 64 == |rest|;
    if |rest| >= 56 {
      assert Zeros(119 - |rest|) == Zeros(63 - |rest|) + Zeros(56);
    }
  }

  lemma FoldIn(hash: seq<Word>, block: seq<byte>, v: Working)
    requires |hash| == 8 && |block| == 64 && v == Rounds(hash, block, 64)
    ensures Compress(hash, block) ==
      [Add(hash[0], v.a), Add(hash[1], v.b), Add(hash[2], v.c), Add(hash[3], v.d),
       Add(hash[4], v.e), Add(hash[5], v.f), Add(hash[6], v.g), Add(hash[7], v.h)]
  {
    hide Rounds;
  }

  lemma ScheduleSum(w16: Word, s0: Word, w7: Word, s1: Word)
    ensures Add(Add(Add(w16, s0), w7), s1) == Add(Add(Add(s1, w7), s0), w16)
  {
    AddFour(w16, s0, w7, s1);
    AddFour(s1, w7, s0, w16);
  }

  lemma OrShifted(high: nat, k: nat, low: nat)
    requires k <= 32 && low < Pow2(k) && high * Pow2(k) < WORD32 && low < WORD32
    requires high * Pow2(k) + low < WORD32
    ensures Or(high * Pow2(k), low) == high * Pow2(k) + low
  {
    hide OnBits;
    Pow2Values();
    OrOfDisjointBits(high, k, low, 32);
  }

  lemma OrIsBigEndian(b0: byte, b1: byte, b2: byte, b3: byte)
    ensures Or(Or(Or(Shl(b0, 24), Shl(b1, 16)), Shl(b2, 8)), b3) == BigEndianWord(b0, b1, b2, b3)
  {
    hide Or;
    Pow2Values();
    assert Shl(b0, 24) == b0 * 0x100_0000;
    assert Shl(b1, 16) == b1 * 0x1_0000;
    assert Shl(b2, 8) == b2 * 0x100;
    OrShifted(b0, 24, b1 * 0x1_0000);
    OrShifted(b0 * 0x100 + b1, 16, b2 * 0x100);
    OrShifted(b0 * 0x1_0000 + b1 * 0x100 + b2, 8, b3);
  }

  function Flatten(chunks: seq<seq<byte>>): seq<byte> {
    if chunks == [] then [] else chunks[0] + Flatten(chunks[1..])
  }

  lemma {:induction false} FlattenSnoc(chunks: seq<seq<byte>>, chunk: seq<byte>)
    ensures Flatten(chunks + [chunk]) == Flatten(chunks) + chunk
  {
    if chunks == [] {
      assert Flatten([chunk]) == chunk + Flatten([chunk][1..]);
    } else {
      FlattenSnoc(chunks[1..], chunk);
      assert (chunks + [chunk])[1..] == chunks[1..] + [chunk];
    }
  }

  // The digest of a message however it is split: the loop of sha256File over the buffers it reads.
  method HashChunks(chunks: seq<seq<byte>>) returns (text: seq<byte>)
    ensures Hashable(Flatten(chunks)) ==> text == Hex.Hex(Sha256(Flatten(chunks)))
  {
    hide Sha256, HashBlocks, Hex.Hex;
    var digest := new Hasher();
    for i := 0 to |chunks|
      invariant digest.Valid() && digest.message == Flatten(chunks[..i])
      invariant fresh(digest) && fresh(digest.state) && fresh(digest.block)
    {
      digest.Update(chunks[i]);
      FlattenSnoc(chunks[..i], chunks[i]);
      assert chunks[..i + 1] == chunks[..i] + [chunks[i]];
    }
    assert chunks[..|chunks|] == chunks;
    text := digest.Finish();
  }

  method HashText(message: seq<byte>) returns (text: seq<byte>)
    ensures Hashable(message) ==> text == Hex.Hex(Sha256(message))
  {
    hide Sha256, HashBlocks, Hex.Hex;
    var digest := new Hasher();
    digest.Update(message);
    assert [] + message == message;
    text := digest.Finish();
  }
}
