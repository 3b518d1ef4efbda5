/**
  The Secure Hash Standard, FIPS 180-4, for SHA-256: the functions of section 4.1.2, the constants of
  section 4.2.2, padding (5.1.1), the initial hash value (5.3.3) and the hash computation (6.2.2).
*/
module Sha256Spec {
  import opened Prelude
  import opened Words

  // ----- Section 4.1.2: functions -----

  // ROTR^n of section 3.2 is RotateRight, SHR^n is Shr.
  function Ch(x: Word, y: Word, z: Word): Word { Xor(And(x, y), And(Not(x), z)) }
  function Maj(x: Word, y: Word, z: Word): Word { Xor(Xor(And(x, y), And(x, z)), And(y, z)) }
  function BigSigma0(x: Word): Word { Xor(Xor(RotateRight(x, 2), RotateRight(x, 13)), RotateRight(x, 22)) }
  function BigSigma1(x: Word): Word { Xor(Xor(RotateRight(x, 6), RotateRight(x, 11)), RotateRight(x, 25)) }
  function SmallSigma0(x: Word): Word { Xor(Xor(RotateRight(x, 7), RotateRight(x, 18)), Shr(x, 3)) }
  function SmallSigma1(x: Word): Word { Xor(Xor(RotateRight(x, 17), RotateRight(x, 19)), Shr(x, 10)) }

  // What the six functions do to the digit with weight 2^i: Ch chooses, Maj votes, and the others add up moved
  // digits without carry; a shift moves in zeros.
  lemma ChDigit(x: Word, y: Word, z: Word, i: nat)
    requires i < 32
    ensures Digit(Ch(x, y, z), i) == if Digit(x, i) == 1 then Digit(y, i) else Digit(z, i)
  {
    hide And, Xor, Not, Digit;
    NotDigit(x, i);
    AndDigit(x, y, i);
    AndDigit(Not(x), z, i);
    XorDigit(And(x, y), And(Not(x), z), i);
  }

  lemma MajDigit(x: Word, y: Word, z: Word, i: nat)
    requires i < 32
    ensures Digit(Maj(x, y, z), i) == if Digit(x, i) + Digit(y, i) + Digit(z, i) >= 2 then 1 else 0
  {
    hide And, Xor, Digit;
    AndDigit(x, y, i);
    AndDigit(x, z, i);
    AndDigit(y, z, i);
    XorDigit(And(x, y), And(x, z), i);
    XorDigit(Xor(And(x, y), And(x, z)), And(y, z), i);
  }

  lemma XorOfThree(x: Word, y: Word, z: Word, i: nat)
    requires i < 32
    ensures Digit(Xor(Xor(x, y), z), i) == (Digit(x, i) + Digit(y, i) + Digit(z, i)) % 2
  {
    hide Xor, Digit;
    XorDigit(x, y, i);
    XorDigit(Xor(x, y), z, i);
  }

  lemma SumOfRotations(x: Word, m: nat, n: nat, o: nat, i: nat)
    requires 0 < m < 32 && 0 < n < 32 && 0 < o < 32 && i < 32
    ensures Digit(Xor(Xor(RotateRight(x, m), RotateRight(x, n)), RotateRight(x, o)), i)
         == (Digit(x, (i + m) % 32) + Digit(x, (i + n) % 32) + Digit(x, (i + o) % 32)) % 2
  {
    hide RotateRight, Xor, Digit;
    RotateDigit(x, m, i);
    RotateDigit(x, n, i);
    RotateDigit(x, o, i);
    XorOfThree(RotateRight(x, m), RotateRight(x, n), RotateRight(x, o), i);
  }

  lemma SumWithShift(x: Word, m: nat, n: nat, o: nat, i: nat)
    requires 0 < m < 32 && 0 < n < 32 && i < 32
    ensures Digit(Xor(Xor(RotateRight(x, m), RotateRight(x, n)), Shr(x, o)), i)
         == (Digit(x, (i + m) % 32) + Digit(x, (i + n) % 32) + if i + o < 32 then Digit(x, i + o) else 0) % 2
  {
    hide RotateRight, Xor, Digit, Shr;
    RotateDigit(x, m, i);
    RotateDigit(x, n, i);
    ShrDigit(x, o, i);
    Pow2Values();
    if i + o >= 32 {
      HighDigit(x, 32, i + o);
    }
    XorOfThree(RotateRight(x, m), RotateRight(x, n), Shr(x, o), i);
  }

  lemma SumDigits(x: Word, i: nat)
    requires i < 32
    ensures Digit(BigSigma0(x), i)
         == (Digit(x, (i + 2) % 32) + Digit(x, (i + 13) % 32) + Digit(x, (i + 22) % 32)) % 2
    ensures Digit(BigSigma1(x), i)
         == (Digit(x, (i + 6) % 32) + Digit(x, (i + 11) % 32) + Digit(x, (i + 25) % 32)) % 2
    ensures Digit(SmallSigma0(x), i)
         == (Digit(x, (i + 7) % 32) + Digit(x, (i + 18) % 32) + if i < 29 then Digit(x, i + 3) else 0) % 2
    ensures Digit(SmallSigma1(x), i)
         == (Digit(x, (i + 17) % 32) + Digit(x, (i + 19) % 32) + if i < 22 then Digit(x, i + 10) else 0) % 2
  {
    hide RotateRight, Xor, Digit, Shr;
    SumOfRotations(x, 2, 13, 22, i);
    SumOfRotations(x, 6, 11, 25, i);
    SumWithShift(x, 7, 18, 3, i);
    SumWithShift(x, 17, 19, 10, i);
  }

  // ----- Section 4.2.2: constants; section 5.3.3: initial hash value -----

  function ConstantRow(row: nat): (r: seq<Word>)
    requires row < 8
    ensures |r| == 8
  {
    match row
    case 0 => [0x428a2f98, 0x71374491, 0xb5c0fbcf, 0xe9b5dba5, 0x3956c25b, 0x59f111f1, 0x923f82a4, 0xab1c5ed5]
    case 1 => [0xd807aa98, 0x12835b01, 0x243185be, 0x550c7dc3, 0x72be5d74, 0x80deb1fe, 0x9bdc06a7, 0xc19bf174]
    case 2 => [0xe49b69c1, 0xefbe4786, 0x0fc19dc6, 0x240ca1cc, 0x2de92c6f, 0x4a7484aa, 0x5cb0a9dc, 0x76f988da]
    case 3 => [0x983e5152, 0xa831c66d, 0xb00327c8, 0xbf597fc7, 0xc6e00bf3, 0xd5a79147, 0x06ca6351, 0x14292967]
    case 4 => [0x27b70a85, 0x2e1b2138, 0x4d2c6dfc, 0x53380d13, 0x650a7354, 0x766a0abb, 0x81c2c92e, 0x92722c85]
    case 5 => [0xa2bfe8a1, 0xa81a664b, 0xc24b8b70, 0xc76c51a3, 0xd192e819, 0xd6990624, 0xf40e3585, 0x106aa070]
    case 6 => [0x19a4c116, 0x1e376c08, 0x2748774c, 0x34b0bcb5, 0x391c0cb3, 0x4ed8aa4a, 0x5b9cca4f, 0x682e6ff3]
    case _ => [0x748f82ee, 0x78a5636f, 0x84c87814, 0x8cc70208, 0x90befffa, 0xa4506ceb, 0xbef9a3f7, 0xc67178f2]
  }

  // The round constants K_0 .. K_63, eight to a row.
  function K(t: nat): Word
    requires t < 64
  {
    ConstantRow(t / 8)[t % 8]
  }

  const H0: seq<Word> := [
    0x6a09e667, 0xbb67ae85, 0x3c6ef372, 0xa54ff53a, 0x510e527f, 0x9b05688c, 0x1f83d9ab, 0x5be0cd19]

  // ----- Section 6.2.2: the hash computation -----

  // Section 5.2.1: the first byte of a word is its most significant one.
  function BigEndianWord(b0: byte, b1: byte, b2: byte, b3: byte): Word {
    b0 * 0x100_0000 + b1 * 0x1_0000 + b2 * 0x100 + b3
  }

  // Step 1: W_t of the message schedule of one 512-bit block.
  function Schedule(block: seq<byte>, t: nat): Word
    requires |block| == 64
  {
    if t < 16 then
      assert 4 * t + 3 < 64;
      BigEndianWord(block[4 * t], block[4 * t + 1], block[4 * t + 2], block[4 * t + 3])
    else
      Add(Add(Add(SmallSigma1(Schedule(block, t - 2)), Schedule(block, t - 7)),
              SmallSigma0(Schedule(block, t - 15))), Schedule(block, t - 16))
  }

  lemma ScheduleStart(block: seq<byte>, t: nat)
    requires |block| == 64 && t < 16
    ensures 4 * t + 3 < 64
    ensures Schedule(block, t)
         == BigEndianWord(block[4 * t], block[4 * t + 1], block[4 * t + 2], block[4 * t + 3])
  {
  }

  lemma ScheduleStep(block: seq<byte>, t: nat)
    requires |block| == 64 && 16 <= t
    ensures Schedule(block, t)
         == Add(Add(Add(SmallSigma1(Schedule(block, t - 2)), Schedule(block, t - 7)),
                    SmallSigma0(Schedule(block, t - 15))), Schedule(block, t - 16))
  {
  }

  datatype Working = Working(a: Word, b: Word, c: Word, d: Word, e: Word, f: Word, g: Word, h: Word)

  // Step 3 for one t.
  function Round(v: Working, k: Word, w: Word): Working {
    var t1 := Add(Add(Add(Add(v.h, BigSigma1(v.e)), Ch(v.e, v.f, v.g)), k), w);
    var t2 := Add(BigSigma0(v.a), Maj(v.a, v.b, v.c));
    Working(Add(t1, t2), v.a, v.b, v.c, Add(v.d, t1), v.e, v.f, v.g)
  }

  // Steps 2 and 3: the working variables after the first t rounds.
  function Rounds(hash: seq<Word>, block: seq<byte>, t: nat): Working
    requires |hash| == 8 && |block| == 64 && t <= 64
  {
    if t == 0 then
      Working(hash[0], hash[1], hash[2], hash[3], hash[4], hash[5], hash[6], hash[7])
    else
      Round(Rounds(hash, block, t - 1), K(t - 1), Schedule(block, t - 1))
  }

  // Step 4: the next intermediate hash value.
  function Compress(hash: seq<Word>, block: seq<byte>): (r: seq<Word>)
    requires |hash| == 8 && |block| == 64
    ensures |r| == 8
  {
    var v := Rounds(hash, block, 64);
    [Add(v.a, hash[0]), Add(v.b, hash[1]), Add(v.c, hash[2]), Add(v.d, hash[3]),
     Add(v.e, hash[4]), Add(v.f, hash[5]), Add(v.g, hash[6]), Add(v.h, hash[7])]
  }

  // H^(N) for a message of N whole blocks.
  function HashBlocks(message: seq<byte>): (r: seq<Word>)
    requires |message| % 64 == 0
    ensures |r| == 8
  {
    if |message| == 0 then H0
    else Compress(HashBlocks(message[..|message| - 64]), message[|message| - 64..])
  }

  // ----- Section 5.1.1: padding, for messages of whole bytes -----

  function Zeros(n: nat): (r: seq<byte>)
    ensures |r| == n
  {
    seq(n, _ => 0)
  }

  // The zero bytes after the byte 0x80 that carries the bit 1.
  function ZeroBytes(length: nat): (r: nat) { (119 - length % 64) % 64 }

  // n >> 8 * i.
  function ShiftBytes(n: nat, i: nat): nat {
    if i == 0 then n else ShiftBytes(n, i - 1) / 256
  }

  // Byte i of n, counted from the least significant one.
  function ByteOf(n: nat, i: nat): byte {
    ShiftBytes(n, i) % 256
  }

  function BigEndian64(n: nat): (r: seq<byte>)
    ensures |r| == 8
  {
    seq(8, i requires 0 <= i < 8 => ByteOf(n, 7 - i))
  }

  // FIPS 180-4 defines the padding of messages shorter than 2^64 bits.
  predicate Hashable(message: seq<byte>) { 8 * |message| < WORD64 }

  function PadWith(message: seq<byte>, bitLength: nat): (r: seq<byte>)
    ensures |r| % 64 == 0
  {
    message + [0x80] + Zeros(ZeroBytes(|message|)) + BigEndian64(bitLength)
  }

  function Pad(message: seq<byte>): (r: seq<byte>)
    ensures |r| % 64 == 0
  {
    PadWith(message, 8 * |message|)
  }

  function WordBytes(w: Word): (r: seq<byte>)
    ensures |r| == 4
  {
    [w / 0x100_0000, w / 0x1_0000 % 0x100, w / 0x100 % 0x100, w % 0x100]
  }

  function WordsBytes(words: seq<Word>): (r: seq<byte>)
    ensures |r| == 4 * |words|
  {
    if words == [] then [] else WordBytes(words[0]) + WordsBytes(words[1..])
  }

  // The 256-bit message digest.
  function Sha256(message: seq<byte>): (r: seq<byte>)
    ensures |r| == 32
  {
    WordsBytes(HashBlocks(Pad(message)))
  }

  // Section 5.1.1 in its own terms: l bits, a 1 bit and k zeros leave room for the 64-bit length.
  predicate Congruent(l: nat, k: nat) { (l + 1 + k) % 512 == 448 }

  lemma WholeBlocks(blocks: nat, rest: nat, k: nat)
    ensures Congruent(512 * blocks + rest, k) <==> Congruent(rest, k)
  {
    assert (512 * blocks + rest + 1 + k) % 512 == (rest + 1 + k) % 512;
  }

  lemma PaddingIsSmallest(length: nat)
    ensures var zeroBits := 7 + 8 * ZeroBytes(length);
      && Congruent(8 * length, zeroBits)
      && forall k :: 0 <= k < zeroBits ==> !Congruent(8 * length, k)
  {
    var zeroBits := 7 + 8 * ZeroBytes(length);
    var blocks, rest := length / 64, 8 * (length % 64);
    assert 8 * length == 512 * blocks + rest;
    WholeBlocks(blocks, rest, zeroBits);
    forall k | 0 <= k < zeroBits
      ensures !Congruent(8 * length, k)
    {
      WholeBlocks(blocks, rest, k);
      assert rest + 1 + k < 448 || 448 < rest + 1 + k < 960;
    }
  }

  function FromBigEndian(bytes: seq<byte>): nat {
    if bytes == [] then 0 else 256 * FromBigEndian(bytes[..|bytes| - 1]) + bytes[|bytes| - 1]
  }

  lemma ShiftedOut(n: nat)
    requires n < WORD64
    ensures ShiftBytes(n, 8) == 0
  {
    assert ShiftBytes(n, 1) < 0x100_0000_0000_0000;
    assert ShiftBytes(n, 2) < 0x1_0000_0000_0000;
    assert ShiftBytes(n, 3) < 0x100_0000_0000;
    assert ShiftBytes(n, 4) < 0x1_0000_0000;
    assert ShiftBytes(n, 5) < 0x100_0000;
    assert ShiftBytes(n, 6) < 0x1_0000;
    assert ShiftBytes(n, 7) < 0x100;
  }

  lemma {:induction false} LeadingBytes(n: nat, j: nat)
    requires n < WORD64 && j <= 8
    ensures FromBigEndian(BigEndian64(n)[..j]) == ShiftBytes(n, 8 - j)
  {
    if j == 0 {
      ShiftedOut(n);
    } else {
      LeadingBytes(n, j - 1);
      var bytes := BigEndian64(n)[..j];
      assert bytes[..j - 1] == BigEndian64(n)[..j - 1];
      assert bytes[j - 1] == ByteOf(n, 8 - j);
      assert ShiftBytes(n, 9 - j) == ShiftBytes(n, 8 - j) / 256;
    }
  }

  // The length field of the padding reads back as the length.
  lemma LengthField(n: nat)
    requires n < WORD64
    ensures FromBigEndian(BigEndian64(n)) == n
  {
    LeadingBytes(n, 8);
    assert BigEndian64(n)[..8] == BigEndian64(n);
  }
}
