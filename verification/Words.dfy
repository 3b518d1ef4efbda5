/**
  32-bit unsigned words and the operations of C++ (and of FIPS 180-4, section 3.2) on them.

  A word is a natural number below 2^32, and every bitwise operation is defined on the binary digits, lowest
  first: OnBits splits off the last digit of both operands with % 2 and goes on with / 2. Shifts multiply and
  halve. The lemmas say what masks and disjoint ors mean as arithmetic, for any number of digits:

    x | y      is x + y when the operands share no digit      OrOfDisjointBits
    x & 0..01..1   keeps the low digits                       LowMask
    x & 0..1..10..0   keeps digits in between                 MiddleMask
    x          is its high digits, shifted back, and its low digits   SplitBits
*/
module Words {
  import opened Prelude

  type Word = w: nat | w < WORD32

  function Pow2(n: nat): (r: nat)
    ensures r > 0
  {
    if n == 0 then 1 else 2 * Pow2(n - 1)
  }

  lemma Pow2Values()
    ensures Pow2(8) == 0x100 && Pow2(16) == 0x1_0000 && Pow2(24) == 0x100_0000 && Pow2(32) == WORD32
  {
    assert Pow2(4) == 16;
    assert Pow2(12) == 0x1000;
    assert Pow2(20) == 0x10_0000;
    assert Pow2(28) == 0x1000_0000;
  }

  datatype BitOp = BitAnd | BitOr | BitXor

  function OnBit(op: BitOp, x: nat, y: nat): (r: nat)
    requires x < 2 && y < 2
    ensures r < 2
  {
    match op
    case BitAnd => if x == 1 && y == 1 then 1 else 0
    case BitOr => if x == 1 || y == 1 then 1 else 0
    case BitXor => if x != y then 1 else 0
  }

  // The operation on the n low bits of x and y.
  function OnBits(op: BitOp, x: nat, y: nat, n: nat): (r: nat)
    ensures r < Pow2(n)
  {
    if n == 0 then 0
    else 2 * OnBits(op, x / 2, y / 2, n - 1) + OnBit(op, x % 2, y % 2)
  }

  function And(x: Word, y: Word): Word { Pow2Values(); OnBits(BitAnd, x, y, 32) }
  function Or(x: Word, y: Word): Word { Pow2Values(); OnBits(BitOr, x, y, 32) }
  function Xor(x: Word, y: Word): Word { Pow2Values(); OnBits(BitXor, x, y, 32) }
  function Not(x: Word): Word { WORD32 - 1 - x }
  function Add(x: Word, y: Word): Word { (x + y) % WORD32 }
  function Shl(x: Word, n: nat): Word { x * Pow2(n) % WORD32 }

  function Shr(x: Word, n: nat): Word {
    if n == 0 then x else Shr(x / 2, n - 1)
  }

  // (value >> amount) | (value << (32 - amount))
  function RotateRight(value: Word, amount: nat): Word
    requires 0 < amount < 32
  {
    Or(Shr(value, amount), Shl(value, 32 - amount))
  }

  lemma ModInside(x: nat, y: nat)
    ensures (x % WORD32 + y) % WORD32 == (x + y) % WORD32
  {
  }

  lemma AddFour(a: Word, b: Word, c: Word, d: Word)
    ensures Add(Add(Add(a, b), c), d) == (a + b + c + d) % WORD32
  {
    ModInside(a + b, c);
    ModInside(a + b + c, d);
  }

  lemma {:induction false} OrWithZero(x: nat, n: nat)
    requires x < Pow2(n)
    ensures OnBits(BitOr, x, 0, n) == x
  {
    if n > 0 {
      OrWithZero(x / 2, n - 1);
    }
  }

  // Or-ing parts that share no bit adds them.
  lemma {:induction false} OrOfDisjointBits(high: nat, k: nat, low: nat, n: nat)
    requires k <= n && low < Pow2(k) && high * Pow2(k) < Pow2(n)
    ensures OnBits(BitOr, high * Pow2(k), low, n) == high * Pow2(k) + low
  {
    if k == 0 {
      OrWithZero(high, n);
    } else {
      var x := high * Pow2(k - 1);
      assert high * Pow2(k) == 2 * x;
      OrOfDisjointBits(high, k - 1, low / 2, n - 1);
    }
  }

  // ----- Masks -----

  // j one bits.
  function Ones(j: nat): nat {
    if j == 0 then 0 else 2 * Ones(j - 1) + 1
  }

  // The j low bits of x.
  function LowBits(x: nat, j: nat): nat {
    if j == 0 then 0 else 2 * LowBits(x / 2, j - 1) + x % 2
  }

  // x followed by k zero bits.
  function Doubled(x: nat, k: nat): nat {
    if k == 0 then x else 2 * Doubled(x, k - 1)
  }

  lemma {:induction false} AndWithZero(x: nat, n: nat)
    ensures OnBits(BitAnd, x, 0, n) == 0
  {
    if n > 0 {
      AndWithZero(x / 2, n - 1);
    }
  }

  // Masking with j ones keeps the j low bits.
  lemma {:induction false} LowMask(x: nat, j: nat, n: nat)
    requires j <= n
    ensures OnBits(BitAnd, x, Ones(j), n) == LowBits(x, j)
  {
    if j == 0 {
      AndWithZero(x, n);
    } else {
      LowMask(x / 2, j - 1, n - 1);
    }
  }

  // Masking with j ones followed by k zeros keeps the bits in between.
  lemma {:induction false} MiddleMask(x: Word, j: nat, k: nat, n: nat)
    requires j + k <= n
    ensures OnBits(BitAnd, x, Doubled(Ones(j), k), n) == Doubled(LowBits(Shr(x, k), j), k)
  {
    if k == 0 {
      LowMask(x, j, n);
    } else {
      MiddleMask(x / 2, j, k - 1, n - 1);
      assert Doubled(Ones(j), k) / 2 == Doubled(Ones(j), k - 1);
    }
  }

  lemma {:induction false} SplitBits(x: Word, j: nat)
    ensures x == Doubled(Shr(x, j), j) + LowBits(x, j)
  {
    if j > 0 {
      SplitBits(x / 2, j - 1);
    }
  }

  lemma {:induction false} ShrTwice(x: Word, j: nat, k: nat)
    ensures Shr(Shr(x, j), k) == Shr(x, j + k)
  {
    if j > 0 {
      ShrTwice(x / 2, j - 1, k);
    }
  }

  // Shifts by small amounts as multiplications and divisions.
  lemma SmallShifts(x: Word)
    ensures Doubled(x, 3) == 8 * x && Doubled(x, 4) == 0x10 * x
    ensures Doubled(x, 5) == 0x20 * x && Doubled(x, 6) == 0x40 * x
    ensures Shr(x, 3) == x / 8 && Shr(x, 4) == x / 0x10 && Shr(x, 5) == x / 0x20 && Shr(x, 6) == x / 0x40
  {
    assert Doubled(x, 1) == 2 * x && Shr(x, 1) == x / 2;
    assert Doubled(x, 2) == 4 * x;
    ShrTwice(x, 1, 1);
    ShrTwice(x, 2, 1);
    ShrTwice(x, 3, 1);
    ShrTwice(x, 4, 1);
    ShrTwice(x, 5, 1);
  }

  // The j low bits of a number below 2^j are the number.
  lemma {:induction false} AllBitsLow(x: nat, j: nat)
    requires x < Pow2(j)
    ensures LowBits(x, j) == x
  {
    if j > 0 {
      AllBitsLow(x / 2, j - 1);
    }
  }

  // ----- Digits -----

  // The binary digit of x with weight 2^i.
  function Digit(x: nat, i: nat): (d: nat)
    ensures d < 2
  {
    if i == 0 then x % 2 else Digit(x / 2, i - 1)
  }

  lemma {:induction false} OnBitsDigit(op: BitOp, x: nat, y: nat, n: nat, i: nat)
    requires i < n
    ensures Digit(OnBits(op, x, y, n), i) == OnBit(op, Digit(x, i), Digit(y, i))
  {
    var rest := OnBits(op, x / 2, y / 2, n - 1);
    assert OnBits(op, x, y, n) == 2 * rest + OnBit(op, x % 2, y % 2);
    if i > 0 {
      OnBitsDigit(op, x / 2, y / 2, n - 1, i - 1);
      assert OnBits(op, x, y, n) / 2 == rest;
    }
  }

  lemma AndDigit(x: Word, y: Word, i: nat)
    requires i < 32
    ensures Digit(And(x, y), i) == if Digit(x, i) == 1 then Digit(y, i) else 0
  {
    hide Digit, OnBits;
    OnBitsDigit(BitAnd, x, y, 32, i);
  }

  lemma OrDigit(x: Word, y: Word, i: nat)
    requires i < 32
    ensures Digit(Or(x, y), i) == if Digit(x, i) == 1 then 1 else Digit(y, i)
  {
    hide Digit, OnBits;
    OnBitsDigit(BitOr, x, y, 32, i);
  }

  lemma XorDigit(x: Word, y: Word, i: nat)
    requires i < 32
    ensures Digit(Xor(x, y), i) == if Digit(x, i) == Digit(y, i) then 0 else 1
  {
    hide Digit, OnBits;
    OnBitsDigit(BitXor, x, y, 32, i);
  }

  lemma {:induction false} ComplementDigit(x: nat, n: nat, i: nat)
    requires x < Pow2(n) && i < n
    ensures Digit(Pow2(n) - 1 - x, i) == 1 - Digit(x, i)
  {
    var y := Pow2(n) - 1 - x;
    assert y / 2 == Pow2(n - 1) - 1 - x / 2 && y % 2 == 1 - x % 2;
    if i > 0 {
      ComplementDigit(x / 2, n - 1, i - 1);
    }
  }

  lemma NotDigit(x: Word, i: nat)
    requires i < 32
    ensures Digit(Not(x), i) == 1 - Digit(x, i)
  {
    hide Digit;
    Pow2Values();
    ComplementDigit(x, 32, i);
  }

  lemma {:induction false} ShrDigit(x: Word, n: nat, i: nat)
    ensures Digit(Shr(x, n), i) == Digit(x, i + n)
  {
    if n > 0 {
      ShrDigit(x / 2, n - 1, i);
    }
  }

  lemma {:induction false} HighDigit(x: nat, n: nat, i: nat)
    requires x < Pow2(n) && n <= i
    ensures Digit(x, i) == 0
  {
    if n > 0 {
      HighDigit(x / 2, n - 1, i - 1);
    } else if i > 0 {
      HighDigit(0, 0, i - 1);
    }
  }

  lemma {:induction false} LowDigit(x: nat, n: nat, i: nat)
    requires i < n
    ensures Digit(x % Pow2(n), i) == Digit(x, i)
  {
    HalfOfRemainder(x, n);
    if i > 0 {
      LowDigit(x / 2, n - 1, i - 1);
    }
  }

  lemma HalfOfRemainder(x: nat, n: nat)
    requires n > 0
    ensures x % Pow2(n) / 2 == x / 2 % Pow2(n - 1) && x % Pow2(n) % 2 == x % 2
  {
    var p := Pow2(n - 1);
    var half := x / 2;
    assert x == 2 * (p * (half / p) + half % p) + x % 2;
    assert x == (half / p) * (2 * p) + (2 * (half % p) + x % 2) by {
      assert 2 * (p * (half / p)) == (half / p) * (2 * p);
    }
    RemainderOf(x, half / p, 2 * p, 2 * (half % p) + x % 2);
  }

  lemma RemainderOf(x: nat, quotient: nat, divisor: nat, rest: nat)
    requires rest < divisor && x == quotient * divisor + rest
    ensures x % divisor == rest
  {
    var k := x / divisor - quotient;
    assert k * divisor == x / divisor * divisor - quotient * divisor;
    AtLeastOnce(k, divisor);
    AtLeastOnce(-k, divisor);
  }

  lemma AtLeastOnce(k: int, divisor: nat)
    ensures k >= 1 ==> k * divisor >= divisor
  {
  }

  lemma {:induction false} ScaledDigit(x: nat, n: nat, i: nat)
    ensures Digit(x * Pow2(n), i) == if i < n then 0 else Digit(x, i - n)
  {
    if n > 0 {
      var y := x * Pow2(n - 1);
      assert x * Pow2(n) == 2 * y;
      if i > 0 {
        ScaledDigit(x, n - 1, i - 1);
      }
    }
  }

  lemma ShlDigit(x: Word, n: nat, i: nat)
    requires i < 32
    ensures Digit(Shl(x, n), i) == if i < n then 0 else Digit(x, i - n)
  {
    Pow2Values();
    LowDigit(x * Pow2(n), 32, i);
    ScaledDigit(x, n, i);
    hide Digit, Pow2;
  }

  // A rotation moves every digit, the lowest ones to the top.
  lemma RotateDigit(x: Word, n: nat, i: nat)
    requires 0 < n < 32 && i < 32
    ensures Digit(RotateRight(x, n), i) == Digit(x, (i + n) % 32)
  {
    hide Digit, Shr, Shl, Or;
    Pow2Values();
    OrDigit(Shr(x, n), Shl(x, 32 - n), i);
    ShrDigit(x, n, i);
    ShlDigit(x, 32 - n, i);
    if i + n >= 32 {
      HighDigit(x, 32, i + n);
    }
  }
}
