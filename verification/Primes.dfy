/**
  The first sixty-four primes, from which the constants of SHA-256 are made: a table, and the proof that it
  lists primes only, in ascending order and without omissions.

  All entries are below 19 squared, so a composite number in the range of the table has a divisor of at most 18,
  and therefore one of the seven primes up to 17. Testing those decides primality:

    IsPrime(n) <==> Sieved(n)   for 2 <= n < 361

  Between two neighbours of the table the sieve lets nothing pass, and it lets every entry pass.
*/
module Primes {
  function PrimeRow(row: nat): (r: seq<nat>)
    requires row < 8
    ensures |r| == 8
  {
    match row
    case 0 => [2, 3, 5, 7, 11, 13, 17, 19]
    case 1 => [23, 29, 31, 37, 41, 43, 47, 53]
    case 2 => [59, 61, 67, 71, 73, 79, 83, 89]
    case 3 => [97, 101, 103, 107, 109, 113, 127, 131]
    case 4 => [137, 139, 149, 151, 157, 163, 167, 173]
    case 5 => [179, 181, 191, 193, 197, 199, 211, 223]
    case 6 => [227, 229, 233, 239, 241, 251, 257, 263]
    case _ => [269, 271, 277, 281, 283, 293, 307, 311]
  }

  // The first sixty-four primes.
  function Prime(t: nat): nat
    requires t < 64
  {
    PrimeRow(t / 8)[t % 8]
  }

  ghost predicate IsPrime(n: nat) {
    n >= 2 && forall d :: 2 <= d < n ==> n % d != 0
  }

  // No prime up to seventeen is a proper divisor.
  predicate Sieved(n: nat) {
    && (n % 2 != 0 || n == 2) && (n % 3 != 0 || n == 3) && (n % 5 != 0 || n == 5) && (n % 7 != 0 || n == 7)
    && (n % 11 != 0 || n == 11) && (n % 13 != 0 || n == 13) && (n % 17 != 0 || n == 17)
  }

  lemma ProductIsDivisible(k: nat, q: nat)
    requires k > 0
    ensures (k * q) % k == 0
  {
    var e := q - (k * q) / k;
    assert k * e == (k * q) % k;
    assert e >= 1 ==> k * e >= k;
  }

  lemma DivisorOfDivisor(n: nat, k: nat, p: nat)
    requires k > 0 && p > 0 && n % k == 0 && k % p == 0
    ensures n % p == 0
  {
    assert n == k * (n / k) == p * (k / p) * (n / k) == p * ((k / p) * (n / k));
    ProductIsDivisible(p, (k / p) * (n / k));
  }

  lemma SmallDivisor(n: nat, k: nat)
    requires 2 <= k <= 18 && k < n && n % k == 0
    ensures !Sieved(n)
  {
    var p := if k % 2 == 0 then 2 else if k % 3 == 0 then 3 else k;
    DivisorOfDivisor(n, k, p);
    assert p in {2, 3, 5, 7, 11, 13, 17};
  }

  lemma SmallCofactor(n: nat, d: nat) returns (k: nat)
    requires n < 19 * 19 && 18 < d < n && n % d == 0
    ensures 2 <= k <= 18 && n % k == 0
  {
    k := n / d;
    assert n == d * k;
    assert k >= 19 ==> d * k >= 19 * k;
    ProductIsDivisible(k, d);
  }

  lemma PrimeIsSieved(n: nat)
    requires IsPrime(n)
    ensures Sieved(n)
  {
    assert forall p :: p in {2, 3, 5, 7, 11, 13, 17} && p < n ==> n % p != 0;
  }

  // Below 19 squared the sieve decides primality, since of a divisor and its cofactor one is at most 18.
  lemma SieveDecides(n: nat)
    requires 2 <= n < 19 * 19
    ensures IsPrime(n) <==> Sieved(n)
  {
    hide Sieved;
    if !IsPrime(n) {
      var d :| 2 <= d < n && n % d == 0;
      var k := d;
      if d > 18 {
        k := SmallCofactor(n, d);
      }
      SmallDivisor(n, k);
    } else {
      PrimeIsSieved(n);
    }
  }

  // No prime lies strictly between p and n.
  predicate NoneBetween(p: nat, n: nat) {
    n <= p + 1 || (!Sieved(n - 1) && NoneBetween(p, n - 1))
  }

  predicate Follows(p: nat, q: nat) { 0 < p < q && Sieved(q) && NoneBetween(p, q) }

  lemma Row0()
    ensures Follows(1, 2) && Follows(2, 3) && Follows(3, 5) && Follows(5, 7)
    ensures Follows(7, 11) && Follows(11, 13) && Follows(13, 17) && Follows(17, 19)
  {
  }

  lemma Row1()
    ensures Follows(19, 23) && Follows(23, 29) && Follows(29, 31) && Follows(31, 37)
    ensures Follows(37, 41) && Follows(41, 43) && Follows(43, 47) && Follows(47, 53)
  {
  }

  lemma Row2()
    ensures Follows(53, 59) && Follows(59, 61) && Follows(61, 67) && Follows(67, 71)
    ensures Follows(71, 73) && Follows(73, 79) && Follows(79, 83) && Follows(83, 89)
  {
  }

  lemma Row3()
    ensures Follows(89, 97) && Follows(97, 101) && Follows(101, 103) && Follows(103, 107)
    ensures Follows(107, 109) && Follows(109, 113) && Follows(113, 127) && Follows(127, 131)
  {
  }

  lemma Row4()
    ensures Follows(131, 137) && Follows(137, 139) && Follows(139, 149) && Follows(149, 151)
    ensures Follows(151, 157) && Follows(157, 163) && Follows(163, 167) && Follows(167, 173)
  {
  }

  lemma Row5()
    ensures Follows(173, 179) && Follows(179, 181) && Follows(181, 191) && Follows(191, 193)
    ensures Follows(193, 197) && Follows(197, 199) && Follows(199, 211) && Follows(211, 223)
  {
  }

  lemma Row6()
    ensures Follows(223, 227) && Follows(227, 229) && Follows(229, 233) && Follows(233, 239)
    ensures Follows(239, 241) && Follows(241, 251) && Follows(251, 257) && Follows(257, 263)
  {
  }

  lemma Row7()
    ensures Follows(263, 269) && Follows(269, 271) && Follows(271, 277) && Follows(277, 281)
    ensures Follows(281, 283) && Follows(283, 293) && Follows(293, 307) && Follows(307, 311)
  {
  }

  function LastBefore(row: nat): nat
    requires row < 8
  {
    if row == 0 then 1 else PrimeRow(row - 1)[7]
  }

  ghost predicate RowFollows(row: nat)
    requires row < 8
  {
    var r := PrimeRow(row);
    && r[7] < 19 * 19
    && Follows(LastBefore(row), r[0]) && Follows(r[0], r[1]) && Follows(r[1], r[2]) && Follows(r[2], r[3])
    && Follows(r[3], r[4]) && Follows(r[4], r[5]) && Follows(r[5], r[6]) && Follows(r[6], r[7])
  }

  lemma EachRowFollows(row: nat)
    requires row < 8
    ensures RowFollows(row)
  {
    hide Follows;
    match row {
      case 0 => Row0();
      case 1 => Row1();
      case 2 => Row2();
      case 3 => Row3();
      case 4 => Row4();
      case 5 => Row5();
      case 6 => Row6();
      case _ => Row7();
    }
  }

  lemma EachPrimeFollows(t: nat)
    requires t < 64
    ensures Prime(t) < 19 * 19
    ensures Follows(if t == 0 then 1 else Prime(t - 1), Prime(t))
  {
    hide PrimeRow, NoneBetween, Sieved;
    EachRowFollows(t / 8);
    if t % 8 == 0 {
      assert t > 0 ==> (t - 1) / 8 == t / 8 - 1 && (t - 1) % 8 == 7;
    } else {
      assert (t - 1) / 8 == t / 8 && (t - 1) % 8 == t % 8 - 1;
    }
  }

  lemma {:induction false} NoneIsBetween(p: nat, q: nat, n: nat)
    requires NoneBetween(p, q) && p < n < q
    ensures !Sieved(n)
    decreases q
  {
    if n < q - 1 {
      NoneIsBetween(p, q - 1, n);
    }
  }

  // The table starts with the first prime, and after each entry the next prime is the next entry.
  lemma TableListsThePrimes(t: nat)
    requires t < 64
    ensures IsPrime(Prime(t))
    ensures var before := if t == 0 then 1 else Prime(t - 1);
      before < Prime(t) && forall n: nat :: before < n < Prime(t) ==> !IsPrime(n)
  {
    hide Sieved, IsPrime, NoneBetween, Prime;
    var before := if t == 0 then 1 else Prime(t - 1);
    EachPrimeFollows(t);
    SieveDecides(Prime(t));
    forall n: nat | before < n < Prime(t)
      ensures !IsPrime(n)
    {
      NoneIsBetween(before, Prime(t), n);
      SieveDecides(n);
    }
  }
}
