// JSON-RPC request ids and the text keys under which the language server files them.
module RequestIds {
  datatype Id = Integer(value: int) | Text(text: string) | Other(json: string)

  predicate IsProper(id: Id) { !id.Other? }

  function Digit(n: nat): char
    requires n < 10
  {
    '0' + n as char
  }

  // std::to_string.
  function Natural(n: nat): string {
    if n < 10 then [Digit(n)] else Natural(n / 10) + [Digit(n % 10)]
  }

  function Decimal(v: int): string { if v < 0 then "-" + Natural(-v) else Natural(v) }

  function IdKey(id: Id): string {
    match id
    case Integer(v) => "i:" + Decimal(v)
    case Text(t) => "s:" + t
    case Other(_) => ""
  }

  function ReadNatural(s: string): int {
    if s == "" then 0 else 10 * ReadNatural(s[..|s| - 1]) + (s[|s| - 1] as int - '0' as int)
  }

  lemma {:induction false} NaturalIsRead(n: nat)
    ensures ReadNatural(Natural(n)) == n
    ensures Natural(n) != "" && Natural(n)[0] != '-'
  {
    if n >= 10 {
      NaturalIsRead(n / 10);
      assert Natural(n)[..|Natural(n)| - 1] == Natural(n / 10);
    } else {
      assert Natural(n)[..0] == "";
    }
  }

  lemma DecimalIsInjective(a: int, b: int)
    requires Decimal(a) == Decimal(b)
    ensures a == b
  {
    NaturalIsRead(if a < 0 then -a else a);
    NaturalIsRead(if b < 0 then -b else b);
    assert a < 0 ==> Decimal(a)[0] == '-' && Decimal(a)[1..] == Natural(-a);
    assert b < 0 ==> Decimal(b)[0] == '-' && Decimal(b)[1..] == Natural(-b);
  }

  lemma {:induction false} NaturalHasNoPadding(n: nat)
    requires n > 0
    ensures Natural(n) != "" && Natural(n)[0] != '0'
  {
    if n >= 10 {
      NaturalHasNoPadding(n / 10);
    }
  }

  // The decimal form is a minus sign exactly for negative numbers, then the digits of the absolute value, without
  // zeros in front.
  lemma DecimalIsRead(v: int)
    ensures Decimal(v) != "" && (Decimal(v)[0] == '-' <==> v < 0)
    ensures var digits := if v < 0 then Decimal(v)[1..] else Decimal(v);
      && digits != "" && ReadNatural(digits) == (if v < 0 then -v else v) && (digits[0] == '0' ==> v == 0)
  {
    NaturalIsRead(if v < 0 then -v else v);
    if v != 0 {
      NaturalHasNoPadding(if v < 0 then -v else v);
    }
    assert v < 0 ==> Decimal(v)[1..] == Natural(-v);
  }

  // Keys tell two different ids apart if and only if one of them is an integer or a string.
  lemma KeysTellIdsApart(a: Id, b: Id)
    ensures IdKey(a) == IdKey(b) <==> a == b || (!IsProper(a) && !IsProper(b))
  {
    if IdKey(a) == IdKey(b) {
      var k := IdKey(a);
      assert a.Integer? ==> k[0] == 'i' && k[2..] == Decimal(a.value);
      assert b.Integer? ==> k[0] == 'i' && k[2..] == Decimal(b.value);
      assert a.Text? ==> k[0] == 's' && k[2..] == a.text;
      assert b.Text? ==> k[0] == 's' && k[2..] == b.text;
      if a.Integer? && b.Integer? {
        DecimalIsInjective(a.value, b.value);
      }
    }
  }
}
