/**
  The loader's UTF-8 check for identities and names, against RFC 3629: the encoding of section 3 on one
  side, the bit-masking loop of the loader on the other. Both are met by the byte syntax of section 4.
*/
module Utf8 {
  import opened Prelude
  import opened Words

  // ----- RFC 3629, section 3: encoding -----

  // A Unicode scalar value: no surrogate, nothing above U+10FFFF.
  type Scalar = c: nat | c <= 0x10_FFFF && !(0xD800 <= c <= 0xDFFF) witness 0

  function Encode(c: Scalar): (r: seq<byte>)
    ensures 1 <= |r| <= 4
  {
    if c < 0x80 then [c]
    else if c < 0x800 then [0xC0 + c / 0x40, 0x80 + c % 0x40]
    else if c < 0x1_0000 then [0xE0 + c / 0x1000, 0x80 + c / 0x40 % 0x40, 0x80 + c % 0x40]
    else [0xF0 + c / 0x4_0000, 0x80 + c / 0x1000 % 0x40, 0x80 + c / 0x40 % 0x40, 0x80 + c % 0x40]
  }

  function EncodeAll(text: seq<Scalar>): seq<byte> {
    if text == [] then [] else Encode(text[0]) + EncodeAll(text[1..])
  }

  // U+0000 to U+001F and U+007F.
  predicate IsControl(c: Scalar) { c < 0x20 || c == 0x7F }

  ghost predicate Acceptable(value: seq<byte>, asciiOnly: bool) {
    && 1 <= |value| <= 4096
    && (exists text: seq<Scalar> :: EncodesPlain(text, value))
    && (asciiOnly ==> forall i :: 0 <= i < |value| ==> value[i] < 0x80)
  }

  ghost predicate EncodesPlain(text: seq<Scalar>, value: seq<byte>) {
    EncodeAll(text) == value && forall i :: 0 <= i < |text| ==> !IsControl(text[i])
  }

  // ----- RFC 3629, section 4: syntax -----

  predicate IsTail(b: byte) { 0x80 <= b <= 0xBF }

  // The length of the UTF8-char that the value starts with, or 0.
  function CharLength(s: seq<byte>): (r: nat)
    ensures r <= |s| && r <= 4
  {
    if |s| >= 1 && s[0] <= 0x7F then 1
    else if |s| >= 2 && 0xC2 <= s[0] <= 0xDF && IsTail(s[1]) then 2
    else if |s| >= 3 && IsTail(s[1]) && IsTail(s[2]) &&
            (|| (s[0] == 0xE0 && s[1] >= 0xA0)
             || 0xE1 <= s[0] <= 0xEC
             || (s[0] == 0xED && s[1] <= 0x9F)
             || 0xEE <= s[0] <= 0xEF) then 3
    else if |s| >= 4 && IsTail(s[1]) && IsTail(s[2]) && IsTail(s[3]) &&
            (|| (s[0] == 0xF0 && s[1] >= 0x90)
             || 0xF1 <= s[0] <= 0xF3
             || (s[0] == 0xF4 && s[1] <= 0x8F)) then 4
    else 0
  }

  function Value2(a: int, b: int): int { (a - 0xC0) * 0x40 + (b - 0x80) }
  function Value3(a: int, b: int, c: int): int { (a - 0xE0) * 0x1000 + (b - 0x80) * 0x40 + (c - 0x80) }
  function Value4(a: int, b: int, c: int, d: int): int {
    (a - 0xF0) * 0x4_0000 + (b - 0x80) * 0x1000 + (c - 0x80) * 0x40 + (d - 0x80)
  }

  // The scalar value of the UTF8-char that s starts with.
  function CharValue(s: seq<byte>): int
    requires CharLength(s) > 0
  {
    match CharLength(s)
    case 1 => s[0]
    case 2 => Value2(s[0], s[1])
    case 3 => Value3(s[0], s[1], s[2])
    case _ => Value4(s[0], s[1], s[2], s[3])
  }

  // The value is a sequence of UTF8-chars without control characters.
  predicate Parses(s: seq<byte>)
    decreases |s|
  {
    s == [] ||
    (CharLength(s) > 0 && CharValue(s) >= 0x20 && CharValue(s) != 0x7F && Parses(s[CharLength(s)..]))
  }

  lemma Digits2(c: nat)
    requires 0x80 <= c < 0x800
    ensures 0xC2 <= 0xC0 + c / 0x40 <= 0xDF && Value2(0xC0 + c / 0x40, 0x80 + c % 0x40) == c
  {
  }

  lemma Digits3(c: nat)
    requires 0x800 <= c < 0x1_0000
    ensures var a, b, d := c / 0x1000, c / 0x40 % 0x40, c % 0x40;
      && a < 16 && c == a * 0x1000 + b * 0x40 + d
      && (a == 0 ==> b >= 0x20) && (a == 13 ==> (b >= 0x20 <==> c >= 0xD800))
  {
    assert c / 0x40 / 0x40 == c / 0x1000;
  }

  lemma Digits4(c: nat)
    requires 0x1_0000 <= c <= 0x10_FFFF
    ensures var a, b, d, e := c / 0x4_0000, c / 0x1000 % 0x40, c / 0x40 % 0x40, c % 0x40;
      && a <= 4 && c == a * 0x4_0000 + b * 0x1000 + d * 0x40 + e
      && (a == 0 ==> b >= 0x10) && (a == 4 ==> b <= 0x0F)
  {
    assert c / 0x40 / 0x40 == c / 0x1000;
    assert c / 0x1000 / 0x40 == c / 0x4_0000;
  }

  lemma EncodingParses3(c: Scalar, s: seq<byte>)
    requires 0x800 <= c < 0x1_0000 && |s| >= 3 && s[..3] == Encode(c)
    ensures CharLength(s) == 3 && CharValue(s) == c
  {
    Digits3(c);
    assert s[0] == s[..3][0] && s[1] == s[..3][1] && s[2] == s[..3][2];
  }

  lemma EncodingParses4(c: Scalar, s: seq<byte>)
    requires 0x1_0000 <= c && |s| >= 4 && s[..4] == Encode(c)
    ensures CharLength(s) == 4 && CharValue(s) == c
  {
    Digits4(c);
    assert s[0] == s[..4][0] && s[1] == s[..4][1] && s[2] == s[..4][2] && s[3] == s[..4][3];
  }

  // Every encoded scalar value is a UTF8-char that reads back as that value, whatever follows it.
  lemma EncodingParses(c: Scalar, rest: seq<byte>)
    ensures CharLength(Encode(c) + rest) == |Encode(c)|
    ensures CharValue(Encode(c) + rest) == c
  {
    var s := Encode(c) + rest;
    assert s[..|Encode(c)|] == Encode(c);
    if 0x80 <= c < 0x800 {
      Digits2(c);
    } else if 0x800 <= c < 0x1_0000 {
      EncodingParses3(c, s);
    } else if c >= 0x1_0000 {
      EncodingParses4(c, s);
    }
  }

  lemma Undigits2(a: nat, b: nat)
    requires 2 <= a < 32 && b < 0x40
    ensures var c := a * 0x40 + b; 0x80 <= c < 0x800 && c / 0x40 == a && c % 0x40 == b
  {
  }

  lemma Undigits3(a: nat, b: nat, d: nat)
    requires a < 16 && b < 0x40 && d < 0x40 && (a == 0 ==> b >= 0x20)
    ensures var c := a * 0x1000 + b * 0x40 + d;
      && 0x800 <= c < 0x1_0000 && c / 0x1000 == a && c / 0x40 % 0x40 == b && c % 0x40 == d
  {
    var c := a * 0x1000 + b * 0x40 + d;
    assert c / 0x40 == a * 0x40 + b;
  }

  lemma Undigits4(a: nat, b: nat, d: nat, e: nat)
    requires a <= 4 && b < 0x40 && d < 0x40 && e < 0x40
    requires a == 0 ==> b >= 0x10
    requires a == 4 ==> b <= 0x0F
    ensures var c := a * 0x4_0000 + b * 0x1000 + d * 0x40 + e;
      && 0x1_0000 <= c <= 0x10_FFFF
      && c / 0x4_0000 == a && c / 0x1000 % 0x40 == b && c / 0x40 % 0x40 == d && c % 0x40 == e
  {
    var c := a * 0x4_0000 + b * 0x1000 + d * 0x40 + e;
    assert c / 0x40 == a * 0x1000 + b * 0x40 + d;
    assert c / 0x1000 == a * 0x40 + b;
  }

  lemma ParsingDecodes2(s: seq<byte>)
    requires CharLength(s) == 2
    ensures 0x80 <= CharValue(s) < 0x800 && Encode(CharValue(s)) == s[..2]
  {
    Undigits2(s[0] - 0xC0, s[1] - 0x80);
  }

  lemma ParsingDecodes3(s: seq<byte>)
    requires CharLength(s) == 3
    ensures 0x800 <= CharValue(s) < 0x1_0000 && !(0xD800 <= CharValue(s) <= 0xDFFF)
    ensures Encode(CharValue(s)) == s[..3]
  {
    Undigits3(s[0] - 0xE0, s[1] - 0x80, s[2] - 0x80);
    assert s[..3] == [s[0], s[1], s[2]];
  }

  lemma ParsingDecodes4(s: seq<byte>)
    requires CharLength(s) == 4
    ensures 0x1_0000 <= CharValue(s) <= 0x10_FFFF
    ensures Encode(CharValue(s)) == s[..4]
  {
    Undigits4(s[0] - 0xF0, s[1] - 0x80, s[2] - 0x80, s[3] - 0x80);
    assert s[..4] == [s[0], s[1], s[2], s[3]];
  }

  // Every UTF8-char is the encoding of the scalar value it reads as.
  lemma ParsingDecodes(s: seq<byte>)
    requires CharLength(s) > 0
    ensures var c := CharValue(s);
      && 0 <= c <= 0x10_FFFF && !(0xD800 <= c <= 0xDFFF)
      && Encode(c) == s[..CharLength(s)]
  {
    var n := CharLength(s);
    if n == 1 {
    } else {
      hide Value2, Value3, Value4;
      if n == 2 {
        ParsingDecodes2(s);
      } else if n == 3 {
        ParsingDecodes3(s);
      } else {
        ParsingDecodes4(s);
      }
    }
  }

  // ----- Both descriptions accept the same values -----

  lemma {:induction false} EncodedTextParses(text: seq<Scalar>)
    requires forall i :: 0 <= i < |text| ==> !IsControl(text[i])
    ensures Parses(EncodeAll(text))
  {
    if text != [] {
      hide Encode, CharLength, CharValue;
      var rest := EncodeAll(text[1..]);
      EncodingParses(text[0], rest);
      EncodedTextParses(text[1..]);
      assert (Encode(text[0]) + rest)[|Encode(text[0])|..] == rest;
    }
  }

  lemma {:induction false} ParsedValueIsEncoded(s: seq<byte>) returns (text: seq<Scalar>)
    requires Parses(s)
    ensures EncodesPlain(text, s)
    decreases |s|
  {
    hide Encode, CharLength, CharValue;
    if s == [] {
      text := [];
    } else {
      ParsingDecodes(s);
      var n := CharLength(s);
      var c: Scalar := CharValue(s);
      var rest := ParsedValueIsEncoded(s[n..]);
      text := [c] + rest;
      assert text[0] == c && text[1..] == rest;
      assert s == s[..n] + s[n..];
    }
  }

  // RFC 3629's encoding (section 3) and its syntax (section 4) describe the same language.
  lemma SyntaxIsEncoding(s: seq<byte>)
    ensures Parses(s) <==> exists text: seq<Scalar> :: EncodesPlain(text, s)
  {
    if Parses(s) {
      var text := ParsedValueIsEncoded(s);
    }
    forall text: seq<Scalar> | EncodesPlain(text, s)
      ensures Parses(s)
    {
      EncodedTextParses(text);
    }
  }

  lemma TextHasBytes(text: seq<Scalar>)
    ensures EncodeAll(text) == [] <==> text == []
  {
    if text != [] {
      assert |EncodeAll(text)| >= |Encode(text[0])|;
    }
  }

  // A value can be read as text in one way only.
  lemma {:induction false} DecodingIsUnique(a: seq<Scalar>, b: seq<Scalar>)
    requires EncodeAll(a) == EncodeAll(b)
    ensures a == b
    decreases |a|
  {
    hide Encode, CharLength, CharValue;
    TextHasBytes(a);
    TextHasBytes(b);
    if a != [] {
      EncodingParses(a[0], EncodeAll(a[1..]));
      EncodingParses(b[0], EncodeAll(b[1..]));
      var n := |Encode(a[0])|;
      assert EncodeAll(a)[n..] == EncodeAll(a[1..]) && EncodeAll(b)[n..] == EncodeAll(b[1..]);
      DecodingIsUnique(a[1..], b[1..]);
      assert a == [a[0]] + a[1..] && b == [b[0]] + b[1..];
    }
  }

  lemma {:induction false} NoControlBytes(s: seq<byte>, i: nat)
    requires Parses(s) && i < |s|
    ensures s[i] >= 0x20
    decreases |s|
  {
    var n := CharLength(s);
    if n <= i {
      NoControlBytes(s[n..], i - n);
    } else if i > 0 {
      assert IsTail(s[i]);
    }
  }

  // ----- The loader's loop -----

  // A mask of the h high bits of a byte, and one of the l low bits.
  lemma SplitByte(b: byte, h: nat, l: nat)
    requires h + l == 8 && Shr(b, l) < Pow2(h)
    ensures OnBits(BitAnd, b, Doubled(Ones(h), l), 32) == Doubled(Shr(b, l), l)
    ensures OnBits(BitAnd, b, Ones(l), 32) == b - Doubled(Shr(b, l), l)
  {
    hide OnBits;
    MiddleMask(b, h, l, 32);
    LowMask(b, l, 32);
    SplitBits(b, l);
    AllBitsLow(Shr(b, l), h);
  }

  lemma Masks3(b: byte)
    ensures And(b, 0xe0) == 0x20 * (b / 0x20) && And(b, 0x1f) == b % 0x20
  {
    hide OnBits;
    assert Ones(1) == 1 && Ones(2) == 3 && Ones(3) == 7 && Ones(4) == 15 && Ones(5) == 31;
    assert Pow2(1) == 2 && Pow2(2) == 4 && Pow2(3) == 8 && Pow2(4) == 16;
    SmallShifts(7);
    SmallShifts(b);
    SmallShifts(b / 0x20);
    SplitByte(b, 3, 5);
  }

  lemma Masks4(b: byte)
    ensures And(b, 0xf0) == 0x10 * (b / 0x10) && And(b, 0x0f) == b % 0x10
  {
    hide OnBits;
    assert Ones(1) == 1 && Ones(2) == 3 && Ones(3) == 7 && Ones(4) == 15 && Ones(5) == 31;
    assert Pow2(1) == 2 && Pow2(2) == 4 && Pow2(3) == 8 && Pow2(4) == 16;
    SmallShifts(15);
    SmallShifts(b);
    SmallShifts(b / 0x10);
    SplitByte(b, 4, 4);
  }

  lemma Masks5(b: byte)
    ensures And(b, 0xf8) == 8 * (b / 8) && And(b, 0x07) == b % 8
  {
    hide OnBits;
    assert Ones(1) == 1 && Ones(2) == 3 && Ones(3) == 7 && Ones(4) == 15 && Ones(5) == 31;
    assert Pow2(1) == 2 && Pow2(2) == 4 && Pow2(3) == 8 && Pow2(4) == 16;
    SmallShifts(31);
    SmallShifts(b);
    SmallShifts(b / 8);
    SplitByte(b, 5, 3);
  }

  lemma Masks2(b: byte)
    ensures And(b, 0xc0) == 0x40 * (b / 0x40) && And(b, 0x3f) == b % 0x40
  {
    hide OnBits;
    assert Ones(1) == 1 && Ones(2) == 3 && Ones(3) == 7 && Ones(4) == 15 && Ones(5) == 31;
    assert Pow2(1) == 2 && Pow2(2) == 4 && Pow2(3) == 8 && Pow2(4) == 16;
    SmallShifts(3);
    SmallShifts(b);
    SmallShifts(b / 0x40);
    SplitByte(b, 2, 6);
  }

  // (codepoint << 6) | bits.
  lemma AppendSixBits(codepoint: Word, bits: Word)
    requires codepoint < 0x8000 && bits < 0x40
    ensures Or(Shl(codepoint, 6), bits) == codepoint * 0x40 + bits
  {
    hide OnBits;
    assert Pow2(3) == 8 && Pow2(6) == 0x40;
    Pow2Values();
    OrOfDisjointBits(codepoint, 6, bits, 32);
  }

  // The bits collected from a lead byte's payload and the tail bytes after it.
  function Collected(payload: nat, tails: seq<byte>): nat {
    if tails == [] then payload
    else Collected(payload, tails[..|tails| - 1]) * 0x40 + tails[|tails| - 1] % 0x40
  }

  ghost predicate AllTails(bytes: seq<byte>) { forall i :: 0 <= i < |bytes| ==> IsTail(bytes[i]) }

  // The loop over the tail bytes; None when one of them is no tail byte.
  method CollectTails(payload: nat, tails: seq<byte>) returns (codepoint: Option<Word>)
    requires payload < 0x20 && |tails| <= 3 && (|tails| == 2 ==> payload < 0x10) && (|tails| == 3 ==> payload < 8)
    ensures codepoint.Some? <==> AllTails(tails)
    ensures codepoint.Some? ==> codepoint.value == Collected(payload, tails)
  {
    var value: Word := payload;
    for offset := 0 to |tails|
      invariant AllTails(tails[..offset])
      invariant value == Collected(payload, tails[..offset])
      invariant offset == 0 ==> value == payload
      invariant offset == 1 ==> value < (payload + 1) * 0x40
      invariant offset == 2 ==> value < (payload + 1) * 0x1000
    {
      var next := tails[offset];
      Masks2(next);
      if And(next, 0xc0) != 0x80 {
        assert !IsTail(tails[offset]);
        return None;
      }
      AppendSixBits(value, next % 0x40);
      value := Or(Shl(value, 6), And(next, 0x3f));
      assert tails[..offset + 1][..offset] == tails[..offset];
    }
    assert tails[..|tails|] == tails;
    return Some(value);
  }

  lemma CollectedValues(payload: nat, tails: seq<byte>)
    requires AllTails(tails)
    ensures |tails| == 1 ==> Collected(payload, tails) == Value2(payload + 0xC0, tails[0])
    ensures |tails| == 2 ==>
      Collected(payload, tails) == Value3(payload + 0xE0, tails[0], tails[1])
    ensures |tails| == 3 ==>
      Collected(payload, tails) == Value4(payload + 0xF0, tails[0], tails[1], tails[2])
  {
    if |tails| == 1 {
      assert tails[..0] == [];
    } else if |tails| == 2 {
      assert tails[..1][..0] == [];
    } else if |tails| == 3 {
      assert tails[..2][..1] == tails[..1];
      assert tails[..1][..0] == [];
    }
  }

  // The range checks that follow the loop.
  predicate InRange(count: nat, codepoint: nat) {
    && !((count == 2 && codepoint < 0x80) || (count == 3 && codepoint < 0x800)
         || (count == 4 && codepoint < 0x1_0000) || codepoint > 0x10_FFFF)
    && !(0xD800 <= codepoint <= 0xDFFF)
  }

  lemma RangeOf2(s: seq<byte>, codepoint: nat)
    requires |s| >= 2 && 0xC0 <= s[0] < 0xE0
    requires IsTail(s[1]) ==> codepoint == Value2(s[0], s[1])
    ensures IsTail(s[1]) && InRange(2, codepoint) <==> CharLength(s) == 2
  {
  }

  lemma RangeOf3(s: seq<byte>, codepoint: nat)
    requires |s| >= 3 && 0xE0 <= s[0] < 0xF0
    requires IsTail(s[1]) && IsTail(s[2]) ==>
      codepoint == Value3(s[0], s[1], s[2])
    ensures IsTail(s[1]) && IsTail(s[2]) && InRange(3, codepoint) <==> CharLength(s) == 3
  {
  }

  lemma RangeOf4(s: seq<byte>, codepoint: nat)
    requires |s| >= 4 && 0xF0 <= s[0] < 0xF8
    requires IsTail(s[1]) && IsTail(s[2]) && IsTail(s[3]) ==>
      codepoint == Value4(s[0], s[1], s[2], s[3])
    ensures IsTail(s[1]) && IsTail(s[2]) && IsTail(s[3]) && InRange(4, codepoint) <==> CharLength(s) == 4
  {
  }

  // The body of the loader's loop for a lead byte above 0x7f: the length of the character, or 0.
  method ScanMultibyte(value: seq<byte>, index: nat) returns (count: nat)
    requires index < |value| && value[index] >= 0x80
    ensures count == CharLength(value[index..])
  {
    hide And, CharLength;
    var s := value[index..];
    var first := value[index];
    Masks3(first);
    Masks4(first);
    Masks5(first);
    var payload: nat;
    if And(first, 0xe0) == 0xc0 {
      count, payload := 2, And(first, 0x1f);
    } else if And(first, 0xf0) == 0xe0 {
      count, payload := 3, And(first, 0x0f);
    } else if And(first, 0xf8) == 0xf0 {
      count, payload := 4, And(first, 0x07);
    } else {
      NoLead(s);
      return 0;
    }
    LeadLength(s, count);
    if index + count > |value| {
      return 0;
    }
    var tails := value[index + 1..index + count];
    var codepoint := CollectTails(payload, tails);
    LengthByRange(s, count, payload, tails);
    if codepoint.None? || !InRange(count, codepoint.value) {
      return 0;
    }
  }

  lemma NoLead(s: seq<byte>)
    requires |s| > 0 && (0x80 <= s[0] < 0xC0 || s[0] >= 0xF8)
    ensures CharLength(s) == 0
  {
  }

  lemma LeadLength(s: seq<byte>, count: nat)
    requires |s| > 0
    requires (count == 2 && 0xC0 <= s[0] < 0xE0) || (count == 3 && 0xE0 <= s[0] < 0xF0)
          || (count == 4 && 0xF0 <= s[0] < 0xF8)
    ensures CharLength(s) == 0 || CharLength(s) == count
    ensures |s| < count ==> CharLength(s) == 0
  {
  }

  lemma LengthByRange(s: seq<byte>, count: nat, payload: nat, tails: seq<byte>)
    requires 2 <= count <= |s| && tails == s[1..count]
    requires (count == 2 && 0xC0 <= s[0] < 0xE0 && payload == s[0] % 0x20)
          || (count == 3 && 0xE0 <= s[0] < 0xF0 && payload == s[0] % 0x10)
          || (count == 4 && 0xF0 <= s[0] < 0xF8 && payload == s[0] % 8)
    ensures AllTails(tails) && InRange(count, Collected(payload, tails)) <==> CharLength(s) == count
  {
    hide CharLength, InRange, Collected, IsTail;
    assert forall i :: 0 <= i < |tails| ==> tails[i] == s[i + 1];
    var codepoint := Collected(payload, tails);
    if AllTails(tails) {
      CollectedValues(payload, tails);
    }
    if count == 2 {
      assert AllTails(tails) <==> IsTail(s[1]) by { TailsOf(tails); }
      RangeOf2(s, codepoint);
    } else if count == 3 {
      assert AllTails(tails) <==> IsTail(s[1]) && IsTail(s[2]) by { TailsOf(tails); }
      RangeOf3(s, codepoint);
    } else {
      assert AllTails(tails) <==> IsTail(s[1]) && IsTail(s[2]) && IsTail(s[3]) by { TailsOf(tails); }
      RangeOf4(s, codepoint);
    }
  }

  lemma TailsOf(tails: seq<byte>)
    ensures |tails| == 1 ==> (AllTails(tails) <==> IsTail(tails[0]))
    ensures |tails| == 2 ==> (AllTails(tails) <==> IsTail(tails[0]) && IsTail(tails[1]))
    ensures |tails| == 3 ==> (AllTails(tails) <==> IsTail(tails[0]) && IsTail(tails[1]) && IsTail(tails[2]))
  {
  }

  method HasForbiddenByte(value: seq<byte>) returns (r: bool)
    ensures r <==> exists i :: 0 <= i < |value| && value[i] in {0, 9, 13, 10}
  {
    for index := 0 to |value|
      invariant forall i :: 0 <= i < index ==> value[i] !in {0, 9, 13, 10}
    {
      if value[index] == 0 || value[index] == 9 || value[index] == 13 || value[index] == 10 {
        return true;
      }
    }
    return false;
  }

  // True exactly for 1 to 4096 bytes that encode scalar values other than control characters, and in
  // ASCII mode only bytes below 0x80.
  method ValidUtf8(value: seq<byte>, asciiOnly: bool) returns (ok: bool)
    ensures ok <==> Acceptable(value, asciiOnly)
  {
    hide EncodesPlain, CharLength, CharValue;
    SyntaxIsEncoding(value);
    var forbidden := HasForbiddenByte(value);
    if |value| == 0 || |value| > 4096 || forbidden {
      if Parses(value) {
        forall i | 0 <= i < |value|
          ensures value[i] >= 0x20
        {
          NoControlBytes(value, i);
        }
      }
      return false;
    }
    var index := 0;
    while index < |value|
      invariant index <= |value|
      invariant Parses(value) <==> Parses(value[index..])
      invariant asciiOnly ==> forall i :: 0 <= i < index ==> value[i] < 0x80
      decreases |value| - index
    {
      ghost var s := value[index..];
      var first := value[index];
      CharCases(s);
      if first < 0x80 {
        if first < 0x20 || first == 0x7f {
          return false;
        }
        assert s[1..] == value[index + 1..];
        index := index + 1;
      } else {
        if asciiOnly {
          return false;
        }
        var count := ScanMultibyte(value, index);
        if count == 0 {
          return false;
        }
        assert s[count..] == value[index + count..];
        index := index + count;
      }
    }
    return true;
  }

  // One step of the syntax, by the first byte.
  lemma CharCases(s: seq<byte>)
    requires |s| > 0
    ensures s[0] < 0x80 ==> CharLength(s) == 1 && CharValue(s) == s[0]
    ensures s[0] >= 0x80 && CharLength(s) > 0 ==> CharValue(s) >= 0x80
  {
    if s[0] >= 0x80 && CharLength(s) > 0 {
      if CharLength(s) == 2 {
        ParsingDecodes2(s);
      } else if CharLength(s) == 3 {
        ParsingDecodes3(s);
      } else {
        ParsingDecodes4(s);
      }
    }
  }
}
