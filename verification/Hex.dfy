// Lower-case hexadecimal text, as ASCII bytes.
module Hex {
  import opened Prelude

  // `b >> 4` and `b & 15` are b / 16 and b % 16.

  // The character of "0123456789abcdef" at index n.
  function HexDigit(n: byte): (r: byte)
    requires n < 16
  {
    if n < 10 then n + 48 else n + 87
  }

  lemma DigitCharacters(n: byte)
    requires n < 16
    ensures HexDigit(n) as char == "0123456789abcdef"[n]
  {
  }

  // The value std::from_chars gives a base-16 digit.
  function DigitValue(c: byte): (r: Option<byte>)
    ensures r.Some? ==> r.value < 16
  {
    if 48 <= c <= 57 then Some(c - 48)
    else if 97 <= c <= 102 then Some(c - 87)
    else if 65 <= c <= 70 then Some(c - 55)
    else None
  }

  lemma DigitValues(c: byte, v: byte)
    requires v < 16
    ensures DigitValue(c) == Some(v) <==> c as char == "0123456789abcdef"[v] || c as char == "0123456789ABCDEF"[v]
  {
  }

  function HexByte(b: byte): (r: seq<byte>)
    ensures |r| == 2
  {
    [HexDigit(b / 16), HexDigit(b % 16)]
  }

  function Hex(bytes: seq<byte>): (r: seq<byte>)
    ensures |r| == 2 * |bytes|
  {
    if bytes == [] then [] else HexByte(bytes[0]) + Hex(bytes[1..])
  }

  lemma DigitRoundTrip(n: byte)
    requires n < 16
    ensures DigitValue(HexDigit(n)) == Some(n)
    ensures HexDigit(n) != 10
  {
  }

  // The value of two digits: what from_chars stores for them.
  function PairValue(high: byte, low: byte): Option<byte> {
    match (DigitValue(high), DigitValue(low))
    case (Some(h), Some(l)) => Some(16 * h + l)
    case _ => None
  }

  lemma ByteRoundTrip(b: byte)
    ensures PairValue(HexByte(b)[0], HexByte(b)[1]) == Some(b)
  {
    DigitRoundTrip(b / 16);
    DigitRoundTrip(b % 16);
  }

  lemma {:induction false} HexAt(bytes: seq<byte>, i: nat)
    requires i < |bytes|
    ensures Hex(bytes)[2 * i..2 * i + 2] == HexByte(bytes[i])
    ensures Hex(bytes)[2 * i] == HexByte(bytes[i])[0] && Hex(bytes)[2 * i + 1] == HexByte(bytes[i])[1]
  {
    if i > 0 {
      HexAt(bytes[1..], i - 1);
      assert Hex(bytes)[2..] == Hex(bytes[1..]);
    }
  }

  lemma {:induction false} HexConcat(a: seq<byte>, b: seq<byte>)
    ensures Hex(a + b) == Hex(a) + Hex(b)
  {
    hide HexByte;
    if a == [] {
      assert a + b == b;
    } else {
      HexConcat(a[1..], b);
      assert (a + b)[0] == a[0] && (a + b)[1..] == a[1..] + b;
      Regroup(HexByte(a[0]), Hex(a[1..]), Hex(b));
    }
  }

  lemma {:induction false} HexIsInjective(a: seq<byte>, b: seq<byte>)
    requires |a| == |b| && Hex(a) == Hex(b)
    ensures a == b
  {
    forall i | 0 <= i < |a|
      ensures a[i] == b[i]
    {
      HexAt(a, i);
      HexAt(b, i);
      ByteRoundTrip(a[i]);
      ByteRoundTrip(b[i]);
    }
  }

  // Hexadecimal text holds no newline.
  lemma {:induction false} HexHasNoNewline(bytes: seq<byte>)
    ensures 10 !in Hex(bytes)
  {
    if bytes != [] {
      DigitRoundTrip(bytes[0] / 16);
      DigitRoundTrip(bytes[0] % 16);
      HexHasNoNewline(bytes[1..]);
    }
  }

  // The loop of the loader's `hex`, which overwrites a string of zeros.
  method WriteHex(bytes: seq<byte>) returns (text: seq<byte>)
    ensures text == Hex(bytes)
  {
    text := seq(2 * |bytes|, _ => 48);
    for index := 0 to |bytes|
      invariant |text| == 2 * |bytes|
      invariant forall k :: 0 <= k < index ==>
        text[2 * k] == HexByte(bytes[k])[0] && text[2 * k + 1] == HexByte(bytes[k])[1]
    {
      text := text[2 * index := HexDigit(bytes[index] / 16)];
      text := text[2 * index + 1 := HexDigit(bytes[index] % 16)];
    }
    forall j | 0 <= j < |text|
      ensures text[j] == Hex(bytes)[j]
    {
      HexAt(bytes, j / 2);
    }
  }

  // The loop of the loader's `digestBytes` over the 64 digits of a digest.
  method ReadHex(text: seq<byte>, ghost bytes: seq<byte>) returns (result: seq<byte>)
    requires |bytes| == 32 && text == Hex(bytes)
    ensures result == bytes
  {
    result := seq(32, _ => 0);
    for index := 0 to 32
      invariant |result| == 32 && result[..index] == bytes[..index]
    {
      HexAt(bytes, index);
      ByteRoundTrip(bytes[index]);
      var value := PairValue(text[2 * index], text[2 * index + 1]);
      result := result[index := if value.Some? then value.value else 0];
      assert bytes[..index + 1] == bytes[..index] + [bytes[index]];
    }
    assert result[..32] == result && bytes[..32] == bytes;
  }
}
