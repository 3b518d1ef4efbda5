/**
  The 36-byte frames of the telemetry example. The parser's shifts and ors are proved to read little-endian
  numbers, and frames and accepted byte strings to be in bijection.

    0   magic, the four bytes 67 72 84 77
    4   version, two bytes, 1
    6   flags, two bytes, 0
    8   payload size, four bytes, 24
    12  timestamp, eight bytes
    20  sensor, four bytes, signed
    24  value, four bytes, signed
    28  sequence number, eight bytes
*/
module TelemetryFrames {
  import opened Prelude
  import opened Words

  const FRAME_SIZE: nat := 36
  const PAYLOAD_SIZE: nat := 24

  datatype Frame = Frame(timestamp: nat, sensor: int, value: int, sequence: nat)

  predicate WellTyped(f: Frame) {
    && f.timestamp < WORD64 && f.sequence < WORD64
    && -0x8000_0000 <= f.sensor < 0x8000_0000 && -0x8000_0000 <= f.value < 0x8000_0000
  }

  // The number that the bytes spell, lowest byte first.
  function Little(bytes: seq<byte>): nat {
    if bytes == [] then 0 else bytes[0] + 256 * Little(bytes[1..])
  }

  // Its inverse: n in count bytes.
  function LittleBytes(n: nat, count: nat): (r: seq<byte>)
    ensures |r| == count
    decreases count
  {
    if count == 0 then [] else [n % 256] + LittleBytes(n / 256, count - 1)
  }

  lemma Pow2PlusEight(k: nat)
    ensures Pow2(k + 8) == 256 * Pow2(k)
  {
    assert Pow2(k + 2) == 4 * Pow2(k);
    assert Pow2(k + 4) == 4 * Pow2(k + 2);
    assert Pow2(k + 6) == 4 * Pow2(k + 4);
  }

  lemma {:induction false} LittleBelow(bytes: seq<byte>)
    ensures Little(bytes) < Pow2(8 * |bytes|)
  {
    if bytes != [] {
      LittleBelow(bytes[1..]);
      Pow2PlusEight(8 * (|bytes| - 1));
    }
  }

  lemma {:induction false} LittleOfBytes(n: nat, count: nat)
    requires n < Pow2(8 * count)
    ensures Little(LittleBytes(n, count)) == n
    decreases count
  {
    if count > 0 {
      Pow2PlusEight(8 * (count - 1));
      LittleOfBytes(n / 256, count - 1);
      assert LittleBytes(n, count)[1..] == LittleBytes(n / 256, count - 1);
    }
  }

  lemma {:induction false} BytesOfLittle(bytes: seq<byte>)
    ensures LittleBytes(Little(bytes), |bytes|) == bytes
  {
    if bytes != [] {
      BytesOfLittle(bytes[1..]);
    }
  }

  lemma {:induction false} LittleNext(bytes: seq<byte>, b: byte)
    ensures Little(bytes + [b]) == Little(bytes) + b * Pow2(8 * |bytes|)
  {
    if bytes == [] {
      assert bytes + [b] == [b];
    } else {
      assert (bytes + [b])[1..] == bytes[1..] + [b];
      LittleNext(bytes[1..], b);
      Pow2PlusEight(8 * (|bytes| - 1));
      Rescale(b, Pow2(8 * (|bytes| - 1)));
    }
  }

  lemma Rescale(b: nat, p: nat)
    ensures 256 * (b * p) == b * (256 * p)
  {
  }

  lemma {:induction false} OrCommutes(x: nat, y: nat, n: nat)
    ensures OnBits(BitOr, x, y, n) == OnBits(BitOr, y, x, n)
  {
    if n > 0 {
      OrCommutes(x / 2, y / 2, n - 1);
    }
  }

  // low | byte << 8 * i, when the low part has i bytes.
  lemma OrNextByte(bytes: seq<byte>, b: byte, n: nat)
    requires 8 * |bytes| + 8 <= n
    ensures OnBits(BitOr, Little(bytes), b * Pow2(8 * |bytes|), n) == Little(bytes + [b])
  {
    hide Pow2, OnBits, Little;
    var k := 8 * |bytes|;
    LittleBelow(bytes);
    Pow2PlusEight(k);
    PowersGrow(k + 8, n);
    ByteFits(b, Pow2(k));
    OrOfDisjointBits(b, k, Little(bytes), n);
    OrCommutes(Little(bytes), b * Pow2(k), n);
    LittleNext(bytes, b);
  }

  lemma ByteFits(b: byte, p: nat)
    requires p > 0
    ensures b * p < 256 * p
  {
  }

  lemma {:induction false} PowersGrow(j: nat, k: nat)
    requires j <= k
    ensures Pow2(j) <= Pow2(k)
    decreases k
  {
    if j < k {
      PowersGrow(j, k - 1);
    }
  }

  function ReadU16(b: seq<byte>): Word
    requires |b| == 2
  {
    Or(b[0], Shl(b[1], 8))
  }

  function ReadU32(b: seq<byte>): Word
    requires |b| == 4
  {
    Or(Or(Or(b[0], Shl(b[1], 8)), Shl(b[2], 16)), Shl(b[3], 24))
  }

  lemma ShiftedBytes(b: byte)
    ensures Shl(b, 8) == b * Pow2(8) && Shl(b, 16) == b * Pow2(16) && Shl(b, 24) == b * Pow2(24)
  {
    Pow2Values();
    hide Pow2;
  }

  lemma OneByte(b: byte)
    ensures Little([b]) == b
  {
    assert [b][1..] == [];
  }

  lemma U16IsLittle(b: seq<byte>)
    requires |b| == 2
    ensures ReadU16(b) == Little(b)
  {
    hide OnBits, Little, Pow2;
    ShiftedBytes(b[1]);
    OneByte(b[0]);
    OrNextByte([b[0]], b[1], 32);
    assert b == [b[0]] + [b[1]];
  }

  lemma U32IsLittle(b: seq<byte>)
    requires |b| == 4
    ensures ReadU32(b) == Little(b)
  {
    hide OnBits, Little, Pow2;
    ShiftedBytes(b[1]);
    ShiftedBytes(b[2]);
    ShiftedBytes(b[3]);
    OneByte(b[0]);
    OrNextByte([b[0]], b[1], 32);
    OrNextByte([b[0]] + [b[1]], b[2], 32);
    OrNextByte([b[0]] + [b[1]] + [b[2]], b[3], 32);
    assert b == [b[0]] + [b[1]] + [b[2]] + [b[3]];
  }

  method ReadU64(b: seq<byte>) returns (result: nat)
    requires |b| == 8
    ensures result == Little(b)
  {
    hide OnBits, Little, Pow2;
    result := 0;
    assert Little(b[..0]) == 0 by {
      NoBytes();
    }
    for index := 0 to 8
      invariant result == Little(b[..index])
    {
      OrNextByte(b[..index], b[index], 64);
      assert b[..index + 1] == b[..index] + [b[index]];
      result := OnBits(BitOr, result, b[index] * Pow2(index * 8), 64);
    }
    assert b[..8] == b;
  }

  lemma NoBytes()
    ensures Little([]) == 0
  {
  }

  // static_cast<std::int32_t>
  function Signed(w: Word): int { if w < 0x8000_0000 then w else w - WORD32 }

  function Unsigned(v: int): Word
    requires -0x8000_0000 <= v < 0x8000_0000
  {
    if v >= 0 then v else v + WORD32
  }

  lemma SignedInvertsUnsigned(v: int)
    requires -0x8000_0000 <= v < 0x8000_0000
    ensures Signed(Unsigned(v)) == v
  {
  }

  // ---- Frames as bytes ----

  const MAGIC: seq<byte> := [67, 72, 84, 77]

  function Header(): seq<byte> {
    MAGIC + LittleBytes(1, 2) + LittleBytes(0, 2) + LittleBytes(PAYLOAD_SIZE, 4)
  }

  function FrameBytes(f: Frame): (r: seq<byte>)
    requires WellTyped(f)
    ensures |r| == FRAME_SIZE
  {
    Header() + LittleBytes(f.timestamp, 8) + LittleBytes(Unsigned(f.sensor), 4)
      + LittleBytes(Unsigned(f.value), 4) + LittleBytes(f.sequence, 8)
  }

  method ParseFrame(bytes: seq<byte>) returns (r: Option<Frame>)
    requires |bytes| == FRAME_SIZE
    ensures r == Parsed(bytes)
  {
    hide ReadU16, ReadU32, Little, Signed;
    if bytes[0] != 67 || bytes[1] != 72 || bytes[2] != 84 || bytes[3] != 77 {
      return None;
    }
    U16IsLittle(bytes[4..6]);
    if ReadU16(bytes[4..6]) != 1 {
      return None;
    }
    U16IsLittle(bytes[6..8]);
    U32IsLittle(bytes[8..12]);
    if ReadU16(bytes[6..8]) != 0 || ReadU32(bytes[8..12]) != PAYLOAD_SIZE {
      return None;
    }
    var timestamp := ReadU64(bytes[12..20]);
    U32IsLittle(bytes[20..24]);
    var sensor := Signed(ReadU32(bytes[20..24]));
    U32IsLittle(bytes[24..28]);
    var value := Signed(ReadU32(bytes[24..28]));
    var sequence := ReadU64(bytes[28..36]);
    return Some(Frame(timestamp, sensor, value, sequence));
  }

  // What the parser reads, in terms of the numbers that the bytes spell.
  function Parsed(bytes: seq<byte>): Option<Frame>
    requires |bytes| == FRAME_SIZE
  {
    if bytes[0] == 67 && bytes[1] == 72 && bytes[2] == 84 && bytes[3] == 77
       && Little(bytes[4..6]) == 1 && Little(bytes[6..8]) == 0 && Little(bytes[8..12]) == PAYLOAD_SIZE
    then
      LittleIsWord(bytes[20..24]);
      LittleIsWord(bytes[24..28]);
      Some(Frame(Little(bytes[12..20]), Signed(Little(bytes[20..24])), Signed(Little(bytes[24..28])),
                 Little(bytes[28..36])))
    else None
  }

  lemma LittleIsWord(bytes: seq<byte>)
    requires |bytes| == 4
    ensures Little(bytes) < WORD32
  {
    LittleBelow(bytes);
    Pow2Values();
  }

  lemma LittleIsLong(bytes: seq<byte>)
    requires |bytes| == 8
    ensures Little(bytes) < WORD64
  {
    hide Little;
    LittleBelow(bytes);
    LongPower();
  }

  lemma LongPower()
    ensures Pow2(64) == WORD64
  {
    Pow2Values();
    Pow2PlusEight(32);
    Pow2PlusEight(40);
    Pow2PlusEight(48);
    Pow2PlusEight(56);
  }

  lemma ParsedIsWellTyped(bytes: seq<byte>)
    requires |bytes| == FRAME_SIZE && Parsed(bytes).Some?
    ensures WellTyped(Parsed(bytes).value)
  {
    hide Little;
    LittleIsLong(bytes[12..20]);
    LittleIsLong(bytes[28..36]);
    LittleIsWord(bytes[20..24]);
    LittleIsWord(bytes[24..28]);
  }

  lemma RenderedHeader(bytes: seq<byte>)
    requires |bytes| == 12
    ensures bytes == Header() <==>
      && bytes[0] == 67 && bytes[1] == 72 && bytes[2] == 84 && bytes[3] == 77
      && Little(bytes[4..6]) == 1 && Little(bytes[6..8]) == 0 && Little(bytes[8..12]) == PAYLOAD_SIZE
  {
    Pow2Values();
    hide Little, LittleBytes, Pow2;
    LittleOfBytes(1, 2);
    LittleOfBytes(0, 2);
    LittleOfBytes(PAYLOAD_SIZE, 4);
    BytesOfLittle(bytes[4..6]);
    BytesOfLittle(bytes[6..8]);
    BytesOfLittle(bytes[8..12]);
    var h := Header();
    assert h[..4] == MAGIC && h[4..6] == LittleBytes(1, 2) && h[6..8] == LittleBytes(0, 2)
      && h[8..12] == LittleBytes(PAYLOAD_SIZE, 4);
    assert bytes == bytes[..4] + bytes[4..6] + bytes[6..8] + bytes[8..12];
  }

  // The fields of a rendered frame lie where the parser reads them.
  lemma RenderedFields(f: Frame)
    requires WellTyped(f)
    ensures var b := FrameBytes(f);
      && b[..12] == Header()
      && Little(b[12..20]) == f.timestamp && Little(b[20..24]) == Unsigned(f.sensor)
      && Little(b[24..28]) == Unsigned(f.value) && Little(b[28..36]) == f.sequence
  {
    Pow2Values();
    LongPower();
    hide Little, LittleBytes, Pow2, Header, Unsigned;
    LittleOfBytes(f.timestamp, 8);
    LittleOfBytes(Unsigned(f.sensor), 4);
    LittleOfBytes(Unsigned(f.value), 4);
    LittleOfBytes(f.sequence, 8);
    var b := FrameBytes(f);
    HeaderSize();
    assert b[..12] == Header() && b[12..20] == LittleBytes(f.timestamp, 8);
    assert b[20..24] == LittleBytes(Unsigned(f.sensor), 4) && b[24..28] == LittleBytes(Unsigned(f.value), 4);
    assert b[28..36] == LittleBytes(f.sequence, 8);
  }

  lemma HeaderSize()
    ensures |Header()| == 12
  {
  }

  lemma Slices(bytes: seq<byte>)
    requires |bytes| == FRAME_SIZE
    ensures bytes == bytes[..12] + bytes[12..20] + bytes[20..24] + bytes[24..28] + bytes[28..36]
    ensures bytes[..12][4..6] == bytes[4..6] && bytes[..12][6..8] == bytes[6..8]
    ensures bytes[..12][8..12] == bytes[8..12]
  {
  }

  lemma ParsedHeader(bytes: seq<byte>)
    requires |bytes| == FRAME_SIZE
    ensures Parsed(bytes).Some? <==> bytes[..12] == Header()
  {
    hide Little, Header, Signed;
    Slices(bytes);
    RenderedHeader(bytes[..12]);
  }

  lemma ParsedFields(bytes: seq<byte>)
    requires |bytes| == FRAME_SIZE && Parsed(bytes).Some?
    ensures var f := Parsed(bytes).value;
      && Little(bytes[12..20]) == f.timestamp && Little(bytes[28..36]) == f.sequence
      && WellTyped(f) && Little(bytes[20..24]) == Unsigned(f.sensor) && Little(bytes[24..28]) == Unsigned(f.value)
  {
    hide Little;
    ParsedIsWellTyped(bytes);
    LittleIsWord(bytes[20..24]);
    LittleIsWord(bytes[24..28]);
  }

  // What is rendered is parsed.
  lemma RenderedIsParsed(f: Frame)
    requires WellTyped(f)
    ensures Parsed(FrameBytes(f)) == Some(f)
  {
    var b := FrameBytes(f);
    RenderedFields(f);
    ParsedHeader(b);
    hide Little, Header, FrameBytes;
    LittleIsWord(b[20..24]);
    LittleIsWord(b[24..28]);
    SignedInvertsUnsigned(f.sensor);
    SignedInvertsUnsigned(f.value);
    hide Signed, Unsigned;
  }

  // What is parsed is the rendering.
  lemma ParsedIsRendered(bytes: seq<byte>)
    requires |bytes| == FRAME_SIZE && Parsed(bytes).Some?
    ensures WellTyped(Parsed(bytes).value) && FrameBytes(Parsed(bytes).value) == bytes
  {
    ParsedHeader(bytes);
    ParsedFields(bytes);
    hide Little, LittleBytes, Header, Parsed, Unsigned;
    Slices(bytes);
    BytesOfLittle(bytes[12..20]);
    BytesOfLittle(bytes[20..24]);
    BytesOfLittle(bytes[24..28]);
    BytesOfLittle(bytes[28..36]);
  }

  // A frame is parsed from exactly one byte string: the parser inverts the rendering and accepts nothing else.
  lemma ParsingInvertsRendering(bytes: seq<byte>, f: Frame)
    requires |bytes| == FRAME_SIZE && WellTyped(f)
    ensures Parsed(bytes) == Some(f) <==> bytes == FrameBytes(f)
  {
    hide Parsed, FrameBytes;
    RenderedIsParsed(f);
    if Parsed(bytes).Some? {
      ParsedIsRendered(bytes);
    }
  }
}
