/**
  Exactly which texts the readers of the test manifest accept, and as what: strings as sequences of plain characters
  and escapes, arrays as strings between the commas outside quotes, lines by what is left without their comment.
*/
module ManifestLanguage {
  import opened Prelude
  import opened Strings
  import opened Manifest

  // ----- Blanks -----

  lemma BlanksAre(c: char)
    ensures IsSpace(c) <==> c in {' ', '\t', '\n', 11 as char, 12 as char, '\r'}
  {
  }

  lemma {:induction false} LeftBlanks(s: string) returns (blanks: string)
    ensures AllSpace(blanks) && s == blanks + TrimLeft(s)
    ensures TrimLeft(s) == "" || !IsSpace(TrimLeft(s)[0])
  {
    if s != "" && IsSpace(s[0]) {
      var rest := LeftBlanks(s[1..]);
      blanks := [s[0]] + rest;
    } else {
      blanks := "";
    }
  }

  lemma {:induction false} RightBlanks(s: string) returns (blanks: string)
    ensures AllSpace(blanks) && s == TrimRight(s) + blanks
    ensures TrimRight(s) == "" || !IsSpace(TrimRight(s)[|TrimRight(s)| - 1])
  {
    if s != "" && IsSpace(s[|s| - 1]) {
      var rest := RightBlanks(s[..|s| - 1]);
      blanks := rest + [s[|s| - 1]];
    } else {
      blanks := "";
    }
  }

  // Trimming takes away blanks, and leaves none at the ends.
  lemma TrimmedIsInside(s: string) returns (before: string, after: string)
    ensures AllSpace(before) && AllSpace(after) && s == before + Trimmed(s) + after && IsTrim(Trimmed(s))
  {
    before := LeftBlanks(s);
    after := RightBlanks(TrimLeft(s));
    hide IsSpace, TrimLeft, TrimRight;
    var left := TrimLeft(s);
    assert left == Trimmed(s) + after;
    if Trimmed(s) != "" {
      assert left[0] == Trimmed(s)[0];
    }
  }

  // ----- Strings -----

  // A character spelled by itself, or by one of the five escapes.
  ghost predicate IsPiece(piece: string, c: char) {
    || (piece == [c] && c != '\\')
    || (piece == "\\n" && c == '\n')
    || (piece == "\\r" && c == '\r')
    || (piece == "\\t" && c == '\t')
    || (piece == "\\\"" && c == '"')
    || (piece == "\\\\" && c == '\\')
  }

  ghost predicate Spells(body: string, s: string) {
    if s == "" then body == ""
    else exists piece :: IsPiece(piece, s[0]) && piece <= body && Spells(body[|piece|..], s[1..])
  }

  lemma PieceIsRead(piece: string, c: char, rest: string)
    requires IsPiece(piece, c)
    ensures Unescaped(piece + rest, false) == Cons(c, Unescaped(rest, false))
  {
    if |piece| == 1 {
      assert (piece + rest)[0] == c && (piece + rest)[1..] == rest;
    } else {
      assert (piece + rest)[0] == '\\' && (piece + rest)[1..] == [piece[1]] + rest;
      assert ([piece[1]] + rest)[1..] == rest;
    }
  }

  lemma {:induction false} SpelledIsRead(body: string, s: string)
    requires Spells(body, s)
    ensures Unescaped(body, false) == Some(s)
    decreases |s|
  {
    hide IsPiece;
    if s != "" {
      var piece :| IsPiece(piece, s[0]) && piece <= body && Spells(body[|piece|..], s[1..]);
      hide Unescaped, Spells;
      SpelledIsRead(body[|piece|..], s[1..]);
      PieceIsRead(piece, s[0], body[|piece|..]);
      assert body == piece + body[|piece|..];
      assert s == [s[0]] + s[1..];
    }
  }

  lemma FirstPiece(body: string, s: string) returns (piece: string)
    requires body != "" && Unescaped(body, false) == Some(s)
    ensures s != "" && IsPiece(piece, s[0]) && piece <= body && piece != ""
    ensures Unescaped(body[|piece|..], false) == Some(s[1..])
  {
    if body[0] == '\\' {
      piece := body[..2];
      assert body[1..][1..] == body[2..];
    } else {
      piece := body[..1];
    }
  }

  lemma {:induction false} ReadIsSpelled(body: string, s: string)
    requires Unescaped(body, false) == Some(s)
    ensures Spells(body, s)
    decreases |body|
  {
    if body != "" {
      var piece := FirstPiece(body, s);
      hide Unescaped, IsPiece;
      ReadIsSpelled(body[|piece|..], s[1..]);
    }
  }

  ghost predicate IsStringText(value: string, before: string, body: string, after: string) {
    AllSpace(before) && AllSpace(after) && value == before + ("\"" + body + "\"") + after
  }

  // A text is read as a string exactly when it is, between quotes and perhaps blanks around them, its spelling.
  lemma StringsAreSpelled(value: string, s: string)
    ensures StringOf(value) == Some(s) <==>
      exists before, body, after :: IsStringText(value, before, body, after) && Spells(body, s)
  {
    hide Unescaped, Spells, Trimmed, IsSpace;
    if StringOf(value) == Some(s) {
      var before, after := TrimmedIsInside(value);
      var text := Trimmed(value);
      var body := text[1..|text| - 1];
      assert text == "\"" + body + "\"";
      ReadIsSpelled(body, s);
      assert IsStringText(value, before, body, after);
    }
    forall before, body, after | IsStringText(value, before, body, after) && Spells(body, s)
      ensures StringOf(value) == Some(s)
    {
      var text := "\"" + body + "\"";
      QuoteIsNoBlank();
      TrimmedOf(before, text, after);
      assert text[1..|text| - 1] == body;
      SpelledIsRead(body, s);
    }
  }

  lemma QuoteIsNoBlank()
    ensures !IsSpace('"') && !IsSpace('[') && !IsSpace(']')
  {
  }

  lemma StringIgnoresTrim(value: string)
    ensures StringOf(Trimmed(value)) == StringOf(value)
  {
    hide Unescaped, IsSpace, Trimmed;
    var before, after := TrimmedIsInside(value);
    TrimmedOf("", Trimmed(value), "");
    assert "" + Trimmed(value) + "" == Trimmed(value);
  }

  // ----- Inside or outside quotes -----

  // Inside quotes, and after a backslash there.
  datatype Place = Place(quoted: bool, escaped: bool)

  const OUTSIDE := Place(false, false)

  ghost function Next(p: Place, c: char): Place {
    if p.escaped then Place(p.quoted, false)
    else if p.quoted && c == '\\' then Place(true, true)
    else if c == '"' then Place(!p.quoted, false)
    else p
  }

  ghost function PlaceAfter(s: string): (p: Place)
    ensures p.escaped ==> p.quoted
  {
    if s == "" then OUTSIDE else Next(PlaceAfter(s[..|s| - 1]), s[|s| - 1])
  }

  lemma PlaceNext(s: string, c: char)
    ensures PlaceAfter(s + [c]) == Next(PlaceAfter(s), c)
  {
    assert (s + [c])[..|s|] == s;
  }

  // A character of s that stands outside quotes.
  ghost predicate BareAt(s: string, i: nat, c: char) { i < |s| && s[i] == c && !PlaceAfter(s[..i]).quoted }

  ghost predicate NoneBare(s: string, c: char) { forall i: nat :: !BareAt(s, i, c) }

  // ----- Comments -----

  lemma {:induction false} UncommentedFrom(line: string, i: nat)
    requires i <= |line|
    ensures var p := PlaceAfter(line[..i]);
      var kept := Uncommented(line[i..], p.quoted, p.escaped);
      && kept <= line[i..]
      && (forall j :: i <= j < i + |kept| ==> !BareAt(line, j, '#'))
      && (i + |kept| < |line| ==> BareAt(line, i + |kept|, '#'))
    decreases |line| - i
  {
    var p := PlaceAfter(line[..i]);
    if i < |line| && !(!p.quoted && line[i] == '#') {
      assert line[..i + 1] == line[..i] + [line[i]] && line[i..][1..] == line[i + 1..];
      PlaceNext(line[..i], line[i]);
      UncommentedFrom(line, i + 1);
      hide PlaceAfter;
    }
  }

  // What is left of a line is the text before its first number sign outside quotes.
  lemma CommentsAreCut(line: string)
    ensures var kept := Uncommented(line, false, false);
      && kept <= line
      && (forall j: nat :: j < |kept| ==> !BareAt(line, j, '#'))
      && (|kept| < |line| ==> BareAt(line, |kept|, '#'))
  {
    assert line[..0] == "" && line[0..] == line;
    UncommentedFrom(line, 0);
  }

  // ----- Arrays -----

  // No comma of the segment stands outside quotes, and the segment ends there.
  ghost predicate IsSegment(segment: string) { NoneBare(segment, ',') && !PlaceAfter(segment).quoted }

  // One string for every segment; only the last one may be blank, and then spells none.
  ghost predicate SpellItems(segments: seq<string>, items: seq<string>) {
    && |segments| > 0 && (forall k :: 0 <= k < |segments| ==> IsSegment(segments[k]))
    && |items| == (if Trimmed(segments[|segments| - 1]) == "" then |segments| - 1 else |segments|)
    && forall k :: 0 <= k < |items| ==> StringOf(segments[k]) == Some(items[k])
  }

  ghost function Collecting(rest: string, item: string): Option<seq<string>> {
    Elements(rest, item, PlaceAfter(item).quoted, PlaceAfter(item).escaped)
  }

  lemma OneCharacterMore(c: char, rest: string, item: string)
    requires c == ',' ==> PlaceAfter(item).quoted
    ensures Collecting([c] + rest, item) == Collecting(rest, item + [c])
  {
    hide PlaceAfter;
    assert ([c] + rest)[1..] == rest;
    PlaceNext(item, c);
    ElementsStep([c] + rest, rest, item, PlaceAfter(item).quoted, PlaceAfter(item).escaped);
    hide Elements;
  }

  lemma PrefixHasNoneBare(s: string, i: nat, c: char)
    requires NoneBare(s, c) && i <= |s|
    ensures NoneBare(s[..i], c)
  {
    forall j: nat
      ensures !BareAt(s[..i], j, c)
    {
      if j < i {
        assert s[..i][..j] == s[..j] && !BareAt(s, j, c);
      }
    }
  }

  // Characters are collected up to a comma outside quotes.
  lemma {:induction false} SegmentIsCollected(segment: string, rest: string)
    requires NoneBare(segment, ',')
    ensures Collecting(segment + rest, "") == Collecting(rest, segment)
    decreases |segment|
  {
    hide Collecting, PlaceAfter;
    if segment == "" {
      assert "" + rest == rest;
    } else {
      var before, c := segment[..|segment| - 1], segment[|segment| - 1];
      PrefixHasNoneBare(segment, |segment| - 1, ',');
      assert segment + rest == before + ([c] + rest) && before + [c] == segment;
      SegmentIsCollected(before, [c] + rest);
      assert !BareAt(segment, |segment| - 1, ',');
      OneCharacterMore(c, rest, before);
    }
  }

  // A segment before a comma is one string.
  lemma SegmentBeforeComma(segment: string, rest: string)
    requires IsSegment(segment)
    ensures Elements(segment + [','] + rest, "", false, false)
         == Push(StringOf(segment), Elements(rest, "", false, false))
  {
    assert segment + [','] + rest == segment + ([','] + rest);
    SegmentIsCollected(segment, [','] + rest);
    assert ([','] + rest)[1..] == rest;
    ElementsStep([','] + rest, rest, segment, false, false);
    hide Elements;
  }

  lemma LastSegment(segment: string)
    requires NoneBare(segment, ',')
    ensures Elements(segment, "", false, false) ==
      if PlaceAfter(segment).quoted then None
      else if Trimmed(segment) == "" then Some([])
      else Push(StringOf(segment), Some([]))
  {
    assert segment + "" == segment;
    SegmentIsCollected(segment, "");
    StringIgnoresTrim(segment);
    hide StringOf, Trimmed;
  }

  lemma {:induction false} SpelledItemsAreRead(segments: seq<string>, items: seq<string>)
    requires SpellItems(segments, items)
    ensures Elements(Join(segments, ','), "", false, false) == Some(items)
    decreases |segments|
  {
    hide Elements, Trimmed, StringOf, NoneBare, PlaceAfter;
    var first := segments[0];
    if |segments| == 1 {
      LastSegment(first);
      assert items == [] || items == [items[0]] + [];
    } else {
      var rest := Join(segments[1..], ',');
      SegmentBeforeComma(first, rest);
      assert Join(segments, ',') == first + [','] + rest;
      assert SpellItems(segments[1..], items[1..]);
      SpelledItemsAreRead(segments[1..], items[1..]);
      assert items == [items[0]] + items[1..];
    }
  }

  // The first comma outside quotes, from position i on.
  lemma {:induction false} FirstBare(s: string, c: char, i: nat) returns (at: nat)
    requires i <= |s| && forall j: nat :: j < i ==> !BareAt(s, j, c)
    ensures at <= |s| && NoneBare(s[..at], c) && (at < |s| ==> BareAt(s, at, c))
    decreases |s| - i
  {
    if i == |s| || BareAt(s, i, c) {
      at := i;
      forall j: nat
        ensures !BareAt(s[..at], j, c)
      {
        if j < at {
          assert s[..at][..j] == s[..j] && !BareAt(s, j, c);
        }
      }
    } else {
      at := FirstBare(s, c, i + 1);
    }
  }

  lemma {:induction false} ReadItemsAreSpelled(body: string, items: seq<string>) returns (segments: seq<string>)
    requires Elements(body, "", false, false) == Some(items)
    ensures SpellItems(segments, items) && Join(segments, ',') == body
    decreases |body|
  {
    var at := FirstBare(body, ',', 0);
    var first := body[..at];
    if at == |body| {
      assert first == body;
      LastSegment(body);
      segments := [body];
    } else {
      var rest := body[at + 1..];
      assert body == first + [','] + rest;
      SegmentBeforeComma(first, rest);
      hide Elements, Trimmed, StringOf, NoneBare, PlaceAfter;
      var tail := ReadItemsAreSpelled(rest, items[1..]);
      segments := [first] + tail;
      assert segments[1..] == tail && items == [items[0]] + items[1..];
    }
  }

  ghost predicate IsArrayText(value: string, before: string, segments: seq<string>, after: string) {
    && AllSpace(before) && AllSpace(after) && |segments| > 0
    && value == before + ("[" + Join(segments, ',') + "]") + after
  }

  // A text is read as a list exactly when it is, between brackets and perhaps blanks around them, segments with
  // commas between them, each the text of its string; the last segment may be blank instead.
  lemma ArraysAreSpelled(value: string, items: seq<string>)
    ensures ArrayOf(value) == Some(items) <==>
      exists before, segments, after :: IsArrayText(value, before, segments, after) && SpellItems(segments, items)
  {
    hide Elements, Trimmed, IsSpace, SpellItems;
    if ArrayOf(value) == Some(items) {
      var before, after := TrimmedIsInside(value);
      var text := Trimmed(value);
      var segments := ReadItemsAreSpelled(text[1..|text| - 1], items);
      assert text == "[" + text[1..|text| - 1] + "]";
      assert |segments| > 0 by {
        SomeSegment(segments, items);
      }
      assert IsArrayText(value, before, segments, after);
    }
    forall before, segments, after | IsArrayText(value, before, segments, after) && SpellItems(segments, items)
      ensures ArrayOf(value) == Some(items)
    {
      var text := "[" + Join(segments, ',') + "]";
      QuoteIsNoBlank();
      TrimmedOf(before, text, after);
      assert text[1..|text| - 1] == Join(segments, ',');
      SpelledItemsAreRead(segments, items);
    }
  }

  lemma SomeSegment(segments: seq<string>, items: seq<string>)
    requires SpellItems(segments, items)
    ensures |segments| > 0
  {
  }

  // ----- Lines -----

  // What each line is read as, by what is left of it without comment and blanks.
  lemma LinesAreRead(line: string, inTest: bool)
    ensures var clean, r := Trimmed(Uncommented(line, false, false)), Reading(line, inTest);
      && (r == Skipped <==>
            clean == "" || exists rest: string :: clean == "format" + rest || clean == "suite" + rest)
      && (r == Header <==> clean == "[[test]]")
      && (r == Outside <==> !inTest && r != Skipped && clean != "[[test]]")
      && (r == Malformed <==> inTest && r != Skipped && clean != "[[test]]" && '=' !in clean)
      && (r.Field? ==>
            exists key, value :: clean == key + "=" + value && '=' !in key && r == Field(Trimmed(key), Trimmed(value)))
  {
    hide Uncommented, Trimmed, IndexOf;
    var clean := Trimmed(Uncommented(line, false, false));
    PrefixIsRest("format", clean);
    PrefixIsRest("suite", clean);
    NoWordInHeader();
    FirstEquals(clean);
  }

  lemma FirstEquals(clean: string)
    ensures var equals := IndexOf(clean, '=');
      && ('=' in clean <==> equals < |clean|) && '=' !in clean[..equals]
      && (equals < |clean| ==> clean == clean[..equals] + "=" + clean[equals + 1..])
  {
    hide IndexOf;
    var equals := IndexOf(clean, '=');
    if equals < |clean| {
      assert clean[equals] == '=';
      CutAt(clean, equals);
    } else {
      assert clean[..equals] == clean;
    }
  }

  lemma CutAt(text: string, i: nat)
    requires i < |text| && text[i] == '='
    ensures text == text[..i] + "=" + text[i + 1..]
  {
  }

  lemma PrefixIsRest(word: string, text: string)
    ensures word <= text <==> exists rest :: text == word + rest
  {
    if word <= text {
      assert text == word + text[|word|..];
    }
  }

  lemma NoWordInHeader()
    ensures !("format" <= "[[test]]") && !("suite" <= "[[test]]")
  {
    assert "format"[0] != "[[test]]"[0] && "suite"[0] != "[[test]]"[0];
  }
}
