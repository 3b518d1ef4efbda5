/**
  The line format of test manifests: comments, strings with five escapes and arrays of strings, read by
  character loops. What the loops compute is proved to invert the obvious rendering.
*/
module Manifest {
  import opened Prelude

  // isspace in the C locale.
  predicate IsSpace(c: char) { c == ' ' || 9 <= c as int <= 13 }

  predicate AllSpace(s: string) { forall i :: 0 <= i < |s| ==> IsSpace(s[i]) }

  // ---- Trimming ----

  function TrimLeft(s: string): string {
    if s != "" && IsSpace(s[0]) then TrimLeft(s[1..]) else s
  }

  function TrimRight(s: string): string {
    if s != "" && IsSpace(s[|s| - 1]) then TrimRight(s[..|s| - 1]) else s
  }

  function Trimmed(s: string): string { TrimRight(TrimLeft(s)) }

  predicate IsTrim(s: string) { s == "" || (!IsSpace(s[0]) && !IsSpace(s[|s| - 1])) }

  lemma {:induction false} TrimLeftOf(blanks: string, s: string)
    requires AllSpace(blanks) && (s == "" || !IsSpace(s[0]))
    ensures TrimLeft(blanks + s) == s
  {
    if blanks == "" {
      assert blanks + s == s;
    } else {
      assert (blanks + s)[1..] == blanks[1..] + s;
      TrimLeftOf(blanks[1..], s);
    }
  }

  lemma {:induction false} TrimRightOf(s: string, blanks: string)
    requires AllSpace(blanks) && (s == "" || !IsSpace(s[|s| - 1]))
    ensures TrimRight(s + blanks) == s
  {
    if blanks == "" {
      assert s + blanks == s;
    } else {
      assert (s + blanks)[..|s + blanks| - 1] == s + blanks[..|blanks| - 1];
      TrimRightOf(s, blanks[..|blanks| - 1]);
    }
  }

  // Blanks around a text that has none at its ends are all that is trimmed.
  lemma TrimmedOf(before: string, s: string, after: string)
    requires AllSpace(before) && AllSpace(after) && IsTrim(s)
    ensures Trimmed(before + s + after) == s
  {
    if s == "" {
      assert before + s + after == before + after + "";
      TrimLeftOf(before + after, "");
    } else {
      assert before + s + after == before + (s + after);
      TrimLeftOf(before, s + after);
      TrimRightOf(s, after);
    }
  }

  method Trim(value: string) returns (r: string)
    ensures r == Trimmed(value)
  {
    var begin := 0;
    assert value[0..] == value;
    while begin < |value| && IsSpace(value[begin])
      invariant begin <= |value|
      invariant TrimLeft(value[begin..]) == TrimLeft(value)
    {
      assert value[begin..][1..] == value[begin + 1..];
      begin := begin + 1;
    }
    var end := |value|;
    ghost var kept := value[begin..];
    assert kept == TrimLeft(value) && value[begin..end] == kept;
    while end > begin && IsSpace(value[end - 1])
      invariant begin <= end <= |value|
      invariant TrimRight(value[begin..end]) == TrimRight(kept)
    {
      assert value[begin..end][..end - begin - 1] == value[begin..end - 1];
      end := end - 1;
    }
    return value[begin..end];
  }

  // ---- Comments ----

  // The text before the first # outside quotes.
  function Uncommented(line: string, quoted: bool, escaped: bool): string {
    if line == "" then ""
    else
      var ch, rest := line[0], line[1..];
      if escaped then [ch] + Uncommented(rest, quoted, false)
      else if quoted && ch == '\\' then [ch] + Uncommented(rest, quoted, true)
      else if ch == '"' then [ch] + Uncommented(rest, !quoted, false)
      else if !quoted && ch == '#' then ""
      else [ch] + Uncommented(rest, quoted, false)
  }

  method StripComment(line: string) returns (r: string)
    ensures r == Uncommented(line, false, false)
  {
    var quoted, escaped := false, false;
    assert line[0..] == line && "" + Uncommented(line, false, false) == Uncommented(line, false, false);
    for i := 0 to |line|
      invariant line[..i] + Uncommented(line[i..], quoted, escaped) == Uncommented(line, false, false)
    {
      var ch := line[i];
      ghost var rest := line[i + 1..];
      assert line[i..][1..] == rest;
      assert forall t: string :: line[..i + 1] + t == line[..i] + ([ch] + t);
      if escaped {
        escaped := false;
        continue;
      }
      if quoted && ch == '\\' {
        escaped := true;
        continue;
      }
      if ch == '"' {
        quoted := !quoted;
        continue;
      }
      if !quoted && ch == '#' {
        assert line[..i] + "" == line[..i];
        return line[..i];
      }
    }
    assert line[|line|..] == "" && line[..|line|] == line && line + "" == line;
    return line;
  }

  // ---- Strings ----

  function Meaning(escape: char): Option<char> {
    match escape
    case 'n' => Some('\n')
    case 'r' => Some('\r')
    case 't' => Some('\t')
    case '"' => Some('"')
    case '\\' => Some('\\')
    case _ => None
  }

  function Cons(c: char, rest: Option<string>): Option<string> {
    if rest.Some? then Some([c] + rest.value) else None
  }

  // What the text between the quotes spells.
  function Unescaped(body: string, escaped: bool): Option<string> {
    if body == "" then (if escaped then None else Some(""))
    else if escaped then
      if Meaning(body[0]).Some? then Cons(Meaning(body[0]).value, Unescaped(body[1..], false)) else None
    else if body[0] == '\\' then Unescaped(body[1..], true)
    else Cons(body[0], Unescaped(body[1..], false))
  }

  function StringOf(value: string): Option<string> {
    var text := Trimmed(value);
    if |text| < 2 || text[0] != '"' || text[|text| - 1] != '"' then None
    else Unescaped(text[1..|text| - 1], false)
  }

  function After(out: string, rest: Option<string>): Option<string> {
    if rest.Some? then Some(out + rest.value) else None
  }

  lemma AfterCons(out: string, c: char, rest: Option<string>)
    ensures After(out + [c], rest) == After(out, Cons(c, rest))
  {
    if rest.Some? {
      assert out + [c] + rest.value == out + ([c] + rest.value);
    }
  }

  lemma AfterNothing(rest: Option<string>)
    ensures After("", rest) == rest
  {
    if rest.Some? {
      assert "" + rest.value == rest.value;
    }
  }

  method ParseString(value: string) returns (r: Option<string>)
    ensures r == StringOf(value)
  {
    hide Trimmed, Meaning;
    var text := Trim(value);
    if |text| < 2 || text[0] != '"' || text[|text| - 1] != '"' {
      return None;
    }
    var out, escaped := "", false;
    ghost var body := text[1..|text| - 1];
    AfterNothing(Unescaped(body, false));
    for i := 1 to |text| - 1
      invariant After(out, Unescaped(text[i..|text| - 1], escaped)) == Unescaped(body, false)
    {
      var ch := text[i];
      ghost var rest := text[i + 1..|text| - 1];
      assert text[i..|text| - 1][1..] == rest;
      if escaped {
        var meaning := Meaning(ch);
        if meaning.None? {
          return None;
        }
        AfterCons(out, meaning.value, Unescaped(rest, false));
        out := out + [meaning.value];
        escaped := false;
      } else if ch == '\\' {
        escaped := true;
      } else {
        AfterCons(out, ch, Unescaped(rest, false));
        out := out + [ch];
      }
    }
    assert text[|text| - 1..|text| - 1] == "";
    if escaped {
      return None;
    }
    assert out + "" == out;
    return Some(out);
  }

  // ---- Arrays ----

  function Push(head: Option<string>, rest: Option<seq<string>>): Option<seq<string>> {
    if head.Some? && rest.Some? then Some([head.value] + rest.value) else None
  }

  // The strings spelled by the rest of an array body, when this much of an item has been read.
  function Elements(body: string, item: string, quoted: bool, escaped: bool): Option<seq<string>> {
    if body == "" then
      var last := Trimmed(item);
      if last == "" then (if quoted || escaped then None else Some([]))
      else Push(StringOf(last), if quoted || escaped then None else Some([]))
    else
      var ch, rest := body[0], body[1..];
      if escaped then Elements(rest, item + [ch], quoted, false)
      else if quoted && ch == '\\' then Elements(rest, item + [ch], quoted, true)
      else if ch == '"' then Elements(rest, item + [ch], !quoted, false)
      else if !quoted && ch == ',' then Push(StringOf(item), Elements(rest, "", false, false))
      else Elements(rest, item + [ch], quoted, false)
  }

  function ArrayOf(value: string): Option<seq<string>> {
    var text := Trimmed(value);
    if |text| < 2 || text[0] != '[' || text[|text| - 1] != ']' then None
    else Elements(text[1..|text| - 1], "", false, false)
  }

  function Following(out: seq<string>, rest: Option<seq<string>>): Option<seq<string>> {
    if rest.Some? then Some(out + rest.value) else None
  }

  lemma FollowingPush(out: seq<string>, item: string, rest: Option<seq<string>>)
    ensures Following(out + [item], rest) == Following(out, Push(Some(item), rest))
  {
    if rest.Some? {
      assert out + [item] + rest.value == out + ([item] + rest.value);
    }
  }

  lemma FollowingNothing(rest: Option<seq<string>>)
    ensures Following([], rest) == rest
  {
    if rest.Some? {
      assert [] + rest.value == rest.value;
    }
  }

  method ParseArray(value: string) returns (r: Option<seq<string>>)
    ensures r == ArrayOf(value)
  {
    hide Trimmed, StringOf;
    var text := Trim(value);
    if |text| < 2 || text[0] != '[' || text[|text| - 1] != ']' {
      return None;
    }
    var out: seq<string> := [];
    var item, quoted, escaped := "", false, false;
    ghost var body := text[1..|text| - 1];
    FollowingNothing(Elements(body, "", false, false));
    for i := 1 to |text| - 1
      invariant Following(out, Elements(text[i..|text| - 1], item, quoted, escaped))
             == Elements(body, "", false, false)
    {
      hide Following;
      var ch := text[i];
      ghost var rest := text[i + 1..|text| - 1];
      ElementsStep(text[i..|text| - 1], rest, item, quoted, escaped);
      if escaped {
        item, escaped := item + [ch], false;
        continue;
      }
      if quoted && ch == '\\' {
        item, escaped := item + [ch], true;
        continue;
      }
      if ch == '"' {
        quoted := !quoted;
        item := item + [ch];
        continue;
      }
      if !quoted && ch == ',' {
        var parsed := ParseString(item);
        if parsed.None? {
          NothingFollows(out);
          return None;
        }
        FollowingPush(out, parsed.value, Elements(rest, "", false, false));
        out, item := out + [parsed.value], "";
        continue;
      }
      item := item + [ch];
    }
    assert text[|text| - 1..|text| - 1] == "";
    item := Trim(item);
    if item != "" {
      var parsed := ParseString(item);
      if parsed.None? {
        return None;
      }
      FollowingPush(out, parsed.value, if quoted || escaped then None else Some([]));
      out := out + [parsed.value];
    }
    assert out + [] == out;
    if quoted || escaped {
      return None;
    }
    return Some(out);
  }

  lemma ElementsStep(body: string, rest: string, item: string, quoted: bool, escaped: bool)
    requires body != "" && body[1..] == rest
    ensures var ch := body[0];
      Elements(body, item, quoted, escaped) ==
        if escaped then Elements(rest, item + [ch], quoted, false)
        else if quoted && ch == '\\' then Elements(rest, item + [ch], quoted, true)
        else if ch == '"' then Elements(rest, item + [ch], !quoted, false)
        else if !quoted && ch == ',' then Push(StringOf(item), Elements(rest, "", false, false))
        else Elements(rest, item + [ch], quoted, false)
  {
  }

  lemma NothingFollows(out: seq<string>)
    ensures Following(out, None) == None
  {
  }

  // ---- Rendering ----

  function EscapeOf(c: char): string {
    match c
    case '\n' => "\\n"
    case '\r' => "\\r"
    case '\t' => "\\t"
    case '"' => "\\\""
    case '\\' => "\\\\"
    case _ => [c]
  }

  function Escaped(s: string): string { if s == "" then "" else EscapeOf(s[0]) + Escaped(s[1..]) }

  function Quoted(s: string): string { "\"" + Escaped(s) + "\"" }

  function Body(items: seq<string>): string {
    if items == [] then ""
    else if |items| == 1 then Quoted(items[0])
    else Quoted(items[0]) + (", " + Body(items[1..]))
  }

  function RenderedArray(items: seq<string>): string { "[" + Body(items) + "]" }

  // ---- Strings come back ----

  lemma EscapeIsRead(c: char, t: string)
    ensures Unescaped(EscapeOf(c) + t, false) == Cons(c, Unescaped(t, false))
  {
    var e := EscapeOf(c);
    assert |e| == 1 ==> e[0] == c && (e + t)[1..] == t;
    assert |e| == 2 ==> (e + t)[1..][1..] == t && (e + t)[1..][0] == e[1];
  }

  lemma {:induction false} EscapedIsRead(s: string)
    ensures Unescaped(Escaped(s), false) == Some(s)
  {
    hide Unescaped, EscapeOf;
    if s == "" {
      NothingIsRead();
    } else {
      EscapeIsRead(s[0], Escaped(s[1..]));
      EscapedIsRead(s[1..]);
      assert [s[0]] + s[1..] == s;
    }
  }

  lemma NothingIsRead()
    ensures Unescaped("", false) == Some("")
  {
  }

  lemma QuotedIsTrim(s: string)
    ensures IsTrim(Quoted(s)) && |Quoted(s)| >= 2
  {
  }

  lemma StringOfQuoted(before: string, s: string, after: string)
    requires AllSpace(before) && AllSpace(after)
    ensures StringOf(before + Quoted(s) + after) == Some(s)
  {
    hide Unescaped, Escaped, Trimmed, IsSpace;
    QuotedIsTrim(s);
    TrimmedOf(before, Quoted(s), after);
    assert Quoted(s)[1..|Quoted(s)| - 1] == Escaped(s);
    EscapedIsRead(s);
  }

  // ---- Comments do not cut quoted text ----

  lemma EscapeIsKept(c: char, t: string)
    ensures Uncommented(EscapeOf(c) + t, true, false) == EscapeOf(c) + Uncommented(t, true, false)
  {
    var e := EscapeOf(c);
    assert |e| == 1 ==> (e + t)[1..] == t && (e + t)[0] == e[0] && e == [c] && c != '"' && c != '\\';
    assert |e| == 2 ==> e[0] == '\\' && (e + t)[0] == e[0] && (e + t)[1..] == [e[1]] + t;
    if |e| == 2 {
      var u := [e[1]] + t;
      assert u[1..] == t;
      assert Uncommented(u, true, true) == [e[1]] + Uncommented(t, true, false);
      assert e == [e[0]] + [e[1]];
      Join3([e[0]], [e[1]], Uncommented(t, true, false));
    }
  }

  lemma Join3(a: string, b: string, c: string)
    ensures a + (b + c) == a + b + c
  {
  }

  lemma {:induction false} EscapedIsKept(s: string, tail: string)
    ensures Uncommented(Escaped(s) + tail, true, false) == Escaped(s) + Uncommented(tail, true, false)
  {
    hide Uncommented, EscapeOf;
    if s == "" {
      assert "" + tail == tail && "" + Uncommented(tail, true, false) == Uncommented(tail, true, false);
    } else {
      var t := Escaped(s[1..]);
      Join3(EscapeOf(s[0]), t, tail);
      EscapeIsKept(s[0], t + tail);
      EscapedIsKept(s[1..], tail);
      Join3(EscapeOf(s[0]), t, Uncommented(tail, true, false));
    }
  }

  // A quote changes whether the text is quoted and nothing else.
  lemma QuoteIsKept(quoted: bool, t: string)
    ensures Uncommented("\"" + t, quoted, false) == "\"" + Uncommented(t, !quoted, false)
  {
    assert ("\"" + t)[1..] == t;
  }

  // Text that a comment scan passes over.
  ghost predicate Kept(text: string) {
    forall tail :: Uncommented(text + tail, false, false) == text + Uncommented(tail, false, false)
  }

  lemma QuotedIsKept(s: string)
    ensures Kept(Quoted(s))
  {
    hide Uncommented, Escaped;
    forall tail ensures Uncommented(Quoted(s) + tail, false, false) == Quoted(s) + Uncommented(tail, false, false) {
      var e, q := Escaped(s), "\"";
      assert Quoted(s) + tail == q + (e + (q + tail));
      QuoteIsKept(false, e + (q + tail));
      EscapedIsKept(s, q + tail);
      QuoteIsKept(true, tail);
      assert q + (e + (q + Uncommented(tail, false, false))) == Quoted(s) + Uncommented(tail, false, false);
    }
  }

  lemma {:induction false} PlainIsKept(text: string)
    requires '#' !in text && '"' !in text
    ensures Kept(text)
  {
    forall tail ensures Uncommented(text + tail, false, false) == text + Uncommented(tail, false, false) {
      PlainPasses(text, tail);
    }
  }

  lemma {:induction false} PlainPasses(text: string, tail: string)
    requires '#' !in text && '"' !in text
    ensures Uncommented(text + tail, false, false) == text + Uncommented(tail, false, false)
  {
    if text == "" {
      assert "" + tail == tail && "" + Uncommented(tail, false, false) == Uncommented(tail, false, false);
    } else {
      PlainPasses(text[1..], tail);
      assert (text + tail)[1..] == text[1..] + tail;
      Join3([text[0]], text[1..], Uncommented(tail, false, false));
      assert [text[0]] + text[1..] == text;
    }
  }

  lemma KeptTogether(a: string, b: string)
    requires Kept(a) && Kept(b)
    ensures Kept(a + b)
  {
    hide Uncommented;
    forall tail ensures Uncommented(a + b + tail, false, false) == a + b + Uncommented(tail, false, false) {
      Join3(a, b, tail);
      Join3(a, b, Uncommented(tail, false, false));
    }
  }

  lemma {:induction false} BodyIsKept(items: seq<string>)
    ensures Kept(Body(items))
  {
    hide Kept, Quoted;
    if items == [] {
      PlainIsKept("");
    } else if |items| == 1 {
      QuotedIsKept(items[0]);
    } else {
      QuotedIsKept(items[0]);
      PlainIsKept(", ");
      BodyIsKept(items[1..]);
      KeptTogether(", ", Body(items[1..]));
      KeptTogether(Quoted(items[0]), ", " + Body(items[1..]));
    }
  }

  lemma ArrayIsKept(items: seq<string>)
    ensures Kept(RenderedArray(items))
  {
    hide Kept, Body;
    BodyIsKept(items);
    PlainIsKept("[");
    PlainIsKept("]");
    KeptTogether("[", Body(items));
    KeptTogether("[" + Body(items), "]");
  }

  // ---- Arrays come back ----

  lemma EscapeIsCollected(c: char, t: string, item: string)
    ensures Elements(EscapeOf(c) + t, item, true, false) == Elements(t, item + EscapeOf(c), true, false)
  {
    hide Trimmed, StringOf;
    var e := EscapeOf(c);
    if |e| == 1 {
      assert (e + t)[1..] == t && (e + t)[0] == c && e == [c];
      ElementsStep(e + t, t, item, true, false);
    } else {
      var u := [e[1]] + t;
      assert e[0] == '\\' && (e + t)[0] == e[0] && (e + t)[1..] == u && u[1..] == t;
      ElementsStep(e + t, u, item, true, false);
      ElementsStep(u, t, item + [e[0]], true, true);
      assert item + [e[0]] + [e[1]] == item + e;
    }
  }

  lemma {:induction false} EscapedIsCollected(s: string, t: string, item: string)
    ensures Elements(Escaped(s) + t, item, true, false) == Elements(t, item + Escaped(s), true, false)
    decreases |s|
  {
    hide Elements, EscapeOf;
    if s == "" {
      assert "" + t == t && item + "" == item;
    } else {
      var rest := Escaped(s[1..]);
      Join3(EscapeOf(s[0]), rest, t);
      EscapeIsCollected(s[0], rest + t, item);
      EscapedIsCollected(s[1..], t, item + EscapeOf(s[0]));
      Join3(item, EscapeOf(s[0]), rest);
    }
  }

  lemma QuotedIsCollected(s: string, t: string, item: string)
    ensures Elements(Quoted(s) + t, item, false, false) == Elements(t, item + Quoted(s), false, false)
  {
    hide Elements, Escaped;
    var e, q := Escaped(s), "\"";
    assert Quoted(s) + t == q + (e + (q + t));
    assert (q + (e + (q + t)))[1..] == e + (q + t);
    ElementsStep(q + (e + (q + t)), e + (q + t), item, false, false);
    EscapedIsCollected(s, q + t, item + q);
    assert (q + t)[1..] == t;
    ElementsStep(q + t, t, item + q + e, true, false);
    assert item + q + e + q == item + Quoted(s);
  }

  lemma LastElement(blank: string, s: string)
    requires AllSpace(blank)
    ensures Elements("", blank + Quoted(s), false, false) == Some([s])
  {
    hide Quoted, StringOf, Trimmed, IsSpace;
    QuotedIsTrim(s);
    TrimmedOf(blank, Quoted(s), "");
    assert blank + Quoted(s) + "" == blank + Quoted(s);
    StringOfQuoted("", s, "");
    assert "" + Quoted(s) + "" == Quoted(s);
    assert [s] + [] == [s];
  }

  lemma OneElementMore(blank: string, s: string, rest: string)
    requires AllSpace(blank)
    ensures Elements(", " + rest, blank + Quoted(s), false, false) == Push(Some(s), Elements(rest, " ", false, false))
  {
    hide Quoted, StringOf, Elements;
    var tail, item := " " + rest, blank + Quoted(s);
    assert (", " + rest)[0] == ',' && (", " + rest)[1..] == tail;
    assert tail[0] == ' ' && tail[1..] == rest && "" + [' '] == " ";
    ElementsStep(", " + rest, tail, item, false, false);
    ElementsStep(tail, rest, "", false, false);
    StringOfQuoted(blank, s, "");
    assert blank + Quoted(s) + "" == item;
  }

  lemma {:induction false} BodyIsRead(items: seq<string>, blank: string)
    requires AllSpace(blank)
    ensures Elements(Body(items), blank, false, false) == Some(items)
    decreases |items|
  {
    hide Elements, Quoted, IsSpace;
    if items == [] {
      TrimmedOf(blank, "", "");
      assert blank + "" + "" == blank;
      NoElements(blank);
    } else if |items| == 1 {
      QuotedIsCollected(items[0], "", blank);
      assert Quoted(items[0]) + "" == Quoted(items[0]);
      LastElement(blank, items[0]);
      assert items == [items[0]];
    } else {
      var rest := Body(items[1..]);
      QuotedIsCollected(items[0], ", " + rest, blank);
      OneElementMore(blank, items[0], rest);
      assert AllSpace(" ") by {
        BlankIsSpace();
      }
      BodyIsRead(items[1..], " ");
      assert items == [items[0]] + items[1..];
    }
  }

  lemma BlankIsSpace()
    ensures AllSpace(" ") && IsSpace(' ')
  {
  }

  lemma NoElements(blank: string)
    requires Trimmed(blank) == ""
    ensures Elements("", blank, false, false) == Some([])
  {
  }

  // A rendered array is read back as the same strings, whatever characters they hold.
  lemma ArrayRoundTrip(items: seq<string>)
    ensures ArrayOf(RenderedArray(items)) == Some(items)
  {
    hide Elements, Body, Trimmed;
    var text := RenderedArray(items);
    TrimmedOf("", text, "");
    assert "" + text + "" == text;
    assert text[1..|text| - 1] == Body(items);
    BodyIsRead(items, "");
  }

  // ---- Lines ----

  function IndexOf(s: string, c: char): (i: nat)
    ensures i <= |s| && c !in s[..i] && (i < |s| ==> s[i] == c)
  {
    if s == "" || s[0] == c then 0
    else
      var i := IndexOf(s[1..], c);
      assert s[..i + 1] == [s[0]] + s[1..][..i];
      i + 1
  }

  datatype Line = Skipped | Header | Outside | Field(key: string, value: string) | Malformed

  // What the manifest reader makes of one line, after a test header or before the first one.
  function Reading(line: string, inTest: bool): Line {
    var clean := Trimmed(Uncommented(line, false, false));
    if clean == "" || "format" <= clean || "suite" <= clean then Skipped
    else if clean == "[[test]]" then Header
    else if !inTest then Outside
    else
      var equals := IndexOf(clean, '=');
      if equals == |clean| then Malformed
      else Field(Trimmed(clean[..equals]), Trimmed(clean[equals + 1..]))
  }

  method ReadLine(line: string, inTest: bool) returns (r: Line)
    ensures r == Reading(line, inTest)
  {
    var uncommented := StripComment(line);
    var clean := Trim(uncommented);
    if clean == "" || "format" <= clean || "suite" <= clean {
      return Skipped;
    }
    if clean == "[[test]]" {
      return Header;
    }
    if !inTest {
      return Outside;
    }
    var equals := IndexOf(clean, '=');
    if equals == |clean| {
      return Malformed;
    }
    var key := Trim(clean[..equals]);
    var value := Trim(clean[equals + 1..]);
    return Field(key, value);
  }

  predicate IsKey(key: string) {
    && key != "" && IsTrim(key) && '=' !in key && '#' !in key && '"' !in key
    && !("format" <= key) && !("suite" <= key)
  }

  function Comment(note: Option<string>): string {
    if note.Some? then "#" + note.value else ""
  }

  function Assignment(key: string, value: string): string { key + " = " + value }

  lemma CleanLine(indent: string, clean: string, blanks: string, note: Option<string>)
    requires AllSpace(indent) && AllSpace(blanks) && Kept(clean) && IsTrim(clean)
    ensures Trimmed(Uncommented(indent + clean + blanks + Comment(note), false, false)) == clean
  {
    hide Trimmed, IsSpace;
    NoMarksInSpace(indent);
    NoMarksInSpace(blanks);
    PlainIsKept(indent);
    PlainIsKept(blanks);
    KeptTogether(indent, clean);
    KeptTogether(indent + clean, blanks);
    assert Uncommented(Comment(note), false, false) == "";
    hide Uncommented;
    assert indent + clean + blanks + "" == indent + clean + blanks;
    TrimmedOf(indent, clean, blanks);
  }

  lemma NoMarksInSpace(s: string)
    requires AllSpace(s)
    ensures '#' !in s && '"' !in s
  {
  }

  lemma AssignmentIsRead(key: string, value: string)
    requires IsKey(key) && value != "" && IsTrim(value)
    ensures var clean, equals := Assignment(key, value), IndexOf(Assignment(key, value), '=');
      && equals == |key| + 1 < |clean|
      && Trimmed(clean[..equals]) == key && Trimmed(clean[equals + 1..]) == value
  {
    hide Trimmed;
    var clean := Assignment(key, value);
    IndexOfFirst(key + " ", '=', " " + value);
    assert clean == key + " " + "=" + (" " + value);
    assert clean[..|key| + 1] == "" + key + " " && clean[|key| + 2..] == " " + value + "";
    TrimmedOf("", key, " ");
    TrimmedOf(" ", value, "");
  }

  lemma {:induction false} IndexOfFirst(before: string, c: char, after: string)
    requires c !in before
    ensures IndexOf(before + [c] + after, c) == |before|
  {
    if before != "" {
      IndexOfFirst(before[1..], c, after);
      assert (before + [c] + after)[1..] == before[1..] + [c] + after;
    }
  }

  lemma AssignmentIsAField(key: string, value: string)
    requires IsKey(key) && value != "" && IsTrim(value)
    ensures var clean := Assignment(key, value);
      && clean != "" && clean != "[[test]]" && !("format" <= clean) && !("suite" <= clean) && IsTrim(clean)
  {
    var clean := Assignment(key, value);
    assert clean[|key|] == ' ' && clean[|key| + 1] == '=';
    assert clean[..|key|] == key;
    assert clean[0] == key[0] && clean[|clean| - 1] == value[|value| - 1];
    NotAPrefix("format", key, clean);
    NotAPrefix("suite", key, clean);
    assert '=' in clean && '=' !in "[[test]]";
  }

  lemma NotAPrefix(word: string, key: string, clean: string)
    requires !(word <= key) && key <= clean && |key| < |clean| && clean[|key|] == ' ' && ' ' !in word
    ensures !(word <= clean)
  {
    if |word| > |key| {
      assert word[|key|] != clean[|key|];
    } else {
      var k :| 0 <= k < |word| && word[k] != key[k];
      assert word[k] != clean[k];
    }
  }

  // A rendered line, indented and commented at will, is read back as its key and value after a test header,
  // and refused before the first one.
  lemma LineRoundTrip(
      indent: string, key: string, value: string, blanks: string, note: Option<string>, inTest: bool)
    requires AllSpace(indent) && AllSpace(blanks)
    requires IsKey(key) && value != "" && IsTrim(value) && Kept(value)
    ensures Reading(indent + Assignment(key, value) + blanks + Comment(note), inTest)
      == if inTest then Field(key, value) else Outside
  {
    hide Kept, Trimmed, Uncommented, IndexOf, IsTrim, IsSpace, Comment;
    PlainIsKept(key);
    PlainIsKept(" = ");
    KeptTogether(key, " = ");
    KeptTogether(key + " = ", value);
    AssignmentIsAField(key, value);
    CleanLine(indent, Assignment(key, value), blanks, note);
    AssignmentIsRead(key, value);
    hide Assignment;
  }

  // Rendering a list of strings in a manifest line and reading the line gives back the list.
  lemma ArrayFieldRoundTrip(indent: string, key: string, items: seq<string>, blanks: string, note: Option<string>)
    requires AllSpace(indent) && AllSpace(blanks) && IsKey(key)
    ensures var field := Reading(indent + Assignment(key, RenderedArray(items)) + blanks + Comment(note), true);
      field.Field? && field.key == key && ArrayOf(field.value) == Some(items)
  {
    ArrayIsKept(items);
    assert IsTrim(RenderedArray(items)) && RenderedArray(items) != "" by {
      hide Body;
    }
    hide Reading, ArrayOf, RenderedArray;
    LineRoundTrip(indent, key, RenderedArray(items), blanks, note, true);
    ArrayRoundTrip(items);
  }

  lemma StringFieldRoundTrip(indent: string, key: string, s: string, blanks: string, note: Option<string>)
    requires AllSpace(indent) && AllSpace(blanks) && IsKey(key)
    ensures var field := Reading(indent + Assignment(key, Quoted(s)) + blanks + Comment(note), true);
      field.Field? && field.key == key && StringOf(field.value) == Some(s)
  {
    QuotedIsKept(s);
    QuotedIsTrim(s);
    StringOfQuoted("", s, "");
    assert "" + Quoted(s) + "" == Quoted(s);
    hide Reading, StringOf, Quoted;
    LineRoundTrip(indent, key, Quoted(s), blanks, note, true);
  }

  // The rendering of any strings stays on one line of the file.
  lemma {:induction false} EscapedHasNoNewline(s: string)
    ensures '\n' !in Escaped(s)
  {
    if s != "" {
      EscapedHasNoNewline(s[1..]);
    }
  }

  lemma {:induction false} BodyHasNoNewline(items: seq<string>)
    ensures '\n' !in Body(items)
  {
    hide Escaped;
    if items != [] {
      EscapedHasNoNewline(items[0]);
      BodyHasNoNewline(items[1..]);
    }
  }

  lemma ArrayIsOneLine(items: seq<string>)
    ensures '\n' !in RenderedArray(items)
  {
    BodyHasNoNewline(items);
  }
}
