// Arguments for a Windows child: the runner quotes and joins them, the child splits by the rules of Microsoft's
// "Parsing C command-line arguments" after the program name. Texts are UTF-16 code units, surrogates matched or not.
module CommandLine {
  type Unit = u: nat | u < 0x1_0000

  type Text = seq<Unit>

  const NUL: Unit := 0x00
  const TAB: Unit := 0x09
  const SPACE: Unit := 0x20
  const QUOTE: Unit := 0x22
  const SLASH: Unit := 0x5C

  function Slashes(n: nat): (r: Text)
    ensures |r| == n && forall i :: 0 <= i < n ==> r[i] == SLASH
  {
    if n == 0 then [] else [SLASH] + Slashes(n - 1)
  }

  // ---- Quoting ----

  // The backslashes written before a character when this many were read before it.
  function Written(c: Unit, slashes: nat): Text {
    if c == QUOTE then Slashes(2 * slashes + 1) else Slashes(slashes)
  }

  // What follows the opening quote, when this many backslashes are still to be written and a closing
  // quote will or will not follow.
  function Escaped(value: Text, slashes: nat, closed: bool): Text {
    if value == [] then Slashes(if closed then 2 * slashes else slashes)
    else if value[0] == SLASH then Escaped(value[1..], slashes + 1, closed)
    else Written(value[0], slashes) + [value[0]] + Escaped(value[1..], 0, closed)
  }

  function Quoted(value: Text): (r: Text)
    ensures r != [] && r[0] == QUOTE
  {
    [QUOTE] + Escaped(value, 0, true) + [QUOTE]
  }

  method QuoteWindows(value: Text) returns (result: Text)
    ensures result == Quoted(value)
  {
    result := [QUOTE];
    var slashes: nat := 0;
    for i := 0 to |value|
      invariant result + Escaped(value[i..], slashes, true) == [QUOTE] + Escaped(value, 0, true)
    {
      var ch := value[i];
      ghost var before, rest := result, value[i + 1..];
      assert value[i..][1..] == rest;
      if ch == SLASH {
        slashes := slashes + 1;
        continue;
      }
      if ch == QUOTE {
        result := result + Slashes(slashes * 2 + 1);
        result := result + [ch];
      } else {
        result := result + Slashes(slashes);
        result := result + [ch];
      }
      assert result + Escaped(rest, 0, true) == before + (Written(ch, slashes) + [ch] + Escaped(rest, 0, true));
      slashes := 0;
    }
    assert value[|value|..] == [];
    result := result + Slashes(slashes * 2);
    result := result + [QUOTE];
  }

  function Joined(arguments: seq<Text>): Text {
    if arguments == [] then []
    else if |arguments| == 1 then Quoted(arguments[0])
    else Quoted(arguments[0]) + [SPACE] + Joined(arguments[1..])
  }

  // The line still to be written after i arguments.
  function Remaining(arguments: seq<Text>, i: nat): Text
    requires i <= |arguments|
  {
    if i == |arguments| then [] else if i == 0 then Joined(arguments) else [SPACE] + Joined(arguments[i..])
  }

  lemma WriteOne(arguments: seq<Text>, i: nat)
    requires i < |arguments|
    ensures Remaining(arguments, i)
      == (if i == 0 then [] else [SPACE]) + Quoted(arguments[i]) + Remaining(arguments, i + 1)
  {
    assert arguments[i..][1..] == arguments[i + 1..];
    assert arguments[0..] == arguments;
  }

  method CommandLineOf(arguments: seq<Text>) returns (commandLine: Text)
    ensures commandLine == Joined(arguments)
  {
    hide *;
    RemainingEnds(arguments);
    commandLine := [];
    for i := 0 to |arguments|
      invariant commandLine + Remaining(arguments, i) == Joined(arguments)
      invariant commandLine == [] <==> i == 0
    {
      WriteOne(arguments, i);
      ghost var before, separator: Text := commandLine, if i == 0 then [] else [SPACE];
      if commandLine != [] {
        commandLine := commandLine + [SPACE];
      }
      assert commandLine == before + separator;
      var quoted := QuoteWindows(arguments[i]);
      Glue(before, separator, quoted, Remaining(arguments, i + 1));
      commandLine := commandLine + quoted;
    }
  }

  lemma RemainingEnds(arguments: seq<Text>)
    ensures [] + Remaining(arguments, 0) == Joined(arguments)
    ensures Remaining(arguments, |arguments|) == []
  {
    assert Joined([]) == [];
  }

  lemma Glue(a: Text, b: Text, c: Text, d: Text)
    ensures a + b + c + d == a + (b + c + d)
  {
  }

  // ---- Splitting ----

  function LeadingSlashes(text: Text): (n: nat)
    ensures n <= |text| && text[..n] == Slashes(n) && (n < |text| ==> text[n] != SLASH)
  {
    if text == [] || text[0] != SLASH then 0
    else
      var n := LeadingSlashes(text[1..]);
      assert text[..n + 1] == [SLASH] + text[1..][..n];
      n + 1
  }

  predicate IsBlank(c: Unit) { c == SPACE || c == TAB }

  datatype Parsed = Parsed(argument: Text, rest: Text)

  // The argument gains these characters in front.
  function Prepend(prefix: Text, p: Parsed): Parsed { Parsed(prefix + p.argument, p.rest) }

  // Reads one argument: 2n backslashes before a quote are n backslashes and a quote that opens or closes,
  // 2n + 1 are n backslashes and a literal quote, other backslashes are literal, and two quotes in a row
  // inside a quoted part are a literal quote.
  function ParseArgument(text: Text, inQuotes: bool): (r: Parsed)
    ensures |r.rest| <= |text|
    ensures text != [] && (inQuotes || !IsBlank(text[0])) ==> |r.rest| < |text|
    decreases |text|
  {
    var n := LeadingSlashes(text);
    var t := text[n..];
    if t == [] then Parsed(Slashes(n), [])
    else if t[0] == QUOTE then
      if n % 2 == 1 then Prepend(Slashes(n / 2) + [QUOTE], ParseArgument(t[1..], inQuotes))
      else if inQuotes && |t| > 1 && t[1] == QUOTE then
        Prepend(Slashes(n / 2) + [QUOTE], ParseArgument(t[2..], inQuotes))
      else Prepend(Slashes(n / 2), ParseArgument(t[1..], !inQuotes))
    else if !inQuotes && IsBlank(t[0]) then Parsed(Slashes(n), t)
    else Prepend(Slashes(n) + [t[0]], ParseArgument(t[1..], inQuotes))
  }

  function SkipBlanks(text: Text): (r: Text)
    ensures |r| <= |text| && (r != [] ==> !IsBlank(r[0]))
  {
    if text != [] && IsBlank(text[0]) then SkipBlanks(text[1..]) else text
  }

  function Split(text: Text): seq<Text>
    decreases |text|
  {
    var t := SkipBlanks(text);
    if t == [] then []
    else
      var p := ParseArgument(t, false);
      [p.argument] + Split(p.rest)
  }

  // ---- The round trip ----

  lemma {:induction false} LeadingSlashesOf(n: nat, t: Text)
    requires t == [] || t[0] != SLASH
    ensures LeadingSlashes(Slashes(n) + t) == n
    ensures (Slashes(n) + t)[n..] == t
  {
    if n > 0 {
      LeadingSlashesOf(n - 1, t);
      assert (Slashes(n) + t)[1..] == Slashes(n - 1) + t;
    } else {
      assert Slashes(0) + t == t;
    }
  }

  lemma {:induction false} OneMoreSlash(n: nat)
    ensures Slashes(n + 1) == Slashes(n) + [SLASH]
  {
    if n > 0 {
      OneMoreSlash(n - 1);
    }
  }

  lemma ReadLiteralQuote(n: nat, t: Text)
    ensures ParseArgument(Slashes(2 * n + 1) + ([QUOTE] + t), true)
      == Prepend(Slashes(n) + [QUOTE], ParseArgument(t, true))
  {
    hide Slashes, LeadingSlashes, Prepend;
    var text, m := Slashes(2 * n + 1) + ([QUOTE] + t), 2 * n + 1;
    LeadingSlashesOf(m, [QUOTE] + t);
    assert text[m..][1..] == t;
    assert m / 2 == n && m % 2 == 1;
  }

  lemma ReadOther(n: nat, c: Unit, t: Text)
    requires c != SLASH && c != QUOTE
    ensures ParseArgument(Slashes(n) + ([c] + t), true) == Prepend(Slashes(n) + [c], ParseArgument(t, true))
  {
    hide Slashes, LeadingSlashes, Prepend;
    LeadingSlashesOf(n, [c] + t);
    assert ([c] + t)[1..] == t;
  }

  // Two quotes in a row inside a quoted part are one, and the part goes on.
  lemma ReadTwinQuotes(n: nat, t: Text)
    ensures ParseArgument(Slashes(2 * n) + ([QUOTE, QUOTE] + t), true)
      == Prepend(Slashes(n) + [QUOTE], ParseArgument(t, true))
  {
    hide Slashes, LeadingSlashes, Prepend;
    LeadingSlashesOf(2 * n, [QUOTE, QUOTE] + t);
    assert ([QUOTE, QUOTE] + t)[2..] == t;
  }

  // The reader undoes what is written for one character.
  lemma ReadWritten(c: Unit, n: nat, t: Text)
    requires c != SLASH
    ensures ParseArgument(Written(c, n) + ([c] + t), true) == Prepend(Slashes(n) + [c], ParseArgument(t, true))
  {
    hide Slashes, ParseArgument;
    if c == QUOTE {
      ReadLiteralQuote(n, t);
    } else {
      ReadOther(n, c, t);
    }
  }

  lemma ReadClosingQuote(n: nat, t: Text)
    requires t == [] || t[0] == SPACE
    ensures ParseArgument(Slashes(2 * n) + ([QUOTE] + t), true) == Parsed(Slashes(n), t)
  {
    LeadingSlashesOf(2 * n, [QUOTE] + t);
    assert ([QUOTE] + t)[1..] == t;
    LeadingSlashesOf(0, t);
    assert Slashes(0) + t == t;
    assert Slashes(n) + [] == Slashes(n);
  }

  lemma ReadOpeningQuote(t: Text)
    ensures ParseArgument([QUOTE] + t, false) == ParseArgument(t, true)
  {
    LeadingSlashesOf(0, [QUOTE] + t);
    assert Slashes(0) + ([QUOTE] + t) == [QUOTE] + t;
    assert ([QUOTE] + t)[1..] == t;
    var p := ParseArgument(t, true);
    assert Slashes(0) + p.argument == p.argument;
  }

  lemma ReadEnd(n: nat)
    ensures ParseArgument(Slashes(n), true) == Parsed(Slashes(n), [])
  {
    LeadingSlashesOf(n, []);
    assert Slashes(n) + [] == Slashes(n);
  }

  // What comes after the escaped text: a closing quote and a separated tail, or nothing at all.
  function Ending(closed: bool, tail: Text): Text { if closed then [QUOTE] + tail else [] }

  // Inside quotes the reader undoes the quoting.
  lemma {:induction false} EscapedIsRead(value: Text, slashes: nat, closed: bool, tail: Text)
    requires tail == [] || (closed && tail[0] == SPACE)
    ensures ParseArgument(Escaped(value, slashes, closed) + Ending(closed, tail), true)
      == Parsed(Slashes(slashes) + value, tail)
    decreases |value|
  {
    hide ParseArgument, Slashes, Written, Ending;
    if value == [] {
      EndIsRead(slashes, closed, tail);
    } else {
      var c, rest := value[0], value[1..];
      assert value == [c] + rest;
      if c == SLASH {
        EscapedIsRead(rest, slashes + 1, closed, tail);
        OneMoreSlash(slashes);
        assert Slashes(slashes) + [SLASH] + rest == Slashes(slashes) + value;
      } else {
        EscapedIsRead(rest, 0, closed, tail);
        NoSlashes(rest);
        ReadOneMore(c, rest, slashes, closed, tail);
      }
    }
  }

  lemma ReadOneMore(c: Unit, rest: Text, slashes: nat, closed: bool, tail: Text)
    requires c != SLASH
    requires ParseArgument(Escaped(rest, 0, closed) + Ending(closed, tail), true) == Parsed(rest, tail)
    ensures ParseArgument(Escaped([c] + rest, slashes, closed) + Ending(closed, tail), true)
      == Parsed(Slashes(slashes) + ([c] + rest), tail)
  {
    hide ParseArgument, Slashes, Written, Ending, Escaped;
    var inner := Escaped(rest, 0, closed) + Ending(closed, tail);
    EscapedStep(c, rest, slashes, closed);
    assert Escaped([c] + rest, slashes, closed) + Ending(closed, tail) == Written(c, slashes) + ([c] + inner);
    ReadWritten(c, slashes, inner);
    assert Slashes(slashes) + [c] + rest == Slashes(slashes) + ([c] + rest);
  }

  lemma EscapedStep(c: Unit, rest: Text, slashes: nat, closed: bool)
    requires c != SLASH
    ensures Escaped([c] + rest, slashes, closed) == Written(c, slashes) + [c] + Escaped(rest, 0, closed)
  {
    hide Written, Slashes;
    assert ([c] + rest)[1..] == rest;
  }

  lemma NoSlashes(t: Text)
    ensures Slashes(0) + t == t
  {
  }

  lemma EndIsRead(slashes: nat, closed: bool, tail: Text)
    requires tail == [] || (closed && tail[0] == SPACE)
    ensures ParseArgument(Escaped([], slashes, closed) + Ending(closed, tail), true)
      == Parsed(Slashes(slashes) + [], tail)
  {
    hide ParseArgument, Slashes;
    if closed {
      ReadClosingQuote(slashes, tail);
    } else {
      ReadEnd(slashes);
      assert Slashes(slashes) + [] == Slashes(slashes);
    }
    assert Slashes(slashes) + [] == Slashes(slashes);
  }

  lemma QuotedIsRead(value: Text, tail: Text)
    requires tail == [] || tail[0] == SPACE
    ensures ParseArgument(Quoted(value) + tail, false) == Parsed(value, tail)
  {
    hide ParseArgument, Escaped;
    var inner := Escaped(value, 0, true) + Ending(true, tail);
    assert Quoted(value) + tail == [QUOTE] + inner;
    ReadOpeningQuote(inner);
    EscapedIsRead(value, 0, true, tail);
    NoSlashes(value);
  }

  lemma SplitOne(value: Text, tail: Text)
    requires tail == [] || tail[0] == SPACE
    ensures Split(Quoted(value) + tail) == [value] + Split(tail)
  {
    hide ParseArgument, Escaped;
    QuotedIsRead(value, tail);
    assert (Quoted(value) + tail)[0] == QUOTE;
  }

  lemma SplitSkipsSpace(text: Text)
    ensures Split([SPACE] + text) == Split(text)
  {
    hide ParseArgument;
    assert ([SPACE] + text)[1..] == text;
  }

  // Joining the quoted arguments and splitting the line gives back exactly the arguments.
  lemma {:induction false} SplitOfJoined(arguments: seq<Text>)
    ensures Split(Joined(arguments)) == arguments
  {
    hide Split, Escaped, ParseArgument;
    if |arguments| == 0 {
      SplitNothing();
    } else if |arguments| == 1 {
      SplitOne(arguments[0], []);
      SplitNothing();
      assert Quoted(arguments[0]) + [] == Quoted(arguments[0]);
    } else {
      var rest := Joined(arguments[1..]);
      SplitOfJoined(arguments[1..]);
      SplitOne(arguments[0], [SPACE] + rest);
      SplitSkipsSpace(rest);
      assert Quoted(arguments[0]) + [SPACE] + rest == Quoted(arguments[0]) + ([SPACE] + rest);
    }
  }

  lemma SplitNothing()
    ensures Split([]) == []
  {
  }

  // Different argument lists have different command lines.
  lemma CommandLinesAreDistinct(a: seq<Text>, b: seq<Text>)
    requires Joined(a) == Joined(b)
    ensures a == b
  {
    SplitOfJoined(a);
    SplitOfJoined(b);
  }

  // ---- The terminating NUL ----

  // What a child sees of a zero-terminated buffer.
  function UpToNul(text: Text): Text {
    if text == [] || text[0] == NUL then [] else [text[0]] + UpToNul(text[1..])
  }

  lemma {:induction false} UpToNulOf(text: Text, rest: Text)
    requires NUL !in text
    ensures UpToNul(text + rest) == text + UpToNul(rest)
  {
    if text == [] {
      assert text + rest == rest;
    } else {
      assert (text + rest)[1..] == text[1..] + rest;
      UpToNulOf(text[1..], rest);
    }
  }

  lemma NoNulWritten(c: Unit, n: nat)
    ensures NUL !in Written(c, n)
  {
  }

  lemma UpToNulOfWritten(c: Unit, n: nat, t: Text)
    ensures UpToNul(Written(c, n) + ([c] + t)) == Written(c, n) + if c == NUL then [] else [c] + UpToNul(t)
  {
    hide Written;
    NoNulWritten(c, n);
    UpToNulOf(Written(c, n), [c] + t);
    assert ([c] + t)[1..] == t;
  }

  // A NUL in the value cuts the quoted text off before its closing quote.
  lemma {:induction false} EscapedUpToNul(value: Text, slashes: nat, rest: Text)
    ensures UpToNul(Escaped(value, slashes, true) + rest) ==
      if NUL in value then Escaped(UpToNul(value), slashes, false)
      else Escaped(value, slashes, true) + UpToNul(rest)
    decreases |value|
  {
    hide Slashes, Written;
    if value == [] {
      UpToNulOfSlashes(2 * slashes, rest);
    } else {
      var c, after := value[0], value[1..];
      assert value == [c] + after;
      if c == SLASH {
        EscapedUpToNul(after, slashes + 1, rest);
      } else {
        EscapedUpToNul(after, 0, rest);
        var inner := Escaped(after, 0, true) + rest;
        assert Escaped(value, slashes, true) + rest == Written(c, slashes) + ([c] + inner);
        UpToNulOfWritten(c, slashes, inner);
        if c == NUL {
          WrittenBeforeNul(slashes);
        } else {
          StillToRead(c, after, slashes, rest);
        }
      }
    }
  }

  lemma WrittenBeforeNul(slashes: nat)
    ensures Written(NUL, slashes) + [] == Escaped([], slashes, false)
  {
  }

  lemma StillToRead(c: Unit, after: Text, slashes: nat, rest: Text)
    requires c != SLASH && c != NUL
    ensures NUL in after ==>
      Escaped(UpToNul([c] + after), slashes, false)
        == Written(c, slashes) + ([c] + Escaped(UpToNul(after), 0, false))
    ensures Escaped([c] + after, slashes, true) + UpToNul(rest)
        == Written(c, slashes) + ([c] + (Escaped(after, 0, true) + UpToNul(rest)))
  {
    hide Written;
    assert ([c] + after)[1..] == after;
    assert ([c] + UpToNul(after))[1..] == UpToNul(after);
  }

  lemma UpToNulOfSlashes(n: nat, rest: Text)
    ensures UpToNul(Slashes(n) + rest) == Slashes(n) + UpToNul(rest)
  {
    UpToNulOf(Slashes(n), rest);
  }

  lemma {:induction false} UpToNulIsShorter(value: Text)
    requires NUL in value
    ensures |UpToNul(value)| < |value|
  {
    if value[0] != NUL {
      UpToNulIsShorter(value[1..]);
    }
  }

  ghost predicate NulFree(arguments: seq<Text>) {
    forall i :: 0 <= i < |arguments| ==> NUL !in arguments[i]
  }

  lemma UpToNulOfQuote(rest: Text)
    ensures UpToNul([QUOTE] + rest) == [QUOTE] + UpToNul(rest)
  {
    assert ([QUOTE] + rest)[1..] == rest;
  }

  lemma QuotedUpToNul(value: Text, rest: Text)
    ensures NUL !in value ==> UpToNul(Quoted(value) + rest) == Quoted(value) + UpToNul(rest)
    ensures NUL in value ==> UpToNul(Quoted(value) + rest) == [QUOTE] + Escaped(UpToNul(value), 0, false)
  {
    hide Escaped, UpToNul;
    var escaped := Escaped(value, 0, true);
    var inner := escaped + ([QUOTE] + rest);
    assert Quoted(value) + rest == [QUOTE] + inner;
    UpToNulOfQuote(inner);
    EscapedUpToNul(value, 0, [QUOTE] + rest);
    UpToNulOfQuote(rest);
    assert [QUOTE] + (escaped + ([QUOTE] + UpToNul(rest))) == Quoted(value) + UpToNul(rest);
  }

  lemma SplitTruncated(value: Text)
    ensures Split([QUOTE] + Escaped(value, 0, false)) == [value]
  {
    hide ParseArgument, Escaped;
    var inner := Escaped(value, 0, false);
    ReadOpeningQuote(inner);
    EscapedIsRead(value, 0, false, []);
    assert inner + Ending(false, []) == inner;
    NoSlashes(value);
    SplitNothing();
  }

  // The child receives exactly the arguments if and only if none of them contains a NUL, which would end
  // the zero-terminated command line early.
  lemma {:induction false} ChildReceivesArguments(arguments: seq<Text>)
    ensures Split(UpToNul(Joined(arguments) + [NUL])) == arguments <==> NulFree(arguments)
  {
    hide Split, Escaped, ParseArgument;
    if |arguments| == 0 {
      SplitNothing();
      assert UpToNul([] + [NUL]) == [];
    } else {
      var first := arguments[0];
      var rest := if |arguments| == 1 then [NUL] else [SPACE] + (Joined(arguments[1..]) + [NUL]);
      assert Joined(arguments) + [NUL] == Quoted(first) + rest;
      QuotedUpToNul(first, rest);
      if NUL in first {
        SplitTruncated(UpToNul(first));
        UpToNulIsShorter(first);
      } else {
        ChildReceivesArguments(arguments[1..]);
        RestIsReceived(arguments, rest);
        SplitOne(first, UpToNul(rest));
        assert NulFree(arguments) <==> NulFree(arguments[1..]);
        assert arguments == [first] + arguments[1..];
      }
    }
  }

  lemma RestIsReceived(arguments: seq<Text>, rest: Text)
    requires |arguments| > 0
    requires rest == if |arguments| == 1 then [NUL] else [SPACE] + (Joined(arguments[1..]) + [NUL])
    ensures UpToNul(rest) == [] || UpToNul(rest)[0] == SPACE
    ensures Split(UpToNul(rest)) == Split(UpToNul(Joined(arguments[1..]) + [NUL]))
  {
    hide Split, Escaped, ParseArgument;
    if |arguments| > 1 {
      var line := Joined(arguments[1..]) + [NUL];
      UpToNulOf([SPACE], line);
      SplitSkipsSpace(UpToNul(line));
    } else {
      assert [] + [NUL] == [NUL];
    }
  }
}
