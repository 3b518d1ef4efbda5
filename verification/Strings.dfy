// Splitting a text at a separator, as Python's str.split does, and joining the parts again.
module Strings {
  // The text before the first separator; all of it when there is none.
  function Before(s: string, separator: char): (r: string)
    ensures separator !in r
    ensures r <= s && (|r| < |s| ==> s[|r|] == separator)
  {
    if s == [] || s[0] == separator then [] else [s[0]] + Before(s[1..], separator)
  }

  // Python's s.split(separator).
  function Split(s: string, separator: char): (r: seq<string>)
    ensures |r| > 0
    ensures forall i :: 0 <= i < |r| ==> separator !in r[i]
    decreases |s|
  {
    var first := Before(s, separator);
    if |first| == |s| then [first] else [first] + Split(s[|first| + 1..], separator)
  }

  function Join(parts: seq<string>, separator: char): string
    requires |parts| > 0
  {
    if |parts| == 1 then parts[0] else parts[0] + [separator] + Join(parts[1..], separator)
  }

  lemma {:induction false} JoinOfSplit(s: string, separator: char)
    ensures Join(Split(s, separator), separator) == s
    decreases |s|
  {
    var first := Before(s, separator);
    if |first| < |s| {
      JoinOfSplit(s[|first| + 1..], separator);
      assert s == first + [separator] + s[|first| + 1..];
      assert Split(s, separator)[1..] == Split(s[|first| + 1..], separator);
    }
  }

  lemma {:induction false} BeforeSeparator(first: string, rest: string, separator: char)
    requires separator !in first
    ensures Before(first + [separator] + rest, separator) == first
    ensures Before(first, separator) == first
  {
    if first != [] {
      BeforeSeparator(first[1..], rest, separator);
      assert (first + [separator] + rest)[1..] == first[1..] + [separator] + rest;
    }
  }

  lemma {:induction false} SplitOfJoin(parts: seq<string>, separator: char)
    requires |parts| > 0 && forall i :: 0 <= i < |parts| ==> separator !in parts[i]
    ensures Split(Join(parts, separator), separator) == parts
  {
    hide Before;
    if |parts| == 1 {
      BeforeSeparator(parts[0], [], separator);
    } else {
      var rest := Join(parts[1..], separator);
      var whole := parts[0] + [separator] + rest;
      assert Join(parts, separator) == whole;
      BeforeSeparator(parts[0], rest, separator);
      SplitOfJoin(parts[1..], separator);
      SplitStep(whole, parts[0], rest, separator);
    }
  }

  lemma SplitStep(s: string, first: string, rest: string, separator: char)
    requires s == first + [separator] + rest && Before(s, separator) == first
    ensures Split(s, separator) == [first] + Split(rest, separator)
  {
    hide Before;
    assert s[|first| + 1..] == rest;
  }
}
