/**
  A source file with an index of its line starts: offsets become lines and columns by binary search, and
  lines become text.
*/
module SourceBuffer {
  import opened Strings

  datatype Location = Location(offset: nat, file: nat, valid: bool)

  datatype LineColumn = LineColumn(line: nat, column: nat)

  // ---- What lines are ----

  // The newlines among the first n characters.
  function Newlines(text: string, n: nat): nat
    requires n <= |text|
  {
    if n == 0 then 0 else Newlines(text, n - 1) + if text[n - 1] == '\n' then 1 else 0
  }

  // Where the line of this offset starts.
  function LineStart(text: string, offset: nat): (start: nat)
    requires offset <= |text|
    ensures start <= offset
  {
    if offset == 0 || text[offset - 1] == '\n' then offset else LineStart(text, offset - 1)
  }

  function PositionOf(text: string, offset: nat): LineColumn
    requires offset <= |text|
  {
    LineColumn(1 + Newlines(text, offset), offset - LineStart(text, offset) + 1)
  }

  // The line starts found in the first n characters.
  function Starts(text: string, n: nat): (starts: seq<nat>)
    requires n <= |text|
    ensures |starts| == 1 + Newlines(text, n)
  {
    if n == 0 then [0] else Starts(text, n - 1) + if text[n - 1] == '\n' then [n] else []
  }

  predicate Ascending(starts: seq<nat>) {
    forall i, j :: 0 <= i < j < |starts| ==> starts[i] < starts[j]
  }

  lemma {:induction false} StartsAscend(text: string, n: nat)
    requires n <= |text|
    ensures Ascending(Starts(text, n)) && Starts(text, n)[0] == 0
    ensures forall i :: 0 <= i <= Newlines(text, n) ==> Starts(text, n)[i] <= n
  {
    if n > 0 {
      StartsAscend(text, n - 1);
    }
  }

  // Of all line starts exactly those found up to an offset are at most the offset, and the last of them
  // is where the line of the offset starts.
  lemma {:induction false} StartsUpTo(text: string, offset: nat, n: nat)
    requires offset <= n <= |text|
    ensures var starts, k := Starts(text, n), Newlines(text, offset);
      && k < |starts| && starts[k] == LineStart(text, offset)
      && (forall i :: 0 <= i <= k ==> starts[i] <= offset)
      && (forall i :: k < i < |starts| ==> starts[i] > offset)
    decreases n
  {
    StartsAscend(text, n);
    if offset < n {
      StartsUpTo(text, offset, n - 1);
    } else if n > 0 {
      StartsUpTo(text, n - 1, n - 1);
    }
  }

  // ---- The buffer ----

  class SourceBuffer {
    const text: string
    const file: nat
    var lineStarts: seq<nat>

    ghost predicate Valid()
      reads this
    {
      lineStarts == Starts(text, |text|)
    }

    constructor (text: string, file: nat)
      ensures Valid() && this.text == text && this.file == file
    {
      this.text, this.file := text, file;
      lineStarts := [];
      new;
      ComputeLineStarts();
    }

    method ComputeLineStarts()
      modifies this
      ensures Valid()
    {
      lineStarts := [];
      lineStarts := lineStarts + [0];
      for i := 0 to |text|
        invariant lineStarts == Starts(text, i)
      {
        if text[i] == '\n' {
          lineStarts := lineStarts + [i + 1];
        }
      }
    }

    // std::upper_bound: the number of line starts that are at most the offset.
    method UpperBound(offset: nat) returns (first: nat)
      requires Valid()
      ensures first <= |lineStarts|
      ensures forall i :: 0 <= i < first ==> lineStarts[i] <= offset
      ensures forall i :: first <= i < |lineStarts| ==> lineStarts[i] > offset
    {
      StartsAscend(text, |text|);
      hide Starts;
      first := 0;
      var count := |lineStarts|;
      while count > 0
        invariant 0 <= count && first + count <= |lineStarts|
        invariant forall i :: 0 <= i < first ==> lineStarts[i] <= offset
        invariant forall i :: first + count <= i < |lineStarts| ==> lineStarts[i] > offset
      {
        var step := count / 2;
        if lineStarts[first + step] <= offset {
          first := first + step + 1;
          count := count - step - 1;
        } else {
          count := step;
        }
      }
    }

    // Line and column count the newlines before the offset and the characters since the last one.
    method LineColumnOf(location: Location) returns (r: LineColumn)
      requires Valid()
      ensures !location.valid || location.file != file ==> r == LineColumn(1, 1)
      ensures location.valid && location.file == file ==>
        r == PositionOf(text, if location.offset < |text| then location.offset else |text|)
    {
      if !location.valid || location.file != file {
        return LineColumn(1, 1);
      }
      var offset := if location.offset < |text| then location.offset else |text|;
      var bound := UpperBound(offset);
      StartsUpTo(text, offset, |text|);
      hide Starts, Newlines, LineStart;
      ghost var k := Newlines(text, offset);
      assert lineStarts[k] <= offset && (k + 1 < |lineStarts| ==> lineStarts[k + 1] > offset);
      var lineIndex := bound - 1;
      return LineColumn(lineIndex + 1, offset - lineStarts[lineIndex] + 1);
    }

    // The line without its newline and without one carriage return before it; empty for other numbers.
    method LineText(line: nat) returns (r: string)
      requires Valid()
      ensures r == if 1 <= line <= |Split(text, '\n')| then WithoutReturn(Split(text, '\n')[line - 1]) else ""
    {
      LinesAreParts(text);
      StartsAscend(text, |text|);
      hide Starts, Newlines, Split, LinesFrom, WithoutReturn;
      if line == 0 || line > |lineStarts| {
        return "";
      }
      var start := lineStarts[line - 1];
      var end := |text|;
      if line < |lineStarts| {
        end := lineStarts[line] - 1;
      }
      LineIsSlice(text, line - 1, start, end);
      ReturnDropped(text, start, end);
      if end > start && text[end - 1] == '\r' {
        end := end - 1;
      }
      return text[start..end];
    }
  }

  lemma ReturnDropped(text: string, start: nat, end: nat)
    requires start <= end <= |text|
    ensures end > start && text[end - 1] == '\r' ==> WithoutReturn(text[start..end]) == text[start..end - 1]
    ensures !(end > start && text[end - 1] == '\r') ==> WithoutReturn(text[start..end]) == text[start..end]
  {
    var line := text[start..end];
    assert end > start ==> line[|line| - 1] == text[end - 1];
    assert end > start ==> line[..|line| - 1] == text[start..end - 1];
  }

  lemma LineIsSlice(text: string, k: nat, start: nat, end: nat)
    requires k < |Starts(text, |text|)| && start == Starts(text, |text|)[k]
    requires end == if k + 1 < |Starts(text, |text|)| then Starts(text, |text|)[k + 1] - 1 else |text|
    ensures start <= end <= |text| && |Split(text, '\n')| == |Starts(text, |text|)|
    ensures text[start..end] == Split(text, '\n')[k]
  {
    StartsAscend(text, |text|);
    LinesAreParts(text);
    hide Starts, Split, LinesFrom;
  }

  function WithoutReturn(s: string): string {
    if s != "" && s[|s| - 1] == '\r' then s[..|s| - 1] else s
  }

  // ---- Positions ----

  lemma {:induction false} SameLine(text: string, a: nat, b: nat)
    requires a <= b <= |text|
    ensures Newlines(text, a) <= Newlines(text, b)
    ensures Newlines(text, a) == Newlines(text, b) <==> LineStart(text, a) == LineStart(text, b)
    ensures Newlines(text, a) < Newlines(text, b) ==> a < LineStart(text, b)
    decreases b
  {
    if a < b {
      SameLine(text, a, b - 1);
    }
  }

  predicate Precedes(a: LineColumn, b: LineColumn) {
    a.line < b.line || (a.line == b.line && a.column < b.column)
  }

  // Positions are ordered as offsets are.
  lemma PositionsAreMonotone(text: string, a: nat, b: nat)
    requires a <= |text| && b <= |text|
    ensures a < b <==> Precedes(PositionOf(text, a), PositionOf(text, b))
    ensures a == b <==> PositionOf(text, a) == PositionOf(text, b)
  {
    if a <= b {
      SameLine(text, a, b);
    } else {
      SameLine(text, b, a);
    }
  }

  // The line index turns a position back into its offset.
  lemma PositionIsInvertible(text: string, offset: nat)
    requires offset <= |text|
    ensures var p := PositionOf(text, offset);
      && 1 <= p.line <= |Starts(text, |text|)| && p.column >= 1
      && Starts(text, |text|)[p.line - 1] + p.column - 1 == offset
  {
    StartsUpTo(text, offset, |text|);
  }

  // ---- Lines ----

  // The end of line k, before its newline.
  function LineEnd(text: string, k: nat): nat
    requires k < |Starts(text, |text|)|
  {
    StartsAscend(text, |text|);
    var starts := Starts(text, |text|);
    if k + 1 < |starts| then starts[k + 1] - 1 else |text|
  }

  function Line(text: string, k: nat): string
    requires k < |Starts(text, |text|)|
  {
    StartsAscend(text, |text|);
    text[Starts(text, |text|)[k]..LineEnd(text, k)]
  }

  function LinesFrom(text: string, k: nat): (lines: seq<string>)
    requires k <= |Starts(text, |text|)|
    ensures |lines| == |Starts(text, |text|)| - k
    ensures forall i :: 0 <= i < |lines| ==> lines[i] == Line(text, k + i)
    decreases |Starts(text, |text|)| - k
  {
    if k == |Starts(text, |text|)| then [] else [Line(text, k)] + LinesFrom(text, k + 1)
  }

  // A newline ends every line but the last.
  lemma {:induction false} StartsFollowNewlines(text: string, n: nat, k: nat)
    requires n <= |text| && 0 < k < |Starts(text, n)|
    ensures 0 < Starts(text, n)[k] <= n && text[Starts(text, n)[k] - 1] == '\n'
  {
    if k < |Starts(text, n - 1)| {
      StartsFollowNewlines(text, n - 1, k);
    }
  }

  // Between two starts there is no other newline.
  lemma LineHasNoNewline(text: string, k: nat)
    requires k < |Starts(text, |text|)|
    ensures '\n' !in Line(text, k)
  {
    StartsAscend(text, |text|);
    var start, end := Starts(text, |text|)[k], LineEnd(text, k);
    forall i | start <= i < end
      ensures text[i] != '\n'
    {
      StartsUpTo(text, i, |text|);
      StartsUpTo(text, i + 1, |text|);
    }
  }

  function TextFrom(text: string, k: nat): string
    requires k < |Starts(text, |text|)|
  {
    StartsAscend(text, |text|);
    text[Starts(text, |text|)[k]..]
  }

  lemma {:induction false} LinesJoin(text: string, k: nat)
    requires k < |Starts(text, |text|)|
    ensures Join(LinesFrom(text, k), '\n') == TextFrom(text, k)
    decreases |Starts(text, |text|)| - k
  {
    StartsAscend(text, |text|);
    var starts := Starts(text, |text|);
    LinesStep(text, k);
    hide Starts, Newlines, Join, LinesFrom;
    if k + 1 < |starts| {
      LinesJoin(text, k + 1);
      StartsFollowNewlines(text, |text|, k + 1);
      TextSplits(text, starts[k], starts[k + 1] - 1);
    }
  }

  lemma LinesStep(text: string, k: nat)
    requires k < |Starts(text, |text|)|
    ensures k + 1 == |Starts(text, |text|)| ==> Join(LinesFrom(text, k), '\n') == Line(text, k)
    ensures k + 1 < |Starts(text, |text|)| ==>
      Join(LinesFrom(text, k), '\n') == Line(text, k) + ['\n'] + Join(LinesFrom(text, k + 1), '\n')
  {
    hide Starts, Newlines, Line;
    assert LinesFrom(text, k)[1..] == LinesFrom(text, k + 1);
  }

  lemma TextSplits(text: string, start: nat, end: nat)
    requires start <= end < |text| && text[end] == '\n'
    ensures text[start..] == text[start..end] + ['\n'] + text[end + 1..]
  {
  }

  // The indexed lines are the parts of the text between its newlines.
  lemma LinesAreParts(text: string)
    ensures Split(text, '\n') == LinesFrom(text, 0)
  {
    StartsAscend(text, |text|);
    LinesJoin(text, 0);
    assert text[0..] == text;
    forall i | 0 <= i < |LinesFrom(text, 0)|
      ensures '\n' !in LinesFrom(text, 0)[i]
    {
      LineHasNoNewline(text, i);
    }
    SplitOfJoin(LinesFrom(text, 0), '\n');
  }
}
