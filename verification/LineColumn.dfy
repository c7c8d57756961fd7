/** Offsets and line/column positions (core/Loc.cc, common/common.cc). */
module LineColumn {
  import opened Collections

  /** Both 1-based. */
  datatype Detail = Detail(line: nat, column: nat)

  const U32 := 0x1_0000_0000
  const U64 := 0x1_0000_0000_0000_0000

  // ---------------------------------------------------------------- line breaks

  /** The positions of the newlines, and the size of the text as a last break. */
  ghost predicate IsLineBreaks(text: string, breaks: seq<nat>) {
    && |breaks| > 0 && breaks[|breaks| - 1] == |text|
    && (forall i, j :: 0 <= i < j < |breaks| ==> breaks[i] < breaks[j])
    && (forall i :: 0 <= i < |breaks| - 1 ==> breaks[i] < |text| && text[breaks[i]] == '\n')
    && (forall p :: 0 <= p < |text| && text[p] == '\n' ==> p in breaks)
  }

  method FindFirstOf(text: string, c: char, from: nat) returns (r: Option<nat>)
    requires from <= |text|
    ensures r.None? ==> forall p :: from <= p < |text| ==> text[p] != c
    ensures r.Some? ==> from <= r.value < |text| && text[r.value] == c
    ensures r.Some? ==> forall p :: from <= p < r.value ==> text[p] != c
  {
    var i := from;
    while i < |text|
      invariant from <= i <= |text| && forall p :: from <= p < i ==> text[p] != c
    {
      if text[i] == c {
        return Some(i);
      }
      i := i + 1;
    }
    return None;
  }

  method FindLineBreaks(text: string) returns (res: seq<nat>)
    ensures IsLineBreaks(text, res)
  {
    res := [];
    var next := 0;
    while true
      invariant next <= |text|
      invariant forall i, j :: 0 <= i < j < |res| ==> res[i] < res[j]
      invariant forall i :: 0 <= i < |res| ==> res[i] < next && text[res[i]] == '\n'
      invariant forall p :: 0 <= p < next && text[p] == '\n' ==> p in res
      decreases |text| - next
    {
      var pos := FindFirstOf(text, '\n', next);
      if pos.None? {
        break;
      }
      res := res + [pos.value];
      next := pos.value + 1;
    }
    res := res + [|text|];
  }

  // ---------------------------------------------------------------- conversions

  /** The number of breaks before `off`: where `lower_bound` lands. */
  function LowerBound(breaks: seq<nat>, off: nat): (r: nat)
    ensures r <= |breaks|
    ensures forall i :: 0 <= i < r ==> breaks[i] < off
    ensures r < |breaks| ==> breaks[r] >= off
  {
    if breaks == [] || breaks[0] >= off then 0 else 1 + LowerBound(breaks[1..], off)
  }

  /** `pos2Detail`. */
  function PosToDetail(breaks: seq<nat>, off: nat): Detail
    requires |breaks| > 0
  {
    var it := LowerBound(breaks, off);
    if it == 0 then Detail(1, off + 1) else Detail(it + 1, off - breaks[it - 1])
  }

  /** `detail2Pos`, with its unsigned arithmetic: 64 bits for the line length, 32 for the column and the sum. */
  function DetailToPos(text: string, breaks: seq<nat>, d: Detail): Option<nat>
    requires |breaks| > 0
  {
    if !(1 <= d.line <= |breaks| + 1) then None
    else
      var line := d.line - 1;
      var lineStart := if line == 0 then 0 else breaks[line - 1] + 1;
      var lineEnd := if line < |breaks| then breaks[line] else |text|;
      var lineLength := (lineEnd - lineStart) % U64;
      if d.column > (lineLength + 1) % U64 then None
      else Some((lineStart + (d.column - 1) % U32) % U32)
  }

  /** Text whose positions fit the 32-bit offsets. */
  ghost predicate Fits(text: string, breaks: seq<nat>) {
    IsLineBreaks(text, breaks) && |text| + 1 < U32
  }

  /** A position in the text: an existing line, and a column up to just behind its last character. */
  ghost predicate Exists(breaks: seq<nat>, d: Detail) {
    && 1 <= d.line <= |breaks| && 1 <= d.column
    && d.column <= breaks[d.line - 1] - LineStart(breaks, d.line) + 1
  }

  function LineStart(breaks: seq<nat>, line: nat): nat
    requires 1 <= line <= |breaks| + 1
  {
    if line == 1 then 0 else breaks[line - 2] + 1
  }

  lemma LinesAreOrdered(text: string, breaks: seq<nat>, line: nat)
    requires IsLineBreaks(text, breaks) && 1 <= line <= |breaks|
    ensures LineStart(breaks, line) <= breaks[line - 1] <= |text|
  {
    if line > 1 { assert breaks[line - 2] < breaks[line - 1]; }
  }

  /** Every offset up to the size of the text lies on a line, and survives the way there and back. */
  lemma OffsetRoundTrip(text: string, breaks: seq<nat>, off: nat)
    requires Fits(text, breaks) && off <= |text|
    ensures Exists(breaks, PosToDetail(breaks, off))
    ensures DetailToPos(text, breaks, PosToDetail(breaks, off)) == Some(off)
  {
    var it, d := LowerBound(breaks, off), PosToDetail(breaks, off);
    assert it < |breaks|;
    LinesAreOrdered(text, breaks, d.line);
    assert d.column == off - LineStart(breaks, d.line) + 1;
    InText(text, breaks, d);
  }

  /** On the lines of the text nothing wraps around. */
  lemma InText(text: string, breaks: seq<nat>, d: Detail)
    requires Fits(text, breaks) && 1 <= d.line <= |breaks| && 1 <= d.column < U32
    ensures var start := LineStart(breaks, d.line);
      DetailToPos(text, breaks, d) ==
        if d.column > breaks[d.line - 1] - start + 1 then None else Some(start + d.column - 1)
  {
    LinesAreOrdered(text, breaks, d.line);
    var length := breaks[d.line - 1] - LineStart(breaks, d.line);
    NoWrap(length);
    NoWrap(length + 1);
    NoWrap(d.column - 1);
    if d.column <= length + 1 { NoWrap(LineStart(breaks, d.line) + d.column - 1); }
  }

  lemma NoWrap(n: nat)
    requires n < U32
    ensures n % U64 == n && n % U32 == n
  {
  }

  /**
   * For columns of at least 1, `detail2Pos` succeeds exactly on the positions in the text, and `pos2Detail` takes
   * its answer back to where it came from.
   */
  lemma DetailRoundTrip(text: string, breaks: seq<nat>, d: Detail)
    requires Fits(text, breaks) && d.column >= 1 && d.column < U32
    ensures DetailToPos(text, breaks, d).Some? <==> Exists(breaks, d)
    ensures Exists(breaks, d) ==> PosToDetail(breaks, DetailToPos(text, breaks, d).value) == d
  {
    if 1 <= d.line <= |breaks| {
      InText(text, breaks, d);
      if Exists(breaks, d) { LandsOnLine(text, breaks, d.line, LineStart(breaks, d.line) + d.column - 1); }
    } else if d.line == |breaks| + 1 {
      PastTheLastLine(text, breaks, d.column);
    }
  }

  /** A position survives the way to an offset and back exactly if it is in the text; column 0 never does. */
  lemma DetailSurvivesIff(text: string, breaks: seq<nat>, d: Detail)
    requires Fits(text, breaks) && d.column < U32
    ensures var off := DetailToPos(text, breaks, d);
      off.Some? && PosToDetail(breaks, off.value) == d <==> Exists(breaks, d)
  {
    if d.column >= 1 { DetailRoundTrip(text, breaks, d); }
  }

  lemma LandsOnLine(text: string, breaks: seq<nat>, line: nat, off: nat)
    requires IsLineBreaks(text, breaks) && 1 <= line <= |breaks|
    requires LineStart(breaks, line) <= off <= breaks[line - 1]
    ensures LowerBound(breaks, off) == line - 1
  {
    var it := LowerBound(breaks, off);
    assert line >= 2 ==> breaks[line - 2] < off;
  }

  /**
   * Column 0 is accepted exactly on lines 1 to one behind the last. It gives the offset in front of the line, and on
   * line 1 the greatest 32-bit number.
   */
  lemma ColumnZero(text: string, breaks: seq<nat>, line: nat)
    requires Fits(text, breaks)
    ensures var r := DetailToPos(text, breaks, Detail(line, 0));
      && (r.Some? <==> 1 <= line <= |breaks| + 1)
      && (r.Some? ==> r.value == if line == 1 then U32 - 1 else breaks[line - 2])
  {
    if 1 <= line <= |breaks| + 1 {
      var start := LineStart(breaks, line);
      if line > 1 { assert breaks[line - 2] <= |text|; }
      OneBefore(start);
    }
  }

  lemma OneBefore(start: nat)
    requires start < U32
    ensures (start + (0 - 1) % U32) % U32 == if start == 0 then U32 - 1 else start - 1
  {
    assert (0 - 1) % U32 == U32 - 1;
  }

  /** Behind the last line only the wrapped line length refuses columns, and column 0 is let through. */
  lemma PastTheLastLine(text: string, breaks: seq<nat>, column: nat)
    requires Fits(text, breaks) && column < U32
    ensures var r := DetailToPos(text, breaks, Detail(|breaks| + 1, column));
      (r.Some? <==> column == 0) && (column == 0 ==> r == Some(|text|))
  {
    var lineStart := breaks[|breaks| - 1] + 1;
    assert (|text| - lineStart) % U64 == U64 - 1;
    assert (0 - 1) % U32 == U32 - 1;
  }
}
