/** Applying autocorrect edits (core/AutocorrectSuggestion.cc). */
module Edits {
  import opened Collections

  datatype Loc = Loc(file: nat, begin: nat, end: nat)

  datatype Edit = Edit(loc: Loc, replacement: string)

  /** `hasSeen`: equal to a seen range, or containing the begin or the end of one. */
  predicate HasSeen(seen: set<Loc>, loc: Loc) {
    exists s <- seen ::
      && s.file == loc.file
      && (s == loc || loc.begin <= s.begin < loc.end || loc.begin <= s.end < loc.end)
  }

  /** The order of the sort: later files first, then later beginnings first. Ties are left open. */
  predicate NotBefore(a: Edit, b: Edit) {
    a.loc.file > b.loc.file || (a.loc.file == b.loc.file && a.loc.begin >= b.loc.begin)
  }

  ghost predicate SortedBackwards(edits: seq<Edit>) {
    forall i, j :: 0 <= i < j < |edits| ==> NotBefore(edits[i], edits[j])
  }

  ghost predicate WellFormed(edits: seq<Edit>) {
    forall i :: 0 <= i < |edits| ==> edits[i].loc.begin <= edits[i].loc.end
  }

  function Locs(edits: seq<Edit>): (r: set<Loc>)
    ensures forall e <- edits :: e.loc in r
  {
    if edits == [] then {} else Locs(edits[..|edits| - 1]) + {edits[|edits| - 1].loc}
  }

  lemma {:induction false} LocsAreOfEdits(edits: seq<Edit>, l: Loc)
    requires l in Locs(edits)
    ensures exists i :: 0 <= i < |edits| && edits[i].loc == l
  {
    var init := edits[..|edits| - 1];
    if l in Locs(init) {
      LocsAreOfEdits(init, l);
      var i :| 0 <= i < |init| && init[i].loc == l;
      assert edits[i].loc == l;
    } else {
      assert edits[|edits| - 1].loc == l;
    }
  }

  /** The edits that are applied, in the order in which they are. */
  function Accepted(edits: seq<Edit>): seq<Edit> {
    if edits == [] then []
    else
      var before, e := Accepted(edits[..|edits| - 1]), edits[|edits| - 1];
      if HasSeen(Locs(before), e.loc) then before else before + [e]
  }

  function OfFile(edits: seq<Edit>, file: nat): seq<Edit> {
    if edits == [] then []
    else
      var before, e := OfFile(edits[..|edits| - 1], file), edits[|edits| - 1];
      if e.loc.file == file then before + [e] else before
  }

  // ---------------------------------------------------------------- which edits are applied

  /** Each edit ends where or before every edit before it begins. */
  ghost predicate Descending(edits: seq<Edit>) {
    && WellFormed(edits)
    && forall i, j :: 0 <= i < j < |edits| && edits[i].loc.file == edits[j].loc.file ==>
         edits[j].loc.end <= edits[i].loc.begin
  }

  lemma {:induction false} AcceptedAreEdits(edits: seq<Edit>)
    ensures forall a <- Accepted(edits) :: a in edits
  {
    if edits != [] {
      var init, e := edits[..|edits| - 1], edits[|edits| - 1];
      AcceptedAreEdits(init);
      assert edits == init + [e];
      assert Accepted(edits) == Accepted(init) || Accepted(edits) == Accepted(init) + [e];
    }
  }

  /** Accepted edits of one file never overlap. */
  lemma {:induction false} AcceptedAreDisjoint(edits: seq<Edit>)
    requires SortedBackwards(edits) && WellFormed(edits)
    ensures Descending(Accepted(edits))
  {
    if edits != [] {
      var init, e := edits[..|edits| - 1], edits[|edits| - 1];
      AcceptedAreDisjoint(init);
      if !HasSeen(Locs(Accepted(init)), e.loc) {
        LastEndsInFront(edits);
        AppendDescending(Accepted(init), e);
      }
    }
  }

  /** No two edits have the same range of a file. */
  ghost predicate DistinctRanges(edits: seq<Edit>) {
    forall i, j :: 0 <= i < j < |edits| ==> edits[i].loc != edits[j].loc
  }

  /** No range is replaced twice, and nothing is inserted twice at one place. */
  lemma {:induction false} AcceptedAreDistinct(edits: seq<Edit>)
    ensures DistinctRanges(Accepted(edits))
  {
    if edits != [] {
      var before, e := Accepted(edits[..|edits| - 1]), edits[|edits| - 1];
      AcceptedAreDistinct(edits[..|edits| - 1]);
      if !HasSeen(Locs(before), e.loc) { AppendDistinct(before, e); }
    }
  }

  lemma AppendDistinct(before: seq<Edit>, e: Edit)
    requires DistinctRanges(before) && !HasSeen(Locs(before), e.loc)
    ensures DistinctRanges(before + [e])
  {
    forall i | 0 <= i < |before| ensures before[i].loc != e.loc {
      assert before[i] in before;
      assert before[i].loc in Locs(before);
    }
  }

  /** Some accepted edit has the range of `e` or begins inside it. */
  ghost predicate IsInTheWay(accepted: seq<Edit>, e: Edit) {
    exists a <- accepted :: a.loc.file == e.loc.file && (a.loc == e.loc || e.loc.begin <= a.loc.begin < e.loc.end)
  }

  /** The n-th edit is left out exactly if an accepted one before it is in its way, and otherwise accepted. */
  lemma RejectedIff(edits: seq<Edit>, n: nat)
    requires SortedBackwards(edits) && WellFormed(edits) && n < |edits|
    ensures var accepted := Accepted(edits[..n]);
      Accepted(edits[..n + 1]) == if IsInTheWay(accepted, edits[n]) then accepted else accepted + [edits[n]]
  {
    var e, upTo := edits[n], edits[..n + 1];
    var accepted := Accepted(edits[..n]);
    assert upTo[..n] == edits[..n] && upTo[n] == e;
    if IsInTheWay(accepted, e) {
      var a :| a in accepted && a.loc.file == e.loc.file && (a.loc == e.loc || e.loc.begin <= a.loc.begin < e.loc.end);
      assert a.loc in Locs(accepted);
      assert HasSeen(Locs(accepted), e.loc);
    }
    if HasSeen(Locs(accepted), e.loc) {
      var a := LastRejected(upTo);
    }
  }

  /** An edit ends at or before the beginning of every one of `edits` in its file. */
  ghost predicate EndsInFront(e: Edit, edits: seq<Edit>) {
    forall i :: 0 <= i < |edits| && edits[i].loc.file == e.loc.file ==> e.loc.end <= edits[i].loc.begin
  }

  lemma LastEndsInFront(edits: seq<Edit>)
    requires SortedBackwards(edits) && WellFormed(edits) && edits != []
    requires !HasSeen(Locs(Accepted(edits[..|edits| - 1])), edits[|edits| - 1].loc)
    ensures EndsInFront(edits[|edits| - 1], Accepted(edits[..|edits| - 1]))
  {
    var init, e := edits[..|edits| - 1], edits[|edits| - 1];
    var before := Accepted(init);
    forall i | 0 <= i < |before| && before[i].loc.file == e.loc.file ensures e.loc.end <= before[i].loc.begin {
      assert before[i] in before && before[i].loc in Locs(before);
      AcceptedNotBefore(edits, before[i]);
      SeenIfInside(Locs(before), before[i].loc, e.loc);
    }
  }

  /** A range that begins no later than a seen one and is not taken for seen ends where that one begins. */
  lemma SeenIfInside(seen: set<Loc>, s: Loc, loc: Loc)
    requires s in seen && s.file == loc.file && loc.begin <= s.begin && !HasSeen(seen, loc)
    ensures loc.end <= s.begin
  {
  }

  lemma AppendDescending(edits: seq<Edit>, e: Edit)
    requires Descending(edits) && e.loc.begin <= e.loc.end && EndsInFront(e, edits)
    ensures Descending(edits + [e])
  {
  }

  /** An edit is left out only if an accepted one has the same range or begins inside its range. */
  lemma {:induction false} RejectedOverlap(edits: seq<Edit>, e: Edit)
    requires SortedBackwards(edits) && WellFormed(edits) && e in edits && e !in Accepted(edits)
    ensures exists a <- Accepted(edits) ::
      a.loc.file == e.loc.file && (a.loc == e.loc || e.loc.begin <= a.loc.begin < e.loc.end)
  {
    var init, last := edits[..|edits| - 1], edits[|edits| - 1];
    var before := Accepted(init);
    if e in init {
      RejectedOverlap(init, e);
      var a :| a in before && a.loc.file == e.loc.file && (a.loc == e.loc || e.loc.begin <= a.loc.begin < e.loc.end);
      assert a in Accepted(edits);
    } else {
      var a := LastRejected(edits);
      assert a in Accepted(edits);
    }
  }

  lemma LastRejected(edits: seq<Edit>) returns (a: Edit)
    requires SortedBackwards(edits) && WellFormed(edits) && edits != []
    requires HasSeen(Locs(Accepted(edits[..|edits| - 1])), edits[|edits| - 1].loc)
    ensures a in Accepted(edits[..|edits| - 1])
    ensures var e := edits[|edits| - 1];
      a.loc.file == e.loc.file && (a.loc == e.loc || e.loc.begin <= a.loc.begin < e.loc.end)
  {
    var init, e := edits[..|edits| - 1], edits[|edits| - 1];
    var before := Accepted(init);
    var s :| s in Locs(before) && s.file == e.loc.file
      && (s == e.loc || e.loc.begin <= s.begin < e.loc.end || e.loc.begin <= s.end < e.loc.end);
    LocsAreOfEdits(before, s);
    var i :| 0 <= i < |before| && before[i].loc == s;
    a := before[i];
    AcceptedNotBefore(edits, a);
  }

  lemma AcceptedNotBefore(edits: seq<Edit>, a: Edit)
    requires SortedBackwards(edits) && WellFormed(edits) && edits != [] && a in Accepted(edits[..|edits| - 1])
    ensures NotBefore(a, edits[|edits| - 1]) && a.loc.begin <= a.loc.end
  {
    var init := edits[..|edits| - 1];
    AcceptedAreEdits(init);
    var k :| 0 <= k < |init| && init[k] == a;
    assert edits[k] == a;
  }

  // ---------------------------------------------------------------- the text

  /** The edits of one file, which lie within its text. */
  ghost predicate Within(edits: seq<Edit>, text: string) {
    && WellFormed(edits)
    && (forall i :: 0 <= i < |edits| ==> edits[i].loc.end <= |text|)
    && (forall i, j :: 0 <= i < j < |edits| ==> edits[j].loc.end <= edits[i].loc.begin)
  }

  /** One pass over the original text from `from` on, replacing each range as it is met. */
  ghost function Simultaneous(text: string, edits: seq<Edit>, from: nat): string
    requires Within(edits, text) && from <= |text|
    requires forall i :: 0 <= i < |edits| ==> from <= edits[i].loc.begin
  {
    if edits == [] then text[from..]
    else
      var e := edits[|edits| - 1];
      text[from..e.loc.begin] + e.replacement + Simultaneous(text, edits[..|edits| - 1], e.loc.end)
  }

  /** What `apply` does to a file's text for one edit. */
  function Replaced(text: string, e: Edit): string
    requires e.loc.begin <= e.loc.end <= |text|
  {
    text[..e.loc.begin] + e.replacement + text[e.loc.end..]
  }

  /** Up to the first replaced range the text is the original one; skipping into it skips the original. */
  lemma SimultaneousPrefix(text: string, edits: seq<Edit>, from: nat)
    requires Within(edits, text) && from <= |text|
    requires forall i :: 0 <= i < |edits| ==> from <= edits[i].loc.begin
    ensures var all := Simultaneous(text, edits, 0);
      from <= |all| && all[..from] == text[..from] && all[from..] == Simultaneous(text, edits, from)
  {
    var all := Simultaneous(text, edits, 0);
    if edits == [] {
      assert all == text;
    } else {
      var e := edits[|edits| - 1];
      assert forall i :: 0 <= i < |edits| - 1 ==> e.loc.end <= edits[i].loc.begin;
      var rest := Simultaneous(text, edits[..|edits| - 1], e.loc.end);
      SplitFront(text, from, e.loc.begin, e.replacement, rest);
    }
  }

  lemma SplitFront(text: string, from: nat, begin: nat, replacement: string, rest: string)
    requires from <= begin <= |text|
    ensures var all := text[0..begin] + replacement + rest;
      all[..from] == text[..from] && all[from..] == text[from..begin] + replacement + rest
  {
  }

  /** Applying one more edit, in front of all others, to the edited text is one more simultaneous replacement. */
  lemma ApplyOneMore(text: string, edits: seq<Edit>, e: Edit)
    requires Within(edits + [e], text) && Within(edits, text) && e.loc.begin <= e.loc.end
    ensures e.loc.end <= |Simultaneous(text, edits, 0)|
    ensures Replaced(Simultaneous(text, edits, 0), e) == Simultaneous(text, edits + [e], 0)
  {
    var all := edits + [e];
    assert all[|all| - 1] == e;
    forall i | 0 <= i < |edits| ensures e.loc.end <= edits[i].loc.begin {
      assert all[i] == edits[i];
    }
    SimultaneousPrefix(text, edits, e.loc.end);
    var now := Simultaneous(text, edits, 0);
    assert now[..e.loc.begin] == text[..e.loc.end][..e.loc.begin] == text[0..e.loc.begin];
    assert all[..|all| - 1] == edits;
  }

  ghost function LengthChange(edits: seq<Edit>): int {
    if edits == [] then 0
    else
      var e := edits[|edits| - 1];
      LengthChange(edits[..|edits| - 1]) + |e.replacement| - (e.loc.end - e.loc.begin)
  }

  /** The edited text differs in length by the sum of what the accepted edits add and remove. */
  lemma {:induction false} EditedLength(text: string, edits: seq<Edit>, from: nat)
    requires Within(edits, text) && from <= |text|
    requires forall i :: 0 <= i < |edits| ==> from <= edits[i].loc.begin
    ensures |Simultaneous(text, edits, from)| == |text| - from + LengthChange(edits)
  {
    if edits != [] { EditedLength(text, edits[..|edits| - 1], edits[|edits| - 1].loc.end); }
  }

  // ---------------------------------------------------------------- apply

  /** A sort that promises no more than its comparison. */
  method SortBackwards(edits: seq<Edit>) returns (sorted: seq<Edit>)
    ensures SortedBackwards(sorted) && multiset(sorted) == multiset(edits)
  {
    sorted := [];
    for i := 0 to |edits|
      invariant SortedBackwards(sorted) && multiset(sorted) == multiset(edits[..i])
    {
      assert edits[..i + 1] == edits[..i] + [edits[i]];
      sorted := InsertSorted(sorted, edits[i]);
    }
    assert edits[..|edits|] == edits;
  }

  method InsertSorted(s: seq<Edit>, e: Edit) returns (r: seq<Edit>)
    requires SortedBackwards(s)
    ensures SortedBackwards(r) && multiset(r) == multiset(s) + multiset{e}
  {
    var k := 0;
    while k < |s| && NotBefore(s[k], e)
      invariant 0 <= k <= |s| && forall i :: 0 <= i < k ==> NotBefore(s[i], e)
    {
      k := k + 1;
    }
    r := s[..k] + [e] + s[k..];
    InsertIsSorted(s, e, k);
    assert s == s[..k] + s[k..];
  }

  lemma InsertIsSorted(s: seq<Edit>, e: Edit, k: nat)
    requires SortedBackwards(s) && k <= |s| && (forall i :: 0 <= i < k ==> NotBefore(s[i], e))
    requires k < |s| ==> !NotBefore(s[k], e)
    ensures SortedBackwards(s[..k] + [e] + s[k..])
  {
    var r := s[..k] + [e] + s[k..];
    forall j | k <= j < |s| ensures NotBefore(e, s[j]) {
      assert j > k ==> NotBefore(s[k], s[j]);
    }
    forall i, j | 0 <= i < j < |r| ensures NotBefore(r[i], r[j]) {
      assert r[i] == if i < k then s[i] else if i == k then e else s[i - 1];
      assert r[j] == if j < k then s[j] else if j == k then e else s[j - 1];
    }
  }

  ghost predicate InRange(edits: seq<Edit>, sources: nat -> string) {
    forall i :: 0 <= i < |edits| ==> edits[i].loc.end <= |sources(edits[i].loc.file)|
  }

  lemma {:induction false} OfFileWithin(edits: seq<Edit>, file: nat, sources: nat -> string)
    requires Descending(edits) && InRange(edits, sources)
    ensures Within(OfFile(edits, file), sources(file))
    ensures forall e <- OfFile(edits, file) :: e.loc.file == file && e in edits
  {
    if edits != [] {
      var init, e := edits[..|edits| - 1], edits[|edits| - 1];
      OfFileWithin(init, file, sources);
      if e.loc.file == file {
        var before := OfFile(init, file);
        forall i | 0 <= i < |before| ensures e.loc.end <= before[i].loc.begin {
          assert before[i] in before && before[i] in init;
          var k :| 0 <= k < |init| && init[k] == before[i];
          assert edits[k] == before[i];
        }
      }
    }
  }

  /** The edited texts so far. */
  ghost predicate TextsAre(texts: map<nat, string>, accepted: seq<Edit>, sources: nat -> string) {
    forall f <- texts :: TextIs(texts[f], OfFile(accepted, f), sources(f))
  }

  ghost predicate TextIs(now: string, mine: seq<Edit>, text: string) {
    Within(mine, text) && now == Simultaneous(text, mine, 0)
  }

  ghost predicate HasFile(edits: seq<Edit>, f: nat) {
    exists i :: 0 <= i < |edits| && edits[i].loc.file == f
  }

  lemma {:induction false} OfFileIsEmpty(edits: seq<Edit>, f: nat)
    requires !HasFile(edits, f)
    ensures OfFile(edits, f) == []
  {
    if edits != [] {
      var init := edits[..|edits| - 1];
      assert forall i :: 0 <= i < |init| ==> init[i] == edits[i];
      OfFileIsEmpty(init, f);
    }
  }

  lemma AcceptedFiles(edits: seq<Edit>, f: nat)
    requires HasFile(Accepted(edits), f)
    ensures HasFile(edits, f)
  {
    AcceptedAreEdits(edits);
    var i :| 0 <= i < |Accepted(edits)| && Accepted(edits)[i].loc.file == f;
    assert Accepted(edits)[i] in edits;
  }

  lemma {:induction false} AcceptedGrows(edits: seq<Edit>, n: nat)
    requires n <= |edits|
    ensures Accepted(edits[..n]) <= Accepted(edits)
  {
    if n < |edits| {
      AcceptedGrows(edits[..|edits| - 1], n);
      assert edits[..|edits| - 1][..n] == edits[..n];
    } else {
      assert edits[..n] == edits;
    }
  }

  lemma LastOfFile(accepted: seq<Edit>, e: Edit, f: nat)
    ensures OfFile(accepted + [e], f) == if e.loc.file == f then OfFile(accepted, f) + [e] else OfFile(accepted, f)
  {
    assert (accepted + [e])[..|accepted|] == accepted;
  }

  ghost predicate AllBehind(edits: seq<Edit>, e: Edit) {
    forall i :: 0 <= i < |edits| ==> e.loc.end <= edits[i].loc.begin
  }

  /** An edit in front of the others is past the end of the edited text only if it is past that of the original. */
  lemma RangeIsOriginal(text: string, mine: seq<Edit>, e: Edit)
    requires Within(mine, text) && e.loc.begin <= e.loc.end
    requires AllBehind(mine, e)
    ensures e.loc.end <= |Simultaneous(text, mine, 0)| <==> e.loc.end <= |text|
  {
    if e.loc.end <= |text| { SimultaneousPrefix(text, mine, e.loc.end); }
    if mine == [] { assert Simultaneous(text, mine, 0) == text; }
  }

  lemma InFront(accepted: seq<Edit>, e: Edit, sources: nat -> string)
    requires Descending(accepted + [e]) && Descending(accepted) && InRange(accepted, sources)
    ensures AllBehind(OfFile(accepted, e.loc.file), e)
  {
    OfFileWithin(accepted, e.loc.file, sources);
    var mine := OfFile(accepted, e.loc.file);
    forall i | 0 <= i < |mine| ensures e.loc.end <= mine[i].loc.begin {
      assert mine[i] in mine && mine[i] in accepted;
      var k :| 0 <= k < |accepted| && accepted[k] == mine[i];
      var all := accepted + [e];
      assert all[k] == mine[i] && all[|accepted|] == e;
    }
  }

  /** Accepting an edit: the text of its file takes one more replacement, the others are as they were. */
  lemma AcceptKeepsTexts(texts: map<nat, string>, accepted: seq<Edit>, sources: nat -> string, e: Edit)
    requires Descending(accepted + [e]) && Descending(accepted) && InRange(accepted + [e], sources)
    requires InRange(accepted, sources) && TextsAre(texts, accepted, sources) && e.loc.file in texts
    ensures e.loc.begin <= e.loc.end <= |texts[e.loc.file]|
    ensures TextsAre(texts[e.loc.file := Replaced(texts[e.loc.file], e)], accepted + [e], sources)
  {
    var f0, all := e.loc.file, accepted + [e];
    assert all[|accepted|] == e;
    OfFileWithin(all, f0, sources);
    LastOfFile(accepted, e, f0);
    assert TextIs(texts[f0], OfFile(accepted, f0), sources(f0));
    AcceptKeepsText(texts[f0], OfFile(accepted, f0), sources(f0), e);
    forall f | f in texts && f != f0 ensures OfFile(all, f) == OfFile(accepted, f) { LastOfFile(accepted, e, f); }
    OneTextChanges(texts, accepted, all, sources, f0, Replaced(texts[f0], e));
  }

  lemma OneTextChanges(texts: map<nat, string>, accepted: seq<Edit>, all: seq<Edit>, sources: nat -> string, f0: nat,
                       now: string)
    requires TextsAre(texts, accepted, sources) && TextIs(now, OfFile(all, f0), sources(f0))
    requires forall f <- texts :: f != f0 ==> OfFile(all, f) == OfFile(accepted, f)
    ensures TextsAre(texts[f0 := now], all, sources)
  {
    var after := texts[f0 := now];
    forall f | f in after ensures TextIs(after[f], OfFile(all, f), sources(f)) {
      if f != f0 { assert TextIs(texts[f], OfFile(accepted, f), sources(f)); }
    }
  }

  lemma AcceptKeepsText(now: string, mine: seq<Edit>, text: string, e: Edit)
    requires TextIs(now, mine, text) && Within(mine + [e], text) && e.loc.begin <= e.loc.end
    ensures e.loc.end <= |now| && TextIs(Replaced(now, e), mine + [e], text)
  {
    ApplyOneMore(text, mine, e);
  }

  /** The state of `apply` after the first `n` edits. */
  ghost predicate Progress(edits: seq<Edit>, n: nat, texts: map<nat, string>, seen: set<Loc>, sources: nat -> string)
    requires n <= |edits|
  {
    && seen == Locs(Accepted(edits[..n])) && InRange(Accepted(edits[..n]), sources)
    && (forall f: nat :: f in texts <==> HasFile(edits[..n], f))
    && TextsAre(texts, Accepted(edits[..n]), sources)
  }

  /** The text of a file is read when its first edit is met. */
  function WithFile(texts: map<nat, string>, f: nat, sources: nat -> string): map<nat, string> {
    if f in texts then texts else texts[f := sources(f)]
  }

  lemma FileIsRead(edits: seq<Edit>, n: nat, texts: map<nat, string>, seen: set<Loc>, sources: nat -> string)
    requires n < |edits| && Progress(edits, n, texts, seen, sources)
    ensures var after := WithFile(texts, edits[n].loc.file, sources);
      TextsAre(after, Accepted(edits[..n]), sources) && forall f: nat :: f in after <==> HasFile(edits[..n + 1], f)
  {
    if edits[n].loc.file !in texts { NewFile(edits[..n], edits[n].loc.file, texts, sources); }
    forall f: nat ensures HasFile(edits[..n + 1], f) <==> HasFile(edits[..n], f) || f == edits[n].loc.file {
      FilesGrow(edits, n, f);
    }
  }

  lemma RangeCheck(edits: seq<Edit>, n: nat, texts: map<nat, string>, seen: set<Loc>, sources: nat -> string)
    requires SortedBackwards(edits) && WellFormed(edits) && n < |edits| && Progress(edits, n, texts, seen, sources)
    requires !HasSeen(seen, edits[n].loc)
    ensures var e := edits[n];
      var now := WithFile(texts, e.loc.file, sources);
      e.loc.end <= |now[e.loc.file]| <==> e.loc.end <= |sources(e.loc.file)|
  {
    var e := edits[n];
    FileIsRead(edits, n, texts, seen, sources);
    StaysDescending(edits, n);
    InFront(Accepted(edits[..n]), e, sources);
    OfFileWithin(Accepted(edits[..n]), e.loc.file, sources);
    RangeIsOriginal(sources(e.loc.file), OfFile(Accepted(edits[..n]), e.loc.file), e);
  }

  lemma AcceptedTexts(edits: seq<Edit>, n: nat, texts: map<nat, string>, seen: set<Loc>, sources: nat -> string)
    requires SortedBackwards(edits) && WellFormed(edits) && n < |edits| && Progress(edits, n, texts, seen, sources)
    requires !HasSeen(seen, edits[n].loc) && edits[n].loc.end <= |sources(edits[n].loc.file)|
    ensures var e, accepted := edits[n], Accepted(edits[..n]);
      var now := WithFile(texts, e.loc.file, sources);
      && e.loc.begin <= e.loc.end <= |now[e.loc.file]|
      && InRange(accepted + [e], sources)
      && TextsAre(now[e.loc.file := Replaced(now[e.loc.file], e)], accepted + [e], sources)
  {
    FileIsRead(edits, n, texts, seen, sources);
    StaysDescending(edits, n);
    AppendInRange(Accepted(edits[..n]), edits[n], sources);
    AcceptKeepsTexts(WithFile(texts, edits[n].loc.file, sources), Accepted(edits[..n]), sources, edits[n]);
  }

  lemma AppendInRange(accepted: seq<Edit>, e: Edit, sources: nat -> string)
    requires InRange(accepted, sources) && e.loc.end <= |sources(e.loc.file)|
    ensures InRange(accepted + [e], sources)
  {
  }

  lemma StaysDescending(edits: seq<Edit>, n: nat)
    requires SortedBackwards(edits) && WellFormed(edits) && n < |edits|
    requires !HasSeen(Locs(Accepted(edits[..n])), edits[n].loc)
    ensures Descending(Accepted(edits[..n])) && Descending(Accepted(edits[..n]) + [edits[n]])
  {
    AcceptedStep(edits, n);
    AcceptedAreDisjoint(edits[..n]);
    AcceptedAreDisjoint(edits[..n + 1]);
  }

  lemma ProgressAccepted(edits: seq<Edit>, n: nat, texts: map<nat, string>, seen: set<Loc>, sources: nat -> string)
    requires SortedBackwards(edits) && WellFormed(edits) && n < |edits| && Progress(edits, n, texts, seen, sources)
    requires !HasSeen(seen, edits[n].loc) && edits[n].loc.end <= |sources(edits[n].loc.file)|
    ensures var e := edits[n];
      var now := WithFile(texts, e.loc.file, sources);
      && e.loc.begin <= e.loc.end <= |now[e.loc.file]|
      && Progress(edits, n + 1, now[e.loc.file := Replaced(now[e.loc.file], e)], seen + {e.loc}, sources)
  {
    var e, accepted := edits[n], Accepted(edits[..n]);
    FileIsRead(edits, n, texts, seen, sources);
    AcceptedTexts(edits, n, texts, seen, sources);
    AcceptedStep(edits, n);
  }

  lemma AcceptedStep(edits: seq<Edit>, n: nat)
    requires n < |edits| && !HasSeen(Locs(Accepted(edits[..n])), edits[n].loc)
    ensures Accepted(edits[..n + 1]) == Accepted(edits[..n]) + [edits[n]]
    ensures Locs(Accepted(edits[..n + 1])) == Locs(Accepted(edits[..n])) + {edits[n].loc}
  {
    var accepted, e := Accepted(edits[..n]), edits[n];
    assert edits[..n + 1][..n] == edits[..n];
    assert (accepted + [e])[..|accepted|] == accepted;
  }

  lemma ProgressRejected(edits: seq<Edit>, n: nat, texts: map<nat, string>, seen: set<Loc>, sources: nat -> string)
    requires SortedBackwards(edits) && WellFormed(edits) && n < |edits| && Progress(edits, n, texts, seen, sources)
    requires HasSeen(seen, edits[n].loc)
    ensures Progress(edits, n + 1, WithFile(texts, edits[n].loc.file, sources), seen, sources)
  {
    FileIsRead(edits, n, texts, seen, sources);
    RejectedStep(edits, n);
  }

  lemma RejectedStep(edits: seq<Edit>, n: nat)
    requires n < |edits| && HasSeen(Locs(Accepted(edits[..n])), edits[n].loc)
    ensures Accepted(edits[..n + 1]) == Accepted(edits[..n])
  {
    assert edits[..n + 1][..n] == edits[..n];
  }

  /** The loop body of `apply`. */
  method ApplyOne(edits: seq<Edit>, n: nat, texts: map<nat, string>, seen: set<Loc>, sources: nat -> string)
    returns (texts': map<nat, string>, seen': set<Loc>, ok: bool)
    requires SortedBackwards(edits) && WellFormed(edits) && n < |edits| && Progress(edits, n, texts, seen, sources)
    ensures ok ==> Progress(edits, n + 1, texts', seen', sources)
    ensures !ok ==> !HasSeen(seen, edits[n].loc) && edits[n].loc.end > |sources(edits[n].loc.file)|
  {
    var e := edits[n];
    texts', seen', ok := texts, seen, true;
    if e.loc.file !in texts {
      texts' := texts[e.loc.file := sources(e.loc.file)];
    }
    if HasSeen(seen, e.loc) {
      ProgressRejected(edits, n, texts, seen, sources);
      return;
    }
    RangeCheck(edits, n, texts, seen, sources);
    if e.loc.end > |texts'[e.loc.file]| {
      ok := false;
      return;
    }
    ProgressAccepted(edits, n, texts, seen, sources);
    seen' := seen + {e.loc};
    texts' := texts'[e.loc.file := Replaced(texts'[e.loc.file], e)];
  }

  /**
   * `apply` on edits in sorted order, over the texts of the files. An accepted edit that ends past the end of its
   * text makes the original throw.
   */
  method ApplySorted(edits: seq<Edit>, sources: nat -> string) returns (ret: Option<map<nat, string>>)
    requires SortedBackwards(edits) && WellFormed(edits)
    ensures IsOutcome(ret, edits, sources)
  {
    AcceptedAreDisjoint(edits);
    AcceptedAreDistinct(edits);
    var texts: map<nat, string> := map[];
    var seen: set<Loc> := {};
    for n := 0 to |edits|
      invariant Progress(edits, n, texts, seen, sources)
    {
      var ok: bool;
      texts, seen, ok := ApplyOne(edits, n, texts, seen, sources);
      if !ok {
        OutOfRange(edits, n, sources);
        return None;
      }
    }
    assert edits[..|edits|] == edits;
    ret := Some(texts);
  }

  lemma OutOfRange(edits: seq<Edit>, n: nat, sources: nat -> string)
    requires n < |edits| && !HasSeen(Locs(Accepted(edits[..n])), edits[n].loc)
    requires edits[n].loc.end > |sources(edits[n].loc.file)|
    ensures !InRange(Accepted(edits), sources)
  {
    AcceptedStep(edits, n);
    AcceptedGrows(edits, n + 1);
    assert Accepted(edits)[|Accepted(edits[..n])|] == edits[n];
  }

  lemma FilesGrow(edits: seq<Edit>, n: nat, f: nat)
    requires n < |edits|
    ensures HasFile(edits[..n + 1], f) <==> HasFile(edits[..n], f) || f == edits[n].loc.file
  {
    var before, after := edits[..n], edits[..n + 1];
    if HasFile(before, f) {
      var i :| 0 <= i < n && before[i].loc.file == f;
      assert after[i].loc.file == f;
    }
    if f == edits[n].loc.file { assert after[n].loc.file == f; }
  }

  lemma NewFile(edits: seq<Edit>, f: nat, texts: map<nat, string>, sources: nat -> string)
    requires !HasFile(edits, f) && TextsAre(texts, Accepted(edits), sources)
    ensures TextsAre(texts[f := sources(f)], Accepted(edits), sources)
  {
    if HasFile(Accepted(edits), f) { AcceptedFiles(edits, f); }
    OfFileIsEmpty(Accepted(edits), f);
    UneditedText(texts, Accepted(edits), f, sources);
  }

  lemma UneditedText(texts: map<nat, string>, accepted: seq<Edit>, f: nat, sources: nat -> string)
    requires TextsAre(texts, accepted, sources) && OfFile(accepted, f) == []
    ensures TextsAre(texts[f := sources(f)], accepted, sources)
  {
    assert Simultaneous(sources(f), [], 0) == sources(f);
    var after := texts[f := sources(f)];
    forall g | g in after ensures TextIs(after[g], OfFile(accepted, g), sources(g)) {
      if g != f { assert TextIs(texts[g], OfFile(accepted, g), sources(g)); }
    }
  }

  ghost predicate SortOf(edits: seq<Edit>, sorted: seq<Edit>) {
    multiset(sorted) == multiset(edits) && SortedBackwards(sorted)
  }

  /**
   * The accepted edits do not overlap and have different ranges; the outcome is a text for every file with an edit,
   * with its accepted edits replaced simultaneously, unless one of them lies past the end of its file.
   */
  ghost predicate IsOutcome(ret: Option<map<nat, string>>, sorted: seq<Edit>, sources: nat -> string) {
    && Descending(Accepted(sorted)) && DistinctRanges(Accepted(sorted))
    && (ret.Some? <==> InRange(Accepted(sorted), sources))
    && (ret.Some? ==>
          && (forall f: nat :: f in ret.value <==> HasFile(sorted, f))
          && TextsAre(ret.value, Accepted(sorted), sources))
  }

  /** `apply`: sort, then apply one after the other. */
  method Apply(edits: seq<Edit>, sources: nat -> string) returns (ret: Option<map<nat, string>>)
    requires WellFormed(edits)
    ensures exists sorted :: SortOf(edits, sorted) && IsOutcome(ret, sorted, sources)
  {
    var sorted := SortBackwards(edits);
    forall i | 0 <= i < |sorted| ensures sorted[i].loc.begin <= sorted[i].loc.end {
      assert sorted[i] in multiset(sorted) && sorted[i] in multiset(edits);
    }
    ret := ApplySorted(sorted, sources);
    assert SortOf(edits, sorted) && IsOutcome(ret, sorted, sources);
  }
}
