/** The ignore rules of the directory walk (common/common.cc, `isFileIgnored`). */
module IgnorePatterns {

  /** `pattern` occurs in `path` at `pos`. */
  predicate OccursAt(path: string, pattern: string, pos: nat) {
    pos + |pattern| <= |path| && path[pos..pos + |pattern|] == pattern
  }

  /** The occurrence ends a file or folder name: at the end of the path, or before a slash. */
  predicate EndsName(path: string, pattern: string, pos: nat)
    requires pos + |pattern| <= |path|
  {
    pos + |pattern| == |path| || path[pos + |pattern|] == '/'
  }

  ghost predicate MatchesAt(path: string, pattern: string, pos: nat) {
    OccursAt(path, pattern, pos) && EndsName(path, pattern, pos)
  }

  /** What the rules are for: the pattern occurs as whole folder or file names. */
  ghost predicate Matches(path: string, pattern: string) {
    exists pos: nat :: MatchesAt(path, pattern, pos)
  }

  /** `find`: the first occurrence from `from` on. */
  method Find(path: string, pattern: string, from: nat) returns (pos: nat, found: bool)
    requires from <= |path|
    ensures found ==> from <= pos && OccursAt(path, pattern, pos)
    ensures found ==> forall p: nat :: from <= p < pos ==> !OccursAt(path, pattern, p)
    ensures !found ==> forall p: nat :: p >= from ==> !OccursAt(path, pattern, p)
  {
    pos := from;
    while pos + |pattern| <= |path|
      invariant from <= pos
      invariant forall p: nat :: from <= p < pos ==> !OccursAt(path, pattern, p)
      decreases |path| - pos
    {
      if path[pos..pos + |pattern|] == pattern {
        return pos, true;
      }
      pos := pos + 1;
    }
    return pos, false;
  }

  /** What the scan finds from `from` on: it resumes behind an occurrence, not at the next character. */
  ghost predicate ScanFinds(path: string, pattern: string, from: nat)
    requires pattern != ""
    decreases if from <= |path| then |path| - from else 0
  {
    if from + |pattern| > |path| then false
    else if !OccursAt(path, pattern, from) then ScanFinds(path, pattern, from + 1)
    else EndsName(path, pattern, from) || ScanFinds(path, pattern, from + |pattern|)
  }

  lemma {:induction false} SkipAhead(path: string, pattern: string, from: nat, until: nat)
    requires pattern != "" && from <= until && forall p: nat :: from <= p < until ==> !OccursAt(path, pattern, p)
    ensures ScanFinds(path, pattern, from) == ScanFinds(path, pattern, until)
    decreases until - from
  {
    if from < until { SkipAhead(path, pattern, from + 1, until); }
  }

  lemma {:induction false} NothingAhead(path: string, pattern: string, from: nat)
    requires pattern != "" && forall p: nat :: p >= from ==> !OccursAt(path, pattern, p)
    ensures !ScanFinds(path, pattern, from)
    decreases if from <= |path| then |path| - from else 0
  {
    if from + |pattern| <= |path| { NothingAhead(path, pattern, from + 1); }
  }

  /** The loop over occurrences of a relative pattern. */
  method Scan(path: string, pattern: string) returns (r: bool)
    requires pattern != ""
    ensures r == ScanFinds(path, pattern, 0)
  {
    var pos := 0;
    while true
      invariant pos <= |path| && ScanFinds(path, pattern, pos) == ScanFinds(path, pattern, 0)
      decreases |path| - pos
    {
      var at, found := Find(path, pattern, pos);
      if !found {
        NothingAhead(path, pattern, pos);
        return false;
      }
      SkipAhead(path, pattern, pos, at);
      if EndsName(path, pattern, at) {
        return true;
      }
      pos := at + |pattern|;
    }
  }

  /** What the scan finds is there. */
  lemma {:induction false} ScanIsSound(path: string, pattern: string, from: nat)
    requires pattern != "" && ScanFinds(path, pattern, from)
    ensures Matches(path, pattern)
    decreases if from <= |path| then |path| - from else 0
  {
    if !OccursAt(path, pattern, from) {
      ScanIsSound(path, pattern, from + 1);
    } else if EndsName(path, pattern, from) {
      assert MatchesAt(path, pattern, from);
    } else {
      ScanIsSound(path, pattern, from + |pattern|);
    }
  }

  /** The pattern can overlap itself by `k` characters, and then goes on with something other than a slash. */
  ghost predicate Overlaps(pattern: string, k: nat) {
    0 < k < |pattern| && pattern[|pattern| - k..] == pattern[..k] && pattern[k] != '/'
  }

  ghost predicate OverlapFree(pattern: string) {
    forall k: nat :: !Overlaps(pattern, k)
  }

  /** A match the scan jumps over lies across an occurrence that ends no name: the pattern overlaps itself. */
  lemma SkippedMatchOverlaps(path: string, pattern: string, at: nat, pos: nat)
    requires OccursAt(path, pattern, at) && !EndsName(path, pattern, at)
    requires at < pos < at + |pattern| && OccursAt(path, pattern, pos)
    ensures Overlaps(pattern, at + |pattern| - pos)
  {
    var k := at + |pattern| - pos;
    var first, second := path[at..at + |pattern|], path[pos..pos + |pattern|];
    assert first == pattern && second == pattern;
    assert pattern[|pattern| - k..] == path[pos..at + |pattern|] == second[..k] by {
      assert first[|pattern| - k..] == path[pos..at + |pattern|];
    }
    assert second[k] == path[at + |pattern|];
  }

  /** Without such overlaps the scan misses nothing. */
  lemma {:induction false} ScanIsComplete(path: string, pattern: string, from: nat, pos: nat)
    requires pattern != "" && OverlapFree(pattern) && from <= pos && MatchesAt(path, pattern, pos)
    ensures ScanFinds(path, pattern, from)
    decreases pos - from
  {
    if from == pos {
    } else if !OccursAt(path, pattern, from) {
      ScanIsComplete(path, pattern, from + 1, pos);
    } else if !EndsName(path, pattern, from) {
      if pos < from + |pattern| {
        SkippedMatchOverlaps(path, pattern, from, pos);
        assert false;
      }
      ScanIsComplete(path, pattern, from + |pattern|, pos);
    }
  }

  /** With such an overlap there is a path the pattern matches and the scan does not. */
  lemma OverlapIsMissed(pattern: string, k: nat) returns (path: string)
    requires Overlaps(pattern, k)
    ensures Matches(path, pattern) && !ScanFinds(path, pattern, 0)
  {
    var n := |pattern|;
    path := pattern + pattern[k..];
    assert path[0..n] == pattern && path[n] == pattern[k];
    assert path[n - k..] == pattern by {
      assert path[n - k..] == pattern[n - k..] + pattern[k..];
      assert pattern == pattern[..k] + pattern[k..];
    }
    assert path[n - k..n - k + n] == pattern;
    assert MatchesAt(path, pattern, n - k);
    assert n + n > |path|;
  }

  /** The ignore scan is right about every path exactly for the patterns that do not overlap themselves that way. */
  lemma ScanIsExactIff(pattern: string)
    requires pattern != ""
    ensures OverlapFree(pattern) <==> forall path: string :: ScanFinds(path, pattern, 0) <==> Matches(path, pattern)
  {
    if OverlapFree(pattern) {
      forall path: string ensures ScanFinds(path, pattern, 0) <==> Matches(path, pattern) {
        if Matches(path, pattern) {
          var pos: nat :| MatchesAt(path, pattern, pos);
          ScanIsComplete(path, pattern, 0, pos);
        }
        if ScanFinds(path, pattern, 0) { ScanIsSound(path, pattern, 0); }
      }
    } else {
      var k: nat :| Overlaps(pattern, k);
      var path := OverlapIsMissed(pattern, k);
    }
  }

  /** A pattern of one name, a slash and no other, never overlaps itself. */
  lemma OneNameIsExact(pattern: string)
    requires pattern != "" && pattern[0] == '/' && forall i :: 1 <= i < |pattern| ==> pattern[i] != '/'
    ensures OverlapFree(pattern)
  {
    forall k: nat ensures !Overlaps(pattern, k) {
      if 0 < k < |pattern| { assert pattern[|pattern| - k..][0] != pattern[..k][0]; }
    }
  }

  /** The file or folder name that begins at `pos`: what comes before the next slash. */
  function NameAt(path: string, pos: nat): string
    requires pos <= |path|
    decreases |path| - pos
  {
    if pos == |path| || path[pos] == '/' then "" else [path[pos]] + NameAt(path, pos + 1)
  }

  lemma {:induction false} NameOccurs(path: string, name: string, pos: nat)
    requires pos <= |path| && forall i :: 0 <= i < |name| ==> name[i] != '/'
    ensures NameAt(path, pos) == name <==> OccursAt(path, name, pos) && EndsName(path, name, pos)
    decreases |path| - pos
  {
    assert name != "" && OccursAt(path, name, pos) ==> path[pos] == path[pos..pos + |name|][0] == name[0];
    if pos < |path| && path[pos] != '/' && name != "" {
      NameOccurs(path, name[1..], pos + 1);
      if path[pos] == name[0] && OccursAt(path, name[1..], pos + 1) {
        assert path[pos..pos + |name|] == [path[pos]] + path[pos + 1..pos + |name|];
      }
      if OccursAt(path, name, pos) {
        assert path[pos + 1..pos + |name|] == name[1..];
      }
    }
  }

  /** A pattern of one name matches exactly the paths in which some file or folder has that name. */
  lemma OneNameMatches(path: string, name: string)
    requires forall i :: 0 <= i < |name| ==> name[i] != '/'
    ensures Matches(path, "/" + name) <==>
      exists pos :: 0 <= pos < |path| && path[pos] == '/' && NameAt(path, pos + 1) == name
  {
    forall pos: nat ensures MatchesAt(path, "/" + name, pos) <==>
      pos < |path| && path[pos] == '/' && NameAt(path, pos + 1) == name
    {
      OneNameMatchesAt(path, name, pos);
    }
  }

  lemma OneNameMatchesAt(path: string, name: string, pos: nat)
    requires forall i :: 0 <= i < |name| ==> name[i] != '/'
    ensures MatchesAt(path, "/" + name, pos) <==>
      pos < |path| && path[pos] == '/' && NameAt(path, pos + 1) == name
  {
    if pos < |path| {
      NameOccurs(path, name, pos + 1);
      if pos + 1 + |name| <= |path| { SlashOccurs(path, name, pos); }
    }
  }

  lemma SlashOccurs(path: string, name: string, pos: nat)
    requires pos + 1 + |name| <= |path|
    ensures OccursAt(path, "/" + name, pos) <==> path[pos] == '/' && OccursAt(path, name, pos + 1)
    ensures EndsName(path, "/" + name, pos) <==> EndsName(path, name, pos + 1)
  {
    var found := path[pos..pos + 1 + |name|];
    assert found == [path[pos]] + path[pos + 1..pos + 1 + |name|];
    assert found[0] == path[pos] && found[1..] == path[pos + 1..pos + 1 + |name|];
    assert ("/" + name)[0] == '/' && ("/" + name)[1..] == name;
  }

  ghost predicate AnyAbsolute(path: string, patterns: seq<string>) {
    exists i :: 0 <= i < |patterns| && MatchesAt(path, patterns[i], 0)
  }

  ghost predicate AnyRelative(path: string, patterns: seq<string>) {
    exists i :: 0 <= i < |patterns| && Matches(path, patterns[i])
  }

  ghost predicate AnyFound(path: string, patterns: seq<string>)
    requires forall i :: 0 <= i < |patterns| ==> patterns[i] != ""
  {
    exists i :: 0 <= i < |patterns| && ScanFinds(path, patterns[i], 0)
  }

  /** `isFileIgnored`, on the path behind the base path. */
  method IsFileIgnored(path: string, absolutePatterns: seq<string>, relativePatterns: seq<string>) returns (r: bool)
    requires forall i :: 0 <= i < |relativePatterns| ==> relativePatterns[i] != ""
    ensures r <==> AnyAbsolute(path, absolutePatterns) || AnyFound(path, relativePatterns)
    ensures (forall i :: 0 <= i < |relativePatterns| ==> OverlapFree(relativePatterns[i])) ==>
      (r <==> AnyAbsolute(path, absolutePatterns) || AnyRelative(path, relativePatterns))
  {
    forall i | 0 <= i < |relativePatterns| ensures OverlapFree(relativePatterns[i]) ==>
      (ScanFinds(path, relativePatterns[i], 0) <==> Matches(path, relativePatterns[i]))
    {
      ScanIsExactIff(relativePatterns[i]);
    }
    for i := 0 to |absolutePatterns|
      invariant forall j :: 0 <= j < i ==> !MatchesAt(path, absolutePatterns[j], 0)
    {
      var p := absolutePatterns[i];
      if |p| <= |path| && path[..|p|] == p && EndsName(path, p, 0) {
        assert path[0..0 + |p|] == p;
        return true;
      }
    }
    for i := 0 to |relativePatterns|
      invariant forall j :: 0 <= j < i ==> !ScanFinds(path, relativePatterns[j], 0)
    {
      var found := Scan(path, relativePatterns[i]);
      if found {
        return true;
      }
    }
    return false;
  }
}
