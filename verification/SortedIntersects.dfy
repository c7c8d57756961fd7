/** Whether two sorted vectors share a value, by leaping search (core/FileHash.cc). */
module SortedIntersects {

  ghost predicate Sorted(s: seq<nat>) {
    forall i, j :: 0 <= i < j < |s| ==> s[i] <= s[j]
  }

  /** `std::lower_bound`: the first position from `from` on whose value is at least `x`. */
  method LowerBound(s: seq<nat>, from: nat, x: nat) returns (r: nat)
    requires Sorted(s) && from <= |s|
    ensures from <= r <= |s|
    ensures forall i :: from <= i < r ==> s[i] < x
    ensures forall i :: r <= i < |s| ==> s[i] >= x
  {
    var lo, hi := from, |s|;
    while lo < hi
      invariant from <= lo <= hi <= |s|
      invariant forall i :: from <= i < lo ==> s[i] < x
      invariant forall i :: hi <= i < |s| ==> s[i] >= x
    {
      var mid := (lo + hi) / 2;
      if s[mid] < x {
        lo := mid + 1;
      } else {
        hi := mid;
      }
    }
    r := lo;
  }

  ghost predicate Share(a: seq<nat>, b: seq<nat>, i: nat, j: nat) {
    exists k, l :: i <= k < |a| && j <= l < |b| && a[k] == b[l]
  }

  /**
   * Each side in turn leaps to the first value not below the other's current one. Two leaps in a row that stay in
   * place mean that the current values are equal.
   */
  method Intersects(a: seq<nat>, b: seq<nat>) returns (r: bool)
    requires Sorted(a) && Sorted(b)
    ensures r <==> exists k, l :: 0 <= k < |a| && 0 <= l < |b| && a[k] == b[l]
  {
    var aIt, bIt := 0, 0;
    var prevEqual := false;
    while bIt != |b|
      invariant aIt <= |a| && bIt <= |b|
      invariant Share(a, b, aIt, bIt) <==> Share(a, b, 0, 0)
      invariant prevEqual ==> aIt < |a| && bIt < |b| && b[bIt] >= a[aIt]
      decreases |a| + |b| - aIt - bIt
    {
      var aNext := LowerBound(a, aIt, b[bIt]);
      var aEqual := aNext == aIt;
      LeapKeeps(a, b, aIt, bIt, aNext);
      aIt := aNext;
      if aEqual && prevEqual {
        assert a[aIt] == b[bIt];
        assert Share(a, b, aIt, bIt);
        return true;
      }
      prevEqual := aEqual;
      if aIt == |a| {
        break;
      }
      var bNext := LowerBound(b, bIt, a[aIt]);
      var bEqual := bNext == bIt;
      LeapBack(a, b, aIt, bIt, bNext);
      bIt := bNext;
      if bEqual && prevEqual {
        assert Share(a, b, aIt, bIt);
        return true;
      }
      prevEqual := bEqual;
    }
    assert !Share(a, b, aIt, bIt);
    r := false;
  }

  lemma LeapKeeps(a: seq<nat>, b: seq<nat>, i: nat, j: nat, next: nat)
    requires Sorted(b) && i <= next <= |a| && j < |b| && forall k :: i <= k < next ==> a[k] < b[j]
    ensures Share(a, b, next, j) <==> Share(a, b, i, j)
  {
  }

  lemma LeapBack(a: seq<nat>, b: seq<nat>, i: nat, j: nat, next: nat)
    requires Sorted(a) && j <= next <= |b| && i < |a| && forall l :: j <= l < next ==> b[l] < a[i]
    ensures Share(a, b, i, next) <==> Share(a, b, i, j)
  {
  }
}
