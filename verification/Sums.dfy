/** Sums of a weight, and unions of multisets, over a sequence. */
module Sums {

  function Total<T>(s: seq<T>, f: T -> nat): nat {
    if s == [] then 0 else f(s[0]) + Total(s[1..], f)
  }

  ghost function Gather<T>(s: seq<T>, f: T -> multiset<string>): multiset<string> {
    if s == [] then multiset{} else f(s[0]) + Gather(s[1..], f)
  }

  lemma {:induction false} TotalConcat<T>(a: seq<T>, b: seq<T>, f: T -> nat)
    ensures Total(a + b, f) == Total(a, f) + Total(b, f)
  {
    if a == [] {
      assert a + b == b;
    } else {
      assert (a + b)[1..] == a[1..] + b;
      TotalConcat(a[1..], b, f);
    }
  }

  lemma {:induction false} GatherConcat<T>(a: seq<T>, b: seq<T>, f: T -> multiset<string>)
    ensures Gather(a + b, f) == Gather(a, f) + Gather(b, f)
  {
    if a == [] {
      assert a + b == b;
    } else {
      assert (a + b)[1..] == a[1..] + b;
      GatherConcat(a[1..], b, f);
    }
  }

  function RemoveAt<T>(s: seq<T>, i: nat): seq<T>
    requires i < |s|
  {
    s[..i] + s[i + 1..]
  }

  lemma TotalAppend<T>(s: seq<T>, x: T, f: T -> nat)
    ensures Total(s + [x], f) == Total(s, f) + f(x)
  {
    TotalConcat(s, [x], f);
  }

  lemma TotalRemove<T>(s: seq<T>, i: nat, f: T -> nat)
    requires i < |s|
    ensures Total(s, f) == Total(RemoveAt(s, i), f) + f(s[i])
  {
    var tail := s[i..];
    assert s == s[..i] + tail && tail[1..] == s[i + 1..];
    TotalConcat(s[..i], tail, f);
    TotalConcat(s[..i], tail[1..], f);
  }

  lemma TotalUpdate<T>(s: seq<T>, i: nat, x: T, f: T -> nat)
    requires i < |s|
    ensures Total(s[i := x], f) + f(s[i]) == Total(s, f) + f(x)
  {
    TotalRemove(s, i, f);
    TotalRemove(s[i := x], i, f);
    assert RemoveAt(s, i) == RemoveAt(s[i := x], i);
  }

  lemma GatherAppend<T>(s: seq<T>, x: T, f: T -> multiset<string>)
    ensures Gather(s + [x], f) == Gather(s, f) + f(x)
  {
    GatherConcat(s, [x], f);
  }

  lemma GatherRemove<T>(s: seq<T>, i: nat, f: T -> multiset<string>)
    requires i < |s|
    ensures Gather(s, f) == Gather(RemoveAt(s, i), f) + f(s[i])
  {
    var tail := s[i..];
    assert s == s[..i] + tail && tail[1..] == s[i + 1..];
    GatherConcat(s[..i], tail, f);
    GatherConcat(s[..i], tail[1..], f);
  }

  lemma GatherUpdate<T>(s: seq<T>, i: nat, x: T, f: T -> multiset<string>)
    requires i < |s|
    ensures Gather(s[i := x], f) + f(s[i]) == Gather(s, f) + f(x)
  {
    GatherRemove(s, i, f);
    GatherRemove(s[i := x], i, f);
    assert RemoveAt(s, i) == RemoveAt(s[i := x], i);
  }

  lemma TotalAtLeast<T>(s: seq<T>, f: T -> nat, i: nat)
    requires i < |s|
    ensures f(s[i]) <= Total(s, f)
  {
    TotalRemove(s, i, f);
  }

  lemma {:induction false} TotalAllZero<T>(s: seq<T>, f: T -> nat)
    requires forall i :: 0 <= i < |s| ==> f(s[i]) == 0
    ensures Total(s, f) == 0
  {
    if s != [] { TotalAllZero(s[1..], f); }
  }

  lemma {:induction false} GatherAllEmpty<T>(s: seq<T>, f: T -> multiset<string>)
    requires forall i :: 0 <= i < |s| ==> f(s[i]) == multiset{}
    ensures Gather(s, f) == multiset{}
  {
    if s != [] { GatherAllEmpty(s[1..], f); }
  }


  lemma {:induction false} TotalAtMostSum<T>(s: seq<T>, f: T -> nat, g: T -> nat, h: T -> nat)
    requires forall i :: 0 <= i < |s| ==> f(s[i]) <= g(s[i]) + h(s[i])
    ensures Total(s, f) <= Total(s, g) + Total(s, h)
  {
    if s != [] { TotalAtMostSum(s[1..], f, g, h); }
  }

  lemma {:induction false} TotalSumIsLength<T>(s: seq<T>, f: T -> nat, g: T -> nat)
    requires forall i :: 0 <= i < |s| ==> f(s[i]) + g(s[i]) == 1
    ensures Total(s, f) + Total(s, g) == |s|
  {
    if s != [] { TotalSumIsLength(s[1..], f, g); }
  }
}
