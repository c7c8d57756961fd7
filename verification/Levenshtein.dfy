/** Edit distance in one column (common/Levenstein.cc). */
module Levenshtein {

  const INT_MAX := 0x7FFF_FFFF

  function Min(a: nat, b: nat): nat {
    if a < b then a else b
  }

  /** The distance by its recurrence on last characters. */
  function Distance(a: string, b: string): nat
    decreases |a| + |b|
  {
    if a == "" then |b|
    else if b == "" then |a|
    else
      var a', b' := a[..|a| - 1], b[..|b| - 1];
      Min(Min(Distance(a', b), Distance(a, b')) + 1,
          Distance(a', b') + (if a[|a| - 1] == b[|b| - 1] then 0 else 1))
  }

  // ---------------------------------------------------------------- edit scripts

  datatype Op = Keep | Substitute(c: char) | Insert(c: char) | Delete

  /** `script` turns `a` into `b`; its last operation deals with the last characters. */
  predicate Turns(script: seq<Op>, a: string, b: string) {
    if script == [] then a == "" && b == ""
    else
      var init := script[..|script| - 1];
      match script[|script| - 1]
      case Keep => a != "" && b != "" && a[|a| - 1] == b[|b| - 1] && Turns(init, a[..|a| - 1], b[..|b| - 1])
      case Substitute(c) => a != "" && b != "" && b[|b| - 1] == c && Turns(init, a[..|a| - 1], b[..|b| - 1])
      case Insert(c) => b != "" && b[|b| - 1] == c && Turns(init, a, b[..|b| - 1])
      case Delete => a != "" && Turns(init, a[..|a| - 1], b)
  }

  function Cost(script: seq<Op>): nat {
    if script == [] then 0
    else Cost(script[..|script| - 1]) + (if script[|script| - 1].Keep? then 0 else 1)
  }

  /** No script is cheaper than the distance. */
  lemma {:induction false} DistanceIsLeast(script: seq<Op>, a: string, b: string)
    requires Turns(script, a, b)
    ensures Distance(a, b) <= Cost(script)
  {
    if script != [] {
      var init := script[..|script| - 1];
      match script[|script| - 1]
      case Keep => DistanceIsLeast(init, a[..|a| - 1], b[..|b| - 1]);
      case Substitute(_) => DistanceIsLeast(init, a[..|a| - 1], b[..|b| - 1]);
      case Insert(_) => DistanceIsLeast(init, a, b[..|b| - 1]);
      case Delete => DistanceIsLeast(init, a[..|a| - 1], b);
    }
  }

  lemma Extended(init: seq<Op>, op: Op)
    ensures (init + [op])[..|init|] == init && (init + [op])[|init|] == op
    ensures Cost(init + [op]) == Cost(init) + (if op.Keep? then 0 else 1)
  {
    assert (init + [op])[..|init|] == init;
  }

  /** Some script costs exactly the distance. */
  lemma {:induction false} DistanceIsReached(a: string, b: string) returns (script: seq<Op>)
    ensures Turns(script, a, b) && Cost(script) == Distance(a, b)
    decreases |a| + |b|
  {
    if a == "" && b == "" {
      script := [];
    } else if a == "" || (b != "" && Distance(a, b) == Distance(a, b[..|b| - 1]) + 1) {
      var init := DistanceIsReached(a, b[..|b| - 1]);
      Extended(init, Insert(b[|b| - 1]));
      script := init + [Insert(b[|b| - 1])];
    } else if b == "" || Distance(a, b) == Distance(a[..|a| - 1], b) + 1 {
      var init := DistanceIsReached(a[..|a| - 1], b);
      Extended(init, Delete);
      script := init + [Delete];
    } else {
      var init := DistanceIsReached(a[..|a| - 1], b[..|b| - 1]);
      var op := if a[|a| - 1] == b[|b| - 1] then Keep else Substitute(b[|b| - 1]);
      Extended(init, op);
      script := init + [op];
    }
  }

  lemma {:induction false} DistanceSymmetric(a: string, b: string)
    ensures Distance(a, b) == Distance(b, a)
    decreases |a| + |b|
  {
    if a != "" && b != "" {
      DistanceSymmetric(a[..|a| - 1], b);
      DistanceSymmetric(a, b[..|b| - 1]);
      DistanceSymmetric(a[..|a| - 1], b[..|b| - 1]);
    }
  }

  lemma {:induction false} DistanceBounds(a: string, b: string)
    ensures |b| - |a| <= Distance(a, b) && |a| - |b| <= Distance(a, b)
    ensures Distance(a, b) <= if |a| < |b| then |b| else |a|
    decreases |a| + |b|
  {
    if a != "" && b != "" {
      DistanceBounds(a[..|a| - 1], b);
      DistanceBounds(a, b[..|b| - 1]);
      DistanceBounds(a[..|a| - 1], b[..|b| - 1]);
    }
  }

  lemma {:induction false} DistanceToSelf(a: string)
    ensures Distance(a, a) == 0
  {
    if a != "" { DistanceToSelf(a[..|a| - 1]); }
  }

  // ---------------------------------------------------------------- the column

  /** Entry `y` holds the distance between the first `y` characters of `a` and `b`. */
  ghost predicate Holds(column: seq<int>, a: string, b: string, from: nat, to: nat)
    requires to <= |column| && to <= |a| + 1
  {
    forall y :: from <= y < to ==> column[y] == Distance(a[..y], b)
  }

  lemma Recurrence(a: string, b: string, x: nat, y: nat)
    requires 0 < x <= |b| && 0 < y <= |a|
    ensures Distance(a[..y], b[..x]) ==
      Min(Min(Distance(a[..y - 1], b[..x]), Distance(a[..y], b[..x - 1])) + 1,
          Distance(a[..y - 1], b[..x - 1]) + (if a[y - 1] == b[x - 1] then 0 else 1))
  {
    assert a[..y][..y - 1] == a[..y - 1] && b[..x][..x - 1] == b[..x - 1];
  }

  class Levenstein {
    var column: seq<int>

    /** Turn the column for the first `x - 1` characters of `b` into the one for the first `x`. */
    method NextColumn(a: string, b: string, x: nat)
      requires 0 < x <= |b| && |column| == |a| + 1 && Holds(column, a, b[..x - 1], 0, |a| + 1)
      modifies this
      ensures |column| == |a| + 1 && Holds(column, a, b[..x], 0, |a| + 1)
    {
      column := column[0 := x];
      var lastDiagonal: int := x - 1;
      assert a[..0] == "";
      for y := 1 to |a| + 1
        invariant |column| == |a| + 1
        invariant Holds(column, a, b[..x], 0, y) && Holds(column, a, b[..x - 1], y, |a| + 1)
        invariant lastDiagonal == Distance(a[..y - 1], b[..x - 1])
      {
        Recurrence(a, b, x, y);
        var oldDiagonal := column[y];
        var up, left := column[y] + 1, column[y - 1] + 1;
        var diagonal := lastDiagonal + (if a[y - 1] == b[x - 1] then 0 else 1);
        var best := if up < left then up else left;
        column := column[y := if best < diagonal then best else diagonal];
        lastDiagonal := oldDiagonal;
      }
    }

    /** The distance of a string to one that is at least as long. */
    method Fill(a: string, b: string) returns (result: int)
      requires |a| <= |b|
      modifies this
      ensures result == Distance(a, b)
    {
      column := seq(|a| + 1, i => i);
      assert b[..0] == "";
      forall y | 0 <= y <= |a| ensures column[y] == Distance(a[..y], b[..0]) {}
      for x := 1 to |b| + 1
        invariant |column| == |a| + 1 && Holds(column, a, b[..x - 1], 0, |a| + 1)
      {
        NextColumn(a, b, x);
      }
      assert a[..|a|] == a && b[..|b|] == b;
      result := column[|a|];
    }

    /**
     * `distance`, whatever an earlier call left in the column. `shared` says that both views are the same memory.
     * The answer is the true distance, or INT_MAX, and then the distance exceeds the bound.
     */
    method BoundedDistance(s1: string, s2: string, shared: bool, bound: int) returns (result: int)
      requires |s1| < INT_MAX && |s2| < INT_MAX && (shared ==> s1 == s2)
      modifies this
      ensures result == Distance(s1, s2) || (result == INT_MAX && Distance(s1, s2) > bound)
      ensures result == INT_MAX <==> !shared && (|s1| - |s2| > bound || |s2| - |s1| > bound)
    {
      DistanceToSelf(s1);
      DistanceSymmetric(s1, s2);
      DistanceBounds(s1, s2);
      if shared {
        return 0;
      }
      var a, b := s1, s2;
      if |s2| < |s1| {
        a, b := s2, s1;
      }
      if |b| - |a| > bound {
        return INT_MAX;
      }
      result := Fill(a, b);
    }
  }
}
