/** Triangular probing: the positions base + 1, + 2, + 3, ... modulo a power of two. */
module Probing {
  import opened Collections
  import opened Bits
  import opened PowerOfTwo

  function Triangle(i: nat): nat {
    if i == 0 then 0 else Triangle(i - 1) + i
  }

  /** `x & (size - 1)` for a power of two `size`: the remainder of `x`. */
  function Mask(x: nat, size: nat): (r: nat)
    requires size > 0
    ensures r < size
  {
    if x < size then x else Mask(x - size, size)
  }

  lemma {:induction false} MaskHalves(x: nat, half: nat)
    requires half > 0
    ensures Mask(x, 2 * half) == 2 * Mask(x / 2, half) + x % 2
  {
    if x >= 2 * half { MaskHalves(x - 2 * half, half); }
  }

  /** The remainder is what the mask leaves of the bits. */
  lemma {:induction false} MaskIsAnd(x: nat, k: nat)
    ensures And(x, Pow2(k) - 1) == Mask(x, Pow2(k))
    decreases k
  {
    if k > 0 && x > 0 {
      MaskIsAnd(x / 2, k - 1);
      MaskHalves(x, Pow2(k - 1));
      assert (Pow2(k) - 1) / 2 == Pow2(k - 1) - 1 && (Pow2(k) - 1) % 2 == 1;
    }
  }

  lemma {:induction false} MaskQuotient(x: nat, size: nat) returns (q: nat)
    requires size > 0
    ensures x == q * size + Mask(x, size)
  {
    if x < size {
      q := 0;
    } else {
      var p := MaskQuotient(x - size, size);
      q := p + 1;
      assert q * size == p * size + size;
    }
  }

  /** The bucket reached from `hash` after `i` moves, the n-th of which goes `n` buckets ahead. */
  function Probe(hash: nat, i: nat, size: nat): (b: nat)
    requires size > 0
    ensures b < size
  {
    Mask(hash + Triangle(i), size)
  }

  lemma {:induction false} MaskAbsorbs(q: nat, y: nat, size: nat)
    requires size > 0
    ensures Mask(q * size + y, size) == Mask(y, size)
    decreases q
  {
    if q > 0 {
      var p := q - 1;
      assert q * size == p * size + size;
      MaskAbsorbs(p, y, size);
      assert Mask(q * size + y, size) == Mask(q * size + y - size, size);
    }
  }

  /** Each probe is computed from the one before it. */
  lemma ProbeMoves(hash: nat, i: nat, size: nat)
    requires size > 0
    ensures Probe(hash, i + 1, size) == Mask(Probe(hash, i, size) + (i + 1), size)
  {
    var x := hash + Triangle(i);
    var q := MaskQuotient(x, size);
    MaskAbsorbs(q, Mask(x, size) + (i + 1), size);
    assert hash + Triangle(i + 1) == q * size + (Mask(x, size) + (i + 1));
  }

  lemma {:induction false} TriangleGap(i: nat, j: nat)
    requires i <= j
    ensures Triangle(i) <= Triangle(j)
    ensures 2 * (Triangle(j) - Triangle(i)) == (j - i) * (i + j + 1)
    decreases j
  {
    if i < j {
      TriangleGap(i, j - 1);
      var a, b := j - i, i + j;
      assert (a - 1) * b == a * b - b;
      assert a * (b + 1) == a * b + a;
    }
  }

  lemma OddTimesOdd(a: nat, b: nat)
    requires a % 2 == 1 && b % 2 == 1
    ensures a * b % 2 == 1
  {
    var c, d := a / 2, b / 2;
    assert a * b == 2 * (2 * c * d + c + d) + 1 by {
      assert a == 2 * c + 1 && b == 2 * d + 1;
    }
  }

  /** An odd factor does not help a power of two divide a product. */
  lemma {:induction false} OddCancels(a: nat, b: nat, q: nat, m: nat) returns (r: nat)
    requires a % 2 == 1 && a * b == q * Pow2(m)
    ensures b == r * Pow2(m)
    decreases m
  {
    if m == 0 {
      r := b;
    } else {
      var half := q * Pow2(m - 1);
      assert a * b == 2 * half;
      if b % 2 == 1 {
        OddTimesOdd(a, b);
        assert false;
      }
      var c := b / 2;
      assert a * b == 2 * (a * c) by { assert b == 2 * c; }
      r := OddCancels(a, c, q, m - 1);
      assert b == r * Pow2(m) by { assert c == r * Pow2(m - 1); }
    }
  }

  /** Two small factors of different parity have no multiple of 2^m as their product. */
  lemma ProductNotMultiple(a: nat, b: nat, q: nat, m: nat)
    requires 0 < a < Pow2(m) && 0 < b < Pow2(m) && a % 2 == 1 && b % 2 == 0
    ensures a * b != q * Pow2(m)
  {
    if a * b == q * Pow2(m) {
      var r := OddCancels(a, b, q, m);
      MultipleIsLarge(r, Pow2(m));
      assert false;
    }
  }

  lemma MultipleIsLarge(r: nat, p: nat)
    ensures r * p == 0 || r * p >= p
  {
    if r >= 1 { assert r * p == (r - 1) * p + p; }
  }

  lemma HalfProductNotMultiple(t: nat, a: nat, b: nat, q: nat, k: nat)
    requires 2 * t == a * b && 0 < a < Pow2(k + 1) && 0 < b < Pow2(k + 1)
    requires a % 2 != b % 2
    ensures t != q * Pow2(k)
  {
    if a % 2 == 1 {
      ProductNotMultiple(a, b, q, k + 1);
    } else {
      ProductNotMultiple(b, a, q, k + 1);
      assert a * b == b * a;
    }
    TwiceMultiple(q, k);
  }

  lemma TwiceMultiple(q: nat, k: nat)
    ensures q * Pow2(k + 1) == 2 * (q * Pow2(k))
  {
    var p := Pow2(k);
    assert Pow2(k + 1) == 2 * p;
    assert q * (2 * p) == 2 * (q * p);
  }

  /** The first size-many probes are pairwise different. */
  lemma ProbesDistinct(hash: nat, i: nat, j: nat, k: nat)
    requires i < j < Pow2(k)
    ensures Probe(hash, i, Pow2(k)) != Probe(hash, j, Pow2(k))
  {
    if Probe(hash, i, Pow2(k)) == Probe(hash, j, Pow2(k)) {
      var q := EqualProbesGap(hash, i, j, Pow2(k));
      GapIsNoMultiple(i, j, q, k);
      assert false;
    }
  }

  lemma GapFactors(i: nat, j: nat, k: nat)
    requires i < j < Pow2(k)
    ensures j - i < Pow2(k + 1) && i + j + 1 < Pow2(k + 1) && (j - i) % 2 != (i + j + 1) % 2
  {
    assert i + j + 1 == (j - i) + 2 * i + 1;
  }

  lemma GapIsNoMultiple(i: nat, j: nat, q: nat, k: nat)
    requires i < j < Pow2(k)
    ensures Triangle(j) - Triangle(i) != q * Pow2(k)
  {
    GapFactors(i, j, k);
    TriangleGap(i, j);
    HalfProductNotMultiple(Triangle(j) - Triangle(i), j - i, i + j + 1, q, k);
  }

  lemma EqualProbesGap(hash: nat, i: nat, j: nat, size: nat) returns (q: nat)
    requires size > 0 && i <= j && Probe(hash, i, size) == Probe(hash, j, size)
    ensures Triangle(j) - Triangle(i) == q * size
  {
    TriangleGap(i, j);
    var p := MaskQuotient(hash + Triangle(i), size);
    var r := MaskQuotient(hash + Triangle(j), size);
    GapIsMultiple(hash + Triangle(i), hash + Triangle(j), Probe(hash, i, size), p, r, size);
    q := r - p;
  }

  lemma GapIsMultiple(x: nat, y: nat, r: nat, p: nat, q: nat, size: nat)
    requires x <= y && x == p * size + r && y == q * size + r && size > 0
    ensures p <= q && y - x == (q - p) * size
  {
    assert (q - p) * size == q * size - p * size;
    assert q - p < 0 ==> (q - p) * size < 0;
  }

  /** The buckets visited by the first `n` probes. */
  ghost function ProbeSet(hash: nat, n: nat, size: nat): (s: set<nat>)
    requires size > 0
    ensures forall b <- s :: b < size
  {
    if n == 0 then {} else ProbeSet(hash, n - 1, size) + {Probe(hash, n - 1, size)}
  }

  lemma {:induction false} ProbeSetMember(hash: nat, n: nat, size: nat, b: nat)
    requires size > 0
    ensures b in ProbeSet(hash, n, size) <==> exists i: nat :: i < n && Probe(hash, i, size) == b
  {
    if n > 0 {
      ProbeSetMember(hash, n - 1, size, b);
      if b == Probe(hash, n - 1, size) {
        assert n - 1 < n;
      } else {
        assert forall i: nat :: i < n && Probe(hash, i, size) == b ==> i < n - 1;
      }
    }
  }

  lemma {:induction false} ProbeSetSize(hash: nat, n: nat, k: nat)
    requires n <= Pow2(k)
    ensures |ProbeSet(hash, n, Pow2(k))| == n
  {
    if n > 0 {
      var size := Pow2(k);
      ProbeSetSize(hash, n - 1, k);
      var b := Probe(hash, n - 1, size);
      ProbeSetMember(hash, n - 1, size, b);
      forall i: nat | i < n - 1 ensures Probe(hash, i, size) != b {
        ProbesDistinct(hash, i, n - 1, k);
      }
    }
  }

  ghost function Below(n: nat): (s: set<nat>)
    ensures forall i: nat :: i in s <==> i < n
  {
    if n == 0 then {} else Below(n - 1) + {n - 1}
  }

  lemma {:induction false} BelowSize(n: nat)
    ensures |Below(n)| == n
  {
    if n > 0 {
      BelowSize(n - 1);
    }
  }

  /** On a table of 2^k buckets, 2^k probes reach every bucket, each exactly once. */
  lemma ProbingIsPermutation(hash: nat, k: nat, b: nat)
    requires b < Pow2(k)
    ensures exists i: nat :: i < Pow2(k) && Probe(hash, i, Pow2(k)) == b
                          && forall j: nat :: j < Pow2(k) && Probe(hash, j, Pow2(k)) == b ==> j == i
  {
    var size := Pow2(k);
    ProbeSetSize(hash, size, k);
    BelowSize(size);
    assert ProbeSet(hash, size, size) <= Below(size);
    SubsetSize(ProbeSet(hash, size, size), Below(size));
    assert b in Below(size);
    ProbeSetMember(hash, size, size, b);
    var i: nat :| i < size && Probe(hash, i, size) == b;
    forall j: nat | j < size && Probe(hash, j, size) == b ensures j == i {
      if j < i { ProbesDistinct(hash, j, i, k); }
      if i < j { ProbesDistinct(hash, i, j, k); }
    }
  }
}
