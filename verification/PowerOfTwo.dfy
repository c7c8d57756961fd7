/** Rounding up to a power of two by smearing the highest bit (common/common.cc). */
module PowerOfTwo {
  import opened Bits

  const WORD := 0x1_0000_0000

  ghost predicate IsPow2(n: nat) {
    exists k: nat :: n == Pow2(k)
  }

  /** The least power of two that is at least `n`. */
  function CeilPow2(n: nat): nat {
    if n <= 1 then 1 else 2 * CeilPow2((n + 1) / 2)
  }

  lemma {:induction false} CeilPow2IsLeast(n: nat)
    ensures IsPow2(CeilPow2(n)) && n <= CeilPow2(n)
    ensures forall k: nat :: n <= Pow2(k) ==> CeilPow2(n) <= Pow2(k)
  {
    if n <= 1 {
      assert Pow2(0) == 1;
    } else {
      CeilPow2IsLeast((n + 1) / 2);
      var k: nat :| CeilPow2((n + 1) / 2) == Pow2(k);
      assert CeilPow2(n) == Pow2(k + 1);
      forall j: nat | n <= Pow2(j) ensures CeilPow2(n) <= Pow2(j) {
        assert j > 0 && (n + 1) / 2 <= Pow2(j - 1);
      }
    }
  }

  /** The number of bits of `w` up to its highest set bit. */
  ghost function BitLength(w: nat): (len: nat)
    ensures w < Pow2(len)
    ensures w > 0 ==> len > 0 && Bit(w, len - 1) && Pow2(len - 1) <= w
  {
    if w == 0 then 0 else 1 + BitLength(w / 2)
  }

  /** `w` has `len` bits, and the top `run` of them (or all of them) are set. */
  ghost predicate TopRun(w: nat, len: nat, run: nat) {
    w < Pow2(len) && forall i: nat :: i < len && len <= i + run ==> Bit(w, i)
  }

  lemma SmearDoublesRun(w: nat, len: nat, run: nat)
    requires TopRun(w, len, run)
    ensures TopRun(Or(w, Shr(w, run)), len, 2 * run)
  {
    ShrBound(w, run);
    OrBound(w, Shr(w, run), len);
    forall i: nat | i < len && len <= i + 2 * run
      ensures Bit(Or(w, Shr(w, run)), i)
    {
      OrBit(w, Shr(w, run), i);
      ShrBit(w, run, i);
      assert len <= i + run || (i + run < len && len <= (i + run) + run);
    }
  }

  lemma {:induction false} AllOnes(w: nat, len: nat)
    requires TopRun(w, len, len)
    ensures w == Pow2(len) - 1
    decreases len
  {
    if len > 0 {
      assert Bit(w, 0);
      forall i: nat | i < len - 1 ensures Bit(w / 2, i) {
        assert Bit(w, i + 1);
      }
      AllOnes(w / 2, len - 1);
    }
  }

  lemma CeilPow2OfLength(v: nat)
    requires v > 0
    ensures CeilPow2(v) == Pow2(BitLength(v - 1))
  {
    var len := BitLength(v - 1);
    CeilPow2IsLeast(v);
    var k: nat :| CeilPow2(v) == Pow2(k);
    assert v <= Pow2(len);
    if k < len {
      Pow2Monotone(k, len - 1);
    }
    Pow2Monotone(len, if k < len then len else k);
  }

  lemma CeilPow2InWord(n: nat)
    requires n < WORD
    ensures n <= 0x8000_0000 ==> CeilPow2(n) <= 0x8000_0000
    ensures n > 0x8000_0000 ==> CeilPow2(n) == WORD
  {
    Pow2Of32();
    CeilPow2IsLeast(n);
    assert n <= Pow2(31) ==> CeilPow2(n) <= Pow2(31);
    assert n <= Pow2(32) ==> CeilPow2(n) <= Pow2(32);
    var k: nat :| CeilPow2(n) == Pow2(k);
    if k <= 31 { Pow2Monotone(k, 31); }
    if k > 32 { Pow2StrictlyMonotone(32, k); }
  }

  lemma BitLengthInWord(w: nat)
    requires w < WORD
    ensures BitLength(w) <= 32
  {
    Pow2Of32();
    if BitLength(w) > 32 { Pow2Monotone(32, BitLength(w) - 1); }
  }

  /** Five smears fill every bit below the highest one. */
  method Smear(w: nat) returns (v: nat)
    requires w < WORD
    ensures v == Pow2(BitLength(w)) - 1
  {
    ghost var len := BitLength(w);
    BitLengthInWord(w);
    v := w;
    assert TopRun(v, len, 1);
    SmearDoublesRun(v, len, 1);
    v := Or(v, Shr(v, 1));
    SmearDoublesRun(v, len, 2);
    v := Or(v, Shr(v, 2));
    SmearDoublesRun(v, len, 4);
    v := Or(v, Shr(v, 4));
    SmearDoublesRun(v, len, 8);
    v := Or(v, Shr(v, 8));
    SmearDoublesRun(v, len, 16);
    v := Or(v, Shr(v, 16));
    AllOnes(v, len);
  }

  /** On 32-bit words the smear yields the least power of two, which wraps to 0 above 2^31. */
  method NextPowerOfTwo(n: nat) returns (v: nat)
    requires n < WORD
    ensures v == CeilPow2(n) % WORD
    ensures n <= 0x8000_0000 <==> v == CeilPow2(n)
    ensures n > 0x8000_0000 <==> v == 0
  {
    CeilPow2InWord(n);
    if n == 0 {
      return 1;
    }
    CeilPow2OfLength(n);
    v := Smear(n - 1);
    v := (v + 1) % WORD;
  }
}
