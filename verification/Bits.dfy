/** Unsigned machine words as natural numbers, with their bit operations defined bit by bit. */
module Bits {

  function Pow2(k: nat): (p: nat)
    ensures p >= 1
  {
    if k == 0 then 1 else 2 * Pow2(k - 1)
  }

  /** Bit `i` of `w`, bit 0 being the least significant one. */
  predicate Bit(w: nat, i: nat)
    decreases i
  {
    if i == 0 then w % 2 == 1 else Bit(w / 2, i - 1)
  }

  function Or(a: nat, b: nat): nat {
    if a == 0 && b == 0 then 0
    else 2 * Or(a / 2, b / 2) + (if a % 2 == 1 || b % 2 == 1 then 1 else 0)
  }

  function And(a: nat, b: nat): nat {
    if a == 0 || b == 0 then 0
    else 2 * And(a / 2, b / 2) + (if a % 2 == 1 && b % 2 == 1 then 1 else 0)
  }

  function Shr(a: nat, s: nat): nat {
    if s == 0 then a else Shr(a / 2, s - 1)
  }

  /** The complement of a `width`-bit word. */
  function Not(width: nat, w: nat): nat
    requires w < Pow2(width)
  {
    Pow2(width) - 1 - w
  }

  lemma {:induction false} OrBit(a: nat, b: nat, i: nat)
    ensures Bit(Or(a, b), i) <==> Bit(a, i) || Bit(b, i)
    decreases i
  {
    if i == 0 {
    } else {
      OrBit(a / 2, b / 2, i - 1);
    }
  }

  lemma {:induction false} AndBit(a: nat, b: nat, i: nat)
    ensures Bit(And(a, b), i) <==> Bit(a, i) && Bit(b, i)
    decreases i
  {
    if a == 0 || b == 0 {
      ZeroBit(i);
    } else if i > 0 {
      AndBit(a / 2, b / 2, i - 1);
    }
  }

  lemma {:induction false} ZeroBit(i: nat)
    ensures !Bit(0, i)
  {
    if i > 0 { ZeroBit(i - 1); }
  }

  lemma {:induction false} ShrBit(a: nat, s: nat, i: nat)
    ensures Bit(Shr(a, s), i) <==> Bit(a, i + s)
    decreases s
  {
    if s > 0 { ShrBit(a / 2, s - 1, i); }
  }

  lemma {:induction false} NotBit(width: nat, w: nat, i: nat)
    requires w < Pow2(width)
    ensures Bit(Not(width, w), i) <==> i < width && !Bit(w, i)
    decreases width
  {
    if width == 0 {
      ZeroBit(i);
    } else {
      NotHalves(width, w);
      if i > 0 { NotBit(width - 1, w / 2, i - 1); }
    }
  }

  lemma NotHalves(width: nat, w: nat)
    requires width > 0 && w < Pow2(width)
    ensures w / 2 < Pow2(width - 1)
    ensures Not(width, w) / 2 == Not(width - 1, w / 2) && Not(width, w) % 2 == 1 - w % 2
  {
    var half, low, high := Pow2(width - 1), w % 2, w / 2;
    assert w == 2 * high + low && Not(width, w) == 2 * (half - 1 - high) + (1 - low);
  }

  lemma {:induction false} Pow2Bit(k: nat, i: nat)
    ensures Bit(Pow2(k), i) <==> i == k
  {
    if k == 0 {
      if i > 0 { ZeroBit(i - 1); }
    } else if i > 0 {
      Pow2Bit(k - 1, i - 1);
    }
  }

  lemma {:induction false} BitBelow(w: nat, width: nat, i: nat)
    requires w < Pow2(width) && Bit(w, i)
    ensures i < width
    decreases width
  {
    if width == 0 {
      ZeroBit(i);
    } else if i > 0 {
      BitBelow(w / 2, width - 1, i - 1);
    }
  }

  lemma {:induction false} OrBound(a: nat, b: nat, width: nat)
    requires a < Pow2(width) && b < Pow2(width)
    ensures Or(a, b) < Pow2(width)
    decreases width
  {
    if width > 0 { OrBound(a / 2, b / 2, width - 1); }
  }

  lemma {:induction false} AndBound(a: nat, b: nat)
    ensures And(a, b) <= a
  {
    if a != 0 && b != 0 { AndBound(a / 2, b / 2); }
  }

  lemma {:induction false} ShrBound(a: nat, s: nat)
    ensures Shr(a, s) <= a
    decreases s
  {
    if s > 0 { ShrBound(a / 2, s - 1); }
  }

  lemma {:induction false} Pow2Monotone(j: nat, k: nat)
    requires j <= k
    ensures Pow2(j) <= Pow2(k)
    decreases k
  {
    if j < k { Pow2Monotone(j, k - 1); }
  }

  lemma {:induction false} Pow2StrictlyMonotone(j: nat, k: nat)
    requires j < k
    ensures Pow2(j) < Pow2(k)
  {
    Pow2Monotone(j, k - 1);
  }

  lemma Pow2Of32()
    ensures Pow2(30) == 0x4000_0000 && Pow2(31) == 0x8000_0000 && Pow2(32) == 0x1_0000_0000
  {
    assert Pow2(10) == 1024;
    assert Pow2(20) == 0x10_0000;
  }
}
