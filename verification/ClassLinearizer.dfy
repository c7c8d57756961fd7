/** The memoised, in-place computation of linearizations (core/GlobalState.cc, core/Symbols.cc). */
module ClassLinearizer {
  import opened Collections
  import opened Linearization
  import opened Ancestors

  class ClassTable {
    const h: Hierarchy
    var mixins: seq<seq<nat>>
    var computed: seq<bool>

    /** A computed class holds its linearization and has a computed superclass; the others are as written. */
    ghost predicate Valid()
      reads this
    {
      && Acyclic(h) && |mixins| == |computed| == |h.supers|
      && !computed[0]
      && (forall c :: 0 <= c < |mixins| && computed[c] ==>
            mixins[c] == Linear(h, c) && (h.supers[c] == 0 || computed[h.supers[c]]))
      && (forall c :: 0 <= c < |mixins| && !computed[c] ==> mixins[c] == h.mixins[c])
    }

    constructor (h: Hierarchy)
      requires Acyclic(h)
      ensures Valid() && this.h == h && forall c :: 0 <= c < |computed| ==> !computed[c]
    {
      this.h := h;
      mixins := h.mixins;
      computed := seq(|h.supers|, _ => false);
    }

    /** `derivesFrom`, on linearized and on untouched classes. */
    predicate DerivesFrom(c: nat, x: nat)
      requires Valid() && c < |h.supers|
      reads this
      decreases h.rank[c]
    {
      || (if computed[c] then x in mixins[c]
          else exists i :: 0 <= i < |mixins[c]| && (mixins[c][i] == x || DerivesFrom(mixins[c][i], x)))
      || (h.supers[c] != 0 && (x == h.supers[c] || DerivesFrom(h.supers[c], x)))
    }

    lemma {:induction false} DerivesFromComputed(c: nat, x: nat)
      requires Valid() && 0 < c < |h.supers| && computed[c]
      ensures DerivesFrom(c, x) <==> Derives(h, c, x)
      decreases h.rank[c]
    {
      if h.supers[c] != 0 { DerivesFromComputed(h.supers[c], x); }
    }

    /** Before anything is linearized, derivation follows mixins and superclasses as written. */
    lemma {:induction false} DerivesFromWritten(c: nat, x: nat)
      requires Valid() && c < |h.supers| && forall d :: 0 <= d < |computed| ==> !computed[d]
      ensures DerivesFrom(c, x) <==> Written(h, c, x)
      decreases h.rank[c]
    {
      forall i | 0 <= i < |h.mixins[c]| ensures DerivesFrom(h.mixins[c][i], x) <==> Written(h, h.mixins[c][i], x) {
        assert Lower(h, c, h.mixins[c][i]);
        DerivesFromWritten(h.mixins[c][i], x);
      }
      if h.supers[c] != 0 { DerivesFromWritten(h.supers[c], x); }
    }

    lemma DerivesFromParent(c: nat, x: nat)
      requires Valid() && 0 < c < |h.supers| && (h.supers[c] == 0 || computed[h.supers[c]])
      ensures DerivesFrom(h.supers[c], x) <==> Derives(h, h.supers[c], x)
    {
      if h.supers[c] != 0 { DerivesFromComputed(h.supers[c], x); }
    }

    /** `maybeAddMixin`; `loop` stands for the exception "Loop in mixins". */
    method MaybeAddMixin(forSym: nat, list: seq<nat>, mixin: nat, pos: nat) returns (r: seq<nat>, at: nat, loop: bool)
      requires Valid() && 0 < forSym < |h.supers| && pos <= |list|
      requires h.supers[forSym] == 0 || computed[h.supers[forSym]]
      ensures loop <==> forSym == mixin
      ensures !loop ==> (r, at) == MaybeAdd(list, mixin, Derives(h, h.supers[forSym], mixin), pos)
    {
      r, at, loop := list, pos, false;
      if forSym == mixin {
        return list, pos, true;
      }
      DerivesFromParent(forSym, mixin);
      if DerivesFrom(h.supers[forSym], mixin) {
        return;
      }
      var fnd := Position(list, mixin);
      if fnd < |list| {
        at := if fnd >= pos then fnd + 1 else pos;
      } else {
        r, at := list[..pos] + [mixin] + list[pos..], pos + 1;
      }
    }

    /** Put a module and its linearized mixins into `list`. */
    method AddModule(forSym: nat, list: seq<nat>, mixin: nat) returns (r: seq<nat>, loop: bool)
      requires Valid() && 0 < forSym < |h.supers| && Lower(h, forSym, mixin)
      requires h.supers[forSym] == 0 || computed[h.supers[forSym]]
      requires computed[mixin]
      ensures !loop && r == Place(h, h.supers[forSym], list, [mixin] + Linear(h, mixin), 0)
    {
      ghost var parent, all := h.supers[forSym], [mixin] + Linear(h, mixin);
      var pos: nat;
      r, pos, loop := MaybeAddMixin(forSym, list, mixin, 0);
      var components := mixins[mixin];
      assert all[1..] == components;
      for i := 0 to |components|
        invariant !loop && pos <= |r|
        invariant Place(h, parent, r, components[i..], pos) == Place(h, parent, list, all, 0)
      {
        LinearIsLower(h, mixin, components[i]);
        assert components[i..][1..] == components[i + 1..];
        r, pos, loop := MaybeAddMixin(forSym, r, components[i], pos);
      }
    }

    /** What was computed stays computed, and nothing of the rank of `c` or above changes, except possibly `c`. */
    twostate predicate Advances(c: nat)
      reads this
    {
      && |computed| == |old(computed)| == |h.rank| && c < |h.rank|
      && (forall x :: 0 <= x < |computed| && old(computed[x]) ==> computed[x])
      && (forall x :: 0 <= x < |computed| && x != c && h.rank[x] >= h.rank[c] ==> computed[x] == old(computed[x]))
    }

    /** `fullLinearizationSlow`, which linearizes the classes it meets. */
    method FullLinearization(c: nat, acc: seq<nat>) returns (r: seq<nat>)
      requires Valid() && 0 < c < |h.supers| && computed[c] && c !in acc && NoRepeats(acc)
      modifies this
      ensures Valid() && Advances(c) && computed[c] && r == Full(h, c, acc)
      decreases h.rank[c], 1
    {
      var components := mixins[c];
      r := acc + [c];
      for i := 0 to |components|
        invariant Valid() && Advances(c) && computed[c]
        invariant NoRepeats(r) && FullMixins(h, c, components[i..], r) == FullMixins(h, c, components, acc + [c])
      {
        var m := components[i];
        assert components[i..][1..] == components[i + 1..];
        LinearIsLower(h, c, m);
        FullMixinsNoRepeats(h, c, components[i..i + 1], r);
        if m !in r {
          if h.isModule[m] {
            r := r + [m];
          } else {
            FullNoRepeats(h, m, r);
            var _ := Compute(m);
            r := FullLinearization(m, r);
          }
        }
      }
      if h.supers[c] != 0 && h.supers[c] !in r {
        var _ := Compute(h.supers[c]);
        r := FullLinearization(h.supers[c], r);
      }
    }

    /** One round of the outer loop of `computeClassLinearization`. */
    method AddMixin(c: nat, list: seq<nat>, mixin: nat) returns (r: seq<nat>, loop: bool)
      requires Valid() && 0 < c < |h.supers| && Lower(h, c, mixin) && (h.supers[c] == 0 || computed[h.supers[c]])
      modifies this
      ensures Valid() && !loop && Advances(c) && computed[c] == old(computed[c]) && r == Round(h, c, list, mixin)
      decreases h.rank[c], 0
    {
      r, loop := list, false;
      if mixin == h.supers[c] {
        return;
      }
      if h.supers[mixin] in h.stubs {
        return list + [mixin], false;
      }
      loop := Compute(mixin);
      if !h.isModule[mixin] {
        var all := FullLinearization(mixin, []);
        r := all + list;
      } else {
        r, loop := AddModule(c, list, mixin);
      }
    }

    /** `computeClassLinearization`. */
    method Compute(c: nat) returns (loop: bool)
      requires Valid() && 0 < c < |h.supers|
      modifies this
      ensures Valid() && !loop && computed[c] && Advances(c)
      decreases h.rank[c], 1
    {
      loop := false;
      if computed[c] {
        return;
      }
      if h.supers[c] != 0 {
        loop := Compute(h.supers[c]);
      }
      var currentMixins := mixins[c];
      var newMixins: seq<nat> := [];
      for i := 0 to |currentMixins|
        invariant Valid() && !loop && (h.supers[c] == 0 || computed[h.supers[c]])
        invariant Advances(c) && !computed[c]
        invariant AddMixins(h, c, newMixins, currentMixins[i..]) == Linear(h, c)
      {
        assert currentMixins[i..][1..] == currentMixins[i + 1..];
        assert Lower(h, c, currentMixins[i]);
        newMixins, loop := AddMixin(c, newMixins, currentMixins[i]);
      }
      mixins := mixins[c := newMixins];
      computed := computed[c := true];
    }

    /** `computeLinearization`: whatever the order of the classes, each ends up with its linearization. */
    method ComputeAll(refs: seq<nat>) returns (loop: bool)
      requires Valid() && forall c <- refs :: 0 < c < |h.supers|
      modifies this
      ensures Valid() && !loop
      ensures forall c <- refs :: computed[c] && mixins[c] == Linear(h, c)
    {
      loop := false;
      for i := 0 to |refs|
        invariant Valid() && !loop
        invariant forall j :: 0 <= j < i ==> refs[j] < |computed| && computed[refs[j]]
      {
        assert refs[i] in refs;
        loop := Compute(refs[i]);
      }
    }
  }
}
