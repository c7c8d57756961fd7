/** What linearization does to the ancestors of a class (core/GlobalState.cc, core/Symbols.cc). */
module Ancestors {
  import opened Collections
  import opened Linearization

  // ---------------------------------------------------------------- nothing is invented

  /** `x` is reached from `c` along mixins and superclasses as written: `derivesFrom` before any linearization. */
  ghost predicate Written(h: Hierarchy, c: nat, x: nat)
    requires Acyclic(h) && c < |h.supers|
    decreases h.rank[c]
  {
    || (exists i :: 0 <= i < |h.mixins[c]| && Lower(h, c, h.mixins[c][i])
                 && (x == h.mixins[c][i] || Written(h, h.mixins[c][i], x)))
    || (h.supers[c] != 0 && (x == h.supers[c] || Written(h, h.supers[c], x)))
  }

  lemma {:induction false} WrittenIsLower(h: Hierarchy, c: nat, x: nat)
    requires Acyclic(h) && c < |h.supers| && Written(h, c, x)
    ensures Lower(h, c, x)
    decreases h.rank[c]
  {
    if h.supers[c] != 0 && (x == h.supers[c] || Written(h, h.supers[c], x)) {
      if x != h.supers[c] { WrittenIsLower(h, h.supers[c], x); }
    } else {
      var i :| 0 <= i < |h.mixins[c]| && Lower(h, c, h.mixins[c][i])
        && (x == h.mixins[c][i] || Written(h, h.mixins[c][i], x));
      if x != h.mixins[c][i] { WrittenIsLower(h, h.mixins[c][i], x); }
    }
  }

  lemma {:induction false} WrittenTransitive(h: Hierarchy, c: nat, y: nat, x: nat)
    requires Acyclic(h) && c < |h.supers| && y < |h.supers| && Written(h, c, y) && Written(h, y, x)
    ensures Written(h, c, x)
    decreases h.rank[c]
  {
    if h.supers[c] != 0 && (y == h.supers[c] || Written(h, h.supers[c], y)) {
      if y != h.supers[c] { WrittenTransitive(h, h.supers[c], y, x); }
    } else {
      var i :| 0 <= i < |h.mixins[c]| && Lower(h, c, h.mixins[c][i])
        && (y == h.mixins[c][i] || Written(h, h.mixins[c][i], y));
      if y != h.mixins[c][i] { WrittenTransitive(h, h.mixins[c][i], y, x); }
      assert Written(h, h.mixins[c][i], x);
    }
  }

  lemma {:induction false} LinearIsWritten(h: Hierarchy, c: nat, x: nat)
    requires Acyclic(h) && c < |h.supers| && x in Linear(h, c)
    ensures Written(h, c, x)
    decreases h.rank[c], 0
  {
    LinearMembers(h, c);
    var i :| 0 <= i < |h.mixins[c]| && Brings(h, c, h.mixins[c][i], x);
    var m := h.mixins[c][i];
    assert Lower(h, c, m);
    if x != m {
      if h.isModule[m] { LinearIsWritten(h, m, x); } else { FullIsWritten(h, m, [], x); }
    }
  }

  lemma {:induction false} FullIsWritten(h: Hierarchy, c: nat, acc: seq<nat>, x: nat)
    requires Acyclic(h) && 0 < c < |h.supers| && x in Full(h, c, acc)
    ensures x in acc || x == c || Written(h, c, x)
    decreases h.rank[c], 2
  {
    var own := FullMixins(h, c, Linear(h, c), acc + [c]);
    if x in own {
      forall m | m in Linear(h, c) ensures Written(h, c, m) { LinearIsWritten(h, c, m); }
      FullMixinsAreWritten(h, c, Linear(h, c), acc + [c], x);
    } else {
      FullIsWritten(h, h.supers[c], own, x);
    }
  }

  lemma {:induction false} FullMixinsAreWritten(h: Hierarchy, c: nat, list: seq<nat>, acc: seq<nat>, x: nat)
    requires Acyclic(h) && 0 < c < |h.supers| && (forall m <- list :: Written(h, c, m))
    requires x in FullMixins(h, c, list, acc)
    ensures x in acc || Written(h, c, x)
    decreases h.rank[c], 1, |list|
  {
    if list != [] {
      var m := list[0];
      assert m in list;
      WrittenIsLower(h, c, m);
      if m in acc {
        FullMixinsAreWritten(h, c, list[1..], acc, x);
      } else if !h.isModule[m] {
        FullMixinsAreWritten(h, c, list[1..], Full(h, m, acc), x);
        if x in Full(h, m, acc) {
          FullIsWritten(h, m, acc, x);
          if Written(h, m, x) { WrittenTransitive(h, c, m, x); }
        }
      } else {
        FullMixinsAreWritten(h, c, list[1..], acc + [m], x);
      }
    }
  }

  /** A linearized class derives only from ancestors it was written with. */
  lemma {:induction false} NoInventedAncestors(h: Hierarchy, c: nat, x: nat)
    requires Acyclic(h) && c < |h.supers| && Derives(h, c, x)
    ensures Written(h, c, x)
    decreases h.rank[c]
  {
    if x in Linear(h, c) {
      LinearIsWritten(h, c, x);
    } else if x != h.supers[c] {
      NoInventedAncestors(h, h.supers[c], x);
    }
  }

  /** Linearized mixins are of lower rank; so a class never meets itself and "Loop in mixins" is not raised. */
  lemma LinearIsLower(h: Hierarchy, c: nat, x: nat)
    requires Acyclic(h) && c < |h.supers| && x in Linear(h, c)
    ensures Lower(h, c, x)
  {
    LinearIsWritten(h, c, x);
    WrittenIsLower(h, c, x);
  }

  /** A module that is all new to a class goes in front with everything it brings, and the rest follows. */
  lemma NewModuleIsOneBlock(h: Hierarchy, c: nat, list: seq<nat>, m: nat)
    requires Acyclic(h) && 0 < c < |h.supers| && Lower(h, c, m) && h.isModule[m] && !IsStub(h, m) && m != h.supers[c]
    requires NoRepeats(Linear(h, m)) && forall x :: Brings(h, c, m, x) ==> x !in list
    ensures Round(h, c, list, m) == Lacking(h, h.supers[c], [m] + Linear(h, m)) + list
  {
    var components := [m] + Linear(h, m);
    if m in Linear(h, m) {
      LinearIsLower(h, m, m);
      assert false;
    }
    forall i | 0 <= i < |components| && !Derives(h, h.supers[c], components[i]) ensures components[i] !in list {
      assert Brings(h, c, m, components[i]);
    }
    NewBlock(h, h.supers[c], list, components, 0);
  }

  // ---------------------------------------------------------------- nothing is lost

  /** A class still derives from everything it included, stubs and classes among them. */
  lemma StillDerivesFromMixins(h: Hierarchy, c: nat, i: nat)
    requires Acyclic(h) && 0 < c < |h.supers| && i < |h.mixins[c]|
    ensures Derives(h, c, h.mixins[c][i])
  {
    var m := h.mixins[c][i];
    assert Lower(h, c, m);
    LinearMembers(h, c);
    if !IsStub(h, m) && !h.isModule[m] {
      FullNoRepeats(h, m, []);
      assert Full(h, m, [])[0] == m;
    }
    if !Derives(h, h.supers[c], m) && m != h.supers[c] { assert Brings(h, c, m, m); }
    if h.supers[c] == 0 { NothingDerivesFromMissing(h, m); }
  }

  /** Direct mixins of `c` with their own ancestors; those of a module are what it includes, not its superclass. */
  ghost predicate Includes(h: Hierarchy, c: nat, x: nat)
    requires Acyclic(h) && c < |h.supers|
    decreases h.rank[c], 0
  {
    exists i :: 0 <= i < |h.mixins[c]| && Gives(h, c, h.mixins[c][i], x)
  }

  ghost predicate Gives(h: Hierarchy, c: nat, m: nat, x: nat)
    requires Acyclic(h) && c < |h.supers|
    decreases h.rank[c], 0, 0
  {
    Lower(h, c, m) && (x == m || (if h.isModule[m] then Includes(h, m, x) else Ancestor(h, m, x)))
  }

  ghost predicate Ancestor(h: Hierarchy, c: nat, x: nat)
    requires Acyclic(h) && c < |h.supers|
    decreases h.rank[c], 1
  {
    Includes(h, c, x) || (h.supers[c] != 0 && (x == h.supers[c] || Ancestor(h, h.supers[c], x)))
  }

  /** Superclasses are classes, those of modules without ancestors of their own, and no mixin is unresolved. */
  ghost predicate Resolved(h: Hierarchy)
    requires Acyclic(h)
  {
    && (forall c :: 0 < c < |h.supers| ==> !h.isModule[h.supers[c]])
    && (forall m :: 0 < m < |h.supers| && h.isModule[m] ==> PlainModule(h, m))
    && (forall c, i :: 0 <= c < |h.mixins| && 0 <= i < |h.mixins[c]| ==>
          Lower(h, c, h.mixins[c][i]) && !IsStub(h, h.mixins[c][i]))
  }

  ghost predicate PlainModule(h: Hierarchy, m: nat)
    requires Acyclic(h) && m < |h.supers|
  {
    h.supers[h.supers[m]] == 0 && h.mixins[h.supers[m]] == [] && h.supers[m] !in h.mixins[m]
  }

  lemma ModulesInheritNothing(h: Hierarchy, m: nat, x: nat)
    requires Acyclic(h) && m < |h.supers| && PlainModule(h, m)
    ensures !Derives(h, h.supers[m], x)
  {
    assert Linear(h, h.supers[m]) == [];
  }

  /** What is included in a class among the ancestors of `c` is an ancestor of `c`. */
  lemma {:induction false} AncestorsOfClass(h: Hierarchy, c: nat, y: nat, x: nat)
    requires Acyclic(h) && c < |h.supers| && y < |h.supers| && !h.isModule[y]
    requires Ancestor(h, y, x)
    ensures Includes(h, c, y) ==> Includes(h, c, x)
    ensures Ancestor(h, c, y) ==> Ancestor(h, c, x)
    decreases h.rank[c]
  {
    if Includes(h, c, y) {
      var i :| 0 <= i < |h.mixins[c]| && Gives(h, c, h.mixins[c][i], y);
      if y != h.mixins[c][i] { AncestorsOfClass(h, h.mixins[c][i], y, x); }
      assert Gives(h, c, h.mixins[c][i], x);
    }
    if h.supers[c] != 0 && y != h.supers[c] { AncestorsOfClass(h, h.supers[c], y, x); }
  }

  /** Every class in `acc` of lower rank than `c` has all its ancestors there. */
  ghost predicate ClosedBelow(h: Hierarchy, c: nat, acc: seq<nat>)
    requires Acyclic(h) && c < |h.supers|
  {
    forall y, x :: y in acc && Lower(h, c, y) && !h.isModule[y] && Ancestor(h, y, x) ==> x in acc
  }

  /** The full linearization of a class adds the class and its ancestors, no more and no less. */
  lemma {:induction false} FullMembers(h: Hierarchy, c: nat, acc: seq<nat>)
    requires Acyclic(h) && Resolved(h) && 0 < c < |h.supers| && !h.isModule[c] && ClosedBelow(h, c, acc)
    ensures forall x :: x in Full(h, c, acc) <==> x in acc || x == c || Ancestor(h, c, x)
    decreases h.rank[c], 2
  {
    var list, parent := Linear(h, c), h.supers[c];
    forall x ensures Derives(h, c, x) <==> Ancestor(h, c, x) { AncestorsPreserved(h, c, x); }
    forall m | m in list ensures Lower(h, c, m) { LinearIsLower(h, c, m); }
    FullMixinsMembers(h, c, list, acc + [c]);
    var own := FullMixins(h, c, list, acc + [c]);
    if parent != 0 {
      forall x ensures Derives(h, parent, x) <==> Ancestor(h, parent, x) { AncestorsPreserved(h, parent, x); }
      if parent !in own { FullMembers(h, parent, own); }
    }
  }

  lemma {:induction false} FullMixinsMembers(h: Hierarchy, c: nat, list: seq<nat>, acc: seq<nat>)
    requires Acyclic(h) && Resolved(h) && 0 < c < |h.supers| && ClosedBelow(h, c, acc)
    requires forall m <- list :: Lower(h, c, m) && Ancestor(h, c, m)
    ensures var r := FullMixins(h, c, list, acc);
      && ClosedBelow(h, c, r)
      && (forall x :: x in acc || x in list ==> x in r)
      && (forall x :: x in r ==> x in acc || Ancestor(h, c, x))
    decreases h.rank[c], 1, |list|
  {
    if list != [] {
      var m := list[0];
      assert m in list;
      var next := if m in acc then acc else if h.isModule[m] then acc + [m] else Full(h, m, acc);
      if m !in acc && !h.isModule[m] {
        FullMembers(h, m, acc);
        forall x | Ancestor(h, m, x) ensures Ancestor(h, c, x) { AncestorsOfClass(h, c, m, x); }
        StaysClosed(h, c, m, acc, next);
      }
      FullMixinsMembers(h, c, list[1..], next);
    }
  }

  lemma StaysClosed(h: Hierarchy, c: nat, m: nat, acc: seq<nat>, next: seq<nat>)
    requires Acyclic(h) && c < |h.supers| && m < |h.supers| && ClosedBelow(h, c, acc) && !h.isModule[m]
    requires forall x :: x in next <==> x in acc || x == m || Ancestor(h, m, x)
    ensures ClosedBelow(h, c, next)
  {
    forall y, x | y in next && Lower(h, c, y) && !h.isModule[y] && Ancestor(h, y, x) ensures x in next {
      if y !in acc && y != m { AncestorsOfClass(h, m, y, x); }
    }
  }

  /** Including `m` brings to `c` what `m` gives, unless the superclass has it. */
  lemma {:induction false} BringsWhatItGives(h: Hierarchy, c: nat, m: nat, x: nat)
    requires Acyclic(h) && Resolved(h) && 0 < c < |h.supers| && Lower(h, c, m) && !IsStub(h, m)
    ensures Brings(h, c, m, x) <==>
      m != h.supers[c] && Gives(h, c, m, x) && (h.isModule[m] ==> !Derives(h, h.supers[c], x))
    decreases h.rank[c], 0
  {
    if h.isModule[m] { ModulesKeepAll(h, m, x); } else { FullMembers(h, m, []); }
  }

  lemma {:induction false} ModulesKeepAll(h: Hierarchy, m: nat, x: nat)
    requires Acyclic(h) && Resolved(h) && 0 < m < |h.supers| && h.isModule[m]
    ensures x in Linear(h, m) <==> Includes(h, m, x)
    decreases h.rank[m], 1
  {
    LinearMembers(h, m);
    ModulesInheritNothing(h, m, x);
    forall i | 0 <= i < |h.mixins[m]| ensures Brings(h, m, h.mixins[m][i], x) <==> Gives(h, m, h.mixins[m][i], x) {
      BringsWhatItGives(h, m, h.mixins[m][i], x);
      assert h.mixins[m][i] in h.mixins[m];
    }
  }

  /** Linearizing changes the order in which ancestors are searched, never which classes are ancestors. */
  lemma {:induction false} AncestorsPreserved(h: Hierarchy, c: nat, x: nat)
    requires Acyclic(h) && Resolved(h) && c < |h.supers|
    ensures Derives(h, c, x) <==> Ancestor(h, c, x)
    decreases h.rank[c], 1
  {
    if c != 0 {
      var parent := h.supers[c];
      AncestorsPreserved(h, parent, x);
      LinearMembers(h, c);
      if x in Linear(h, c) {
        var i :| 0 <= i < |h.mixins[c]| && Brings(h, c, h.mixins[c][i], x);
        BringsWhatItGives(h, c, h.mixins[c][i], x);
        assert Includes(h, c, x);
      }
      if Includes(h, c, x) && !Derives(h, parent, x) && (x != parent || parent == 0) {
        var i :| 0 <= i < |h.mixins[c]| && Gives(h, c, h.mixins[c][i], x);
        BringsWhatItGives(h, c, h.mixins[c][i], x);
        assert h.mixins[c][i] != parent;
        assert Brings(h, c, h.mixins[c][i], x);
      }
      if parent == 0 { NothingDerivesFromMissing(h, x); }
    }
  }

  // ---------------------------------------------------------------- the ancestors of Ruby

  /** The superclass chain, each class followed by its linearized mixins. */
  ghost function Chain(h: Hierarchy, c: nat): seq<nat>
    requires Acyclic(h) && c < |h.supers|
    decreases h.rank[c]
  {
    [c] + Linear(h, c) + (if c == 0 || h.supers[c] == 0 then [] else Chain(h, h.supers[c]))
  }

  /** Only modules are mixed in, and only classes are superclasses. */
  ghost predicate ModulesOnly(h: Hierarchy)
    requires Acyclic(h)
  {
    && (forall c :: 0 < c < |h.supers| ==> !h.isModule[h.supers[c]])
    && forall c, i :: 0 <= c < |h.mixins| && 0 <= i < |h.mixins[c]| ==>
         Lower(h, c, h.mixins[c][i]) && !Unchecked(h, h.mixins[c][i])
  }

  lemma {:induction false} LinearOfModules(h: Hierarchy, c: nat, x: nat)
    requires Acyclic(h) && ModulesOnly(h) && c < |h.supers| && x in Linear(h, c)
    ensures Lower(h, c, x) && h.isModule[x] && !Derives(h, h.supers[c], x)
    decreases h.rank[c]
  {
    LinearIsLower(h, c, x);
    LinearMembers(h, c);
    var i :| 0 <= i < |h.mixins[c]| && Brings(h, c, h.mixins[c][i], x);
    if x != h.mixins[c][i] { LinearOfModules(h, h.mixins[c][i], x); }
  }

  /** The chain of a class consists of the class and what it derives from. */
  lemma {:induction false} ChainMembers(h: Hierarchy, c: nat, x: nat)
    requires Acyclic(h) && 0 < c < |h.supers|
    ensures x in Chain(h, c) <==> x == c || Derives(h, c, x)
    decreases h.rank[c]
  {
    if h.supers[c] != 0 { ChainMembers(h, h.supers[c], x); }
  }

  lemma {:induction false} FullMixinsOfModules(h: Hierarchy, c: nat, list: seq<nat>, acc: seq<nat>)
    requires Acyclic(h) && c < |h.supers| && NoRepeats(list)
    requires forall m <- list :: m !in acc && m < |h.supers| && h.isModule[m]
    ensures FullMixins(h, c, list, acc) == acc + list
    decreases |list|
  {
    if list == [] {
      assert acc + list == acc;
    } else {
      var m, rest := list[0], list[1..];
      assert m in list;
      forall k | k in rest ensures k in list && k != m {
        var i :| 0 <= i < |rest| && rest[i] == k;
        assert list[i + 1] == k;
      }
      FullMixinsOfModules(h, c, rest, acc + [m]);
      assert acc + [m] + rest == acc + list;
    }
  }

  lemma OwnPart(h: Hierarchy, c: nat, acc: seq<nat>)
    requires Acyclic(h) && ModulesOnly(h) && 0 < c < |h.supers| && forall x <- Chain(h, c) :: x !in acc
    ensures FullMixins(h, c, Linear(h, c), acc + [c]) == acc + [c] + Linear(h, c)
  {
    ModulesNeverRepeat(h, c);
    forall m | m in Linear(h, c) ensures m !in acc + [c] && m < |h.supers| && h.isModule[m] {
      LinearOfModules(h, c, m);
      assert m in Chain(h, c);
    }
    FullMixinsOfModules(h, c, Linear(h, c), acc + [c]);
  }

  /** `fullLinearizationSlow` walks the superclass chain and concatenates the mixins. */
  lemma {:induction false} FullIsChain(h: Hierarchy, c: nat, acc: seq<nat>)
    requires Acyclic(h) && ModulesOnly(h) && 0 < c < |h.supers| && forall x <- Chain(h, c) :: x !in acc
    ensures Full(h, c, acc) == acc + Chain(h, c)
    decreases h.rank[c]
  {
    var parent, own := h.supers[c], acc + [c] + Linear(h, c);
    FullGoesOn(h, c, acc);
    ChainGoesOn(h, c, acc);
    if parent != 0 {
      forall x | x in Chain(h, parent) ensures x !in own { ChainIsNew(h, c, acc, x); }
      FullIsChain(h, parent, own);
    }
  }

  /** After a class and its mixins the walk goes on with the superclass. */
  lemma FullGoesOn(h: Hierarchy, c: nat, acc: seq<nat>)
    requires Acyclic(h) && ModulesOnly(h) && 0 < c < |h.supers| && forall x <- Chain(h, c) :: x !in acc
    ensures var own := acc + [c] + Linear(h, c);
      Full(h, c, acc) == if h.supers[c] == 0 then own else Full(h, h.supers[c], own)
  {
    OwnPart(h, c, acc);
    if h.supers[c] != 0 {
      assert Chain(h, h.supers[c])[0] == h.supers[c];
      ChainIsNew(h, c, acc, h.supers[c]);
    }
  }

  lemma ChainGoesOn(h: Hierarchy, c: nat, acc: seq<nat>)
    requires Acyclic(h) && 0 < c < |h.supers|
    ensures var own := acc + [c] + Linear(h, c);
      acc + Chain(h, c) == if h.supers[c] == 0 then own else own + Chain(h, h.supers[c])
  {
    var rest := if h.supers[c] == 0 then [] else Chain(h, h.supers[c]);
    Associates(acc, [c], Linear(h, c), rest);
    if h.supers[c] == 0 { assert Chain(h, c) == [c] + Linear(h, c) + []; }
  }

  lemma Associates(a: seq<nat>, b: seq<nat>, d: seq<nat>, e: seq<nat>)
    ensures a + (b + d + e) == a + b + d + e && a + b + d + [] == a + b + d
  {
  }

  lemma ChainIsNew(h: Hierarchy, c: nat, acc: seq<nat>, x: nat)
    requires Acyclic(h) && ModulesOnly(h) && 0 < c < |h.supers| && h.supers[c] != 0 && x in Chain(h, h.supers[c])
    requires forall y <- Chain(h, c) :: y !in acc
    ensures x !in acc + [c] + Linear(h, c)
  {
    var parent := h.supers[c];
    assert x in Chain(h, c);
    ChainMembers(h, parent, x);
    if x != parent {
      NoInventedAncestors(h, parent, x);
      WrittenIsLower(h, parent, x);
    }
    if x in Linear(h, c) {
      LinearOfModules(h, c, x);
      assert false;
    }
  }
}
