/** Ruby ancestor linearization (core/GlobalState.cc, core/Symbols.cc). */
module Linearization {
  import opened Collections

  /**
   * Classes and modules by id, id 0 being the missing one: superclass, mixins in source order, which are modules,
   * the stub superclasses of unresolved ones, and a rank that witnesses the absence of cycles.
   */
  datatype Hierarchy = Hierarchy(supers: seq<nat>, mixins: seq<seq<nat>>, isModule: seq<bool>, stubs: set<nat>,
                                 rank: seq<nat>)

  ghost predicate Acyclic(h: Hierarchy) {
    && |h.supers| == |h.mixins| == |h.isModule| == |h.rank| && |h.supers| > 0
    && h.supers[0] == 0 && h.mixins[0] == []
    && (forall c :: 0 < c < |h.supers| ==> h.supers[c] < |h.supers| && h.rank[h.supers[c]] < h.rank[c])
    && (forall c, i :: 0 <= c < |h.mixins| && 0 <= i < |h.mixins[c]| ==> Lower(h, c, h.mixins[c][i]))
  }

  ghost predicate Lower(h: Hierarchy, c: nat, x: nat)
    requires c < |h.rank|
  {
    0 < x < |h.rank| && h.rank[x] < h.rank[c]
  }

  // ---------------------------------------------------------------- the pure linearization

  function Position(list: seq<nat>, x: nat): (i: nat)
    ensures i <= |list| && (i < |list| ==> list[i] == x) && (i == |list| <==> x !in list)
  {
    if list == [] || list[0] == x then 0 else 1 + Position(list[1..], x)
  }

  /** `maybeAddMixin`, where `inherited` says that the superclass already derives from the mixin. */
  function MaybeAdd(list: seq<nat>, mixin: nat, inherited: bool, pos: nat): (r: (seq<nat>, nat))
    requires pos <= |list|
    ensures r.1 <= |r.0|
  {
    if inherited then (list, pos)
    else
      var found := Position(list, mixin);
      if found < |list| then (list, if found >= pos then found + 1 else pos)
      else (list[..pos] + [mixin] + list[pos..], pos + 1)
  }

  /** The inner loop: add a mixin and then its own linearized mixins, from position `pos` on. */
  function Place(h: Hierarchy, parent: nat, list: seq<nat>, components: seq<nat>, pos: nat): seq<nat>
    requires Acyclic(h) && parent < |h.supers| && pos <= |list|
    decreases h.rank[parent], 5, |components|
  {
    if components == [] then list
    else
      var (next, at) := MaybeAdd(list, components[0], Derives(h, parent, components[0]), pos);
      Place(h, parent, next, components[1..], at)
  }

  /** A mixin whose superclass could not be resolved. */
  predicate IsStub(h: Hierarchy, m: nat)
    requires m < |h.supers|
  {
    h.supers[m] in h.stubs
  }

  /** One round of the outer loop: what including `m` makes of the list. */
  function Round(h: Hierarchy, c: nat, list: seq<nat>, m: nat): seq<nat>
    requires Acyclic(h) && 0 < c < |h.supers| && Lower(h, c, m)
    decreases h.rank[c], 1
  {
    if m == h.supers[c] then list
    else if IsStub(h, m) then list + [m]
    else if !h.isModule[m] then Full(h, m, []) + list
    else Place(h, h.supers[c], list, [m] + Linear(h, m), 0)
  }

  /** The outer loop over the mixins of `c` that are still to be added. */
  function AddMixins(h: Hierarchy, c: nat, list: seq<nat>, todo: seq<nat>): seq<nat>
    requires Acyclic(h) && 0 < c < |h.supers| && forall i :: 0 <= i < |todo| ==> Lower(h, c, todo[i])
    decreases h.rank[c], 2, |todo|
  {
    if todo == [] then list else AddMixins(h, c, Round(h, c, list, todo[0]), todo[1..])
  }

  /** The linearized mixins of `c`. */
  function Linear(h: Hierarchy, c: nat): seq<nat>
    requires Acyclic(h) && c < |h.supers|
    decreases h.rank[c], 3
  {
    if c == 0 then [] else AddMixins(h, c, [], h.mixins[c])
  }

  /** `derivesFrom` on linearized classes: in the linearized mixins, or the superclass, or derived from it. */
  predicate Derives(h: Hierarchy, c: nat, x: nat)
    requires Acyclic(h) && c < |h.supers|
    decreases h.rank[c], 4
  {
    x in Linear(h, c) || (h.supers[c] != 0 && (x == h.supers[c] || Derives(h, h.supers[c], x)))
  }

  /** `fullLinearizationSlow`: `c`, its linearized mixins with those of classes among them, and its superclasses. */
  function Full(h: Hierarchy, c: nat, acc: seq<nat>): seq<nat>
    requires Acyclic(h) && c < |h.supers|
    decreases h.rank[c], 7
  {
    var own := FullMixins(h, c, Linear(h, c), acc + [c]);
    if h.supers[c] == 0 || h.supers[c] in own then own else Full(h, h.supers[c], own)
  }

  /** The loop over linearized mixins. Classes among them are of lower rank, as `LinearIsLower` shows. */
  function FullMixins(h: Hierarchy, c: nat, list: seq<nat>, acc: seq<nat>): seq<nat>
    requires Acyclic(h) && c < |h.supers|
    decreases h.rank[c], 6, |list|
  {
    if list == [] then acc
    else
      var m := list[0];
      var next := if m in acc then acc
                  else if m < |h.supers| && !h.isModule[m] && h.rank[m] < h.rank[c] then Full(h, m, acc)
                  else acc + [m];
      FullMixins(h, c, list[1..], next)
  }

  // ---------------------------------------------------------------- members

  lemma MaybeAddMembers(list: seq<nat>, mixin: nat, inherited: bool, pos: nat)
    requires pos <= |list|
    ensures var r := MaybeAdd(list, mixin, inherited, pos).0;
      && (forall x :: x in r <==> x in list || (x == mixin && !inherited))
      && (NoRepeats(list) ==> NoRepeats(r))
  {
    var r := MaybeAdd(list, mixin, inherited, pos).0;
    if !inherited && mixin !in list {
      assert r == list[..pos] + [mixin] + list[pos..];
      forall x ensures x in r <==> x in list || x == mixin {
        assert list == list[..pos] + list[pos..];
      }
    }
  }

  lemma {:induction false} PlaceMembers(h: Hierarchy, parent: nat, list: seq<nat>, components: seq<nat>, pos: nat)
    requires Acyclic(h) && parent < |h.supers| && pos <= |list|
    ensures var r := Place(h, parent, list, components, pos);
      && (forall x :: x in r <==> x in list || (x in components && !Derives(h, parent, x)))
      && (NoRepeats(list) ==> NoRepeats(r))
    decreases |components|
  {
    if components != [] {
      var inherited := Derives(h, parent, components[0]);
      var (next, at) := MaybeAdd(list, components[0], inherited, pos);
      MaybeAddMembers(list, components[0], inherited, pos);
      PlaceMembers(h, parent, next, components[1..], at);
    }
  }

  /** What including `m` brings to `c`. A module and its linearized mixins bring nothing the superclass has. */
  ghost predicate Brings(h: Hierarchy, c: nat, m: nat, x: nat)
    requires Acyclic(h) && 0 < c < |h.supers| && m < |h.supers|
  {
    m != h.supers[c] &&
    if IsStub(h, m) then x == m
    else if !h.isModule[m] then x in Full(h, m, [])
    else (x == m || x in Linear(h, m)) && !Derives(h, h.supers[c], x)
  }

  lemma RoundMembers(h: Hierarchy, c: nat, list: seq<nat>, m: nat)
    requires Acyclic(h) && 0 < c < |h.supers| && Lower(h, c, m)
    ensures forall x :: x in Round(h, c, list, m) <==> x in list || Brings(h, c, m, x)
  {
    if m != h.supers[c] && !IsStub(h, m) && h.isModule[m] {
      PlaceMembers(h, h.supers[c], list, [m] + Linear(h, m), 0);
    }
  }

  lemma {:induction false} AddMixinsMembers(h: Hierarchy, c: nat, list: seq<nat>, todo: seq<nat>)
    requires Acyclic(h) && 0 < c < |h.supers| && forall i :: 0 <= i < |todo| ==> Lower(h, c, todo[i])
    ensures forall x :: x in AddMixins(h, c, list, todo) <==>
      x in list || exists i :: 0 <= i < |todo| && Brings(h, c, todo[i], x)
    decreases |todo|
  {
    if todo != [] {
      var m, rest := todo[0], todo[1..];
      RoundMembers(h, c, list, m);
      AddMixinsMembers(h, c, Round(h, c, list, m), rest);
      forall x ensures (exists i :: 0 <= i < |todo| && Brings(h, c, todo[i], x)) <==>
        Brings(h, c, m, x) || exists i :: 0 <= i < |rest| && Brings(h, c, rest[i], x)
      {
        if i :| 0 <= i < |rest| && Brings(h, c, rest[i], x) { assert Brings(h, c, todo[i + 1], x); }
        if i :| 0 <= i < |todo| && Brings(h, c, todo[i], x) {
          if i > 0 { assert Brings(h, c, rest[i - 1], x); }
        }
      }
    }
  }

  /** The linearization of a class lists exactly what its mixins bring. */
  lemma LinearMembers(h: Hierarchy, c: nat)
    requires Acyclic(h) && 0 < c < |h.supers|
    ensures forall x :: x in Linear(h, c) <==> exists i :: 0 <= i < |h.mixins[c]| && Brings(h, c, h.mixins[c][i], x)
  {
    AddMixinsMembers(h, c, [], h.mixins[c]);
  }

  lemma NothingDerivesFromMissing(h: Hierarchy, x: nat)
    requires Acyclic(h)
    ensures !Derives(h, 0, x)
  {
  }

  // ---------------------------------------------------------------- order

  ghost predicate Ordered(list: seq<nat>, x: nat, y: nat) {
    exists i, j :: 0 <= i < j < |list| && list[i] == x && list[j] == y
  }

  lemma MaybeAddKeepsOrder(list: seq<nat>, mixin: nat, inherited: bool, pos: nat, x: nat, y: nat)
    requires pos <= |list| && Ordered(list, x, y)
    ensures Ordered(MaybeAdd(list, mixin, inherited, pos).0, x, y)
  {
    var r := MaybeAdd(list, mixin, inherited, pos).0;
    var i, j :| 0 <= i < j < |list| && list[i] == x && list[j] == y;
    if r != list {
      var i', j' := if i < pos then i else i + 1, if j < pos then j else j + 1;
      assert r[i'] == x && r[j'] == y;
    }
  }

  lemma {:induction false} PlaceKeepsOrder(h: Hierarchy, parent: nat, list: seq<nat>, components: seq<nat>, pos: nat,
                                           x: nat, y: nat)
    requires Acyclic(h) && parent < |h.supers| && pos <= |list| && Ordered(list, x, y)
    ensures Ordered(Place(h, parent, list, components, pos), x, y)
    decreases |components|
  {
    if components != [] {
      var inherited := Derives(h, parent, components[0]);
      var (next, at) := MaybeAdd(list, components[0], inherited, pos);
      MaybeAddKeepsOrder(list, components[0], inherited, pos, x, y);
      PlaceKeepsOrder(h, parent, next, components[1..], at, x, y);
    }
  }

  lemma RoundKeepsOrder(h: Hierarchy, c: nat, list: seq<nat>, m: nat, x: nat, y: nat)
    requires Acyclic(h) && 0 < c < |h.supers| && Lower(h, c, m) && Ordered(list, x, y)
    ensures Ordered(Round(h, c, list, m), x, y)
  {
    if m != h.supers[c] && !IsStub(h, m) && h.isModule[m] {
      PlaceKeepsOrder(h, h.supers[c], list, [m] + Linear(h, m), 0, x, y);
    } else {
      var i, j :| 0 <= i < j < |list| && list[i] == x && list[j] == y;
      var r := Round(h, c, list, m);
      var shift := if m == h.supers[c] || IsStub(h, m) then 0 else |Full(h, m, [])|;
      assert r[i + shift] == x && r[j + shift] == y;
    }
  }

  /** Later mixins are only inserted: they never reorder what earlier ones put in. */
  lemma {:induction false} AddMixinsKeepsOrder(h: Hierarchy, c: nat, list: seq<nat>, todo: seq<nat>, x: nat, y: nat)
    requires Acyclic(h) && 0 < c < |h.supers| && Ordered(list, x, y)
    requires forall i :: 0 <= i < |todo| ==> Lower(h, c, todo[i])
    ensures Ordered(AddMixins(h, c, list, todo), x, y)
    decreases |todo|
  {
    if todo != [] {
      RoundKeepsOrder(h, c, list, todo[0], x, y);
      AddMixinsKeepsOrder(h, c, Round(h, c, list, todo[0]), todo[1..], x, y);
    }
  }

  /** Everything at or before `pos` stays before what is placed from there on. */
  lemma {:induction false} PlacedAfter(h: Hierarchy, parent: nat, list: seq<nat>, components: seq<nat>, pos: nat,
                                       x: nat, y: nat)
    requires Acyclic(h) && parent < |h.supers| && pos <= |list|
    requires x in list[..pos] && y in components && y !in list && !Derives(h, parent, y)
    ensures Ordered(Place(h, parent, list, components, pos), x, y)
    decreases |components|
  {
    var inherited := Derives(h, parent, components[0]);
    var (next, at) := MaybeAdd(list, components[0], inherited, pos);
    MaybeAddMembers(list, components[0], inherited, pos);
    var i :| 0 <= i < pos && list[i] == x;
    if components[0] == y {
      assert next == list[..pos] + [y] + list[pos..];
      assert next[i] == x && next[pos] == y;
      PlaceKeepsOrder(h, parent, next, components[1..], at, x, y);
    } else {
      assert next[i] == x && i < at;
      assert next[..at][i] == x;
      PlacedAfter(h, parent, next, components[1..], at, x, y);
    }
  }

  /** A mixin the class did not have yet comes after each earlier component of the same inclusion. */
  lemma {:induction false} NewComponentsKeepTheirOrder(h: Hierarchy, parent: nat, list: seq<nat>,
                                                       components: seq<nat>, pos: nat, i: nat, j: nat)
    requires Acyclic(h) && parent < |h.supers| && pos <= |list| && i < j < |components| && NoRepeats(components)
    requires components[j] !in list
    requires !Derives(h, parent, components[i]) && !Derives(h, parent, components[j])
    ensures Ordered(Place(h, parent, list, components, pos), components[i], components[j])
    decreases |components|
  {
    var inherited := Derives(h, parent, components[0]);
    var (next, at) := MaybeAdd(list, components[0], inherited, pos);
    MaybeAddMembers(list, components[0], inherited, pos);
    if i > 0 {
      NewComponentsKeepTheirOrder(h, parent, next, components[1..], at, i - 1, j - 1);
    } else {
      var p := Position(list, components[0]);
      assert next[if p == |list| then pos else p] == components[0];
      assert next[..at][if p == |list| then pos else p] == components[0];
      assert components[1..][j - 1] == components[j];
      PlacedAfter(h, parent, next, components[1..], at, components[0], components[j]);
    }
  }

  /** Where an element ends up when `mixin` is added. */
  lemma MaybeAddShifts(list: seq<nat>, mixin: nat, inherited: bool, pos: nat, q: nat)
    requires pos <= |list| && q < |list|
    ensures var r := MaybeAdd(list, mixin, inherited, pos).0;
      var shifted := if r == list || q < pos then q else q + 1;
      shifted < |r| && r[shifted] == list[q]
  {
  }

  lemma PositionIs(list: seq<nat>, q: nat)
    requires NoRepeats(list) && q < |list|
    ensures Position(list, list[q]) == q
  {
  }

  /** No component is found in the list at or behind `q`, except inherited ones, which are not looked for. */
  ghost predicate FoundBefore(h: Hierarchy, parent: nat, list: seq<nat>, components: seq<nat>, q: nat)
    requires Acyclic(h) && parent < |h.supers|
  {
    forall i :: 0 <= i < |components| && components[i] in list && !Derives(h, parent, components[i]) ==>
      Position(list, components[i]) < q
  }

  lemma FoundBeforeFirst(h: Hierarchy, parent: nat, list: seq<nat>, components: seq<nat>, q: nat)
    requires Acyclic(h) && parent < |h.supers| && components != []
    ensures FoundBefore(h, parent, list, components, q) <==>
      && (components[0] in list && !Derives(h, parent, components[0]) ==> Position(list, components[0]) < q)
      && FoundBefore(h, parent, list, components[1..], q)
  {
    var rest := components[1..];
    assert forall i :: 0 <= i < |rest| ==> rest[i] == components[i + 1];
  }

  /** Inserting at `pos`, in front of `q`, does not change what is found before the element at `q`. */
  lemma FoundBeforeShifts(h: Hierarchy, parent: nat, list: seq<nat>, x: nat, pos: nat, components: seq<nat>, q: nat)
    requires Acyclic(h) && parent < |h.supers| && pos <= q < |list| && NoRepeats(list) && x !in list
    ensures FoundBefore(h, parent, list[..pos] + [x] + list[pos..], components, q + 1) <==>
            FoundBefore(h, parent, list, components, q)
  {
    var next := list[..pos] + [x] + list[pos..];
    forall y | y in list ensures y in next && (Position(next, y) < q + 1 <==> Position(list, y) < q) {
      var p := Position(list, y);
      var p' := if p < pos then p else p + 1;
      assert next[p'] == y && NoRepeats(next);
      PositionIs(next, p');
    }
    assert next[pos] == x && NoRepeats(next);
    PositionIs(next, pos);
  }

  /** The j-th component goes in front of the element at `q`. */
  ghost predicate GoesInFront(h: Hierarchy, parent: nat, list: seq<nat>, components: seq<nat>, pos: nat, j: nat, q: nat)
    requires Acyclic(h) && parent < |h.supers| && j < |components|
  {
    q >= pos && FoundBefore(h, parent, list, components[..j], q)
  }

  /** Adding the first component leaves the question for the others as it was. */
  lemma InFrontStep(h: Hierarchy, parent: nat, list: seq<nat>, components: seq<nat>, pos: nat, j: nat, q: nat)
    returns (shifted: nat)
    requires Acyclic(h) && parent < |h.supers| && pos <= |list| && 0 < j < |components| && q < |list| && NoRepeats(list)
    ensures var (next, at) := MaybeAdd(list, components[0], Derives(h, parent, components[0]), pos);
      && shifted < |next| && next[shifted] == list[q]
      && (GoesInFront(h, parent, next, components[1..], at, j - 1, shifted) <==>
          GoesInFront(h, parent, list, components, pos, j, q))
  {
    var x, before := components[0], components[..j];
    var inherited := Derives(h, parent, x);
    var (next, at) := MaybeAdd(list, x, inherited, pos);
    assert before[1..] == components[1..][..j - 1] && before[0] == x;
    FoundBeforeFirst(h, parent, list, before, q);
    MaybeAddShifts(list, x, inherited, pos, q);
    shifted := if next == list || q < pos then q else q + 1;
    if next != list && q >= pos { FoundBeforeShifts(h, parent, list, x, pos, before[1..], q); }
  }

  lemma FirstComponentPlace(h: Hierarchy, parent: nat, list: seq<nat>, components: seq<nat>, pos: nat, q: nat)
    requires Acyclic(h) && parent < |h.supers| && pos <= |list| && components != [] && q < |list|
    requires components[0] !in list && !Derives(h, parent, components[0])
    ensures var r := Place(h, parent, list, components, pos);
      if q >= pos then Ordered(r, components[0], list[q]) else Ordered(r, list[q], components[0])
  {
    var x := components[0];
    var (next, at) := MaybeAdd(list, x, false, pos);
    MaybeAddShifts(list, x, false, pos, q);
    assert next[pos] == x;
    if q >= pos {
      PlaceKeepsOrder(h, parent, next, components[1..], at, x, list[q]);
    } else {
      PlaceKeepsOrder(h, parent, next, components[1..], at, list[q], x);
    }
  }

  /**
   * Where a new component goes, relative to each element that was there before: in front of it exactly if the
   * element is not before the starting position and no component before the new one was found at or behind it.
   */
  lemma {:induction false} NewComponentPlace(h: Hierarchy, parent: nat, list: seq<nat>, components: seq<nat>, pos: nat,
                                             j: nat, q: nat)
    requires Acyclic(h) && parent < |h.supers| && pos <= |list| && j < |components| && q < |list| && NoRepeats(list)
    requires components[j] !in list && components[j] !in components[..j] && !Derives(h, parent, components[j])
    ensures var r := Place(h, parent, list, components, pos);
      if GoesInFront(h, parent, list, components, pos, j, q) then Ordered(r, components[j], list[q])
      else Ordered(r, list[q], components[j])
    decreases |components|
  {
    if j == 0 {
      FirstComponentPlace(h, parent, list, components, pos, q);
    } else {
      var x, rest := components[0], components[1..];
      var inherited := Derives(h, parent, x);
      var (next, at) := MaybeAdd(list, x, inherited, pos);
      var shifted := InFrontStep(h, parent, list, components, pos, j, q);
      MaybeAddMembers(list, x, inherited, pos);
      assert components[..j][0] == x && rest[..j - 1] == components[..j][1..];
      NewComponentPlace(h, parent, next, rest, at, j - 1, shifted);
    }
  }

  /** An unresolved mixin goes to the end, a class with its full linearization to the front, the superclass nowhere. */
  lemma OtherMixinsPlace(h: Hierarchy, c: nat, list: seq<nat>, m: nat)
    requires Acyclic(h) && 0 < c < |h.supers| && Lower(h, c, m)
    ensures var r := Round(h, c, list, m);
      if m == h.supers[c] then r == list
      else if IsStub(h, m) then list <= r && |r| == |list| + 1 && r[|list|] == m
      else if !h.isModule[m] then |Full(h, m, [])| + |list| == |r| && Full(h, m, []) <= r && r[|r| - |list|..] == list
      else NoRepeats(list) ==> NoRepeats(r)
  {
    if h.isModule[m] && !IsStub(h, m) && m != h.supers[c] {
      PlaceMembers(h, h.supers[c], list, [m] + Linear(h, m), 0);
    }
  }

  /** What the superclass does not have already. */
  function Lacking(h: Hierarchy, parent: nat, components: seq<nat>): seq<nat>
    requires Acyclic(h) && parent < |h.supers|
  {
    if components == [] then []
    else (if Derives(h, parent, components[0]) then [] else [components[0]]) + Lacking(h, parent, components[1..])
  }

  /** Components of which none is there yet go in as one block. */
  lemma {:induction false} NewBlock(h: Hierarchy, parent: nat, list: seq<nat>, components: seq<nat>, pos: nat)
    requires Acyclic(h) && parent < |h.supers| && pos <= |list| && NoRepeats(components)
    requires forall i :: 0 <= i < |components| && !Derives(h, parent, components[i]) ==> components[i] !in list
    ensures Place(h, parent, list, components, pos) == list[..pos] + Lacking(h, parent, components) + list[pos..]
    decreases |components|
  {
    if components == [] {
      assert list == list[..pos] + [] + list[pos..];
    } else {
      var x, rest := components[0], components[1..];
      var inherited := Derives(h, parent, x);
      var (next, at) := MaybeAdd(list, x, inherited, pos);
      MaybeAddMembers(list, x, inherited, pos);
      NewBlock(h, parent, next, rest, at);
      if !inherited {
        assert next[..at] == list[..pos] + [x] && next[at..] == list[pos..];
        var more := Lacking(h, parent, rest);
        assert list[..pos] + [x] + more == list[..pos] + ([x] + more);
      }
    }
  }

  lemma {:induction false} PlaceKeepsFront(h: Hierarchy, parent: nat, list: seq<nat>, components: seq<nat>, pos: nat)
    requires Acyclic(h) && parent < |h.supers| && 1 <= pos <= |list|
    ensures |Place(h, parent, list, components, pos)| > 0 && Place(h, parent, list, components, pos)[0] == list[0]
    decreases |components|
  {
    if components != [] {
      var (next, at) := MaybeAdd(list, components[0], Derives(h, parent, components[0]), pos);
      PlaceKeepsFront(h, parent, next, components[1..], at);
    }
  }

  /** A module that is new to the class goes in front of everything included before it. */
  lemma NewModuleGoesFirst(h: Hierarchy, c: nat, list: seq<nat>, m: nat)
    requires Acyclic(h) && 0 < c < |h.supers| && Lower(h, c, m) && h.isModule[m] && !IsStub(h, m)
    requires m != h.supers[c] && m !in list && !Derives(h, h.supers[c], m)
    ensures |Round(h, c, list, m)| > 0 && Round(h, c, list, m)[0] == m
  {
    var components := [m] + Linear(h, m);
    assert list[..0] + [m] + list[0..] == [m] + list;
    assert components[1..] == Linear(h, m);
    PlaceKeepsFront(h, h.supers[c], [m] + list, Linear(h, m), 1);
  }

  lemma {:induction false} AddMixinsSplits(h: Hierarchy, c: nat, list: seq<nat>, todo: seq<nat>, j: nat)
    requires Acyclic(h) && 0 < c < |h.supers| && j <= |todo|
    requires forall i :: 0 <= i < |todo| ==> Lower(h, c, todo[i])
    ensures AddMixins(h, c, list, todo) == AddMixins(h, c, AddMixins(h, c, list, todo[..j]), todo[j..])
    decreases j
  {
    if j == 0 {
      assert todo[..0] == [] && todo[0..] == todo;
    } else {
      assert todo[..j][0] == todo[0] && todo[..j][1..] == todo[1..][..j - 1] && todo[1..][j - 1..] == todo[j..];
      AddMixinsSplits(h, c, Round(h, c, list, todo[0]), todo[1..], j - 1);
    }
  }

  /** Of the modules of a class a later one comes before all that earlier ones bring, unless it comes with them. */
  lemma LaterModuleGoesFirst(h: Hierarchy, c: nat, j: nat, i: nat, x: nat)
    requires Acyclic(h) && 0 < c < |h.supers| && i < j < |h.mixins[c]| && Brings(h, c, h.mixins[c][i], x)
    requires var m := h.mixins[c][j]; h.isModule[m] && !IsStub(h, m) && Brings(h, c, m, m)
    requires forall k :: 0 <= k < j ==> !Brings(h, c, h.mixins[c][k], h.mixins[c][j])
    ensures Ordered(Linear(h, c), h.mixins[c][j], x)
  {
    var todo, m := h.mixins[c], h.mixins[c][j];
    var list := AddMixins(h, c, [], todo[..j]);
    AddMixinsMembers(h, c, [], todo[..j]);
    assert todo[..j][i] == todo[i];
    assert x in list && m !in list;
    NewModuleGoesFirst(h, c, list, m);
    RoundMembers(h, c, list, m);
    var next := Round(h, c, list, m);
    assert Ordered(next, m, x) by {
      var k :| 0 <= k < |next| && next[k] == x;
      assert next[0] == m;
    }
    AddMixinsSplits(h, c, [], todo, j);
    AddMixinsKeepsOrder(h, c, next, todo[j + 1..], m, x);
    assert todo[j..][1..] == todo[j + 1..];
  }

  // ---------------------------------------------------------------- repetitions

  /** The full linearization starts with what it was given and adds nothing twice. */
  lemma {:induction false} FullNoRepeats(h: Hierarchy, c: nat, acc: seq<nat>)
    requires Acyclic(h) && c < |h.supers| && NoRepeats(acc) && c !in acc
    ensures NoRepeats(Full(h, c, acc)) && acc + [c] <= Full(h, c, acc)
    decreases h.rank[c], 1
  {
    FullMixinsNoRepeats(h, c, Linear(h, c), acc + [c]);
    var own := FullMixins(h, c, Linear(h, c), acc + [c]);
    if h.supers[c] != 0 && h.supers[c] !in own { FullNoRepeats(h, h.supers[c], own); }
  }

  lemma {:induction false} FullMixinsNoRepeats(h: Hierarchy, c: nat, list: seq<nat>, acc: seq<nat>)
    requires Acyclic(h) && c < |h.supers| && NoRepeats(acc)
    ensures NoRepeats(FullMixins(h, c, list, acc)) && acc <= FullMixins(h, c, list, acc)
    decreases h.rank[c], 0, |list|
  {
    if list != [] {
      var m := list[0];
      if m in acc {
        FullMixinsNoRepeats(h, c, list[1..], acc);
      } else if m < |h.supers| && !h.isModule[m] && h.rank[m] < h.rank[c] {
        FullNoRepeats(h, m, acc);
        FullMixinsNoRepeats(h, c, list[1..], Full(h, m, acc));
      } else {
        FullMixinsNoRepeats(h, c, list[1..], acc + [m]);
      }
    }
  }

  /** Stubs and classes are put into the list without looking whether something is there already. */
  ghost predicate Clash(h: Hierarchy, c: nat, list: seq<nat>, m: nat)
    requires Acyclic(h) && 0 < c < |h.supers| && m < |h.supers|
  {
    m != h.supers[c] &&
    if IsStub(h, m) then m in list else !h.isModule[m] && exists x <- Full(h, m, []) :: x in list
  }

  ghost predicate NoClashes(h: Hierarchy, c: nat, list: seq<nat>, todo: seq<nat>)
    requires Acyclic(h) && 0 < c < |h.supers| && forall i :: 0 <= i < |todo| ==> Lower(h, c, todo[i])
    decreases |todo|
  {
    if todo == [] then true
    else
      assert Lower(h, c, todo[0]);
      !Clash(h, c, list, todo[0]) && NoClashes(h, c, Round(h, c, list, todo[0]), todo[1..])
  }

  lemma RepeatIsOrdered(list: seq<nat>)
    ensures NoRepeats(list) <==> forall x :: !Ordered(list, x, x)
  {
    if !NoRepeats(list) {
      var i, j :| 0 <= i < j < |list| && list[i] == list[j];
      assert Ordered(list, list[i], list[i]);
    }
  }

  lemma JoinRepeats(a: seq<nat>, b: seq<nat>)
    requires NoRepeats(a) && NoRepeats(b)
    ensures NoRepeats(a + b) <==> forall x <- a :: x !in b
  {
    if x :| x in a && x in b {
      var i, j :| 0 <= i < |a| && a[i] == x && 0 <= j < |b| && b[j] == x;
      assert (a + b)[i] == (a + b)[|a| + j];
    } else {
      forall i, j | 0 <= i < j < |a + b| ensures (a + b)[i] != (a + b)[j] {
        assert i < |a| <= j ==> a[i] in a && b[j - |a|] in b;
      }
    }
  }

  lemma RoundRepeats(h: Hierarchy, c: nat, list: seq<nat>, m: nat)
    requires Acyclic(h) && 0 < c < |h.supers| && Lower(h, c, m) && NoRepeats(list)
    ensures NoRepeats(Round(h, c, list, m)) <==> !Clash(h, c, list, m)
  {
    if m != h.supers[c] {
      if IsStub(h, m) {
        JoinRepeats(list, [m]);
      } else if !h.isModule[m] {
        FullNoRepeats(h, m, []);
        JoinRepeats(Full(h, m, []), list);
      } else {
        PlaceMembers(h, h.supers[c], list, [m] + Linear(h, m), 0);
      }
    }
  }

  lemma {:induction false} AddMixinsRepeats(h: Hierarchy, c: nat, list: seq<nat>, todo: seq<nat>)
    requires Acyclic(h) && 0 < c < |h.supers| && NoRepeats(list) && forall i :: 0 <= i < |todo| ==> Lower(h, c, todo[i])
    ensures NoRepeats(AddMixins(h, c, list, todo)) <==> NoClashes(h, c, list, todo)
    decreases |todo|
  {
    if todo != [] {
      var next := Round(h, c, list, todo[0]);
      RoundRepeats(h, c, list, todo[0]);
      if NoRepeats(next) {
        AddMixinsRepeats(h, c, next, todo[1..]);
      } else {
        RepeatIsOrdered(next);
        var x :| Ordered(next, x, x);
        AddMixinsKeepsOrder(h, c, next, todo[1..], x, x);
        RepeatIsOrdered(AddMixins(h, c, next, todo[1..]));
      }
    }
  }

  /** Mixins that are put into the list without looking. */
  predicate Unchecked(h: Hierarchy, m: nat)
    requires m < |h.supers| == |h.isModule|
  {
    IsStub(h, m) || !h.isModule[m]
  }

  /** Including `m` brings something of the list again. */
  ghost predicate Meets(h: Hierarchy, c: nat, list: seq<nat>, m: nat)
    requires Acyclic(h) && 0 < c < |h.supers| && m < |h.supers|
  {
    exists x <- list :: Brings(h, c, m, x)
  }

  /** Including `m` and including `k` bring something in common. */
  ghost predicate Overlap(h: Hierarchy, c: nat, m: nat, k: nat)
    requires Acyclic(h) && 0 < c < |h.supers| && m < |h.supers| && k < |h.supers|
  {
    exists x :: Brings(h, c, m, x) && Brings(h, c, k, x)
  }

  lemma ClashIff(h: Hierarchy, c: nat, list: seq<nat>, m: nat)
    requires Acyclic(h) && 0 < c < |h.supers| && m < |h.supers|
    ensures Clash(h, c, list, m) <==> Unchecked(h, m) && Meets(h, c, list, m)
  {
    if Clash(h, c, list, m) {
      var x :| x in list && Brings(h, c, m, x);
    }
  }

  lemma MeetsAfterRound(h: Hierarchy, c: nat, list: seq<nat>, m: nat, k: nat)
    requires Acyclic(h) && 0 < c < |h.supers| && Lower(h, c, m) && k < |h.supers|
    ensures Meets(h, c, Round(h, c, list, m), k) <==> Meets(h, c, list, k) || Overlap(h, c, m, k)
  {
    RoundMembers(h, c, list, m);
    var next := Round(h, c, list, m);
    if x :| x in list && Brings(h, c, k, x) { assert x in next; }
    if x :| Brings(h, c, m, x) && Brings(h, c, k, x) { assert x in next; }
  }

  /** No mixin that is included without looking brings what the list has, or what a mixin before it brings. */
  ghost predicate Separate(h: Hierarchy, c: nat, list: seq<nat>, todo: seq<nat>)
    requires Acyclic(h) && 0 < c < |h.supers| && forall i :: 0 <= i < |todo| ==> Lower(h, c, todo[i])
  {
    forall j :: 0 <= j < |todo| && Lower(h, c, todo[j]) && Unchecked(h, todo[j]) ==>
      !Meets(h, c, list, todo[j]) && NoneOverlaps(h, c, todo[..j], todo[j])
  }

  ghost predicate NoneOverlaps(h: Hierarchy, c: nat, before: seq<nat>, m: nat)
    requires Acyclic(h) && 0 < c < |h.supers| && m < |h.supers|
    requires forall i :: 0 <= i < |before| ==> Lower(h, c, before[i])
  {
    forall i :: 0 <= i < |before| ==> Lower(h, c, before[i]) && !Overlap(h, c, before[i], m)
  }

  lemma {:induction false} NoClashesIff(h: Hierarchy, c: nat, list: seq<nat>, todo: seq<nat>)
    requires Acyclic(h) && 0 < c < |h.supers| && forall i :: 0 <= i < |todo| ==> Lower(h, c, todo[i])
    ensures NoClashes(h, c, list, todo) <==> Separate(h, c, list, todo)
    decreases |todo|
  {
    if todo != [] {
      var m, rest, next := todo[0], todo[1..], Round(h, c, list, todo[0]);
      ClashIff(h, c, list, m);
      NoClashesIff(h, c, next, rest);
      forall j | 0 <= j < |rest|
        ensures !Meets(h, c, next, rest[j]) && NoneOverlaps(h, c, rest[..j], rest[j]) <==>
                !Meets(h, c, list, rest[j]) && NoneOverlaps(h, c, todo[..j + 1], todo[j + 1])
      {
        assert Lower(h, c, todo[j + 1]);
        MeetsAfterRound(h, c, list, m, rest[j]);
        assert todo[..j + 1] == [m] + rest[..j];
        NoneOverlapsStep(h, c, m, rest[..j], rest[j]);
      }
      SeparateStep(h, c, list, todo);
    }
  }

  lemma NoneOverlapsStep(h: Hierarchy, c: nat, m: nat, before: seq<nat>, k: nat)
    requires Acyclic(h) && 0 < c < |h.supers| && k < |h.supers| && Lower(h, c, m)
    requires forall i :: 0 <= i < |before| ==> Lower(h, c, before[i])
    ensures NoneOverlaps(h, c, [m] + before, k) <==> !Overlap(h, c, m, k) && NoneOverlaps(h, c, before, k)
  {
    var all := [m] + before;
    assert all[0] == m && forall i :: 0 <= i < |before| ==> all[i + 1] == before[i];
  }

  lemma SeparateStep(h: Hierarchy, c: nat, list: seq<nat>, todo: seq<nat>)
    requires Acyclic(h) && 0 < c < |h.supers| && todo != [] && forall i :: 0 <= i < |todo| ==> Lower(h, c, todo[i])
    ensures Separate(h, c, list, todo) <==>
      && (Unchecked(h, todo[0]) ==> !Meets(h, c, list, todo[0]))
      && forall j :: 0 <= j < |todo[1..]| && Unchecked(h, todo[1..][j]) ==>
           !Meets(h, c, list, todo[1..][j]) && NoneOverlaps(h, c, todo[..j + 1], todo[j + 1])
  {
    assert forall j :: 0 <= j < |todo[1..]| ==> todo[1..][j] == todo[j + 1];
  }

  /**
   * A linearization lists something twice exactly if some stub or class among the mixins brings something that a
   * mixin before it brings as well.
   */
  lemma LinearRepeats(h: Hierarchy, c: nat)
    requires Acyclic(h) && 0 < c < |h.supers|
    ensures NoRepeats(Linear(h, c)) <==>
      forall i, j :: 0 <= i < j < |h.mixins[c]| && Unchecked(h, h.mixins[c][j]) ==>
        !Overlap(h, c, h.mixins[c][i], h.mixins[c][j])
  {
    var todo := h.mixins[c];
    AddMixinsRepeats(h, c, [], todo);
    NoClashesIff(h, c, [], todo);
    assert forall i, j :: 0 <= i < j < |todo| ==> todo[..j][i] == todo[i];
    if Separate(h, c, [], todo) {
      forall i, j | 0 <= i < j < |todo| && Unchecked(h, todo[j]) ensures !Overlap(h, c, todo[i], todo[j]) {
        assert NoneOverlaps(h, c, todo[..j], todo[j]) && todo[..j][i] == todo[i];
      }
    }
  }

  /** So modules alone never lead to a repetition. */
  lemma ModulesNeverRepeat(h: Hierarchy, c: nat)
    requires Acyclic(h) && 0 < c < |h.supers|
    requires forall i :: 0 <= i < |h.mixins[c]| ==> Lower(h, c, h.mixins[c][i]) && !Unchecked(h, h.mixins[c][i])
    ensures NoRepeats(Linear(h, c))
  {
    LinearRepeats(h, c);
  }

  /** Module 1, class 2 that includes it, class 3 that includes 1 and then 2. */
  const TWICE :=
    Hierarchy([0, 0, 0, 0], [[], [], [1], [1, 2]], [false, true, false, false], {}, [0, 1, 2, 3])

  lemma ModuleFirst(c: nat)
    requires 2 <= c <= 3
    ensures Acyclic(TWICE) && Linear(TWICE, 1) == [] && Round(TWICE, c, [], 1) == [1]
  {
    var h := TWICE;
    assert Acyclic(h) && Linear(h, 1) == [] && !Derives(h, 0, 1);
    assert Place(h, 0, [], [1], 0) == [1];
  }

  /** Including a module and then a class that includes it lists the module twice. */
  lemma ClassAfterModuleRepeats()
    ensures Acyclic(TWICE) && Linear(TWICE, 3) == [2, 1, 1]
  {
    var h := TWICE;
    ModuleFirst(2);
    ModuleFirst(3);
    assert Linear(h, 2) == [1];
    assert FullMixins(h, 2, [1], [2]) == [2, 1];
    assert Full(h, 2, []) == [2, 1];
    assert AddMixins(h, 3, [1], [2]) == [2, 1, 1];
  }
}
