/** Mangled names: renaming a method out of the way and finding it again (core/GlobalState.cc). */
module Mangling {
  import opened SymbolTable
  import opened SymbolStrata
  import opened GlobalSymbols

  /** The mangled forms of every name that are members are numbered from 1 without a gap. */
  ghost predicate NoGaps(members: map<Name, SymbolRef>) {
    forall n <- KnownNames(members) :: n.Mangled? ==>
      n.num >= 1 && (n.num > 1 ==> Mangled(n.original, n.num - 1) in KnownNames(members))
  }

  ghost predicate AllNoGaps(s: Symbols) {
    forall i :: 0 <= i < |s.classes| ==> NoGaps(s.classes[i].members)
  }

  /** Names are entered as they are, or mangled as the next form of some name. */
  predicate Tidy(members: map<Name, SymbolRef>, name: Name) {
    Knows(members, name) || !name.Mangled? || name == NextMangledName(members, name.original)
  }

  /** Steps of a run without deletions and copies. Only methods under their own name are renamed. */
  predicate Quiet(s: Symbols, op: Op)
    requires Allowed(s, op)
  {
    match op
    case OpEnterClass(owner, name) => Tidy(s.classes[owner].members, name)
    case OpEnterLeaf(_, owner, name) => Tidy(s.classes[owner].members, name)
    case OpEnterTypeMember(owner, name) => Tidy(s.classes[owner].members, name)
    case OpEnterSingleton(_) => true
    case OpMangleRename(id) => !s.methods[id].name.Mangled?
    case OpUpdateOffsets => true
    case OpReopen(_) => true
    case OpDelete(_, _) => false
    case OpCopyPrefix(_) => false
  }

  lemma AddKeepsNoGaps(members: map<Name, SymbolRef>, name: Name, ref: SymbolRef)
    requires NoGaps(members) && Tidy(members, name) && ref.id != 0
    ensures NoGaps(members[name := ref])
  {
    assert KnownNames(members[name := ref]) == KnownNames(members) + {name};
  }

  lemma EmptyKeepsNoGaps(members: map<Name, SymbolRef>, name: Name)
    ensures !Knows(members, name) ==> KnownNames(members[name := NO_SYMBOL]) == KnownNames(members)
  {
  }

  lemma RenameKeepsNoGaps(members: map<Name, SymbolRef>, name: Name, ref: SymbolRef)
    requires NoGaps(members) && !name.Mangled? && ref.id != 0
    ensures NoGaps((members - {name})[NextMangledName(members, name) := ref])
  {
    var mangled := NextMangledName(members, name);
    assert KnownNames((members - {name})[mangled := ref]) == KnownNames(members) - {name} + {mangled};
  }

  lemma StepKeepsNoGaps(s: Symbols, op: Op)
    requires Inv(s) && AllNoGaps(s) && Allowed(s, op) && Quiet(s, op)
    ensures AllNoGaps(Step(s, op))
    decreases op.OpEnterSingleton?
  {
    match op
    case OpEnterClass(owner, name) =>
      AddKeepsNoGaps(s.classes[owner].members, name, SymbolRef(ClassOrModule, |s.classes|));
    case OpEnterLeaf(kind, owner, name) =>
      AddKeepsNoGaps(s.classes[owner].members, name, SymbolRef(kind, |s.Leaves(kind)|));
    case OpEnterTypeMember(owner, name) =>
      AddKeepsNoGaps(s.classes[owner].members, name, SymbolRef(TypeMember, |s.typeMembers|));
      EmptyKeepsNoGaps(s.classes[owner].members, name);
    case OpEnterSingleton(c) => SingletonKeepsNoGaps(s, c);
    case OpMangleRename(id) =>
      RenameKeepsNoGaps(s.classes[s.methods[id].owner].members, s.methods[id].name, SymbolRef(Method, id));
    case OpUpdateOffsets =>
    case OpReopen(_) =>
  }

  lemma UnmangledKeepsNoGaps(s: Symbols, owner: nat, name: Name, ref: SymbolRef)
    requires AllNoGaps(s) && owner < |s.classes| && !name.Mangled? && ref.id != 0
    ensures AllNoGaps(s.WithMember(owner, name, ref))
  {
    AddKeepsNoGaps(s.classes[owner].members, name, ref);
  }

  lemma SingletonKeepsNoGaps(s: Symbols, c: nat)
    requires Inv(s) && AllNoGaps(s) && CanAttach(s, c)
    ensures AllNoGaps(EnterSingleton(s, c).after)
    decreases true, 0
  {
    if !Knows(s.classes[c].members, SINGLETON) {
      var owner, name := s.classes[c].owner, SingletonOf(s.classes[c].name);
      var (entered, _) := EnterClass(s, owner, name);
      var (t, id) := Attach(s, c);
      StepKeeps(s, OpEnterClass(owner, name));
      StepKeepsNoGaps(s, OpEnterClass(owner, name));
      UnmangledKeepsNoGaps(entered, id, ATTACHED, SymbolRef(ClassOrModule, c));
      LinkKeeps(entered, id, ATTACHED, c);
      StepKeepsNoGaps(t, OpEnterTypeMember(id, ATTACHED_CLASS));
      var r := EnterTypeMember(t, id, ATTACHED_CLASS);
      if r.Entered? { UnmangledKeepsNoGaps(r.after, c, SINGLETON, SymbolRef(ClassOrModule, id)); }
    }
  }

  predicate QuietRun(s: Symbols, ops: seq<Op>)
    decreases |ops|
  {
    ops == [] || (Allowed(s, ops[0]) && Quiet(s, ops[0]) && QuietRun(Step(s, ops[0]), ops[1..]))
  }

  /** In every run without deletions the mangled names of every owner stay free of gaps. */
  lemma {:induction false} RunKeepsNoGaps(s: Symbols, ops: seq<Op>)
    requires Inv(s) && AllNoGaps(s) && QuietRun(s, ops)
    ensures AllowedRun(s, ops) && AllNoGaps(RunOps(s, ops))
    decreases |ops|
  {
    if ops != [] {
      StepKeeps(s, ops[0]);
      StepKeepsNoGaps(s, ops[0]);
      RunKeepsNoGaps(Step(s, ops[0]), ops[1..]);
    }
  }

  /** Without gaps, the members among x$1, x$2, ... are exactly those before the next mangled name. */
  lemma {:induction false} MangledFormsAreInitial(members: map<Name, SymbolRef>, name: Name, j: nat)
    requires NoGaps(members)
    ensures Knows(members, Mangled(name, j)) <==> 1 <= j < NextFree(KnownNames(members), name, 1)
    decreases j
  {
    var known := KnownNames(members);
    var next := NextFree(known, name, 1);
    if Mangled(name, j) in known {
      assert Mangled(name, j).num >= 1 && j != next;
      if j > 1 {
        assert Mangled(name, j - 1) in known;
        MangledFormsAreInitial(members, name, j - 1);
      }
    } else {
      assert !(1 <= j < next);
    }
  }

  ghost predicate InChain(name: Name, n: Name) {
    n == name || (n.Mangled? && n.original == name)
  }

  /** Some method known under the name or a mangled form of it matches. */
  ghost predicate HasMatch(members: map<Name, SymbolRef>, name: Name, matches: nat -> bool) {
    exists n :: InChain(name, n) && MatchesAt(members, n, matches)
  }

  /** The `j`-th mangled form matches, and none from the `num`-th on before it. */
  ghost predicate LeastMatch(members: map<Name, SymbolRef>, name: Name, num: nat, j: nat, matches: nat -> bool) {
    && num <= j && MatchesAt(members, Mangled(name, j), matches)
    && forall i :: num <= i < j ==> !MatchesAt(members, Mangled(name, i), matches)
  }

  /** The method found: that of the plain name if it matches, or else that of the least mangled number that does. */
  ghost predicate IsFirst(members: map<Name, SymbolRef>, name: Name, matches: nat -> bool, id: nat) {
    if MatchesAt(members, name, matches) then id == members[name].id
    else exists j :: LeastMatch(members, name, 1, j, matches) && members[Mangled(name, j)].id == id
  }

  /** The walk finds, from `num` on, the matching methods before the first missing entry and no others. */
  lemma {:induction false} WalkFinds(members: map<Name, SymbolRef>, name: Name, num: nat, matches: nat -> bool)
    requires num >= 1
    ensures FirstMatchFrom(members, name, num, matches).Some? <==>
      exists j :: num <= j < NextFree(members.Keys, name, num) && MatchesAt(members, Mangled(name, j), matches)
    ensures var r := FirstMatchFrom(members, name, num, matches);
      r.Some? ==> exists j :: LeastMatch(members, name, num, j, matches) && members[Mangled(name, j)].id == r.value
    decreases NextFree(members.Keys, name, num) - num
  {
    var next := NextFree(members.Keys, name, num);
    if Mangled(name, num) in members {
      assert num < next;
      if !MatchesAt(members, Mangled(name, num), matches) {
        NextFromNext(members.Keys, name, num);
        WalkFinds(members, name, num + 1, matches);
        var r := FirstMatchFrom(members, name, num + 1, matches);
        if r.Some? {
          var j :| LeastMatch(members, name, num + 1, j, matches) && members[Mangled(name, j)].id == r.value;
          assert LeastMatch(members, name, num, j, matches);
        }
      } else {
        assert LeastMatch(members, name, num, num, matches);
      }
    }
  }

  lemma NextFromNext(taken: set<Name>, name: Name, num: nat)
    requires Mangled(name, num) in taken
    ensures NextFree(taken, name, num) == NextFree(taken, name, num + 1)
  {
    var a, b := NextFree(taken, name, num), NextFree(taken, name, num + 1);
    assert a < b ==> Mangled(name, a) in taken;
    assert b < a ==> Mangled(name, b) in taken;
  }

  /** A matching mangled form is before the first missing entry. */
  lemma MatchIsReached(members: map<Name, SymbolRef>, name: Name, j: nat, matches: nat -> bool)
    requires NoGaps(members) && MatchesAt(members, Mangled(name, j), matches)
    ensures 1 <= j < NextFree(members.Keys, name, 1)
  {
    MangledFormsAreInitial(members, name, j);
    var known, all := NextFree(KnownNames(members), name, 1), NextFree(members.Keys, name, 1);
    assert all < known ==> Mangled(name, all) in KnownNames(members);
  }

  /**
   * Lookup by arity: it answers with the first matching method of name, name$1, name$2, ...; and where a match
   * exists, it is found exactly when there is an entry for the unmangled name.
   */
  lemma LookupIsExact(members: map<Name, SymbolRef>, name: Name, matches: nat -> bool)
    requires NoGaps(members)
    ensures var r := FirstMatch(members, name, matches);
      && (r.Some? ==> IsFirst(members, name, matches, r.value))
      && (r.Some? <==> name in members && HasMatch(members, name, matches))
  {
    var r := FirstMatch(members, name, matches);
    WalkFinds(members, name, 1, matches);
    if MatchesAt(members, name, matches) {
      assert InChain(name, name);
    } else if name in members {
      if r.Some? {
        var j :| LeastMatch(members, name, 1, j, matches) && members[Mangled(name, j)].id == r.value;
        assert InChain(name, Mangled(name, j));
      } else {
        forall n | InChain(name, n) ensures !MatchesAt(members, n, matches) {
          if n != name && MatchesAt(members, n, matches) { MatchIsReached(members, name, n.num, matches); }
        }
      }
    }
  }

  /** A matching method that was only renamed, and not redefined, is never found under its old name. */
  lemma RenamedAloneIsLost(s: Symbols, id: nat, matches: nat -> bool)
    requires Inv(s) && CanDelete(s, Method, id) && !s.methods[id].name.Mangled? && matches(id)
    ensures var leaf := s.methods[id];
      var members := MangleRename(s, id).classes[leaf.owner].members;
      HasMatch(members, leaf.name, matches) && FirstMatch(members, leaf.name, matches).None?
  {
    var leaf := s.methods[id];
    var mangled := NextMangledName(s.classes[leaf.owner].members, leaf.name);
    assert InChain(leaf.name, mangled)
      && MatchesAt(MangleRename(s, id).classes[leaf.owner].members, mangled, matches);
  }

  /** Renaming a method away and defining it anew: both are members, the old one under the next mangled name. */
  lemma RenameThenRedefine(s: Symbols, id: nat)
    requires Inv(s) && CanDelete(s, Method, id) && !s.methods[id].name.Mangled?
    ensures var leaf := s.methods[id];
      var before, m := s.classes[leaf.owner].members, MangleRename(s, id);
      var (t, again) := EnterLeaf(m, Method, leaf.owner, leaf.name);
      && Inv(t) && again == |s.methods|
      && t.classes[leaf.owner].members ==
           before[leaf.name := SymbolRef(Method, again)][NextMangledName(before, leaf.name) := SymbolRef(Method, id)]
      && t.classes[leaf.owner].(members := before) == s.classes[leaf.owner] && OthersKept(s, t, Method)
      && t.methods == s.methods[id := Leaf(leaf.owner, NextMangledName(before, leaf.name))] + [leaf]
      && |t.classes| == |s.classes|
      && forall i :: 0 <= i < |s.classes| && i != leaf.owner ==> t.classes[i] == s.classes[i]
  {
    var leaf := s.methods[id];
    MangleRenameKeeps(s, id);
    EnterLeafKeeps(MangleRename(s, id), Method, leaf.owner, leaf.name);
  }

  // ---------------------------------------------------------------- runs of the namer

  /** Whoever has a mangled member has a member of the original name. */
  ghost predicate Anchored(members: map<Name, SymbolRef>) {
    forall n <- KnownNames(members) :: n.Mangled? ==> n.original in KnownNames(members)
  }

  ghost predicate Orderly(members: map<Name, SymbolRef>) {
    NoGaps(members) && Anchored(members)
  }

  ghost predicate AllOrderly(s: Symbols) {
    forall i :: 0 <= i < |s.classes| ==> Orderly(s.classes[i].members)
  }

  /** With both, lookup by arity finds a match if and only if there is one. */
  lemma LookupFindsMatches(members: map<Name, SymbolRef>, name: Name, matches: nat -> bool)
    requires Orderly(members)
    ensures FirstMatch(members, name, matches).Some? <==> HasMatch(members, name, matches)
  {
    LookupIsExact(members, name, matches);
    if n :| InChain(name, n) && MatchesAt(members, n, matches) { assert n in KnownNames(members); }
  }

  /** Enter a symbol, or move a method out of the way and define it anew. */
  datatype NamerOp = Enter(op: Op) | Redefine(id: nat)

  /** A new mangled name is the next form of a member's name. */
  predicate Settled(members: map<Name, SymbolRef>, name: Name) {
    Tidy(members, name) && (name.Mangled? ==> Knows(members, name) || Knows(members, name.original))
  }

  predicate NamerAllowed(s: Symbols, step: NamerOp) {
    match step
    case Redefine(id) => CanDelete(s, Method, id) && !s.methods[id].name.Mangled? && !Reserved(s.methods[id].name)
    case Enter(op) =>
      Allowed(s, op) &&
      match op
      case OpEnterClass(owner, name) => Settled(s.classes[owner].members, name)
      case OpEnterLeaf(_, owner, name) => Settled(s.classes[owner].members, name)
      case OpEnterTypeMember(owner, name) => Settled(s.classes[owner].members, name)
      case OpEnterSingleton(_) => true
      case OpUpdateOffsets => true
      case OpReopen(_) => true
      case _ => false
  }

  function NamerStep(s: Symbols, step: NamerOp): Symbols
    requires NamerAllowed(s, step)
  {
    match step
    case Enter(op) => Step(s, op)
    case Redefine(id) => EnterLeaf(MangleRename(s, id), Method, s.methods[id].owner, s.methods[id].name).0
  }

  lemma AddKeepsOrderly(members: map<Name, SymbolRef>, name: Name, ref: SymbolRef)
    requires Orderly(members) && Settled(members, name) && ref.id != 0
    ensures Orderly(members[name := ref])
  {
    AddKeepsNoGaps(members, name, ref);
    assert KnownNames(members[name := ref]) == KnownNames(members) + {name};
  }

  lemma RedefineKeepsOrderly(members: map<Name, SymbolRef>, name: Name, again: SymbolRef, moved: SymbolRef)
    requires Orderly(members) && !name.Mangled? && Knows(members, name) && again.id != 0 && moved.id != 0
    ensures Orderly(members[name := again][NextMangledName(members, name) := moved])
  {
    var mangled, after := NextMangledName(members, name), members[name := again];
    assert KnownNames(after) == KnownNames(members);
    AddKeepsOrderly(after, mangled, moved);
  }

  /** One step of the namer keeps the invariant and the order of mangled names. */
  lemma NamerStepKeeps(s: Symbols, step: NamerOp)
    requires Inv(s) && AllOrderly(s) && NamerAllowed(s, step)
    ensures Inv(NamerStep(s, step)) && AllOrderly(NamerStep(s, step))
  {
    match step
    case Enter(op) =>
      StepKeeps(s, op);
      EnterKeepsOrderly(s, op);
    case Redefine(id) =>
      var leaf := s.methods[id];
      RenameThenRedefine(s, id);
      RedefineKeepsOrderly(s.classes[leaf.owner].members, leaf.name, SymbolRef(Method, |s.methods|),
                           SymbolRef(Method, id));
  }

  lemma EnterKeepsOrderly(s: Symbols, op: Op)
    requires Inv(s) && AllOrderly(s) && NamerAllowed(s, Enter(op))
    ensures AllOrderly(Step(s, op))
    decreases op.OpEnterSingleton?
  {
    match op
    case OpEnterClass(owner, name) =>
      AddKeepsOrderly(s.classes[owner].members, name, SymbolRef(ClassOrModule, |s.classes|));
    case OpEnterLeaf(kind, owner, name) =>
      AddKeepsOrderly(s.classes[owner].members, name, SymbolRef(kind, |s.Leaves(kind)|));
    case OpEnterTypeMember(owner, name) =>
      AddKeepsOrderly(s.classes[owner].members, name, SymbolRef(TypeMember, |s.typeMembers|));
      EmptyKeepsNoGaps(s.classes[owner].members, name);
    case OpEnterSingleton(c) => SingletonKeepsOrderly(s, c);
    case OpUpdateOffsets =>
    case OpReopen(_) =>
  }

  lemma UnmangledKeepsOrderly(s: Symbols, owner: nat, name: Name, ref: SymbolRef)
    requires AllOrderly(s) && owner < |s.classes| && !name.Mangled? && ref.id != 0
    ensures AllOrderly(s.WithMember(owner, name, ref))
  {
    AddKeepsOrderly(s.classes[owner].members, name, ref);
  }

  lemma SingletonKeepsOrderly(s: Symbols, c: nat)
    requires Inv(s) && AllOrderly(s) && CanAttach(s, c)
    ensures AllOrderly(EnterSingleton(s, c).after)
    decreases true, 0
  {
    if !Knows(s.classes[c].members, SINGLETON) {
      var owner, name := s.classes[c].owner, SingletonOf(s.classes[c].name);
      var (entered, _) := EnterClass(s, owner, name);
      var (t, id) := Attach(s, c);
      StepKeeps(s, OpEnterClass(owner, name));
      EnterKeepsOrderly(s, OpEnterClass(owner, name));
      UnmangledKeepsOrderly(entered, id, ATTACHED, SymbolRef(ClassOrModule, c));
      LinkKeeps(entered, id, ATTACHED, c);
      EnterKeepsOrderly(t, OpEnterTypeMember(id, ATTACHED_CLASS));
      var r := EnterTypeMember(t, id, ATTACHED_CLASS);
      if r.Entered? { UnmangledKeepsOrderly(r.after, c, SINGLETON, SymbolRef(ClassOrModule, id)); }
    }
  }

  predicate NamerRun(s: Symbols, steps: seq<NamerOp>)
    decreases |steps|
  {
    steps == [] || (NamerAllowed(s, steps[0]) && NamerRun(NamerStep(s, steps[0]), steps[1..]))
  }

  function AfterNamer(s: Symbols, steps: seq<NamerOp>): Symbols
    requires NamerRun(s, steps)
    decreases |steps|
  {
    if steps == [] then s else AfterNamer(NamerStep(s, steps[0]), steps[1..])
  }

  lemma {:induction false} NamerRunKeeps(s: Symbols, steps: seq<NamerOp>)
    requires Inv(s) && AllOrderly(s) && NamerRun(s, steps)
    ensures Inv(AfterNamer(s, steps)) && AllOrderly(AfterNamer(s, steps))
    decreases |steps|
  {
    if steps != [] {
      NamerStepKeeps(s, steps[0]);
      NamerRunKeeps(NamerStep(s, steps[0]), steps[1..]);
    }
  }

  lemma InitialIsOrderly()
    ensures Inv(Initial()) && AllOrderly(Initial())
  {
    InitialInv();
    forall i | 0 <= i < |Initial().classes| ensures Orderly(Initial().classes[i].members) {
      assert KnownNames(Initial().classes[i].members) == {};
    }
  }

  /** What lookup answers, and that it answers whenever it can. */
  ghost predicate LooksUp(members: map<Name, SymbolRef>, name: Name, matches: nat -> bool) {
    var r := FirstMatch(members, name, matches);
    && (r.Some? <==> HasMatch(members, name, matches))
    && (r.Some? ==> IsFirst(members, name, matches, r.value))
  }

  lemma OrderlyLookups(s: Symbols, c: nat, name: Name, matches: nat -> bool)
    requires AllOrderly(s) && c < |s.classes|
    ensures LooksUp(s.classes[c].members, name, matches)
  {
    LookupFindsMatches(s.classes[c].members, name, matches);
    LookupIsExact(s.classes[c].members, name, matches);
  }

  /**
   * In every run of entries and redefinitions from the start, for every class, name and notion of matching: lookup
   * by arity finds a method if and only if some method under the name or a mangled form of it matches.
   */
  lemma LookupIsExactInRuns(steps: seq<NamerOp>, c: nat, name: Name, matches: nat -> bool)
    requires NamerRun(Initial(), steps) && c < |AfterNamer(Initial(), steps).classes|
    ensures LooksUp(AfterNamer(Initial(), steps).classes[c].members, name, matches)
  {
    InitialIsOrderly();
    NamerRunKeeps(Initial(), steps);
    OrderlyLookups(AfterNamer(Initial(), steps), c, name, matches);
  }
}
