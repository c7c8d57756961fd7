/** Copying a prefix of the symbol tables gives back what was there when its boundary was recorded. */
module SymbolPrefixes {
  import opened SymbolTable
  import opened SymbolStrata

  /** Steps that only add symbols, record boundaries or reopen strata from `k` on. */
  predicate Adds(op: Op, k: nat) {
    match op
    case OpDelete(_, _) => false
    case OpMangleRename(_) => false
    case OpCopyPrefix(_) => false
    case OpReopen(stratum) => k <= stratum
    case _ => true
  }

  predicate AddingRun(s: Symbols, ops: seq<Op>, k: nat)
    decreases |ops|
  {
    ops == [] || (Allowed(s, ops[0]) && Adds(ops[0], k) && AddingRun(Step(s, ops[0]), ops[1..], k))
  }

  /** Below the sizes `o`, the members of class `a` are those of `b`, and so is everything else about it. */
  ghost predicate ClassAsBefore(b: ClassData, a: ClassData, o: Offsets) {
    && a.owner == b.owner && a.name == b.name && a.typeMembers == b.typeMembers
    && (forall n :: Knows(b.members, n) && !Reserved(n) ==> n in a.members && a.members[n] == b.members[n])
    && (forall n :: Knows(a.members, n) && !Reserved(n) && !Knows(b.members, n) ==>
          a.members[n].id >= o.Of(a.members[n].kind))
  }

  /** The tables `t` hold those of `s` up to boundary `k`. */
  ghost predicate AsBefore(s: Symbols, t: Symbols, k: nat) {
    && k < |t.offsets| && t.offsets[k] == s.Sizes()
    && (t.earliestReopened.Some? ==> k <= t.earliestReopened.value)
    && s.methods <= t.methods && s.fields <= t.fields && s.typeMembers <= t.typeMembers
    && |s.classes| <= |t.classes|
    && forall i :: 0 <= i < |s.classes| ==> ClassAsBefore(s.classes[i], t.classes[i], s.Sizes())
  }

  /** A new entry for something above the boundary, an empty one, or one under a reserved name. */
  predicate Harmless(s: Symbols, t: Symbols, owner: nat, name: Name, ref: SymbolRef)
    requires owner < |t.classes|
  {
    Reserved(name) ||
    (!Knows(t.classes[owner].members, name) && (ref.id == 0 || ref.id >= s.Sizes().Of(ref.kind)))
  }

  lemma MemberAsBefore(s: Symbols, t: Symbols, k: nat, owner: nat, name: Name, ref: SymbolRef)
    requires AsBefore(s, t, k) && owner < |t.classes| && Harmless(s, t, owner, name, ref)
    ensures AsBefore(s, t.WithMember(owner, name, ref), k)
  {
    var u := t.WithMember(owner, name, ref);
    forall i | 0 <= i < |s.classes| ensures ClassAsBefore(s.classes[i], u.classes[i], s.Sizes()) {
      assert ClassAsBefore(s.classes[i], t.classes[i], s.Sizes());
    }
  }

  /** More classes and more entries of tables change nothing below. */
  lemma MoreAsBefore(s: Symbols, t: Symbols, u: Symbols, k: nat)
    requires AsBefore(s, t, k) && t.offsets <= u.offsets && u.earliestReopened == t.earliestReopened
    requires t.methods <= u.methods && t.fields <= u.fields && t.typeMembers <= u.typeMembers
    requires |t.classes| <= |u.classes|
    requires forall i :: 0 <= i < |s.classes| ==> u.classes[i] == t.classes[i]
    ensures AsBefore(s, u, k)
  {
    forall i | 0 <= i < |s.classes| ensures ClassAsBefore(s.classes[i], u.classes[i], s.Sizes()) {
      assert ClassAsBefore(s.classes[i], t.classes[i], s.Sizes());
    }
  }

  lemma ClassStep(s: Symbols, t: Symbols, k: nat, owner: nat, name: Name)
    requires AsBefore(s, t, k) && KindAgrees(t, ClassOrModule, owner, name)
    ensures AsBefore(s, EnterClass(t, owner, name).0, k)
  {
    if !Knows(t.classes[owner].members, name) {
      var ref := SymbolRef(ClassOrModule, |t.classes|);
      MemberAsBefore(s, t, k, owner, name, ref);
      MoreAsBefore(s, t.WithMember(owner, name, ref), EnterClass(t, owner, name).0, k);
    }
  }

  lemma LeafStep(s: Symbols, t: Symbols, k: nat, kind: Kind, owner: nat, name: Name)
    requires AsBefore(s, t, k) && (kind.Method? || kind.Field?) && KindAgrees(t, kind, owner, name)
    ensures AsBefore(s, EnterLeaf(t, kind, owner, name).0, k)
  {
    if !Knows(t.classes[owner].members, name) {
      var ref := SymbolRef(kind, |t.Leaves(kind)|);
      MemberAsBefore(s, t, k, owner, name, ref);
      MoreAsBefore(s, t.WithMember(owner, name, ref), EnterLeaf(t, kind, owner, name).0, k);
    }
  }

  /** This is what the guard of `enterTypeMember` is for: classes below the boundary list nothing new. */
  lemma TypeMemberStep(s: Symbols, t: Symbols, k: nat, owner: nat, name: Name)
    requires Inv(t) && AsBefore(s, t, k) && owner > 0 && KindAgrees(t, TypeMember, owner, name)
    ensures AsBefore(s, EnterTypeMember(t, owner, name).after, k)
  {
    if !Knows(t.classes[owner].members, name) {
      assert t.offsets[k].AtMost(t.offsets[t.Contiguous()]);
      if owner < t.offsets[t.Contiguous()].classes {
        MemberAsBefore(s, t, k, owner, name, NO_SYMBOL);
      } else {
        MoreAsBefore(s, t, AddTypeMember(t, owner, name), k);
      }
    }
  }

  lemma SingletonStep(s: Symbols, t: Symbols, k: nat, c: nat)
    requires Inv(t) && AsBefore(s, t, k) && CanAttach(t, c)
    ensures AsBefore(s, EnterSingleton(t, c).after, k)
  {
    if !Knows(t.classes[c].members, SINGLETON) {
      var owner, name := t.classes[c].owner, SingletonOf(t.classes[c].name);
      var (entered, _) := EnterClass(t, owner, name);
      var (u, id) := Attach(t, c);
      ClassStep(s, t, k, owner, name);
      MemberAsBefore(s, entered, k, id, ATTACHED, SymbolRef(ClassOrModule, c));
      AttachKeeps(t, c);
      TypeMemberStep(s, u, k, id, ATTACHED_CLASS);
      var r := EnterTypeMember(u, id, ATTACHED_CLASS);
      if r.Entered? { MemberAsBefore(s, r.after, k, c, SINGLETON, SymbolRef(ClassOrModule, id)); }
    }
  }

  lemma StepAsBefore(s: Symbols, t: Symbols, k: nat, op: Op)
    requires Inv(t) && AsBefore(s, t, k) && Allowed(t, op) && Adds(op, k)
    ensures AsBefore(s, Step(t, op), k)
  {
    match op
    case OpEnterClass(owner, name) => ClassStep(s, t, k, owner, name);
    case OpEnterLeaf(kind, owner, name) => LeafStep(s, t, k, kind, owner, name);
    case OpEnterTypeMember(owner, name) => TypeMemberStep(s, t, k, owner, name);
    case OpEnterSingleton(c) => SingletonStep(s, t, k, c);
    case OpUpdateOffsets => MoreAsBefore(s, t, UpdateSymbolTableOffsets(t), k);
    case OpReopen(_) =>
  }

  lemma {:induction false} RunAsBefore(s: Symbols, t: Symbols, k: nat, ops: seq<Op>)
    requires Inv(t) && AsBefore(s, t, k) && AddingRun(t, ops, k)
    ensures AllowedRun(t, ops) && Inv(RunOps(t, ops)) && AsBefore(s, RunOps(t, ops), k)
    decreases |ops|
  {
    if ops != [] {
      StepKeeps(t, ops[0]);
      StepAsBefore(s, t, k, ops[0]);
      RunAsBefore(s, Step(t, ops[0]), k, ops[1..]);
    }
  }

  /** The same class, up to the reserved names and to empty entries. */
  ghost predicate SameClass(b: ClassData, a: ClassData) {
    && a.owner == b.owner && a.name == b.name && a.typeMembers == b.typeMembers
    && forall n :: !Reserved(n) ==>
         (Knows(a.members, n) <==> Knows(b.members, n)) && (Knows(b.members, n) ==> a.members[n] == b.members[n])
  }

  /** The tables `t` are those of `s`. */
  ghost predicate SameSymbols(s: Symbols, t: Symbols) {
    && t.methods == s.methods && t.fields == s.fields && t.typeMembers == s.typeMembers && |t.classes| == |s.classes|
    && forall i :: 0 <= i < |s.classes| ==> SameClass(s.classes[i], t.classes[i])
  }

  lemma CopyAsBefore(s: Symbols, t: Symbols, k: nat)
    requires Inv(s) && Inv(t) && 1 <= k && AsBefore(s, t, k)
    ensures k <= t.Contiguous() && SameSymbols(s, CopyPrefix(t, k))
  {
    var c := CopyPrefix(t, k);
    forall i | 0 <= i < |s.classes| ensures SameClass(s.classes[i], c.classes[i]) {
      CopyClass(t, k, i);
      assert ClassAsBefore(s.classes[i], t.classes[i], s.Sizes());
      forall n | Knows(s.classes[i].members, n) && !Reserved(n)
        ensures s.classes[i].members[n].id < s.Sizes().Of(s.classes[i].members[n].kind)
      {
        assert Refers(s, i, n, s.classes[i].members[n]);
      }
    }
  }

  /**
   * Record a boundary in any tables, add any symbols and boundaries behind it, and copy up to it: the copy has each
   * class, method, field and type member there was, knows all of them as before, and has no others.
   */
  lemma CopyGivesBack(s: Symbols, ops: seq<Op>)
    requires Inv(s) && (s.earliestReopened.Some? ==> |s.offsets| <= s.earliestReopened.value)
    requires AddingRun(UpdateSymbolTableOffsets(s), ops, |s.offsets|)
    ensures AllowedRun(UpdateSymbolTableOffsets(s), ops)
    ensures var t, k := RunOps(UpdateSymbolTableOffsets(s), ops), |s.offsets|;
      Inv(t) && 1 <= k <= t.Contiguous() && SameSymbols(s, CopyPrefix(t, k))
  {
    var b, k := UpdateSymbolTableOffsets(s), |s.offsets|;
    UpdateOffsetsKeeps(s);
    forall i | 0 <= i < |s.classes| ensures ClassAsBefore(s.classes[i], b.classes[i], s.Sizes()) {}
    RunAsBefore(s, b, k, ops);
    CopyAsBefore(s, RunOps(b, ops), k);
  }

  // ---------------------------------------------------------------- a run with a stratum

  const NEW_CLASS: nat := 4

  /** A class with a method, a field and a type member; then a boundary; then a class and a method in that class. */
  const FIRST := [OpEnterClass(ROOT_CLASS, Plain(20)), OpEnterLeaf(Method, NEW_CLASS, Plain(21)),
                  OpEnterLeaf(Field, NEW_CLASS, Plain(22)), OpEnterTypeMember(NEW_CLASS, Plain(23))]
  const SECOND := [OpEnterClass(NEW_CLASS, Plain(24)), OpEnterLeaf(Method, NEW_CLASS, Plain(25))]

  lemma FirstStratum() returns (s: Symbols)
    ensures AllowedRun(Initial(), FIRST) && s == RunOps(Initial(), FIRST)
    ensures s.Sizes() == Offsets(5, 2, 2, 2) && |s.offsets| == 1 && s.earliestReopened.None?
    ensures s.classes[NEW_CLASS] == ClassData(ROOT_CLASS, Plain(20),
      map[Plain(21) := SymbolRef(Method, 1), Plain(22) := SymbolRef(Field, 1), Plain(23) := SymbolRef(TypeMember, 1)],
      [1])
  {
    var s0 := Initial();
    var s1 := Step(s0, FIRST[0]);
    var s2 := Step(s1, FIRST[1]);
    var s3 := Step(s2, FIRST[2]);
    s := Step(s3, FIRST[3]);
    assert FIRST[1..][1..][1..][1..] == [] && FIRST[1..][1..][1..] == [FIRST[3]];
    assert AllowedRun(s, []) && RunOps(s, []) == s;
    assert AllowedRun(s3, [FIRST[3]]) && RunOps(s3, [FIRST[3]]) == s;
    assert FIRST[1..][1..][0] == FIRST[2];
    assert AllowedRun(s2, FIRST[1..][1..]) && RunOps(s2, FIRST[1..][1..]) == s;
    assert FIRST[1..][0] == FIRST[1];
    assert AllowedRun(s1, FIRST[1..]) && RunOps(s1, FIRST[1..]) == s;
  }

  lemma SecondStratum(b: Symbols) returns (t: Symbols)
    requires b.Sizes() == Offsets(5, 2, 2, 2) && |b.offsets| == 2 && b.earliestReopened.None?
    requires Plain(24) !in b.classes[NEW_CLASS].members && Plain(25) !in b.classes[NEW_CLASS].members
    ensures AddingRun(b, SECOND, 1) && AllowedRun(b, SECOND) && t == RunOps(b, SECOND)
    ensures |t.classes| == 6 && |t.methods| == 3 && t.offsets == b.offsets
  {
    var b1 := Step(b, SECOND[0]);
    t := Step(b1, SECOND[1]);
    assert SECOND[1..] == [SECOND[1]] && [SECOND[1]][1..] == [];
    assert AddingRun(t, [], 1) && AllowedRun(t, []) && RunOps(t, []) == t;
    assert AddingRun(b1, [SECOND[1]], 1) && AllowedRun(b1, [SECOND[1]]) && RunOps(b1, [SECOND[1]]) == t;
  }

  /** `c` has the class of the first stratum with its three symbols, and nothing of the second. */
  ghost predicate IsFirstStratum(c: Symbols) {
    && c.Sizes() == Offsets(5, 2, 2, 2) && c.classes[NEW_CLASS].typeMembers == [1]
    && forall n :: Knows(c.classes[NEW_CLASS].members, n) && !Reserved(n) <==> n in {Plain(21), Plain(22), Plain(23)}
  }

  lemma SameIsFirstStratum(s: Symbols, c: Symbols)
    requires SameSymbols(s, c) && IsFirstStratum(s)
    ensures IsFirstStratum(c)
  {
    assert SameClass(s.classes[NEW_CLASS], c.classes[NEW_CLASS]);
  }

  /** Copying that run at its boundary gives the class with its three symbols, and not what came later. */
  lemma StratumIsGivenBack()
    ensures AllowedRun(Initial(), FIRST)
    ensures var b := UpdateSymbolTableOffsets(RunOps(Initial(), FIRST));
      AllowedRun(b, SECOND) &&
      var t := RunOps(b, SECOND);
      && |t.classes| == 6 && |t.methods| == 3
      && |t.offsets| == 2 && t.offsets[1].AtMost(t.Sizes()) && IsFirstStratum(CopyPrefix(t, 1))
  {
    var s := FirstStratum();
    InitialInv();
    RunKeeps(Initial(), FIRST);
    var t := SecondStratum(UpdateSymbolTableOffsets(s));
    CopyGivesBack(s, SECOND);
    assert IsFirstStratum(s);
    SameIsFirstStratum(s, CopyPrefix(t, 1));
  }
}
