/** Every operation keeps every contiguous prefix of the symbol tables closed, so prefixes can be copied. */
module SymbolStrata {
  import opened Collections
  import opened SymbolTable

  datatype Op =
    | OpEnterClass(owner: nat, name: Name)
    | OpEnterLeaf(kind: Kind, owner: nat, name: Name)
    | OpEnterTypeMember(owner: nat, name: Name)
    | OpEnterSingleton(c: nat)
    | OpDelete(kind: Kind, id: nat)
    | OpMangleRename(id: nat)
    | OpUpdateOffsets
    | OpReopen(stratum: nat)
    | OpCopyPrefix(k: nat)

  /** What the operations enforce on their arguments. */
  predicate Allowed(s: Symbols, op: Op) {
    |s.offsets| > 0 &&
    match op
    case OpEnterClass(owner, name) => KindAgrees(s, ClassOrModule, owner, name)
    case OpEnterLeaf(kind, owner, name) => (kind.Method? || kind.Field?) && KindAgrees(s, kind, owner, name)
    case OpEnterTypeMember(owner, name) => owner > 0 && KindAgrees(s, TypeMember, owner, name)
    case OpEnterSingleton(c) => CanAttach(s, c)
    case OpDelete(kind, id) => CanDelete(s, kind, id)
    case OpMangleRename(id) => CanDelete(s, Method, id)
    case OpUpdateOffsets => true
    case OpReopen(_) => true
    case OpCopyPrefix(k) =>
      && k < |s.offsets| && s.offsets[k].AtMost(s.Sizes())
      && (s.earliestReopened.Some? ==> k <= s.earliestReopened.value)
  }

  /** One step of a run, a refused type member included; there is no prefix to copy at stratum 0. */
  function Step(s: Symbols, op: Op): Symbols
    requires Allowed(s, op)
  {
    match op
    case OpEnterClass(owner, name) => EnterClass(s, owner, name).0
    case OpEnterLeaf(kind, owner, name) => EnterLeaf(s, kind, owner, name).0
    case OpEnterTypeMember(owner, name) => EnterTypeMember(s, owner, name).after
    case OpEnterSingleton(c) => EnterSingleton(s, c).after
    case OpDelete(kind, id) => Delete(s, kind, id)
    case OpMangleRename(id) => MangleRename(s, id)
    case OpUpdateOffsets => UpdateSymbolTableOffsets(s)
    case OpReopen(stratum) => ReopenStratum(s, stratum)
    case OpCopyPrefix(k) => if k == 0 then s else CopyPrefix(s, k)
  }

  // ---------------------------------------------------------------- frames

  ghost predicate ShapeKept(before: ClassData, after: ClassData) {
    before.owner == after.owner && before.name == after.name && before.typeMembers == after.typeMembers
  }

  ghost predicate ShapesKept(before: seq<ClassData>, after: seq<ClassData>) {
    |before| <= |after| && forall i :: 0 <= i < |before| ==> ShapeKept(before[i], after[i])
  }

  ghost predicate OwnersKept(before: seq<Leaf>, after: seq<Leaf>) {
    |before| <= |after| && forall i :: 0 <= i < |before| ==> before[i].owner == after[i].owner
  }

  /** Only member maps, leaf names and new entries differ. */
  ghost predicate Similar(s: Symbols, t: Symbols) {
    && ShapesKept(s.classes, t.classes)
    && OwnersKept(s.methods, t.methods) && OwnersKept(s.fields, t.fields) && OwnersKept(s.typeMembers, t.typeMembers)
    && t.offsets == s.offsets && t.earliestReopened == s.earliestReopened
  }

  lemma SimilarKeepsClosed(s: Symbols, t: Symbols, o: Offsets)
    requires Similar(s, t) && Closed(s, o)
    ensures Closed(t, o)
  {
    forall i | 0 <= i < o.classes ensures ClassBelow(t.classes[i], o) {
      assert ShapeKept(s.classes[i], t.classes[i]);
      assert ClassBelow(s.classes[i], o);
    }
  }

  lemma SimilarKeepsPrefixes(s: Symbols, t: Symbols)
    requires Similar(s, t) && Coherent(s)
    ensures OffsetsOk(t) && t.Contiguous() == s.Contiguous()
    ensures forall k :: 1 <= k <= t.Contiguous() ==> Closed(t, t.offsets[k])
  {
    forall k | 1 <= k <= t.Contiguous() ensures Closed(t, t.offsets[k]) {
      SimilarKeepsClosed(s, t, s.offsets[k]);
    }
  }

  lemma ClosedWhole(s: Symbols)
    requires forall i :: 0 <= i < |s.classes| ==> ClassBelow(s.classes[i], s.Sizes())
    requires OwnersBelow(s.methods, |s.methods|, |s.classes|)
    requires OwnersBelow(s.fields, |s.fields|, |s.classes|)
    requires OwnersBelow(s.typeMembers, |s.typeMembers|, |s.classes|)
    ensures Closed(s, s.Sizes())
  {
  }

  lemma ClassBelowGrows(data: ClassData, o: Offsets, p: Offsets)
    requires ClassBelow(data, o) && o.AtMost(p)
    ensures ClassBelow(data, p)
  {
  }

  /** Class `b` keeps its place and the classes among its members. */
  ghost predicate ClassEntriesKept(b: ClassData, a: ClassData) {
    && a.owner == b.owner && a.name == b.name
    && forall n <- b.members :: b.members[n].kind.ClassOrModule? && b.members[n].id != 0 ==>
         n in a.members && a.members[n] == b.members[n]
  }

  lemma ClassesKept(before: seq<ClassData>, after: seq<ClassData>)
    requires ClassesAreMembers(before) && |before| <= |after|
    requires forall i :: 0 <= i < |before| ==> ClassEntriesKept(before[i], after[i])
    requires forall id: nat :: |before| <= id < |after| ==> ClassIsMember(after, id)
    ensures ClassesAreMembers(after)
  {
    forall id: nat | ROOT_CLASS < id < |before| ensures ClassIsMember(after, id) {
      assert ClassIsMember(before, id);
      var owner := before[id].owner;
      assert ClassEntriesKept(before[id], after[id]) && ClassEntriesKept(before[owner], after[owner]);
    }
  }

  /** Old classes keep their lists, and new ones list nothing. */
  ghost predicate ListsKept(before: seq<ClassData>, after: seq<ClassData>) {
    && |before| <= |after|
    && (forall i :: 0 <= i < |before| ==> after[i].typeMembers == before[i].typeMembers)
    && (forall i :: |before| <= i < |after| ==> after[i].typeMembers == [])
  }

  lemma ListsKeptListed(before: seq<ClassData>, after: seq<ClassData>, leaves: seq<Leaf>)
    requires TypeMembersListed(before, leaves) && ListsKept(before, after)
    ensures TypeMembersListed(after, leaves)
  {
    forall i: nat | i < |after| ensures ListsItsOwn(after, leaves, i) {
      if i < |before| { assert ListsItsOwn(before, leaves, i); }
    }
    forall id: nat | id < |leaves| && leaves[id] != leaves[0] ensures IsListed(after, leaves[id], id) {
      assert IsListed(before, leaves[id], id);
    }
  }

  // ---------------------------------------------------------------- entering

  lemma NewMember(s: Symbols, owner: nat, name: Name, ref: SymbolRef, kind: Kind, leaves: seq<Leaf>)
    requires LeavesAreMembers(s.classes, kind, leaves) && owner < |s.classes| && !Knows(s.classes[owner].members, name)
    ensures LeavesAreMembers(s.WithMember(owner, name, ref).classes, kind, leaves)
  {
    forall id: nat | id < |leaves|
      ensures LeafIsMember(s.WithMember(owner, name, ref).classes, kind, leaves[id], id, leaves[0])
    {
      assert LeafIsMember(s.classes, kind, leaves[id], id, leaves[0]);
    }
  }

  lemma MoreClasses(classes: seq<ClassData>, data: ClassData, kind: Kind, leaves: seq<Leaf>)
    requires LeavesAreMembers(classes, kind, leaves)
    ensures LeavesAreMembers(classes + [data], kind, leaves)
  {
    forall id: nat | id < |leaves| ensures LeafIsMember(classes + [data], kind, leaves[id], id, leaves[0]) {
      assert LeafIsMember(classes, kind, leaves[id], id, leaves[0]);
    }
  }

  lemma EnterClassKeeps(s: Symbols, owner: nat, name: Name)
    requires Inv(s) && KindAgrees(s, ClassOrModule, owner, name)
    ensures Inv(EnterClass(s, owner, name).0)
  {
    if !Knows(s.classes[owner].members, name) {
      var t := EnterClass(s, owner, name).0;
      EnterClassKeepsLeaves(s, owner, name, Method, s.methods);
      EnterClassKeepsLeaves(s, owner, name, Field, s.fields);
      EnterClassKeepsLeaves(s, owner, name, TypeMember, s.typeMembers);
      SimilarKeepsPrefixes(s, t);
      EnterClassResolves(s, owner, name);
      EnterClassKeepsClasses(s, owner, name);
      EnterClassStaysBelow(s, owner, name);
      ClosedWhole(t);
    }
  }

  lemma EnterClassKeepsClasses(s: Symbols, owner: nat, name: Name)
    requires ClassesAreMembers(s.classes) && NamesEntered(s) && TypeMembersListed(s.classes, s.typeMembers)
    requires KindAgrees(s, ClassOrModule, owner, name) && !Knows(s.classes[owner].members, name)
    ensures var t := EnterClass(s, owner, name).0;
      ClassesAreMembers(t.classes) && NamesEntered(t) && TypeMembersListed(t.classes, t.typeMembers)
  {
    var t := EnterClass(s, owner, name).0;
    ClassesKept(s.classes, t.classes);
    ListsKeptListed(s.classes, t.classes, s.typeMembers);
  }

  lemma EnterClassKeepsLeaves(s: Symbols, owner: nat, name: Name, kind: Kind, leaves: seq<Leaf>)
    requires LeavesAreMembers(s.classes, kind, leaves)
    requires KindAgrees(s, ClassOrModule, owner, name) && !Knows(s.classes[owner].members, name)
    ensures LeavesAreMembers(EnterClass(s, owner, name).0.classes, kind, leaves)
  {
    var ref := SymbolRef(ClassOrModule, |s.classes|);
    NewMember(s, owner, name, ref, kind, leaves);
    MoreClasses(s.WithMember(owner, name, ref).classes, ClassData(owner, name, map[], []), kind, leaves);
  }

  lemma EnterClassStaysBelow(s: Symbols, owner: nat, name: Name)
    requires Closed(s, s.Sizes()) && KindAgrees(s, ClassOrModule, owner, name) && !Knows(s.classes[owner].members, name)
    ensures var t := EnterClass(s, owner, name).0;
      forall i :: 0 <= i < |t.classes| ==> ClassBelow(t.classes[i], t.Sizes())
  {
    var t := EnterClass(s, owner, name).0;
    forall i | 0 <= i < |t.classes| ensures ClassBelow(t.classes[i], t.Sizes()) {
      if i < |s.classes| { ClassBelowGrows(s.classes[i], s.Sizes(), t.Sizes()); }
    }
  }

  lemma EnterClassResolves(s: Symbols, owner: nat, name: Name)
    requires MembersResolve(s) && KindAgrees(s, ClassOrModule, owner, name) && !Knows(s.classes[owner].members, name)
    ensures MembersResolve(EnterClass(s, owner, name).0)
  {
    var t := EnterClass(s, owner, name).0;
    forall i, n | 0 <= i < |t.classes| && Knows(t.classes[i].members, n)
      ensures Refers(t, i, n, t.classes[i].members[n])
    {
      if !(i == owner && n == name) { assert Refers(s, i, n, s.classes[i].members[n]); }
    }
  }

  lemma LeafResolves(s: Symbols, kind: Kind, owner: nat, name: Name)
    requires MembersResolve(s) && !kind.ClassOrModule? && |s.Leaves(kind)| > 0
    requires owner < |s.classes| && !Reserved(name) && !Knows(s.classes[owner].members, name)
    ensures MembersResolve(AddLeaf(s, kind, owner, name))
  {
    var t := AddLeaf(s, kind, owner, name);
    forall i, n | 0 <= i < |t.classes| && Knows(t.classes[i].members, n)
      ensures Refers(t, i, n, t.classes[i].members[n])
    {
      if !(i == owner && n == name) { assert Refers(s, i, n, s.classes[i].members[n]); }
    }
  }

  lemma NewLeaf(s: Symbols, owner: nat, name: Name, kind: Kind, leaves: seq<Leaf>)
    requires LeavesAreMembers(s.classes, kind, leaves) && owner < |s.classes| && !Knows(s.classes[owner].members, name)
    ensures LeavesAreMembers(s.WithMember(owner, name, SymbolRef(kind, |leaves|)).classes, kind,
                             leaves + [Leaf(owner, name)])
  {
    NewMember(s, owner, name, SymbolRef(kind, |leaves|), kind, leaves);
  }

  /** A new method, field or type member keeps everything; prefixes see nothing of it. */
  lemma AddLeafKeeps(s: Symbols, kind: Kind, owner: nat, name: Name)
    requires Coherent(s) && !kind.ClassOrModule?
    requires owner < |s.classes| && !Reserved(name) && !Knows(s.classes[owner].members, name)
    ensures Coherent(AddLeaf(s, kind, owner, name)) && Similar(s, AddLeaf(s, kind, owner, name))
  {
    var t := AddLeaf(s, kind, owner, name);
    var ref := SymbolRef(kind, |s.Leaves(kind)|);
    LeafResolves(s, kind, owner, name);
    ClassesKept(s.classes, t.classes);
    SimilarKeepsPrefixes(s, t);
    NewLeaf(s, owner, name, kind, s.Leaves(kind));
    NewMember(s, owner, name, ref, Method, s.methods);
    NewMember(s, owner, name, ref, Field, s.fields);
    NewMember(s, owner, name, ref, TypeMember, s.typeMembers);
    forall i | 0 <= i < |t.classes| ensures ClassBelow(t.classes[i], t.Sizes()) {
      ClassBelowGrows(s.classes[i], s.Sizes(), t.Sizes());
    }
    ClosedWhole(t);
  }

  lemma EnterLeafKeeps(s: Symbols, kind: Kind, owner: nat, name: Name)
    requires Inv(s) && (kind.Method? || kind.Field?) && KindAgrees(s, kind, owner, name)
    ensures Inv(EnterLeaf(s, kind, owner, name).0)
  {
    if !Knows(s.classes[owner].members, name) {
      AddLeafKeeps(s, kind, owner, name);
      ListsKeptListed(s.classes, AddLeaf(s, kind, owner, name).classes, s.typeMembers);
    }
  }

  /** The guard of `enterTypeMember` is what keeps earlier prefixes free of later type members. */
  lemma EnterTypeMemberKeeps(s: Symbols, owner: nat, name: Name)
    requires Inv(s) && owner > 0 && KindAgrees(s, TypeMember, owner, name)
    ensures Inv(EnterTypeMember(s, owner, name).after)
  {
    var r := EnterTypeMember(s, owner, name);
    if r.Raised? {
      EmptyEntryKeeps(s, owner, name);
    } else if !Knows(s.classes[owner].members, name) {
      var m := AddLeaf(s, TypeMember, owner, name);
      AddLeafKeeps(s, TypeMember, owner, name);
      ListTypeMember(m, owner, |s.typeMembers|);
      NewIsListed(s, owner, name);
    }
  }

  lemma NewIsListed(s: Symbols, owner: nat, name: Name)
    requires TypeMembersListed(s.classes, s.typeMembers) && 0 < owner < |s.classes|
    ensures TypeMembersListed(AddTypeMember(s, owner, name).classes, AddTypeMember(s, owner, name).typeMembers)
  {
    var t := AddTypeMember(s, owner, name);
    forall i: nat | i < |t.classes| ensures ListsItsOwn(t.classes, t.typeMembers, i) {
      assert ListsItsOwn(s.classes, s.typeMembers, i);
    }
    forall id: nat | id < |t.typeMembers| && t.typeMembers[id] != t.typeMembers[0]
      ensures IsListed(t.classes, t.typeMembers[id], id)
    {
      if id < |s.typeMembers| {
        assert IsListed(s.classes, s.typeMembers[id], id);
      } else {
        assert t.classes[owner].typeMembers[|s.classes[owner].typeMembers|] == id;
      }
    }
  }

  /** The empty entry that a refused type member leaves behind is no member, and no prefix sees it. */
  lemma EmptyEntryKeeps(s: Symbols, owner: nat, name: Name)
    requires Inv(s) && owner < |s.classes| && !Knows(s.classes[owner].members, name)
    ensures Inv(s.WithMember(owner, name, NO_SYMBOL))
  {
    var t := s.WithMember(owner, name, NO_SYMBOL);
    forall i, n | 0 <= i < |t.classes| && Knows(t.classes[i].members, n)
      ensures Refers(t, i, n, t.classes[i].members[n])
    {
      assert Refers(s, i, n, s.classes[i].members[n]);
    }
    ClassesKept(s.classes, t.classes);
    ListsKeptListed(s.classes, t.classes, s.typeMembers);
    SimilarKeepsPrefixes(s, t);
    SimilarKeepsClosed(s, t, s.Sizes());
    NewMember(s, owner, name, NO_SYMBOL, Method, s.methods);
    NewMember(s, owner, name, NO_SYMBOL, Field, s.fields);
    NewMember(s, owner, name, NO_SYMBOL, TypeMember, s.typeMembers);
  }

  /** Leaves and classes behind the root never go by a reserved name, so such entries may be written over. */
  lemma LinkKeeps(s: Symbols, owner: nat, name: Name, id: nat)
    requires Inv(s) && owner < |s.classes| && Reserved(name) && id < |s.classes|
    ensures Inv(s.WithMember(owner, name, SymbolRef(ClassOrModule, id)))
  {
    var ref := SymbolRef(ClassOrModule, id);
    var t := s.WithMember(owner, name, ref);
    forall i, n | 0 <= i < |t.classes| && Knows(t.classes[i].members, n)
      ensures Refers(t, i, n, t.classes[i].members[n])
    {
      if !(i == owner && n == name) { assert Refers(s, i, n, s.classes[i].members[n]); }
    }
    forall i: nat | ROOT_CLASS < i < |t.classes| ensures ClassIsMember(t.classes, i) {
      assert ClassIsMember(s.classes, i);
    }
    ListsKeptListed(s.classes, t.classes, s.typeMembers);
    SimilarKeepsPrefixes(s, t);
    SimilarKeepsClosed(s, t, s.Sizes());
    LinkKeepsLeaves(s, owner, name, ref, Method, s.methods);
    LinkKeepsLeaves(s, owner, name, ref, Field, s.fields);
    LinkKeepsLeaves(s, owner, name, ref, TypeMember, s.typeMembers);
  }

  lemma LinkKeepsLeaves(s: Symbols, owner: nat, name: Name, ref: SymbolRef, kind: Kind, leaves: seq<Leaf>)
    requires MembersResolve(s) && LeavesAreMembers(s.classes, kind, leaves) && !kind.ClassOrModule?
    requires owner < |s.classes| && Reserved(name)
    ensures LeavesAreMembers(s.WithMember(owner, name, ref).classes, kind, leaves)
  {
    forall id: nat | id < |leaves|
      ensures LeafIsMember(s.WithMember(owner, name, ref).classes, kind, leaves[id], id, leaves[0])
    {
      assert LeafIsMember(s.classes, kind, leaves[id], id, leaves[0]);
      if leaves[id] != leaves[0] {
        var leaf := leaves[id];
        assert Refers(s, leaf.owner, leaf.name, s.classes[leaf.owner].members[leaf.name]);
      }
    }
  }

  /** A singleton class, with the entries by which it and its class know each other, keeps everything. */
  lemma EnterSingletonKeeps(s: Symbols, c: nat)
    requires Inv(s) && CanAttach(s, c)
    ensures Inv(EnterSingleton(s, c).after)
  {
    if !Knows(s.classes[c].members, SINGLETON) {
      var owner, name := s.classes[c].owner, SingletonOf(s.classes[c].name);
      var (entered, _) := EnterClass(s, owner, name);
      var (t, id) := Attach(s, c);
      EnterClassKeeps(s, owner, name);
      LinkKeeps(entered, id, ATTACHED, c);
      EnterTypeMemberKeeps(t, id, ATTACHED_CLASS);
      var r := EnterTypeMember(t, id, ATTACHED_CLASS);
      if r.Entered? { LinkKeeps(r.after, c, SINGLETON, id); }
    }
  }

  lemma ListTypeMember(s: Symbols, owner: nat, id: nat)
    requires Coherent(s) && s.offsets[s.Contiguous()].classes <= owner < |s.classes| && id < |s.typeMembers|
    ensures Coherent(s.WithClass(owner, s.classes[owner].(typeMembers := s.classes[owner].typeMembers + [id])))
  {
    var t := s.WithClass(owner, s.classes[owner].(typeMembers := s.classes[owner].typeMembers + [id]));
    SameMembers(s, t);
    ClassesKept(s.classes, t.classes);
    forall i | 0 <= i < |t.classes| ensures ClassBelow(t.classes[i], t.Sizes()) {
      assert ClassBelow(s.classes[i], s.Sizes());
    }
    ClosedWhole(t);
    forall k | 1 <= k <= t.Contiguous() ensures Closed(t, t.offsets[k]) {
      assert s.offsets[k].AtMost(s.offsets[s.Contiguous()]);
      forall i | 0 <= i < t.offsets[k].classes ensures ClassBelow(t.classes[i], t.offsets[k]) {
        assert ClassBelow(s.classes[i], s.offsets[k]);
      }
    }
  }

  /** Same tables up to type member lists: same members. */
  lemma SameMembers(s: Symbols, t: Symbols)
    requires MembersResolve(s)
    requires |t.classes| == |s.classes| && t == s.(classes := t.classes)
    requires forall i :: 0 <= i < |s.classes| ==>
      && t.classes[i].members == s.classes[i].members && t.classes[i].owner == s.classes[i].owner
      && t.classes[i].name == s.classes[i].name
    requires LeavesAreMembers(s.classes, Method, s.methods) && LeavesAreMembers(s.classes, Field, s.fields)
    requires LeavesAreMembers(s.classes, TypeMember, s.typeMembers)
    ensures MembersResolve(t)
    ensures LeavesAreMembers(t.classes, Method, t.methods) && LeavesAreMembers(t.classes, Field, t.fields)
    ensures LeavesAreMembers(t.classes, TypeMember, t.typeMembers)
  {
    forall i, n | 0 <= i < |t.classes| && Knows(t.classes[i].members, n)
      ensures Refers(t, i, n, t.classes[i].members[n])
    {
      assert Refers(s, i, n, s.classes[i].members[n]);
    }
    SameMembersLeaves(s.classes, t.classes, Method, s.methods);
    SameMembersLeaves(s.classes, t.classes, Field, s.fields);
    SameMembersLeaves(s.classes, t.classes, TypeMember, s.typeMembers);
  }

  lemma SameMembersLeaves(before: seq<ClassData>, after: seq<ClassData>, kind: Kind, leaves: seq<Leaf>)
    requires LeavesAreMembers(before, kind, leaves) && |before| == |after|
    requires forall i :: 0 <= i < |before| ==> before[i].members == after[i].members
    ensures LeavesAreMembers(after, kind, leaves)
  {
    forall id: nat | id < |leaves| ensures LeafIsMember(after, kind, leaves[id], id, leaves[0]) {
      assert LeafIsMember(before, kind, leaves[id], id, leaves[0]);
    }
  }

  // ---------------------------------------------------------------- strata

  lemma UpdateOffsetsKeeps(s: Symbols)
    requires Inv(s)
    ensures Inv(UpdateSymbolTableOffsets(s))
  {
    var t := UpdateSymbolTableOffsets(s);
    assert Offsets(1, 1, 1, 1).AtMost(s.offsets[0]) && s.offsets[0].AtMost(s.Sizes());
    forall j, k | 0 <= j <= k < |t.offsets| ensures t.offsets[j].AtMost(t.offsets[k]) {
      if k < |s.offsets| { assert s.offsets[j].AtMost(s.offsets[k]); }
    }
    forall k | 1 <= k <= t.Contiguous() ensures Closed(t, t.offsets[k]) {
      if k < |s.offsets| { assert Closed(s, s.offsets[k]); }
    }
    forall i, n | 0 <= i < |t.classes| && Knows(t.classes[i].members, n)
      ensures Refers(t, i, n, t.classes[i].members[n])
    {
      assert Refers(s, i, n, s.classes[i].members[n]);
    }
  }

  /** There is one more boundary, at the present sizes; earlier ones and all tables are as they were. */
  lemma BoundaryIsRecorded(s: Symbols)
    requires Inv(s)
    ensures var t := UpdateSymbolTableOffsets(s);
      && |t.offsets| == |s.offsets| + 1 && t.offsets[..|s.offsets|] == s.offsets && t.offsets[|s.offsets|] == s.Sizes()
      && t.(offsets := s.offsets) == s
      && (s.earliestReopened.None? ==> t.Contiguous() == s.Contiguous() + 1)
  {
  }

  lemma ReopenKeeps(s: Symbols, stratum: nat)
    requires Inv(s)
    ensures Inv(ReopenStratum(s, stratum)) && ReopenStratum(s, stratum).Contiguous() <= s.Contiguous()
  {
    var t := ReopenStratum(s, stratum);
    forall i, n | 0 <= i < |t.classes| && Knows(t.classes[i].members, n)
      ensures Refers(t, i, n, t.classes[i].members[n])
    {
      assert Refers(s, i, n, s.classes[i].members[n]);
    }
  }

  lemma CopyClass(s: Symbols, k: nat, i: nat)
    requires 0 < k < |s.offsets| && s.offsets[k].AtMost(s.Sizes()) && i < s.offsets[k].classes
    ensures CopyPrefix(s, k).classes[i] == s.classes[i].(members := Below(s.classes[i].members, s.offsets[k]))
  {
  }

  lemma CopyResolves(s: Symbols, k: nat)
    requires Coherent(s) && 1 <= k <= s.Contiguous()
    ensures MembersResolve(CopyPrefix(s, k))
  {
    var t := CopyPrefix(s, k);
    forall i, n | 0 <= i < |t.classes| && Knows(t.classes[i].members, n)
      ensures Refers(t, i, n, t.classes[i].members[n])
    {
      CopyClass(s, k, i);
      var ref := s.classes[i].members[n];
      assert Refers(s, i, n, ref);
      if ref.kind.ClassOrModule? { CopyClass(s, k, ref.id); }
    }
  }

  lemma CopyLeaves(s: Symbols, k: nat, kind: Kind)
    requires Coherent(s) && 1 <= k <= s.Contiguous() && !kind.ClassOrModule?
    ensures LeavesAreMembers(CopyPrefix(s, k).classes, kind, s.Leaves(kind)[..s.offsets[k].Of(kind)])
  {
    var t, o := CopyPrefix(s, k), s.offsets[k];
    var leaves := s.Leaves(kind)[..o.Of(kind)];
    assert Closed(s, o);
    forall id: nat | id < |leaves| ensures LeafIsMember(t.classes, kind, leaves[id], id, leaves[0]) {
      assert LeafIsMember(s.classes, kind, s.Leaves(kind)[id], id, s.Leaves(kind)[0]);
      if leaves[id] != leaves[0] { CopyClass(s, k, leaves[id].owner); }
    }
  }

  lemma CopyClasses(s: Symbols, k: nat)
    requires Coherent(s) && 1 <= k <= s.Contiguous()
    ensures ClassesAreMembers(CopyPrefix(s, k).classes) && NamesEntered(CopyPrefix(s, k))
  {
    var t, o := CopyPrefix(s, k), s.offsets[k];
    assert Closed(s, o);
    forall id: nat | ROOT_CLASS < id < |t.classes| ensures ClassIsMember(t.classes, id) {
      assert ClassIsMember(s.classes, id) && ClassBelow(s.classes[id], o);
      CopyClass(s, k, id);
      CopyClass(s, k, s.classes[id].owner);
    }
    forall i, n | 0 <= i < |t.classes| && n in t.classes[i].members ensures n in t.names {
      CopyClass(s, k, i);
    }
  }

  lemma CopyIsListed(s: Symbols, k: nat)
    requires Inv(s) && 1 <= k <= s.Contiguous()
    ensures TypeMembersListed(CopyPrefix(s, k).classes, CopyPrefix(s, k).typeMembers)
  {
    var t, o := CopyPrefix(s, k), s.offsets[k];
    assert Closed(s, o) && Offsets(1, 1, 1, 1).AtMost(o);
    forall i: nat | i < |t.classes| ensures ListsItsOwn(t.classes, t.typeMembers, i) {
      CopyClass(s, k, i);
      assert ListsItsOwn(s.classes, s.typeMembers, i) && ClassBelow(s.classes[i], o);
    }
    forall id: nat | id < |t.typeMembers| && t.typeMembers[id] != t.typeMembers[0]
      ensures IsListed(t.classes, t.typeMembers[id], id)
    {
      assert IsListed(s.classes, s.typeMembers[id], id);
      CopyClass(s, k, s.typeMembers[id].owner);
    }
  }

  /** Everything below the boundary is what it was; of the members of a class, those above it are missing. */
  lemma CopyIsTheSame(s: Symbols, k: nat)
    requires Inv(s) && 1 <= k <= s.Contiguous()
    ensures var t, o := CopyPrefix(s, k), s.offsets[k];
      && t.Sizes() == o && t.offsets == s.offsets[..k + 1] && t.names == s.names && t.earliestReopened.None?
      && t.methods <= s.methods && t.fields <= s.fields && t.typeMembers <= s.typeMembers
      && forall i :: 0 <= i < o.classes ==>
           && t.classes[i].owner == s.classes[i].owner && t.classes[i].name == s.classes[i].name
           && t.classes[i].typeMembers == s.classes[i].typeMembers
           && forall n :: n in t.classes[i].members <==>
                n in s.classes[i].members && s.classes[i].members[n].id < o.Of(s.classes[i].members[n].kind)
    ensures forall i, n :: 0 <= i < s.offsets[k].classes && n in CopyPrefix(s, k).classes[i].members ==>
      CopyPrefix(s, k).classes[i].members[n] == s.classes[i].members[n]
  {
    forall i | 0 <= i < s.offsets[k].classes
      ensures CopyPrefix(s, k).classes[i] == s.classes[i].(members := Below(s.classes[i].members, s.offsets[k]))
    {
      CopyClass(s, k, i);
    }
  }

  /** A prefix copy refers to nothing outside itself, and every stratum in it can be copied again. */
  lemma CopyKeeps(s: Symbols, k: nat)
    requires Inv(s) && 1 <= k <= s.Contiguous()
    ensures Inv(CopyPrefix(s, k)) && CopyPrefix(s, k).Contiguous() == k
  {
    var t := CopyPrefix(s, k);
    CopyResolves(s, k);
    CopyClasses(s, k);
    CopyLeaves(s, k, Method);
    CopyLeaves(s, k, Field);
    CopyLeaves(s, k, TypeMember);
    CopyIsListed(s, k);
    assert t.Sizes() == s.offsets[k];
    forall j | 1 <= j <= k ensures Closed(t, t.offsets[j]) {
      assert Closed(s, s.offsets[j]) && s.offsets[j].AtMost(s.offsets[k]);
      forall i | 0 <= i < s.offsets[j].classes ensures ClassBelow(t.classes[i], s.offsets[j]) {
        CopyClass(s, k, i);
        assert ClassBelow(s.classes[i], s.offsets[j]);
      }
    }
    assert Closed(t, t.offsets[k]);
  }

  // ---------------------------------------------------------------- deleting and renaming

  /** All members but `name` are kept; empty entries need not be. */
  ghost predicate KeepsOthers(before: map<Name, SymbolRef>, after: map<Name, SymbolRef>, name: Name) {
    forall n <- before :: n != name && before[n].id != 0 ==> n in after && after[n] == before[n]
  }

  /** Forgetting the member `name` of `owner`, which is `ref`, leaves every other leaf a member. */
  lemma DropMember(classes: seq<ClassData>, owner: nat, data: ClassData, name: Name, ref: SymbolRef,
                   kind: Kind, leaves: seq<Leaf>, id: nat)
    requires LeavesAreMembers(classes, kind, leaves) && owner < |classes| && id < |leaves| && !kind.ClassOrModule?
    requires name in classes[owner].members && classes[owner].members[name] == ref && ref != SymbolRef(kind, id)
    requires KeepsOthers(classes[owner].members, data.members, name)
    ensures LeafIsMember(classes[owner := data], kind, leaves[id], id, leaves[0])
  {
    assert LeafIsMember(classes, kind, leaves[id], id, leaves[0]);
  }

  lemma DropMemberOfOtherKind(classes: seq<ClassData>, owner: nat, data: ClassData, name: Name, ref: SymbolRef,
                              kind: Kind, leaves: seq<Leaf>)
    requires LeavesAreMembers(classes, kind, leaves) && owner < |classes| && !kind.ClassOrModule?
    requires name in classes[owner].members && classes[owner].members[name] == ref && ref.kind != kind
    requires KeepsOthers(classes[owner].members, data.members, name)
    ensures LeavesAreMembers(classes[owner := data], kind, leaves)
  {
    forall id: nat | id < |leaves| ensures LeafIsMember(classes[owner := data], kind, leaves[id], id, leaves[0]) {
      DropMember(classes, owner, data, name, ref, kind, leaves, id);
    }
  }

  lemma DropMemberOfSameKind(classes: seq<ClassData>, owner: nat, data: ClassData, name: Name, kind: Kind,
                             leaves: seq<Leaf>, dead: nat, leaf: Leaf)
    requires LeavesAreMembers(classes, kind, leaves) && owner < |classes| && 0 < dead < |leaves| && !kind.ClassOrModule?
    requires name in classes[owner].members && classes[owner].members[name] == SymbolRef(kind, dead)
    requires KeepsOthers(classes[owner].members, data.members, name)
    requires LeafIsMember(classes[owner := data], kind, leaf, dead, leaves[0])
    ensures LeavesAreMembers(classes[owner := data], kind, leaves[dead := leaf])
  {
    var after := leaves[dead := leaf];
    forall id: nat | id < |after| ensures LeafIsMember(classes[owner := data], kind, after[id], id, after[0]) {
      if id != dead { DropMember(classes, owner, data, name, SymbolRef(kind, dead), kind, leaves, id); }
    }
  }

  lemma DeleteResolves(s: Symbols, kind: Kind, id: nat)
    requires Coherent(s) && CanDelete(s, kind, id)
    ensures MembersResolve(Delete(s, kind, id))
  {
    var t, leaf := Delete(s, kind, id), s.Leaves(kind)[id];
    forall i, n | 0 <= i < |t.classes| && Knows(t.classes[i].members, n)
      ensures Refers(t, i, n, t.classes[i].members[n])
    {
      assert Refers(s, i, n, s.classes[i].members[n]);
      assert s.classes[i].members[n] != SymbolRef(kind, id);
    }
  }

  lemma DeleteClosed(s: Symbols, kind: Kind, id: nat, o: Offsets)
    requires Coherent(s) && CanDelete(s, kind, id) && Closed(s, o) && Offsets(1, 1, 1, 1).AtMost(o)
    ensures Closed(Delete(s, kind, id), o)
  {
    var t, leaf := Delete(s, kind, id), s.Leaves(kind)[id];
    forall i | 0 <= i < o.classes ensures ClassBelow(t.classes[i], o) {
      assert ClassBelow(s.classes[i], o);
      forall j | 0 <= j < |t.classes[i].typeMembers| ensures t.classes[i].typeMembers[j] < o.typeMembers {
        assert t.classes[i].typeMembers[j] in s.classes[i].typeMembers;
      }
    }
  }

  lemma {:induction false} WithoutDrops(list: seq<nat>, id: nat)
    requires NoRepeats(list)
    ensures NoRepeats(Without(list, id)) && id !in Without(list, id)
  {
    if list != [] {
      assert forall i, j :: 0 <= i < j < |list[1..]| ==> list[1..][i] == list[i + 1] && list[1..][j] == list[j + 1];
      if list[0] == id {
        assert id !in list[1..];
      } else {
        WithoutDrops(list[1..], id);
        assert list[0] !in list[1..];
      }
    }
  }

  lemma DeletedIsUnlisted(s: Symbols, id: nat)
    requires Inv(s) && CanDelete(s, TypeMember, id)
    ensures TypeMembersListed(Delete(s, TypeMember, id).classes, Delete(s, TypeMember, id).typeMembers)
  {
    var t := Delete(s, TypeMember, id);
    var owner := s.typeMembers[id].owner;
    forall i: nat | i < |t.classes| ensures ListsItsOwn(t.classes, t.typeMembers, i) {
      assert ListsItsOwn(s.classes, s.typeMembers, i);
      StillItsOwn(s, t, i, owner, id);
    }
    forall k: nat | k < |t.typeMembers| && t.typeMembers[k] != t.typeMembers[0]
      ensures IsListed(t.classes, t.typeMembers[k], k)
    {
      assert IsListed(s.classes, s.typeMembers[k], k);
    }
  }

  lemma StillItsOwn(s: Symbols, t: Symbols, i: nat, owner: nat, id: nat)
    requires i < |s.classes| && owner < |s.classes| && 0 < id < |s.typeMembers| && s.typeMembers[id].owner == owner
    requires ListsItsOwn(s.classes, s.typeMembers, i) && |t.classes| == |s.classes|
    requires t.typeMembers == s.typeMembers[id := s.typeMembers[0]]
    requires t.classes[i].typeMembers ==
      if i == owner then Without(s.classes[i].typeMembers, id) else s.classes[i].typeMembers
    ensures ListsItsOwn(t.classes, t.typeMembers, i)
  {
    var before, after := s.classes[i].typeMembers, t.classes[i].typeMembers;
    if i == owner { WithoutDrops(before, id); }
    forall j | 0 <= j < |after| ensures after[j] in before && after[j] != id {
      assert after[j] in after;
    }
  }

  lemma DeleteKeeps(s: Symbols, kind: Kind, id: nat)
    requires Inv(s) && CanDelete(s, kind, id)
    ensures Inv(Delete(s, kind, id))
  {
    var t, leaf := Delete(s, kind, id), s.Leaves(kind)[id];
    var data, ref := t.classes[leaf.owner], SymbolRef(kind, id);
    assert t.classes == s.classes[leaf.owner := data];
    DeleteResolves(s, kind, id);
    ClassesKept(s.classes, t.classes);
    if kind.TypeMember? {
      DeletedIsUnlisted(s, id);
    } else {
      ListsKeptListed(s.classes, t.classes, s.typeMembers);
    }
    assert s.offsets[0].AtMost(s.Sizes());
    DeleteClosed(s, kind, id, s.Sizes());
    forall k | 1 <= k <= t.Contiguous() ensures Closed(t, t.offsets[k]) {
      DeleteClosed(s, kind, id, s.offsets[k]);
    }
    DropMemberOfSameKind(s.classes, leaf.owner, data, leaf.name, kind, s.Leaves(kind), id, s.Leaves(kind)[0]);
    if !kind.Method? { DropMemberOfOtherKind(s.classes, leaf.owner, data, leaf.name, ref, Method, s.methods); }
    if !kind.Field? { DropMemberOfOtherKind(s.classes, leaf.owner, data, leaf.name, ref, Field, s.fields); }
    if !kind.TypeMember? {
      DropMemberOfOtherKind(s.classes, leaf.owner, data, leaf.name, ref, TypeMember, s.typeMembers);
    }
  }

  lemma MangleRenameResolves(s: Symbols, id: nat)
    requires Coherent(s) && CanDelete(s, Method, id)
    ensures MembersResolve(MangleRename(s, id))
  {
    var t, leaf := MangleRename(s, id), s.methods[id];
    var name := NextMangledName(s.classes[leaf.owner].members, leaf.name);
    forall i, n | 0 <= i < |t.classes| && Knows(t.classes[i].members, n)
      ensures Refers(t, i, n, t.classes[i].members[n])
    {
      if !(i == leaf.owner && n == name) {
        assert Refers(s, i, n, s.classes[i].members[n]);
        assert s.classes[i].members[n] != SymbolRef(Method, id);
      }
    }
  }

  lemma MangleRenameKeeps(s: Symbols, id: nat)
    requires Inv(s) && CanDelete(s, Method, id)
    ensures Inv(MangleRename(s, id))
  {
    var t, leaf := MangleRename(s, id), s.methods[id];
    var name := NextMangledName(s.classes[leaf.owner].members, leaf.name);
    var data, ref := t.classes[leaf.owner], SymbolRef(Method, id);
    assert t.classes == s.classes[leaf.owner := data];
    MangleRenameResolves(s, id);
    ClassesKept(s.classes, t.classes);
    ListsKeptListed(s.classes, t.classes, s.typeMembers);
    SimilarKeepsPrefixes(s, t);
    SimilarKeepsClosed(s, t, s.Sizes());
    DropMemberOfSameKind(s.classes, leaf.owner, data, leaf.name, Method, s.methods, id, Leaf(leaf.owner, name));
    DropMemberOfOtherKind(s.classes, leaf.owner, data, leaf.name, ref, Field, s.fields);
    DropMemberOfOtherKind(s.classes, leaf.owner, data, leaf.name, ref, TypeMember, s.typeMembers);
  }

  // ---------------------------------------------------------------- what entering and deleting do

  /** Besides the new member of `owner`, which then lists `list`, the classes of `s` are those of `t`. */
  ghost predicate OnlyMemberAdded(s: Symbols, t: Symbols, owner: nat, name: Name, ref: SymbolRef, list: seq<nat>) {
    && owner < |s.classes| <= |t.classes|
    && t.classes[owner] ==
         s.classes[owner].(members := s.classes[owner].members[name := ref], typeMembers := list)
    && forall i :: 0 <= i < |s.classes| && i != owner ==> t.classes[i] == s.classes[i]
  }

  /** All tables but that of the given kind and the classes, and everything about strata, are as they were. */
  ghost predicate OthersKept(s: Symbols, t: Symbols, kind: Kind) {
    && (!kind.Method? ==> t.methods == s.methods) && (!kind.Field? ==> t.fields == s.fields)
    && (!kind.TypeMember? ==> t.typeMembers == s.typeMembers)
    && t.offsets == s.offsets && t.earliestReopened == s.earliestReopened
  }

  /** An entered class is what its owner knows under the name, entering it again finds it, nothing else changes. */
  lemma EnteredClassIsFound(s: Symbols, owner: nat, name: Name)
    requires Inv(s) && KindAgrees(s, ClassOrModule, owner, name)
    ensures var (t, id) := EnterClass(s, owner, name);
      && OnlyMemberAdded(s, t, owner, name, SymbolRef(ClassOrModule, id), s.classes[owner].typeMembers)
      && id < |t.classes| && t.classes[id].owner == owner && t.classes[id].name == name
      && KindAgrees(t, ClassOrModule, owner, name) && EnterClass(t, owner, name) == (t, id)
      && (!Knows(s.classes[owner].members, name) ==> id == |s.classes| && t.classes[id].members == map[])
      && OthersKept(s, t, ClassOrModule) && t.names == s.names + {name}
  {
    if Knows(s.classes[owner].members, name) {
      assert Refers(s, owner, name, s.classes[owner].members[name]);
      assert s.names == s.names + {name};
    }
  }

  lemma EnteredLeafIsFound(s: Symbols, kind: Kind, owner: nat, name: Name)
    requires Inv(s) && (kind.Method? || kind.Field?) && KindAgrees(s, kind, owner, name)
    ensures var (t, id) := EnterLeaf(s, kind, owner, name);
      && OnlyMemberAdded(s, t, owner, name, SymbolRef(kind, id), s.classes[owner].typeMembers)
      && |t.classes| == |s.classes| && OthersKept(s, t, kind)
      && id < |t.Leaves(kind)| && t.Leaves(kind)[id] == Leaf(owner, name) && s.Leaves(kind) <= t.Leaves(kind)
      && KindAgrees(t, kind, owner, name) && EnterLeaf(t, kind, owner, name) == (t, id)
      && (!Knows(s.classes[owner].members, name) ==> id == |s.Leaves(kind)|)
  {
    if Knows(s.classes[owner].members, name) { assert Refers(s, owner, name, s.classes[owner].members[name]); }
  }

  /** A type member is refused exactly if it is new and its owner is of an earlier stratum; an empty entry stays. */
  lemma EnteredTypeMemberIsFound(s: Symbols, owner: nat, name: Name)
    requires Inv(s) && owner > 0 && KindAgrees(s, TypeMember, owner, name)
    ensures var r := EnterTypeMember(s, owner, name);
      && (r.Raised? <==> !Knows(s.classes[owner].members, name) && owner < s.offsets[s.Contiguous()].classes)
      && (r.Raised? ==> r.after == s.WithMember(owner, name, NO_SYMBOL))
      && (r.Entered? ==>
            && var was := s.classes[owner].typeMembers;
            && OnlyMemberAdded(s, r.after, owner, name, SymbolRef(TypeMember, r.id),
                               if Knows(s.classes[owner].members, name) then was else was + [r.id])
            && |r.after.classes| == |s.classes| && OthersKept(s, r.after, TypeMember)
            && s.typeMembers <= r.after.typeMembers
            && (!Knows(s.classes[owner].members, name) ==> r.id == |s.typeMembers|)
            && r.id < |r.after.typeMembers| && r.after.typeMembers[r.id] == Leaf(owner, name)
            && KindAgrees(r.after, TypeMember, owner, name) && EnterTypeMember(r.after, owner, name) == r)
  {
    if Knows(s.classes[owner].members, name) { assert Refers(s, owner, name, s.classes[owner].members[name]); }
  }

  /** A class and its new singleton class know each other, side by side; asking again finds the same one. */
  lemma EnteredSingletonIsFound(s: Symbols, c: nat)
    requires Inv(s) && CanAttach(s, c)
    ensures var r := EnterSingleton(s, c);
      r.Entered? ==>
        && c < |r.after.classes| && SINGLETON in r.after.classes[c].members
        && r.after.classes[c].members[SINGLETON] == SymbolRef(ClassOrModule, r.id)
        && CanAttach(r.after, c) && EnterSingleton(r.after, c) == r
        && (!Knows(s.classes[c].members, SINGLETON) ==>
              && r.id < |r.after.classes| && r.after.classes[r.id].owner == s.classes[c].owner
              && r.after.classes[r.id].name == SingletonOf(s.classes[c].name)
              && ATTACHED in r.after.classes[r.id].members
              && r.after.classes[r.id].members[ATTACHED] == SymbolRef(ClassOrModule, c)
              && Knows(r.after.classes[r.id].members, ATTACHED_CLASS)
              && r.after.classes[r.id].members[ATTACHED_CLASS].kind.TypeMember?)
  {
    if Knows(s.classes[c].members, SINGLETON) {
      assert Refers(s, c, SINGLETON, s.classes[c].members[SINGLETON]);
    } else {
      EnteredClassIsFound(s, s.classes[c].owner, SingletonOf(s.classes[c].name));
      AttachKeeps(s, c);
      var (t, id) := Attach(s, c);
      EnteredTypeMemberIsFound(t, id, ATTACHED_CLASS);
    }
  }

  /** Class `i` is as before, but for what it knows under `name`. */
  ghost predicate SameButUnder(s: Symbols, t: Symbols, i: nat, name: Name)
    requires i < |s.classes| && i < |t.classes|
  {
    && t.classes[i].(members := s.classes[i].members) == s.classes[i]
    && t.classes[i].members - {name} == s.classes[i].members - {name}
  }

  /** Entered or refused: besides its singleton class, only two entries change, of the class and of its owner. */
  lemma SingletonTouchesTwo(s: Symbols, c: nat, i: nat)
    requires Inv(s) && CanAttach(s, c) && i < |s.classes| && s.classes[i].name != SingletonOf(s.classes[c].name)
    ensures var t, owner, name := EnterSingleton(s, c).after, s.classes[c].owner, SingletonOf(s.classes[c].name);
      && |s.classes| <= |t.classes| <= |s.classes| + 1 && s.typeMembers <= t.typeMembers
      && OthersKept(s, t, TypeMember)
      && (i != c && i != owner ==> t.classes[i] == s.classes[i])
      && (i == c != owner ==> SameButUnder(s, t, i, SINGLETON))
      && (i == owner != c ==> SameButUnder(s, t, i, name))
  {
    if !Knows(s.classes[c].members, SINGLETON) {
      AttachTouches(s, c, i);
      AttachKeeps(s, c);
      NewTypeMemberTouches(Attach(s, c).0, Attach(s, c).1, ATTACHED_CLASS, i);
      LinkTouches(s, c, i);
    }
  }

  /** What is left after the type member: to write the class into the members of `c`. */
  lemma LinkTouches(s: Symbols, c: nat, i: nat)
    requires |s.offsets| > 0 && CanAttach(s, c) && !Knows(s.classes[c].members, SINGLETON) && i < |s.classes|
    ensures var (t, id) := Attach(s, c);
      var after, u := EnterTypeMember(t, id, ATTACHED_CLASS).after, EnterSingleton(s, c).after;
      && OthersKept(after, u, ClassOrModule) && u.typeMembers == after.typeMembers && |u.classes| == |after.classes|
      && i < |u.classes| && (i != c ==> u.classes[i] == after.classes[i])
      && (i == c ==> SameButUnder(after, u, i, SINGLETON))
  {
  }

  lemma NewTypeMemberTouches(s: Symbols, owner: nat, name: Name, i: nat)
    requires Inv(s) && owner > 0 && KindAgrees(s, TypeMember, owner, name) && i < |s.classes| && i != owner
    ensures var t := EnterTypeMember(s, owner, name).after;
      && |t.classes| == |s.classes| && t.classes[i] == s.classes[i]
      && s.typeMembers <= t.typeMembers && OthersKept(s, t, TypeMember)
  {
    EnteredTypeMemberIsFound(s, owner, name);
  }

  lemma AttachTouches(s: Symbols, c: nat, i: nat)
    requires Inv(s) && CanAttach(s, c) && !Knows(s.classes[c].members, SINGLETON)
    requires i < |s.classes| && s.classes[i].name != SingletonOf(s.classes[c].name)
    ensures var (t, id) := Attach(s, c);
      var owner, name := s.classes[c].owner, SingletonOf(s.classes[c].name);
      && i != id && |s.classes| <= |t.classes| <= |s.classes| + 1
      && t.typeMembers == s.typeMembers && OthersKept(s, t, ClassOrModule)
      && (i != owner ==> t.classes[i] == s.classes[i]) && (i == owner ==> SameButUnder(s, t, i, name))
  {
    EnteredClassIsFound(s, s.classes[c].owner, SingletonOf(s.classes[c].name));
  }

  lemma AttachKeeps(s: Symbols, c: nat)
    requires Inv(s) && CanAttach(s, c) && !Knows(s.classes[c].members, SINGLETON)
    ensures Inv(Attach(s, c).0)
  {
    var owner, name := s.classes[c].owner, SingletonOf(s.classes[c].name);
    EnterClassKeeps(s, owner, name);
    LinkKeeps(EnterClass(s, owner, name).0, Attach(s, c).1, ATTACHED, c);
  }

  /**
   * Asking for a singleton class raises exactly if the class knows none, a class of that name is there, of an
   * earlier stratum, and that class lacks the type member.
   */
  lemma SingletonRaisesIff(s: Symbols, c: nat)
    requires Inv(s) && CanAttach(s, c)
    ensures EnterSingleton(s, c).Raised? <==>
      var members, name := s.classes[s.classes[c].owner].members, SingletonOf(s.classes[c].name);
      && !Knows(s.classes[c].members, SINGLETON) && Knows(members, name)
      && members[name].id < s.offsets[s.Contiguous()].classes
      && !Knows(s.classes[members[name].id].members, ATTACHED_CLASS)
  {
    if !Knows(s.classes[c].members, SINGLETON) {
      AttachKeeps(s, c);
      var (t, id) := Attach(s, c);
      EnteredTypeMemberIsFound(t, id, ATTACHED_CLASS);
      assert s.offsets[s.Contiguous()].AtMost(s.Sizes());
      assert t.Contiguous() == s.Contiguous();
    }
  }

  lemma {:induction false} WithoutLast(list: seq<nat>, id: nat)
    requires id !in list
    ensures Without(list + [id], id) == list
  {
    if list != [] {
      assert (list + [id])[1..] == list[1..] + [id];
      WithoutLast(list[1..], id);
    }
  }

  /** The classes of `s`, except that `owner` has no entry for `name`. */
  ghost predicate SameButFor(s: Symbols, classes: seq<ClassData>, owner: nat, name: Name) {
    && owner < |s.classes|
    && classes == s.classes[owner := s.classes[owner].(members := s.classes[owner].members - {name})]
  }

  /** Deleting a method or field just entered gives all classes back as they were, and leaves a dead slot. */
  lemma DeleteUndoesEnter(s: Symbols, kind: Kind, owner: nat, name: Name)
    requires Inv(s) && (kind.Method? || kind.Field?)
    requires owner < |s.classes| && !Reserved(name) && !Knows(s.classes[owner].members, name)
    ensures var (t, id) := EnterLeaf(s, kind, owner, name);
      && CanDelete(t, kind, id) && SameButFor(s, Delete(t, kind, id).classes, owner, name)
      && (name !in s.classes[owner].members ==> Delete(t, kind, id).classes == s.classes)
      && Delete(t, kind, id).Leaves(kind) == s.Leaves(kind) + [s.Leaves(kind)[0]]
  {
    var (t, id) := EnterLeaf(s, kind, owner, name);
    ForgettingNew(s.classes[owner].members, name, SymbolRef(kind, id));
    assert Delete(t, kind, id).classes[owner].members == s.classes[owner].members - {name};
  }

  lemma ForgettingNew(members: map<Name, SymbolRef>, name: Name, ref: SymbolRef)
    ensures members[name := ref] - {name} == members - {name}
    ensures name !in members ==> members - {name} == members
  {
  }

  /** Deleting touches the slot, the owner's entry and the owner's list, from which the id goes and nothing moves. */
  lemma DeletedIsGone(s: Symbols, kind: Kind, id: nat)
    requires Inv(s) && CanDelete(s, kind, id)
    ensures var t, leaf := Delete(s, kind, id), s.Leaves(kind)[id];
      && OthersKept(s, t, kind) && t.names == s.names && |t.classes| == |s.classes|
      && t.Leaves(kind) == s.Leaves(kind)[id := s.Leaves(kind)[0]]
      && (forall i :: 0 <= i < |s.classes| && i != leaf.owner ==> t.classes[i] == s.classes[i])
      && t.classes[leaf.owner].owner == s.classes[leaf.owner].owner
      && t.classes[leaf.owner].name == s.classes[leaf.owner].name
      && t.classes[leaf.owner].members == s.classes[leaf.owner].members - {leaf.name}
      && var was := s.classes[leaf.owner].typeMembers;
         if kind.TypeMember? then
           exists p :: 0 <= p < |was| && was[p] == id && t.classes[leaf.owner].typeMembers == was[..p] + was[p + 1..]
         else t.classes[leaf.owner].typeMembers == was
  {
    if kind.TypeMember? {
      var leaf := s.typeMembers[id];
      assert IsListed(s.classes, leaf, id);
      var p := WithoutSplits(s.classes[leaf.owner].typeMembers, id);
    }
  }

  lemma {:induction false} WithoutSplits(list: seq<nat>, id: nat) returns (p: nat)
    requires id in list
    ensures p < |list| && list[p] == id && Without(list, id) == list[..p] + list[p + 1..]
  {
    if list[0] == id {
      p := 0;
      assert list[..0] + list[1..] == list[1..];
    } else {
      var rest := list[1..];
      var q := WithoutSplits(rest, id);
      p := q + 1;
      PutInFront(list, p);
    }
  }

  lemma PutInFront(list: seq<nat>, p: nat)
    requires 0 < p < |list|
    ensures [list[0]] + (list[1..][..p - 1] + list[1..][p..]) == list[..p] + list[p + 1..]
  {
    assert [list[0]] + list[1..][..p - 1] == list[..p];
    assert list[1..][p..] == list[p + 1..];
  }

  /** Renaming touches the name of the method and the two entries of its owner. */
  lemma RenamedMoves(s: Symbols, id: nat)
    requires Inv(s) && CanDelete(s, Method, id)
    ensures var t, leaf := MangleRename(s, id), s.methods[id];
      var before := s.classes[leaf.owner].members;
      var name := NextMangledName(before, leaf.name);
      && OthersKept(s, t, Method) && t.names == s.names + {name} && |t.classes| == |s.classes|
      && t.methods == s.methods[id := Leaf(leaf.owner, name)]
      && (forall i :: 0 <= i < |s.classes| && i != leaf.owner ==> t.classes[i] == s.classes[i])
      && t.classes[leaf.owner].(members := before) == s.classes[leaf.owner]
      && !Knows(t.classes[leaf.owner].members, leaf.name)
      && t.classes[leaf.owner].members[leaf.name := NO_SYMBOL] ==
           before[leaf.name := NO_SYMBOL][name := SymbolRef(Method, id)]
  {
  }

  lemma DeleteUndoesEnterTypeMember(s: Symbols, owner: nat, name: Name)
    requires Inv(s) && 0 < owner < |s.classes| && !Reserved(name) && !Knows(s.classes[owner].members, name)
    ensures var r := EnterTypeMember(s, owner, name);
      r.Entered? ==>
        && CanDelete(r.after, TypeMember, r.id)
        && SameButFor(s, Delete(r.after, TypeMember, r.id).classes, owner, name)
        && (name !in s.classes[owner].members ==> Delete(r.after, TypeMember, r.id).classes == s.classes)
        && Delete(r.after, TypeMember, r.id).typeMembers == s.typeMembers + [s.typeMembers[0]]
  {
    var r := EnterTypeMember(s, owner, name);
    if r.Entered? {
      ForgettingNew(s.classes[owner].members, name, SymbolRef(TypeMember, r.id));
      assert ClassBelow(s.classes[owner], s.Sizes());
      WithoutLast(s.classes[owner].typeMembers, r.id);
      assert Delete(r.after, TypeMember, r.id).classes[owner].members == s.classes[owner].members - {name};
    }
  }

  // ---------------------------------------------------------------- runs

  /** Every step keeps the invariant. */
  lemma StepKeeps(s: Symbols, op: Op)
    requires Inv(s) && Allowed(s, op)
    ensures Inv(Step(s, op))
  {
    match op
    case OpEnterClass(owner, name) => EnterClassKeeps(s, owner, name);
    case OpEnterLeaf(kind, owner, name) => EnterLeafKeeps(s, kind, owner, name);
    case OpEnterTypeMember(owner, name) => EnterTypeMemberKeeps(s, owner, name);
    case OpEnterSingleton(c) => EnterSingletonKeeps(s, c);
    case OpDelete(kind, id) => DeleteKeeps(s, kind, id);
    case OpMangleRename(id) => MangleRenameKeeps(s, id);
    case OpUpdateOffsets => UpdateOffsetsKeeps(s);
    case OpReopen(stratum) => ReopenKeeps(s, stratum);
    case OpCopyPrefix(k) => if k > 0 { CopyKeeps(s, k); }
  }

  /**
   * The tables while `initEmpty` sets up the first symbols: the missing ones, which belong to the missing class, and
   * top, bottom and the root, which the root owns without knowing them.
   */
  function Initial(): Symbols {
    var members := map[NO_METHOD := SymbolRef(Method, 0), NO_FIELD := SymbolRef(Field, 0),
                       NO_TYPE_MEMBER := SymbolRef(TypeMember, 0)];
    var classes := [ClassData(ROOT_CLASS, NO_CLASS, members, [0]), ClassData(ROOT_CLASS, TOP, map[], []),
                    ClassData(ROOT_CLASS, BOTTOM, map[], []), ClassData(ROOT_CLASS, ROOT, map[], [])];
    Symbols(classes, [Leaf(0, NO_METHOD)], [Leaf(0, NO_FIELD)], [Leaf(0, NO_TYPE_MEMBER)], [Offsets(1, 1, 1, 1)], None,
            {NO_METHOD, NO_FIELD, NO_TYPE_MEMBER})
  }

  predicate AllowedRun(s: Symbols, ops: seq<Op>)
    decreases |ops|
  {
    ops == [] || (Allowed(s, ops[0]) && AllowedRun(Step(s, ops[0]), ops[1..]))
  }

  function RunOps(s: Symbols, ops: seq<Op>): Symbols
    requires AllowedRun(s, ops)
    decreases |ops|
  {
    if ops == [] then s else RunOps(Step(s, ops[0]), ops[1..])
  }

  lemma {:induction false} RunKeeps(s: Symbols, ops: seq<Op>)
    requires Inv(s) && AllowedRun(s, ops)
    ensures Inv(RunOps(s, ops))
    decreases |ops|
  {
    if ops != [] {
      StepKeeps(s, ops[0]);
      RunKeeps(Step(s, ops[0]), ops[1..]);
    }
  }

  /** References held by the symbols of `s`, none of which may point outside its tables. */
  ghost predicate NoDangling(s: Symbols) {
    && (forall i, n :: 0 <= i < |s.classes| && n in s.classes[i].members ==>
          s.classes[i].members[n].id < s.Sizes().Of(s.classes[i].members[n].kind))
    && (forall i, j :: 0 <= i < |s.classes| && 0 <= j < |s.classes[i].typeMembers| ==>
          s.classes[i].typeMembers[j] < |s.typeMembers|)
    && (forall i :: 0 <= i < |s.classes| ==> s.classes[i].owner < |s.classes|)
    && (forall i :: 0 <= i < |s.methods| ==> s.methods[i].owner < |s.classes|)
    && (forall i :: 0 <= i < |s.fields| ==> s.fields[i].owner < |s.classes|)
    && (forall i :: 0 <= i < |s.typeMembers| ==> s.typeMembers[i].owner < |s.classes|)
  }

  /**
   * After any run whatsoever, copying any prefix the source allows to be copied gives tables without a dangling
   * reference, in which each class, method, field and type member is still found through its owner.
   */
  lemma PrefixCopiesAreSelfContained(ops: seq<Op>, k: nat)
    requires AllowedRun(Initial(), ops)
    requires var s := RunOps(Initial(), ops);
      |s.offsets| > 0 && 1 <= k < |s.offsets| && (s.earliestReopened.Some? ==> k <= s.earliestReopened.value)
    ensures var s := RunOps(Initial(), ops);
      s.offsets[k].AtMost(s.Sizes()) && Inv(CopyPrefix(s, k)) && NoDangling(CopyPrefix(s, k))
  {
    InitialInv();
    RunKeeps(Initial(), ops);
    var s := RunOps(Initial(), ops);
    CopyKeeps(s, k);
    InvHasNoDangling(CopyPrefix(s, k));
  }

  lemma InitialInv()
    ensures Inv(Initial())
  {
    var s := Initial();
    InitialResolves();
    InitialIsListed();
    assert OffsetsOk(s) && Closed(s, s.Sizes());
  }

  lemma InitialIsListed()
    ensures TypeMembersListed(Initial().classes, Initial().typeMembers)
  {
  }

  lemma InitialResolves()
    ensures var s := Initial();
      && MembersResolve(s) && NamesEntered(s) && ClassesAreMembers(s.classes)
      && LeavesAreMembers(s.classes, Method, s.methods)
      && LeavesAreMembers(s.classes, Field, s.fields)
      && LeavesAreMembers(s.classes, TypeMember, s.typeMembers)
  {
    var s := Initial();
    assert LeafIsMember(s.classes, Method, s.methods[0], 0, s.methods[0]);
  }

  lemma InvHasNoDangling(s: Symbols)
    requires Inv(s)
    ensures NoDangling(s)
  {
    forall i, n | 0 <= i < |s.classes| && n in s.classes[i].members
      ensures s.classes[i].members[n].id < s.Sizes().Of(s.classes[i].members[n].kind)
    {
      if Knows(s.classes[i].members, n) { assert Refers(s, i, n, s.classes[i].members[n]); }
    }
    forall i | 0 <= i < |s.classes| ensures ClassBelow(s.classes[i], s.Sizes()) {}
  }
}
