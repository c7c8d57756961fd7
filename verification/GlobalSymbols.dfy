/** The symbol tables as the object the program updates in place (core/GlobalState.h, core/GlobalState.cc). */
module GlobalSymbols {
  import opened Collections
  import opened SymbolTable
  import opened SymbolStrata

  class SymbolTables {
    var classes: seq<ClassData>
    var methods: seq<Leaf>
    var fields: seq<Leaf>
    var typeMembers: seq<Leaf>
    var offsets: seq<Offsets>
    var earliestReopened: Option<nat>
    /** The names in the name table that matter here: all that are or were members, and mangled forms looked at. */
    var names: set<Name>

    /** All strata that were ever reopened. */
    ghost var reopened: set<nat>

    ghost function View(): Symbols
      reads this
    {
      Symbols(classes, methods, fields, typeMembers, offsets, earliestReopened, names)
    }

    ghost predicate Valid()
      reads this
    {
      Inv(View()) && RemembersReopened()
    }

    /** The earliest reopened stratum is the least one. */
    ghost predicate RemembersReopened()
      reads this
    {
      match earliestReopened
      case None => reopened == {}
      case Some(stratum) => stratum in reopened && forall r <- reopened :: stratum <= r
    }

    constructor ()
      ensures Valid() && View() == Initial() && reopened == {}
    {
      classes := [ClassData(ROOT_CLASS, NO_CLASS,
                            map[NO_METHOD := SymbolRef(Method, 0), NO_FIELD := SymbolRef(Field, 0),
                                NO_TYPE_MEMBER := SymbolRef(TypeMember, 0)], [0]),
                  ClassData(ROOT_CLASS, TOP, map[], []), ClassData(ROOT_CLASS, BOTTOM, map[], []),
                  ClassData(ROOT_CLASS, ROOT, map[], [])];
      methods, fields, typeMembers := [Leaf(0, NO_METHOD)], [Leaf(0, NO_FIELD)], [Leaf(0, NO_TYPE_MEMBER)];
      offsets := [Offsets(1, 1, 1, 1)];
      earliestReopened := None;
      names := {NO_METHOD, NO_FIELD, NO_TYPE_MEMBER};
      reopened := {};
      new;
      InitialInv();
    }

    ghost predicate Reusable(stratum: nat)
      reads this
    {
      stratum < |offsets| && forall r <- reopened :: stratum <= r
    }

    /** The greatest stratum that is neither behind the last boundary nor behind a reopened one. */
    method ContiguousStrataUntil() returns (k: nat)
      requires |offsets| > 0 && RemembersReopened()
      ensures k == View().Contiguous()
      ensures Reusable(k) && forall j: nat :: Reusable(j) ==> j <= k
    {
      var recorded := |offsets| - 1;
      k := recorded;
      if earliestReopened.Some? && earliestReopened.value < recorded {
        k := earliestReopened.value;
      }
    }

    method EnterClassOrModuleSymbol(owner: nat, name: Name) returns (id: nat)
      requires Valid() && KindAgrees(View(), ClassOrModule, owner, name)
      modifies this
      ensures Valid() && reopened == old(reopened)
      ensures (View(), id) == EnterClass(old(View()), owner, name)
    {
      EnterClassKeeps(View(), owner, name);
      var members := classes[owner].members;
      if Knows(members, name) {
        return members[name].id;
      }
      id := |classes|;
      classes := classes[owner := classes[owner].(members := members[name := SymbolRef(ClassOrModule, id)])];
      names := names + {name};
      classes := classes + [ClassData(owner, name, map[], [])];
    }

    method EnterMethodSymbol(owner: nat, name: Name) returns (id: nat)
      requires Valid() && KindAgrees(View(), Method, owner, name)
      modifies this
      ensures Valid() && reopened == old(reopened)
      ensures (View(), id) == EnterLeaf(old(View()), Method, owner, name)
    {
      EnterLeafKeeps(View(), Method, owner, name);
      var members := classes[owner].members;
      if Knows(members, name) {
        return members[name].id;
      }
      id := |methods|;
      classes := classes[owner := classes[owner].(members := members[name := SymbolRef(Method, id)])];
      names := names + {name};
      methods := methods + [Leaf(owner, name)];
    }

    /** The entry for the name is created first; a refused owner keeps it empty. */
    method EnterTypeMemberSymbol(owner: nat, name: Name) returns (r: Option<nat>)
      requires Valid() && owner > 0 && KindAgrees(View(), TypeMember, owner, name)
      modifies this
      ensures Valid() && reopened == old(reopened)
      ensures match EnterTypeMember(old(View()), owner, name)
        case Raised(after) => r.None? && View() == after
        case Entered(after, id) => r == Some(id) && View() == after
    {
      EnterTypeMemberKeeps(View(), owner, name);
      var members := classes[owner].members;
      if Knows(members, name) {
        return Some(members[name].id);
      }
      classes := classes[owner := classes[owner].(members := members[name := NO_SYMBOL])];
      names := names + {name};
      var k := ContiguousStrataUntil();
      if owner < offsets[k].classes {
        return None;
      }
      ghost var before := old(View());
      FillingEmptyEntry(before, owner, name);
      r := Some(|typeMembers|);
      StoreTypeMember(owner, name);
    }

    /** The part of `enterTypeMember` behind its guard. */
    method StoreTypeMember(owner: nat, name: Name)
      requires owner < |classes|
      modifies this`classes, this`typeMembers, this`names
      ensures View() == AddTypeMember(old(View()), owner, name)
    {
      var id := |typeMembers|;
      var members := classes[owner].members;
      classes := classes[owner := classes[owner].(members := members[name := SymbolRef(TypeMember, id)])];
      names := names + {name};
      typeMembers := typeMembers + [Leaf(owner, name)];
      classes := classes[owner := classes[owner].(typeMembers := classes[owner].typeMembers + [id])];
    }

    /** `singletonClass`; a refusal of the type member ends it half way. */
    method EnterSingletonClass(c: nat) returns (r: Option<nat>)
      requires Valid() && CanAttach(View(), c)
      modifies this
      ensures Valid() && reopened == old(reopened)
      ensures match EnterSingleton(old(View()), c)
        case Raised(after) => r.None? && View() == after
        case Entered(after, id) => r == Some(id) && View() == after
    {
      var members := classes[c].members;
      if Knows(members, SINGLETON) {
        return Some(members[SINGLETON].id);
      }
      ghost var s := View();
      EnterSingletonKeeps(s, c);
      var id := EnterClassOrModuleSymbol(classes[c].owner, SingletonOf(classes[c].name));
      LinkKeeps(View(), id, ATTACHED, c);
      Link(id, ATTACHED, c);
      assert (View(), id) == Attach(s, c);
      var tp := EnterTypeMemberSymbol(id, ATTACHED_CLASS);
      if tp.None? {
        return None;
      }
      Link(c, SINGLETON, id);
      r := Some(id);
    }

    /** Write a class straight into the members of another. */
    method Link(owner: nat, name: Name, id: nat)
      requires owner < |classes|
      modifies this`classes, this`names
      ensures View() == old(View()).WithMember(owner, name, SymbolRef(ClassOrModule, id))
    {
      var members := classes[owner].members;
      classes := classes[owner := classes[owner].(members := members[name := SymbolRef(ClassOrModule, id)])];
      names := names + {name};
    }

    method DeleteTypeMemberSymbol(id: nat)
      requires Valid() && CanDelete(View(), TypeMember, id)
      modifies this
      ensures Valid() && reopened == old(reopened)
      ensures View() == Delete(old(View()), TypeMember, id)
    {
      DeleteKeeps(View(), TypeMember, id);
      var leaf := typeMembers[id];
      var data := classes[leaf.owner];
      data := data.(members := data.members - {leaf.name});
      data := data.(typeMembers := Without(data.typeMembers, id));
      classes := classes[leaf.owner := data];
      typeMembers := typeMembers[id := typeMembers[0]];
    }

    method DeleteMethodSymbol(id: nat)
      requires Valid() && CanDelete(View(), Method, id)
      modifies this
      ensures Valid() && reopened == old(reopened)
      ensures View() == Delete(old(View()), Method, id)
    {
      DeleteKeeps(View(), Method, id);
      var leaf := methods[id];
      var data := classes[leaf.owner];
      classes := classes[leaf.owner := data.(members := data.members - {leaf.name})];
      methods := methods[id := methods[0]];
    }

    method UpdateOffsets()
      requires Valid()
      modifies this
      ensures Valid() && reopened == old(reopened)
      ensures View() == UpdateSymbolTableOffsets(old(View()))
      ensures |offsets| == |old(offsets)| + 1 && offsets[..|old(offsets)|] == old(offsets)
      ensures offsets[|old(offsets)|] == Offsets(|classes|, |methods|, |fields|, |typeMembers|)
    {
      UpdateOffsetsKeeps(View());
      offsets := offsets + [Offsets(|classes|, |methods|, |fields|, |typeMembers|)];
    }

    method Reopen(stratum: nat)
      requires Valid()
      modifies this
      ensures Valid() && reopened == old(reopened) + {stratum}
      ensures View() == ReopenStratum(old(View()), stratum)
    {
      ReopenKeeps(View(), stratum);
      if earliestReopened.None? || stratum < earliestReopened.value {
        earliestReopened := Some(stratum);
      }
      reopened := reopened + {stratum};
    }

    /** `copySymbolTableFrom` into empty tables: copy up to the boundary, then filter the member maps. */
    constructor CopyFrom(other: SymbolTables, k: nat)
      requires other.Valid() && 1 <= k < |other.offsets|
      requires other.earliestReopened.Some? ==> k <= other.earliestReopened.value
      ensures Valid() && reopened == {} && View() == CopyPrefix(other.View(), k)
    {
      var o := other.offsets[k];
      ghost var s := other.View();
      CopyKeeps(s, k);
      var copied: seq<ClassData> := [];
      for i := 0 to o.classes
        invariant copied == other.classes[..i]
      {
        copied := copied + [other.classes[i]];
      }
      for i := 0 to o.classes
        invariant |copied| == o.classes
        invariant forall j :: 0 <= j < i ==> copied[j] == s.classes[j].(members := Below(s.classes[j].members, o))
        invariant forall j :: i <= j < o.classes ==> copied[j] == s.classes[j]
      {
        copied := copied[i := copied[i].(members := Below(copied[i].members, o))];
      }
      classes := copied;
      methods := other.methods[..o.methods];
      fields := other.fields[..o.fields];
      typeMembers := other.typeMembers[..o.typeMembers];
      offsets := other.offsets[..k + 1];
      earliestReopened := None;
      names := other.names;
      reopened := {};
      assert copied == CopyPrefix(s, k).classes;
    }

    /** `nextMangledName`: try the mangled forms one after the other. */
    method NextMangled(owner: nat, name: Name) returns (mangled: Name)
      requires owner < |classes|
      modifies this`names
      ensures mangled == NextMangledName(classes[owner].members, name)
      ensures old(names) + {mangled} <= names
      ensures forall n <- names :: n in old(names) || n == mangled || n in classes[owner].members
    {
      var members := classes[owner].members;
      var collisionCount := 1;
      ghost var last := NextFree(KnownNames(members), name, 1);
      mangled := Mangled(name, collisionCount);
      names := names + {mangled};
      while Knows(members, mangled)
        invariant 1 <= collisionCount <= last && mangled == Mangled(name, collisionCount)
        invariant old(names) + {mangled} <= names
        invariant forall n <- names :: n in old(names) || n == mangled || n in members
        decreases last - collisionCount
      {
        collisionCount := collisionCount + 1;
        mangled := Mangled(name, collisionCount);
        names := names + {mangled};
      }
      NextIsFirst(members, name, collisionCount);
    }

    method MangleRenameMethod(id: nat)
      requires Valid() && CanDelete(View(), Method, id)
      modifies this
      ensures Valid() && reopened == old(reopened)
      ensures View() == MangleRename(old(View()), id)
    {
      MangleRenameKeeps(View(), id);
      var leaf := methods[id];
      MemberNamesKnown(View(), leaf.owner);
      var name := NextMangled(leaf.owner, leaf.name);
      var members := classes[leaf.owner].members - {leaf.name};
      classes := classes[leaf.owner := classes[leaf.owner].(members := members[name := SymbolRef(Method, id)])];
      methods := methods[id := Leaf(leaf.owner, name)];
      assert names == old(names) + {name};
    }

    /** `lookupMethodSymbolWithHash`. */
    method LookupMethodWithHash(owner: nat, name: Name, matches: nat -> bool) returns (r: Option<nat>)
      requires Valid() && owner < |classes|
      ensures r == FirstMatch(classes[owner].members, name, matches)
    {
      MemberNamesKnown(View(), owner);
      r := WalkChain(classes[owner].members, names, name, matches);
    }
  }

  lemma FillingEmptyEntry(s: Symbols, owner: nat, name: Name)
    requires owner < |s.classes|
    ensures AddTypeMember(s.WithMember(owner, name, NO_SYMBOL), owner, name) == AddTypeMember(s, owner, name)
  {
    var t, ref := s.WithMember(owner, name, NO_SYMBOL), SymbolRef(TypeMember, |s.typeMembers|);
    assert t.classes[owner].members[name := ref] == s.classes[owner].members[name := ref];
  }

  /** Walk a name and its mangled forms, while they are names and members, for a method that matches. */
  method WalkChain(members: map<Name, SymbolRef>, names: set<Name>, name: Name, matches: nat -> bool)
    returns (r: Option<nat>)
    requires forall n <- members :: n in names
    ensures r == FirstMatch(members, name, matches)
  {
    var lookupName := name;
    var unique := 1;
    ghost var last := NextFree(members.Keys, name, 1);
    while lookupName in members
      invariant 1 <= unique <= last + 1
      invariant lookupName == if unique == 1 then name else Mangled(name, unique - 1)
      invariant unique > 1 ==>
        FirstMatch(members, name, matches) == FirstMatchFrom(members, name, unique - 1, matches)
      decreases last + 1 - unique
    {
      if Knows(members, lookupName) && members[lookupName].kind.Method? && matches(members[lookupName].id) {
        return Some(members[lookupName].id);
      }
      if unique > 1 { FirstMatchStep(members, name, unique - 1, matches); }
      lookupName := Mangled(name, unique);
      if lookupName !in names {
        break;
      }
      unique := unique + 1;
    }
    return None;
  }

  lemma MemberNamesKnown(s: Symbols, owner: nat)
    requires Inv(s) && owner < |s.classes|
    ensures forall n <- s.classes[owner].members :: n in s.names
  {
  }

  lemma NextIsFirst(members: map<Name, SymbolRef>, name: Name, num: nat)
    requires 1 <= num <= NextFree(KnownNames(members), name, 1) && !Knows(members, Mangled(name, num))
    ensures num == NextFree(KnownNames(members), name, 1)
  {
  }

  predicate MatchesAt(members: map<Name, SymbolRef>, name: Name, matches: nat -> bool) {
    Knows(members, name) && members[name].kind.Method? && matches(members[name].id)
  }

  /** The first match among the mangled forms from `num` on, up to the first that is missing. */
  function FirstMatchFrom(members: map<Name, SymbolRef>, name: Name, num: nat, matches: nat -> bool): Option<nat>
    requires num >= 1
    decreases NextFree(members.Keys, name, num) - num
  {
    var m := Mangled(name, num);
    if m !in members then None
    else if MatchesAt(members, m, matches) then Some(members[m].id)
    else FirstMatchFrom(members, name, num + 1, matches)
  }

  function FirstMatch(members: map<Name, SymbolRef>, name: Name, matches: nat -> bool): Option<nat> {
    if name !in members then None
    else if MatchesAt(members, name, matches) then Some(members[name].id)
    else FirstMatchFrom(members, name, 1, matches)
  }

  lemma FirstMatchStep(members: map<Name, SymbolRef>, name: Name, num: nat, matches: nat -> bool)
    requires num >= 1
    ensures FirstMatchFrom(members, name, num, matches) ==
      if Mangled(name, num) !in members then None
      else if MatchesAt(members, Mangled(name, num), matches) then Some(members[Mangled(name, num)].id)
      else FirstMatchFrom(members, name, num + 1, matches)
  {
  }
}
