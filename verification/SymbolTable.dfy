/**
 * The symbol tables and their strata (core/GlobalState.h, core/GlobalState.cc): classes with member maps, methods,
 * fields and type members in growing vectors whose index 0 is the missing symbol, and recorded table boundaries.
 */
module SymbolTable {
  import opened Collections

  /** A name, the `num`-th mangled form of one, or the name of the singleton class of a class of that name. */
  datatype Name = Plain(id: nat) | Mangled(original: Name, num: nat) | SingletonOf(attached: Name)

  /** The well-known names that matter here. */
  const NO_CLASS := Plain(0)
  const NO_METHOD := Plain(1)
  const NO_FIELD := Plain(2)
  const NO_TYPE_MEMBER := Plain(3)
  const TOP := Plain(4)
  const BOTTOM := Plain(5)
  const ROOT := Plain(6)
  const ATTACHED := Plain(7)
  const SINGLETON := Plain(8)
  const ATTACHED_CLASS := Plain(9)

  /** Under these names a class and its singleton class refer to each other. Nothing is entered under them. */
  predicate Reserved(name: Name) {
    name == ATTACHED || name == SINGLETON
  }

  datatype Kind = ClassOrModule | Method | Field | TypeMember

  datatype SymbolRef = SymbolRef(kind: Kind, id: nat)

  /** What `members()[name]` creates for a new name: a reference that does not exist. */
  const NO_SYMBOL := SymbolRef(ClassOrModule, 0)

  /** There is an entry for the name, and what it refers to exists: index 0 of every table is the missing symbol. */
  predicate Knows(members: map<Name, SymbolRef>, name: Name) {
    name in members && members[name].id != 0
  }

  /** A method, field or type member. */
  datatype Leaf = Leaf(owner: nat, name: Name)

  datatype ClassData = ClassData(owner: nat, name: Name, members: map<Name, SymbolRef>, typeMembers: seq<nat>)

  /** Table sizes at a boundary between strata. */
  datatype Offsets = Offsets(classes: nat, methods: nat, fields: nat, typeMembers: nat) {
    function Of(kind: Kind): nat {
      match kind
      case ClassOrModule => classes
      case Method => methods
      case Field => fields
      case TypeMember => typeMembers
    }
    predicate AtMost(other: Offsets) {
      classes <= other.classes && methods <= other.methods && fields <= other.fields && typeMembers <= other.typeMembers
    }
  }

  datatype Symbols = Symbols(
    classes: seq<ClassData>,
    methods: seq<Leaf>,
    fields: seq<Leaf>,
    typeMembers: seq<Leaf>,
    offsets: seq<Offsets>,
    earliestReopened: Option<nat>,
    names: set<Name>)
  {
    function Leaves(kind: Kind): seq<Leaf> {
      match kind
      case ClassOrModule => []
      case Method => methods
      case Field => fields
      case TypeMember => typeMembers
    }

    function WithLeaves(kind: Kind, leaves: seq<Leaf>): Symbols {
      match kind
      case ClassOrModule => this
      case Method => this.(methods := leaves)
      case Field => this.(fields := leaves)
      case TypeMember => this.(typeMembers := leaves)
    }

    function Sizes(): Offsets {
      Offsets(|classes|, |methods|, |fields|, |typeMembers|)
    }

    /** `contiguousStrataUntil`. */
    function Contiguous(): nat
      requires |offsets| > 0
    {
      var recorded := |offsets| - 1;
      if earliestReopened.Some? && earliestReopened.value < recorded then earliestReopened.value else recorded
    }

    function WithClass(id: nat, data: ClassData): Symbols
      requires id < |classes|
    {
      this.(classes := classes[id := data])
    }

    function WithMember(owner: nat, name: Name, ref: SymbolRef): Symbols
      requires owner < |classes|
    {
      WithClass(owner, classes[owner].(members := classes[owner].members[name := ref])).(names := names + {name})
    }
  }

  // ---------------------------------------------------------------- operations

  datatype Entered = Entered(after: Symbols, id: nat) | Raised(after: Symbols)

  /** Entering a name its owner already has a symbol for demands that the symbol be of the kind entered. */
  predicate KindAgrees(s: Symbols, kind: Kind, owner: nat, name: Name) {
    && owner < |s.classes| && !Reserved(name)
    && (Knows(s.classes[owner].members, name) ==> s.classes[owner].members[name].kind == kind)
  }

  function EnterClass(s: Symbols, owner: nat, name: Name): (Symbols, nat)
    requires KindAgrees(s, ClassOrModule, owner, name)
  {
    var members := s.classes[owner].members;
    if Knows(members, name) then (s, members[name].id)
    else
      var id := |s.classes|;
      var t := s.WithMember(owner, name, SymbolRef(ClassOrModule, id));
      (t.(classes := t.classes + [ClassData(owner, name, map[], [])]), id)
  }

  function AddLeaf(s: Symbols, kind: Kind, owner: nat, name: Name): Symbols
    requires owner < |s.classes|
  {
    var id := |s.Leaves(kind)|;
    s.WithMember(owner, name, SymbolRef(kind, id)).WithLeaves(kind, s.Leaves(kind) + [Leaf(owner, name)])
  }

  /** `enterMethodSymbol`, `enterFieldSymbol` and `enterStaticFieldSymbol`. */
  function EnterLeaf(s: Symbols, kind: Kind, owner: nat, name: Name): (Symbols, nat)
    requires (kind.Method? || kind.Field?) && KindAgrees(s, kind, owner, name)
  {
    var members := s.classes[owner].members;
    if Knows(members, name) then (s, members[name].id) else (AddLeaf(s, kind, owner, name), |s.Leaves(kind)|)
  }

  /**
   * `enterTypeMember`, with the guard that refuses an owner of an earlier stratum. By then the entry for the name has
   * been created, and it stays.
   */
  function EnterTypeMember(s: Symbols, owner: nat, name: Name): Entered
    requires |s.offsets| > 0 && owner > 0 && KindAgrees(s, TypeMember, owner, name)
  {
    var members := s.classes[owner].members;
    if Knows(members, name) then Entered(s, members[name].id)
    else if owner < s.offsets[s.Contiguous()].classes then Raised(s.WithMember(owner, name, NO_SYMBOL))
    else Entered(AddTypeMember(s, owner, name), |s.typeMembers|)
  }

  function AddTypeMember(s: Symbols, owner: nat, name: Name): Symbols
    requires owner < |s.classes|
  {
    var t := AddLeaf(s, TypeMember, owner, name);
    t.WithClass(owner, t.classes[owner].(typeMembers := t.classes[owner].typeMembers + [|s.typeMembers|]))
  }

  /** The names of the class and the type member that `singletonClass` enters are free or have the right kind. */
  predicate CanAttach(s: Symbols, c: nat) {
    0 < c < |s.classes| &&
    var owner, name := s.classes[c].owner, SingletonOf(s.classes[c].name);
    Knows(s.classes[c].members, SINGLETON) ||
    (&& KindAgrees(s, ClassOrModule, owner, name)
     && (Knows(s.classes[owner].members, name) ==>
           KindAgrees(s, TypeMember, s.classes[owner].members[name].id, ATTACHED_CLASS)))
  }

  /** The singleton class of `c`, which knows `c` as the attached class, before it gets its type member. */
  function Attach(s: Symbols, c: nat): (r: (Symbols, nat))
    requires CanAttach(s, c) && !Knows(s.classes[c].members, SINGLETON)
    ensures 0 < r.1 < |r.0.classes| && c < |r.0.classes| && KindAgrees(r.0, TypeMember, r.1, ATTACHED_CLASS)
    ensures r.0.offsets == s.offsets
  {
    var (t, id) := EnterClass(s, s.classes[c].owner, SingletonOf(s.classes[c].name));
    (t.WithMember(id, ATTACHED, SymbolRef(ClassOrModule, c)), id)
  }

  /** `singletonClass`: the class known as such, or a new one next to `c` and attached to it. */
  function EnterSingleton(s: Symbols, c: nat): Entered
    requires |s.offsets| > 0 && CanAttach(s, c)
  {
    if Knows(s.classes[c].members, SINGLETON) then Entered(s, s.classes[c].members[SINGLETON].id)
    else
      var (t, id) := Attach(s, c);
      match EnterTypeMember(t, id, ATTACHED_CLASS)
      case Raised(after) => Raised(after)
      case Entered(after, _) =>
        assert |after.classes| == |t.classes|;
        Entered(after.WithMember(c, SINGLETON, SymbolRef(ClassOrModule, id)), id)
  }

  function Without(list: seq<nat>, id: nat): (r: seq<nat>)
    ensures forall x <- r :: x in list
    ensures forall x <- list :: x == id || x in r
  {
    if list == [] then [] else if list[0] == id then list[1..] else [list[0]] + Without(list[1..], id)
  }

  predicate CanDelete(s: Symbols, kind: Kind, id: nat) {
    && !kind.ClassOrModule? && 0 < id < |s.Leaves(kind)|
    && var leaf := s.Leaves(kind)[id];
       && leaf.owner < |s.classes| && (kind.TypeMember? ==> leaf.owner > 0)
       && leaf.name in s.classes[leaf.owner].members
       && s.classes[leaf.owner].members[leaf.name] == SymbolRef(kind, id)
  }

  /** `deleteMethodSymbol`, `deleteFieldSymbol` and `deleteTypeMemberSymbol`: the slot becomes a copy of slot 0. */
  function Delete(s: Symbols, kind: Kind, id: nat): Symbols
    requires CanDelete(s, kind, id)
  {
    var leaf := s.Leaves(kind)[id];
    var data := s.classes[leaf.owner];
    var list := if kind.TypeMember? then Without(data.typeMembers, id) else data.typeMembers;
    s.WithClass(leaf.owner, data.(members := data.members - {leaf.name}, typeMembers := list))
     .WithLeaves(kind, s.Leaves(kind)[id := s.Leaves(kind)[0]])
  }

  /** The first mangled form of `name`, from `num` on, that is not among the names `taken`. */
  function NextFree(taken: set<Name>, name: Name, num: nat): (r: nat)
    ensures num <= r && Mangled(name, r) !in taken
    ensures forall j :: num <= j < r ==> Mangled(name, j) in taken
    decreases |taken|
  {
    if Mangled(name, num) !in taken then num
    else
      assert |taken - {Mangled(name, num)}| < |taken|;
      NextFree(taken - {Mangled(name, num)}, name, num + 1)
  }

  /** The names of the members, empty entries left out. */
  function KnownNames(members: map<Name, SymbolRef>): set<Name> {
    set n <- members | members[n].id != 0
  }

  /** `nextMangledName`. */
  function NextMangledName(members: map<Name, SymbolRef>, name: Name): Name {
    Mangled(name, NextFree(KnownNames(members), name, 1))
  }

  /** `mangleRenameMethod`: move a method out of the way under the next mangled name. */
  function MangleRename(s: Symbols, id: nat): Symbols
    requires CanDelete(s, Method, id)
  {
    var leaf := s.methods[id];
    var data := s.classes[leaf.owner];
    var name := NextMangledName(data.members, leaf.name);
    s.WithClass(leaf.owner, data.(members := (data.members - {leaf.name})[name := SymbolRef(Method, id)]))
     .(methods := s.methods[id := Leaf(leaf.owner, name)], names := s.names + {name})
  }

  function UpdateSymbolTableOffsets(s: Symbols): Symbols {
    s.(offsets := s.offsets + [s.Sizes()])
  }

  function ReopenStratum(s: Symbols, stratum: nat): Symbols {
    if s.earliestReopened.Some? && s.earliestReopened.value <= stratum then s
    else s.(earliestReopened := Some(stratum))
  }

  function Below(members: map<Name, SymbolRef>, o: Offsets): map<Name, SymbolRef> {
    map n <- members | members[n].id < o.Of(members[n].kind) :: members[n]
  }

  /** `copySymbolTableFrom`: the tables up to boundary `k`, with members beyond it filtered out. */
  function CopyPrefix(s: Symbols, k: nat): Symbols
    requires 0 < k < |s.offsets| && s.offsets[k].AtMost(s.Sizes())
  {
    var o := s.offsets[k];
    Symbols(
      seq(o.classes, i requires 0 <= i < o.classes => s.classes[i].(members := Below(s.classes[i].members, o))),
      s.methods[..o.methods],
      s.fields[..o.fields],
      s.typeMembers[..o.typeMembers],
      s.offsets[..k + 1],
      None,
      s.names)
  }

  // ---------------------------------------------------------------- invariant

  /** `ref` is the symbol that class `owner` knows as `name`, and the symbol agrees. */
  ghost predicate Resolves(s: Symbols, owner: nat, name: Name, ref: SymbolRef) {
    if ref.kind.ClassOrModule? then
      ref.id < |s.classes| && s.classes[ref.id].owner == owner && s.classes[ref.id].name == name
    else
      ref.id < |s.Leaves(ref.kind)| && s.Leaves(ref.kind)[ref.id] == Leaf(owner, name)
  }

  /** Under a reserved name there is some class; everything else resolves. */
  ghost predicate Refers(s: Symbols, owner: nat, name: Name, ref: SymbolRef) {
    if Reserved(name) then ref.kind.ClassOrModule? && ref.id < |s.classes| else Resolves(s, owner, name, ref)
  }

  ghost predicate MembersResolve(s: Symbols) {
    forall i, n :: 0 <= i < |s.classes| && Knows(s.classes[i].members, n) ==> Refers(s, i, n, s.classes[i].members[n])
  }

  /** The entries of every class, empty ones included, are under names of the name table. */
  ghost predicate NamesEntered(s: Symbols) {
    forall i, n :: 0 <= i < |s.classes| && n in s.classes[i].members ==> n in s.names
  }

  /** Every class behind the root is what its owner knows under its name. */
  ghost predicate ClassIsMember(classes: seq<ClassData>, id: nat)
    requires id < |classes|
  {
    var c := classes[id];
    c.owner < |classes| && !Reserved(c.name) && c.name in classes[c.owner].members
    && classes[c.owner].members[c.name] == SymbolRef(ClassOrModule, id)
  }

  const ROOT_CLASS: nat := 3

  ghost predicate ClassesAreMembers(classes: seq<ClassData>) {
    forall id: nat :: ROOT_CLASS < id < |classes| ==> ClassIsMember(classes, id)
  }

  /** A method, field or type member is deleted or is what its owner knows under its name. */
  ghost predicate LeafIsMember(classes: seq<ClassData>, kind: Kind, leaf: Leaf, id: nat, deleted: Leaf) {
    leaf == deleted ||
    (&& leaf.owner < |classes|
     && leaf.name in classes[leaf.owner].members
     && classes[leaf.owner].members[leaf.name] == SymbolRef(kind, id))
  }

  ghost predicate LeavesAreMembers(classes: seq<ClassData>, kind: Kind, leaves: seq<Leaf>) {
    |leaves| > 0 && forall id: nat :: id < |leaves| ==> LeafIsMember(classes, kind, leaves[id], id, leaves[0])
  }

  ghost predicate ClassBelow(data: ClassData, o: Offsets) {
    data.owner < o.classes && forall j :: 0 <= j < |data.typeMembers| ==> data.typeMembers[j] < o.typeMembers
  }

  ghost predicate OwnersBelow(leaves: seq<Leaf>, count: nat, classes: nat) {
    count <= |leaves| && forall i :: 0 <= i < count ==> leaves[i].owner < classes
  }

  /** No symbol below the sizes `o` has an owner, and no class there lists a type member, at or above them. */
  ghost predicate Closed(s: Symbols, o: Offsets) {
    && o.classes <= |s.classes|
    && (forall i :: 0 <= i < o.classes ==> ClassBelow(s.classes[i], o))
    && OwnersBelow(s.methods, o.methods, o.classes)
    && OwnersBelow(s.fields, o.fields, o.classes)
    && OwnersBelow(s.typeMembers, o.typeMembers, o.classes)
  }

  ghost predicate OffsetsOk(s: Symbols) {
    && |s.offsets| > 0
    && (forall k :: 0 <= k < |s.offsets| ==> Offsets(1, 1, 1, 1).AtMost(s.offsets[k]))
    && (forall j, k :: 0 <= j <= k < |s.offsets| ==> s.offsets[j].AtMost(s.offsets[k]))
    && (forall k :: 0 <= k < |s.offsets| ==> s.offsets[k].AtMost(s.Sizes()))
  }

  /** Class `i` lists type members of its own only, none of them deleted, each once. */
  ghost predicate ListsItsOwn(classes: seq<ClassData>, leaves: seq<Leaf>, i: nat)
    requires i < |classes| && |leaves| > 0
  {
    var list := classes[i].typeMembers;
    NoRepeats(list) &&
    forall j :: 0 <= j < |list| ==>
      list[j] < |leaves| && leaves[list[j]].owner == i && (list[j] != 0 ==> leaves[list[j]] != leaves[0])
  }

  /** A type member that is not deleted is in the list of its owner. */
  ghost predicate IsListed(classes: seq<ClassData>, leaf: Leaf, id: nat) {
    leaf.owner < |classes| && id in classes[leaf.owner].typeMembers
  }

  ghost predicate TypeMembersListed(classes: seq<ClassData>, leaves: seq<Leaf>) {
    && |leaves| > 0 && leaves[0].owner == 0
    && (forall i: nat :: i < |classes| ==> ListsItsOwn(classes, leaves, i))
    && (forall id: nat :: id < |leaves| && leaves[id] != leaves[0] ==> IsListed(classes, leaves[id], id))
  }

  /** Everything that refers to a symbol refers to the right one, and the type member lists are complete. */
  ghost predicate Inv(s: Symbols) {
    Coherent(s) && TypeMembersListed(s.classes, s.typeMembers)
  }

  /** The tables as a whole are closed, and so is every contiguous stratum prefix. */
  ghost predicate Coherent(s: Symbols) {
    && OffsetsOk(s)
    && MembersResolve(s) && NamesEntered(s) && ClassesAreMembers(s.classes)
    && LeavesAreMembers(s.classes, Method, s.methods)
    && LeavesAreMembers(s.classes, Field, s.fields)
    && LeavesAreMembers(s.classes, TypeMember, s.typeMembers)
    && Closed(s, s.Sizes())
    && forall k :: 1 <= k <= s.Contiguous() ==> Closed(s, s.offsets[k])
  }
}
