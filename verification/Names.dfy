/**
 * Interned names as a plain model: three tables that refer to each other (core/NameRef.h, core/Names.cc), searched
 * entry by entry. `NameTable` shows that the hash table behaves exactly like this.
 */
module Names {
  import opened Collections

  datatype NameKind = UTF8 | UNIQUE | CONSTANT

  datatype UniqueNameKind =
    | Desugar | Namer | MangleRename | Singleton | Overload | TypeVarName | PositionalArg | MangledKeywordArg
    | ResolverMissingClass | TEnum | Struct | Packager | DesugarCsend

  datatype NameRef = NameRef(kind: NameKind, index: nat)

  datatype UniqueName = UniqueName(original: NameRef, num: nat, kind: UniqueNameKind)

  function KindCode(kind: NameKind): nat {
    match kind
    case UTF8 => 1
    case UNIQUE => 2
    case CONSTANT => 3
  }

  const MAX_ID := 0x3FFF_FFFF

  /** The packed 32-bit id: the index above two bits of kind. */
  function RawId(n: NameRef): (raw: nat)
    ensures raw % 4 != 0
  {
    n.index * 4 + KindCode(n.kind)
  }

  function FromRaw(raw: nat): NameRef
    requires raw % 4 != 0
  {
    NameRef(if raw % 4 == 1 then UTF8 else if raw % 4 == 2 then UNIQUE else CONSTANT, raw / 4)
  }

  /** Packing loses nothing, never yields the id 0 of the missing name, and fits 32 bits exactly up to MAX_ID. */
  lemma RawIdRoundTrip(n: NameRef, raw: nat)
    ensures FromRaw(RawId(n)) == n && RawId(n) != 0
    ensures raw % 4 != 0 ==> RawId(FromRaw(raw)) == raw
    ensures n.index <= MAX_ID <==> RawId(n) < 0x1_0000_0000
  {
  }

  /** What a bucket predicate compares: the data stored for one name, one level deep. */
  datatype Key =
    | KUtf8(text: string)
    | KConstant(original: NameRef)
    | KUnique(unique: UniqueName)
  {
    function Kind(): NameKind {
      match this
      case KUtf8(_) => UTF8
      case KConstant(_) => CONSTANT
      case KUnique(_) => UNIQUE
    }
  }

  function IndexOf<T(==)>(s: seq<T>, x: T): (r: Option<nat>)
    ensures r.Some? ==> r.value < |s| && s[r.value] == x
    ensures r.None? <==> x !in s
  {
    if s == [] then None
    else if s[|s| - 1] == x then Some(|s| - 1)
    else IndexOf(s[..|s| - 1], x)
  }

  datatype Tables = Tables(utf8: seq<string>, constants: seq<NameRef>, uniques: seq<UniqueName>) {

    function Size(kind: NameKind): nat {
      match kind
      case UTF8 => |utf8|
      case CONSTANT => |constants|
      case UNIQUE => |uniques|
    }

    function Total(): nat {
      |utf8| + |constants| + |uniques|
    }

    predicate Has(n: NameRef) {
      n.index < Size(n.kind)
    }

    function KeyOf(n: NameRef): Key
      requires Has(n)
    {
      match n.kind
      case UTF8 => KUtf8(utf8[n.index])
      case CONSTANT => KConstant(constants[n.index])
      case UNIQUE => KUnique(uniques[n.index])
    }

    function Find(key: Key): (r: Option<NameRef>)
      ensures r.Some? ==> Has(r.value) && KeyOf(r.value) == key
    {
      var i := match key
        case KUtf8(text) => IndexOf(utf8, text)
        case KConstant(original) => IndexOf(constants, original)
        case KUnique(unique) => IndexOf(uniques, unique);
      if i.Some? then Some(NameRef(key.Kind(), i.value)) else None
    }

    function Add(key: Key): Tables {
      match key
      case KUtf8(text) => this.(utf8 := utf8 + [text])
      case KConstant(original) => this.(constants := constants + [original])
      case KUnique(unique) => this.(uniques := uniques + [unique])
    }

    /** The id the next new name of this kind gets. */
    function Next(kind: NameKind): NameRef {
      NameRef(kind, Size(kind))
    }

    function Enter(key: Key): (Tables, NameRef) {
      var found := Find(key);
      if found.Some? then (this, found.value) else (Add(key), Next(key.Kind()))
    }

    /** `isValidConstantName`; asking about a `DesugarCsend` name raises. */
    predicate ValidConstantName(n: NameRef)
      requires Has(n)
    {
      match n.kind
      case UTF8 => true
      case CONSTANT => false
      case UNIQUE =>
        var k := uniques[n.index].kind;
        k.ResolverMissingClass? || k.TEnum? || k.Struct? || k.Packager?
    }

    /** What the three enter functions enforce on their arguments. */
    predicate Enterable(key: Key) {
      match key
      case KUtf8(_) => true
      case KConstant(original) => Has(original) && ValidConstantName(original)
      case KUnique(unique) => Has(unique.original) && unique.num > 0
    }

    ghost predicate Interned() {
      NoRepeats(utf8) && NoRepeats(constants) && NoRepeats(uniques)
    }

    ghost predicate Extends(earlier: Tables) {
      earlier.utf8 <= utf8 && earlier.constants <= constants && earlier.uniques <= uniques
    }
  }

  const EMPTY_TABLES := Tables([], [], [])

  /** Distinct ids hold distinct data, so a search cannot pick the wrong one. */
  lemma FindIsInverse(t: Tables, n: NameRef)
    requires t.Interned() && t.Has(n)
    ensures t.Find(t.KeyOf(n)) == Some(n)
  {
  }

  lemma FindComplete(t: Tables, key: Key)
    ensures t.Find(key).None? <==> forall n: NameRef :: t.Has(n) ==> t.KeyOf(n) != key
  {
    if t.Find(key).None? {
      forall n: NameRef | t.Has(n) ensures t.KeyOf(n) != key {
      }
    } else {
      assert t.KeyOf(t.Find(key).value) == key;
    }
  }

  // ---------------------------------------------------------------- full content

  /** The whole of a name, with no ids left in it. */
  datatype Content =
    | CUtf8(text: string)
    | CConstant(original: Content)
    | CUnique(original: Content, num: nat, kind: UniqueNameKind)

  /** `n` stands for `c`, following the references of `n` through the tables. */
  ghost predicate Denotes(t: Tables, n: NameRef, c: Content)
    decreases c
  {
    t.Has(n) &&
    match c
    case CUtf8(text) => n.kind.UTF8? && t.utf8[n.index] == text
    case CConstant(original) => n.kind.CONSTANT? && Denotes(t, t.constants[n.index], original)
    case CUnique(original, num, kind) =>
      && n.kind.UNIQUE?
      && t.uniques[n.index].num == num
      && t.uniques[n.index].kind == kind
      && Denotes(t, t.uniques[n.index].original, original)
  }

  lemma {:induction false} DenotesFunctional(t: Tables, n: NameRef, c: Content, d: Content)
    requires Denotes(t, n, c) && Denotes(t, n, d)
    ensures c == d
    decreases c
  {
    match c
    case CUtf8(_) =>
    case CConstant(original) => DenotesFunctional(t, t.constants[n.index], original, d.original);
    case CUnique(original, _, _) => DenotesFunctional(t, t.uniques[n.index].original, original, d.original);
  }

  lemma {:induction false} DenotesInjective(t: Tables, m: NameRef, n: NameRef, c: Content)
    requires t.Interned() && Denotes(t, m, c) && Denotes(t, n, c)
    ensures m == n
    decreases c
  {
    match c
    case CUtf8(_) =>
    case CConstant(original) => DenotesInjective(t, t.constants[m.index], t.constants[n.index], original);
    case CUnique(original, _, _) =>
      DenotesInjective(t, t.uniques[m.index].original, t.uniques[n.index].original, original);
  }

  lemma {:induction false} DenotesStable(t: Tables, later: Tables, n: NameRef, c: Content)
    requires later.Extends(t) && Denotes(t, n, c)
    ensures Denotes(later, n, c)
    decreases c
  {
    match c
    case CUtf8(_) =>
    case CConstant(original) => DenotesStable(t, later, t.constants[n.index], original);
    case CUnique(original, _, _) => DenotesStable(t, later, t.uniques[n.index].original, original);
  }

  // ---------------------------------------------------------------- creation order

  /** When each constant and each unique name was created. UTF8 names refer to nothing and need no stamp. */
  datatype Clock = Clock(constants: seq<nat>, uniques: seq<nat>)

  /** A reference from a name created at `now` points to a name created before. */
  ghost predicate Before(t: Tables, clock: Clock, n: NameRef, now: nat)
    requires |clock.constants| == |t.constants| && |clock.uniques| == |t.uniques|
  {
    t.Has(n) &&
    match n.kind
    case UTF8 => true
    case CONSTANT => clock.constants[n.index] < now
    case UNIQUE => clock.uniques[n.index] < now
  }

  /** Names are created one after the other, and refer only to names created before them. */
  ghost predicate Linearized(t: Tables, clock: Clock) {
    && |clock.constants| == |t.constants| && |clock.uniques| == |t.uniques|
    && Ascending(clock.constants) && Ascending(clock.uniques)
    && (forall i :: 0 <= i < |t.constants| ==>
          Before(t, clock, t.constants[i], clock.constants[i]) && t.ValidConstantName(t.constants[i]))
    && (forall i :: 0 <= i < |t.uniques| ==>
          Before(t, clock, t.uniques[i].original, clock.uniques[i]) && t.uniques[i].num > 0)
  }

  ghost predicate WellFormed(t: Tables) {
    t.Interned() && exists clock :: Linearized(t, clock)
  }

  /** One past every stamp given out so far. */
  ghost function Now(clock: Clock): (now: nat)
    requires Ascending(clock.constants) && Ascending(clock.uniques)
    ensures forall i :: 0 <= i < |clock.constants| ==> clock.constants[i] < now
    ensures forall i :: 0 <= i < |clock.uniques| ==> clock.uniques[i] < now
  {
    var c := if clock.constants == [] then 0 else clock.constants[|clock.constants| - 1] + 1;
    var u := if clock.uniques == [] then 0 else clock.uniques[|clock.uniques| - 1] + 1;
    c + u
  }

  ghost function Tick(clock: Clock, key: Key): Clock
    requires Ascending(clock.constants) && Ascending(clock.uniques)
  {
    match key
    case KUtf8(_) => clock
    case KConstant(_) => clock.(constants := clock.constants + [Now(clock)])
    case KUnique(_) => clock.(uniques := clock.uniques + [Now(clock)])
  }

  lemma AddKeepsReferences(t: Tables, clock: Clock, key: Key, n: NameRef, now: nat)
    requires |clock.constants| == |t.constants| && |clock.uniques| == |t.uniques|
    requires Ascending(clock.constants) && Ascending(clock.uniques) && Before(t, clock, n, now)
    ensures Before(t.Add(key), Tick(clock, key), n, now)
    ensures t.Add(key).ValidConstantName(n) <==> t.ValidConstantName(n)
  {
  }

  lemma ReferencesAreBeforeNow(t: Tables, clock: Clock, n: NameRef)
    requires Linearized(t, clock) && t.Has(n)
    ensures Before(t, clock, n, Now(clock))
  {
  }

  lemma AppendAscending(s: seq<nat>, now: nat)
    requires Ascending(s) && forall i :: 0 <= i < |s| ==> s[i] < now
    ensures Ascending(s + [now])
  {
  }

  lemma AddLinearized(t: Tables, clock: Clock, key: Key)
    requires Linearized(t, clock) && t.Enterable(key)
    ensures Linearized(t.Add(key), Tick(clock, key))
  {
    var after, ticked, now := t.Add(key), Tick(clock, key), Now(clock);
    AppendAscending(clock.constants, now);
    AppendAscending(clock.uniques, now);
    forall i | 0 <= i < |after.constants|
      ensures Before(after, ticked, after.constants[i], ticked.constants[i])
      ensures after.ValidConstantName(after.constants[i])
    {
      if i < |t.constants| {
        AddKeepsReferences(t, clock, key, t.constants[i], clock.constants[i]);
      } else {
        ReferencesAreBeforeNow(t, clock, key.original);
        AddKeepsReferences(t, clock, key, key.original, now);
      }
    }
    forall i | 0 <= i < |after.uniques|
      ensures Before(after, ticked, after.uniques[i].original, ticked.uniques[i])
    {
      if i < |t.uniques| {
        AddKeepsReferences(t, clock, key, t.uniques[i].original, clock.uniques[i]);
      } else {
        ReferencesAreBeforeNow(t, clock, key.unique.original);
        AddKeepsReferences(t, clock, key, key.unique.original, now);
      }
    }
  }

  lemma AddKeepsInterned(t: Tables, key: Key)
    requires t.Interned() && t.Find(key).None?
    ensures t.Add(key).Interned()
  {
    AppendNew(t.utf8, if key.KUtf8? then key.text else "");
    if key.KConstant? { AppendNew(t.constants, key.original); }
    if key.KUnique? { AppendNew(t.uniques, key.unique); }
  }

  lemma AppendNew<T>(s: seq<T>, x: T)
    requires NoRepeats(s)
    ensures x !in s ==> NoRepeats(s + [x])
  {
  }

  lemma EnterAnswers(t: Tables, key: Key)
    ensures var (after, n) := t.Enter(key); after.Extends(t) && after.Has(n) && after.KeyOf(n) == key
  {
  }

  /** Entering any name keeps the tables well formed and every earlier name in place. */
  lemma EnterKeepsWellFormed(t: Tables, key: Key)
    requires WellFormed(t) && t.Enterable(key)
    ensures WellFormed(t.Enter(key).0)
  {
    if t.Find(key).None? {
      var clock :| Linearized(t, clock);
      AddLinearized(t, clock, key);
      AddKeepsInterned(t, key);
    }
  }

  /** In well-formed tables every name stands for some content. */
  lemma {:induction false} EveryNameDenotes(t: Tables, clock: Clock, n: NameRef) returns (c: Content)
    requires Linearized(t, clock) && t.Has(n)
    ensures Denotes(t, n, c)
    decreases match n.kind
      case UTF8 => 0
      case CONSTANT => clock.constants[n.index] + 1
      case UNIQUE => clock.uniques[n.index] + 1
  {
    match n.kind
    case UTF8 =>
      c := CUtf8(t.utf8[n.index]);
    case CONSTANT =>
      assert Before(t, clock, t.constants[n.index], clock.constants[n.index]);
      var original := EveryNameDenotes(t, clock, t.constants[n.index]);
      c := CConstant(original);
    case UNIQUE =>
      var u := t.uniques[n.index];
      assert Before(t, clock, u.original, clock.uniques[n.index]);
      var original := EveryNameDenotes(t, clock, u.original);
      c := CUnique(original, u.num, u.kind);
  }

  // ---------------------------------------------------------------- runs

  /** The tables after entering `keys` one after the other into empty ones. */
  function Run(keys: seq<Key>): Tables {
    if keys == [] then EMPTY_TABLES else Run(keys[..|keys| - 1]).Enter(keys[|keys| - 1]).0
  }

  /** Every entry of the run is one the enter functions accept at its time. */
  predicate Accepted(keys: seq<Key>) {
    keys == [] || (Accepted(keys[..|keys| - 1]) && Run(keys[..|keys| - 1]).Enterable(keys[|keys| - 1]))
  }

  lemma OneMoreStep(keys: seq<Key>, key: Key)
    requires Accepted(keys) && Run(keys).Enterable(key)
    ensures Accepted(keys + [key]) && Run(keys + [key]) == Run(keys).Enter(key).0
  {
    assert (keys + [key])[..|keys|] == keys;
  }

  lemma {:induction false} RunsAreWellFormed(keys: seq<Key>)
    requires Accepted(keys)
    ensures WellFormed(Run(keys))
  {
    if keys == [] {
      assert Linearized(EMPTY_TABLES, Clock([], []));
    } else {
      RunsAreWellFormed(keys[..|keys| - 1]);
      EnterKeepsWellFormed(Run(keys[..|keys| - 1]), keys[|keys| - 1]);
    }
  }

  lemma {:induction false} RunsExtend(keys: seq<Key>, n: nat)
    requires Accepted(keys) && n <= |keys|
    ensures Accepted(keys[..n]) && Run(keys).Extends(Run(keys[..n]))
  {
    if n == |keys| {
      assert keys[..n] == keys;
    } else {
      var init := keys[..|keys| - 1];
      RunsExtend(init, n);
      assert init[..n] == keys[..n];
      EnterAnswers(Run(init), keys[|keys| - 1]);
    }
  }

  /** After any run, two ids are equal exactly when they stand for the same content, and every id stands for one. */
  lemma IdsAgreeWithContents(keys: seq<Key>, m: NameRef, n: NameRef) returns (c: Content, d: Content)
    requires Accepted(keys) && Run(keys).Has(m) && Run(keys).Has(n)
    ensures Denotes(Run(keys), m, c) && Denotes(Run(keys), n, d)
    ensures m == n <==> c == d
  {
    var t := Run(keys);
    RunsAreWellFormed(keys);
    var clock :| Linearized(t, clock);
    c := EveryNameDenotes(t, clock, m);
    d := EveryNameDenotes(t, clock, n);
    if m == n { DenotesFunctional(t, m, c, d); }
    if c == d { DenotesInjective(t, m, n, c); }
  }

  /** Entering or looking up the name of an earlier step again gives the id that step gave, and adds nothing. */
  lemma ReenteringIsStable(keys: seq<Key>, i: nat)
    requires Accepted(keys) && i < |keys|
    ensures var id := Run(keys[..i]).Enter(keys[i]).1;
      && Run(keys).Enter(keys[i]) == (Run(keys), id)
      && Run(keys).Find(keys[i]) == Some(id)
  {
    var before, after, id := Run(keys[..i]), Run(keys), Run(keys[..i]).Enter(keys[i]).1;
    RunsExtend(keys, i + 1);
    assert keys[..i + 1][..i] == keys[..i];
    EnterAnswers(before, keys[i]);
    RunsAreWellFormed(keys);
    ExtendsKeepsKeys(before.Enter(keys[i]).0, after, id);
    FindIsInverse(after, id);
  }

  lemma ExtendsKeepsKeys(t: Tables, later: Tables, n: NameRef)
    requires later.Extends(t) && t.Has(n)
    ensures later.Has(n) && later.KeyOf(n) == t.KeyOf(n)
  {
  }
}
