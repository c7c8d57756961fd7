/** The interning tables behind their hash table (core/GlobalState.cc): a fast form of `Names.Tables`. */
module NameTable {
  import opened Collections
  import opened Bits
  import opened PowerOfTwo
  import opened Names
  import H = NameHash

  /** String hashing and hash mixing are a parameter: any function of a name's one-level data. */
  type Hasher = Key -> nat

  /** The most names for which the 32-bit size of the hash table is computed correctly. */
  const MAX_NAMES := 0x4000_0000

  ghost function BucketOf(t: Tables, hash: Hasher, n: NameRef): H.Bucket
    requires t.Has(n)
  {
    H.Bucket(hash(t.KeyOf(n)), RawId(n))
  }

  ghost predicate IsEntry(t: Tables, hash: Hasher, e: H.Bucket) {
    e.rawId % 4 != 0 && t.Has(FromRaw(e.rawId)) && e == BucketOf(t, hash, FromRaw(e.rawId))
  }

  /** The buckets hold exactly the names of `t`, each under the hash of its data. */
  ghost predicate Holds(entries: set<H.Bucket>, t: Tables, hash: Hasher) {
    && (forall e <- entries :: IsEntry(t, hash, e))
    && (forall n: NameRef :: t.Has(n) ==> BucketOf(t, hash, n) in entries)
    && |entries| == t.Total()
  }

  ghost predicate Indexes(buckets: seq<H.Bucket>, t: Tables, hash: Hasher) {
    H.Valid(buckets) && Holds(H.Entries(buckets), t, hash)
  }

  /** The bucket predicates `isUtf8`, `isConstant` and `isUnique`. */
  function HoldsKey(t: Tables, key: Key): nat -> bool {
    (raw: nat) => raw % 4 != 0 && t.Has(FromRaw(raw)) && t.KeyOf(FromRaw(raw)) == key
  }

  function NoBucket(): nat -> bool {
    (raw: nat) => false
  }

  /** Wherever the search stops, it has answered the question of the plain model. */
  lemma SearchAgrees(buckets: seq<H.Bucket>, t: Tables, hash: Hasher, key: Key, i: nat, b: nat)
    requires Indexes(buckets, t, hash) && t.Interned()
    requires H.StopsAt(buckets, hash(key), HoldsKey(t, key), i, b)
    ensures buckets[b].Present() <==> t.Find(key).Some?
    ensures buckets[b].Present() ==> buckets[b].rawId % 4 != 0 && t.Find(key) == Some(FromRaw(buckets[b].rawId))
  {
    if t.Find(key).Some? {
      var n := t.Find(key).value;
      var e := BucketOf(t, hash, n);
      RawIdRoundTrip(n, 0);
      forall o | o in H.Entries(buckets) && o.hash == hash(key) && HoldsKey(t, key)(o.rawId) ensures o == e {
        FindIsInverse(t, FromRaw(o.rawId));
        RawIdRoundTrip(n, o.rawId);
      }
      H.SearchFinds(buckets, hash(key), HoldsKey(t, key), i, b, e);
    } else if buckets[b].Present() {
      FindComplete(t, key);
    }
  }

  lemma AddHolds(entries: set<H.Bucket>, t: Tables, hash: Hasher, key: Key)
    requires Holds(entries, t, hash)
    ensures var e := H.Bucket(hash(key), RawId(t.Next(key.Kind())));
      Holds(entries + {e}, t.Add(key), hash) && forall o <- entries :: o.rawId != e.rawId
  {
    var id, grown := t.Next(key.Kind()), t.Add(key);
    var e := H.Bucket(hash(key), RawId(id));
    RawIdRoundTrip(id, 0);
    assert grown.KeyOf(id) == key;
    forall o | o in entries ensures o.rawId != e.rawId && IsEntry(grown, hash, o) {
      EntrySurvivesAdd(t, hash, key, o);
    }
    forall n: NameRef | grown.Has(n) ensures BucketOf(grown, hash, n) in entries + {e} {
      if n != id {
        ExtendsKeepsKeys(t, grown, n);
        assert BucketOf(t, hash, n) in entries;
      }
    }
  }

  lemma AddIndexes(buckets: seq<H.Bucket>, t: Tables, hash: Hasher, key: Key, i: nat, b: nat)
    requires Indexes(buckets, t, hash) && t.Total() + 3 <= |buckets|
    requires b < |buckets| && !buckets[b].Present() && H.AtProbe(buckets, hash(key), i, b)
    ensures Indexes(buckets[b := H.Bucket(hash(key), RawId(t.Next(key.Kind())))], t.Add(key), hash)
  {
    var e := H.Bucket(hash(key), RawId(t.Next(key.Kind())));
    AddHolds(H.Entries(buckets), t, hash, key);
    H.InsertKeepsChains(buckets, i, b, e);
    H.EntriesCount(buckets[b := e]);
  }

  lemma EntrySurvivesAdd(t: Tables, hash: Hasher, key: Key, o: H.Bucket)
    requires IsEntry(t, hash, o)
    ensures o.rawId != RawId(t.Next(key.Kind())) && IsEntry(t.Add(key), hash, o)
  {
    var n, id := FromRaw(o.rawId), t.Next(key.Kind());
    RawIdRoundTrip(id, o.rawId);
    assert n != id;
    ExtendsKeepsKeys(t, t.Add(key), n);
  }

  function Max(a: nat, b: nat): nat {
    if a < b then b else a
  }

  datatype Sizes = Sizes(utf8: nat, constants: nat, uniques: nat) {
    function Sum(): nat {
      utf8 + constants + uniques
    }
    function Of(kind: NameKind): nat {
      match kind
      case UTF8 => utf8
      case CONSTANT => constants
      case UNIQUE => uniques
    }
    function Plus(kind: NameKind): Sizes {
      match kind
      case UTF8 => this.(utf8 := utf8 + 1)
      case CONSTANT => this.(constants := constants + 1)
      case UNIQUE => this.(uniques := uniques + 1)
    }
    function Less(kind: NameKind): Sizes
      requires Of(kind) > 0
    {
      match kind
      case UTF8 => this.(utf8 := utf8 - 1)
      case CONSTANT => this.(constants := constants - 1)
      case UNIQUE => this.(uniques := uniques - 1)
    }
    function Doubled(kind: NameKind): Sizes {
      match kind
      case UTF8 => this.(utf8 := utf8 * 2)
      case CONSTANT => this.(constants := constants * 2)
      case UNIQUE => this.(uniques := uniques * 2)
    }
    /** `reserve` never gives space back. */
    function Joined(other: Sizes): Sizes {
      Sizes(Max(utf8, other.utf8), Max(constants, other.constants), Max(uniques, other.uniques))
    }
  }

  /** What growing by doubling can lead to while `more` names are added to the `used` ones. */
  predicate CanTake(capacity: Sizes, used: Sizes, more: Sizes) {
    && Need(capacity.utf8, used.utf8, more.utf8)
     + Need(capacity.constants, used.constants, more.constants)
     + Need(capacity.uniques, used.uniques, more.uniques) <= MAX_NAMES
  }

  function Need(capacity: nat, used: nat, more: nat): nat {
    Max(capacity, 2 * (used + more))
  }

  /**
   * The hash table has two buckets more than there can be names, and would still have if every name table grew to a
   * quarter of it.
   */
  predicate Spare(capacity: Sizes, size: nat) {
    Max(capacity.utf8, size / 4) + Max(capacity.constants, size / 4) + Max(capacity.uniques, size / 4) + 2 <= size
  }

  function Used(t: Tables): Sizes {
    Sizes(|t.utf8|, |t.constants|, |t.uniques|)
  }

  /** The tables, the room reserved for them, and the number of buckets. */
  datatype TableShape = TableShape(tables: Tables, capacity: Sizes, size: nat) {
    /** At least half of the buckets stay empty even if every name table fills up. */
    predicate HalfEmpty() {
      2 * capacity.Sum() <= size
    }
    /** What `expandNames` makes of it. */
    function Expanded(requested: Sizes): TableShape {
      this.(capacity := capacity.Joined(requested), size := Max(size, 2 * CeilPow2(requested.Sum())))
    }
    predicate IsFull(kind: NameKind) {
      Used(tables).Of(kind) == capacity.Of(kind)
    }
    /** The growth step of the enter functions. */
    function Grown(kind: NameKind): TableShape {
      if IsFull(kind) then Expanded(capacity.Doubled(kind)) else this
    }
    function Enter(key: Key): TableShape {
      if tables.Find(key).Some? then this else Grown(key.Kind()).(tables := tables.Add(key))
    }
  }

  /** The shape of new tables. */
  function NewShape(capacity: Sizes): TableShape {
    TableShape(EMPTY_TABLES, capacity, 2 * CeilPow2(capacity.Sum()))
  }

  /** The request of `preallocateTables`, each size rounded up to a power of two. */
  function Scaled(requested: Sizes): Sizes {
    Sizes(CeilPow2(requested.utf8), CeilPow2(requested.constants), CeilPow2(requested.uniques))
  }

  /** The tables are those of the run, within their capacities, and the buckets index them. */
  ghost predicate Consistent(history: seq<Key>, t: Tables, capacity: Sizes, buckets: seq<H.Bucket>, hash: Hasher) {
    && Accepted(history) && t == Run(history)
    && |t.utf8| <= capacity.utf8 && |t.constants| <= capacity.constants && |t.uniques| <= capacity.uniques
    && 0 < capacity.utf8 && 0 < capacity.constants && 0 < capacity.uniques
    && capacity.Sum() <= MAX_NAMES
    && 8 <= |buckets| && Spare(capacity, |buckets|)
    && Indexes(buckets, t, hash)
  }

  lemma InsertIsConsistent(history: seq<Key>, t: Tables, capacity: Sizes, buckets: seq<H.Bucket>, hash: Hasher,
                           key: Key, i: nat, b: nat)
    requires Consistent(history, t, capacity, buckets, hash) && t.Enterable(key) && t.Find(key).None?
    requires Used(t).Of(key.Kind()) != capacity.Of(key.Kind())
    requires b < |buckets| && !buckets[b].Present() && H.AtProbe(buckets, hash(key), i, b)
    ensures Consistent(history + [key], t.Add(key), capacity,
                       buckets[b := H.Bucket(hash(key), RawId(t.Next(key.Kind())))], hash)
  {
    AddIndexes(buckets, t, hash, key, i, b);
    OneMoreStep(history, key);
  }

  class GlobalNames {
    const hash: Hasher
    var utf8Names: seq<string>
    var constantNames: seq<NameRef>
    var uniqueNames: seq<UniqueName>
    /** The capacities of the three name vectors. */
    var capacity: Sizes
    var buckets: seq<H.Bucket>
    /** Every name ever entered, in order. */
    ghost var history: seq<Key>

    function View(): Tables
      reads this
    {
      Tables(utf8Names, constantNames, uniqueNames)
    }

    function Shape(): TableShape
      reads this
    {
      TableShape(View(), capacity, |buckets|)
    }

    ghost predicate Valid()
      reads this
    {
      Consistent(history, View(), capacity, buckets, hash)
    }

    /** Doubling the table of this kind, if it is full, stays within the size the hash table can have. */
    predicate HasRoom(kind: NameKind)
      reads this
    {
      Shape().IsFull(kind) ==> capacity.Doubled(kind).Sum() <= MAX_NAMES
    }

    /** Empty tables with reserved space, and a hash table to match. */
    constructor (hash: Hasher, utf8: nat, constants: nat, uniques: nat)
      requires 0 < utf8 && 0 < constants && 0 < uniques && utf8 + constants + uniques <= MAX_NAMES
      ensures Valid() && history == [] && this.hash == hash
      ensures Shape() == NewShape(Sizes(utf8, constants, uniques))
    {
      this.hash := hash;
      utf8Names, constantNames, uniqueNames := [], [], [];
      capacity := Sizes(utf8, constants, uniques);
      history := [];
      var size := NextPowerOfTwo(2 * (utf8 + constants + uniques));
      TwiceCeilPow2(utf8 + constants + uniques);
      SizeFits(utf8 + constants + uniques);
      HalfEmptyIsSpare(Sizes(utf8, constants, uniques), size);
      buckets := seq(size, _ => H.EMPTY);
      EmptyIndexes(size, hash);
    }

    /** The three lookups: the id of a name that has been entered. `full` stands for the exception "Full table?". */
    method Lookup(key: Key) returns (r: Option<NameRef>, full: bool)
      requires Valid()
      ensures r == View().Find(key) && !full
    {
      RunsAreWellFormed(history);
      var t := View();
      var b: nat;
      b, full := H.LookupBucket(buckets, hash(key), HoldsKey(t, key));
      ghost var i: nat :| H.StopsAt(buckets, hash(key), HoldsKey(t, key), i, b);
      SearchAgrees(buckets, t, hash, key, i, b);
      r := if !buckets[b].Present() then None else Some(FromRaw(buckets[b].rawId));
    }

    /** `expandNames`: reserve space (never giving any back), and rehash if the requested sizes need a larger table. */
    method ExpandNames(requested: Sizes)
      requires Valid()
      requires capacity.Joined(requested).Sum() <= MAX_NAMES
      requires Spare(capacity.Joined(requested), Max(|buckets|, 2 * CeilPow2(requested.Sum())))
      modifies this
      ensures Valid() && history == old(history) && Shape() == old(Shape()).Expanded(requested)
    {
      var grown := Resized(buckets, requested.Sum(), View(), hash);
      capacity := capacity.Joined(requested);
      buckets := grown;
    }

    /** The growth step of the enter functions: double the table of this kind when it is full. */
    method GrowIfFull(kind: NameKind) returns (grown: bool)
      requires Valid() && HasRoom(kind)
      modifies this
      ensures Valid() && history == old(history) && Shape() == old(Shape()).Grown(kind)
      ensures !grown ==> buckets == old(buckets)
      ensures !Shape().IsFull(kind) && grown == old(Shape().IsFull(kind))
      ensures grown ==> 2 * capacity.Sum() <= |buckets| && capacity == old(capacity).Doubled(kind)
    {
      grown := Shape().IsFull(kind);
      if grown {
        DoublingIsEnough(capacity, kind, |buckets|);
        ExpandNames(capacity.Doubled(kind));
      }
    }

    /**
     * The part of `preallocateTables` about names, which may come at any time, as often as one likes. Half of the
     * buckets are spare afterwards exactly if what is then reserved fits into half of the table there was, or into the
     * power of two that the requests alone call for.
     */
    method PreallocateTables(utf8: nat, constants: nat, uniques: nat)
      requires Valid() && utf8 <= MAX_NAMES && constants <= MAX_NAMES && uniques <= MAX_NAMES
      requires capacity.Joined(Scaled(Sizes(utf8, constants, uniques))).Sum() <= MAX_NAMES
      modifies this
      ensures Valid() && history == old(history)
      ensures Shape() == old(Shape()).Expanded(Scaled(Sizes(utf8, constants, uniques)))
      ensures Shape().HalfEmpty() <==>
        var requested := Scaled(Sizes(utf8, constants, uniques));
        old(capacity).Joined(requested).Sum() <= Max(old(|buckets|) / 2, CeilPow2(requested.Sum()))
      ensures utf8 <= capacity.utf8 && constants <= capacity.constants && uniques <= capacity.uniques
    {
      CeilPow2IsLeast(utf8);
      CeilPow2IsLeast(constants);
      CeilPow2IsLeast(uniques);
      var utf8Scaled := NextPowerOfTwo(utf8);
      var constantsScaled := NextPowerOfTwo(constants);
      var uniquesScaled := NextPowerOfTwo(uniques);
      ReservingIsSpare(capacity, Sizes(utf8Scaled, constantsScaled, uniquesScaled), |buckets|);
      ReservingKeepsHalfIff(Shape(), Sizes(utf8Scaled, constantsScaled, uniquesScaled));
      ExpandNames(Sizes(utf8Scaled, constantsScaled, uniquesScaled));
    }

    /** Write a new name into its table and into the empty bucket found for it. */
    method Insert(key: Key, b: nat, ghost i: nat) returns (id: NameRef)
      requires Valid() && View().Enterable(key) && View().Find(key).None?
      requires !Shape().IsFull(key.Kind())
      requires b < |buckets| && !buckets[b].Present() && H.AtProbe(buckets, hash(key), i, b)
      modifies this
      ensures Valid()
      ensures (View(), id) == old(View()).Enter(key)
      ensures history == old(history) + [key]
      ensures id.index <= MAX_ID
      ensures capacity == old(capacity) && |buckets| == old(|buckets|)
    {
      InsertIsConsistent(history, View(), capacity, buckets, hash, key, i, b);
      id := View().Next(key.Kind());
      buckets := buckets[b := H.Bucket(hash(key), RawId(id))];
      match key {
        case KUtf8(text) => utf8Names := utf8Names + [text];
        case KConstant(original) => constantNames := constantNames + [original];
        case KUnique(unique) => uniqueNames := uniqueNames + [unique];
      }
      history := history + [key];
    }

    /** As `Enter`, where there is known to be room for `more` names in all. */
    method Take(key: Key, ghost more: Sizes) returns (id: NameRef)
      requires Valid() && View().Enterable(key)
      requires more.Of(key.Kind()) > 0 && CanTake(capacity, Used(View()), more)
      modifies this
      ensures Valid()
      ensures (View(), id) == old(View()).Enter(key)
      ensures CanTake(capacity, Used(View()), more.Less(key.Kind()))
    {
      TakeShape(Shape(), key, more);
      var full: bool;
      id, full := Enter(key);
    }

    /** `enterNameUTF8`, `enterNameConstant` and `freshNameUnique`, which differ only in the table they use. */
    method Enter(key: Key) returns (id: NameRef, full: bool)
      requires Valid() && View().Enterable(key)
      requires View().Find(key).None? ==> HasRoom(key.Kind())
      modifies this
      ensures Valid()
      ensures (View(), id) == old(View()).Enter(key)
      ensures history == old(history) + [key]
      ensures id.index <= MAX_ID && !full
      ensures Shape() == old(Shape()).Enter(key)
    {
      RunsAreWellFormed(history);
      var t := View();
      var b: nat;
      b, full := H.LookupBucket(buckets, hash(key), HoldsKey(t, key));
      ghost var i: nat :| H.StopsAt(buckets, hash(key), HoldsKey(t, key), i, b);
      SearchAgrees(buckets, t, hash, key, i, b);
      if buckets[b].Present() {
        OneMoreStep(history, key);
        history := history + [key];
        return FromRaw(buckets[b].rawId), full;
      }
      var grown := GrowIfFull(key.Kind());
      if grown {
        b, full := H.LookupBucket(buckets, hash(key), NoBucket());
        i :| H.StopsAt(buckets, hash(key), NoBucket(), i, b);
      }
      id := Insert(key, b, i);
    }
  }

  lemma PowersOfTwoDouble(m: nat, n: nat)
    requires IsPow2(m) && IsPow2(n) && m < n
    ensures 2 * m <= n
  {
    var j: nat, k: nat :| m == Pow2(j) && n == Pow2(k);
    if k <= j { Pow2Monotone(k, j); }
    Pow2Monotone(j + 1, k);
  }

  lemma QuarterOfPow2(size: nat)
    requires IsPow2(size) && 8 <= size
    ensures size == 4 * (size / 4) && 2 <= size / 4 && IsPow2(size / 4)
  {
    var k: nat :| size == Pow2(k);
    if k >= 2 {
      var q := Pow2(k - 2);
      assert Pow2(k - 1) == 2 * q && size == 4 * q && size / 4 == q;
    }
  }

  lemma HalfEmptyIsSpare(capacity: Sizes, size: nat)
    requires IsPow2(size) && 8 <= size && 2 * capacity.Sum() <= size
    requires 0 < capacity.utf8 && 0 < capacity.constants && 0 < capacity.uniques
    ensures Spare(capacity, size)
  {
    QuarterOfPow2(size);
  }

  /** After doubling one capacity and asking for all three, half of the buckets are spare again. */
  lemma DoublingIsEnough(present: Sizes, kind: NameKind, size: nat)
    requires IsPow2(size) && 8 <= size && 0 < present.utf8 && 0 < present.constants && 0 < present.uniques
    ensures present.Joined(present.Doubled(kind)) == present.Doubled(kind)
    ensures 2 * present.Doubled(kind).Sum() <= Max(size, 2 * CeilPow2(present.Doubled(kind).Sum()))
    ensures Spare(present.Doubled(kind), Max(size, 2 * CeilPow2(present.Doubled(kind).Sum())))
  {
    var names := present.Doubled(kind).Sum();
    H.TwiceIsPow2(names);
    HalfEmptyIsSpare(present.Doubled(kind), Max(size, 2 * CeilPow2(names)));
  }

  /** No power of two in a sum with two other numbers is more than half of the power of two the sum fits under. */
  lemma PowerInSum(power: nat, others: nat)
    requires IsPow2(power) && 0 < others
    ensures 2 * power <= CeilPow2(power + others)
  {
    CeilPow2IsLeast(power + others);
    PowersOfTwoDouble(power, CeilPow2(power + others));
  }

  /** When a request leaves half of the buckets spare, in terms of what was there before. */
  lemma ReservingKeepsHalfIff(shape: TableShape, requested: Sizes)
    requires IsPow2(shape.size) && 8 <= shape.size
    ensures shape.Expanded(requested).HalfEmpty() <==>
      shape.capacity.Joined(requested).Sum() <= Max(shape.size / 2, CeilPow2(requested.Sum()))
  {
    QuarterOfPow2(shape.size);
  }

  /** So it does if every request is at least the present capacity, and if none is more. */
  lemma ReservingAllKeepsHalf(shape: TableShape, requested: Sizes)
    requires IsPow2(shape.size) && 8 <= shape.size
    ensures shape.capacity.Joined(requested) == requested ==> shape.Expanded(requested).HalfEmpty()
    ensures shape.capacity.Joined(requested) == shape.capacity && shape.HalfEmpty() ==>
      shape.Expanded(requested).HalfEmpty()
  {
    ReservingKeepsHalfIff(shape, requested);
    CeilPow2IsLeast(requested.Sum());
  }

  /** Reserving powers of two of each kind leaves spare buckets, though not always half of them. */
  lemma ReservingIsSpare(present: Sizes, requested: Sizes, size: nat)
    requires IsPow2(size) && 8 <= size && Spare(present, size)
    requires IsPow2(requested.utf8) && IsPow2(requested.constants) && IsPow2(requested.uniques)
    ensures Spare(present.Joined(requested), Max(size, 2 * CeilPow2(requested.Sum())))
  {
    var needed := 2 * CeilPow2(requested.Sum());
    H.TwiceIsPow2(requested.Sum());
    PowerInSum(requested.utf8, requested.constants + requested.uniques);
    PowerInSum(requested.constants, requested.utf8 + requested.uniques);
    PowerInSum(requested.uniques, requested.utf8 + requested.constants);
    QuarterOfPow2(size);
    QuarterOfPow2(Max(size, needed));
    if size < needed { PowersOfTwoDouble(size, needed); }
    SpareStays(present, requested, size / 4, Max(size, needed) / 4);
  }

  lemma SpareStays(present: Sizes, requested: Sizes, before: nat, after: nat)
    requires Max(present.utf8, before) + Max(present.constants, before) + Max(present.uniques, before) + 2 <= 4 * before
    requires after == before || 2 * before <= after
    requires requested.utf8 <= after && requested.constants <= after && requested.uniques <= after && 2 <= after
    ensures var joined := present.Joined(requested);
      Max(joined.utf8, after) + Max(joined.constants, after) + Max(joined.uniques, after) + 2 <= 4 * after
  {
  }

  /** Taking one of the names, doubling first if the vector is full, never needs more than before. */
  lemma NeedFalls(capacity: nat, used: nat, more: nat)
    requires more > 0
    ensures Need(capacity, used, more - 1) <= Need(capacity, used, more)
    ensures Need(capacity, used + 1, more - 1) == Need(capacity, used, more)
    ensures used == capacity ==> capacity * 2 <= Need(capacity * 2, used + 1, more - 1) == Need(capacity, used, more)
  {
  }

  lemma TakeOne(capacity: Sizes, used: Sizes, more: Sizes, kind: NameKind)
    requires CanTake(capacity, used, more) && more.Of(kind) > 0
    ensures CanTake(capacity, used, more.Less(kind)) && CanTake(capacity, used.Plus(kind), more.Less(kind))
    ensures used.Of(kind) == capacity.Of(kind) ==>
      capacity.Doubled(kind).Sum() <= MAX_NAMES && CanTake(capacity.Doubled(kind), used.Plus(kind), more.Less(kind))
  {
    match kind
    case UTF8 => NeedFalls(capacity.utf8, used.utf8, more.utf8);
    case CONSTANT => NeedFalls(capacity.constants, used.constants, more.constants);
    case UNIQUE => NeedFalls(capacity.uniques, used.uniques, more.uniques);
  }

  /** Entering one of the names that fit leaves room for the others. */
  lemma TakeShape(shape: TableShape, key: Key, more: Sizes)
    requires more.Of(key.Kind()) > 0 && CanTake(shape.capacity, Used(shape.tables), more)
    ensures shape.IsFull(key.Kind()) ==> shape.capacity.Doubled(key.Kind()).Sum() <= MAX_NAMES
    ensures var after := shape.Enter(key);
      CanTake(after.capacity, Used(after.tables), more.Less(key.Kind()))
  {
    TakeOne(shape.capacity, Used(shape.tables), more, key.Kind());
    EnterUses(shape.tables, key);
    DoubledIsMore(shape.capacity, key.Kind());
  }

  lemma DoubledIsMore(capacity: Sizes, kind: NameKind)
    ensures capacity.Joined(capacity.Doubled(kind)) == capacity.Doubled(kind)
  {
  }

  lemma EnterUses(t: Tables, key: Key)
    ensures Used(t.Enter(key).0) == if t.Find(key).Some? then Used(t) else Used(t).Plus(key.Kind())
  {
  }

  lemma RoundSizes()
    ensures CeilPow2(1) == 1 && CeilPow2(16384) == 16384 && CeilPow2(16386) == 32768 && CeilPow2(24576) == 32768
  {
    assert CeilPow2(16) == 16 && CeilPow2(256) == 256 && CeilPow2(4096) == 4096;
    assert CeilPow2(9) == 16 && CeilPow2(65) == 128 && CeilPow2(513) == 1024 && CeilPow2(4097) == 8192;
    assert CeilPow2(12) == 16 && CeilPow2(96) == 128 && CeilPow2(768) == 1024 && CeilPow2(6144) == 8192;
  }

  /** New tables as they are made, and then a reservation for constants: more names fit than half of the buckets. */
  method ReservingOneKindOverfills(hash: Hasher) returns (names: GlobalNames)
    ensures names.Valid() && !names.Shape().HalfEmpty()
  {
    RoundSizes();
    names := new GlobalNames(hash, 16384, 4096, 4096);
    assert names.capacity.Joined(Scaled(Sizes(1, 16384, 1))) == Sizes(16384, 16384, 4096);
    names.PreallocateTables(1, 16384, 1);
  }

  /** With sizes that are not powers of two, three reservations can leave room for more names than buckets. */
  lemma RaggedReservationsOverfill()
    ensures var requests := [Sizes(126, 1, 1), Sizes(1, 126, 1), Sizes(1, 1, 126)];
      && (forall r <- requests :: 2 * CeilPow2(r.Sum()) == 256)
      && requests[0].Joined(requests[1]).Joined(requests[2]).Sum() > 256
  {
    assert CeilPow2(8) == 8 && CeilPow2(32) == 32 && CeilPow2(128) == 128;
  }

  /** `NameHash::expandNames`: rehash into the table size for this many names if that is larger. */
  method Resized(buckets: seq<H.Bucket>, names: nat, ghost t: Tables, ghost hash: Hasher)
    returns (after: seq<H.Bucket>)
    requires Indexes(buckets, t, hash) && names <= MAX_NAMES
    ensures |after| == Max(|buckets|, 2 * CeilPow2(names)) && Indexes(after, t, hash)
  {
    H.CeilPow2Bounds(names);
    var size := NextPowerOfTwo(names);
    after := buckets;
    if 2 * size > |buckets| {
      H.TwiceIsPow2(names);
      after := H.MoveNames(buckets, 2 * size);
    }
  }

  lemma EmptyIndexes(size: nat, hash: Hasher)
    requires IsPow2(size) && size >= 4
    ensures Indexes(seq(size, _ => H.EMPTY), EMPTY_TABLES, hash)
  {
    H.EmptyTable(size);
  }

  lemma TwiceCeilPow2(n: nat)
    requires n > 0
    ensures CeilPow2(2 * n) == 2 * CeilPow2(n)
  {
  }

  /** Up to MAX_NAMES names the table size is a power of two of at least 8 that fits in 32 bits. */
  lemma SizeFits(names: nat)
    requires 2 < names <= MAX_NAMES
    ensures IsPow2(2 * CeilPow2(names)) && names <= CeilPow2(names) && 8 <= 2 * CeilPow2(names) <= 0x8000_0000
  {
    H.CeilPow2Bounds(names);
    H.TwiceIsPow2(names);
  }

  // ---------------------------------------------------------------- runs

  datatype TableOp = OpEnter(key: Key) | OpReserve(requested: Sizes)

  function StepShape(shape: TableShape, op: TableOp): TableShape {
    match op
    case OpEnter(key) => shape.Enter(key)
    case OpReserve(requested) => shape.Expanded(Scaled(requested))
  }

  function RunShape(shape: TableShape, ops: seq<TableOp>): TableShape
    decreases |ops|
  {
    if ops == [] then shape else RunShape(StepShape(shape, ops[0]), ops[1..])
  }

  /** A power of two of buckets, two of them never used, and some room for each kind of name. */
  ghost predicate Sound(shape: TableShape) {
    && IsPow2(shape.size) && 8 <= shape.size && Spare(shape.capacity, shape.size)
    && 0 < shape.capacity.utf8 && 0 < shape.capacity.constants && 0 < shape.capacity.uniques
  }

  lemma NewShapeIsSound(capacity: Sizes)
    requires 0 < capacity.utf8 && 0 < capacity.constants && 0 < capacity.uniques
    ensures Sound(NewShape(capacity)) && NewShape(capacity).HalfEmpty()
  {
    H.TwiceIsPow2(capacity.Sum());
    HalfEmptyIsSpare(capacity, 2 * CeilPow2(capacity.Sum()));
  }

  lemma GrownIsSound(shape: TableShape, kind: NameKind)
    requires Sound(shape)
    ensures Sound(shape.Grown(kind))
    ensures shape.IsFull(kind) || shape.HalfEmpty() ==> shape.Grown(kind).HalfEmpty()
  {
    DoublingIsEnough(shape.capacity, kind, shape.size);
    H.TwiceIsPow2(shape.capacity.Doubled(kind).Sum());
  }

  lemma StepIsSound(shape: TableShape, op: TableOp)
    requires Sound(shape)
    ensures Sound(StepShape(shape, op))
    ensures op.OpEnter? && shape.HalfEmpty() ==> StepShape(shape, op).HalfEmpty()
  {
    match op
    case OpEnter(key) => GrownIsSound(shape, key.Kind());
    case OpReserve(requested) => ReservedIsSound(shape, requested);
  }

  lemma ReservedIsSound(shape: TableShape, requested: Sizes)
    requires Sound(shape)
    ensures Sound(shape.Expanded(Scaled(requested)))
  {
    CeilPow2IsLeast(requested.utf8);
    CeilPow2IsLeast(requested.constants);
    CeilPow2IsLeast(requested.uniques);
    ReservingIsSpare(shape.capacity, Scaled(requested), shape.size);
    H.TwiceIsPow2(Scaled(requested).Sum());
  }

  /** In every run of entries and reservations at least two buckets stay spare. */
  lemma {:induction false} RunsStaySpare(shape: TableShape, ops: seq<TableOp>)
    requires Sound(shape)
    ensures Sound(RunShape(shape, ops))
    decreases |ops|
  {
    if ops != [] {
      StepIsSound(shape, ops[0]);
      RunsStaySpare(StepShape(shape, ops[0]), ops[1..]);
    }
  }

  /** In every run of entries alone, from new tables on, at least half of the buckets stay spare. */
  lemma EntriesKeepHalfEmpty(capacity: Sizes, ops: seq<TableOp>)
    requires 0 < capacity.utf8 && 0 < capacity.constants && 0 < capacity.uniques
    requires forall i :: 0 <= i < |ops| ==> ops[i].OpEnter?
    ensures RunShape(NewShape(capacity), ops).HalfEmpty()
  {
    NewShapeIsSound(capacity);
    EntriesKeepHalfEmptyFrom(NewShape(capacity), ops);
  }

  lemma {:induction false} EntriesKeepHalfEmptyFrom(shape: TableShape, ops: seq<TableOp>)
    requires Sound(shape) && shape.HalfEmpty() && forall i :: 0 <= i < |ops| ==> ops[i].OpEnter?
    ensures RunShape(shape, ops).HalfEmpty()
    decreases |ops|
  {
    if ops != [] {
      StepIsSound(shape, ops[0]);
      EntriesKeepHalfEmptyFrom(StepShape(shape, ops[0]), ops[1..]);
    }
  }
}
