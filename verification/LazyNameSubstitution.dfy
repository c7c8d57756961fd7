/** Translating names one at a time, on demand, with a memo (core/NameSubstitution.cc, core/NameSubstitution.h). */
module LazyNameSubstitution {
  import opened Collections
  import opened Names
  import opened NameTable
  import opened NameSubstitution

  ghost predicate SameContent(src: Tables, n: NameRef, dst: Tables, m: NameRef) {
    dst.Has(m) && forall c: Content :: Denotes(src, n, c) ==> Denotes(dst, m, c)
  }

  /** The names of one kind, and those among `keys`. */
  ghost function AllOf(kind: NameKind, size: nat): (s: set<NameRef>)
    ensures forall n: NameRef :: n in s <==> n.kind == kind && n.index < size
  {
    if size == 0 then {} else AllOf(kind, size - 1) + {NameRef(kind, size - 1)}
  }

  ghost function KeysOf(kind: NameKind, keys: set<NameRef>): set<NameRef> {
    set n <- keys | n.kind == kind
  }

  lemma {:induction false} AllOfSize(kind: NameKind, size: nat)
    ensures |AllOf(kind, size)| == size
  {
    if size > 0 { AllOfSize(kind, size - 1); }
  }

  lemma KeysFit(src: Tables, keys: set<NameRef>, kind: NameKind)
    requires forall n <- keys :: src.Has(n)
    ensures |KeysOf(kind, keys)| <= src.Size(kind)
    ensures forall n: NameRef :: src.Has(n) && n.kind == kind && n !in keys ==> |KeysOf(kind, keys)| < src.Size(kind)
  {
    var all := AllOf(kind, src.Size(kind));
    forall n | n in KeysOf(kind, keys) ensures n in all {
      assert src.Has(n);
    }
    AllOfSize(kind, src.Size(kind));
    SubsetSize(KeysOf(kind, keys), all);
    forall n: NameRef | src.Has(n) && n.kind == kind && n !in keys ensures KeysOf(kind, keys) != all {
      assert n in all;
    }
  }

  ghost function Left(src: Tables, keys: set<NameRef>, kind: NameKind): nat
    requires forall n <- keys :: src.Has(n)
  {
    KeysFit(src, keys, kind);
    src.Size(kind) - |KeysOf(kind, keys)|
  }

  /** How many names of `src` have no memo entry yet. */
  ghost function Remaining(src: Tables, keys: set<NameRef>): Sizes
    requires forall n <- keys :: src.Has(n)
  {
    Sizes(Left(src, keys, UTF8), Left(src, keys, CONSTANT), Left(src, keys, UNIQUE))
  }

  lemma RemainingAfter(src: Tables, keys: set<NameRef>, n: NameRef)
    requires (forall k <- keys :: src.Has(k)) && src.Has(n) && n !in keys
    ensures Remaining(src, keys).Of(n.kind) > 0
    ensures Remaining(src, keys + {n}) == Remaining(src, keys).Less(n.kind)
  {
    KeysFit(src, keys, n.kind);
    assert KeysOf(n.kind, keys + {n}) == KeysOf(n.kind, keys) + {n};
    forall kind: NameKind | kind != n.kind ensures KeysOf(kind, keys + {n}) == KeysOf(kind, keys) {}
  }

  lemma SameContentStable(src: Tables, n: NameRef, dst: Tables, later: Tables, m: NameRef)
    requires SameContent(src, n, dst, m) && later.Extends(dst)
    ensures SameContent(src, n, later, m)
  {
    forall c: Content | Denotes(src, n, c) ensures Denotes(later, m, c) {
      DenotesStable(dst, later, m, c);
    }
  }

  /** The data of `n` with its reference replaced by a name `r` of the other table. */
  function Renamed(key: Key, r: NameRef): Key {
    match key
    case KUtf8(_) => key
    case KConstant(_) => KConstant(r)
    case KUnique(unique) => KUnique(unique.(original := r))
  }

  function Reference(key: Key): Option<NameRef> {
    match key
    case KUtf8(_) => None
    case KConstant(original) => Some(original)
    case KUnique(unique) => Some(unique.original)
  }

  lemma RenamedEnterable(src: Tables, n: NameRef, dst: Tables, r: NameRef)
    requires WellFormed(src) && src.Has(n)
    requires Reference(src.KeyOf(n)).Some? ==> SameContent(src, Reference(src.KeyOf(n)).value, dst, r)
    ensures dst.Enterable(Renamed(src.KeyOf(n), r)) && Renamed(src.KeyOf(n), r).Kind() == n.kind
  {
    NamesAreEnterable(src, n);
    if Reference(src.KeyOf(n)).Some? {
      var o := Reference(src.KeyOf(n)).value;
      var clock :| Linearized(src, clock);
      var c := EveryNameDenotes(src, clock, o);
      assert Denotes(dst, r, c);
    }
  }

  lemma RenamedKeepsContent(src: Tables, n: NameRef, dst: Tables, r: NameRef, m: NameRef)
    requires src.Has(n) && dst.Has(m) && dst.KeyOf(m) == Renamed(src.KeyOf(n), r)
    requires Reference(src.KeyOf(n)).Some? ==> SameContent(src, Reference(src.KeyOf(n)).value, dst, r)
    ensures SameContent(src, n, dst, m)
  {
    forall c: Content | Denotes(src, n, c) ensures Denotes(dst, m, c) {
      match c
      case CUtf8(_) =>
      case CConstant(original) => assert Denotes(dst, r, original);
      case CUnique(original, _, _) => assert Denotes(dst, r, original);
    }
  }

  /** When a name was created; references point to strictly earlier names. */
  ghost function Created(t: Tables, clock: Clock, n: NameRef): nat
    requires Linearized(t, clock) && t.Has(n)
  {
    match n.kind
    case UTF8 => 0
    case CONSTANT => clock.constants[n.index] + 1
    case UNIQUE => clock.uniques[n.index] + 1
  }

  lemma ReferenceIsEarlier(t: Tables, clock: Clock, n: NameRef)
    requires Linearized(t, clock) && t.Has(n) && Reference(t.KeyOf(n)).Some?
    ensures var o := Reference(t.KeyOf(n)).value; t.Has(o) && Created(t, clock, o) < Created(t, clock, n)
  {
    match n.kind
    case CONSTANT => assert Before(t, clock, t.constants[n.index], clock.constants[n.index]);
    case UNIQUE => assert Before(t, clock, t.uniques[n.index].original, clock.uniques[n.index]);
  }

  ghost predicate MemoAgrees(src: Tables, dst: Tables, memo: map<NameRef, NameRef>) {
    forall n <- memo :: src.Has(n) && SameContent(src, n, dst, memo[n])
  }

  lemma MemoStable(src: Tables, dst: Tables, later: Tables, memo: map<NameRef, NameRef>)
    requires MemoAgrees(src, dst, memo) && later.Extends(dst)
    ensures MemoAgrees(src, later, memo)
  {
    forall n | n in memo ensures SameContent(src, n, later, memo[n]) {
      SameContentStable(src, n, dst, later, memo[n]);
    }
  }

  /** The memo keeps its answers, and gains only names created no later than `n`. */
  ghost predicate Grows(src: Tables, clock: Clock, before: map<NameRef, NameRef>, after: map<NameRef, NameRef>,
                        n: NameRef)
    requires Linearized(src, clock) && src.Has(n)
  {
    && (forall k <- before :: k in after && after[k] == before[k])
    && (forall k <- after :: k in before || (src.Has(k) && Created(src, clock, k) <= Created(src, clock, n)))
  }

  lemma GrowsFurther(src: Tables, clock: Clock, before: map<NameRef, NameRef>, middle: map<NameRef, NameRef>,
                     n: NameRef, o: NameRef, r: NameRef)
    requires Linearized(src, clock) && src.Has(n) && src.Has(o) && Created(src, clock, o) < Created(src, clock, n)
    requires Grows(src, clock, before, middle, o) && n !in before
    ensures n !in middle && Grows(src, clock, before, middle[n := r], n)
  {
  }

  /** The substitution map holds the memo, and an entry that takes the missing name to itself. */
  ghost predicate Records(sub: map<Option<NameRef>, Option<NameRef>>, memo: map<NameRef, NameRef>) {
    && None in sub && sub[None] == None
    && forall n: NameRef :: (Some(n) in sub <==> n in memo) && (n in memo ==> sub[Some(n)] == Some(memo[n]))
  }

  lemma RecordsGain(sub: map<Option<NameRef>, Option<NameRef>>, memo: map<NameRef, NameRef>, n: NameRef, r: NameRef)
    requires Records(sub, memo)
    ensures Records(sub[Some(n) := Some(r)], memo[n := r])
  {
  }

  lemma MemoGains(src: Tables, dst: Tables, memo: map<NameRef, NameRef>, n: NameRef, r: NameRef)
    requires MemoAgrees(src, dst, memo) && src.Has(n) && SameContent(src, n, dst, r)
    ensures MemoAgrees(src, dst, memo[n := r]) && memo[n := r].Keys == memo.Keys + {n}
  {
  }

  class LazySubstitution {
    const src: Tables
    const to: GlobalNames
    var nameSubstitution: map<Option<NameRef>, Option<NameRef>>
    /** The names translated so far. */
    ghost var memo: map<NameRef, NameRef>

    ghost predicate Valid()
      reads this, to
    {
      && WellFormed(src) && to.Valid() && Records(nameSubstitution, memo)
      && MemoAgrees(src, to.View(), memo)
      && CanTake(to.capacity, Used(to.View()), Remaining(src, memo.Keys))
    }

    constructor (from: GlobalNames, to: GlobalNames)
      requires from != to && from.Valid() && to.Valid()
      requires CanTake(to.capacity, Used(to.View()), Used(from.View()))
      ensures Valid() && src == from.View() && this.to == to && memo == map[]
    {
      this.src := Tables(from.utf8Names, from.constantNames, from.uniqueNames);
      this.to := to;
      nameSubstitution, memo := map[None := None], map[];
      RunsAreWellFormed(from.history);
      new;
      assert KeysOf(UTF8, {}) == {} && KeysOf(CONSTANT, {}) == {} && KeysOf(UNIQUE, {}) == {};
    }

    /** `substitute`: from the memo, or by defining the name; recursion follows creation order. */
    method Substitute(from: Option<NameRef>, ghost clock: Clock) returns (r: Option<NameRef>)
      requires Valid() && Linearized(src, clock) && (from.Some? ==> src.Has(from.value))
      modifies this, to
      ensures Valid() && to.View().Extends(old(to.View()))
      ensures from.None? ==> r.None? && memo == old(memo) && to.View() == old(to.View())
      ensures from.Some? ==> Answers(clock, old(memo), from.value, r)
      decreases if from.Some? then Created(src, clock, from.value) else 0, 1
    {
      if from in nameSubstitution {
        return nameSubstitution[from];
      }
      var defined := DefineName(from.value, clock);
      r := Some(defined);
    }

    /** `r` is a name of the same content, and is remembered; earlier answers are kept. */
    ghost predicate Answers(clock: Clock, before: map<NameRef, NameRef>, n: NameRef, r: Option<NameRef>)
      requires Linearized(src, clock) && src.Has(n)
      reads this, to
    {
      && r.Some? && n in memo && memo[n] == r.value && SameContent(src, n, to.View(), r.value)
      && Grows(src, clock, before, memo, n)
    }

    method DefineName(n: NameRef, ghost clock: Clock) returns (r: NameRef)
      requires Valid() && Linearized(src, clock) && src.Has(n) && n !in memo
      modifies this, to
      ensures Valid() && to.View().Extends(old(to.View())) && Answers(clock, old(memo), n, Some(r))
      decreases Created(src, clock, n), 0
    {
      ghost var target, memoBefore := to.View(), memo;
      if n.kind.UTF8? {
        r := Define(n, n);
      } else {
        ReferenceIsEarlier(src, clock, n);
        var o := Reference(src.KeyOf(n)).value;
        var original := Substitute(Some(o), clock);
        ghost var middle, memoMiddle := to.View(), memo;
        r := Define(n, original.value);
        ExtendsTransitive(target, middle, to.View());
        GrowsFurther(src, clock, memoBefore, memoMiddle, n, o, r);
      }
    }

    /** Enter the renamed data and remember the answer. */
    method Define(n: NameRef, original: NameRef) returns (r: NameRef)
      requires Valid() && src.Has(n) && n !in memo
      requires Reference(src.KeyOf(n)).Some? ==> SameContent(src, Reference(src.KeyOf(n)).value, to.View(), original)
      modifies this, to
      ensures Valid() && to.View().Extends(old(to.View()))
      ensures memo == old(memo)[n := r] && SameContent(src, n, to.View(), r)
    {
      ghost var before := to.View();
      var key := Renamed(src.KeyOf(n), original);
      RenamedEnterable(src, n, before, original);
      RemainingAfter(src, memo.Keys, n);
      EnterAnswers(before, key);
      r := to.Take(key, Remaining(src, memo.Keys));
      MemoStable(src, before, to.View(), memo);
      if Reference(src.KeyOf(n)).Some? {
        SameContentStable(src, Reference(src.KeyOf(n)).value, before, to.View(), original);
      }
      RenamedKeepsContent(src, n, to.View(), original, r);
      MemoGains(src, to.View(), memo, n, r);
      RecordsGain(nameSubstitution, memo, n, r);
      memo := memo[n := r];
      nameSubstitution := nameSubstitution[Some(n) := Some(r)];
    }
  }

  /** Whatever the order of requests, the lazy form answers with the very id the eager form puts in its vectors. */
  lemma LazyAgreesWithEager(src: Tables, dst: Tables, v: Vectors, n: NameRef, r: NameRef)
    requires WellFormed(src) && WellFormed(dst) && src.Has(n)
    requires Translates(src, dst, v) && Total(src, v) && SameContent(src, n, dst, r)
    ensures r == v.Of(n)
  {
    var clock :| Linearized(src, clock);
    var c := EveryNameDenotes(src, clock, n);
    TranslationKeepsContent(src, dst, v, n, c);
    DenotesInjective(dst, r, v.Of(n), c);
  }
}
