/** Translating the names of one table into another (core/NameSubstitution.cc, core/NameSubstitution.h). */
module NameSubstitution {
  import opened Names
  import opened NameTable

  /** The three substitution vectors, filled from the front. */
  datatype Vectors = Vectors(utf8: seq<NameRef>, constants: seq<NameRef>, uniques: seq<NameRef>) {

    function Lengths(): Sizes {
      Sizes(|utf8|, |constants|, |uniques|)
    }

    predicate Covers(n: NameRef) {
      n.index < Lengths().Of(n.kind)
    }

    /** `substitute` of the eager form: a lookup that must not go past the end of a vector. */
    function Of(n: NameRef): NameRef
      requires Covers(n)
    {
      match n.kind
      case UTF8 => utf8[n.index]
      case CONSTANT => constants[n.index]
      case UNIQUE => uniques[n.index]
    }

    predicate CoversKey(key: Key) {
      match key
      case KUtf8(_) => true
      case KConstant(original) => Covers(original)
      case KUnique(unique) => Covers(unique.original)
    }

    /** The data of a name with its reference translated. */
    function Rename(key: Key): Key
      requires CoversKey(key)
    {
      match key
      case KUtf8(_) => key
      case KConstant(original) => KConstant(Of(original))
      case KUnique(unique) => KUnique(unique.(original := Of(unique.original)))
    }

    /** The first name of a kind that has not been translated. */
    function Next(kind: NameKind): NameRef {
      NameRef(kind, Lengths().Of(kind))
    }

    function Push(kind: NameKind, id: NameRef): Vectors {
      match kind
      case UTF8 => this.(utf8 := utf8 + [id])
      case CONSTANT => this.(constants := constants + [id])
      case UNIQUE => this.(uniques := uniques + [id])
    }
  }

  ghost predicate TranslatedAt(src: Tables, dst: Tables, v: Vectors, n: NameRef)
    requires v.Covers(n)
  {
    && src.Has(n)
    && v.CoversKey(src.KeyOf(n))
    && dst.Has(v.Of(n))
    && dst.KeyOf(v.Of(n)) == v.Rename(src.KeyOf(n))
  }

  /** Every vector entry is its source name with the reference translated. */
  ghost predicate Translates(src: Tables, dst: Tables, v: Vectors) {
    forall n: NameRef :: v.Covers(n) ==> TranslatedAt(src, dst, v, n)
  }

  ghost predicate Total(src: Tables, v: Vectors) {
    v.Lengths() == Used(src)
  }

  /** A translated name has the content of its source, all the way down. */
  lemma {:induction false} TranslationKeepsContent(src: Tables, dst: Tables, v: Vectors, n: NameRef, c: Content)
    requires Translates(src, dst, v) && v.Covers(n) && Denotes(src, n, c)
    ensures Denotes(dst, v.Of(n), c)
    decreases c
  {
    assert TranslatedAt(src, dst, v, n);
    match c
    case CUtf8(_) =>
    case CConstant(original) =>
      TranslationKeepsContent(src, dst, v, src.constants[n.index], original);
    case CUnique(original, _, _) =>
      TranslationKeepsContent(src, dst, v, src.uniques[n.index].original, original);
  }

  /** Two names with one translation have one content, hence are one name. */
  lemma TranslationInjective(src: Tables, dst: Tables, v: Vectors, m: NameRef, n: NameRef)
    requires WellFormed(src) && Translates(src, dst, v) && Total(src, v)
    requires src.Has(m) && src.Has(n) && v.Of(m) == v.Of(n)
    ensures m == n
  {
    var clock :| Linearized(src, clock);
    var c := EveryNameDenotes(src, clock, m);
    var d := EveryNameDenotes(src, clock, n);
    TranslationKeepsContent(src, dst, v, m, c);
    TranslationKeepsContent(src, dst, v, n, d);
    DenotesFunctional(dst, v.Of(m), c, d);
    DenotesInjective(src, m, n, c);
  }

  lemma PushKeeps(v: Vectors, kind: NameKind, id: NameRef, n: NameRef)
    ensures v.Push(kind, id).Covers(n) <==> v.Covers(n) || n == v.Next(kind)
    ensures v.Covers(n) ==> v.Push(kind, id).Of(n) == v.Of(n)
    ensures v.Push(kind, id).Of(v.Next(kind)) == id
  {
  }

  lemma PushKeepsRename(v: Vectors, kind: NameKind, id: NameRef, key: Key)
    requires v.CoversKey(key)
    ensures v.Push(kind, id).CoversKey(key) && v.Push(kind, id).Rename(key) == v.Rename(key)
  {
    match key
    case KUtf8(_) =>
    case KConstant(original) => PushKeeps(v, kind, id, original);
    case KUnique(unique) => PushKeeps(v, kind, id, unique.original);
  }

  /** Translating one more name, whose reference has been translated, into a table that grew. */
  lemma PushTranslates(src: Tables, dst: Tables, later: Tables, v: Vectors, kind: NameKind, id: NameRef)
    requires Translates(src, dst, v) && later.Extends(dst)
    requires src.Has(v.Next(kind)) && v.CoversKey(src.KeyOf(v.Next(kind)))
    requires later.Has(id) && later.KeyOf(id) == v.Rename(src.KeyOf(v.Next(kind)))
    ensures Translates(src, later, v.Push(kind, id))
  {
    forall n: NameRef | v.Push(kind, id).Covers(n) ensures TranslatedAt(src, later, v.Push(kind, id), n) {
      PushKeeps(v, kind, id, n);
      if v.Covers(n) {
        assert TranslatedAt(src, dst, v, n);
        PushKeepsRename(v, kind, id, src.KeyOf(n));
        ExtendsKeepsKeys(dst, later, v.Of(n));
      } else {
        PushKeepsRename(v, kind, id, src.KeyOf(v.Next(kind)));
      }
    }
  }

  /** A translated name is acceptable to the enter functions where its source was. */
  lemma RenameKeepsEnterable(src: Tables, dst: Tables, v: Vectors, key: Key)
    requires Translates(src, dst, v) && src.Enterable(key) && v.CoversKey(key)
    ensures dst.Enterable(v.Rename(key)) && v.Rename(key).Kind() == key.Kind()
  {
    match key
    case KUtf8(_) =>
    case KConstant(original) => assert TranslatedAt(src, dst, v, original);
    case KUnique(unique) => assert TranslatedAt(src, dst, v, unique.original);
  }

  lemma ExtendsTransitive(a: Tables, b: Tables, c: Tables)
    requires b.Extends(a) && c.Extends(b)
    ensures c.Extends(a)
  {
  }

  /** Every name of well-formed tables could be entered again. */
  lemma NamesAreEnterable(t: Tables, n: NameRef)
    requires WellFormed(t) && t.Has(n)
    ensures t.Enterable(t.KeyOf(n))
  {
    var clock :| Linearized(t, clock);
    match n.kind
    case UTF8 =>
    case CONSTANT => assert Before(t, clock, t.constants[n.index], clock.constants[n.index]);
    case UNIQUE => assert Before(t, clock, t.uniques[n.index].original, clock.uniques[n.index]);
  }

  /**
   * The hidden creation order. When the `i`-th unique name refers to constant `c`, every constant up to `c` only
   * refers to UTF8 names and to unique names before `i`.
   */
  lemma ConstantsBeforeUnique(t: Tables, i: nat, c: nat, j: nat)
    requires WellFormed(t) && i < |t.uniques| && t.uniques[i].original == NameRef(CONSTANT, c) && j <= c
    ensures c < |t.constants| && t.Has(t.constants[j])
    ensures t.constants[j].kind.UTF8? || (t.constants[j].kind.UNIQUE? && t.constants[j].index < i)
  {
    var clock :| Linearized(t, clock);
    assert Before(t, clock, t.uniques[i].original, clock.uniques[i]);
    assert Before(t, clock, t.constants[j], clock.constants[j]);
    assert t.ValidConstantName(t.constants[j]);
    if t.constants[j].kind.UNIQUE? {
      var u := t.constants[j].index;
      assert clock.uniques[u] < clock.constants[j] <= clock.constants[c] < clock.uniques[i];
    }
  }

  lemma UniquesBeforeUnique(t: Tables, i: nat)
    requires WellFormed(t) && i < |t.uniques| && t.uniques[i].original.kind.UNIQUE?
    ensures t.uniques[i].original.index < i
  {
    var clock :| Linearized(t, clock);
    assert Before(t, clock, t.uniques[i].original, clock.uniques[i]);
  }

  ghost predicate Within(v: Vectors, src: Tables) {
    |v.utf8| <= |src.utf8| && |v.constants| <= |src.constants| && |v.uniques| <= |src.uniques|
  }

  ghost function Outstanding(src: Tables, v: Vectors): Sizes
    requires Within(v, src)
  {
    Sizes(|src.utf8| - |v.utf8|, |src.constants| - |v.constants|, |src.uniques| - |v.uniques|)
  }

  lemma PushLeavesLess(src: Tables, v: Vectors, kind: NameKind, id: NameRef)
    requires Within(v, src) && src.Has(v.Next(kind))
    ensures Within(v.Push(kind, id), src) && Outstanding(src, v).Of(kind) > 0
    ensures Outstanding(src, v.Push(kind, id)) == Outstanding(src, v).Less(kind)
  {
  }

  lemma NothingTranslated(src: Tables, dst: Tables)
    ensures var v := Vectors([], [], []);
      Within(v, src) && Translates(src, dst, v) && Outstanding(src, v) == Used(src) && dst.Extends(dst)
  {
  }

  /** The eager substitution: `from` is read, `to` gains the names it lacks. */
  class Substitution {
    var vectors: Vectors

    /** The state of the constructor's loops, over the source tables and the original target tables. */
    ghost predicate Progress(src: Tables, to: GlobalNames, target: Tables)
      reads this, to
    {
      && WellFormed(src) && to.Valid()
      && to.View().Extends(target)
      && Within(vectors, src)
      && Translates(src, to.View(), vectors)
      && CanTake(to.capacity, Used(to.View()), Outstanding(src, vectors))
    }

    /** The loop bodies: translate the next name of a kind, given that its reference has been translated. */
    method Translate(src: Tables, to: GlobalNames, kind: NameKind, ghost target: Tables)
      requires Progress(src, to, target) && src.Has(vectors.Next(kind))
      requires vectors.CoversKey(src.KeyOf(vectors.Next(kind)))
      modifies this, to
      ensures Progress(src, to, target)
      ensures exists id :: vectors == old(vectors).Push(kind, id)
    {
      ghost var before := to.View();
      var n := vectors.Next(kind);
      NamesAreEnterable(src, n);
      RenameKeepsEnterable(src, before, vectors, src.KeyOf(n));
      var key := vectors.Rename(src.KeyOf(n));
      EnterAnswers(before, key);
      var id := to.Take(key, Outstanding(src, vectors));
      PushTranslates(src, before, to.View(), vectors, kind, id);
      ExtendsTransitive(target, before, to.View());
      PushLeavesLess(src, vectors, kind, id);
      vectors := vectors.Push(kind, id);
    }

    /** The interleaved loops. No loop body ever asks for a name that has not been translated yet. */
    constructor (from: GlobalNames, to: GlobalNames)
      requires from != to && from.Valid() && to.Valid()
      requires CanTake(to.capacity, Used(to.View()), Used(from.View()))
      modifies to
      ensures to.Valid() && to.View().Extends(old(to.View()))
      ensures Translates(from.View(), to.View(), vectors) && Total(from.View(), vectors)
    {
      vectors := Vectors([], [], []);
      new;
      ghost var target := to.View();
      var src := Tables(from.utf8Names, from.constantNames, from.uniqueNames);
      RunsAreWellFormed(from.history);
      NothingTranslated(src, to.View());
      TranslateAll(src, to, target);
    }

    method TranslateAll(src: Tables, to: GlobalNames, ghost target: Tables)
      requires Progress(src, to, target) && vectors == Vectors([], [], [])
      modifies this, to
      ensures Progress(src, to, target) && Total(src, vectors)
    {
      while |vectors.utf8| < |src.utf8|
        invariant Progress(src, to, target)
        invariant vectors.constants == [] && vectors.uniques == []
      {
        Translate(src, to, UTF8, target);
      }
      TranslateUniques(src, to, target);
      TranslateConstants(src, to, target);
    }

    /** The loop over the constants that are left. */
    method TranslateConstants(src: Tables, to: GlobalNames, ghost target: Tables)
      requires Progress(src, to, target) && |vectors.utf8| == |src.utf8| && |vectors.uniques| == |src.uniques|
      modifies this, to
      ensures Progress(src, to, target) && Total(src, vectors)
    {
      while |vectors.constants| < |src.constants|
        invariant Progress(src, to, target)
        invariant |vectors.utf8| == |src.utf8| && |vectors.uniques| == |src.uniques|
      {
        NamesAreEnterable(src, vectors.Next(CONSTANT));
        Translate(src, to, CONSTANT, target);
      }
    }

    /** The loop over unique names, which first catches up with the constants a unique name needs. */
    method TranslateUniques(src: Tables, to: GlobalNames, ghost target: Tables)
      requires Progress(src, to, target) && |vectors.utf8| == |src.utf8|
      modifies this, to
      ensures Progress(src, to, target) && |vectors.utf8| == |src.utf8| && |vectors.uniques| == |src.uniques|
    {
      while |vectors.uniques| < |src.uniques|
        invariant Progress(src, to, target) && |vectors.utf8| == |src.utf8|
      {
        var original := src.uniques[|vectors.uniques|].original;
        NamesAreEnterable(src, vectors.Next(UNIQUE));
        if original.kind.CONSTANT? && original.index >= |vectors.constants| {
          CatchUp(src, to, original.index, target);
        }
        if original.kind.UNIQUE? { UniquesBeforeUnique(src, |vectors.uniques|); }
        Translate(src, to, UNIQUE, target);
      }
    }

    /** The inner loop: translate the constants up to the one the next unique name refers to. */
    method CatchUp(src: Tables, to: GlobalNames, last: nat, ghost target: Tables)
      requires Progress(src, to, target) && |vectors.utf8| == |src.utf8| && |vectors.uniques| < |src.uniques|
      requires src.uniques[|vectors.uniques|].original == NameRef(CONSTANT, last) && |vectors.constants| <= last
      modifies this, to
      ensures Progress(src, to, target) && |vectors.utf8| == |src.utf8| && vectors.uniques == old(vectors.uniques)
      ensures |vectors.constants| == last + 1
    {
      while |vectors.constants| <= last
        invariant Progress(src, to, target) && |vectors.utf8| == |src.utf8|
        invariant vectors.uniques == old(vectors.uniques) && |vectors.constants| <= last + 1
      {
        ConstantsBeforeUnique(src, |vectors.uniques|, last, |vectors.constants|);
        Translate(src, to, CONSTANT, target);
      }
    }
  }
}
