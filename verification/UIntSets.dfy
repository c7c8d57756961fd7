/** Sets of small integers as bits in 32-bit words (common/UIntSet.cc, common/UIntSetForEach.h). */
module UIntSets {
  import opened Collections
  import opened Bits

  /** The items whose bits are set. */
  ghost function Items(words: seq<nat>): set<nat> {
    set x: nat | x < 32 * |words| && Bit(words[x / 32], x % 32)
  }

  ghost predicate Fits(words: seq<nat>) {
    forall i :: 0 <= i < |words| ==> words[i] < Pow2(32)
  }

  // ---------------------------------------------------------------- lowest bits

  /** `__builtin_ctz`: the number of trailing zero bits. */
  function Ctz(w: nat): (i: nat)
    requires w > 0
    ensures Bit(w, i)
  {
    if w % 2 == 1 then 0 else 1 + Ctz(w / 2)
  }

  /** `__builtin_popcount`. */
  function PopCount(w: nat): nat {
    if w == 0 then 0 else w % 2 + PopCount(w / 2)
  }

  lemma {:induction false} CtzIsLowest(w: nat, j: nat)
    requires w > 0 && Bit(w, j)
    ensures Ctz(w) <= j
    decreases j
  {
    if w % 2 == 0 { CtzIsLowest(w / 2, j - 1); }
  }

  lemma {:induction false} AndSelf(w: nat)
    ensures And(w, w) == w
  {
    if w > 0 { AndSelf(w / 2); }
  }

  lemma ClearedHalves(w: nat)
    requires w > 0
    ensures And(w, w - 1) % 2 == 0
    ensures w % 2 == 1 ==> And(w, w - 1) / 2 == w / 2
    ensures w % 2 == 0 ==> w / 2 > 0 && And(w, w - 1) / 2 == And(w / 2, w / 2 - 1)
  {
    var half := w / 2;
    AndHalves(w, w - 1);
    AndSelf(half);
    assert w % 2 == 1 ==> (w - 1) / 2 == half && (w - 1) % 2 == 0;
    assert w % 2 == 0 ==> (w - 1) / 2 == half - 1;
  }

  lemma AndHalves(a: nat, b: nat)
    ensures And(a, b) / 2 == And(a / 2, b / 2)
    ensures And(a, b) % 2 == if a % 2 == 1 && b % 2 == 1 then 1 else 0
  {
  }

  lemma {:induction false} ClearedBit(w: nat, j: nat)
    requires w > 0
    ensures Bit(And(w, w - 1), j) <==> Bit(w, j) && j != Ctz(w)
    decreases j
  {
    ClearedHalves(w);
    if j > 0 && w % 2 == 0 { ClearedBit(w / 2, j - 1); }
  }

  lemma {:induction false} ClearedCount(w: nat)
    requires w > 0
    ensures And(w, w - 1) < w && PopCount(w) == PopCount(And(w, w - 1)) + 1
  {
    ClearedHalves(w);
    if w % 2 == 0 { ClearedCount(w / 2); }
  }

  /** `w & (w - 1)` clears the lowest set bit and no other. */
  lemma ClearLowest(w: nat)
    requires w > 0
    ensures And(w, w - 1) < w && PopCount(w) == PopCount(And(w, w - 1)) + 1
    ensures forall j: nat :: Bit(And(w, w - 1), j) <==> Bit(w, j) && j != Ctz(w)
  {
    ClearedCount(w);
    forall j: nat ensures Bit(And(w, w - 1), j) <==> Bit(w, j) && j != Ctz(w) { ClearedBit(w, j); }
  }

  // ---------------------------------------------------------------- enumeration

  /** The items of one word, lowest first. */
  function VisitWord(w: nat, base: nat): seq<nat> {
    if w == 0 then [] else
      ClearLowest(w);
      [base + Ctz(w)] + VisitWord(And(w, w - 1), base)
  }

  function Visit(words: seq<nat>, base: nat): seq<nat>
    decreases |words|
  {
    if words == [] then [] else VisitWord(words[0], base) + Visit(words[1..], base + 32)
  }

  function TotalPopCount(words: seq<nat>): nat {
    if words == [] then 0 else PopCount(words[0]) + TotalPopCount(words[1..])
  }

  ghost predicate InWord(w: nat, base: nat, x: nat) {
    x >= base && Bit(w, x - base)
  }

  lemma {:induction false} VisitWordItems(w: nat, base: nat)
    ensures var v := VisitWord(w, base);
      && Ascending(v) && |v| == PopCount(w)
      && (forall x: nat :: x in v <==> InWord(w, base, x))
  {
    if w == 0 {
      forall x: nat ensures !InWord(w, base, x) {
        if x >= base { ZeroBit(x - base); }
      }
    } else {
      var rest := VisitWord(And(w, w - 1), base);
      ClearLowest(w);
      VisitWordItems(And(w, w - 1), base);
      forall i | 0 <= i < |rest| ensures base + Ctz(w) < rest[i] {
        assert rest[i] in rest;
        LowestIsFirst(w, base, rest[i]);
      }
      forall x: nat ensures x in [base + Ctz(w)] + rest <==> InWord(w, base, x) {
        LowestOrRest(w, base, x);
      }
    }
  }

  lemma LowestIsFirst(w: nat, base: nat, x: nat)
    requires w > 0 && InWord(And(w, w - 1), base, x)
    ensures base + Ctz(w) < x
  {
    ClearLowest(w);
    CtzIsLowest(w, x - base);
  }

  lemma LowestOrRest(w: nat, base: nat, x: nat)
    requires w > 0
    ensures InWord(w, base, x) <==> x == base + Ctz(w) || InWord(And(w, w - 1), base, x)
  {
    ClearLowest(w);
  }

  ghost predicate InWords(words: seq<nat>, base: nat, x: nat) {
    base <= x < base + 32 * |words| && Bit(words[(x - base) / 32], (x - base) % 32)
  }

  lemma {:induction false} VisitMembers(words: seq<nat>, base: nat, x: nat)
    requires Fits(words)
    ensures x in Visit(words, base) <==> InWords(words, base, x)
    decreases |words|
  {
    if words != [] {
      VisitWordItems(words[0], base);
      VisitMembers(words[1..], base + 32, x);
      InWordsStep(words, base, x);
    }
  }

  /** Every set bit is visited exactly once, in ascending order. */
  lemma {:induction false} VisitItems(words: seq<nat>, base: nat)
    requires Fits(words)
    ensures var v := Visit(words, base);
      && Ascending(v) && |v| == TotalPopCount(words)
      && (forall x: nat :: x in v <==> InWords(words, base, x))
    decreases |words|
  {
    forall x: nat ensures x in Visit(words, base) <==> InWords(words, base, x) { VisitMembers(words, base, x); }
    if words != [] {
      VisitItems(words[1..], base + 32);
      FirstWordComesFirst(words, base);
      JoinAscending(VisitWord(words[0], base), Visit(words[1..], base + 32));
    }
  }

  lemma FirstWordComesFirst(words: seq<nat>, base: nat)
    requires words != [] && Fits(words)
    ensures var first, rest := VisitWord(words[0], base), Visit(words[1..], base + 32);
      && Ascending(first) && |first| == PopCount(words[0])
      && forall i, j :: 0 <= i < |first| && 0 <= j < |rest| ==> first[i] < rest[j]
  {
    var first, rest := VisitWord(words[0], base), Visit(words[1..], base + 32);
    VisitWordItems(words[0], base);
    forall i, j | 0 <= i < |first| && 0 <= j < |rest| ensures first[i] < rest[j] {
      assert first[i] in first && rest[j] in rest;
      InFirstWord(words[0], base, first[i]);
      VisitMembers(words[1..], base + 32, rest[j]);
    }
  }

  lemma InFirstWord(w: nat, base: nat, x: nat)
    requires w < Pow2(32) && InWord(w, base, x)
    ensures x < base + 32
  {
    BitBelow(w, 32, x - base);
  }

  lemma JoinAscending(a: seq<nat>, b: seq<nat>)
    requires Ascending(a) && Ascending(b) && forall i, j :: 0 <= i < |a| && 0 <= j < |b| ==> a[i] < b[j]
    ensures Ascending(a + b)
  {
  }

  lemma InWordsStep(words: seq<nat>, base: nat, x: nat)
    requires words != [] && Fits(words)
    ensures InWords(words, base, x) <==>
      InWord(words[0], base, x) || InWords(words[1..], base + 32, x)
  {
    if InWord(words[0], base, x) {
      BitBelow(words[0], 32, x - base);
    }
    if x >= base + 32 {
      var y := x - base - 32;
      assert (x - base) / 32 == y / 32 + 1 && (x - base) % 32 == y % 32;
    }
  }

  /** The elements of a sequence. */
  ghost function Elements(s: seq<nat>): (r: set<nat>)
    ensures forall x :: x in r <==> x in s
  {
    if s == [] then {} else {s[0]} + Elements(s[1..])
  }

  lemma AscendingTail(s: seq<nat>)
    requires s != [] && Ascending(s)
    ensures Ascending(s[1..]) && s[0] !in s[1..]
  {
  }

  lemma {:induction false} AscendingSize(s: seq<nat>)
    requires Ascending(s)
    ensures |Elements(s)| == |s|
  {
    if s != [] {
      AscendingTail(s);
      AscendingSize(s[1..]);
      assert s[0] !in Elements(s[1..]);
    }
  }

  lemma VisitIsItems(words: seq<nat>)
    requires Fits(words)
    ensures Elements(Visit(words, 0)) == Items(words) && |Items(words)| == TotalPopCount(words)
  {
    VisitItems(words, 0);
    AscendingSize(Visit(words, 0));
    forall x: nat ensures x in Items(words) <==> InWords(words, 0, x) {}
  }

  // ---------------------------------------------------------------- the class

  class UIntSet {
    const words: array<nat>

    ghost predicate Valid()
      reads words
    {
      Fits(words[..])
    }

    ghost function Contents(): set<nat>
      reads words
    {
      Items(words[..])
    }

    constructor (size: nat)
      ensures Valid() && fresh(words) && Contents() == {} && words.Length == (size + 31) / 32
    {
      words := new nat[(size + 31) / 32](_ => 0);
      new;
      forall x: nat | x < 32 * words.Length ensures !Bit(words[x / 32], x % 32) { ZeroBit(x % 32); }
    }

    method Add(item: nat)
      requires Valid() && item < 32 * words.Length
      modifies words
      ensures Valid() && Contents() == old(Contents()) + {item}
    {
      var i, mask := item / 32, Pow2(item % 32);
      words[i] := Or(words[i], mask);
      AddBit(old(words[..]), words[..], item);
    }

    method Remove(item: nat)
      requires Valid() && item < 32 * words.Length
      modifies words
      ensures Valid() && Contents() == old(Contents()) - {item}
    {
      var i, mask := item / 32, Pow2(item % 32);
      Pow2StrictlyMonotone(item % 32, 32);
      words[i] := And(words[i], Not(32, mask));
      RemoveBit(old(words[..]), words[..], item);
    }

    method Contains(item: nat) returns (r: bool)
      requires Valid() && item < 32 * words.Length
      ensures r <==> item in Contents()
    {
      var w, mask := words[item / 32], Pow2(item % 32);
      r := And(w, mask) > 0;
      TestBit(w, item % 32);
    }

    method AddAll(other: UIntSet)
      requires Valid() && other.Valid() && words.Length == other.words.Length
      modifies words
      ensures Valid() && Contents() == old(Contents()) + old(other.Contents())
    {
      for i := 0 to words.Length
        invariant forall j :: 0 <= j < i ==> words[j] == Or(old(words[j]), old(other.words[j]))
        invariant forall j :: i <= j < words.Length ==> words[j] == old(words[j])
        invariant forall j :: i <= j < words.Length ==> other.words[j] == old(other.words[j])
      {
        words[i] := Or(words[i], other.words[i]);
      }
      OrWords(old(words[..]), old(other.words[..]), words[..]);
    }

    method RemoveAll(other: UIntSet)
      requires Valid() && other.Valid() && words.Length == other.words.Length
      modifies words
      ensures Valid() && Contents() == old(Contents()) - old(other.Contents())
    {
      ghost var mine, theirs := words[..], other.words[..];
      for i := 0 to words.Length
        invariant forall j :: 0 <= j < i ==> words[j] == And(mine[j], Not(32, theirs[j]))
        invariant forall j :: i <= j < words.Length ==> words[j] == mine[j] && other.words[j] == theirs[j]
      {
        words[i] := And(words[i], Not(32, other.words[i]));
      }
      AndNotWords(mine, theirs, words[..]);
    }

    method Intersect(other: UIntSet)
      requires Valid() && other.Valid() && words.Length == other.words.Length
      modifies words
      ensures Valid() && Contents() == old(Contents()) * old(other.Contents())
    {
      for i := 0 to words.Length
        invariant forall j :: 0 <= j < i ==> words[j] == And(old(words[j]), old(other.words[j]))
        invariant forall j :: i <= j < words.Length ==> words[j] == old(words[j])
        invariant forall j :: i <= j < words.Length ==> other.words[j] == old(other.words[j])
      {
        words[i] := And(words[i], other.words[i]);
      }
      AndWords(old(words[..]), old(other.words[..]), words[..]);
    }

    method OverwriteWithUnion(a: UIntSet, b: UIntSet)
      requires a.Valid() && b.Valid() && words.Length == a.words.Length == b.words.Length
      modifies words
      ensures Valid() && Contents() == old(a.Contents()) + old(b.Contents())
    {
      for i := 0 to words.Length
        invariant forall j :: 0 <= j < i ==> words[j] == Or(old(a.words[j]), old(b.words[j]))
        invariant forall j :: i <= j < words.Length ==> a.words[j] == old(a.words[j])
        invariant forall j :: i <= j < words.Length ==> b.words[j] == old(b.words[j])
      {
        words[i] := Or(a.words[i], b.words[i]);
      }
      OrWords(old(a.words[..]), old(b.words[..]), words[..]);
    }

    method Empty() returns (r: bool)
      requires Valid()
      ensures r <==> Contents() == {}
    {
      for i := 0 to words.Length
        invariant forall j :: 0 <= j < i ==> words[j] == 0
      {
        if words[i] > 0 {
          BitBelow(words[i], 32, Ctz(words[i]));
          assert 32 * i + Ctz(words[i]) in Contents() by {
            assert (32 * i + Ctz(words[i])) / 32 == i && (32 * i + Ctz(words[i])) % 32 == Ctz(words[i]);
          }
          return false;
        }
      }
      forall x: nat | x < 32 * words.Length ensures !Bit(words[x / 32], x % 32) { ZeroBit(x % 32); }
      return true;
    }

    method Size() returns (sz: nat)
      requires Valid()
      ensures sz == |Contents()|
    {
      sz := 0;
      for i := 0 to words.Length
        invariant sz + TotalPopCount(words[i..]) == TotalPopCount(words[..])
      {
        assert words[i..][1..] == words[i + 1..];
        sz := sz + PopCount(words[i]);
      }
      VisitIsItems(words[..]);
    }

    /** `forEach`: the items in the order in which the callback sees them. */
    method ForEach() returns (visited: seq<nat>)
      requires Valid()
      ensures Ascending(visited) && Elements(visited) == Contents()
    {
      visited := [];
      var base := 0;
      for i := 0 to words.Length
        invariant base == 32 * i
        invariant visited + Visit(words[i..], base) == Visit(words[..], 0)
      {
        assert words[i..][1..] == words[i + 1..];
        var items := ForEachInWord(words[i], base);
        ghost var rest := Visit(words[i + 1..], base + 32);
        assert visited + (items + rest) == (visited + items) + rest;
        visited := visited + items;
        base := base + 32;
      }
      assert words[words.Length..] == [];
      assert visited == Visit(words[..], 0);
      VisitIsItems(words[..]);
      VisitItems(words[..], 0);
    }
  }

  /** The inner loop of `forEach`. */
  method ForEachInWord(word: nat, base: nat) returns (visited: seq<nat>)
    ensures visited == VisitWord(word, base)
  {
    visited := [];
    var entry := word;
    while entry != 0
      invariant visited + VisitWord(entry, base) == VisitWord(word, base)
    {
      ClearLowest(entry);
      var bit := Ctz(entry);
      visited := visited + [base + bit];
      entry := And(entry, entry - 1);
    }
  }

  // ---------------------------------------------------------------- words to sets

  lemma OrWords(a: seq<nat>, b: seq<nat>, r: seq<nat>)
    requires |a| == |b| == |r| && Fits(a) && Fits(b) && forall j :: 0 <= j < |r| ==> r[j] == Or(a[j], b[j])
    ensures Fits(r) && Items(r) == Items(a) + Items(b)
  {
    forall j | 0 <= j < |r| ensures r[j] < Pow2(32) { OrBound(a[j], b[j], 32); }
    forall x: nat | x < 32 * |r| ensures x in Items(r) <==> x in Items(a) + Items(b) {
      OrBit(a[x / 32], b[x / 32], x % 32);
    }
  }

  lemma AndWords(a: seq<nat>, b: seq<nat>, r: seq<nat>)
    requires |a| == |b| == |r| && Fits(a) && forall j :: 0 <= j < |r| ==> r[j] == And(a[j], b[j])
    ensures Fits(r) && Items(r) == Items(a) * Items(b)
  {
    forall j | 0 <= j < |r| ensures r[j] < Pow2(32) { AndBound(a[j], b[j]); }
    forall x: nat | x < 32 * |r| ensures x in Items(r) <==> x in Items(a) * Items(b) {
      AndBit(a[x / 32], b[x / 32], x % 32);
    }
  }

  lemma AndNotWords(a: seq<nat>, b: seq<nat>, r: seq<nat>)
    requires |a| == |b| == |r| && Fits(a) && Fits(b)
    requires forall j :: 0 <= j < |r| ==> r[j] == And(a[j], Not(32, b[j]))
    ensures Fits(r) && Items(r) == Items(a) - Items(b)
  {
    forall j | 0 <= j < |r| ensures r[j] < Pow2(32) { AndBound(a[j], Not(32, b[j])); }
    forall x: nat | x < 32 * |r| ensures x in Items(r) <==> x in Items(a) - Items(b) {
      AndBit(a[x / 32], Not(32, b[x / 32]), x % 32);
      NotBit(32, b[x / 32], x % 32);
    }
  }

  lemma AddBit(before: seq<nat>, after: seq<nat>, item: nat)
    requires Fits(before) && item < 32 * |before|
    requires after == before[item / 32 := Or(before[item / 32], Pow2(item % 32))]
    ensures Fits(after) && Items(after) == Items(before) + {item}
  {
    Pow2StrictlyMonotone(item % 32, 32);
    OrBound(before[item / 32], Pow2(item % 32), 32);
    forall x: nat | x < 32 * |before| ensures Bit(after[x / 32], x % 32) <==> Bit(before[x / 32], x % 32) || x == item {
      SamePlace(x, item);
      if x / 32 == item / 32 { SetBit(before[item / 32], item % 32, x % 32); }
    }
  }

  /** Items are the same exactly if word and bit are. */
  lemma SamePlace(x: nat, y: nat)
    ensures x == y <==> x / 32 == y / 32 && x % 32 == y % 32
  {
  }

  lemma SetBit(w: nat, i: nat, j: nat)
    ensures Bit(Or(w, Pow2(i)), j) <==> Bit(w, j) || j == i
  {
    OrBit(w, Pow2(i), j);
    Pow2Bit(i, j);
  }

  lemma ResetBit(w: nat, i: nat, j: nat)
    requires Pow2(i) < Pow2(32) && j < 32
    ensures Bit(And(w, Not(32, Pow2(i))), j) <==> Bit(w, j) && j != i
  {
    AndBit(w, Not(32, Pow2(i)), j);
    NotBit(32, Pow2(i), j);
    Pow2Bit(i, j);
  }

  lemma RemoveBit(before: seq<nat>, after: seq<nat>, item: nat)
    requires Fits(before) && item < 32 * |before| && Pow2(item % 32) < Pow2(32)
    requires after == before[item / 32 := And(before[item / 32], Not(32, Pow2(item % 32)))]
    ensures Fits(after) && Items(after) == Items(before) - {item}
  {
    AndBound(before[item / 32], Not(32, Pow2(item % 32)));
    forall x: nat | x < 32 * |before| ensures Bit(after[x / 32], x % 32) <==> Bit(before[x / 32], x % 32) && x != item {
      SamePlace(x, item);
      if x / 32 == item / 32 { ResetBit(before[item / 32], item % 32, x % 32); }
    }
  }

  lemma TestBit(w: nat, i: nat)
    ensures And(w, Pow2(i)) > 0 <==> Bit(w, i)
  {
    AndBit(w, Pow2(i), i);
    Pow2Bit(i, i);
    if And(w, Pow2(i)) > 0 {
      var j := Ctz(And(w, Pow2(i)));
      AndBit(w, Pow2(i), j);
      Pow2Bit(i, j);
    } else {
      ZeroBit(i);
    }
  }
}
