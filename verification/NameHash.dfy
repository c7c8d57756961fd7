/** The open-addressed table from name hashes to raw name ids (core/GlobalState.h, core/GlobalState.cc). */
module NameHash {
  import opened Collections
  import opened Bits
  import opened PowerOfTwo
  import opened Probing

  /** A raw id of 0 marks an empty bucket. */
  datatype Bucket = Bucket(hash: nat, rawId: nat) {
    predicate Present() {
      rawId != 0
    }
  }

  const EMPTY := Bucket(0, 0)

  ghost function PresentSet(buckets: seq<Bucket>): (s: set<nat>) {
    set b: nat | b < |buckets| && buckets[b].Present()
  }

  ghost function Entries(buckets: seq<Bucket>): set<Bucket> {
    set b | 0 <= b < |buckets| && buckets[b].Present() :: buckets[b]
  }

  /** No raw id is stored twice. */
  ghost predicate Distinct(buckets: seq<Bucket>) {
    forall b, c :: 0 <= b < c < |buckets| && buckets[b].Present() ==> buckets[b].rawId != buckets[c].rawId
  }

  /** The first `n` probes of `hash` all meet occupied buckets. */
  ghost predicate Occupied(buckets: seq<Bucket>, hash: nat, n: nat) {
    |buckets| > 0 && forall j: nat :: j < n ==> buckets[Probe(hash, j, |buckets|)].Present()
  }

  /** Bucket `b` is the `i`-th probe of `hash`, and every earlier probe is occupied. */
  ghost predicate AtProbe(buckets: seq<Bucket>, hash: nat, i: nat, b: nat) {
    && Occupied(buckets, hash, i)
    && b == Probe(hash, i, |buckets|)
  }

  /** Every stored entry can be reached from its own hash without crossing an empty bucket. */
  ghost predicate Chained(buckets: seq<Bucket>) {
    forall b :: 0 <= b < |buckets| && buckets[b].Present() ==> exists i: nat :: AtProbe(buckets, buckets[b].hash, i, b)
  }

  /** A power-of-two table with at least two empty buckets. */
  ghost predicate Roomy(buckets: seq<Bucket>) {
    && IsPow2(|buckets|)
    && |PresentSet(buckets)| + 2 <= |buckets|
  }

  ghost predicate Valid(buckets: seq<Bucket>) {
    Roomy(buckets) && Distinct(buckets) && Chained(buckets)
  }

  /** `i` is where a search for `hash` and `pred` stops: nothing before it is empty or matches. */
  ghost predicate StopsAt(buckets: seq<Bucket>, hash: nat, pred: nat -> bool, i: nat, b: nat) {
    && AtProbe(buckets, hash, i, b)
    && (buckets[b].Present() ==> Matches(buckets[b], hash, pred))
    && forall j: nat :: j < i ==> !Matches(buckets[Probe(hash, j, |buckets|)], hash, pred)
  }

  predicate Matches(bucket: Bucket, hash: nat, pred: nat -> bool) {
    bucket.hash == hash && pred(bucket.rawId)
  }

  /** Occupied probes are different occupied buckets, so there are no more of them than entries. */
  lemma OccupiedBound(buckets: seq<Bucket>, hash: nat, n: nat)
    requires IsPow2(|buckets|) && n <= |buckets| && Occupied(buckets, hash, n)
    ensures n <= |PresentSet(buckets)|
  {
    var k: nat :| |buckets| == Pow2(k);
    ProbeSetSize(hash, n, k);
    forall b | b in ProbeSet(hash, n, |buckets|) ensures b in PresentSet(buckets) {
      ProbeSetMember(hash, n, |buckets|, b);
    }
    SubsetSize(ProbeSet(hash, n, |buckets|), PresentSet(buckets));
  }

  /**
   * `lookupBucket`; `full` stands for its exception "Full table?", which is raised when the search needs all the
   * probes there are. One empty bucket makes the search end, two make it end without the exception.
   */
  method LookupBucket(buckets: seq<Bucket>, hash: nat, pred: nat -> bool) returns (bucketId: nat, full: bool)
    requires IsPow2(|buckets|) && |PresentSet(buckets)| < |buckets|
    ensures bucketId < |buckets|
    ensures exists i: nat :: StopsAt(buckets, hash, pred, i, bucketId) && (full <==> i + 1 == |buckets|)
    ensures Roomy(buckets) ==> !full
  {
    var size := |buckets|;
    bucketId := Mask(hash, size);
    var probeCount := 1;
    while buckets[bucketId].Present()
      invariant 1 <= probeCount <= |PresentSet(buckets)| + 1
      invariant AtProbe(buckets, hash, probeCount - 1, bucketId)
      invariant forall j: nat :: j < probeCount - 1 ==> !Matches(buckets[Probe(hash, j, size)], hash, pred)
      decreases size - probeCount
    {
      if buckets[bucketId].hash == hash {
        if pred(buckets[bucketId].rawId) {
          break;
        }
      }
      assert Occupied(buckets, hash, probeCount);
      OccupiedBound(buckets, hash, probeCount);
      ProbeMoves(hash, probeCount - 1, size);
      bucketId := Mask(bucketId + probeCount, size);
      probeCount := probeCount + 1;
    }
    assert StopsAt(buckets, hash, pred, probeCount - 1, bucketId);
    full := probeCount == size;
  }

  lemma PresentSetStep(buckets: seq<Bucket>, n: nat)
    requires n < |buckets|
    ensures PresentSet(buckets[..n + 1]) == PresentSet(buckets[..n]) + (if buckets[n].Present() then {n} else {})
  {
  }

  lemma {:induction false} EntriesCountUpTo(buckets: seq<Bucket>, n: nat)
    requires Distinct(buckets) && n <= |buckets|
    ensures |Entries(buckets[..n])| == |PresentSet(buckets[..n])|
  {
    if n == 0 {
      assert Entries(buckets[..0]) == {} && PresentSet(buckets[..0]) == {};
    } else {
      EntriesCountUpTo(buckets, n - 1);
      PresentSetStep(buckets, n - 1);
      EntriesGrow(buckets, n - 1);
    }
  }

  lemma EntriesCount(buckets: seq<Bucket>)
    requires Distinct(buckets)
    ensures |Entries(buckets)| == |PresentSet(buckets)|
  {
    assert buckets[..|buckets|] == buckets;
    EntriesCountUpTo(buckets, |buckets|);
  }

  /** Filling the empty bucket where a search for its hash stopped keeps the table searchable. */
  lemma InsertKeepsChains(buckets: seq<Bucket>, i: nat, b: nat, e: Bucket)
    requires Distinct(buckets) && Chained(buckets)
    requires e.Present() && b < |buckets| && !buckets[b].Present() && AtProbe(buckets, e.hash, i, b)
    requires forall o <- Entries(buckets) :: o.rawId != e.rawId
    ensures var after := buckets[b := e];
      && Distinct(after) && Chained(after)
      && Entries(after) == Entries(buckets) + {e}
      && PresentSet(after) == PresentSet(buckets) + {b}
  {
    var after := buckets[b := e];
    forall c | 0 <= c < |after| && after[c].Present()
      ensures exists k: nat :: AtProbe(after, after[c].hash, k, c)
    {
      var k: nat;
      if c == b {
        k := i;
      } else {
        k :| AtProbe(buckets, buckets[c].hash, k, c);
      }
      assert AtProbe(after, after[c].hash, k, c);
    }
    forall c, d | 0 <= c < d < |after| && after[c].Present() ensures after[c].rawId != after[d].rawId {
      if c == b && after[d].Present() { assert after[d] in Entries(buckets); }
      if d == b { assert after[c] in Entries(buckets); }
    }
    assert e in Entries(after) by { assert after[b] == e; }
    forall x | x in Entries(buckets) ensures x in Entries(after) {
      var c :| 0 <= c < |buckets| && buckets[c].Present() && buckets[c] == x;
      assert after[c] == x;
    }
  }

  /** The inner loop of `moveNames`: the first empty bucket for `hash`. */
  method FirstEmpty(to: seq<Bucket>, hash: nat) returns (bucketId: nat)
    requires IsPow2(|to|) && |PresentSet(to)| < |to|
    ensures bucketId < |to| && !to[bucketId].Present()
    ensures exists i: nat :: AtProbe(to, hash, i, bucketId)
  {
    var szTo := |to|;
    var probe := 1;
    bucketId := Mask(hash, szTo);
    while to[bucketId].rawId != 0
      invariant 1 <= probe <= |PresentSet(to)| + 1
      invariant AtProbe(to, hash, probe - 1, bucketId)
      decreases szTo - probe
    {
      assert Occupied(to, hash, probe);
      OccupiedBound(to, hash, probe);
      ProbeMoves(hash, probe - 1, szTo);
      bucketId := Mask(bucketId + probe, szTo);
      probe := probe + 1;
    }
  }

  lemma MovedCount(from: seq<Bucket>, orig: nat, to: seq<Bucket>)
    requires orig <= |from| && Distinct(from) && Distinct(to) && Entries(to) == Entries(from[..orig])
    ensures |PresentSet(to)| <= |PresentSet(from)|
  {
    EntriesCount(from);
    EntriesCount(to);
    forall e | e in Entries(from[..orig]) ensures e in Entries(from) {
      var c :| 0 <= c < orig && from[..orig][c].Present() && from[..orig][c] == e;
      assert from[c] == e;
    }
    SubsetSize(Entries(to), Entries(from));
  }

  lemma EmptyTable(size: nat)
    ensures var t := seq(size, _ => EMPTY);
      Distinct(t) && Chained(t) && PresentSet(t) == {} && Entries(t) == {}
  {
  }

  /** Rehash into a larger table: `moveNames`. */
  method MoveNames(from: seq<Bucket>, szTo: nat) returns (to: seq<Bucket>)
    requires Distinct(from) && IsPow2(szTo) && |PresentSet(from)| + 2 <= szTo
    ensures |to| == szTo && Valid(to) && Entries(to) == Entries(from)
  {
    to := seq(szTo, _ => EMPTY);
    EmptyTable(szTo);
    assert Entries(from[..0]) == {};
    for orig := 0 to |from|
      invariant |to| == szTo && Distinct(to) && Chained(to)
      invariant Entries(to) == Entries(from[..orig])
    {
      MovedCount(from, orig, to);
      EntriesGrow(from, orig);
      if from[orig].rawId != 0 {
        var bucketId := FirstEmpty(to, from[orig].hash);
        ghost var i: nat :| AtProbe(to, from[orig].hash, i, bucketId);
        InsertKeepsChains(to, i, bucketId, from[orig]);
        to := to[bucketId := from[orig]];
      }
    }
    assert from[..|from|] == from;
    MovedCount(from, |from|, to);
  }

  lemma EntriesGrow(from: seq<Bucket>, n: nat)
    requires n < |from| && Distinct(from)
    ensures Entries(from[..n]) <= Entries(from)
    ensures Entries(from[..n + 1]) == Entries(from[..n]) + (if from[n].Present() then {from[n]} else {})
    ensures forall e <- Entries(from[..n]) :: e.rawId != from[n].rawId
  {
    var before, after := from[..n], from[..n + 1];
    forall e | e in Entries(before) ensures e in Entries(after) && e in Entries(from) {
      var c :| 0 <= c < n && before[c].Present() && before[c] == e;
      assert after[c] == e && from[c] == e;
    }
    if from[n].Present() { assert after[n] == from[n]; }
  }

  /** A search finds the entry with the given hash that satisfies a predicate no other entry satisfies. */
  lemma SearchFinds(buckets: seq<Bucket>, hash: nat, pred: nat -> bool, i: nat, b: nat, e: Bucket)
    requires Valid(buckets) && e in Entries(buckets) && e.hash == hash && pred(e.rawId)
    requires forall o <- Entries(buckets) :: o.hash == hash && pred(o.rawId) ==> o == e
    requires StopsAt(buckets, hash, pred, i, b)
    ensures buckets[b] == e
  {
    var c :| 0 <= c < |buckets| && buckets[c].Present() && buckets[c] == e;
    var k: nat :| AtProbe(buckets, hash, k, c);
    if i < k {
      assert buckets[Probe(hash, i, |buckets|)].Present();
      assert buckets[b] in Entries(buckets);
    }
  }

  /** `hashTableSize` of `expandNames`: a product of 32-bit words. */
  function HashTableSize(utf8: nat, constants: nat, uniques: nat): nat {
    2 * (CeilPow2((utf8 + constants + uniques) % WORD) % WORD) % WORD
  }

  lemma CeilPow2Bounds(n: nat)
    requires n < WORD
    ensures n <= 0x4000_0000 ==> CeilPow2(n) <= 0x4000_0000
    ensures n > 0x4000_0000 ==> CeilPow2(n) == 0x8000_0000 || CeilPow2(n) == WORD
  {
    Pow2Of32();
    CeilPow2IsLeast(n);
    assert n <= Pow2(30) ==> CeilPow2(n) <= Pow2(30);
    assert n <= Pow2(32) ==> CeilPow2(n) <= Pow2(32);
    var k: nat :| CeilPow2(n) == Pow2(k);
    if k <= 30 { Pow2Monotone(k, 30); }
    if k >= 33 { Pow2StrictlyMonotone(32, k); }
  }

  lemma TwiceIsPow2(n: nat)
    ensures IsPow2(2 * CeilPow2(n)) && n <= CeilPow2(n) && (2 < n ==> 4 <= CeilPow2(n))
  {
    CeilPow2IsLeast(n);
    var k: nat :| CeilPow2(n) == Pow2(k);
    assert 2 * CeilPow2(n) == Pow2(k + 1);
  }

  /**
   * The computed table size is twice the names that fit in the name tables exactly while there are at
   * most 2^30 of them; above, the 32-bit product wraps and the table is too small.
   */
  lemma HashTableSizeSuffices(utf8: nat, constants: nat, uniques: nat)
    ensures var size, names := HashTableSize(utf8, constants, uniques), utf8 + constants + uniques;
      && (2 * names <= size <==> names <= 0x4000_0000)
      && (names <= 0x4000_0000 ==> size == 2 * CeilPow2(names) && IsPow2(size))
  {
    var names := utf8 + constants + uniques;
    if names <= 0x4000_0000 {
      SmallTable(names);
    } else {
      LargeTable(names);
    }
  }

  lemma SmallTable(names: nat)
    requires names <= 0x4000_0000
    ensures 2 * (CeilPow2(names % WORD) % WORD) % WORD == 2 * CeilPow2(names) && IsPow2(2 * CeilPow2(names))
    ensures names <= CeilPow2(names)
  {
    CeilPow2Bounds(names);
    TwiceIsPow2(names);
    NoWrap(names, CeilPow2(names));
  }

  lemma NoWrap(names: nat, ceil: nat)
    requires names <= 0x4000_0000 && ceil <= 0x4000_0000
    ensures names % WORD == names && 2 * (ceil % WORD) % WORD == 2 * ceil
  {
  }

  lemma LargeTable(names: nat)
    requires names > 0x4000_0000
    ensures 2 * (CeilPow2(names % WORD) % WORD) % WORD < 2 * names
  {
    CeilPow2Bounds(names % WORD);
  }
}
