/** Which variables the blocks of a control flow graph read, write and overwrite unread (cfg/CFG.cc, cfg/CFG.h). */
module ReadsAndWrites {
  import opened Collections
  import opened UIntSets

  /** The instructions, with the local variables each of them reads. */
  datatype Instruction =
    | Ident(what: nat)
    | Alias
    | SolveConstraint(send: nat)
    | Send(recv: nat, args: seq<nat>)
    | Return(what: nat)
    | BlockReturn(what: nat)
    | LoadSelf(fallback: nat)
    | YieldLoadArg(yieldParam: nat)
    | Cast(value: nat)
    | TAbsurd(what: nat)
    | KeepAlive(what: nat)
    | WithoutOperands(tag: nat)

  function Operands(i: Instruction): seq<nat> {
    match i
    case Ident(what) => [what]
    case Send(recv, args) => [recv] + args
    case TAbsurd(what) => [what]
    case Return(what) => [what]
    case BlockReturn(what) => [what]
    case Cast(value) => [value]
    case LoadSelf(fallback) => [fallback]
    case SolveConstraint(send) => [send]
    case YieldLoadArg(yieldParam) => [yieldParam]
    case KeepAlive(what) => [what]
    case Alias => []
    case WithoutOperands(_) => []
  }

  /** The variables an instruction mentions. */
  ghost predicate Mentions(i: Instruction, v: nat) {
    || (i.Ident? && v == i.what) || (i.TAbsurd? && v == i.what) || (i.Return? && v == i.what)
    || (i.BlockReturn? && v == i.what) || (i.KeepAlive? && v == i.what)
    || (i.Send? && (v == i.recv || exists k :: 0 <= k < |i.args| && i.args[k] == v))
    || (i.Cast? && v == i.value) || (i.LoadSelf? && v == i.fallback)
    || (i.SolveConstraint? && v == i.send) || (i.YieldLoadArg? && v == i.yieldParam)
  }

  lemma OperandsAreMentioned(i: Instruction, v: nat)
    ensures v in Operands(i) <==> Mentions(i, v)
  {
    if i.Send? {
      assert v in Operands(i) <==> v == i.recv || v in i.args;
    }
  }

  /** An instruction with its operands taken out. */
  function Form(i: Instruction): Instruction {
    match i
    case Ident(_) => Ident(0)
    case Send(_, args) => Send(0, seq(|args|, _ => 0))
    case TAbsurd(_) => TAbsurd(0)
    case Return(_) => Return(0)
    case BlockReturn(_) => BlockReturn(0)
    case Cast(_) => Cast(0)
    case LoadSelf(_) => LoadSelf(0)
    case SolveConstraint(_) => SolveConstraint(0)
    case YieldLoadArg(_) => YieldLoadArg(0)
    case KeepAlive(_) => KeepAlive(0)
    case Alias => Alias
    case WithoutOperands(tag) => WithoutOperands(tag)
  }

  /** Form and operands together are the instruction: no operand is left out, and their order matters. */
  lemma OperandsDecide(i: Instruction, j: Instruction)
    requires Form(i) == Form(j) && Operands(i) == Operands(j)
    ensures i == j
  {
    if i.Send? {
      assert Operands(i)[0] == i.recv && Operands(i)[1..] == i.args;
      assert Operands(j)[0] == j.recv && Operands(j)[1..] == j.args;
    }
  }

  datatype Binding = Binding(variable: nat, value: Instruction)

  datatype Block = Block(exprs: seq<Binding>, cond: nat)

  const UNCONDITIONAL: nat := 3

  /** What a binding reads: a write to an alias of a global also reads the alias, unless it sets the alias up. */
  function Uses(aliases: nat -> bool, b: Binding): seq<nat> {
    (if aliases(b.variable) && !b.value.Alias? then [b.variable] else []) + Operands(b.value)
  }

  lemma UsesAre(aliases: nat -> bool, b: Binding, v: nat)
    ensures v in Uses(aliases, b) <==> Mentions(b.value, v) || (v == b.variable && aliases(v) && !b.value.Alias?)
  {
    OperandsAreMentioned(b.value, v);
  }

  datatype Summary = Summary(read: set<nat>, written: set<nat>, dead: set<nat>)

  /** What one more binding adds. */
  ghost function Extend(s: Summary, uses: set<nat>, variable: nat): Summary {
    var read := s.read + uses;
    Summary(read, s.written + {variable}, if variable in read then s.dead else s.dead + {variable})
  }

  /** The three sets after a prefix of a block. */
  ghost function Scan(aliases: nat -> bool, exprs: seq<Binding>): Summary {
    if exprs == [] then Summary({}, {}, {})
    else
      var b := exprs[|exprs| - 1];
      Extend(Scan(aliases, exprs[..|exprs| - 1]), Elements(Uses(aliases, b)), b.variable)
  }

  ghost function SummaryOf(aliases: nat -> bool, block: Block): Summary {
    var s := Scan(aliases, block.exprs);
    if block.cond == UNCONDITIONAL then s else s.(read := s.read + {block.cond})
  }

  // ---------------------------------------------------------------- what the sets are

  ghost predicate UsedAt(aliases: nat -> bool, exprs: seq<Binding>, i: nat, v: nat) {
    i < |exprs| && v in Uses(aliases, exprs[i])
  }

  /** Binding `i` writes `v`, which nothing up to and including it reads. */
  ghost predicate WrittenUnread(aliases: nat -> bool, exprs: seq<Binding>, i: nat, v: nat) {
    i < |exprs| && exprs[i].variable == v && forall j: nat :: j <= i ==> !UsedAt(aliases, exprs, j, v)
  }

  lemma {:induction false} ReadIsUsed(aliases: nat -> bool, exprs: seq<Binding>, v: nat)
    ensures v in Scan(aliases, exprs).read <==> exists i: nat :: UsedAt(aliases, exprs, i, v)
  {
    if exprs != [] {
      var n := |exprs| - 1;
      ReadIsUsed(aliases, exprs[..n], v);
      forall i: nat ensures UsedAt(aliases, exprs, i, v) <==>
        UsedAt(aliases, exprs[..n], i, v) || (i == n && v in Uses(aliases, exprs[n])) {}
      if v in Uses(aliases, exprs[n]) { assert UsedAt(aliases, exprs, n, v); }
    }
  }

  /** A block reads what its bindings use and, if it has one, its exit condition. */
  lemma BlockReads(aliases: nat -> bool, block: Block, v: nat)
    ensures v in SummaryOf(aliases, block).read <==>
      (v == block.cond && v != UNCONDITIONAL) || exists i: nat :: UsedAt(aliases, block.exprs, i, v)
  {
    ReadIsUsed(aliases, block.exprs, v);
  }

  ghost predicate BoundAt(exprs: seq<Binding>, i: nat, v: nat) {
    i < |exprs| && exprs[i].variable == v
  }

  lemma {:induction false} WrittenIsBound(aliases: nat -> bool, exprs: seq<Binding>, v: nat)
    ensures v in Scan(aliases, exprs).written <==> exists i: nat :: BoundAt(exprs, i, v)
  {
    if exprs != [] {
      var n := |exprs| - 1;
      WrittenIsBound(aliases, exprs[..n], v);
      forall i: nat ensures BoundAt(exprs, i, v) <==>
        BoundAt(exprs[..n], i, v) || (i == n && v == exprs[n].variable) {}
      if v == exprs[n].variable { assert BoundAt(exprs, n, v); }
    }
  }

  lemma PrefixUnread(aliases: nat -> bool, exprs: seq<Binding>, n: nat, i: nat, v: nat)
    requires i < n <= |exprs|
    ensures WrittenUnread(aliases, exprs, i, v) <==> WrittenUnread(aliases, exprs[..n], i, v)
  {
    forall j: nat | j <= i ensures UsedAt(aliases, exprs, j, v) <==> UsedAt(aliases, exprs[..n], j, v) {}
  }

  lemma LastUnread(aliases: nat -> bool, exprs: seq<Binding>, v: nat)
    requires exprs != []
    ensures WrittenUnread(aliases, exprs, |exprs| - 1, v) <==>
      exprs[|exprs| - 1].variable == v && v !in Scan(aliases, exprs).read
  {
    ReadIsUsed(aliases, exprs, v);
  }

  ghost predicate WrittenFirst(aliases: nat -> bool, exprs: seq<Binding>, v: nat) {
    exists i: nat :: WrittenUnread(aliases, exprs, i, v)
  }

  lemma WrittenFirstStep(aliases: nat -> bool, exprs: seq<Binding>, v: nat)
    requires exprs != []
    ensures WrittenFirst(aliases, exprs, v) <==>
      WrittenFirst(aliases, exprs[..|exprs| - 1], v) || WrittenUnread(aliases, exprs, |exprs| - 1, v)
  {
    var n := |exprs| - 1;
    if i: nat :| WrittenUnread(aliases, exprs, i, v) {
      if i < n { PrefixUnread(aliases, exprs, n, i, v); }
    }
    if i: nat :| WrittenUnread(aliases, exprs[..n], i, v) { PrefixUnread(aliases, exprs, n, i, v); }
  }

  /** Dead on entry are exactly the variables whose first access is a write. */
  lemma {:induction false} DeadIsWrittenFirst(aliases: nat -> bool, exprs: seq<Binding>, v: nat)
    ensures v in Scan(aliases, exprs).dead <==> WrittenFirst(aliases, exprs, v)
  {
    if exprs != [] {
      DeadIsWrittenFirst(aliases, exprs[..|exprs| - 1], v);
      LastUnread(aliases, exprs, v);
      WrittenFirstStep(aliases, exprs, v);
    }
  }

  // ---------------------------------------------------------------- what they mean

  /** How instructions compute: a value and a new outside world from operand values and the world. */
  type Semantics<!V, !W> = (Instruction, seq<V>, W) -> (V, W)

  ghost predicate AllBelow(vars: seq<nat>, n: nat) {
    forall i :: 0 <= i < |vars| ==> vars[i] < n
  }

  ghost predicate InRange(aliases: nat -> bool, exprs: seq<Binding>, n: nat) {
    forall i :: 0 <= i < |exprs| ==> exprs[i].variable < n && AllBelow(Uses(aliases, exprs[i]), n)
  }

  function Values<V>(env: seq<V>, vars: seq<nat>): seq<V>
    requires forall i :: 0 <= i < |vars| ==> vars[i] < |env|
  {
    if vars == [] then [] else [env[vars[0]]] + Values(env, vars[1..])
  }

  /** Run the bindings one after the other. */
  function Run<V, W>(eval: Semantics<V, W>, aliases: nat -> bool, exprs: seq<Binding>, env: seq<V>, world: W):
    (r: (seq<V>, W))
    requires InRange(aliases, exprs, |env|)
    ensures |r.0| == |env|
  {
    if exprs == [] then (env, world)
    else
      var (env', world') := Run(eval, aliases, exprs[..|exprs| - 1], env, world);
      var b := exprs[|exprs| - 1];
      assert b == exprs[|exprs| - 1];
      var (value, after) := eval(b.value, Values(env', Uses(aliases, b)), world');
      (env'[b.variable := value], after)
  }

  lemma {:induction false} ValuesAgree<V>(a: seq<V>, b: seq<V>, vars: seq<nat>)
    requires |a| == |b| && forall i :: 0 <= i < |vars| ==> vars[i] < |a| && a[vars[i]] == b[vars[i]]
    ensures Values(a, vars) == Values(b, vars)
  {
    if vars != [] { ValuesAgree(a, b, vars[1..]); }
  }

  lemma {:induction false} DeadIsWritten(aliases: nat -> bool, exprs: seq<Binding>)
    ensures Scan(aliases, exprs).dead <= Scan(aliases, exprs).written
  {
    if exprs != [] { DeadIsWritten(aliases, exprs[..|exprs| - 1]); }
  }

  /** Agreement on what is read and not dead gives the same world and the same written variables. */
  lemma {:induction false} LiveInputsDecide<V, W>(eval: Semantics<V, W>, aliases: nat -> bool, exprs: seq<Binding>,
                                                  a: seq<V>, b: seq<V>, world: W)
    requires |a| == |b| && InRange(aliases, exprs, |a|)
    requires var s := Scan(aliases, exprs); forall v <- s.read - s.dead :: v < |a| ==> a[v] == b[v]
    ensures var s := Scan(aliases, exprs);
      var (a', wa) := Run(eval, aliases, exprs, a, world);
      var (b', wb) := Run(eval, aliases, exprs, b, world);
      wa == wb && forall v :: 0 <= v < |a| && (v in s.written || a[v] == b[v]) ==> a'[v] == b'[v]
  {
    if exprs != [] {
      var init, last := exprs[..|exprs| - 1], exprs[|exprs| - 1];
      var p, s := Scan(aliases, init), Scan(aliases, exprs);
      assert p.read - p.dead <= s.read - s.dead;
      assert InRange(aliases, init, |a|);
      LiveInputsDecide(eval, aliases, init, a, b, world);
      var (a', wa) := Run(eval, aliases, init, a, world);
      var (b', wb) := Run(eval, aliases, init, b, world);
      DeadIsWritten(aliases, init);
      var uses := Uses(aliases, last);
      assert last == exprs[|exprs| - 1];
      forall v | v in uses ensures v < |a| && a'[v] == b'[v] {
        assert v in s.read;
        if v !in p.written { assert v !in s.dead; }
      }
      ValuesAgree(a', b', uses);
    }
  }

  /** Variables a block does not write keep their values. */
  lemma {:induction false} OthersUnchanged<V, W>(eval: Semantics<V, W>, aliases: nat -> bool, exprs: seq<Binding>,
                                                 a: seq<V>, world: W, v: nat)
    requires InRange(aliases, exprs, |a|) && v < |a| && v !in Scan(aliases, exprs).written
    ensures Run(eval, aliases, exprs, a, world).0[v] == a[v]
  {
    if exprs != [] {
      var init := exprs[..|exprs| - 1];
      assert InRange(aliases, init, |a|);
      OthersUnchanged(eval, aliases, init, a, world, v);
    }
  }

  /**
   * Running a block from two environments that differ only on its dead set gives the same environment, the same
   * world and the same value for the exit condition.
   */
  lemma DeadVariablesDoNotMatter<V, W>(eval: Semantics<V, W>, aliases: nat -> bool, block: Block,
                                       a: seq<V>, b: seq<V>, world: W)
    requires |a| == |b| && InRange(aliases, block.exprs, |a|) && block.cond < |a|
    requires forall v :: 0 <= v < |a| && v !in SummaryOf(aliases, block).dead ==> a[v] == b[v]
    ensures Run(eval, aliases, block.exprs, a, world) == Run(eval, aliases, block.exprs, b, world)
  {
    var s := Scan(aliases, block.exprs);
    LiveInputsDecide(eval, aliases, block.exprs, a, b, world);
    DeadIsWritten(aliases, block.exprs);
    var (a', wa) := Run(eval, aliases, block.exprs, a, world);
    var (b', wb) := Run(eval, aliases, block.exprs, b, world);
    assert a' == b';
  }

  /** The exit condition too depends only on what the block reads and does not overwrite first. */
  lemma ExitConditionIsRead<V, W>(eval: Semantics<V, W>, aliases: nat -> bool, block: Block,
                                  a: seq<V>, b: seq<V>, world: W)
    requires |a| == |b| && InRange(aliases, block.exprs, |a|) && block.cond < |a| && block.cond != UNCONDITIONAL
    requires var s := SummaryOf(aliases, block); forall v <- s.read - s.dead :: v < |a| ==> a[v] == b[v]
    ensures Run(eval, aliases, block.exprs, a, world).0[block.cond]
         == Run(eval, aliases, block.exprs, b, world).0[block.cond]
  {
    LiveInputsDecide(eval, aliases, block.exprs, a, b, world);
    DeadIsWritten(aliases, block.exprs);
  }

  // ---------------------------------------------------------------- the computation

  /** The loop over the bindings of one block, on bitsets for `n` variables. */
  method AnalyzeBlock(aliases: nat -> bool, block: Block, n: nat)
    returns (read: UIntSet, written: UIntSet, dead: UIntSet)
    requires InRange(aliases, block.exprs, n) && block.cond < n
    ensures HoldSummary(read, written, dead, SummaryOf(aliases, block), n)
    ensures fresh(read.words) && fresh(written.words) && fresh(dead.words)
    ensures read.words != written.words && read.words != dead.words && written.words != dead.words
  {
    read := new UIntSet(n);
    written := new UIntSet(n);
    dead := new UIntSet(n);
    for i := 0 to |block.exprs|
      invariant fresh(read.words) && fresh(written.words) && fresh(dead.words)
      invariant read.words != written.words && read.words != dead.words && written.words != dead.words
      invariant read.Valid() && written.Valid() && dead.Valid()
      invariant read.words.Length == written.words.Length == dead.words.Length == (n + 31) / 32
      invariant Summary(read.Contents(), written.Contents(), dead.Contents()) == Scan(aliases, block.exprs[..i])
    {
      var bind := block.exprs[i];
      ScanStep(aliases, block.exprs, i);
      AnalyzeBinding(read, written, dead, Uses(aliases, bind), bind.variable);
    }
    assert block.exprs[..|block.exprs|] == block.exprs;
    if block.cond != UNCONDITIONAL {
      read.Add(block.cond);
    }
    forall v | v in read.Contents() || v in written.Contents() || v in dead.Contents() ensures v < n {
      SummaryInRange(aliases, block, n, v);
    }
  }

  lemma ScanStep(aliases: nat -> bool, exprs: seq<Binding>, i: nat)
    requires i < |exprs|
    ensures Scan(aliases, exprs[..i + 1]) ==
      Extend(Scan(aliases, exprs[..i]), Elements(Uses(aliases, exprs[i])), exprs[i].variable)
  {
    assert exprs[..i + 1][..i] == exprs[..i];
  }

  /** The body of the loop over the bindings. */
  method AnalyzeBinding(read: UIntSet, written: UIntSet, dead: UIntSet, uses: seq<nat>, variable: nat)
    requires read.Valid() && written.Valid() && dead.Valid()
    requires read.words != written.words && read.words != dead.words && written.words != dead.words
    requires AllBelow(uses, 32 * read.words.Length) && variable < 32 * read.words.Length
    requires variable < 32 * written.words.Length && variable < 32 * dead.words.Length
    modifies read.words, written.words, dead.words
    ensures read.Valid() && written.Valid() && dead.Valid()
    ensures Summary(read.Contents(), written.Contents(), dead.Contents())
         == Extend(old(Summary(read.Contents(), written.Contents(), dead.Contents())), Elements(uses), variable)
  {
    written.Add(variable);
    AddUses(read, uses);
    var seen := read.Contains(variable);
    if !seen {
      dead.Add(variable);
    }
  }

  method AddUses(read: UIntSet, uses: seq<nat>)
    requires read.Valid() && AllBelow(uses, 32 * read.words.Length)
    modifies read.words
    ensures read.Valid() && read.Contents() == old(read.Contents()) + Elements(uses)
  {
    for i := 0 to |uses|
      invariant read.Valid()
      invariant read.Contents() + Elements(uses[i..]) == old(read.Contents()) + Elements(uses)
    {
      assert uses[i..][1..] == uses[i + 1..];
      assert uses[i] in uses;
      read.Add(uses[i]);
    }
  }

  /** Read or written by block `b`. */
  ghost predicate UsedIn(read: seq<set<nat>>, written: seq<set<nat>>, b: nat, v: nat) {
    b < |read| && b < |written| && (v in read[b] || v in written[b])
  }

  /** How many of the first `k` blocks use `v`. */
  ghost function UsageCount(read: seq<set<nat>>, written: seq<set<nat>>, k: nat, v: nat): nat {
    if k == 0 then 0 else UsageCount(read, written, k - 1, v) + (if UsedIn(read, written, k - 1, v) then 1 else 0)
  }

  lemma {:induction false} CountPositive(read: seq<set<nat>>, written: seq<set<nat>>, k: nat, v: nat, b: nat)
    requires b < k && UsedIn(read, written, b, v)
    ensures UsageCount(read, written, k, v) >= 1
    ensures UsageCount(read, written, k, v) == 1 <==> forall c: nat :: c < k && UsedIn(read, written, c, v) ==> c == b
  {
    if b < k - 1 {
      CountPositive(read, written, k - 1, v, b);
    } else {
      CountZero(read, written, k - 1, v);
    }
  }

  lemma {:induction false} CountZero(read: seq<set<nat>>, written: seq<set<nat>>, k: nat, v: nat)
    ensures UsageCount(read, written, k, v) == 0 <==> forall c: nat :: c < k ==> !UsedIn(read, written, c, v)
  {
    if k > 0 { CountZero(read, written, k - 1, v); }
  }

  /** The first pass: for each variable, the number of blocks that use it and one of them. */
  ghost predicate CountsUpTo(read: seq<set<nat>>, written: seq<set<nat>>, k: nat, counts: seq<(nat, nat)>) {
    forall v :: 0 <= v < |counts| ==> CountIs(read, written, k, v, counts[v])
  }

  ghost predicate CountIs(read: seq<set<nat>>, written: seq<set<nat>>, k: nat, v: nat, count: (nat, nat)) {
    && count.0 == UsageCount(read, written, k, v)
    && (count.0 > 0 ==> count.1 < k && UsedIn(read, written, count.1, v))
  }

  /** A count after one more block, `blockId`. */
  function Bumped(count: (nat, nat), blockId: nat): (nat, nat) {
    (count.0 + 1, if count.0 == 0 then blockId else count.1)
  }

  /** The callback of the first pass, for the items of one block in turn. */
  method CountItems(counts: seq<(nat, nat)>, items: seq<nat>, blockId: nat) returns (r: seq<(nat, nat)>)
    requires Ascending(items) && forall i :: 0 <= i < |items| ==> items[i] < |counts|
    ensures |r| == |counts|
    ensures forall v :: 0 <= v < |counts| ==> r[v] == if v in items then Bumped(counts[v], blockId) else counts[v]
  {
    r := counts;
    for i := 0 to |items|
      invariant |r| == |counts|
      invariant forall v :: 0 <= v < |counts| ==>
        r[v] == if v in items[..i] then Bumped(counts[v], blockId) else counts[v]
    {
      var local := items[i];
      assert local !in items[..i];
      if r[local].0 == 0 {
        r := r[local := (r[local].0, blockId)];
      }
      r := r[local := (r[local].0 + 1, r[local].1)];
    }
    assert items[..|items|] == items;
  }

  /** The bitsets of all blocks, for `n` variables each, hold these sets. */
  ghost predicate Hold(bits: seq<UIntSet>, sets: seq<set<nat>>, n: nat)
    reads set b <- bits :: b.words
  {
    |bits| == |sets| && forall i :: 0 <= i < |bits| ==> HoldsSet(bits[i], sets[i], n)
  }

  ghost predicate HoldsSet(bits: UIntSet, items: set<nat>, n: nat)
    reads bits.words
  {
    && bits.Valid() && bits.Contents() == items && bits.words.Length == (n + 31) / 32
    && forall v <- items :: v < n
  }

  /** The first pass for one block. */
  method CountBlock(counts: seq<(nat, nat)>, both: UIntSet, bitsRead: UIntSet, bitsWritten: UIntSet, blockId: nat,
                    ghost read: set<nat>, ghost written: set<nat>) returns (next: seq<(nat, nat)>)
    requires HoldsSet(bitsRead, read, |counts|) && HoldsSet(bitsWritten, written, |counts|)
    requires both.words.Length == (|counts| + 31) / 32
    modifies both.words
    ensures |next| == |counts|
    ensures forall v :: 0 <= v < |counts| ==>
      next[v] == if v in read || v in written then Bumped(counts[v], blockId) else counts[v]
  {
    both.OverwriteWithUnion(bitsRead, bitsWritten);
    var items := both.ForEach();
    forall i | 0 <= i < |items| ensures items[i] < |counts| {
      assert items[i] in Elements(items);
    }
    next := CountItems(counts, items, blockId);
  }

  /** The first pass over all blocks. */
  method CountUsages(readSets: seq<UIntSet>, writeSets: seq<UIntSet>, n: nat,
                     ghost read: seq<set<nat>>, ghost written: seq<set<nat>>) returns (usageCounts: seq<(nat, nat)>)
    requires Hold(readSets, read, n) && Hold(writeSets, written, n) && |readSets| == |writeSets|
    ensures |usageCounts| == n && CountsUpTo(read, written, |read|, usageCounts)
  {
    usageCounts := seq(n, _ => (0, 0));
    var blockReadsAndWrites := new UIntSet(n);
    for blockId := 0 to |readSets|
      invariant fresh(blockReadsAndWrites.words) && blockReadsAndWrites.words.Length == (n + 31) / 32
      invariant Hold(readSets, read, n) && Hold(writeSets, written, n)
      invariant |usageCounts| == n && CountsUpTo(read, written, blockId, usageCounts)
    {
      assert HoldsSet(readSets[blockId], read[blockId], n) && HoldsSet(writeSets[blockId], written[blockId], n);
      var next := CountBlock(usageCounts, blockReadsAndWrites, readSets[blockId], writeSets[blockId], blockId,
                             read[blockId], written[blockId]);
      CountStep(read, written, blockId, usageCounts, next);
      usageCounts := next;
    }
  }

  lemma CountStep(read: seq<set<nat>>, written: seq<set<nat>>, k: nat, counts: seq<(nat, nat)>, next: seq<(nat, nat)>)
    requires k < |read| == |written| && |counts| == |next| && CountsUpTo(read, written, k, counts)
    requires forall v :: 0 <= v < |counts| ==>
      next[v] == if v in read[k] || v in written[k] then Bumped(counts[v], k) else counts[v]
    ensures CountsUpTo(read, written, k + 1, next)
  {
    forall v | 0 <= v < |next| ensures CountIs(read, written, k + 1, v, next[v]) {
      assert CountIs(read, written, k, v, counts[v]);
    }
  }

  /** A variable of block `b` that no other block uses is private to it. */
  ghost predicate UsedElsewhere(read: seq<set<nat>>, written: seq<set<nat>>, b: nat, v: nat) {
    exists c: nat :: c != b && UsedIn(read, written, c, v)
  }

  lemma PrivateIff(read: seq<set<nat>>, written: seq<set<nat>>, v: nat, count: (nat, nat), b: nat)
    requires |read| == |written| && CountIs(read, written, |read|, v, count) && b < |written| && v in written[b]
    ensures (count.0 == 1 && count.1 == b) <==> !UsedElsewhere(read, written, b, v)
  {
    assert UsedIn(read, written, b, v);
    CountPositive(read, written, |read|, v, b);
  }

  /** The writes of block `b` once the private variables below `limit` are gone. */
  ghost function Kept(read: seq<set<nat>>, written: seq<set<nat>>, b: nat, limit: nat): set<nat>
    requires b < |written|
  {
    set v <- written[b] | v >= limit || UsedElsewhere(read, written, b, v)
  }

  lemma KeptStep(read: seq<set<nat>>, written: seq<set<nat>>, local: nat, count: (nat, nat), b: nat)
    requires |read| == |written| && CountIs(read, written, |read|, local, count) && b < |written|
    ensures Kept(read, written, b, local + 1) ==
      if count.0 == 1 && count.1 == b then Kept(read, written, b, local) - {local} else Kept(read, written, b, local)
  {
    if local in written[b] { PrivateIff(read, written, local, count, b); }
  }

  ghost predicate Separate(bits: seq<UIntSet>) {
    forall i, j :: 0 <= i < j < |bits| ==> bits[i].words != bits[j].words
  }

  /** The two passes over private variables: a write is kept exactly if some other block uses the variable. */
  method RemovePrivateWrites(readSets: seq<UIntSet>, writeSets: seq<UIntSet>, n: nat,
                             ghost read: seq<set<nat>>, ghost written: seq<set<nat>>)
    requires Hold(readSets, read, n) && Hold(writeSets, written, n) && |readSets| == |writeSets| && Separate(writeSets)
    modifies set w <- writeSets :: w.words
    ensures forall b :: 0 <= b < |writeSets| ==>
      writeSets[b].Valid() && writeSets[b].Contents() == set v <- written[b] | UsedElsewhere(read, written, b, v)
  {
    var usageCounts := CountUsages(readSets, writeSets, n, read, written);
    assert forall b :: 0 <= b < |writeSets| ==> HoldsSet(writeSets[b], written[b], n);
    for local := 0 to n
      invariant forall b :: 0 <= b < |writeSets| ==>
        writeSets[b].Valid() && writeSets[b].Contents() == Kept(read, written, b, local)
    {
      var usages := usageCounts[local];
      assert CountIs(read, written, |read|, local, usages);
      forall b | 0 <= b < |writeSets| ensures Kept(read, written, b, local + 1) ==
        if usages.0 == 1 && usages.1 == b then Kept(read, written, b, local) - {local}
        else Kept(read, written, b, local)
      {
        KeptStep(read, written, local, usages, b);
      }
      if usages.0 == 1 {
        writeSets[usages.1].Remove(local);
      }
    }
  }

  /** The sets of all blocks, one kind each. */
  ghost function ReadOf(aliases: nat -> bool, blocks: seq<Block>): (r: seq<set<nat>>)
    ensures |r| == |blocks|
  {
    if blocks == [] then []
    else ReadOf(aliases, blocks[..|blocks| - 1]) + [SummaryOf(aliases, blocks[|blocks| - 1]).read]
  }

  ghost function WrittenOf(aliases: nat -> bool, blocks: seq<Block>): (r: seq<set<nat>>)
    ensures |r| == |blocks|
  {
    if blocks == [] then []
    else WrittenOf(aliases, blocks[..|blocks| - 1]) + [SummaryOf(aliases, blocks[|blocks| - 1]).written]
  }

  ghost function DeadOf(aliases: nat -> bool, blocks: seq<Block>): (r: seq<set<nat>>)
    ensures |r| == |blocks|
  {
    if blocks == [] then []
    else DeadOf(aliases, blocks[..|blocks| - 1]) + [SummaryOf(aliases, blocks[|blocks| - 1]).dead]
  }

  ghost predicate BlocksInRange(aliases: nat -> bool, blocks: seq<Block>, n: nat) {
    forall i :: 0 <= i < |blocks| ==> InRange(aliases, blocks[i].exprs, n) && blocks[i].cond < n
  }

  lemma SummaryInRange(aliases: nat -> bool, block: Block, n: nat, v: nat)
    requires InRange(aliases, block.exprs, n) && block.cond < n
    requires var s := SummaryOf(aliases, block); v in s.read || v in s.written || v in s.dead
    ensures v < n
  {
    ReadIsUsed(aliases, block.exprs, v);
    WrittenIsBound(aliases, block.exprs, v);
    DeadIsWritten(aliases, block.exprs);
    if i: nat :| UsedAt(aliases, block.exprs, i, v) {
      assert AllBelow(Uses(aliases, block.exprs[i]), n);
    }
  }

  lemma HoldAppend(bits: seq<UIntSet>, sets: seq<set<nat>>, b: UIntSet, items: set<nat>, n: nat)
    requires Hold(bits, sets, n) && HoldsSet(b, items, n)
    ensures Hold(bits + [b], sets + [items], n)
  {
    forall i | 0 <= i < |bits + [b]| ensures HoldsSet((bits + [b])[i], (sets + [items])[i], n) {
      if i < |bits| { assert HoldsSet(bits[i], sets[i], n); }
    }
  }

  /** `b` shares its memory with none of `bits`. */
  ghost predicate Apart(bits: seq<UIntSet>, b: UIntSet) {
    forall i :: 0 <= i < |bits| ==> bits[i].words != b.words
  }

  /** The bitsets of the blocks so far; those for writes share no memory with any other. */
  ghost predicate Analyzed(aliases: nat -> bool, blocks: seq<Block>, n: nat, readSets: seq<UIntSet>,
                           writeSets: seq<UIntSet>, deadSets: seq<UIntSet>)
    reads set b <- readSets :: b.words, set b <- writeSets :: b.words, set b <- deadSets :: b.words
  {
    && Hold(readSets, ReadOf(aliases, blocks), n) && Hold(writeSets, WrittenOf(aliases, blocks), n)
    && Hold(deadSets, DeadOf(aliases, blocks), n)
    && Separate(writeSets)
    && forall i :: 0 <= i < |writeSets| ==> Apart(readSets, writeSets[i]) && Apart(deadSets, writeSets[i])
  }

  ghost predicate HoldSummary(r: UIntSet, w: UIntSet, d: UIntSet, s: Summary, n: nat)
    reads r.words, w.words, d.words
  {
    HoldsSet(r, s.read, n) && HoldsSet(w, s.written, n) && HoldsSet(d, s.dead, n)
  }

  lemma AnalyzedStep(aliases: nat -> bool, blocks: seq<Block>, i: nat, n: nat, readSets: seq<UIntSet>,
                     writeSets: seq<UIntSet>, deadSets: seq<UIntSet>, r: UIntSet, w: UIntSet, d: UIntSet)
    requires i < |blocks| && Analyzed(aliases, blocks[..i], n, readSets, writeSets, deadSets)
    requires HoldSummary(r, w, d, SummaryOf(aliases, blocks[i]), n)
    requires Apart(readSets, w) && Apart(deadSets, w) && Apart(writeSets, w)
    requires Apart(writeSets, r) && Apart(writeSets, d)
    requires r.words != w.words && d.words != w.words
    ensures Analyzed(aliases, blocks[..i + 1], n, readSets + [r], writeSets + [w], deadSets + [d])
  {
    var s := SummaryOf(aliases, blocks[i]);
    assert blocks[..i + 1][..i] == blocks[..i];
    HoldAppend(readSets, ReadOf(aliases, blocks[..i]), r, s.read, n);
    HoldAppend(writeSets, WrittenOf(aliases, blocks[..i]), w, s.written, n);
    HoldAppend(deadSets, DeadOf(aliases, blocks[..i]), d, s.dead, n);
  }

  /** The first loop: the three sets of every block. */
  method AnalyzeBlocks(aliases: nat -> bool, blocks: seq<Block>, n: nat)
    returns (readSets: seq<UIntSet>, writeSets: seq<UIntSet>, deadSets: seq<UIntSet>)
    requires BlocksInRange(aliases, blocks, n)
    ensures Analyzed(aliases, blocks, n, readSets, writeSets, deadSets)
    ensures forall i :: 0 <= i < |writeSets| ==> fresh(writeSets[i].words)
  {
    readSets, writeSets, deadSets := [], [], [];
    for i := 0 to |blocks|
      invariant Analyzed(aliases, blocks[..i], n, readSets, writeSets, deadSets)
      invariant forall j :: 0 <= j < |writeSets| ==> fresh(writeSets[j].words)
    {
      var r, w, d := AnalyzeBlock(aliases, blocks[i], n);
      AnalyzedStep(aliases, blocks, i, n, readSets, writeSets, deadSets, r, w, d);
      readSets, writeSets, deadSets := readSets + [r], writeSets + [w], deadSets + [d];
    }
    assert blocks[..|blocks|] == blocks;
  }

  /**
   * `findAllReadsAndWrites`: per block what it reads, what it writes and some other block uses as well, and what is
   * dead on entry.
   */
  method FindAllReadsAndWrites(aliases: nat -> bool, blocks: seq<Block>, n: nat)
    returns (readSets: seq<UIntSet>, writeSets: seq<UIntSet>, deadSets: seq<UIntSet>)
    requires BlocksInRange(aliases, blocks, n)
    ensures Hold(readSets, ReadOf(aliases, blocks), n) && Hold(deadSets, DeadOf(aliases, blocks), n)
    ensures var read, written := ReadOf(aliases, blocks), WrittenOf(aliases, blocks);
      |writeSets| == |written| && forall b :: 0 <= b < |writeSets| ==>
        writeSets[b].Valid() && writeSets[b].Contents() == set v <- written[b] | UsedElsewhere(read, written, b, v)
  {
    readSets, writeSets, deadSets := AnalyzeBlocks(aliases, blocks, n);
    RemovePrivateWrites(readSets, writeSets, n, ReadOf(aliases, blocks), WrittenOf(aliases, blocks));
  }
}
