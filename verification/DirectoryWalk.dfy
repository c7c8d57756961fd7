/**
 * The parallel directory walk (common/common.cc, `appendFilesInDir`): workers share a counter of pending jobs and a
 * queue of directories and quit tokens. Each step below is one atomic action of one worker.
 */
module DirectoryWalk {
  import opened Collections
  import opened Sums

  /** Why a directory could not be opened: ENOENT, ENOTDIR or something else. */
  datatype OpenError = Missing | NotADirectory | Unreadable

  /** A directory entry, as the iterator presents it. A symbolic link to a directory is a `Dir` as well. */
  datatype Entry =
    | File(path: string)
    | Dir(path: string, symlink: bool, failure: Option<OpenError>, entries: seq<Entry>)

  datatype Config = Config(root: Entry, recursive: bool, allowed: string -> bool, ignored: string -> bool, workers: nat)

  ghost predicate ValidConfig(c: Config) {
    c.root.Dir? && c.workers >= 1
  }

  /** The filters every entry passes: kind, extension, ignore patterns. */
  predicate Wanted(c: Config, e: Entry) {
    && (if e.Dir? then c.recursive && !e.symlink else c.allowed(e.path))
    && !c.ignored(e.path)
  }

  /** Opening a directory that fails yields no entries. */
  function Contents(d: Entry): seq<Entry>
    requires d.Dir?
  {
    if d.failure.Some? then [] else d.entries
  }

  /** Only the root has to exist; a subdirectory may vanish or be replaced by a file. */
  predicate Fatal(c: Config, d: Entry)
    requires d.Dir?
  {
    d.failure.Some? && !(d.path != c.root.path && (d.failure.value.Missing? || d.failure.value.NotADirectory?))
  }

  datatype Exception = FileNotFound | FileNotDir

  function ExceptionOf(d: Entry): Exception
    requires d.Dir? && d.failure.Some?
  {
    if d.failure.value.NotADirectory? then FileNotDir else FileNotFound
  }

  // ---------------------------------------------------------------- what the walk is for

  /** The wanted files among `entries` and below their wanted directories, each once. */
  ghost function FilesIn(c: Config, entries: seq<Entry>): multiset<string>
    decreases entries
  {
    if entries == [] then multiset{}
    else FilesOf(c, entries[0]) + FilesIn(c, entries[1..])
  }

  ghost function FilesOf(c: Config, e: Entry): multiset<string>
    decreases e
  {
    if !Wanted(c, e) then multiset{}
    else if e.File? then multiset{e.path}
    else if e.failure.Some? then multiset{}
    else FilesIn(c, e.entries)
  }

  /** The directories that make the walk fail: those that are no directories, or those that fail otherwise. */
  ghost function FatalsIn(c: Config, notDir: bool, entries: seq<Entry>): nat
    decreases entries
  {
    if entries == [] then 0 else FatalsOf(c, notDir, entries[0]) + FatalsIn(c, notDir, entries[1..])
  }

  ghost function FatalsOf(c: Config, notDir: bool, e: Entry): nat
    decreases e
  {
    if !Wanted(c, e) || e.File? then 0
    else if e.failure.Some? then OwnFatal(c, notDir, e)
    else FatalsIn(c, notDir, e.entries)
  }

  ghost function OwnFatal(c: Config, notDir: bool, d: Entry): nat
    requires d.Dir?
  {
    if Fatal(c, d) && d.failure.value.NotADirectory? == notDir then 1 else 0
  }

  // ---------------------------------------------------------------- the protocol

  datatype Job = Quit | Visit(dir: Entry)

  datatype Result = Paths(paths: seq<string>) | Error(exception: Exception)

  /** Where a worker is. */
  datatype Pc =
    | Popping
    | Listing(dir: Entry, rest: seq<Entry>)
    | Pushing(dir: Entry, child: Entry, rest: seq<Entry>)
    | LastOne
    | SendingQuit(left: nat)
    | Delivering
    | Failing(exception: Exception)
    | FailedAdding
    | FailedQuit(left: nat)
    | Done

  /** How a worker leaves its loop: by a quit token, by finishing the last job, or by an exception. */
  datatype Role = Ordinary | Closer | Failed(thrown: Exception)

  datatype Worker = Worker(pc: Pc, output: seq<string>, role: Role)

  datatype State = State(pending: int, queue: seq<Job>, workers: seq<Worker>, results: seq<Result>)

  function Initial(c: Config): State {
    State(1, [Visit(c.root)], seq(c.workers, _ => Worker(Popping, [], Ordinary)), [])
  }

  /** A worker that is not done can move, except that popping needs a job; the queue promises no order. */
  predicate Enabled(s: State, w: nat, job: nat) {
    && w < |s.workers|
    && !s.workers[w].pc.Done?
    && (s.workers[w].pc.Popping? ==> job < |s.queue|)
  }

  function Move(s: State, w: nat, pc: Pc): State
    requires w < |s.workers|
  {
    s.(workers := s.workers[w := s.workers[w].(pc := pc)])
  }

  function Step(c: Config, s: State, w: nat, job: nat): State
    requires Enabled(s, w, job) && Shaped(c, s)
  {
    var me := s.workers[w];
    assert ShapedWorker(me);
    match me.pc
    case Popping =>
      var t := s.(queue := RemoveAt(s.queue, job));
      if s.queue[job].Quit? then Move(t, w, Delivering)
      else Move(t, w, Listing(s.queue[job].dir, Contents(s.queue[job].dir)))
    case Listing(d, rest) =>
      if rest == [] then
        if Fatal(c, d) then
          s.(workers := s.workers[w := me.(pc := Failing(ExceptionOf(d)), role := Failed(ExceptionOf(d)))])
        else if s.pending == 1 then
          s.(pending := 0, workers := s.workers[w := me.(pc := LastOne, role := Closer)])
        else
          Move(s.(pending := s.pending - 1), w, Popping)
      else if !Wanted(c, rest[0]) then Move(s, w, Listing(d, rest[1..]))
      else if rest[0].Dir? then Move(s.(pending := s.pending + 1), w, Pushing(d, rest[0], rest[1..]))
      else s.(workers := s.workers[w := me.(pc := Listing(d, rest[1..]), output := me.output + [rest[0].path])])
    case Pushing(d, child, rest) =>
      Move(s.(queue := s.queue + [Visit(child)]), w, Listing(d, rest))
    case LastOne => Move(s.(pending := s.pending + c.workers), w, SendingQuit(c.workers))
    case SendingQuit(left) =>
      if left == 0 then Move(s, w, Delivering) else Move(s.(queue := s.queue + [Quit]), w, SendingQuit(left - 1))
    case Delivering => Move(s.(results := s.results + [Paths(me.output)]), w, Done)
    case Failing(e) => Move(s.(results := s.results + [Error(e)]), w, FailedAdding)
    case FailedAdding => Move(s.(pending := s.pending + c.workers), w, FailedQuit(c.workers))
    case FailedQuit(left) =>
      if left == 0 then Move(s, w, Done) else Move(s.(queue := s.queue + [Quit]), w, FailedQuit(left - 1))
  }

  /** Jobs and workers only hold directories, and a worker's role fits where it is. */
  predicate ShapedWorker(w: Worker) {
    match w.pc
    case Popping => w.role.Ordinary?
    case Listing(d, _) => w.role.Ordinary? && d.Dir?
    case Pushing(d, child, _) => w.role.Ordinary? && d.Dir? && child.Dir?
    case LastOne => w.role.Closer?
    case SendingQuit(_) => w.role.Closer?
    case Delivering => !w.role.Failed?
    case Failing(e) => w.role == Failed(e)
    case FailedAdding => w.role.Failed?
    case FailedQuit(_) => w.role.Failed?
    case Done => true
  }

  predicate Shaped(c: Config, s: State) {
    && |s.workers| == c.workers
    && (forall j <- s.queue :: j.Visit? ==> j.dir.Dir?)
    && (forall w <- s.workers :: ShapedWorker(w))
  }

  // ---------------------------------------------------------------- weights

  function IsVisit(j: Job): nat { if j.Visit? then 1 else 0 }

  function IsQuit(j: Job): nat { if j.Quit? then 1 else 0 }

  /** Pending jobs a worker accounts for: a failing worker never gives its directory back. */
  function Busy(w: Worker): nat {
    if w.role.Failed? then 1 else if w.pc.Listing? then 1 else if w.pc.Pushing? then 2 else 0
  }

  function HasAdded(w: Worker): bool {
    !w.role.Ordinary? && !w.pc.LastOne? && !w.pc.Failing? && !w.pc.FailedAdding?
  }

  function Added(n: nat): Worker -> nat { (w: Worker) => if HasAdded(w) then n else 0 }

  function Starts(n: nat): Worker -> nat { (w: Worker) => if w.role.Ordinary? then 0 else n }

  function ToSend(n: nat): Worker -> nat {
    (w: Worker) =>
      match w.pc
      case LastOne => n
      case SendingQuit(left) => left
      case Failing(_) => n
      case FailedAdding => n
      case FailedQuit(left) => left
      case _ => 0
  }

  /** Ordinary workers leave their loop only by consuming a quit token. */
  function Left(w: Worker): nat { if w.role.Ordinary? && (w.pc.Delivering? || w.pc.Done?) then 1 else 0 }

  function IsCloser(w: Worker): nat { if w.role.Closer? then 1 else 0 }

  function HasDelivered(w: Worker): nat { if w.pc.Done? || w.pc.FailedAdding? || w.pc.FailedQuit? then 1 else 0 }

  function IsError(r: Result): nat { if r.Error? then 1 else 0 }

  function HasReported(w: Worker): nat { if w.role.Failed? && !w.pc.Failing? then 1 else 0 }

  /** Errors that say that something is no directory, or those that do not. */
  function ErrorsOf(notDir: bool): Result -> nat {
    (r: Result) => if r.Error? && r.exception.FileNotDir? == notDir then 1 else 0
  }

  function ReportedOf(notDir: bool): Worker -> nat {
    (w: Worker) => if w.role.Failed? && !w.pc.Failing? && w.role.thrown.FileNotDir? == notDir then 1 else 0
  }

  ghost function JobFiles(c: Config): Job -> multiset<string> {
    (j: Job) => if j.Visit? && j.dir.Dir? then FilesIn(c, Contents(j.dir)) else multiset{}
  }

  /** Files a worker has yet to deliver: those found, unless it failed or delivered them, and those yet to find. */
  ghost function WorkerFiles(c: Config): Worker -> multiset<string> {
    (w: Worker) => (if w.pc.Done? && !w.role.Failed? then multiset{} else multiset(w.output)) + YetToFind(c, w.pc)
  }

  ghost function YetToFind(c: Config, pc: Pc): multiset<string> {
    match pc
    case Listing(_, rest) => FilesIn(c, rest)
    case Pushing(_, child, rest) => (if child.Dir? then FilesIn(c, Contents(child)) else multiset{}) + FilesIn(c, rest)
    case _ => multiset{}
  }

  ghost function ResultFiles(r: Result): multiset<string> {
    if r.Paths? then multiset(r.paths) else multiset{}
  }

  ghost function DirFatals(c: Config, notDir: bool, d: Entry): nat {
    if !d.Dir? then 0 else OwnFatal(c, notDir, d) + FatalsIn(c, notDir, Contents(d))
  }

  ghost function JobFatals(c: Config, notDir: bool): Job -> nat {
    (j: Job) => if j.Visit? then DirFatals(c, notDir, j.dir) else 0
  }

  ghost function WorkerFatals(c: Config, notDir: bool): Worker -> nat {
    (w: Worker) =>
      match w.pc
      case Listing(d, rest) => (if d.Dir? then OwnFatal(c, notDir, d) else 0) + FatalsIn(c, notDir, rest)
      case Pushing(d, child, rest) =>
        (if d.Dir? then OwnFatal(c, notDir, d) else 0) + DirFatals(c, notDir, child) + FatalsIn(c, notDir, rest)
      case _ => if w.role.Failed? && w.role.thrown.FileNotDir? == notDir then 1 else 0
  }

  // ---------------------------------------------------------------- invariant

  ghost predicate Delivers(s: State) {
    && |s.results| == Total(s.workers, HasDelivered)
    && Total(s.results, IsError) == Total(s.workers, HasReported)
    && ReportsWhatWasThrown(s, true) && ReportsWhatWasThrown(s, false)
  }

  ghost predicate ReportsWhatWasThrown(s: State, notDir: bool) {
    Total(s.results, ErrorsOf(notDir)) == Total(s.workers, ReportedOf(notDir))
  }

  /** No file is lost or found twice; only what a failed worker had found is never delivered. */
  ghost predicate Conserves(c: Config, s: State)
    requires c.root.Dir?
  {
    Gather(s.results, ResultFiles) + Gather(s.queue, JobFiles(c)) + Gather(s.workers, WorkerFiles(c))
      == FilesIn(c, Contents(c.root))
  }

  /** Every directory that makes the walk fail is still ahead, or some worker has thrown the exception for it. */
  ghost predicate CountsFatals(c: Config, s: State, notDir: bool)
    requires c.root.Dir?
  {
    Total(s.queue, JobFatals(c, notDir)) + Total(s.workers, WorkerFatals(c, notDir)) == DirFatals(c, notDir, c.root)
  }

  ghost predicate Inv(c: Config, s: State) {
    && ValidConfig(c) && Shaped(c, s) && Balanced(LedgerOf(c, s)) && Delivers(s) && Conserves(c, s)
    && CountsFatals(c, s, true) && CountsFatals(c, s, false)
  }

  lemma ShapedStep(c: Config, s: State, w: nat, job: nat)
    requires Shaped(c, s) && Enabled(s, w, job)
    ensures Shaped(c, Step(c, s, w, job))
  {
    var t, me := Step(c, s, w, job), s.workers[w];
    assert ShapedWorker(me);
    assert ShapedWorker(t.workers[w]);
    forall x | x in t.workers ensures ShapedWorker(x) {}
    if me.pc.Popping? { assert s.queue[job] in s.queue; }
  }

  lemma CountsUpdate(n: nat, ws: seq<Worker>, w: nat, x: Worker)
    requires w < |ws|
    ensures Total(ws[w := x], Busy) + Busy(ws[w]) == Total(ws, Busy) + Busy(x)
    ensures Total(ws[w := x], Added(n)) + Added(n)(ws[w]) == Total(ws, Added(n)) + Added(n)(x)
    ensures Total(ws[w := x], ToSend(n)) + ToSend(n)(ws[w]) == Total(ws, ToSend(n)) + ToSend(n)(x)
    ensures Total(ws[w := x], Left) + Left(ws[w]) == Total(ws, Left) + Left(x)
    ensures Total(ws[w := x], Starts(n)) + Starts(n)(ws[w]) == Total(ws, Starts(n)) + Starts(n)(x)
    ensures Total(ws[w := x], IsCloser) + IsCloser(ws[w]) == Total(ws, IsCloser) + IsCloser(x)
    ensures Total(ws, Busy) >= Busy(ws[w])
  {
    TotalUpdate(ws, w, x, Busy);
    TotalUpdate(ws, w, x, Added(n));
    TotalUpdate(ws, w, x, ToSend(n));
    TotalUpdate(ws, w, x, Left);
    TotalUpdate(ws, w, x, Starts(n));
    TotalUpdate(ws, w, x, IsCloser);
    TotalAtLeast(ws, Busy, w);
  }

  lemma QueueCounts(queue: seq<Job>, job: nat, x: Job)
    ensures Total(queue + [x], IsVisit) == Total(queue, IsVisit) + IsVisit(x)
    ensures Total(queue + [x], IsQuit) == Total(queue, IsQuit) + IsQuit(x)
    ensures job < |queue| ==> Total(queue, IsVisit) == Total(RemoveAt(queue, job), IsVisit) + IsVisit(queue[job])
    ensures job < |queue| ==> Total(queue, IsQuit) == Total(RemoveAt(queue, job), IsQuit) + IsQuit(queue[job])
  {
    TotalAppend(queue, x, IsVisit);
    TotalAppend(queue, x, IsQuit);
    if job < |queue| {
      TotalRemove(queue, job, IsVisit);
      TotalRemove(queue, job, IsQuit);
    }
  }

  /** The counters of a state. */
  datatype Ledger = Ledger(pending: int, visits: nat, quits: nat, busy: nat, added: nat, toSend: nat, left: nat,
                           starts: nat, closers: nat)

  ghost function LedgerOf(c: Config, s: State): Ledger {
    Ledger(s.pending, Total(s.queue, IsVisit), Total(s.queue, IsQuit), Total(s.workers, Busy),
           Total(s.workers, Added(c.workers)), Total(s.workers, ToSend(c.workers)), Total(s.workers, Left),
           Total(s.workers, Starts(c.workers)), Total(s.workers, IsCloser))
  }

  ghost predicate Balanced(l: Ledger) {
    && l.pending == l.visits + l.busy + l.added
    && l.quits + l.toSend + l.left == l.starts
    && l.closers <= 1
    && (l.closers == 1 ==> l.visits == 0 && l.busy == 0)
    && (l.starts == 0 ==> l.pending >= 1)
  }

  /** What one worker moving from `me` to `x` does to the ledger, besides the queue and the counter. */
  ghost predicate Moved(n: nat, l: Ledger, k: Ledger, me: Worker, x: Worker) {
    && k.busy + Busy(me) == l.busy + Busy(x) && l.busy >= Busy(me)
    && k.added + Added(n)(me) == l.added + Added(n)(x)
    && k.toSend + ToSend(n)(me) == l.toSend + ToSend(n)(x)
    && k.left + Left(me) == l.left + Left(x)
    && k.starts + Starts(n)(me) == l.starts + Starts(n)(x)
    && k.closers + IsCloser(me) == l.closers + IsCloser(x)
  }

  lemma LedgerMoved(c: Config, s: State, w: nat, job: nat)
    requires Shaped(c, s) && Enabled(s, w, job)
    ensures Moved(c.workers, LedgerOf(c, s), LedgerOf(c, Step(c, s, w, job)), s.workers[w],
                  Step(c, s, w, job).workers[w])
  {
    var t := Step(c, s, w, job);
    assert ShapedWorker(s.workers[w]);
    assert t.workers == s.workers[w := t.workers[w]];
    CountsUpdate(c.workers, s.workers, w, t.workers[w]);
  }

  lemma PoppingBalanced(c: Config, s: State, w: nat, job: nat)
    requires Shaped(c, s) && Enabled(s, w, job) && Balanced(LedgerOf(c, s)) && s.workers[w].pc.Popping?
    ensures Balanced(LedgerOf(c, Step(c, s, w, job)))
  {
    assert ShapedWorker(s.workers[w]);
    LedgerMoved(c, s, w, job);
    QueueCounts(s.queue, job, Quit);
  }

  lemma ListingBalanced(c: Config, s: State, w: nat, job: nat)
    requires ValidConfig(c) && Shaped(c, s) && Enabled(s, w, job) && Balanced(LedgerOf(c, s))
    requires s.workers[w].pc.Listing? && s.workers[w].pc.rest != []
    ensures Balanced(LedgerOf(c, Step(c, s, w, job)))
  {
    assert ShapedWorker(s.workers[w]);
    LedgerMoved(c, s, w, job);
  }

  lemma ListedBalanced(c: Config, s: State, w: nat, job: nat)
    requires ValidConfig(c) && Shaped(c, s) && Enabled(s, w, job) && Balanced(LedgerOf(c, s))
    requires s.workers[w].pc.Listing? && s.workers[w].pc.rest == []
    ensures Balanced(LedgerOf(c, Step(c, s, w, job)))
  {
    assert ShapedWorker(s.workers[w]);
    LedgerMoved(c, s, w, job);
  }

  lemma PushingBalanced(c: Config, s: State, w: nat, job: nat)
    requires Shaped(c, s) && Enabled(s, w, job) && Balanced(LedgerOf(c, s)) && s.workers[w].pc.Pushing?
    ensures Balanced(LedgerOf(c, Step(c, s, w, job)))
  {
    assert ShapedWorker(s.workers[w]);
    LedgerMoved(c, s, w, job);
    QueueCounts(s.queue, 0, Visit(s.workers[w].pc.child));
  }

  /** Sending a quit token takes it from those to send to the queue. */
  ghost predicate TokenMoved(n: nat, l: Ledger, k: Ledger, me: Worker, x: Worker) {
    && Moved(n, l, k, me, x) && k.pending == l.pending && k.visits == l.visits
    && k.quits + ToSend(n)(x) == l.quits + ToSend(n)(me)
    && Busy(x) == Busy(me) && Added(n)(x) == Added(n)(me) && Left(x) == Left(me)
    && Starts(n)(x) == Starts(n)(me) && IsCloser(x) == IsCloser(me)
  }

  lemma TokenMovedBalanced(n: nat, l: Ledger, k: Ledger, me: Worker, x: Worker)
    requires Balanced(l) && TokenMoved(n, l, k, me, x)
    ensures Balanced(k)
  {
  }

  lemma SendingBalanced(c: Config, s: State, w: nat, job: nat)
    requires Shaped(c, s) && Enabled(s, w, job) && Balanced(LedgerOf(c, s))
    requires s.workers[w].pc.SendingQuit? || s.workers[w].pc.FailedQuit?
    ensures Balanced(LedgerOf(c, Step(c, s, w, job)))
  {
    var t, me := Step(c, s, w, job), s.workers[w];
    LedgerMoved(c, s, w, job);
    TokenCounts(c, s, w, job);
    TokenKeepsRest(c, s, w, job);
    TokenMovedBalanced(c.workers, LedgerOf(c, s), LedgerOf(c, t), me, t.workers[w]);
  }

  lemma TokenCounts(c: Config, s: State, w: nat, job: nat)
    requires Shaped(c, s) && Enabled(s, w, job)
    requires s.workers[w].pc.SendingQuit? || s.workers[w].pc.FailedQuit?
    ensures var t, toSend := Step(c, s, w, job), ToSend(c.workers);
      && t.pending == s.pending && Total(t.queue, IsVisit) == Total(s.queue, IsVisit)
      && Total(t.queue, IsQuit) + toSend(t.workers[w]) == Total(s.queue, IsQuit) + toSend(s.workers[w])
  {
    QueueCounts(s.queue, 0, Quit);
  }

  lemma TokenKeepsRest(c: Config, s: State, w: nat, job: nat)
    requires Shaped(c, s) && Enabled(s, w, job)
    requires s.workers[w].pc.SendingQuit? || s.workers[w].pc.FailedQuit?
    ensures var n, me, x := c.workers, s.workers[w], Step(c, s, w, job).workers[w];
      && Busy(x) == Busy(me) && Added(n)(x) == Added(n)(me) && Left(x) == Left(me)
      && Starts(n)(x) == Starts(n)(me) && IsCloser(x) == IsCloser(me)
  {
    assert ShapedWorker(s.workers[w]);
  }

  lemma OthersBalanced(c: Config, s: State, w: nat, job: nat)
    requires Shaped(c, s) && Enabled(s, w, job) && Balanced(LedgerOf(c, s))
    requires var pc := s.workers[w].pc; pc.LastOne? || pc.Delivering? || pc.Failing? || pc.FailedAdding?
    ensures Balanced(LedgerOf(c, Step(c, s, w, job)))
  {
    assert ShapedWorker(s.workers[w]);
    LedgerMoved(c, s, w, job);
  }

  lemma BalancedStep(c: Config, s: State, w: nat, job: nat)
    requires ValidConfig(c) && Shaped(c, s) && Enabled(s, w, job) && Balanced(LedgerOf(c, s))
    ensures Balanced(LedgerOf(c, Step(c, s, w, job)))
  {
    match s.workers[w].pc
    case Popping => PoppingBalanced(c, s, w, job);
    case Listing(_, rest) =>
      if rest == [] { ListedBalanced(c, s, w, job); } else { ListingBalanced(c, s, w, job); }
    case Pushing(_, _, _) => PushingBalanced(c, s, w, job);
    case SendingQuit(_) => SendingBalanced(c, s, w, job);
    case FailedQuit(_) => SendingBalanced(c, s, w, job);
    case _ => OthersBalanced(c, s, w, job);
  }

  lemma ResultsGrow(c: Config, s: State, w: nat, job: nat)
    requires Shaped(c, s) && Enabled(s, w, job)
    ensures var t, me := Step(c, s, w, job), s.workers[w];
      && (me.pc.Delivering? ==> t.results == s.results + [Paths(me.output)])
      && (me.pc.Failing? ==> t.results == s.results + [Error(me.pc.exception)])
      && (!me.pc.Delivering? && !me.pc.Failing? ==> t.results == s.results)
      && HasDelivered(t.workers[w]) == HasDelivered(me) + (if me.pc.Delivering? || me.pc.Failing? then 1 else 0)
      && HasReported(t.workers[w]) == HasReported(me) + (if me.pc.Failing? then 1 else 0)
      && t.workers == s.workers[w := t.workers[w]]
  {
    assert ShapedWorker(s.workers[w]);
  }

  lemma DeliversStep(c: Config, s: State, w: nat, job: nat)
    requires Shaped(c, s) && Enabled(s, w, job) && Delivers(s)
    ensures Delivers(Step(c, s, w, job))
  {
    var t, me := Step(c, s, w, job), s.workers[w];
    ResultsGrow(c, s, w, job);
    TotalUpdate(s.workers, w, t.workers[w], HasDelivered);
    TotalUpdate(s.workers, w, t.workers[w], HasReported);
    if me.pc.Delivering? { TotalAppend(s.results, Paths(me.output), IsError); }
    if me.pc.Failing? { TotalAppend(s.results, Error(me.pc.exception), IsError); }
    ReportsStep(c, s, w, job, true);
    ReportsStep(c, s, w, job, false);
  }

  lemma ReportsStep(c: Config, s: State, w: nat, job: nat, notDir: bool)
    requires Shaped(c, s) && Enabled(s, w, job) && ReportsWhatWasThrown(s, notDir)
    ensures ReportsWhatWasThrown(Step(c, s, w, job), notDir)
  {
    var t, me := Step(c, s, w, job), s.workers[w];
    assert ShapedWorker(me);
    ResultsGrow(c, s, w, job);
    TotalUpdate(s.workers, w, t.workers[w], ReportedOf(notDir));
    if me.pc.Delivering? { TotalAppend(s.results, Paths(me.output), ErrorsOf(notDir)); }
    if me.pc.Failing? { TotalAppend(s.results, Error(me.pc.exception), ErrorsOf(notDir)); }
  }

  /** The next entry contributes what a visit to it would. */
  lemma NextEntry(c: Config, rest: seq<Entry>)
    requires rest != []
    ensures FilesIn(c, rest) == FilesOf(c, rest[0]) + FilesIn(c, rest[1..])
    ensures !Wanted(c, rest[0]) ==> FilesOf(c, rest[0]) == multiset{}
    ensures Wanted(c, rest[0]) && rest[0].Dir? ==> FilesOf(c, rest[0]) == FilesIn(c, Contents(rest[0]))
    ensures Wanted(c, rest[0]) && rest[0].File? ==> FilesOf(c, rest[0]) == multiset{rest[0].path}
  {
  }

  lemma NextFatals(c: Config, notDir: bool, rest: seq<Entry>)
    requires rest != []
    ensures FatalsIn(c, notDir, rest) == FatalsOf(c, notDir, rest[0]) + FatalsIn(c, notDir, rest[1..])
    ensures !Wanted(c, rest[0]) || rest[0].File? ==> FatalsOf(c, notDir, rest[0]) == 0
    ensures Wanted(c, rest[0]) && rest[0].Dir? ==> FatalsOf(c, notDir, rest[0]) == DirFatals(c, notDir, rest[0])
  {
  }

  ghost function QueueFatals(c: Config, notDir: bool, s: State): nat {
    Total(s.queue, JobFatals(c, notDir))
  }

  lemma FatalsMove(c: Config, s: State, w: nat, job: nat, notDir: bool)
    requires ValidConfig(c) && Shaped(c, s) && Enabled(s, w, job)
    requires !s.workers[w].pc.Listing?
    ensures var t := Step(c, s, w, job);
      |t.workers| == |s.workers| &&
      QueueFatals(c, notDir, t) + WorkerFatals(c, notDir)(t.workers[w])
        == QueueFatals(c, notDir, s) + WorkerFatals(c, notDir)(s.workers[w])
  {
    var me := s.workers[w];
    assert ShapedWorker(me);
    match me.pc
    case Popping => TotalRemove(s.queue, job, JobFatals(c, notDir));
    case Pushing(_, child, _) => TotalAppend(s.queue, Visit(child), JobFatals(c, notDir));
    case _ => TotalAppend(s.queue, Quit, JobFatals(c, notDir));
  }

  lemma FatalsListed(c: Config, s: State, w: nat, job: nat, notDir: bool)
    requires ValidConfig(c) && Shaped(c, s) && Enabled(s, w, job)
    requires s.workers[w].pc.Listing?
    ensures var t := Step(c, s, w, job);
      |t.workers| == |s.workers| &&
      QueueFatals(c, notDir, t) + WorkerFatals(c, notDir)(t.workers[w])
        == QueueFatals(c, notDir, s) + WorkerFatals(c, notDir)(s.workers[w])
  {
    var me := s.workers[w];
    assert ShapedWorker(me);
    if me.pc.rest != [] { NextFatals(c, notDir, me.pc.rest); }
  }

  lemma FatalsStep(c: Config, s: State, w: nat, job: nat, notDir: bool)
    requires ValidConfig(c) && Shaped(c, s) && Enabled(s, w, job) && CountsFatals(c, s, notDir)
    ensures CountsFatals(c, Step(c, s, w, job), notDir)
  {
    var t := Step(c, s, w, job);
    assert ShapedWorker(s.workers[w]);
    assert t.workers == s.workers[w := t.workers[w]];
    TotalUpdate(s.workers, w, t.workers[w], WorkerFatals(c, notDir));
    if s.workers[w].pc.Listing? {
      FatalsListed(c, s, w, job, notDir);
    } else {
      FatalsMove(c, s, w, job, notDir);
    }
  }

  // ---------------------------------------------------------------- conservation

  /** Results, queue and workers exchange files; the worker's share is replaced from `old'` to `new'`. */
  lemma Exchange(r: multiset<string>, q: multiset<string>, ws: multiset<string>,
                 r': multiset<string>, q': multiset<string>, ws': multiset<string>,
                 mine: multiset<string>, mine': multiset<string>)
    requires ws' + mine == ws + mine' && r' + q' + mine' == r + q + mine
    ensures r' + q' + ws' == r + q + ws
  {
    var a, b := r' + q' + ws', r + q + ws;
    forall k: string ensures a[k] == b[k] {
      assert (ws' + mine)[k] == (ws + mine')[k];
      assert (r' + q' + mine')[k] == (r + q + mine)[k];
    }
  }

  ghost function QueueFiles(c: Config, s: State): multiset<string> {
    Gather(s.queue, JobFiles(c))
  }

  ghost function DeliveredFiles(s: State): multiset<string> {
    Gather(s.results, ResultFiles)
  }

  lemma Regroup(a: multiset<string>, b: multiset<string>, d: multiset<string>)
    ensures (a + b) + d == a + (b + d) && (a + b) + d == (a + d) + b && a + (b + d) == b + (a + d)
  {
    var x, y, z, u := (a + b) + d, a + (b + d), (a + d) + b, b + (a + d);
    forall k: string ensures x[k] == y[k] == z[k] == u[k] {}
  }

  /** The files of a worker in the middle of a directory. */
  lemma ListingFiles(c: Config, w: Worker)
    requires w.pc.Listing? || w.pc.Pushing? || w.pc.Popping? || w.pc.LastOne? || w.pc.Failing?
    ensures WorkerFiles(c)(w) == multiset(w.output) + YetToFind(c, w.pc)
  {
  }

  lemma ListedShare(c: Config, s: State, w: nat, job: nat)
    requires ValidConfig(c) && Shaped(c, s) && Enabled(s, w, job) && s.workers[w].pc.Listing?
    ensures var t := Step(c, s, w, job);
      |t.workers| == |s.workers| && t.results == s.results && t.queue == s.queue &&
      WorkerFiles(c)(t.workers[w]) == WorkerFiles(c)(s.workers[w])
  {
    var t, me := Step(c, s, w, job), s.workers[w];
    assert ShapedWorker(me);
    ListingFiles(c, me);
    ListingFiles(c, t.workers[w]);
    ListedFiles(c, me, t.workers[w]);
  }

  /** One round of the listing loop: from `me` to `x`. */
  lemma ListedFiles(c: Config, me: Worker, x: Worker)
    requires me.pc.Listing?
    requires var rest := me.pc.rest;
      if rest == [] then x.output == me.output && YetToFind(c, x.pc) == multiset{}
      else if !Wanted(c, rest[0]) then x.output == me.output && x.pc == Listing(me.pc.dir, rest[1..])
      else if rest[0].Dir? then x.output == me.output && x.pc == Pushing(me.pc.dir, rest[0], rest[1..])
      else x.output == me.output + [rest[0].path] && x.pc == Listing(me.pc.dir, rest[1..])
    ensures multiset(x.output) + YetToFind(c, x.pc) == multiset(me.output) + YetToFind(c, me.pc)
  {
    var rest := me.pc.rest;
    if rest != [] {
      NextEntry(c, rest);
      if Wanted(c, rest[0]) && rest[0].File? { FoundFile(me.output, rest[0].path, FilesIn(c, rest[1..])); }
    }
  }

  lemma FoundFile(output: seq<string>, path: string, more: multiset<string>)
    ensures multiset(output + [path]) + more == multiset(output) + (multiset{path} + more)
  {
    assert multiset(output + [path]) == multiset(output) + multiset{path};
    Regroup(multiset(output), multiset{path}, more);
  }

  lemma PoppedFiles(c: Config, job: Job, me: Worker, x: Worker)
    requires me.pc.Popping? && me.role.Ordinary? && (job.Visit? ==> job.dir.Dir?)
    requires x == me.(pc := if job.Quit? then Delivering else Listing(job.dir, Contents(job.dir)))
    ensures WorkerFiles(c)(me) == multiset(me.output)
    ensures WorkerFiles(c)(x) == multiset(me.output) + JobFiles(c)(job)
  {
  }

  lemma PoppedShare(c: Config, s: State, w: nat, job: nat)
    requires ValidConfig(c) && Shaped(c, s) && Enabled(s, w, job) && s.workers[w].pc.Popping?
    ensures var t := Step(c, s, w, job);
      |t.workers| == |s.workers| && t.results == s.results &&
      QueueFiles(c, t) + WorkerFiles(c)(t.workers[w]) == QueueFiles(c, s) + WorkerFiles(c)(s.workers[w])
  {
    var t, me := Step(c, s, w, job), s.workers[w];
    assert ShapedWorker(me);
    GatherRemove(s.queue, job, JobFiles(c));
    var j := JobFiles(c)(s.queue[job]);
    assert s.queue[job] in s.queue;
    PoppedFiles(c, s.queue[job], me, t.workers[w]);
    Regroup(QueueFiles(c, t), multiset(me.output), j);
  }

  lemma PushedShare(c: Config, s: State, w: nat, job: nat)
    requires ValidConfig(c) && Shaped(c, s) && Enabled(s, w, job) && s.workers[w].pc.Pushing?
    ensures var t := Step(c, s, w, job);
      |t.workers| == |s.workers| && t.results == s.results &&
      QueueFiles(c, t) + WorkerFiles(c)(t.workers[w]) == QueueFiles(c, s) + WorkerFiles(c)(s.workers[w])
  {
    var t, me := Step(c, s, w, job), s.workers[w];
    assert ShapedWorker(me);
    var job' := Visit(me.pc.child);
    GatherAppend(s.queue, job', JobFiles(c));
    var j, out, more := JobFiles(c)(job'), multiset(me.output), FilesIn(c, me.pc.rest);
    assert WorkerFiles(c)(me) == out + (j + more) && WorkerFiles(c)(t.workers[w]) == out + more;
    Regroup(out, j, more);
    Regroup(QueueFiles(c, s), j, out + more);
  }

  lemma QuitBringsNoFiles(c: Config, queue: seq<Job>)
    ensures Gather(queue + [Quit], JobFiles(c)) == Gather(queue, JobFiles(c))
  {
    GatherAppend(queue, Quit, JobFiles(c));
  }

  lemma QuitShare(c: Config, s: State, w: nat, job: nat)
    requires ValidConfig(c) && Shaped(c, s) && Enabled(s, w, job)
    requires s.workers[w].pc.SendingQuit? || s.workers[w].pc.FailedQuit?
    ensures var t := Step(c, s, w, job);
      && |t.workers| == |s.workers| && t.results == s.results && QueueFiles(c, t) == QueueFiles(c, s)
      && WorkerFiles(c)(t.workers[w]) == WorkerFiles(c)(s.workers[w])
  {
    assert ShapedWorker(s.workers[w]);
    QuitBringsNoFiles(c, s.queue);
  }

  lemma DeliveredShare(c: Config, s: State, w: nat, job: nat)
    requires ValidConfig(c) && Shaped(c, s) && Enabled(s, w, job) && s.workers[w].pc.Delivering?
    ensures var t := Step(c, s, w, job);
      |t.workers| == |s.workers| && t.queue == s.queue &&
      DeliveredFiles(t) + WorkerFiles(c)(t.workers[w]) == DeliveredFiles(s) + WorkerFiles(c)(s.workers[w])
  {
    var me := s.workers[w];
    assert ShapedWorker(me);
    GatherAppend(s.results, Paths(me.output), ResultFiles);
  }

  lemma ErrorShare(c: Config, s: State, w: nat, job: nat)
    requires ValidConfig(c) && Shaped(c, s) && Enabled(s, w, job) && s.workers[w].pc.Failing?
    ensures var t := Step(c, s, w, job);
      |t.workers| == |s.workers| && t.queue == s.queue &&
      DeliveredFiles(t) + WorkerFiles(c)(t.workers[w]) == DeliveredFiles(s) + WorkerFiles(c)(s.workers[w])
  {
    var me := s.workers[w];
    assert ShapedWorker(me);
    GatherAppend(s.results, Error(me.pc.exception), ResultFiles);
  }

  lemma AddingShare(c: Config, s: State, w: nat, job: nat)
    requires ValidConfig(c) && Shaped(c, s) && Enabled(s, w, job)
    requires s.workers[w].pc.LastOne? || s.workers[w].pc.FailedAdding?
    ensures var t := Step(c, s, w, job);
      |t.workers| == |s.workers| && t.queue == s.queue && t.results == s.results &&
      WorkerFiles(c)(t.workers[w]) == WorkerFiles(c)(s.workers[w])
  {
    assert ShapedWorker(s.workers[w]);
  }

  /** The files that leave the worker in this step are those the queue and the results gain. */
  lemma ShareMoves(c: Config, s: State, w: nat, job: nat)
    requires ValidConfig(c) && Shaped(c, s) && Enabled(s, w, job)
    ensures var t := Step(c, s, w, job);
      DeliveredFiles(t) + QueueFiles(c, t) + WorkerFiles(c)(t.workers[w])
        == DeliveredFiles(s) + QueueFiles(c, s) + WorkerFiles(c)(s.workers[w])
  {
    var t := Step(c, s, w, job);
    match s.workers[w].pc {
      case Listing(_, _) => ListedShare(c, s, w, job);
      case Popping => PoppedShare(c, s, w, job);
      case Pushing(_, _, _) => PushedShare(c, s, w, job);
      case SendingQuit(_) => QuitShare(c, s, w, job);
      case FailedQuit(_) => QuitShare(c, s, w, job);
      case Delivering => DeliveredShare(c, s, w, job);
      case Failing(_) => ErrorShare(c, s, w, job);
      case LastOne => AddingShare(c, s, w, job);
      case FailedAdding => AddingShare(c, s, w, job);
    }
    Regroup(DeliveredFiles(t), QueueFiles(c, t), WorkerFiles(c)(t.workers[w]));
    Regroup(DeliveredFiles(s), QueueFiles(c, s), WorkerFiles(c)(s.workers[w]));
  }

  lemma ConservesStep(c: Config, s: State, w: nat, job: nat)
    requires ValidConfig(c) && Shaped(c, s) && Enabled(s, w, job) && Conserves(c, s)
    ensures Conserves(c, Step(c, s, w, job))
  {
    ShareMoves(c, s, w, job);
    ResultsGrow(c, s, w, job);
    SharesAddUp(c, s, Step(c, s, w, job), w);
  }

  /** What one worker exchanges with the queue and the results leaves the sum of all files as it was. */
  lemma SharesAddUp(c: Config, s: State, t: State, w: nat)
    requires c.root.Dir? && Conserves(c, s) && w < |s.workers| == |t.workers|
    requires t.workers == s.workers[w := t.workers[w]]
    requires DeliveredFiles(t) + QueueFiles(c, t) + WorkerFiles(c)(t.workers[w])
      == DeliveredFiles(s) + QueueFiles(c, s) + WorkerFiles(c)(s.workers[w])
    ensures Conserves(c, t)
  {
    GatherUpdate(s.workers, w, t.workers[w], WorkerFiles(c));
    Exchange(DeliveredFiles(s), QueueFiles(c, s), Gather(s.workers, WorkerFiles(c)),
             DeliveredFiles(t), QueueFiles(c, t), Gather(t.workers, WorkerFiles(c)),
             WorkerFiles(c)(s.workers[w]), WorkerFiles(c)(t.workers[w]));
  }

  /** Every interleaving keeps the invariant. */
  lemma InvStep(c: Config, s: State, w: nat, job: nat)
    requires Inv(c, s) && Enabled(s, w, job)
    ensures Inv(c, Step(c, s, w, job))
  {
    ShapedStep(c, s, w, job);
    BalancedStep(c, s, w, job);
    DeliversStep(c, s, w, job);
    ConservesStep(c, s, w, job);
    FatalsStep(c, s, w, job, true);
    FatalsStep(c, s, w, job, false);
  }
}
