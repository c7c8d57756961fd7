/** What holds over whole runs of the directory walk: safety, progress, termination and the answer. */
module DirectoryWalkRuns {
  import opened Collections
  import opened Sums
  import opened DirectoryWalk

  lemma InitialWorkers(ws: seq<Worker>)
    requires forall i :: 0 <= i < |ws| ==> ws[i] == Worker(Popping, [], Ordinary)
    ensures Total(ws, Busy) == 0 && Total(ws, Left) == 0 && Total(ws, IsCloser) == 0
  {
    TotalAllZero(ws, Busy);
    TotalAllZero(ws, Left);
    TotalAllZero(ws, IsCloser);
  }

  lemma InitialTokens(n: nat, ws: seq<Worker>)
    requires forall i :: 0 <= i < |ws| ==> ws[i] == Worker(Popping, [], Ordinary)
    ensures Total(ws, Added(n)) == 0 && Total(ws, ToSend(n)) == 0 && Total(ws, Starts(n)) == 0
  {
    TotalAllZero(ws, Added(n));
    TotalAllZero(ws, ToSend(n));
    TotalAllZero(ws, Starts(n));
  }

  lemma InitialShares(c: Config, ws: seq<Worker>)
    requires forall i :: 0 <= i < |ws| ==> ws[i] == Worker(Popping, [], Ordinary)
    ensures Total(ws, HasDelivered) == 0 && Total(ws, HasReported) == 0
    ensures Gather(ws, WorkerFiles(c)) == multiset{}
  {
    TotalAllZero(ws, HasDelivered);
    TotalAllZero(ws, HasReported);
    GatherAllEmpty(ws, WorkerFiles(c));
  }

  lemma InitialQueue(c: Config)
    requires c.root.Dir?
    ensures var queue := Initial(c).queue;
      && Total(queue, IsVisit) == 1 && Total(queue, IsQuit) == 0
      && Gather(queue, JobFiles(c)) == FilesIn(c, Contents(c.root))
  {
    var empty: seq<Job> := [];
    assert Initial(c).queue == empty + [Visit(c.root)];
    TotalAppend(empty, Visit(c.root), IsVisit);
    TotalAppend(empty, Visit(c.root), IsQuit);
    GatherAppend(empty, Visit(c.root), JobFiles(c));
  }

  lemma InitialCounts(c: Config)
    requires ValidConfig(c)
    ensures Shaped(c, Initial(c)) && Balanced(LedgerOf(c, Initial(c)))
  {
    InitialWorkers(Initial(c).workers);
    InitialTokens(c.workers, Initial(c).workers);
    InitialQueue(c);
  }

  lemma InitialFiles(c: Config)
    requires ValidConfig(c)
    ensures Conserves(c, Initial(c))
  {
    InitialShares(c, Initial(c).workers);
    InitialQueue(c);
    var none: multiset<string>, files := multiset{}, FilesIn(c, Contents(c.root));
    assert none + files + none == files;
  }

  lemma InitialInv(c: Config)
    requires ValidConfig(c)
    ensures Inv(c, Initial(c))
  {
    InitialCounts(c);
    InitialFiles(c);
    InitialDelivers(c);
    InitialFatals(c, true);
    InitialFatals(c, false);
  }

  lemma InitialFatals(c: Config, notDir: bool)
    requires ValidConfig(c)
    ensures CountsFatals(c, Initial(c), notDir) && ReportsWhatWasThrown(Initial(c), notDir)
  {
    var s := Initial(c);
    var empty: seq<Job> := [];
    assert s.queue == empty + [Visit(c.root)];
    TotalAppend(empty, Visit(c.root), JobFatals(c, notDir));
    TotalAllZero(s.workers, WorkerFatals(c, notDir));
    TotalAllZero(s.workers, ReportedOf(notDir));
  }

  lemma InitialDelivers(c: Config)
    requires ValidConfig(c)
    ensures Delivers(Initial(c))
  {
    InitialShares(c, Initial(c).workers);
    InitialFatals(c, true);
    InitialFatals(c, false);
  }

  /** A schedule names, step by step, the worker that moves and the job it pops if it pops one. */
  type Schedule = seq<(nat, nat)>

  ghost predicate Possible(c: Config, s: State, schedule: Schedule)
    decreases |schedule|
  {
    schedule == [] ||
    (&& Shaped(c, s) && Enabled(s, schedule[0].0, schedule[0].1)
     && Possible(c, Step(c, s, schedule[0].0, schedule[0].1), schedule[1..]))
  }

  ghost function After(c: Config, s: State, schedule: Schedule): State
    requires Possible(c, s, schedule)
    decreases |schedule|
  {
    if schedule == [] then s else After(c, Step(c, s, schedule[0].0, schedule[0].1), schedule[1..])
  }

  // ---------------------------------------------------------------- safety

  lemma QueueLength(queue: seq<Job>)
    ensures |queue| == Total(queue, IsVisit) + Total(queue, IsQuit)
  {
    TotalSumIsLength(queue, IsVisit, IsQuit);
  }

  /** The counter never falls below the number of jobs in the queue, quit tokens included. */
  lemma PendingCoversQueue(c: Config, s: State)
    requires Inv(c, s)
    ensures s.pending >= |s.queue| + Total(s.workers, Busy)
  {
    QueueLength(s.queue);
    forall i | 0 <= i < |s.workers|
      ensures Starts(c.workers)(s.workers[i]) <= Added(c.workers)(s.workers[i]) + ToSend(c.workers)(s.workers[i])
    {
      assert ShapedWorker(s.workers[i]);
    }
    TotalAtMostSum(s.workers, Starts(c.workers), Added(c.workers), ToSend(c.workers));
    assert LedgerOf(c, s).quits <= LedgerOf(c, s).added;
  }

  /** Normal shutdown is started by one worker only, when no directory is left anywhere and nothing has failed. */
  lemma NormalShutdownIsClean(c: Config, s: State, i: nat, j: nat)
    requires Inv(c, s) && i < |s.workers| && j < |s.workers| && s.workers[i].role.Closer?
    ensures forall x <- s.queue :: x.Quit?
    ensures !s.workers[j].role.Failed? && !s.workers[j].pc.Listing? && !s.workers[j].pc.Pushing?
    ensures s.workers[j].role.Closer? ==> i == j
  {
    TotalAtLeast(s.workers, IsCloser, i);
    TotalAtLeast(s.workers, Busy, j);
    forall x | x in s.queue ensures x.Quit? {
      var k :| 0 <= k < |s.queue| && s.queue[k] == x;
      TotalAtLeast(s.queue, IsVisit, k);
    }
    if s.workers[j].role.Closer? && i != j {
      TotalUpdate(s.workers, i, s.workers[i].(role := Ordinary), IsCloser);
      TotalAtLeast(s.workers[i := s.workers[i].(role := Ordinary)], IsCloser, j);
    }
  }

  function Live(w: Worker): nat { if w.role.Ordinary? && !w.pc.Delivering? && !w.pc.Done? then 1 else 0 }

  function NotLive(w: Worker): nat { 1 - Live(w) }

  /** Once shutdown has started, there are or will be enough quit tokens for the workers still in their loop. */
  lemma TokensCoverLiveWorkers(c: Config, s: State, i: nat)
    requires Inv(c, s) && i < |s.workers| && !s.workers[i].role.Ordinary?
    ensures Total(s.queue, IsQuit) + Total(s.workers, ToSend(c.workers)) >= Total(s.workers, Live)
  {
    var n := c.workers;
    TotalAtLeast(s.workers, Starts(n), i);
    forall k | 0 <= k < |s.workers| ensures Left(s.workers[k]) <= NotLive(s.workers[k]) + 0 {}
    TotalSumIsLength(s.workers, Live, NotLive);
    TotalAtMostSum(s.workers, Left, NotLive, Nothing);
    TotalAllZero(s.workers, Nothing);
    assert LedgerOf(c, s).starts >= n;
  }

  function Nothing(w: Worker): nat { 0 }

  // ---------------------------------------------------------------- progress

  ghost predicate AllDone(s: State) {
    forall w <- s.workers :: w.pc.Done?
  }

  /** A worker that waits for a job gets one once all others wait or are done. */
  lemma WaitingWorkersFindJobs(c: Config, s: State, w: nat)
    requires Inv(c, s) && w < |s.workers| && s.workers[w].pc.Popping?
    requires forall i :: 0 <= i < |s.workers| ==> s.workers[i].pc.Popping? || s.workers[i].pc.Done?
    ensures |s.queue| > 0
  {
    QueueLength(s.queue);
    if i :| 0 <= i < |s.workers| && !s.workers[i].role.Ordinary? {
      TokensCoverLiveWorkers(c, s, i);
      TotalAllZero(s.workers, ToSend(c.workers));
      assert ShapedWorker(s.workers[w]);
      TotalAtLeast(s.workers, Live, w);
    } else {
      TotalAllZero(s.workers, Starts(c.workers));
      TotalAllZero(s.workers, Added(c.workers));
      TotalAllZero(s.workers, Busy);
    }
  }

  /** No run gets stuck: while some worker is not done, some worker can move. */
  lemma Progress(c: Config, s: State) returns (w: nat, job: nat)
    requires Inv(c, s) && !AllDone(s)
    ensures Enabled(s, w, job)
  {
    job := 0;
    if i :| 0 <= i < |s.workers| && !s.workers[i].pc.Done? && !s.workers[i].pc.Popping? {
      w := i;
    } else {
      w :| 0 <= w < |s.workers| && !s.workers[w].pc.Done?;
      WaitingWorkersFindJobs(c, s, w);
    }
  }

  // ---------------------------------------------------------------- termination

  ghost function EntriesCost(c: Config, entries: seq<Entry>): nat
    decreases entries
  {
    if entries == [] then 0 else EntryCost(c, entries[0]) + EntriesCost(c, entries[1..])
  }

  /** Steps still needed for an entry: skip or record it, or count, push, pop and list it. */
  ghost function EntryCost(c: Config, e: Entry): nat
    decreases e
  {
    if !Wanted(c, e) || e.File? || e.failure.Some? then 5 else 5 + EntriesCost(c, e.entries)
  }

  ghost function JobCost(c: Config): Job -> nat {
    (j: Job) => if j.Visit? && j.dir.Dir? then 3 + EntriesCost(c, Contents(j.dir)) else 0
  }

  ghost function PcCost(c: Config, pc: Pc): nat {
    var n := c.workers;
    match pc
    case Popping => n + 5
    case Listing(_, rest) => n + 6 + EntriesCost(c, rest)
    case Pushing(_, child, rest) => n + 7 + JobCost(c)(Visit(child)) + EntriesCost(c, rest)
    case LastOne => n + 3
    case SendingQuit(left) => left + 2
    case Delivering => 1
    case Failing(_) => n + 3
    case FailedAdding => n + 2
    case FailedQuit(left) => left + 1
    case Done => 0
  }

  ghost function WorkerCost(c: Config): Worker -> nat {
    (w: Worker) => PcCost(c, w.pc)
  }

  ghost function Measure(c: Config, s: State): nat {
    Total(s.queue, JobCost(c)) + Total(s.workers, WorkerCost(c))
  }

  ghost function QueueCost(c: Config, s: State): nat {
    Total(s.queue, JobCost(c))
  }

  lemma QueueingCostFalls(c: Config, s: State, w: nat, job: nat)
    requires Shaped(c, s) && Enabled(s, w, job)
    requires var pc := s.workers[w].pc; pc.Popping? || pc.Pushing? || pc.SendingQuit? || pc.FailedQuit?
    ensures var t := Step(c, s, w, job);
      QueueCost(c, t) + WorkerCost(c)(t.workers[w]) < QueueCost(c, s) + WorkerCost(c)(s.workers[w])
  {
    var me := s.workers[w];
    assert ShapedWorker(me);
    match me.pc
    case Popping => TotalRemove(s.queue, job, JobCost(c));
    case Pushing(_, child, _) => TotalAppend(s.queue, Visit(child), JobCost(c));
    case _ => TotalAppend(s.queue, Quit, JobCost(c));
  }

  lemma OtherCostFalls(c: Config, s: State, w: nat, job: nat)
    requires Shaped(c, s) && Enabled(s, w, job)
    requires var pc := s.workers[w].pc; !pc.Popping? && !pc.Pushing? && !pc.SendingQuit? && !pc.FailedQuit?
    ensures var t := Step(c, s, w, job);
      t.queue == s.queue && WorkerCost(c)(t.workers[w]) < WorkerCost(c)(s.workers[w])
  {
    assert ShapedWorker(s.workers[w]);
    if s.workers[w].pc.Listing? && s.workers[w].pc.rest != [] { NextEntryCost(c, s.workers[w].pc.rest); }
  }

  lemma NextEntryCost(c: Config, rest: seq<Entry>)
    requires rest != []
    ensures EntriesCost(c, rest) >= 5 + EntriesCost(c, rest[1..])
    ensures Wanted(c, rest[0]) && rest[0].Dir? ==>
      EntriesCost(c, rest) == 5 + EntriesCost(c, Contents(rest[0])) + EntriesCost(c, rest[1..])
  {
  }

  lemma MeasureFalls(c: Config, s: State, w: nat, job: nat)
    requires Shaped(c, s) && Enabled(s, w, job)
    ensures Measure(c, Step(c, s, w, job)) < Measure(c, s)
  {
    var t, pc := Step(c, s, w, job), s.workers[w].pc;
    assert ShapedWorker(s.workers[w]);
    assert t.workers == s.workers[w := t.workers[w]];
    TotalUpdate(s.workers, w, t.workers[w], WorkerCost(c));
    if pc.Popping? || pc.Pushing? || pc.SendingQuit? || pc.FailedQuit? {
      QueueingCostFalls(c, s, w, job);
    } else {
      OtherCostFalls(c, s, w, job);
    }
  }

  /** Every run keeps the invariant, and no run is longer than the measure of its first state. */
  lemma {:induction false} RunsAreBounded(c: Config, s: State, schedule: Schedule)
    requires Inv(c, s) && Possible(c, s, schedule)
    ensures Inv(c, After(c, s, schedule)) && |schedule| + Measure(c, After(c, s, schedule)) <= Measure(c, s)
    decreases |schedule|
  {
    if schedule != [] {
      var (w, job) := schedule[0];
      InvStep(c, s, w, job);
      MeasureFalls(c, s, w, job);
      RunsAreBounded(c, Step(c, s, w, job), schedule[1..]);
    }
  }

  // ---------------------------------------------------------------- the answer

  datatype Outcome = Listed(paths: seq<string>) | Threw(exception: Exception)

  lemma OneMoreResult(results: seq<Result>, i: nat)
    requires i < |results|
    ensures Gather(results[..i + 1], ResultFiles) == Gather(results[..i], ResultFiles) + ResultFiles(results[i])
    ensures Total(results[..i + 1], IsError) == Total(results[..i], IsError) + IsError(results[i])
    ensures forall r :: r in results[..i + 1] <==> r in results[..i] || r == results[i]
  {
    assert results[..i + 1] == results[..i] + [results[i]];
    GatherAppend(results[..i], results[i], ResultFiles);
    TotalAppend(results[..i], results[i], IsError);
  }

  /** The main thread's loop over the results: collect the paths, remember one exception of each kind. */
  method CollectResults(results: seq<Result>) returns (o: Outcome)
    ensures o.Listed? <==> Total(results, IsError) == 0
    ensures o.Listed? ==> multiset(o.paths) == Gather(results, ResultFiles)
    ensures o.Threw? ==> Error(o.exception) in results
    ensures Error(FileNotFound) in results ==> o == Threw(FileNotFound)
  {
    var allPaths: seq<string> := [];
    var fileNotFound, fileNotDir := false, false;
    for i := 0 to |results|
      invariant multiset(allPaths) == Gather(results[..i], ResultFiles)
      invariant fileNotFound <==> Error(FileNotFound) in results[..i]
      invariant fileNotDir <==> Error(FileNotDir) in results[..i]
      invariant fileNotFound || fileNotDir <==> Total(results[..i], IsError) > 0
    {
      OneMoreResult(results, i);
      match results[i]
      case Paths(paths) => allPaths := allPaths + paths;
      case Error(FileNotFound) => fileNotFound := true;
      case Error(FileNotDir) => fileNotDir := true;
    }
    assert results[..|results|] == results;
    if fileNotFound {
      return Threw(FileNotFound);
    } else if fileNotDir {
      return Threw(FileNotDir);
    }
    return Listed(allPaths);
  }

  /** Every directory the walk has to enter opens. */
  ghost predicate Opens(c: Config) {
    DirFatals(c, true, c.root) == 0 && DirFatals(c, false, c.root) == 0
  }

  /** Whatever a worker has thrown, there is a directory that calls for it. */
  lemma ThrownHasCause(c: Config, s: State, i: nat)
    requires Inv(c, s) && i < |s.workers| && s.workers[i].role.Failed?
    ensures DirFatals(c, s.workers[i].role.thrown.FileNotDir?, c.root) > 0
  {
    assert s.workers[i] in s.workers;
    TotalAtLeast(s.workers, WorkerFatals(c, s.workers[i].role.thrown.FileNotDir?), i);
  }

  /** In every reachable state there are no more errors of a kind than directories that call for it. */
  lemma ErrorsHaveCauses(c: Config, s: State, notDir: bool)
    requires Inv(c, s)
    ensures Total(s.results, ErrorsOf(notDir)) <= DirFatals(c, notDir, c.root)
  {
    forall i | 0 <= i < |s.workers|
      ensures ReportedOf(notDir)(s.workers[i]) <= WorkerFatals(c, notDir)(s.workers[i]) + Nothing(s.workers[i])
    {
      assert s.workers[i] in s.workers;
    }
    TotalAtMostSum(s.workers, ReportedOf(notDir), WorkerFatals(c, notDir), Nothing);
    TotalAllZero(s.workers, Nothing);
  }

  lemma ErrorIsCounted(results: seq<Result>, x: Exception)
    requires Error(x) in results
    ensures Total(results, ErrorsOf(x.FileNotDir?)) > 0
  {
    var i :| 0 <= i < |results| && results[i] == Error(x);
    TotalAtLeast(results, ErrorsOf(x.FileNotDir?), i);
  }

  /** An error among the results names a directory that calls for it. */
  lemma ErrorHasCause(c: Config, s: State, x: Exception)
    requires Inv(c, s) && Error(x) in s.results
    ensures DirFatals(c, x.FileNotDir?, c.root) > 0
  {
    ErrorIsCounted(s.results, x);
    ErrorsHaveCauses(c, s, x.FileNotDir?);
  }

  /**
   * When every worker is done there is exactly one result per worker. There is an error among them exactly when some
   * directory the walk has to enter cannot be opened; otherwise the results hold every wanted file exactly once.
   */
  lemma FinishedWalkIsExact(c: Config, s: State)
    requires Inv(c, s) && AllDone(s)
    ensures |s.results| == c.workers
    ensures Total(s.results, IsError) == 0 <==> Opens(c)
    ensures Total(s.results, IsError) == 0 ==> Gather(s.results, ResultFiles) == FilesIn(c, Contents(c.root))
  {
    forall i | 0 <= i < |s.workers| ensures HasDelivered(s.workers[i]) + Nothing(s.workers[i]) == 1 {
      assert s.workers[i] in s.workers;
    }
    TotalSumIsLength(s.workers, HasDelivered, Nothing);
    TotalAllZero(s.workers, Nothing);
    if i :| 0 <= i < |s.workers| && s.workers[i].role.Failed? {
      FailedRunIsError(c, s, i);
    } else {
      CleanRunIsComplete(c, s);
    }
  }

  lemma FailedRunIsError(c: Config, s: State, i: nat)
    requires Inv(c, s) && AllDone(s) && i < |s.workers| && s.workers[i].role.Failed?
    ensures Total(s.results, IsError) > 0 && !Opens(c)
  {
    assert s.workers[i] in s.workers;
    TotalAtLeast(s.workers, HasReported, i);
    ThrownHasCause(c, s, i);
  }

  lemma CleanRunIsComplete(c: Config, s: State)
    requires Inv(c, s) && AllDone(s) && forall i :: 0 <= i < |s.workers| ==> !s.workers[i].role.Failed?
    ensures Total(s.results, IsError) == 0 && Opens(c)
    ensures Gather(s.results, ResultFiles) == FilesIn(c, Contents(c.root))
  {
    SomeoneClosed(c, s);
    var closer :| 0 <= closer < |s.workers| && s.workers[closer].role.Closer?;
    forall k | 0 <= k < |s.queue| ensures s.queue[k].Quit? {
      NormalShutdownIsClean(c, s, closer, closer);
      assert s.queue[k] in s.queue;
    }
    forall i | 0 <= i < |s.workers| ensures s.workers[i].pc.Done? { assert s.workers[i] in s.workers; }
    TotalAllZero(s.workers, HasReported);
    NoFatalsLeft(c, s, true);
    NoFatalsLeft(c, s, false);
    NoFilesLeft(c, s);
  }

  /** All workers are done, none has failed, and only quit tokens are left. */
  ghost predicate Clean(s: State) {
    && (forall i :: 0 <= i < |s.workers| ==> s.workers[i].pc.Done? && !s.workers[i].role.Failed?)
    && forall k :: 0 <= k < |s.queue| ==> s.queue[k].Quit?
  }

  lemma NoFilesLeft(c: Config, s: State)
    requires ValidConfig(c) && Conserves(c, s) && Clean(s)
    ensures Gather(s.results, ResultFiles) == FilesIn(c, Contents(c.root))
  {
    GatherAllEmpty(s.workers, WorkerFiles(c));
    GatherAllEmpty(s.queue, JobFiles(c));
  }

  lemma NoFatalsLeft(c: Config, s: State, notDir: bool)
    requires ValidConfig(c) && CountsFatals(c, s, notDir) && Clean(s)
    ensures DirFatals(c, notDir, c.root) == 0
  {
    TotalAllZero(s.workers, WorkerFatals(c, notDir));
    TotalAllZero(s.queue, JobFatals(c, notDir));
  }

  lemma SomeoneClosed(c: Config, s: State)
    requires Inv(c, s) && AllDone(s) && forall i :: 0 <= i < |s.workers| ==> !s.workers[i].role.Failed?
    ensures exists i :: 0 <= i < |s.workers| && s.workers[i].role.Closer?
  {
    assert s.workers[0] in s.workers;
    TotalAtLeast(s.workers, Left, 0);
    assert Balanced(LedgerOf(c, s));
    if forall i :: 0 <= i < |s.workers| ==> s.workers[i].role.Ordinary? {
      TotalAllZero(s.workers, Starts(c.workers));
      assert false;
    }
  }

  /** The run from the start ends: no worker can move any more. */
  ghost predicate Complete(c: Config, schedule: Schedule) {
    && ValidConfig(c) && Possible(c, Initial(c), schedule)
    && forall w, job :: !Enabled(After(c, Initial(c), schedule), w, job)
  }

  /** The whole story, from the start and for every schedule that runs until no worker can move. */
  lemma EveryCompleteRunIsExact(c: Config, schedule: Schedule)
    requires Complete(c, schedule)
    ensures var s := After(c, Initial(c), schedule);
      && Inv(c, s) && AllDone(s) && |s.results| == c.workers
      && (Total(s.results, IsError) == 0 <==> Opens(c))
      && (Opens(c) ==> Gather(s.results, ResultFiles) == FilesIn(c, Contents(c.root)))
  {
    InitialInv(c);
    RunsAreBounded(c, Initial(c), schedule);
    var s := After(c, Initial(c), schedule);
    if !AllDone(s) {
      var w, job := Progress(c, s);
      assert false;
    }
    FinishedWalkIsExact(c, s);
  }

  /**
   * `appendFilesInDir`, for every schedule its workers may take. It lists every wanted file once if all directories
   * open that have to; otherwise it throws, and what it throws tells a root that is no directory from a missing one.
   */
  method AppendFilesInDir(ghost c: Config, ghost schedule: Schedule, results: seq<Result>) returns (o: Outcome)
    requires Complete(c, schedule) && results == After(c, Initial(c), schedule).results
    ensures o.Listed? <==> Opens(c)
    ensures o.Listed? ==> multiset(o.paths) == FilesIn(c, Contents(c.root))
    ensures o.Threw? ==> DirFatals(c, o.exception.FileNotDir?, c.root) > 0
    ensures c.root.failure == Some(NotADirectory) ==> o == Threw(FileNotDir)
    ensures c.root.failure == Some(Missing) || c.root.failure == Some(Unreadable) ==> o == Threw(FileNotFound)
  {
    EveryCompleteRunIsExact(c, schedule);
    o := CollectResults(results);
    if o.Threw? { ErrorHasCause(c, After(c, Initial(c), schedule), o.exception); }
    if c.root.failure.Some? { FailedRoot(c); }
  }

  lemma FailedRoot(c: Config)
    requires ValidConfig(c) && c.root.failure.Some?
    ensures DirFatals(c, c.root.failure.value.NotADirectory?, c.root) == 1
    ensures DirFatals(c, !c.root.failure.value.NotADirectory?, c.root) == 0
  {
  }

  // ---------------------------------------------------------------- the files, independently

  /** A directory that is entered and opens. */
  ghost predicate Passes(c: Config, d: Entry) {
    d.Dir? && c.recursive && !d.symlink && !c.ignored(d.path) && d.failure.None?
  }

  /** A file of an allowed extension with this path, reached from `entries` through directories that are entered. */
  ghost predicate Leads(c: Config, entries: seq<Entry>, chain: seq<Entry>, path: string)
    decreases |chain|
  {
    && chain != [] && chain[0] in entries
    && if |chain| == 1 then chain[0] == File(path) && c.allowed(path) && !c.ignored(path)
       else Passes(c, chain[0]) && Leads(c, chain[0].entries, chain[1..], path)
  }

  lemma {:induction false} ReachedFilesAreFound(c: Config, entries: seq<Entry>, chain: seq<Entry>, path: string)
    requires Leads(c, entries, chain, path)
    ensures path in FilesIn(c, entries)
    decreases |chain|, |entries|
  {
    if entries[0] == chain[0] {
      if |chain| > 1 { ReachedFilesAreFound(c, chain[0].entries, chain[1..], path); }
    } else {
      ReachedFilesAreFound(c, entries[1..], chain, path);
    }
  }

  lemma {:induction false} FoundFilesAreReached(c: Config, entries: seq<Entry>, path: string)
    returns (chain: seq<Entry>)
    requires path in FilesIn(c, entries)
    ensures Leads(c, entries, chain, path)
    decreases entries
  {
    var e := entries[0];
    if path in FilesOf(c, e) {
      if e.File? {
        chain := [e];
      } else {
        var more := FoundFilesAreReached(c, e.entries, path);
        chain := [e] + more;
        assert chain[1..] == more;
      }
    } else {
      chain := FoundFilesAreReached(c, entries[1..], path);
    }
  }

  /**
   * In every reachable state, failed or not: a path among the results has an allowed extension, is not ignored, and
   * lies below no ignored directory, no symbolic link and none that failed to open.
   */
  lemma ListedPathsAreReached(c: Config, s: State, path: string) returns (chain: seq<Entry>)
    requires Inv(c, s) && path in Gather(s.results, ResultFiles)
    ensures Leads(c, Contents(c.root), chain, path)
  {
    assert path in FilesIn(c, Contents(c.root));
    chain := FoundFilesAreReached(c, Contents(c.root), path);
  }

  /**
   * A directory among `entries`, or below directories that are entered, that is to be entered and fails other than
   * by having vanished or been replaced since it was listed.
   */
  ghost predicate LeadsToFailure(c: Config, entries: seq<Entry>, chain: seq<Entry>, notDir: bool)
    decreases |chain|
  {
    && chain != [] && chain[0] in entries
    && if |chain| == 1 then
         && chain[0].Dir? && c.recursive && !chain[0].symlink && !c.ignored(chain[0].path) && chain[0].failure.Some?
         && (chain[0].failure.value.Unreadable? || chain[0].path == c.root.path)
         && chain[0].failure.value.NotADirectory? == notDir
       else Passes(c, chain[0]) && LeadsToFailure(c, chain[0].entries, chain[1..], notDir)
  }

  ghost predicate FailureIsReached(c: Config, notDir: bool)
    requires c.root.Dir?
  {
    exists chain :: LeadsToFailure(c, c.root.entries, chain, notDir)
  }

  lemma {:induction false} FatalsAreReached(c: Config, entries: seq<Entry>, notDir: bool) returns (chain: seq<Entry>)
    requires FatalsIn(c, notDir, entries) > 0
    ensures LeadsToFailure(c, entries, chain, notDir)
    decreases entries
  {
    var e := entries[0];
    if FatalsOf(c, notDir, e) > 0 {
      if e.failure.Some? {
        chain := [e];
      } else {
        var more := FatalsAreReached(c, e.entries, notDir);
        chain := [e] + more;
        assert chain[1..] == more;
      }
    } else {
      chain := FatalsAreReached(c, entries[1..], notDir);
    }
  }

  lemma {:induction false} ReachedFatalsCount(c: Config, entries: seq<Entry>, chain: seq<Entry>, notDir: bool)
    requires LeadsToFailure(c, entries, chain, notDir)
    ensures FatalsIn(c, notDir, entries) > 0
    decreases |chain|, |entries|
  {
    if entries[0] == chain[0] {
      if |chain| > 1 { ReachedFatalsCount(c, chain[0].entries, chain[1..], notDir); }
    } else {
      ReachedFatalsCount(c, entries[1..], chain, notDir);
    }
  }

  /** Some directory calls for an exception exactly if the root fails that way or such a directory is reached. */
  lemma CausesAreReached(c: Config, notDir: bool)
    requires ValidConfig(c)
    ensures DirFatals(c, notDir, c.root) > 0 <==>
      || (c.root.failure.Some? && c.root.failure.value.NotADirectory? == notDir)
      || (c.root.failure.None? && FailureIsReached(c, notDir))
  {
    if c.root.failure.None? {
      assert DirFatals(c, notDir, c.root) == FatalsIn(c, notDir, c.root.entries);
      if FatalsIn(c, notDir, c.root.entries) > 0 {
        var chain := FatalsAreReached(c, c.root.entries, notDir);
      }
      if FailureIsReached(c, notDir) {
        var chain :| LeadsToFailure(c, c.root.entries, chain, notDir);
        ReachedFatalsCount(c, c.root.entries, chain, notDir);
      }
    }
  }
}
