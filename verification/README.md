# Verified model of the Sorbet core behind scip-ruby

This project models the data structures and algorithms on which Sorbet's type checker, and the indexer built on it,
rest, and proves what they promise. Everything is stated for all inputs, all runs or all reachable states.

| component | files | main results |
|---|---|---|
| name interning | `Bits`, `PowerOfTwo`, `Probing`, `NameHash`, `Names`, `NameTable` | triangular probing visits every bucket once; the open-addressed table refines three plain lists through every entry, lookup, growth and reservation; after any run two ids are equal exactly when the full names behind them are |
| name substitution | `NameSubstitution`, `LazyNameSubstitution` | the interleaved loops never read a missing translation; translation keeps the whole content of every name and is injective; the memoised form answers with the same ids |
| symbol tables | `SymbolTable`, `SymbolStrata`, `SymbolPrefixes`, `GlobalSymbols`, `Mangling` | every operation keeps every contiguous stratum prefix closed and the type member lists complete, so after any run any prefix that may be copied is self-contained; copying at a boundary gives back exactly what there was when it was recorded; in runs of entries and redefinitions lookup by arity is exact |
| directory walk | `Sums`, `DirectoryWalk`, `DirectoryWalkRuns`, `IgnorePatterns` | for every schedule of every number of workers: the pending counter covers the queue, no deadlock, termination, and the result is each wanted file exactly once or an error exactly when a directory had to open and did not, of the kind that directory calls for |
| ancestor linearization | `Linearization`, `Ancestors`, `ClassLinearizer` | the in-place memoised computation yields one well-defined linearization in whatever order classes come; no ancestor is invented or lost; earlier order is kept and the place of every new component is exact; the full linearization is the superclass chain with its mixins; exactly when something is listed twice |
| control flow graph | `UIntSets`, `ReadsAndWrites` | bitsets are sets; the dead set is exactly the variables written before any read, running a block does not depend on them, and exactly the writes no other block uses are dropped |
| smaller pieces | `StringStorage`, `Edits`, `Levenshtein`, `SortedIntersects`, `LineColumn` | string views stay intact and disjoint across shared pages; applied edits are distinct and disjoint, and one simultaneous replacement; one-column edit distance is the least cost of a script; leaping intersection; offset and position round trips |

Pure code is modelled by functions and lemmas, code that changes state by classes and methods with loops. Machine
words are natural numbers with their wrap-around written out. Threads are interleaved atomic steps. String hashing,
file contents, directory entries, arity matching and the evaluation of instructions are parameters, so the results
hold for all of them.

`Collections` holds what several modules share, `Sums` sums over sequences.

Where the code does not do what one might expect of it, the model keeps the code and states exactly when it does:

- `nextPowerOfTwo` wraps to 0 above 2^31, and the hash table size computed from it is large enough exactly up to 2^30
  names (`NextPowerOfTwo`, `HashTableSizeSuffices`).
- Entries alone keep half of the buckets of the name table spare (`EntriesKeepHalfEmpty`). `preallocateTables` need
  not (`ReservingOneKindOverfills`); it does exactly under the condition of `ReservingKeepsHalfIff`. As it asks for
  powers of two, two buckets stay spare however often it is called (`RunsStaySpare`), which is what searches need; with
  other sizes they might not (`RaggedReservationsOverfill`).
- `isFileIgnored` resumes its search behind an occurrence, not at the next character, and so misses matches of
  relative patterns that overlap themselves, such as `/ab/a` in `/ab/ab/a` (`ScanIsExactIff`).
- `detail2Pos` accepts column 0, and refuses columns behind the last line only because an unsigned subtraction wraps
  (`ColumnZero`, `PastTheLastLine`, `DetailSurvivesIff`).
- A linearization lists a module twice when the module is included before a class that includes it
  (`LinearRepeats`, `ClassAfterModuleRepeats`).
- Lookup by arity does not see a method that was renamed and not redefined (`RenamedAloneIsLost`); in runs that always
  redefine, as the namer does, it sees every match (`LookupIsExactInRuns`).
- `enterTypeMember` leaves an empty entry behind when it refuses an owner; all results about runs and copies include
  such steps (`EmptyEntryKeeps`).

## Model

| member | source | states |
|---|---|---|
| `PowerOfTwo.CeilPow2IsLeast` | common/common.cc:495-510 | the reference value is a power of two, at least the argument, and no larger than any such power |
| `PowerOfTwo.SmearDoublesRun` | common/common.cc:503-507 | or-ing a word with itself shifted by the length of its top run of ones doubles the run |
| `PowerOfTwo.Smear` | common/common.cc:503-507 | five smears set every bit below the highest one of any 32-bit word |
| `PowerOfTwo.NextPowerOfTwo` | common/common.cc:496-510 | the 32-bit result is the least power of two exactly up to 2^31, and 0 exactly above |
| `Probing.MaskIsAnd` | core/GlobalState.h:157-158 | masking with the table size less one is the remainder by the table size |
| `Probing.ProbeMoves` | core/GlobalState.h:158-172 | adding the probe count to the bucket and masking yields the next triangular probe |
| `Probing.ProbesDistinct` | core/GlobalState.h:158-172 | the first 2^k triangular probes of a table of 2^k buckets are pairwise different |
| `Probing.ProbingIsPermutation` | core/GlobalState.h:158-172 | every bucket is reached by exactly one of the first 2^k probes, whatever the hash |
| `NameHash.OccupiedBound` | core/GlobalState.h:161-176 | a search crosses no more occupied buckets than there are entries |
| `NameHash.LookupBucket` | core/GlobalState.h:155-178 | the search ends at the first empty or matching probe; "Full table?" is raised exactly when it needs all probes, and never with two empty buckets |
| `NameHash.InsertKeepsChains` | core/GlobalState.cc:1547-1549 | filling the empty bucket where a search for the hash ended keeps every entry reachable and adds exactly one |
| `NameHash.FirstEmpty` | core/GlobalState.cc:1618-1621 | the inner loop of a rehash finds the first empty probe of the hash |
| `NameHash.MoveNames` | core/GlobalState.cc:1608-1625 | a rehash keeps exactly the same entries and makes each reachable in the new table |
| `NameHash.SearchFinds` | core/GlobalState.h:155-178 | in a valid table a search finds the one entry that has the hash and satisfies the predicate |
| `NameHash.HashTableSizeSuffices` | core/GlobalState.cc:1627-1628 | the computed size is at least twice the number of names if and only if there are at most 2^30 of them |
| `Names.RawIdRoundTrip` | core/NameRef.h:91-113 | packing kind and index loses nothing, never yields the missing id, and fits 32 bits exactly up to MAX_ID |
| `Names.FindIsInverse` | core/Names.cc:177-199 | searching for the data of a name gives that name back |
| `Names.FindComplete` | core/GlobalState.cc:1522-1531 | the search fails exactly when no name has the data |
| `Names.DenotesInjective` | core/Names.cc:177-199 | two ids that stand for the same full content are the same id |
| `Names.DenotesStable` | core/GlobalState.cc:1533-1556 | the content of a name never changes when tables grow |
| `Names.AddLinearized` | core/NameSubstitution.cc:37-38 | every new name refers only to names created before it |
| `Names.EnterKeepsWellFormed` | core/GlobalState.cc:1533-1583 | entering any acceptable name keeps names distinct and creation order intact |
| `Names.EveryNameDenotes` | core/NameSubstitution.cc:37-38 | in such tables every id stands for some finite content |
| `Names.RunsAreWellFormed` | core/GlobalState.cc:1533-1681 | the tables are well formed after every run of entries |
| `Names.IdsAgreeWithContents` | core/Names.cc:177-199 | after every run two ids are equal if and only if their full contents are |
| `Names.ReenteringIsStable` | core/Names.cc:177-199 | re-entering or looking up the name of any earlier step gives the id of that step and adds nothing |
| `NameTable.SearchAgrees` | core/GlobalState.cc:1522-1531 | wherever the hash search stops, it answers what a search of the plain tables answers |
| `NameTable.AddIndexes` | core/GlobalState.cc:1547-1550 | writing the new id into the bucket found keeps buckets and tables in one-to-one correspondence |
| `NameTable.GlobalNames.constructor` | core/GlobalState.cc:274-293 | the initial tables are empty and at least half of the buckets are spare |
| `NameTable.GlobalNames.Lookup` | core/GlobalState.cc:1522-1531 | lookup through the hash table equals lookup in the plain tables, found or not, and never raises |
| `NameTable.GlobalNames.ExpandNames` | core/GlobalState.cc:1637-1643 | reserving and rehashing changes no name; capacities and table size become the larger of present and requested |
| `NameTable.GlobalNames.GrowIfFull` | core/GlobalState.cc:1542-1545 | the table of a kind is doubled exactly when full, keeps all names, and then half of the buckets are spare |
| `NameTable.GlobalNames.PreallocateTables` | core/GlobalState.cc:1024-1040 | reserving at any time, repeatedly, keeps all names and leaves the table searchable; half of the buckets are spare if and only if the joined sizes fit half of the old table or the power of two of the request |
| `NameTable.GlobalNames.Insert` | core/GlobalState.cc:1547-1550 | a new name gets the next id of its kind and is found from then on |
| `NameTable.GlobalNames.Enter` | core/GlobalState.cc:1533-1583 | entering equals entering into the plain tables, with the bucket looked up again after growth; it never raises "Full table?" and ids stay within MAX_ID |
| `NameTable.ReservingIsSpare` | core/GlobalState.cc:1016-1040 | powers of two in any sequence of reservations leave at least two buckets more than names |
| `NameTable.DoublingIsEnough` | core/GlobalState.cc:1542-1544 | doubling one table and asking for all three sizes makes at least half of the buckets spare |
| `NameTable.EntriesKeepHalfEmpty` | core/GlobalState.cc:1533-1681 | in every run of entries from new tables on, at least half of the buckets stay spare |
| `NameTable.RunsStaySpare` | core/GlobalState.cc:1016-1040 | in every run of entries and reservations at least two buckets stay spare |
| `NameTable.ReservingKeepsHalfIff` | core/GlobalState.cc:1627-1643 | a request leaves half of the buckets spare if and only if the joined sizes fit half of the old table or the power of two of the request |
| `NameTable.ReservingAllKeepsHalf` | core/GlobalState.cc:1627-1643 | so it does when every request is at least the present capacity, and when none is more |
| `NameTable.ReservingOneKindOverfills` | core/GlobalState.h:350-352 | tables of the sizes the code starts with, and one reservation for constants, after which the names that fit exceed half of the buckets |
| `NameTable.RaggedReservationsOverfill` | core/GlobalState.cc:1627-1643 | three requests, not powers of two, after which more names fit than there are buckets |
| `NameTable.Resized` | core/GlobalState.cc:1627-1635 | the hash table grows to the computed size or stays, and indexes the same names |
| `NameSubstitution.TranslationKeepsContent` | core/NameSubstitution.h:14-18 | a translated name stands for the same full content as its source |
| `NameSubstitution.TranslationInjective` | core/NameSubstitution.h:14-18 | different names have different translations |
| `NameSubstitution.PushTranslates` | core/NameSubstitution.cc:19-49 | adding the translation of one more name keeps all earlier translations correct |
| `NameSubstitution.RenameKeepsEnterable` | core/NameSubstitution.cc:39-43 | a name with its reference translated is acceptable to the target table |
| `NameSubstitution.ConstantsBeforeUnique` | core/NameSubstitution.cc:31-40 | every constant up to the one the i-th unique name refers to needs only UTF8 names and earlier unique names |
| `NameSubstitution.UniquesBeforeUnique` | core/NameSubstitution.cc:43-43 | a unique name refers only to unique names before it |
| `NameSubstitution.Substitution.Translate` | core/NameSubstitution.cc:19-49 | one loop body keeps every translation right and the target's own names in place |
| `NameSubstitution.Substitution.CatchUp` | core/NameSubstitution.cc:33-40 | the inner loop translates exactly the constants up to the needed one, never ahead of a unique name |
| `NameSubstitution.Substitution.TranslateUniques` | core/NameSubstitution.cc:27-44 | the loop over unique names always finds its references translated |
| `NameSubstitution.Substitution.TranslateAll` | core/NameSubstitution.cc:18-49 | all three vectors end up complete |
| `NameSubstitution.Substitution.TranslateConstants` | core/NameSubstitution.cc:45-49 | the last loop translates all constants that are left |
| `NameSubstitution.Substitution.constructor` | core/NameSubstitution.cc:8-56 | every source name is translated, with its reference, and the target only gains names |
| `LazyNameSubstitution.ReferenceIsEarlier` | core/NameSubstitution.cc:64-79 | the recursion of the lazy form goes to strictly earlier names, so it ends |
| `LazyNameSubstitution.LazySubstitution.constructor` | core/NameSubstitution.cc:59-62 | the lazy form starts with nothing translated but the missing name, which stands for itself |
| `LazyNameSubstitution.LazySubstitution.Substitute` | core/NameSubstitution.h:85-95 | the answer has the content of the name asked for, is remembered, and no earlier answer changes; the missing name gives itself |
| `LazyNameSubstitution.LazySubstitution.DefineName` | core/NameSubstitution.cc:64-87 | defining a name defines what it refers to first and keeps all memo entries |
| `LazyNameSubstitution.LazySubstitution.Define` | core/NameSubstitution.cc:68-86 | entering the renamed data records exactly one new memo entry with the same content |
| `LazyNameSubstitution.LazyAgreesWithEager` | core/NameSubstitution.h:63-71 | for every name the lazy answer is the very id in the eager vectors |
| `SymbolTable.NextFree` | core/GlobalState.cc:1723-1732 | the first mangled form that is free, all before it being taken |
| `SymbolStrata.EnterClassKeeps` | core/GlobalState.cc:1166-1195 | entering a class under any owner keeps the tables and all prefixes closed |
| `SymbolStrata.EnterLeafKeeps` | core/GlobalState.cc:1361-1384 | entering a method or field under any owner keeps the tables and all prefixes closed |
| `SymbolStrata.EnterTypeMemberKeeps` | core/GlobalState.cc:1260-1311 | the stratum guard is enough to keep earlier prefixes free of later type members, and every type member not deleted stays listed exactly once, by its owner |
| `SymbolStrata.NewIsListed` | core/GlobalState.cc:1306-1309 | the new type member joins the list of its owner, and all others are still listed by theirs, each once |
| `SymbolStrata.EmptyEntryKeeps` | core/GlobalState.cc:1280-1294 | the empty entry a refused type member leaves behind keeps the tables and all prefixes closed |
| `SymbolStrata.LinkKeeps` | core/Symbols.cc:1699-1714 | writing a class straight into the members of another, as attached or singleton class, keeps the tables and all prefixes closed |
| `SymbolStrata.EnterSingletonKeeps` | core/Symbols.cc:1682-1716 | creating a singleton class, even when its type member is refused half way, keeps them too |
| `SymbolStrata.DeleteKeeps` | core/GlobalState.cc:1776-1829 | deleting a symbol leaves no member, type member list or prefix pointing to it |
| `SymbolStrata.MangleRenameKeeps` | core/GlobalState.cc:1740-1756 | renaming a method keeps owner and method in agreement and all prefixes closed |
| `SymbolStrata.EnteredClassIsFound` | core/GlobalState.cc:1166-1195 | an entered class is what its owner knows under the name, entering it again finds it, and no other class and no other table changes |
| `SymbolStrata.EnteredLeafIsFound` | core/GlobalState.cc:1361-1384 | the same for methods and fields |
| `SymbolStrata.EnteredTypeMemberIsFound` | core/GlobalState.cc:1275-1311 | the same for type members; a new one goes behind all others in the list of its owner and no other list changes; refused exactly if new and owned by a class of an earlier stratum, and then leaving exactly an empty entry |
| `SymbolStrata.EnteredSingletonIsFound` | core/Symbols.cc:1682-1716 | a class and its new singleton class know each other and have one owner, the singleton class has its attached class type member; asking again finds the same one |
| `SymbolStrata.SingletonRaisesIff` | core/Symbols.cc:1682-1706 | asking for a singleton class raises exactly if the class knows none, a class of that name is there from an earlier stratum, and that class lacks the type member |
| `SymbolStrata.SingletonTouchesTwo` | core/Symbols.cc:1682-1716 | entered or refused, besides the singleton class itself only the entry of the class and that of its owner change |
| `SymbolStrata.DeleteUndoesEnter` | core/GlobalState.cc:1776-1808 | deleting a method or field just entered restores every class, but for an empty entry there may have been, and leaves one dead slot |
| `SymbolStrata.DeleteUndoesEnterTypeMember` | core/GlobalState.cc:1810-1829 | the same for type members: their owner lists what it listed before |
| `SymbolStrata.DeletedIsGone` | core/GlobalState.cc:1776-1829 | deleting at any time touches the slot, the entry of the owner and, for a type member, its place in the list, whose rest keeps its order; nothing else changes |
| `SymbolStrata.DeletedIsUnlisted` | core/GlobalState.cc:1816-1828 | after a deletion the lists still hold exactly the type members that are left |
| `SymbolStrata.RenamedMoves` | core/GlobalState.cc:1740-1756 | renaming changes the name of the method and the two entries of its owner and nothing else |
| `SymbolStrata.UpdateOffsetsKeeps` | core/GlobalState.h:753-755 | the tables recorded as a boundary are a closed prefix, and all earlier prefixes stay closed |
| `SymbolStrata.BoundaryIsRecorded` | core/GlobalState.h:753-755 | there is exactly one more boundary, at the present sizes; earlier ones and all tables are as they were; with nothing reopened the contiguous prefix is one stratum longer |
| `SymbolStrata.ReopenKeeps` | core/GlobalState.h:782-786 | reopening never lengthens the contiguous prefix and keeps it closed |
| `SymbolStrata.CopyKeeps` | core/GlobalState.cc:2259-2328 | copying a contiguous prefix yields closed tables in which every stratum can be copied again |
| `SymbolStrata.CopyIsTheSame` | core/GlobalState.cc:2282-2328 | every class, method, field and type member below the boundary is the one of the source tables, and a class keeps exactly the members below it |
| `SymbolStrata.StepKeeps` | core/GlobalState.h:757-770 | every operation, a refused one included, keeps the invariant |
| `SymbolStrata.RunKeeps` | core/GlobalState.h:757-770 | every run of operations keeps the invariant |
| `SymbolStrata.InvHasNoDangling` | core/GlobalState.h:757-759 | no symbol refers to an owner, member or type member outside the tables |
| `SymbolStrata.PrefixCopiesAreSelfContained` | core/GlobalState.cc:2259-2328 | after any run from the start, every prefix that may be copied is free of dangling references and each class, method, field and type member in it is still found through its owner |
| `SymbolPrefixes.StepAsBefore` | core/GlobalState.h:757-770 | no step that adds symbols or boundaries changes what lies below a boundary already recorded |
| `SymbolPrefixes.RunAsBefore` | core/GlobalState.h:757-770 | nor does any run of them |
| `SymbolPrefixes.CopyGivesBack` | core/GlobalState.cc:2259-2328 | record a boundary, run any such steps, copy at the boundary: the copy has every class, method, field and type member there was, knows all of them as before, and has no others |
| `SymbolPrefixes.StratumIsGivenBack` | core/GlobalState.cc:2259-2328 | a run from the start with a class, a method, a field and a type member below the boundary and two more symbols above it: the copy has the first four and not the last two |
| `SymbolStrata.InitialInv` | core/GlobalState.cc:304-330 | the missing symbols, their entries in the missing class, top, bottom and the root satisfy the invariant, so every run starts in it |
| `GlobalSymbols.SymbolTables.ContiguousStrataUntil` | core/GlobalState.h:757-770 | the greatest stratum that is at most the last boundary and at most every stratum ever reopened |
| `GlobalSymbols.SymbolTables.EnterClassOrModuleSymbol` | core/GlobalState.cc:1166-1195 | the in-place update equals the specification and keeps the invariant |
| `GlobalSymbols.SymbolTables.EnterMethodSymbol` | core/GlobalState.cc:1361-1384 | the in-place update equals the specification and keeps the invariant |
| `GlobalSymbols.SymbolTables.EnterTypeMemberSymbol` | core/GlobalState.cc:1260-1311 | the in-place update, the list of the owner included, equals the specification; a refused owner keeps an empty entry and nothing else |
| `GlobalSymbols.SymbolTables.EnterSingletonClass` | core/Symbols.cc:1682-1716 | the in-place update equals the specification, also when the type member is refused |
| `GlobalSymbols.SymbolTables.DeleteTypeMemberSymbol` | core/GlobalState.cc:1810-1829 | the slot becomes a copy of slot 0 and both references to it are gone |
| `GlobalSymbols.SymbolTables.DeleteMethodSymbol` | core/GlobalState.cc:1776-1791 | the slot becomes a copy of slot 0 and the owner forgets the name |
| `GlobalSymbols.SymbolTables.UpdateOffsets` | core/GlobalState.h:753-755 | the present sizes become the newest boundary, one more than before, and earlier boundaries stay |
| `GlobalSymbols.SymbolTables.Reopen` | core/GlobalState.h:782-786 | the least of all strata ever reopened is remembered |
| `GlobalSymbols.SymbolTables.CopyFrom` | core/GlobalState.cc:2259-2328 | copying element by element and then filtering members equals the prefix copy |
| `GlobalSymbols.SymbolTables.NextMangled` | core/GlobalState.cc:1723-1732 | the loop ends at the first free mangled form and enters no other new name |
| `GlobalSymbols.SymbolTables.MangleRenameMethod` | core/GlobalState.cc:1740-1756 | the method moves to the next mangled name, under which alone its owner knows it |
| `GlobalSymbols.WalkChain` | core/GlobalState.cc:1070-1090 | the walk over a name and its mangled forms equals the first match among them |
| `GlobalSymbols.SymbolTables.LookupMethodWithHash` | core/GlobalState.cc:1065-1091 | stopping at names missing from the name table loses nothing |
| `Mangling.StepKeepsNoGaps` | core/GlobalState.cc:1723-1756 | operations other than deleting and copying leave no gap in the mangled forms of any name |
| `Mangling.RunKeepsNoGaps` | core/GlobalState.cc:1723-1756 | the same for every run of them |
| `Mangling.MangledFormsAreInitial` | core/GlobalState.cc:1723-1732 | the mangled forms in use are exactly those below the next one |
| `Mangling.LookupIsExact` | core/GlobalState.cc:1065-1091 | without gaps, lookup finds a matching method if and only if there is one in the chain and there is an entry for the plain name; it is the plain name if that matches, and otherwise the match of least number |
| `Mangling.RenamedAloneIsLost` | core/GlobalState.cc:1740-1756 | a matching method that was renamed and not redefined is never found under its old name |
| `Mangling.LookupFindsMatches` | core/GlobalState.cc:1065-1091 | with no gaps and every mangled member anchored at its plain name, lookup finds the first match if and only if there is one |
| `Mangling.NamerStepKeeps` | namer/namer.cc:1090-1107 | entering a symbol, and renaming and redefining a method, keep both conditions in every class |
| `Mangling.NamerRunKeeps` | namer/namer.cc:1090-1107 | so does every run of such steps |
| `Mangling.LookupIsExactInRuns` | namer/namer.cc:1090-1125 | after every such run from the start, for every class and name, lookup by arity finds the first match if and only if there is one |
| `Mangling.RenameThenRedefine` | core/GlobalState.cc:1734-1756 | after renaming and redefining, the new method has the name, the old one the next mangled name, and nothing else changed |
| `DirectoryWalk.BalancedStep` | common/common.cc:311-318 | every step keeps pending jobs equal to directories queued, directories in work and quit tokens added, and tokens accounted for |
| `DirectoryWalk.DeliversStep` | common/common.cc:389-407 | every step keeps results equal in number to workers that delivered, and errors of each kind to workers that failed with that exception |
| `DirectoryWalk.FatalsStep` | common/common.cc:366-376 | for each of the two exceptions, no directory that calls for it is ever forgotten, and none is thrown without one |
| `DirectoryWalk.ConservesStep` | common/common.cc:337-364 | every step moves wanted files between queue, workers and results without losing or doubling one |
| `DirectoryWalk.InvStep` | common/common.cc:321-408 | every interleaving keeps the whole invariant |
| `DirectoryWalkRuns.InitialInv` | common/common.cc:306-319 | the walk starts in the invariant |
| `DirectoryWalkRuns.PendingCoversQueue` | common/common.cc:311-317 | in every reachable state the counter is at least the number of jobs in the queue |
| `DirectoryWalkRuns.NormalShutdownIsClean` | common/common.cc:378-388 | only one worker starts a normal shutdown, when no directory is queued or in work and none has failed |
| `DirectoryWalkRuns.TokensCoverLiveWorkers` | common/common.cc:383-387 | once shutdown began there are or will be as many quit tokens as workers still looping |
| `DirectoryWalkRuns.WaitingWorkersFindJobs` | common/common.cc:326-331 | if all workers wait or are done, the queue is not empty |
| `DirectoryWalkRuns.Progress` | common/common.cc:325-331 | no reachable state is a deadlock |
| `DirectoryWalkRuns.MeasureFalls` | common/common.cc:325-408 | every step lowers a natural number |
| `DirectoryWalkRuns.RunsAreBounded` | common/common.cc:321-408 | every run keeps the invariant and is no longer than the measure of its first state |
| `DirectoryWalkRuns.CollectResults` | common/common.cc:410-448 | the main thread lists all paths if no worker failed, and otherwise throws a reported exception, missing files first |
| `DirectoryWalkRuns.ThrownHasCause` | common/common.cc:366-376 | in every reachable state, whatever a worker has thrown, some directory calls for that very exception |
| `DirectoryWalkRuns.ErrorsHaveCauses` | common/common.cc:366-376 | in every reachable state there are no more errors of a kind than directories that call for it |
| `DirectoryWalkRuns.CausesAreReached` | common/common.cc:366-376 | a directory calls for an exception exactly if it is the root and fails that way, or is reached through wanted directories that open and fails in a way that is not ignored |
| `DirectoryWalkRuns.FinishedWalkIsExact` | common/common.cc:303-448 | a finished walk has one result per worker, an error exactly if a directory that had to open did not, otherwise every wanted file once |
| `DirectoryWalkRuns.EveryCompleteRunIsExact` | common/common.cc:303-448 | the same for every schedule that runs until no worker can move |
| `DirectoryWalkRuns.AppendFilesInDir` | common/common.cc:303-448 | whatever the schedule, the answer is every wanted file once if all directories open that have to, and otherwise an exception some directory calls for; a root that is no directory gives one, a missing or unreadable root the other |
| `DirectoryWalkRuns.ListedPathsAreReached` | common/common.cc:341-364 | in every reachable state, failed or not, each path among the results has an allowed extension, is not ignored, and lies below no ignored directory, symbolic link or directory that did not open |
| `DirectoryWalkRuns.ReachedFilesAreFound` | common/common.cc:339-364 | a wanted file at the end of a chain of wanted directories that open is found |
| `DirectoryWalkRuns.FoundFilesAreReached` | common/common.cc:339-364 | nothing else is found |
| `IgnorePatterns.Scan` | common/common.cc:275-284 | the loop over occurrences equals the recursive scan that resumes behind each occurrence |
| `IgnorePatterns.ScanIsSound` | common/common.cc:273-285 | what the scan finds is an occurrence of whole names |
| `IgnorePatterns.ScanIsComplete` | common/common.cc:273-285 | a pattern that does not overlap itself is never missed |
| `IgnorePatterns.OverlapIsMissed` | common/common.cc:283-283 | every pattern that overlaps itself is missed in some path |
| `IgnorePatterns.ScanIsExactIff` | common/common.cc:272-285 | the scan is right about every path if and only if the pattern does not overlap itself |
| `IgnorePatterns.OneNameIsExact` | common/common.cc:272-285 | patterns of one name are never affected |
| `IgnorePatterns.OneNameMatches` | common/common.cc:248-258 | a pattern of one name matches exactly the paths in which some file or folder has that name |
| `IgnorePatterns.IsFileIgnored` | common/common.cc:248-287 | absolute patterns match at the start, relative ones where the scan finds them, and anywhere if they do not overlap themselves |
| `Linearization.LinearMembers` | core/GlobalState.cc:182-203 | the linearized mixins are exactly what each mixin brings: a stub itself, a class its full linearization, a module what the superclass lacks |
| `Linearization.AddMixinsKeepsOrder` | core/GlobalState.cc:142-163 | later mixins never reorder what earlier ones put in |
| `Linearization.NewComponentsKeepTheirOrder` | core/GlobalState.cc:197-202 | components of one module that are new keep their order relative to all earlier components |
| `Linearization.NewComponentPlace` | core/GlobalState.cc:142-163 | a new component goes in front of an earlier element exactly if that element is not before the starting position and no component before the new one was found at or behind it, and behind it otherwise |
| `Linearization.NewBlock` | core/GlobalState.cc:151-161 | components of which none is there yet go in as one block at the position |
| `Linearization.OtherMixinsPlace` | core/GlobalState.cc:184-196 | an unresolved mixin goes to the end, a class with its full linearization to the front, the superclass nowhere |
| `Linearization.NewModuleGoesFirst` | core/GlobalState.cc:198-202 | a module that is new to a class goes in front of everything included before it |
| `Linearization.LaterModuleGoesFirst` | core/GlobalState.cc:182-203 | in the whole linearization a module comes before everything that mixins included earlier bring, unless one of them brings the module itself or the superclass has it |
| `Linearization.FullNoRepeats` | core/GlobalState.cc:218-237 | the full linearization lists nothing twice and never meets the class itself |
| `Linearization.LinearRepeats` | core/GlobalState.cc:187-196 | a linearization is free of repetitions if and only if no stub or class among the mixins brings something a mixin before it brings |
| `Linearization.ModulesNeverRepeat` | core/GlobalState.cc:197-202 | modules alone never lead to a repetition |
| `Linearization.ClassAfterModuleRepeats` | core/GlobalState.cc:193-196 | a module, then a class that includes it: the module is listed twice |
| `Ancestors.NoInventedAncestors` | core/Symbols.cc:118-136 | a linearized class derives only from what it derived from as written |
| `Ancestors.LinearIsLower` | core/GlobalState.cc:145-147 | linearized mixins are strictly below the class, so no loop is ever reported |
| `Ancestors.StillDerivesFromMixins` | core/GlobalState.cc:207-212 | a linearized class still derives from each of its mixins |
| `Ancestors.FullMembers` | core/GlobalState.cc:218-237 | the full linearization of a class adds the class and its ancestors, no more and no less |
| `Ancestors.ModulesKeepAll` | core/GlobalState.cc:197-202 | the linearized mixins of a module are exactly what it includes, directly or not |
| `Ancestors.AncestorsPreserved` | core/Symbols.cc:118-136 | with resolved mixins, derivation after linearization is ancestry before it, both ways |
| `Ancestors.NewModuleIsOneBlock` | core/GlobalState.cc:197-202 | a module that is all new to a class goes in front with everything it brings that the superclass lacks, followed by what was there |
| `Ancestors.ChainMembers` | core/GlobalState.cc:164-166 | the superclass chain with its mixins consists of the class and what it derives from |
| `Ancestors.FullIsChain` | core/GlobalState.cc:164-166 | where only modules are mixed in, the full linearization is the superclass chain, each class followed by its linearized mixins |
| `ClassLinearizer.ClassTable.constructor` | core/GlobalState.cc:169-173 | at first nothing is linearized |
| `ClassLinearizer.ClassTable.DerivesFromComputed` | core/Symbols.cc:118-136 | on linearized classes the search of the stored list decides derivation |
| `ClassLinearizer.ClassTable.DerivesFromWritten` | core/Symbols.cc:126-135 | before anything is linearized, derivation follows mixins and superclasses as written |
| `ClassLinearizer.ClassTable.MaybeAddMixin` | core/GlobalState.cc:142-163 | position and list are those of the specification, whose placement `NewComponentPlace` pins; a loop is reported exactly for the class itself |
| `ClassLinearizer.ClassTable.AddModule` | core/GlobalState.cc:197-202 | a module and its components are placed as specified and no loop is met |
| `ClassLinearizer.ClassTable.FullLinearization` | core/GlobalState.cc:218-241 | the recursion that linearizes on its way equals the specification |
| `ClassLinearizer.ClassTable.AddMixin` | core/GlobalState.cc:182-203 | one round of the outer loop equals the specification for stubs, classes and modules |
| `ClassLinearizer.ClassTable.Compute` | core/GlobalState.cc:169-216 | the memoised recursion stores the specified linearization, disturbs no class above, and ends |
| `ClassLinearizer.ClassTable.ComputeAll` | core/GlobalState.cc:1007-1014 | whatever the order of the classes, each ends up with its own linearization |
| `UIntSets.ClearLowest` | common/UIntSetForEach.h:13-13 | w & (w - 1) clears the lowest set bit and no other |
| `UIntSets.VisitItems` | common/UIntSetForEach.h:7-17 | every set bit is visited exactly once, in ascending order |
| `UIntSets.VisitIsItems` | common/UIntSet.cc:108-114 | the number of one bits is the number of items |
| `UIntSets.UIntSet.constructor` | common/UIntSet.cc:6-6 | a new set is empty and has room for its size |
| `UIntSets.UIntSet.Add` | common/UIntSet.cc:14-19 | adds exactly the item |
| `UIntSets.UIntSet.Remove` | common/UIntSet.cc:21-26 | removes exactly the item |
| `UIntSets.UIntSet.Contains` | common/UIntSet.cc:28-33 | decides membership |
| `UIntSets.UIntSet.RemoveAll` | common/UIntSet.cc:35-45 | set difference, also with itself |
| `UIntSets.UIntSet.AddAll` | common/UIntSet.cc:47-57 | union, also with itself |
| `UIntSets.UIntSet.Empty` | common/UIntSet.cc:73-80 | decides emptiness |
| `UIntSets.UIntSet.Intersect` | common/UIntSet.cc:82-92 | intersection, also with itself |
| `UIntSets.UIntSet.OverwriteWithUnion` | common/UIntSet.cc:94-106 | becomes the union of two sets, also if it is one of them |
| `UIntSets.UIntSet.Size` | common/UIntSet.cc:108-114 | the number of items |
| `UIntSets.UIntSet.ForEach` | common/UIntSetForEach.h:7-17 | the callback sees the items, each once, in ascending order |
| `ReadsAndWrites.OperandsAreMentioned` | cfg/CFG.cc:119-145 | the operands of an instruction are exactly the variables it mentions |
| `ReadsAndWrites.OperandsDecide` | cfg/CFG.cc:119-145 | instructions of one form with equal operands are equal |
| `ReadsAndWrites.UsesAre` | cfg/CFG.cc:111-145 | a binding uses what its instruction mentions and, if it writes an alias of a global by anything but an alias instruction, the variable it writes |
| `ReadsAndWrites.BlockReads` | cfg/CFG.cc:109-154 | a block reads what its bindings use and its exit condition, unless it has none |
| `ReadsAndWrites.ReadIsUsed` | cfg/CFG.cc:119-145 | read are exactly the variables some binding uses |
| `ReadsAndWrites.WrittenIsBound` | cfg/CFG.cc:110-110 | written are exactly the variables some binding binds |
| `ReadsAndWrites.DeadIsWrittenFirst` | cfg/CFG.h:205-209 | dead on entry are exactly the variables written by a binding before or at which nothing reads them |
| `ReadsAndWrites.LiveInputsDecide` | cfg/CFG.h:205-209 | blocks started with equal values of read and not dead variables have equal effects |
| `ReadsAndWrites.OthersUnchanged` | cfg/CFG.h:201-202 | variables not written keep their values |
| `ReadsAndWrites.DeadVariablesDoNotMatter` | cfg/CFG.h:205-209 | changing the values of dead variables on entry changes nothing |
| `ReadsAndWrites.ExitConditionIsRead` | cfg/CFG.cc:151-154 | the exit condition depends only on read and not dead variables |
| `ReadsAndWrites.AnalyzeBlock` | cfg/CFG.cc:105-154 | the bitsets computed for a block are the three sets of the specification |
| `ReadsAndWrites.AnalyzeBinding` | cfg/CFG.cc:109-149 | one binding extends the three bitsets as specified |
| `ReadsAndWrites.PrivateIff` | cfg/CFG.cc:166-180 | the counts single out a written variable of a block exactly if no other block uses it |
| `ReadsAndWrites.CountUsages` | cfg/CFG.cc:158-172 | the first pass over the bitsets counts, for every variable, the blocks using it and remembers one of them |
| `ReadsAndWrites.RemovePrivateWrites` | cfg/CFG.cc:156-184 | both passes leave in each bitset of writes exactly the variables some other block uses |
| `ReadsAndWrites.AnalyzeBlocks` | cfg/CFG.cc:103-155 | every block gets its three sets, in bitsets that share no memory |
| `ReadsAndWrites.FindAllReadsAndWrites` | cfg/CFG.cc:101-185 | the whole analysis: reads and dead sets as specified, writes only of variables some other block uses |
| `StringStorage.NewStorage` | common/StableStringStorage.h:34-36 | a new storage disturbs nothing |
| `StringStorage.Storage.Assign` | common/StableStringStorage.h:42-47 | a copy shares all pages and may write to none of them |
| `StringStorage.Storage.EnterString` | common/StableStringStorage.h:49-80 | the new view reads as the string; all views ever handed out, by any storage, stay intact and disjoint |
| `StringStorage.Storage.EnterHuge` | common/StableStringStorage.h:54-68 | a huge string leaves a writable page last, and views intact |
| `StringStorage.Storage.InsertHuge` | common/StableStringStorage.h:55-62 | swapping the huge page in front keeps the last page and its position |
| `StringStorage.Storage.OpenPage` | common/StableStringStorage.h:71-72 | a new last page is nobody else's |
| `StringStorage.Storage.Append` | common/StableStringStorage.h:74-79 | filling the page further touches no handed out byte |
| `StringStorage.Storage.EnterSmall` | common/StableStringStorage.h:69-80 | a small string goes behind all others on its page |
| `Edits.AcceptedAreDisjoint` | core/AutocorrectSuggestion.cc:84-104 | accepted edits of a file never overlap, whatever the order of ties |
| `Edits.AcceptedAreDistinct` | core/AutocorrectSuggestion.cc:14-17 | no range is replaced twice, and nothing is inserted twice at one place |
| `Edits.RejectedOverlap` | core/AutocorrectSuggestion.cc:9-27 | for every edit left out there is an accepted one that has its range or begins in it |
| `Edits.RejectedIff` | core/AutocorrectSuggestion.cc:9-27 | the n-th edit in backward order is left out exactly if an accepted one before it has its range or begins inside it, and is accepted otherwise |
| `Edits.ApplyOneMore` | core/AutocorrectSuggestion.cc:105-105 | replacing in the already edited text equals one more simultaneous replacement in the original |
| `Edits.EditedLength` | core/AutocorrectSuggestion.cc:105-105 | the length changes by the sum over the accepted edits |
| `Edits.RangeIsOriginal` | core/AutocorrectSuggestion.cc:105-105 | an edit is past the edited text exactly if it is past the original one |
| `Edits.SortBackwards` | core/AutocorrectSuggestion.cc:68-82 | a permutation in backward order |
| `Edits.ApplyOne` | core/AutocorrectSuggestion.cc:86-106 | one round keeps every text equal to its simultaneous replacement |
| `Edits.ApplySorted` | core/AutocorrectSuggestion.cc:84-108 | for every file with an edit the result is the simultaneous replacement of its accepted edits, which are disjoint and of distinct ranges; it fails exactly if one lies past the text |
| `Edits.Apply` | core/AutocorrectSuggestion.cc:51-108 | the same after sorting |
| `Levenshtein.DistanceIsLeast` | common/Levenstein.cc:7-39 | no edit script is cheaper than the distance |
| `Levenshtein.DistanceIsReached` | common/Levenstein.cc:7-39 | some edit script costs exactly the distance |
| `Levenshtein.DistanceSymmetric` | common/Levenstein.cc:15-18 | swapping the strings does not change the distance |
| `Levenshtein.DistanceBounds` | common/Levenstein.cc:20-22 | the distance is at least the difference of the lengths and at most the longer length |
| `Levenshtein.Levenstein.NextColumn` | common/Levenstein.cc:28-35 | the column of one prefix becomes that of the next in place |
| `Levenshtein.Levenstein.Fill` | common/Levenstein.cc:24-38 | the last entry is the distance |
| `Levenshtein.Levenstein.BoundedDistance` | common/Levenstein.cc:7-39 | the answer is the distance, or INT_MAX exactly if the lengths differ by more than the bound, and then the distance exceeds it; leftovers in the column do not matter |
| `SortedIntersects.LowerBound` | core/FileHash.cc:107-107 | the first position whose value is not below the one searched |
| `SortedIntersects.Intersects` | core/FileHash.cc:94-131 | true if and only if the sorted vectors share a value |
| `LineColumn.FindLineBreaks` | common/common.cc:537-552 | exactly the newlines in order, and the size of the text |
| `LineColumn.OffsetRoundTrip` | core/Loc.cc:63-104 | every offset up to the end of the text is on an existing line and survives the way there and back |
| `LineColumn.DetailRoundTrip` | core/Loc.cc:63-104 | from column 1 on, a position converts exactly if it is in the text, and converts back to itself |
| `LineColumn.DetailSurvivesIff` | core/Loc.cc:86-104 | a position survives the round trip if and only if it is in the text |
| `LineColumn.PastTheLastLine` | core/Loc.cc:89-103 | behind the last line every column but 0 is refused, and column 0 gives the size of the text |
| `LineColumn.ColumnZero` | core/Loc.cc:86-104 | column 0 is accepted exactly on lines 1 to one behind the last, and gives the offset in front of the line, or the greatest 32-bit number on line 1 |

## Left out

- GlobalSymbols.SymbolTables.DeleteMethodSymbol: does not reset the type parameters of the method, because method type parameters are not part of the model.
- Type parameters of methods, overloads, method parameters, locations, flags and packages in the symbol tables.
- Symbols entered under the names `<attached>` and `<singleton>`, which the original reserves for a class and its singleton class, and the untyped class, which is attached to itself.
- Superclass, mixin and type references of symbols in the closure of stratum prefixes; owners, members and type member lists are covered.
- Entering and deleting fields in place; `EnterLeaf` and `Delete` cover them as functions.
- `addMixin`, which resets a linearization, and `prepend`, which the original does not support either.
- Hierarchies with cycles, on which the original raises or does not end; a rank excludes them.
- Ancestors of mixins whose superclass is a stub: the original drops them on purpose, and `AncestorsPreserved` is stated for resolved mixins.
- String hashing and hash mixing, which are a parameter, and the frozen flags of the tables.
- Name tables beyond 2^30 names, where the 32-bit size computation of the original fails.
- The lazy substitution from a table to itself, and the usage hashes it collects.
- Errors in the middle of reading a directory, and a file system that changes during the walk beyond directories that vanish before they are opened.
- The order of jobs in the queue, which is arbitrary here, and the final sort of the listed paths.
- Empty relative ignore patterns, on which the original would not end; option parsing puts a slash in front of each.
- Lifetime of string pages: a page lives as long as some storage refers to it.
- Edits without a location, reading the files, and `mergeAdjacentEdits`; the sort is one that promises no more than its comparison.
- Offsets past the end of the text in `pos2Detail`, which the original logs and rejects.
- Parsing, desugaring, type inference, serialization, printing, the language server and the SCIP emitter.
