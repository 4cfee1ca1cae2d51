# winindex: a model of the index, the search and the scanners

winindex lists the files of Windows drives in a flat in-memory index, searches it in parallel while
the user types, keeps it current from directory watchers, and saves it to a checksummed file. These
modules model that core and prove what it promises. `dafny verify dfyconfig.toml` checks them.

| file | module | what it models |
|---|---|---|
| Text.dfy | Text | 16-bit characters, fixed-width integers, `towlower` and `iswalnum` as total functions |
| SimdSearch.dfy | SimdSearch | the SSE2 and AVX2 block scans over a two-bits-per-lane mask |
| TokenMatcher.dfy | TokenMatcher | tokenising, sorting, binary search, the token fallback |
| EntryMatch.dfy | EntryMatching | the test of one entry, and the naive test of one file record it must equal |
| EntryRule.dfy | EntryRules | the test of one entry in single characters: word boundaries, words, letter case |
| SearchSteps.dfy | SearchSteps | the workers of one search under every interleaving, with stale counter loads |
| SearchOrder.dfy | SearchOrder | which hits a capped search keeps |
| SearchSchedules.dfy | SearchSchedules | the schedule on which a capped search misses a hit |
| SearchEngine.dfy | SearchEngines | chunking, running the workers, merging; meaning on plain records |
| SearchProtocol.dfy | SearchProtocol | searches, writers and readers around the shared mutex |
| SearchProgress.dfy | SearchProgress | that every search ends, the join for it returns, and the last question is answered |
| SearchRules.dfy | SearchRules | which record each row shows, and that a cancelled search stops |
| IndexPool.dfy | IndexPools | the shared character pools, entry records, views, tombstones |
| IndexStore.dfy | IndexStores | the store's operations and the plain list they refine |
| ListRules.dfy | ListRules | what each operation and event does to the list, field by field and in single characters |
| Crc32.dfy | Crc32 | the reflected CRC of section 8 of RFC 1952, bit by bit and by table |
| CrcMachine.dfy | CrcMachines | the register on the machine's 32-bit words |
| CrcLaws.dfy | CrcLaws | the generator polynomial, the check value, two-bit errors |
| IndexSerializer.dfy | IndexSerializers | the file layout, writing and reading it |
| RunningSums.dfy | RunningSums | the second pass of a load |
| RoundTrip.dfy | RoundTrips | what a load makes of a save, for every pool |
| Persistence.dfy | Persistence | bulk writes, saved numbers, deletions, a compacting variant |
| Corruption.dfy | Corruption | which changed files a load accepts, and what it makes of them |
| CorruptFiles.dfy | CorruptFiles | files at which the unguarded entry count shows |
| ByteLayout.dfy | ByteLayouts | integers, texts and records at a position in a file |
| FileLayout.dfy | FileLayouts | the file byte by byte, and what a load makes of a payload that ends early |
| FileTree.dfy | FileTree | a volume's tree, exclusions, the plain listing of its files |
| FindFileScanner.dfy | FindFileScanners | the breadth-first walk |
| MftScanner.dfy | MftScanners | the parent-link table, the path resolver, the emit loop |
| VolumeTables.dfy | VolumeTables | a volume's tree and the table read from it |
| ScanEntries.dfy | ScanEntries | what either scanner emits, field by field, and that all of it fits the index |
| ScannerAgreement.dfy | ScannerAgreement | when both scanners list the same files |
| ChangeEvents.dfy | ChangeEvents | one watcher event reaching the store |
| WorkerSteps.dfy | WorkerSteps | the calling thread, worker threads, scan threads and watchers, and their steps |
| WorkerTraces.dfy | WorkerTraces | what each worker has done at each point |
| WorkerLifecycle.dfy | WorkerLifecycle | the invariant of these threads and what every run guarantees |
| WorkerRanks.dfy | WorkerRanks | how far each worker is from its end |
| WorkerRuns.dfy | WorkerRuns | every worker signals, when a load is followed by a rebuild, when Cancel leaves no watcher |
| WorkerWatchSteps.dfy | WorkerWatchSteps | what each step does to the watchers and to the file |
| WorkerWatching.dfy | WorkerWatching | which roots the workers and a loaded start leave watched, and what an uncancelled job leaves behind |
| WorkerWitnesses.dfy | WorkerWitnesses | runs that show where the threads fall short |
| RebuildScans.dfy | RebuildScans | the scanners joined to the rebuild |

Where a function only computes, a rule beside it says what it computes without calling it: in
characters, bits, bytes and fields. EntryRules, SearchRules, ListRules, ScanEntries, CrcLaws and
FileLayouts hold these rules, for the searches, the list, the scanners, the checksum and the file.

The modules join where the program joins. A search of the pools is a naive search over plain file
records; the store's operations are operations on a list of such records; a search thread keeps the
shared lock while it copies rows, so the rows it shows are the naive search over the files as some
prefix of the changes left them; a rebuild stages what the drive threads found, in drive order, and
what it saves loads back as that list.

Several threads are modelled as a transition system: a state, the actions each thread may take next,
and runs as sequences of enabled actions. A load of the shared hit counter may return any value the
counter has held, and a worker's load of the indexer's cancel flag may miss a store that nothing orders
before it. A writer that holds the lock may leave the pool in any shape until it is done.

## Where the code falls short of what one would expect

The code is kept as it is. Each point has an input or a run that shows it and, for all inputs or
runs, the exact condition under which the code behaves.

- A save writes the whole path pool but only live records, and a load recomputes offsets as running
  sums. A saved pool loads back as its live files if and only if every live entry reads the same
  text at the sum of the live lengths before it as at its own offset (`RoundTripIff`); whatever the
  text, that is so if and only if the two places are the same for every non-empty live entry, the
  pool is dense (`RoundTripIffDense`). A deletion before a live entry ends that: an index holding
  only "b" can load as "a" (`DeletionBreaksRoundTrip`). docs/adr/0003-binary-index-format.md does
  not mention it.
- docs/adr/0003-binary-index-format.md says CRC-32 detects corruption. It covers the payload only.
  A changed file is accepted if and only if its first six bytes stand and the stored checksum
  changed by just what the register makes of the payload's change (`ChangedFileAcceptedIff`), so no
  change to the timestamp or the entry count is caught (`GuardedHeaderIff`). What a load makes of
  every count is `EntryCountIsUnguarded`: a smaller one loads a truncated index without complaint,
  and one changed byte is enough (`OneByteTruncates`). A larger one is refused whenever no numbers
  are saved for roots (`LargerCountRefused`), unless memory cannot be reserved for it. Nothing in the
  program fills the map of those numbers, only the store's own interface does
  (src/core/storage/IndexStore.cpp:164); with two roots in it a larger count reads their bytes as a
  record, or reads outside the path pool (`LargerCountReadsNumbers`, `TwoDrivesReadOutside`).
- A search cut at the cap shows as many hits as the cap allows, but the first ones under every
  schedule only if the hits fit the cap, the cap is zero, or all hits lie in one worker's chunk
  (`AlwaysFirstIff`, whose schedules let each worker read the counter as it is).
- The two scanners treat exclusions alike except for one that names a file or that is written with a
  trailing backslash: the table scan drops files there that the walk lists (`ScannersAgreeIff`;
  `FileExclusionParts` and `BackslashExclusionParts` are two such volumes).
- Adding an entry does not look for its path first, so an event can leave two entries for one path
  (`UniqueKeptIff`, `AddedTwice`).
- A path of 2^16 characters or more is cut short in its entry (`PathReadsBackIff`). Windows itself
  limits a path to 32,767 characters, so only a path joined from names of the master file table can
  be that long.
- A refused or empty index file is followed by a rebuild if and only if the watchers that run beside
  the load leave no entry in the index before it is counted (`EmptyLoadRebuildsIff`); with one report
  in between the call returns and nothing is rebuilt (`RefusedFileNotRebuilt`). The first start has
  no watchers and always rebuilds (`FirstLoadRebuilds`). The window makes only that one unforced
  call (src/ui/MainWindow.cpp:207).
- One watcher can be started after `Cancel` has stopped all of them (`CancelCanLeaveAWatcher`), and
  never more than one (`WatcherRootsDistinct`), since the worker that starts it takes the watchers'
  lock and finds the flag set from then on. `Cancel` leaves none if and only if no worker with roots
  to watch has found the flag clear on its way to that lock, or may still find it clear
  (`CancelLeavesNoneIff`): the flag is loaded relaxed, and a worker that neither has seen it set nor
  has joined a scan that has may miss it. `Cancel` leaves none whenever the completion event is
  signalled (`CancelWhenSignalled`).
- A start that finds a valid index file does not clear the cancel flag, as one that rebuilds does. It
  watches its roots if and only if the flag is clear or they are watched already
  (`LoadedStartWatches`); after a `Cancel` it loads the index and watches nothing
  (`CancelledLoadWatchesNothing`). The window never cancels before it closes.

## Model

| member | source | states |
|---|---|---|
| SimdSearch.Sse2Find | src/core/search/SimdSearch.cpp:51-85 | for every haystack and needle: the leftmost occurrence, or none exactly when there is none; every block it loads and compare it makes is in bounds and the loops end |
| SimdSearch.Avx2Find | src/core/search/SimdSearchAvx2.cpp:13-47 | the same for blocks of sixteen |
| SimdSearch.BlockFind | src/core/search/SimdSearch.cpp:57-84 | the common scan for eight or sixteen lanes with its mask loop and scalar tail finds the leftmost occurrence |
| SimdSearch.MoveMaskEncodes | src/core/search/SimdSearch.cpp:62-64 | the movemask of a lane comparison holds exactly two equal bits per lane |
| SimdSearch.TakeLowestLane | src/core/search/SimdSearch.cpp:66-75 | the lowest set bit halved is the first candidate lane, and clearing two bits removes that lane, no other, and makes the mask strictly smaller |
| SimdSearch.SimdFindSubstring | src/core/search/SimdSearch.cpp:90-95 | whichever instruction set is detected, the result is the leftmost occurrence |
| SimdSearch.ScalarFindInsensitive | src/core/search/SimdSearch.cpp:28-46 | the leftmost occurrence of the folded needle in the folded haystack |
| SimdSearch.LeftmostIsUnique | src/core/search/SimdSearch.cpp:51-85 | two searches that are both leftmost give the same answer, so the forms agree |
| TokenMatcher.TokenizeView | src/core/search/TokenMatcher.cpp:12-24 | the loop over start and i yields the tokens of the specification |
| TokenMatcher.TokenIsRun | src/core/search/TokenMatcher.cpp:12-24 | every token is a maximal non-empty run without separators |
| TokenMatcher.RunIsToken | src/core/search/TokenMatcher.cpp:12-24 | every maximal separator-free run is a token |
| TokenMatcher.TokensAscend | src/core/search/TokenMatcher.cpp:12-24 | tokens come in text order, at least one separator apart |
| TokenMatcher.TokensInvertJoin | src/core/search/TokenMatcher.cpp:12-24 | tokenising undoes joining tokens with any non-empty runs of separators between them and any around them |
| TokenMatcher.Sort | src/core/search/SearchEngine.cpp:164-164 | the result is sorted and has the same members with the same multiplicities |
| TokenMatcher.BinarySearch | src/core/search/TokenMatcher.cpp:30-33 | on sorted tokens it finds a token exactly when it is there |
| TokenMatcher.AllQueryTokensPresent | src/core/search/TokenMatcher.cpp:26-34 | true exactly when there is a query token and all of them are filename tokens |
| TokenMatcher.TokenDecisionIgnoresOrderAndSeparators | src/core/search/SearchEngine.cpp:158-165 | the decision is the same for any two queries with the same set of tokens, whatever their order, repetition and separators |
| EntryMatching.Prepare | src/core/search/SearchEngine.cpp:152-165 | the needle is the query, folded unless case matters, and the sorted query tokens are its tokens when the fallback applies |
| EntryMatching.SelectHaystack | src/core/search/SearchEngine.cpp:197-219 | in all four case and path modes the slice taken is in bounds and is the file record's name or path, folded unless case matters |
| EntryMatching.TokensMatch | src/core/search/SearchEngine.cpp:225-233 | the fallback decides token-set inclusion for this haystack |
| EntryMatching.TestEntry | src/core/search/SearchEngine.cpp:193-243 | the loop body past the cap check computes the verdict of the naive test on the entry's record, which OccurrenceRule and WordRule give in single characters |
| EntryMatching.ReportedIff | src/core/search/SearchEngine.cpp:221-243 | reported iff the needle occurs and, with whole-word on, its leftmost occurrence has word boundaries, or it does not occur and the token rule holds; OccurrenceRule and WordRule say what boundaries and tokens are |
| EntryMatching.HitInside | src/core/search/SearchEngine.cpp:242-243 | the highlight lies inside the text that was searched |
| EntryMatching.VerdictExact | src/core/search/SearchEngine.cpp:193-243 | an entry is reported under its own index, only if live, with exactly the highlight of the naive test, so the 32-bit casts lose nothing |
| EntryRules.ComparedTexts | src/core/search/SearchEngine.cpp:152-219 | the text searched is the record's path or what follows its last component's start, the text looked for is the query, and both are lowered character by character unless case matters |
| EntryRules.OccurrenceRule | src/core/search/SearchEngine.cpp:34-41 | with the needle leftmost at p, the entry is reported with that highlight; with whole-word on iff the character before p, if any, is neither alphanumeric nor an underscore, and neither is the one after the needle, if any |
| EntryRules.WordRule | src/core/search/SearchEngine.cpp:221-243 | where the needle does not occur, the entry is reported, with nothing highlighted, iff case does not matter, the query holds a space, underscore, hyphen or full stop, and every word of the needle, of which there is one, is a word of the text between such characters or its ends |
| EntryRules.WordsAreTokens | src/core/search/TokenMatcher.h:10-12 | the tokens of a text are its words: what stands between spaces, underscores, hyphens, full stops or the ends and holds none |
| SearchSteps.StepKeepsInv | src/core/search/SearchEngine.cpp:187-246 | every step of every worker, whatever its relaxed loads return, keeps: each list is the hits up to its position, and the counter plus the increments still to come is the total appended |
| SearchSteps.EveryRunExact | src/core/search/SearchEngine.cpp:167-262 | every finished uncancelled interleaving, stale counter loads included: the minimum of the cap and the number of hits, ascending, only true hits, and all of them when they fit |
| SearchSteps.EveryRunSound | src/core/search/SearchEngine.cpp:182-262 | every interleaving, cancelled or not: at most the cap, ascending, only true hits |
| SearchSteps.CounterTracksLists | src/core/search/SearchEngine.cpp:187-244 | at every step the counter is at most the number appended, which exceeds it by at most one per worker |
| SearchSteps.OvershootBound | src/core/search/SearchEngine.cpp:190-244 | with current-value loads and a cap of at least one, the counter never exceeds the cap plus the workers minus one |
| SearchSteps.MovesUseUpWork | src/core/search/SearchEngine.cpp:187-246 | every step of a worker uses up work, so no schedule runs for ever |
| SearchOrder.AlwaysFirstIff | src/core/search/SearchEngine.cpp:187-262 | a capped search returns the first hits under every schedule iff the hits fit the cap, the cap is zero, or all hits are in one chunk, and it is the same condition for schedules in which every load returns the current value |
| SearchEngines.MakeChunks | src/core/search/SearchEngine.cpp:167-180 | the chunks are consecutive, non-empty and cover all entries for every thread count, none is larger than an even share rounded up, the early break drops only empty chunks, and nothing wraps below 2^32 entries |
| SearchEngines.WorkerStep | src/core/search/SearchEngine.cpp:187-245 | each program point of the worker loop does what the transition system says for the values its loads returned |
| SearchEngines.RunWorkers | src/core/search/SearchEngine.cpp:173-248 | the workers run to their end under an arbitrary schedule, and what they did is a run of the transition system |
| SearchEngines.Merge | src/core/search/SearchEngine.cpp:250-262 | the local lists in chunk order, cut at the cap |
| SearchEngines.SearchSubstring | src/core/search/SearchEngine.cpp:148-263 | the result is within the cap, ascending and true; uncancelled it has the minimum of cap and hits, and equals the sequential filter when that fits |
| SearchEngines.Search | src/core/search/SearchEngine.cpp:43-55 | queries under two characters find nothing, others what SearchSubstring promises |
| SearchEngines.PoolSearchIsNaiveSearch | src/core/search/SearchEngine.cpp:193-245 | the hits of the pool scan read back as rows are the naive search over the live records, in order |
| SearchEngines.SearchMeansNaiveSearch | src/core/search/SearchEngine.cpp:148-263 | an uncancelled search that fits the cap shows exactly the naive search over the live records, and otherwise as many rows as the cap allows |
| SearchRules.RowRule | src/ui/MainWindow.cpp:456-471 | the rows of a naive search are one for each record that is hit, in list order: its path, last component, size, time and attributes, with the hit as highlight |
| SearchRules.CancelStops | src/core/search/SearchEngine.cpp:187-189 | once the token is set and read as it is, a worker appends at most the one hit it was about to test |
| SearchRules.CancelledAtOnce | src/core/search/SearchEngine.cpp:187-189 | a search cancelled before it starts finds nothing |
| SearchProtocol.CopyDisplayRows | src/ui/MainWindow.cpp:456-471 | the display rows are the records' names, paths and metadata with the highlight, for every result |
| SearchProtocol.SearchThread | src/ui/MainWindow.cpp:452-474 | the thread's body shows exactly the naive search over the live files when uncancelled and within the cap |
| SearchProtocol.StepKeepsInv | src/ui/MainWindow.cpp:432-474 | every step of the window, the search, writers and readers keeps: the mutex counts its holders, no writer beside a reader, the free pool stands for the replayed changes, and a search's pool is the one it captured |
| SearchProtocol.PoolUntouched | src/core/storage/IndexStore.cpp:69-150 | while a search holds the lock no step of any thread changes the pool, although a writer inside may leave it in any shape |
| SearchProtocol.SearchReadsOnePool | src/ui/MainWindow.cpp:438-472 | in every run, from lock to last copied row, the pool is the captured one, it stands for the changes so far, and every index and slice dereferenced is in bounds |
| SearchProtocol.PostedRowsAreTrue | src/ui/MainWindow.cpp:432-474 | in every run each posted list is the naive search over the files as some prefix of the changes left them: every row true, at most the cap, and complete and in order when uncancelled and within it |
| SearchProgress.EverySearchEnds | src/ui/MainWindow.cpp:452-474 | in every run, whatever writers, readers and the window do: until the next start a search takes no more steps than a bound leaves, it has one to take exactly while it is not over, and its own steps alone end it |
| SearchProgress.JoinReturns | src/ui/MainWindow.cpp:432-436 | while the window waits to join, the search has been told to stop, and steps of that search alone let the join return |
| SearchProgress.EverySearchIsAnswered | src/ui/MainWindow.cpp:432-474 | in every run the searches started are answered once each and in their order, the last perhaps still to come |
| SearchProgress.LastQuestionIsShown | src/ui/MainWindow.cpp:432-474 | when nothing more is typed and the search is over, the rows posted last answer the question typed last, uncancelled, on the files as they were at the typing or later |
| IndexPools.IndexPool.AddEntry | src/core/storage/IndexPool.cpp:19-53 | the pool afterwards is the old one with the entry's text and record appended |
| IndexPools.NewEntryReadsBack | src/core/storage/IndexPool.cpp:19-69 | of a new entry the path view is its path, the lowercase view the folded part behind its path's last backslash, and size, time and attributes are as given |
| IndexPools.PathReadsBackIff | src/core/storage/IndexPool.cpp:26-29 | an added path reads back whole iff its length is below 2^16, and otherwise cut short |
| IndexPools.ViewsSurviveGrowth | src/core/storage/IndexPool.cpp:27-50 | appending text to either pool changes no existing view |
| IndexPools.RunKeepsViews | src/core/storage/IndexPool.cpp:19-69 | over every run of adds and tombstones from an empty pool: slices in bounds and pairwise disjoint, and every entry still reads as it was added |
| IndexPools.IndexPool.ViewsAreRecord | src/core/storage/IndexPool.cpp:55-69 | in a well-formed pool all three views stay inside their pools and are the parts of the plain record |
| IndexPools.AddedAppends | src/core/storage/IndexPool.cpp:19-53 | adding keeps the pool well formed and appends one record to the list of live files |
| IndexPools.TombstoneRemovesOne | src/core/storage/IndexStore.cpp:94-95 | setting the deleted flag of a live entry removes exactly its record from the list |
| IndexStores.FirstMatchIsFirstRecord | src/core/storage/IndexStore.cpp:89-98 | the first live entry whose folded path matches is the first matching record of the list |
| IndexStores.IndexStore.ApplyAdd | src/core/storage/IndexStore.cpp:79-82 | the store's value afterwards is the specified add |
| IndexStores.IndexStore.ApplyRemove | src/core/storage/IndexStore.cpp:84-100 | the loop tombstones the first case-insensitive match and nothing else |
| IndexStores.IndexStore.ApplyRename | src/core/storage/IndexStore.cpp:102-132 | the loop tombstones the first match and re-adds its metadata under the new path |
| IndexStores.IndexStore.RemoveEntriesUnderPath | src/core/storage/IndexStore.cpp:134-150 | the loop tombstones the live entries whose folded path starts with the closed folded prefix and leaves the rest; RemoveFolderRule says which these are |
| IndexStores.RemovedRefines | src/core/storage/IndexStore.cpp:84-100 | removal deletes the first case-insensitive path match from the list |
| IndexStores.RenamedRefines | src/core/storage/IndexStore.cpp:102-132 | rename deletes the first match and appends the same metadata under the new path |
| ListRules.RemoveRule | src/core/storage/IndexStore.cpp:84-100 | the list loses its first record whose path is the same up to case, or stays as it is when there is none |
| ListRules.RenameRule | src/core/storage/IndexStore.cpp:102-132 | that record goes, and behind the others comes one under the new path with its size, time and attributes and the name that follows the last backslash |
| ListRules.AddRule | src/core/storage/IndexStore.cpp:79-82 | one record is appended, with the entry's path, size, time and attributes and the name that follows the last backslash |
| IndexStores.RemovedUnderRefines | src/core/storage/IndexStore.cpp:134-150 | prefix removal filters the list by the same closed prefix; RemoveFolderRule says what goes |
| IndexStores.ListRemoveUnderIsFilter | src/core/storage/IndexStore.cpp:139-149 | after prefix removal exactly the records not below the prefix remain |
| ListRules.UnderIsBelow | src/core/storage/IndexStore.cpp:134-149 | a path is below a folder iff the two agree up to case in the folder's characters and the folder is empty, ends in a backslash, or the path goes on with one |
| ListRules.RemoveFolderRule | src/core/storage/IndexStore.cpp:134-150 | removing a folder removes exactly the records below it, no sibling that merely begins alike, and keeps the others in order |
| IndexStores.FromEntriesRefines | src/core/storage/IndexStore.cpp:69-77 | the pool EndWrite swaps in is well formed and its live list is the staged entries |
| IndexStores.StoreRefinesList | src/core/storage/IndexStore.cpp:60-150 | every sequence of store operations acts on the pools as the same sequence acts on a plain list of records |
| IndexStores.BulkWriteReplaces | src/core/storage/IndexStore.cpp:60-77 | BeginWrite, any adds and EndWrite replace the list by exactly those entries, from any state |
| ListRules.EndWriteRule | src/core/storage/IndexStore.cpp:69-77 | the list becomes one record per staged entry, in their order, with the entry's fields |
| IndexStores.IndexStore.BeginWrite | src/core/storage/IndexStore.cpp:60-62 | staging is emptied, pool and USN map untouched |
| IndexStores.IndexStore.AddEntry | src/core/storage/IndexStore.cpp:64-67 | the entry is staged, pool and USN map untouched |
| IndexStores.IndexStore.EndWrite | src/core/storage/IndexStore.cpp:69-77 | the pool is replaced by the staged entries in order and staging emptied |
| IndexStores.IndexStore.GetEntryCount | src/core/storage/IndexStore.cpp:152-156 | the length of the live list |
| IndexStores.IndexStore.GetSavedUsn | src/core/storage/IndexStore.cpp:158-162 | the number saved for the root, or 0 |
| IndexStores.IndexStore.Load | src/core/storage/IndexStore.cpp:39-53 | an accepted file replaces pool and USN map, a refused or missing one leaves both empty |
| IndexStores.IndexStore.Save | src/core/storage/IndexStore.cpp:55-58 | the bytes written are the file image of pool and USN map |
| Crc32.CrcTable.Fill | src/core/storage/IndexSerializer.cpp:28-35 | after the nested loops each of the 256 entries is eight register steps of its index |
| Crc32.CrcTable.Crc32 | src/core/storage/IndexSerializer.cpp:25-40 | the table-driven loop computes the bit-by-bit CRC of section 8 of RFC 1952, whether or not the table was filled before; CrcLaws says which polynomial and which value |
| Crc32.LookupIsEightSteps | src/core/storage/IndexSerializer.cpp:38-38 | one table look-up and shift does what feeding the byte's eight bits one at a time does |
| Crc32.RegisterIsSteps | src/core/storage/IndexSerializer.cpp:31-38 | feeding up to 32 bits singly equals adding them as a word and stepping |
| Crc32.RegisterLinear | src/core/storage/IndexSerializer.cpp:31-38 | the register is linear over exclusive-or |
| Crc32.UndetectedIffRegisterZero | src/core/storage/IndexSerializer.cpp:25-40 | two equal-length payloads share a CRC exactly when their difference alone leaves the zero register at zero |
| Crc32.BitBurstDetected | src/core/storage/IndexSerializer.cpp:25-40 | payloads that differ only inside 32 consecutive bits, at any bit position, have different CRCs |
| Crc32.FourByteBurstDetected | src/core/storage/IndexSerializer.cpp:25-40 | payloads that differ only inside four consecutive bytes have different CRCs |
| CrcLaws.PolynomialExponents | src/core/storage/IndexSerializer.cpp:31-31 | the polynomial has exactly the powers 32, 26, 23, 22, 16, 12, 11, 10, 8, 7, 5, 4, 2, 1 and 0 |
| CrcLaws.StepIsTimesX | src/core/storage/IndexSerializer.cpp:31-31 | one register step multiplies by x modulo that polynomial, power by power |
| CrcMachines.StepIsMachineStep | src/core/storage/IndexSerializer.cpp:31-31 | one register step is the 32-bit machine's `c & 1 ? 0xEDB88320 ^ (c >> 1) : c >> 1` |
| CrcLaws.CheckValue | src/core/storage/IndexSerializer.cpp:25-40 | the CRC of "123456789" is 0xCBF43926, the check value of this CRC |
| CrcLaws.TwoFlipsUnnoticedIff | src/core/storage/IndexSerializer.cpp:25-40 | two payloads that differ in exactly two bits share a CRC iff stepping 1 by the distance of the bits gives 1 |
| CrcLaws.NearFlipsNoticed | src/core/storage/IndexSerializer.cpp:25-40 | two flipped bits at most 64 apart always change the CRC, so a flip of the same bit in two neighbouring words does |
| IndexSerializers.Serialize | src/core/storage/IndexSerializer.cpp:42-108 | the bytes are header, whole path pool, one record per live entry and the USN map in some order, under the payload's CRC |
| IndexSerializers.Deserialize | src/core/storage/IndexSerializer.cpp:110-252 | status, pool, USN map and timestamp are those of the specified parse, on refusal unchanged, and the pool is cleared only after the checksum is accepted |
| IndexSerializers.FixOffsets | src/core/storage/IndexSerializer.cpp:216-233 | the second pass gives every record its running-sum offset and the folded name at that slice, or reads outside exactly when the specification does |
| IndexSerializers.ReadUsnMap | src/core/storage/IndexSerializer.cpp:235-249 | the map read is the specified one, stopping at the first entry that does not fit |
| IndexSerializers.DisksRoundTrip | src/core/storage/IndexSerializer.cpp:69-80 | records written read back field by field |
| IndexSerializers.UsnRoundTrip | src/core/storage/IndexSerializer.cpp:82-88 | a USN map written in any order reads back entry by entry |
| FileLayouts.FileBytes | src/core/storage/IndexSerializer.h:9-33 | every byte of a saved file: "WIDX", version 2, time, live count and CRC low byte first; then the text, a 24-byte record for each live entry, and the saved numbers with their roots, each at its place, and nothing else |
| FileLayouts.LiveDiskFields | src/core/storage/IndexSerializer.cpp:66-80 | each live entry's record holds its size, time, attributes, path length and start of the name, in pool order |
| FileLayouts.CutPayloadLoads | src/core/storage/IndexSerializer.cpp:159-251 | a written payload cut short anywhere, under a CRC of its own: refused with an empty pool while text or records are incomplete; from there on every record loads, and of the saved numbers exactly the complete entries |
| RoundTrips.RebuildGivesSlices | src/core/storage/IndexSerializer.cpp:186-233 | records that fit are rebuilt into a well-formed dense pool of exactly the running-sum slices |
| RoundTrips.LoadAfterSave | src/core/storage/IndexSerializer.cpp:55-251 | for every pool: the file loads, metadata and USN map are equal, and loaded path i is the pool slice at the sum of the live lengths before it |
| RoundTrips.DenseRoundTrip | src/core/storage/IndexSerializer.cpp:55-251 | a dense pool loads back as exactly its live records, in order, with an equal USN map |
| RoundTrips.RoundTripIff | src/core/storage/IndexSerializer.cpp:55-251 | a saved pool loads back as its live records iff every live entry reads the same text at the sum of the live lengths before it as at its own offset |
| RoundTrips.RoundTripIffDense | src/core/storage/IndexSerializer.cpp:199-232 | the form that does not depend on the text: the slices loaded are the live records for every text the pool could hold iff the pool is dense |
| RoundTrips.MisreadEntry | src/core/storage/IndexSerializer.cpp:199-232 | any live non-empty entry off its running sum is misread for some text |
| RoundTrips.AddKeepsDenseIff | src/core/storage/IndexPool.cpp:26-29 | an add keeps density iff the pool has no dead text or the path is empty |
| RoundTrips.DeleteKeepsDenseIff | src/core/storage/IndexStore.cpp:94-95 | a deletion keeps density iff the entry is empty or no non-empty live entry follows |
| Persistence.BulkWriteRoundTrip | src/core/storage/IndexStore.cpp:55-77 | what EndWrite swaps in, saved and loaded, gives back exactly the staged entries |
| Persistence.SavedNumbersSurvive | src/core/storage/IndexStore.cpp:158-167 | a number set for a root, saved and loaded, is the number read back, and every other root keeps its own |
| Persistence.DeletionBreaksRoundTrip | src/core/storage/IndexSerializer.cpp:61-80 | a two-entry index with the first deleted loads back naming the wrong file |
| Persistence.CompactingSaveRoundTrip | src/core/storage/IndexSerializer.cpp:55-59 | a variant, not the code: saving the live text only would round-trip from every well-formed pool |
| Corruption.PayloadBurstRefused | src/core/storage/IndexSerializer.cpp:136-137 | a saved file changed inside 32 consecutive payload bits is refused and the load changes nothing |
| Corruption.FourByteBurstRefused | src/core/storage/IndexSerializer.cpp:136-137 | the same for four consecutive payload bytes |
| Corruption.ChangedFileAcceptedIff | src/core/storage/IndexSerializer.cpp:120-137 | an accepted file changed in any way without changing its length is accepted again iff its first six bytes stand and the stored checksum changed by what the zero register makes of the payload's change |
| Corruption.GuardedHeaderIff | src/core/storage/IndexSerializer.cpp:120-139 | with the payload as it was, a changed header is accepted iff magic number, version and stored checksum stand; a refused one changes nothing, an accepted one loads with its own count and timestamp |
| Corruption.FaultyIff | src/core/storage/IndexSerializer.cpp:216-233 | the second pass reads outside the path pool iff some record's name lies there at its running sum |
| Corruption.EntryCountIsUnguarded | src/core/storage/IndexSerializer.cpp:94-232 | for every count an accepted header claims over the payload of n records: up to n the first records load; past n the file is refused with an empty pool, or the count is too large to reserve, or the USN map's bytes are read as records behind the n right ones, or a read leaves the path pool, each under its own condition |
| CorruptFiles.OneByteTruncates | src/core/storage/IndexSerializer.cpp:94-139 | the saved file of two paths, with the lowest byte of its entry count changed, is accepted and loads as the first alone |
| CorruptFiles.LargerCountReadsNumbers | src/core/storage/IndexSerializer.cpp:172-251 | with numbers saved for two roots behind one record, a count of two is accepted; the load reads outside the path pool unless the second root's length is its first character, and then shows two files |
| CorruptFiles.TwoDrivesReadOutside | src/core/storage/IndexSerializer.cpp:172-233 | with numbers saved for C:\ and D:\ the same file reads outside the path pool |
| CorruptFiles.LargerCountRefused | src/core/storage/IndexSerializer.cpp:164-184 | on every file written without saved numbers, every larger count that can be reserved is refused and leaves the index empty |
| FileTree.ChildExcludedIff | src/core/indexer/FindFileScanner.cpp:14-27 | a path is excluded iff its directory is, or an exclusion is the path itself or its directory with a trailing backslash; ExclusionRule says the same of one path in single characters |
| FileTree.ExcludedIffNamedOnTheWay | src/core/indexer/MftScanner.cpp:24-37 | a path is excluded iff its root is or an exclusion names it, or a directory above it with or without a trailing backslash |
| ScanEntries.ExclusionRule | src/core/indexer/MftScanner.cpp:24-37 | a path is excluded iff some exclusion agrees with it up to case in all its characters and is the whole path, ends in a backslash, or is followed by one in the path |
| FindFileScanners.ListDirectory | src/core/indexer/FindFileScanner.cpp:72-106 | one listing emits the files and queues the directories, in order, skipping reparse points and the dot entries; a cancelled one emits a prefix no longer than the polls that found the flag clear |
| FindFileScanners.ScanDirectory | src/core/indexer/FindFileScanner.cpp:41-110 | the queue loop ends and emits the whole walk; cancelled, a prefix of it no longer than the polls that found the flag clear, and it stops after at most one poll more per loop |
| FindFileScanners.StepShrinks | src/core/indexer/FindFileScanner.cpp:49-89 | taking a directory out and queueing its subdirectories leaves strictly less of the tree unvisited |
| FindFileScanners.WalkListsOpenFiles | src/core/indexer/FindFileScanner.cpp:45-109 | the walk emits each file whose directories, from the scan root down, are all readable and not excluded, exactly once, and no other |
| FindFileScanners.FoundIsCanonical | src/core/indexer/FindFileScanner.cpp:82-99 | an emitted entry's name is its path's last component and its lowercase name that name folded |
| ScanEntries.WalkRule | src/core/indexer/FindFileScanner.cpp:41-110 | an entry is emitted iff it is that of a file, no reparse point (attribute 0x400) and no directory (0x10), to which names lead from the scan root through directories that are readable, no reparse points and not excluded; its name, lowered name, path, size, time and attributes are the listing's |
| ScanEntries.WalkedIsCanonical | src/core/indexer/FindFileScanner.cpp:82-99 | every entry the walk emits under a path below 2^16 characters goes into the index as it is |
| MftScanners.ReadTable | src/core/indexer/MftScanner.cpp:79-111 | undisturbed, the table is the one LastRecordRule describes; cancelled, reading stops at once |
| ScanEntries.LastRecordRule | src/core/indexer/MftScanner.cpp:85-108 | the table says of a file number the name, parent and attributes of the last record of that number that has a name, and nothing of a number without one |
| MftScanners.ResolvesIffClimbs | src/core/indexer/MftScanner.cpp:116-123 | resolvePath ends iff the parent links lead to a missing parent or a self-parent, and gives the root followed by every ancestor name, root first, each with a backslash |
| MftScanners.ScanVolume | src/core/indexer/MftScanner.cpp:67-148 | undisturbed it emits for every table entry, in the table's iteration order, what TableRule says; cancelled a prefix no longer than the polls that found the flag clear |
| ScanEntries.TableRule | src/core/indexer/MftScanner.cpp:116-146 | an entry is emitted iff it is that of a record in the table that is no directory (attribute 0x10), whose parent links lead to the root under the names on the way, and whose path is not excluded; its name, lowered name and attributes are the record's, size and time zero |
| ScanEntries.EmittedIsCanonical | src/core/indexer/MftScanner.cpp:131-145 | every entry the table scan emits under a path below 2^16 characters, from records with proper names, goes into the index as it is: its lowercase name is the fold of its path's last component |
| ScannerAgreement.TableScanListsUncovered | src/core/indexer/MftScanner.cpp:116-146 | for any order of records and of iteration, the paths emitted are those of the tree's files that no exclusion covers |
| ScannerAgreement.ScannersAgreeIff | src/core/indexer/MftScanner.cpp:125-146 | the table scan lists nothing the walk does not, and both list the same multiset of paths iff no reachable file meets an exclusion that is its path or its directory with a trailing backslash |
| ScannerAgreement.FileExclusionParts | src/core/indexer/MftScanner.cpp:125-146 | on a volume with one file, excluded by name, the walk lists the file and the table scan lists nothing |
| ScannerAgreement.BackslashExclusionParts | src/core/indexer/MftScanner.cpp:125-146 | on a volume with one directory and a file in it, the directory excluded with a trailing backslash, the walk lists the file and the table scan lists nothing |
| ScannerAgreement.ScannersAgree | src/core/indexer/FindFileScanner.cpp:45-109 | with no exclusion ending in a backslash or naming a file, both scanners list the same multiset of paths |
| ScannerAgreement.DescribedIsAcyclic | src/core/indexer/MftScanner.cpp:116-123 | on every table read from a volume's tree the resolver ends for every entry |
| ChangeEvents.BuildAndApplyAdd | src/core/indexer/Indexer.cpp:261-279 | adds the file's entry unless the path is gone or a directory, and says whether it did |
| ChangeEvents.ApplyChange | src/core/indexer/Indexer.cpp:281-295 | the pool afterwards is the specified change for each kind of event |
| ChangeEvents.ChangeRefines | src/core/indexer/Indexer.cpp:281-295 | on the list of files an event removes, appends or renames as its kind says |
| ListRules.EventRule | src/core/indexer/Indexer.cpp:261-295 | an added file is appended with the name behind the last backslash and the size, time and attributes the file system gives, unless it is gone or a directory (attribute 0x10); a removed one goes, a modified one goes and comes back, a renamed one with a known old path moves |
| ChangeEvents.UniqueKeptIff | src/core/indexer/Indexer.cpp:281-295 | an index with one entry per path keeps that iff the event brings no path still there; a modification always keeps it |
| ChangeEvents.AddedTwice | src/core/indexer/Indexer.cpp:281-288 | an index with one entry for a path and a report that the path was added: two entries for it |
| WorkerLifecycle.StepKeepsInv | src/core/indexer/Indexer.cpp:40-321 | every step of caller, worker, scan thread and watcher keeps the whole invariant, each worker's record of effects included |
| WorkerLifecycle.AtMostOneWorker | src/core/indexer/Indexer.cpp:40-177 | in every run at most one worker lives, and the event is unsignalled exactly from its reset until that worker signals |
| WorkerLifecycle.EveryWorkerAccounts | src/core/indexer/Indexer.cpp:104-259 | a worker that has signalled did all its work and saved, or saw the cancel flag; a cancelled rebuild has touched neither store nor disk; WorkInOrder spells the work out, and UncancelledJobIsDone when it is all done |
| WorkerLifecycle.RebuildIsDeterministic | src/core/indexer/Indexer.cpp:229-253 | in whatever order the drive threads ran, after EndWrite and before another change the index is the concatenation of the drives' scans in drive order, and dense |
| WorkerLifecycle.RebuildThenLoad | src/core/indexer/Indexer.cpp:246-255 | what a rebuild saved with no change since EndWrite loads back as exactly the scanned entries |
| WorkerLifecycle.WatcherRootsDistinct | src/core/indexer/Indexer.cpp:307-321 | in every run, stale loads of the cancel flag included, watcher roots are pairwise distinct, and once Cancel has run to its end at most one watcher is left until the next start |
| WorkerLifecycle.WatcherList.StartWatchersForRoots | src/core/indexer/Indexer.cpp:307-321 | adds a watcher for each root without one, in order, up to the root at which the cancel flag is seen |
| WorkerLifecycle.WatcherList.StopWatchersForRoots | src/core/indexer/Indexer.cpp:157-170 | exactly the watchers of other roots are kept |
| WorkerWatching.WatchesInOrder | src/core/indexer/Indexer.cpp:307-321 | along every run, a worker starts or finds watchers for the roots it was given to watch, each once and in order: for all when it ends without having learnt of a set flag, for a first part otherwise, a removal for none |
| WorkerWatching.FinishedWorkerWatches | src/core/indexer/Indexer.cpp:253-321 | each root of a rebuild or addition that ended without having learnt of a set flag is watched, unless a Cancel or a removal of that root came in between |
| WorkerWatching.RemovedRootsUnwatched | src/core/indexer/Indexer.cpp:147-170 | once a removal has stopped its watchers none of its roots is watched, and none is again until the next start |
| WorkerWatching.UncancelledJobIsDone | src/core/indexer/Indexer.cpp:58-321 | in every run in which nobody cancels, when the event is signalled again: one worker more, which has done all of the job's work and saved, the file holds what it saved, and the watchers are exactly those found with those of the roots to watch added in order, or for a removal without its roots |
| WorkerWatching.WatchedIff | src/core/indexer/Indexer.cpp:307-321 | the watchers found stay, and a root is watched afterwards iff it was or is in the list |
| WorkerWatching.WorkInOrder | src/core/indexer/Indexer.cpp:104-255 | all the work: an addition adds every scanned entry of every root in order, a removal removes each root in order, a rebuild begins, stages every drive's entries in drive order and swaps them in; then each saves |
| WorkerWatching.DiskIsLastSave | src/core/indexer/Indexer.cpp:118-251 | in every run the index file holds the pool the last worker to save has saved |
| WorkerWatching.LoadedStartWatches | src/core/indexer/Indexer.cpp:44-56 | a start that keeps the loaded index leaves its roots watched iff the cancel flag is clear or they were watched before; with the flag set the watchers stay as they were |
| WorkerWitnesses.CancelledLoadWatchesNothing | src/core/indexer/Indexer.cpp:44-56 | there is a run in which a start after a Cancel loads an index with entries, returns, and nothing is watched |
| WorkerRuns.WorkersRunDown | src/core/indexer/Indexer.cpp:104-259 | every step of a worker or its scans brings it strictly nearer its end |
| WorkerRuns.LiveWorkerCanStep | src/core/indexer/Indexer.cpp:104-259 | a live worker, or one of its scans, can always take a step |
| WorkerRuns.OthersDoNotDelay | src/core/indexer/Indexer.cpp:104-259 | no step of another thread undoes a worker's progress |
| WorkerRuns.EveryWorkerSignals | src/core/indexer/Indexer.cpp:104-259 | in every run, whatever the other threads do in between: a worker and its scans take no more steps than a bound fixed at any earlier point leaves; it has a step to take exactly while it is alive; and from any point of its life its own steps alone end it with the completion event set |
| WorkerRuns.JobsDueKept | src/core/indexer/Indexer.cpp:58-77 | the jobs of the workers created so far with the one decided on are the same before and after every step: a decided start is carried out once, whatever other threads do |
| WorkerRuns.EmptyLoadRebuildsIff | src/core/indexer/Indexer.cpp:44-77 | in every run from a load that brings nothing until the call returns, one rebuild worker with the call's job is created iff what the watchers reported between load and count, replayed on an empty list, leaves no entry; otherwise no worker is created |
| WorkerRuns.OnlyAddsFill | src/core/indexer/Indexer.cpp:281-295 | reports of removals and renamings alone leave an empty list empty |
| WorkerRuns.AddsFill | src/core/indexer/Indexer.cpp:281-295 | without removals the list stays empty iff nothing was added |
| WorkerRuns.FirstLoadRebuilds | src/core/indexer/Indexer.cpp:44-77 | with no watcher at the load, as at the first start, a load that brings nothing is always followed by the creation of a rebuild worker |
| WorkerRuns.CallReturns | src/core/indexer/Indexer.cpp:40-77 | a call that has not returned can always take a step, and after its bounded number of steps it has returned, whatever other threads do |
| WorkerWitnesses.RefusedFileNotRebuilt | src/core/indexer/Indexer.cpp:45-53 | there is a run in which the index file is refused, the call returns and no worker was created |
| WorkerRuns.CancelLeavesNoneIff | src/core/indexer/Indexer.cpp:172-177 | when Cancel has stopped and dropped the watchers, no continuation without a new start has one iff no worker with roots left to watch has found the flag clear on its way to the watchers' lock or may still find it clear by a relaxed load |
| WorkerRuns.CancelWhenSignalled | src/core/indexer/Indexer.cpp:172-177 | with the completion event signalled at that moment no watcher comes back before the next start |
| WorkerWitnesses.CancelCanLeaveAWatcher | src/core/indexer/Indexer.cpp:172-177 | there is a run in which a watcher is started after Cancel has stopped all of them |
| RebuildScans.RebuildListsVolumes | src/core/indexer/Indexer.cpp:229-254 | in every run, after a rebuild's EndWrite and before another change the index lists the drives' scans one after the other in drive order, which are the files of each volume that its scanner lists, each once |
| RebuildScans.ScansMakeJob | src/core/indexer/Indexer.cpp:209-227 | over volumes with proper names and paths below 2^16 characters, what the scanners emit is a job that the rebuild theorems take |

## Left out

- Regular-expression search (`SearchRegex`): its matcher is an external library.
- `ignoreDiacritics`: part of the options, read by no search code.
- Whole-word occurrences after the leftmost one: the code looks at the leftmost only.
- Vector instructions are modelled lane by lane: compare, movemask, lowest set bit; CPU detection is an arbitrary choice.
- `towlower` and `iswalnum` are arbitrary total functions on 16-bit characters, with `lower(c)` a backslash only for a backslash where paths are taken apart.
- `std::sort` is modelled by an insertion sort; a sorted arrangement of given tokens is unique.
- CRC words are sequences of 32 bits instead of machine words, converted to integers at the file's edge.
- Worker steps are atomic at the level of one load, one test of an entry, one append or one increment.
- The indexer's cancel flag is stored to by the calling thread alone, so its own loads are current. A worker's load may lag behind for ever unless the worker has seen the flag, has joined a scan that has, or has taken the watchers' lock after Cancel gave it back; order through other locks is not used.
- IndexPools.IndexPool.AddEntry: requires that an entry without a name and a lowercase name has a last component where its two narrowed lengths say, since the code would copy from outside the path otherwise; pool sizes from 2^32 on are modelled (offsets wrap) but well-formedness is claimed only below, and only for entries whose lengths fit 16 bits. `ApplyAdd` and `EndWrite` ask the same of their entries.
- WorkerRuns.EmptyLoadRebuildsIff: for runs in which the text of the index stays below 2^32 characters, where the refinement to plain lists holds; FirstLoadRebuilds needs no such bound.
- IndexSerializers.Deserialize: a file on which the code would read outside its buffers has the status Undefined, and nothing is promised about the pool then; memory exhaustion and I/O failures other than a missing file are not modelled.
- Writing the file is one step: a save that fails halfway is not modelled.
- A lock moved to another thread is treated as one owner, and the display rows' journey through the message queue is not modelled.
- A watcher's callback that outlives the five seconds `ChangeWatcher::Stop` waits for its thread: a stopped watcher reports nothing more.
- The debounce timer and everything else of the window.
- The scanners' counters of files and skipped directories and their progress callback, which do not affect what is emitted.
- MftScanners.ScanVolume: requires parent links without cycles; on a cycle `resolvePath` would recurse without end, which ResolvesIffClimbs states.
- ScannerAgreement.ScannersAgreeIff: compares paths only, since the table scan leaves size and time zero, on trees without reparse points and with every directory readable.
- Reading the master file table, `ReadDirectoryChangesW`, the USN journal and drive enumeration: their results are arbitrary records, events and trees.
- The indexer's StartIndexing, IndexPaths, RemovePaths, Cancel and thread bodies are steps of a transition system and not methods of a class, because they interleave.
- Changes that watchers make to the old pool before EndWrite are lost, as in the code; no claim is made about them.
- "No entries under a removed path" across running watchers: entries are removed before the watchers are stopped, so it is claimed for the store operation only.
- Replay of saved USN numbers, index age, settings, logging and all dialogs.
