/**
 Searches, writers, which may leave the pool in any shape, and readers around the store's shared mutex.
 */
module SearchProtocol {
  import opened Text
  import opened IndexPools
  import opened IndexStores
  import opened EntryMatching
  import opened SearchEngines
  import S = SearchSteps

  const MAX_RESULTS: U32 := 10000

  // ---------------------------------------------------------------- what writers do

  /** A change made under the exclusive lock. */
  datatype WriterOp =
    | Edit(op: StoreOp)
    | Swap(entries: seq<FileEntry>)
    | LoadFile(incoming: Pool)

  ghost predicate GoodPool(loc: Locale, p: Pool) {
    WellFormed(loc, p) && HasRoom(p) && |p.meta| < U32_LIMIT
  }

  /** What the caller of a store operation owes: canonical entries and lengths within 16 bits. */
  ghost predicate OpFits(loc: Locale, op: WriterOp) {
    match op
    case Edit(o) => OpOk(loc, o) && (o.ApplyAdd? || o.ApplyRemove? || o.ApplyRename? || o.RemoveEntriesUnderPath?)
    case Swap(entries) => AllCanonical(loc, entries)
    case LoadFile(incoming) => GoodPool(loc, incoming)
  }

  ghost function After(loc: Locale, base: Pool, op: WriterOp): Pool
    requires OpFits(loc, op)
  {
    match op
    case Edit(o) => Apply(loc, State(base, []), o).pool
    case Swap(entries) => FromEntries(loc, entries)
    case LoadFile(incoming) => incoming
  }

  /** The same change on the plain list of files. */
  ghost function ListAfter(loc: Locale, files: seq<Record>, op: WriterOp): seq<Record> {
    match op
    case Edit(o) => ApplyToList(loc, ListState(files, []), o).live
    case Swap(entries) => RecordsFor(entries)
    case LoadFile(incoming) => Live(incoming)
  }

  /** The files after the given changes, from an empty index. */
  ghost function Replay(loc: Locale, log: seq<WriterOp>): seq<Record> {
    if log == [] then [] else ListAfter(loc, Replay(loc, log[..|log| - 1]), log[|log| - 1])
  }

  lemma ChangeRefines(loc: Locale, base: Pool, op: WriterOp)
    requires GoodPool(loc, base) && OpFits(loc, op) && HasRoom(After(loc, base, op))
    ensures WellFormed(loc, After(loc, base, op))
    ensures Live(After(loc, base, op)) == ListAfter(loc, Live(base), op)
  {
    match op
    case Edit(o) => OperationRefines(loc, State(base, []), o);
    case Swap(entries) => FromEntriesRefines(loc, entries);
    case LoadFile(_) =>
  }

  // ---------------------------------------------------------------- what the window shows

  datatype DisplayEntry = DisplayEntry(
    name: WString, path: WString, size: U64, lastModified: U64, attributes: U32, matchStart: nat, matchLen: nat)

  /** The copy of one result out of the pool, with its 16-bit name length. */
  function CopyRow(p: Pool, r: SearchResult): DisplayEntry {
    if r.entryIndex < |p.meta| then
      var m := p.meta[r.entryIndex];
      var nameLen := (m.pathLen - m.nameStart) % U16_LIMIT;
      DisplayEntry(View(p.pathPool, m.pathOffset + m.nameStart, nameLen), View(p.pathPool, m.pathOffset, m.pathLen),
                   m.size, m.lastModified, m.attributes, r.matchStart, r.matchLen)
    else DisplayEntry([], [], 0, 0, 0, 0, 0)
  }

  function CopyRows(p: Pool, results: seq<SearchResult>): (rows: seq<DisplayEntry>)
    ensures |rows| == |results|
  {
    seq(|results|, i requires 0 <= i < |results| => CopyRow(p, results[i]))
  }

  /** What a search hit on a plain record looks like. */
  function Shown(r: Row): DisplayEntry {
    DisplayEntry(r.record.Name(), r.record.path, r.record.size, r.record.lastModified, r.record.attributes,
                 r.matchStart, r.matchLen)
  }

  function AllShown(rows: seq<Row>): (shown: seq<DisplayEntry>)
    ensures |shown| == |rows|
  {
    seq(|rows|, i requires 0 <= i < |rows| => Shown(rows[i]))
  }

  lemma CopyIsShown(loc: Locale, p: Pool, r: SearchResult)
    requires WellFormed(loc, p) && r.entryIndex < |p.meta|
    ensures CopyRow(p, r) == Shown(RowOf(p, r))
  {
    assert EntryOk(loc, p, p.meta[r.entryIndex]);
  }

  lemma CopiesAreShown(loc: Locale, p: Pool, results: seq<SearchResult>)
    requires WellFormed(loc, p) && InRange(p, results)
    ensures CopyRows(p, results) == AllShown(Rows(p, results))
  {
    hide WellFormed, CopyRow, Shown, Rows, RowOf;
    RowsLength(p, results);
    forall i | 0 <= i < |results| ensures CopyRows(p, results)[i] == AllShown(Rows(p, results))[i] {
      CopyIsShown(loc, p, results[i]);
    }
  }

  /** The copying loop of the search thread: one display row per result, read from the pool. */
  method CopyDisplayRows(loc: Locale, p: Pool, raw: seq<SearchResult>) returns (display: seq<DisplayEntry>)
    requires WellFormed(loc, p) && InRange(p, raw)
    ensures display == AllShown(Rows(p, raw))
  {
    hide WellFormed, Rows, Shown, RowOf;
    display := [];
    for i := 0 to |raw|
      invariant display == CopyRows(p, raw[..i])
    {
      var m := p.meta[raw[i].entryIndex];
      var nameLen := (m.pathLen - m.nameStart) % U16_LIMIT;
      var de := DisplayEntry(
        View(p.pathPool, m.pathOffset + m.nameStart, nameLen), View(p.pathPool, m.pathOffset, m.pathLen),
        m.size, m.lastModified, m.attributes, raw[i].matchStart, raw[i].matchLen);
      OneMoreRow(p, raw, i);
      display := display + [de];
    }
    assert raw[..|raw|] == raw;
    CopiesAreShown(loc, p, raw);
  }

  /** The search thread on the pool it holds locked: search, then copy. */
  method SearchThread(loc: Locale, avx2: bool, p: Pool, query: WString, o: SearchOptions, numThreads: U32)
    returns (display: seq<DisplayEntry>, cancelled: bool)
    requires WellFormed(loc, p) && |p.meta| < U32_LIMIT && numThreads >= 1
    ensures |query| < 2 ==> display == []
    ensures |query| >= 2 && !cancelled ==>
              var expected := AllShown(NaiveSearch(loc, query, o, Live(p)));
              && |display| == Min(10_000, |expected|)
              && (|expected| <= 10_000 ==> display == expected)
  {
    hide WellFormed, NaiveSearch, Live, Rows, CopyRow, Shown, S.Hits, S.AscendingHits;
    var raw;
    raw, cancelled := SearchEngines.Search(loc, avx2, p, query, o, MAX_RESULTS, numThreads);
    assert InRange(p, raw) by {
      if |query| >= 2 {
        SearchInRange(loc, p, query, o, cancelled, raw);
      }
    }
    display := CopyDisplayRows(loc, p, raw);
    RowsLength(p, raw);
    if |query| >= 2 && !cancelled {
      SearchMeansNaiveSearch(loc, p, query, o, MAX_RESULTS, raw);
    }
  }

  lemma SearchInRange(
      loc: Locale, p: Pool, query: WString, o: SearchOptions, cancelled: bool, raw: seq<SearchResult>)
    requires SearchOk(AllVerdicts(loc, p, query, o), MAX_RESULTS, cancelled, raw)
    ensures InRange(p, raw)
  {
    hide Verdict;
  }

  lemma OneMoreRow(p: Pool, results: seq<SearchResult>, k: nat)
    requires k < |results|
    ensures CopyRows(p, results[..k + 1]) == CopyRows(p, results[..k]) + [CopyRow(p, results[k])]
  {
    hide CopyRow;
  }

  // ---------------------------------------------------------------- states

  /** The shared mutex. */
  datatype Mutex = Mutex(exclusive: bool, shared: nat)

  datatype Writer = Away | Waiting(op: WriterOp) | Holding(op: WriterOp, base: Pool)

  /**
   The search thread. `captured` and `seen` record, for the statements only, the pool and the
   number of changes made when the lock was taken.
   */
  datatype Search =
    | NoSearch
    | Running(query: WString, options: SearchOptions, captured: Pool, seen: nat, chunks: seq<S.Chunk>, s: S.State)
    | Copying(query: WString, options: SearchOptions, captured: Pool, seen: nat, cancelled: bool,
              results: seq<SearchResult>, rows: seq<DisplayEntry>)
    | Unlocking

  datatype Ui =
    | Typing
    | Joining(query: WString, options: SearchOptions)
    | Locking(query: WString, options: SearchOptions)

  /** Rows handed to the window, and what they answer. */
  datatype Posting = Posting(query: WString, options: SearchOptions, captured: Pool, seen: nat, cancelled: bool,
                             results: seq<SearchResult>, rows: seq<DisplayEntry>)

  datatype Sys = Sys(
    pool: Pool, mutex: Mutex, writers: seq<Writer>, readers: nat, search: Search, ui: Ui,
    log: seq<WriterOp>, posted: seq<Posting>)

  function Start(writers: nat): Sys {
    Sys(EMPTY, Mutex(false, 0), seq(writers, _ => Away), 0, NoSearch, Typing, [], [])
  }

  // ---------------------------------------------------------------- steps

  datatype Action =
    | Type(query: WString, options: SearchOptions)   // ExecuteSearch sets the cancel flag
    | Join                                           // and waits for the search thread
    | Lock(chunks: seq<S.Chunk>)                     // then takes the lock and starts a search
    | Scan(a: S.Action)                              // one step of one search worker
    | Merge
    | Copy                                           // one display row
    | Post
    | Unlock
    | Request(w: nat, op: WriterOp)                  // a writer enters a store operation
    | Acquire(w: nat)
    | Touch(w: nat, p: Pool)                         // the pool halfway through a change
    | Commit(w: nat)
    | ReadLock                                       // Save, GetEntryCount
    | ReadUnlock

  /** The scan reads the pool as it is now. */
  ghost function ConfigNow(loc: Locale, sys: Sys): S.Config
    requires sys.search.Running?
  {
    S.Config(AllVerdicts(loc, sys.pool, sys.search.query, sys.search.options), sys.search.chunks, MAX_RESULTS)
  }

  ghost predicate Enabled(loc: Locale, sys: Sys, a: Action) {
    match a
    case Type(_, _) => sys.ui.Typing?
    case Join => sys.ui.Joining? && sys.search.NoSearch?
    case Lock(chunks) => sys.ui.Locking? && !sys.mutex.exclusive && S.Partition(chunks, |sys.pool.meta|)
    case Scan(b) => sys.search.Running? && b.Move? && S.Enabled(sys.search.s, b)
    case Merge => sys.search.Running? && S.Finished(sys.search.s)
    case Copy => sys.search.Copying? && |sys.search.rows| < |sys.search.results|
    case Post => sys.search.Copying? && |sys.search.rows| == |sys.search.results|
    case Unlock => sys.search.Unlocking? && sys.mutex.shared > 0
    case Request(w, op) => w < |sys.writers| && sys.writers[w].Away? && OpFits(loc, op)
    case Acquire(w) => w < |sys.writers| && sys.writers[w].Waiting? && !sys.mutex.exclusive && sys.mutex.shared == 0
    case Touch(w, _) => w < |sys.writers| && sys.writers[w].Holding?
    case Commit(w) =>
      && w < |sys.writers| && sys.writers[w].Holding? && OpFits(loc, sys.writers[w].op)
      && var p := After(loc, sys.writers[w].base, sys.writers[w].op); HasRoom(p) && |p.meta| < U32_LIMIT
    case ReadLock => !sys.mutex.exclusive
    case ReadUnlock => sys.readers > 0 && sys.mutex.shared > 0
  }

  ghost function Next(loc: Locale, sys: Sys, a: Action): Sys
    requires Enabled(loc, sys, a)
  {
    match a
    case Type(query, options) =>
      sys.(ui := Joining(query, options),
           search := if sys.search.Running? then sys.search.(s := sys.search.s.(cancel := true)) else sys.search)
    case Join => sys.(ui := Locking(sys.ui.query, sys.ui.options))
    case Lock(chunks) =>
      var query, options := sys.ui.query, sys.ui.options;
      sys.(ui := Typing, mutex := sys.mutex.(shared := sys.mutex.shared + 1),
           search :=
             if |query| < 2 then Copying(query, options, sys.pool, |sys.log|, false, [], [])
             else Running(query, options, sys.pool, |sys.log|, chunks, S.Init(S.Config([], chunks, MAX_RESULTS))))
    case Scan(b) => sys.(search := sys.search.(s := S.Next(ConfigNow(loc, sys), sys.search.s, b)))
    case Merge =>
      var r := sys.search;
      var results := S.Result(ConfigNow(loc, sys), r.s);
      sys.(search := Copying(r.query, r.options, r.captured, r.seen, r.s.cancel, results, []))
    case Copy =>
      var r := sys.search;
      sys.(search := r.(rows := r.rows + [CopyRow(sys.pool, r.results[|r.rows|])]))
    case Post =>
      var r := sys.search;
      sys.(search := Unlocking,
           posted := sys.posted + [Posting(r.query, r.options, r.captured, r.seen, r.cancelled, r.results, r.rows)])
    case Unlock => sys.(search := NoSearch, mutex := sys.mutex.(shared := sys.mutex.shared - 1))
    case Request(w, op) => sys.(writers := sys.writers[w := Waiting(op)])
    case Acquire(w) =>
      sys.(writers := sys.writers[w := Holding(sys.writers[w].op, sys.pool)], mutex := sys.mutex.(exclusive := true))
    case Touch(w, p) => sys.(pool := p)
    case Commit(w) =>
      var op := sys.writers[w].op;
      sys.(pool := After(loc, sys.writers[w].base, op), writers := sys.writers[w := Away],
           mutex := sys.mutex.(exclusive := false), log := sys.log + [op])
    case ReadLock => sys.(readers := sys.readers + 1, mutex := sys.mutex.(shared := sys.mutex.shared + 1))
    case ReadUnlock => sys.(readers := sys.readers - 1, mutex := sys.mutex.(shared := sys.mutex.shared - 1))
  }

  ghost predicate Run(loc: Locale, sys: Sys, actions: seq<Action>, end: Sys)
    decreases |actions|
  {
    if actions == [] then sys == end
    else Enabled(loc, sys, actions[0]) && Run(loc, Next(loc, sys, actions[0]), actions[1..], end)
  }

  // ---------------------------------------------------------------- the invariant

  predicate HoldsLock(search: Search) {
    !search.NoSearch?
  }

  /** The mutex counts its holders; no writer holds it beside a reader or another writer. */
  ghost predicate MutexInv(sys: Sys) {
    && sys.mutex.shared == sys.readers + (if HoldsLock(sys.search) then 1 else 0)
    && (sys.mutex.exclusive ==> sys.mutex.shared == 0)
    && (forall w :: 0 <= w < |sys.writers| && sys.writers[w].Holding? ==> sys.mutex.exclusive)
    && (forall v, w :: 0 <= v < w < |sys.writers| ==> !(sys.writers[v].Holding? && sys.writers[w].Holding?))
    && (sys.ui.Locking? ==> sys.search.NoSearch?)
  }

  /** A pool that stands for the files of the log. */
  ghost predicate Current(loc: Locale, p: Pool, log: seq<WriterOp>) {
    GoodPool(loc, p) && Live(p) == Replay(loc, log)
  }

  ghost predicate PoolInv(loc: Locale, sys: Sys) {
    && (!sys.mutex.exclusive ==> Current(loc, sys.pool, sys.log))
    && (forall w :: 0 <= w < |sys.writers| && sys.writers[w].Holding? ==> Current(loc, sys.writers[w].base, sys.log))
  }

  ghost predicate Answers(
      loc: Locale, query: WString, o: SearchOptions, p: Pool, cancelled: bool, results: seq<SearchResult>) {
    if |query| < 2 then results == [] else SearchOk(AllVerdicts(loc, p, query, o), MAX_RESULTS, cancelled, results)
  }

  /** While a search holds the lock, the pool is the one it captured. */
  ghost predicate SearchInv(loc: Locale, sys: Sys) {
    match sys.search
    case NoSearch => true
    case Unlocking => true
    case Running(query, options, captured, seen, chunks, s) =>
      && sys.pool == captured && seen == |sys.log| && |query| >= 2 && S.Partition(chunks, |captured.meta|)
      && S.Inv(ConfigNow(loc, sys), s)
    case Copying(query, options, captured, seen, cancelled, results, rows) =>
      && sys.pool == captured && seen == |sys.log| && |rows| <= |results|
      && Answers(loc, query, options, captured, cancelled, results)
      && rows == CopyRows(captured, results[..|rows|])
  }

  ghost predicate PostingOk(loc: Locale, log: seq<WriterOp>, p: Posting) {
    && p.seen <= |log| && Current(loc, p.captured, log[..p.seen])
    && Answers(loc, p.query, p.options, p.captured, p.cancelled, p.results)
    && p.rows == CopyRows(p.captured, p.results)
  }

  ghost predicate PostedInv(loc: Locale, sys: Sys) {
    forall i :: 0 <= i < |sys.posted| ==> PostingOk(loc, sys.log, sys.posted[i])
  }

  ghost predicate Inv(loc: Locale, sys: Sys) {
    MutexInv(sys) && PoolInv(loc, sys) && SearchInv(loc, sys) && PostedInv(loc, sys)
  }

  lemma StartInv(loc: Locale, writers: nat)
    ensures Inv(loc, Start(writers))
  {
    var sys := Start(writers);
    assert Live(EMPTY) == [] && Replay(loc, []) == [];
  }

  lemma MutexKept(loc: Locale, sys: Sys, a: Action)
    requires MutexInv(sys) && Enabled(loc, sys, a)
    ensures MutexInv(Next(loc, sys, a))
  {
    hide After, ConfigNow, GoodPool, OpFits, CopyRow;
  }

  /** Only the holder of the exclusive lock changes the pool or the log. */
  lemma PoolUntouched(loc: Locale, sys: Sys, a: Action)
    requires MutexInv(sys) && Enabled(loc, sys, a) && HoldsLock(sys.search)
    ensures !a.Touch? && !a.Commit? && !a.Acquire?
    ensures Next(loc, sys, a).pool == sys.pool && Next(loc, sys, a).log == sys.log
  {
    hide After, ConfigNow, GoodPool, OpFits, CopyRow;
  }

  lemma PoolKept(loc: Locale, sys: Sys, a: Action)
    requires MutexInv(sys) && PoolInv(loc, sys) && Enabled(loc, sys, a)
    ensures PoolInv(loc, Next(loc, sys, a))
  {
    hide After, ConfigNow, OpFits, CopyRow, HasRoom, WellFormed, Live, ListAfter;
    if a.Commit? {
      var k := sys.writers[a.w];
      ChangeRefines(loc, k.base, k.op);
      assert (sys.log + [k.op])[..|sys.log|] == sys.log;
    }
  }

  lemma VerdictsFine(loc: Locale, p: Pool, query: WString, o: SearchOptions, chunks: seq<S.Chunk>)
    requires GoodPool(loc, p) && S.Partition(chunks, |p.meta|)
    ensures S.ConfigOk(S.Config(AllVerdicts(loc, p, query, o), chunks, MAX_RESULTS))
  {
    VerdictsOk(loc, p, query, o);
  }

  /** The fresh search state does not depend on the verdicts. */
  lemma InitFine(loc: Locale, p: Pool, query: WString, o: SearchOptions, chunks: seq<S.Chunk>)
    requires GoodPool(loc, p) && S.Partition(chunks, |p.meta|)
    ensures S.Inv(S.Config(AllVerdicts(loc, p, query, o), chunks, MAX_RESULTS),
                  S.Init(S.Config([], chunks, MAX_RESULTS)))
  {
    VerdictsFine(loc, p, query, o, chunks);
    var c := S.Config(AllVerdicts(loc, p, query, o), chunks, MAX_RESULTS);
    S.InitInv(c);
    assert S.Init(c) == S.Init(S.Config([], chunks, MAX_RESULTS));
  }

  lemma CancelFine(c: S.Config, s: S.State)
    requires S.Inv(c, s)
    ensures S.Inv(c, s.(cancel := true))
  {
    S.StepKeepsInv(c, s, S.Cancel);
  }

  /** What the engine returns answers the query. */
  lemma MergeAnswers(
      loc: Locale, p: Pool, query: WString, o: SearchOptions, chunks: seq<S.Chunk>, s: S.State)
    requires GoodPool(loc, p) && S.Partition(chunks, |p.meta|) && S.Finished(s)
    requires S.Inv(S.Config(AllVerdicts(loc, p, query, o), chunks, MAX_RESULTS), s)
    ensures SearchOk(AllVerdicts(loc, p, query, o), MAX_RESULTS, s.cancel,
                     S.Result(S.Config(AllVerdicts(loc, p, query, o), chunks, MAX_RESULTS), s))
  {
    var c := S.Config(AllVerdicts(loc, p, query, o), chunks, MAX_RESULTS);
    VerdictsFine(loc, p, query, o, chunks);
    hide GoodPool, S.Partition, S.Inv, S.ConfigOk, AllVerdicts, S.Result, S.AscendingHits, S.Hits;
    S.ResultSound(c, s);
    if !s.cancel {
      S.ResultExact(c, s);
    }
  }

  lemma SearchKept(loc: Locale, sys: Sys, a: Action)
    requires MutexInv(sys) && PoolInv(loc, sys) && SearchInv(loc, sys) && Enabled(loc, sys, a)
    ensures SearchInv(loc, Next(loc, sys, a))
  {
    hide After, GoodPool, OpFits, CopyRow, S.Inv, AllVerdicts, SearchOk, S.Partition, S.Finished, S.Init, S.Next,
         S.Enabled, CopyRows, Current;
    var t := Next(loc, sys, a);
    if HoldsLock(sys.search) {
      PoolUntouched(loc, sys, a);
    }
    match a
    case Type(_, _) =>
      if sys.search.Running? {
        CancelFine(ConfigNow(loc, sys), sys.search.s);
      }
    case Lock(chunks) =>
      CurrentIsGood(loc, sys.pool, sys.log);
      InitFine(loc, sys.pool, sys.ui.query, sys.ui.options, chunks);
      NoRows(sys.pool);
    case Scan(b) =>
      S.StepKeepsInv(ConfigNow(loc, sys), sys.search.s, b);
    case Merge =>
      CurrentIsGood(loc, sys.pool, sys.log);
      var r := sys.search;
      MergeAnswers(loc, sys.pool, r.query, r.options, r.chunks, r.s);
      NoRows(sys.pool);
    case Copy =>
      OneMoreRow(sys.pool, sys.search.results, |sys.search.rows|);
    case _ =>
  }

  lemma NoRows(p: Pool)
    ensures CopyRows(p, []) == [] && forall results: seq<SearchResult> :: results[..0] == []
  {
  }

  lemma CurrentIsGood(loc: Locale, p: Pool, log: seq<WriterOp>)
    requires Current(loc, p, log)
    ensures GoodPool(loc, p) && Live(p) == Replay(loc, log)
  {
  }

  lemma PostedKept(loc: Locale, sys: Sys, a: Action)
    requires Inv(loc, sys) && Enabled(loc, sys, a)
    ensures PostedInv(loc, Next(loc, sys, a))
  {
    hide After, GoodPool, OpFits, CopyRow, ConfigNow, Answers, Current, CopyRows, S.Inv, S.Partition, S.Finished;
    var t := Next(loc, sys, a);
    if a.Post? {
      assert sys.log[..|sys.log|] == sys.log;
      assert sys.search.results[..|sys.search.results|] == sys.search.results;
      assert PostingOk(loc, sys.log, t.posted[|sys.posted|]);
    } else {
      assert t.posted == sys.posted && sys.log <= t.log;
      forall i | 0 <= i < |t.posted| ensures PostingOk(loc, t.log, t.posted[i]) {
        var p := sys.posted[i];
        assert PostingOk(loc, sys.log, p);
        assert t.log[..p.seen] == sys.log[..p.seen];
      }
    }
  }

  /** Every step of every thread keeps the invariant. */
  lemma StepKeepsInv(loc: Locale, sys: Sys, a: Action)
    requires Inv(loc, sys) && Enabled(loc, sys, a)
    ensures Inv(loc, Next(loc, sys, a))
  {
    hide Enabled, Next, MutexInv, PoolInv, SearchInv, PostedInv;
    MutexKept(loc, sys, a);
    PoolKept(loc, sys, a);
    SearchKept(loc, sys, a);
    PostedKept(loc, sys, a);
  }

  lemma {:induction false} RunKeepsInv(loc: Locale, sys: Sys, actions: seq<Action>, end: Sys)
    requires Inv(loc, sys) && Run(loc, sys, actions, end)
    ensures Inv(loc, end)
    decreases |actions|
  {
    hide Inv, Enabled, Next;
    if actions != [] {
      StepKeepsInv(loc, sys, actions[0]);
      RunKeepsInv(loc, Next(loc, sys, actions[0]), actions[1..], end);
    }
  }

  // ---------------------------------------------------------------- what every run guarantees

  /** Result r of the search, its slices, and the entry they denote lie inside the pool. */
  ghost predicate InBounds(p: Pool, r: SearchResult) {
    && r.entryIndex < |p.meta|
    && var m := p.meta[r.entryIndex];
       m.nameStart <= m.pathLen && m.pathOffset + m.pathLen <= |p.pathPool|
  }

  lemma AnswersInBounds(
      loc: Locale, query: WString, o: SearchOptions, p: Pool, cancelled: bool, results: seq<SearchResult>)
    requires GoodPool(loc, p) && Answers(loc, query, o, p, cancelled, results)
    ensures forall i :: 0 <= i < |results| ==> InBounds(p, results[i])
  {
    forall i | 0 <= i < |results| ensures InBounds(p, results[i]) {
      var x := results[i].entryIndex;
      assert x < |AllVerdicts(loc, p, query, o)| == |p.meta|;
      assert EntryOk(loc, p, p.meta[x]);
    }
  }

  /**
   From the moment a search takes the lock to its last copied row, no writer is inside, the pool
   is the one the search captured, and everything it dereferences is in bounds.
   */
  lemma SearchReadsOnePool(loc: Locale, writers: nat, actions: seq<Action>, end: Sys)
    requires Run(loc, Start(writers), actions, end) && (end.search.Running? || end.search.Copying?)
    ensures !end.mutex.exclusive && forall w :: 0 <= w < |end.writers| ==> !end.writers[w].Holding?
    ensures end.pool == end.search.captured && WellFormed(loc, end.pool) && Live(end.pool) == Replay(loc, end.log)
    ensures end.search.Copying? ==>
              forall i :: 0 <= i < |end.search.results| ==> InBounds(end.pool, end.search.results[i])
  {
    hide Run, WellFormed, InBounds, SearchOk, S.Inv, CopyRows, S.Partition, AllVerdicts;
    StartInv(loc, writers);
    RunKeepsInv(loc, Start(writers), actions, end);
    if end.search.Copying? {
      var r := end.search;
      AnswersInBounds(loc, r.query, r.options, r.captured, r.cancelled, r.results);
    }
  }

  /** Rows of the naive search over the files at the time of the search. */
  ghost function Expected(loc: Locale, log: seq<WriterOp>, p: Posting): seq<DisplayEntry>
    requires p.seen <= |log|
  {
    AllShown(NaiveSearch(loc, p.query, p.options, Replay(loc, log[..p.seen])))
  }

  lemma {:induction false} HitMember(v: S.Verdicts, x: nat, n: nat)
    requires x < n <= |v| && v[x].Some?
    ensures v[x].value in S.Hits(v, 0, n)
    decreases n
  {
    if x < n - 1 {
      HitMember(v, x, n - 1);
    }
  }

  /** Every answer to a query, cancelled or not, reads as a row of the naive search. */
  lemma AnswersAreExpected(
      loc: Locale, query: WString, o: SearchOptions, p: Pool, cancelled: bool, results: seq<SearchResult>, k: nat)
    requires GoodPool(loc, p) && k < |results|
    requires SearchOk(AllVerdicts(loc, p, query, o), MAX_RESULTS, cancelled, results)
    ensures CopyRow(p, results[k]) in AllShown(NaiveSearch(loc, query, o, Live(p)))
  {
    hide NaiveSearch, Live, CopyRow, Shown, Rows, RowOf, WellFormed, Verdict;
    var v, n := AllVerdicts(loc, p, query, o), |p.meta|;
    var x := results[k].entryIndex;
    assert x < n && v[x] == Some(results[k]);
    HitMember(v, x, n);
    var hits := S.Hits(v, 0, n);
    var j :| 0 <= j < |hits| && hits[j] == results[k];
    HitsInRange(loc, p, query, o, n);
    PoolSearchIsNaiveSearch(loc, p, query, o, n);
    assert p.meta[..n] == p.meta && Live(p) == LiveRecords(p.meta, p.pathPool) by { LiveIs(p); }
    RowsLength(p, hits);
    CopyIsShown(loc, p, results[k]);
    assert AllShown(NaiveSearch(loc, query, o, Live(p)))[j] == CopyRow(p, results[k]);
  }

  lemma LiveIs(p: Pool)
    ensures Live(p) == LiveRecords(p.meta, p.pathPool) && p.meta[..|p.meta|] == p.meta
  {
  }

  lemma AnswersWithinCap(loc: Locale, p: Posting)
    requires Answers(loc, p.query, p.options, p.captured, p.cancelled, p.results)
    ensures |p.results| <= MAX_RESULTS
  {
  }

  /**
   Whatever writers do meanwhile, every row shown is a row of the naive search over the files as
   some prefix of the changes left them; an uncancelled search shows as many as the cap allows, and
   all of them, in order, when the cap allows all.
   */
  lemma PostedRowsAreTrue(loc: Locale, writers: nat, actions: seq<Action>, end: Sys, i: nat)
    requires Run(loc, Start(writers), actions, end) && i < |end.posted|
    ensures var p := end.posted[i];
            && p.seen <= |end.log|
            && (|p.query| < 2 ==> p.rows == [])
            && |p.rows| <= 10_000
            && (forall k :: 0 <= k < |p.rows| ==> p.rows[k] in Expected(loc, end.log, p))
            && (|p.query| >= 2 && !p.cancelled ==>
                  && |p.rows| == Min(10_000, |Expected(loc, end.log, p)|)
                  && (|Expected(loc, end.log, p)| <= 10_000 ==> p.rows == Expected(loc, end.log, p)))
  {
    hide Run, WellFormed, SearchOk, S.Inv, S.Partition, AllVerdicts, NaiveSearch, CopyRow, Shown, Rows;
    StartInv(loc, writers);
    RunKeepsInv(loc, Start(writers), actions, end);
    var p := end.posted[i];
    assert PostingOk(loc, end.log, p);
    forall k | 0 <= k < |p.rows| ensures p.rows[k] in Expected(loc, end.log, p) {
      AnswersAreExpected(loc, p.query, p.options, p.captured, p.cancelled, p.results, k);
    }
    assert |p.rows| <= MAX_RESULTS by {
      AnswersWithinCap(loc, p);
    }
    if |p.query| >= 2 && !p.cancelled {
      SearchMeansNaiveSearch(loc, p.captured, p.query, p.options, MAX_RESULTS, p.results);
      CopiesAreShown(loc, p.captured, p.results);
    }
  }
}
