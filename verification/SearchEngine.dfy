/**
 The search engine: chunking, the scan under an arbitrary schedule, the merge, and what the
 whole search means for the plain list of live records.
 */
module SearchEngines {
  import opened Text
  import opened IndexPools
  import opened TokenMatcher
  import opened EntryMatching
  import opened SearchSteps

  // ---------------------------------------------------------------- chunking

  /** Ceiling division: t chunks of this size cover n entries, and t - 1 smaller ones would not. */
  lemma CeilingDivision(n: nat, t: nat)
    requires t >= 1
    ensures var size := (n + t - 1) / t;
            t * size >= n && (n > 0 ==> size > 0) && t * size < n + t
  {
    var size, rest := (n + t - 1) / t, (n + t - 1) % t;
    assert t * size + rest == n + t - 1;
  }

  lemma ProductMonotone(a: nat, b: nat, m: nat)
    requires a <= b
    ensures a * m <= b * m
  {
  }

  function ChunkSize(entryCount: nat, numThreads: U32): nat
    requires numThreads >= 1
  {
    (entryCount + numThreads - 1) / numThreads
  }

  /** Chunk t of the source's arithmetic. */
  function ChunkNo(t: nat, size: nat, entryCount: nat): Chunk {
    Chunk(t * size, Min(t * size + size, entryCount))
  }

  /**
   The chunks are consecutive and cover all entries; those dropped by the early break are empty;
   no 64-bit intermediate wraps while there are fewer than 2^32 entries.
   */
  method MakeChunks(entryCount: nat, numThreads: U32) returns (chunks: seq<Chunk>)
    requires entryCount < U32_LIMIT && numThreads >= 1
    ensures Partition(chunks, entryCount) && |chunks| <= numThreads
    ensures var size := ChunkSize(entryCount, numThreads);
            && (forall t :: 0 <= t < |chunks| ==> chunks[t] == ChunkNo(t, size, entryCount))
            && (forall t :: |chunks| <= t < numThreads ==> ChunkNo(t, size, entryCount).begin >= entryCount)
            && (forall t :: 0 <= t < numThreads ==>
                  ChunkNo(t, size, entryCount).begin + size < 0x1_0000_0000_0000_0000)
    ensures entryCount + numThreads - 1 < 0x1_0000_0000_0000_0000
    ensures AreEven(chunks, entryCount, numThreads)
  {
    hide Partition;
    var chunkSize := ChunkSize(entryCount, numThreads);
    CeilingDivision(entryCount, numThreads);
    NoWrap(entryCount, numThreads, chunkSize);
    hide ChunkSize, ChunkNo, AreEven;
    chunks := [];
    var t := 0;
    while t < numThreads
      invariant 0 <= t <= numThreads && |chunks| == t
      invariant forall k :: 0 <= k < t ==> chunks[k] == ChunkNo(k, chunkSize, entryCount)
      invariant forall k :: 0 <= k < t ==> chunks[k].begin < entryCount
      decreases numThreads - t
    {
      var begin := t * chunkSize;
      if begin >= entryCount {
        break;
      }
      var end := Min(begin + chunkSize, entryCount);
      chunks := chunks + [Chunk(begin, end)];
      t := t + 1;
    }
    forall k | t <= k < numThreads ensures ChunkNo(k, chunkSize, entryCount).begin >= entryCount {
      ProductMonotone(t, k, chunkSize);
    }
    EvenShares(chunks, chunkSize, entryCount, numThreads);
    ChunksPartition(chunks, entryCount, chunkSize, t);
  }

  /** No chunk is larger than an even share, rounded up. */
  ghost predicate AreEven(chunks: seq<Chunk>, n: nat, t: nat) {
    forall k :: 0 <= k < |chunks| ==> t * (chunks[k].end - chunks[k].begin - 1) < n
  }

  lemma EvenShares(chunks: seq<Chunk>, size: nat, n: nat, t: nat)
    requires t >= 1 && t * size < n + t
    requires forall k :: 0 <= k < |chunks| ==> chunks[k] == ChunkNo(k, size, n) && chunks[k].begin < n
    ensures AreEven(chunks, n, t)
  {
    hide ChunkNo;
    forall k | 0 <= k < |chunks| ensures t * (chunks[k].end - chunks[k].begin - 1) < n {
      NoLarger(chunks[k], k, size, n, t);
    }
  }

  lemma NoLarger(ch: Chunk, k: nat, size: nat, n: nat, t: nat)
    requires ch == ChunkNo(k, size, n) && ch.begin < n && t >= 1 && t * size < n + t
    ensures t * (ch.end - ch.begin - 1) < n
  {
    assert ch.end - ch.begin <= size;
    SignedProduct(ch.end - ch.begin, size, t);
  }

  lemma SignedProduct(a: int, b: nat, t: nat)
    requires a <= b && t >= 1
    ensures t * (a - 1) <= t * b - t
  {
    assert t * (b - a) >= 0;
    assert t * (a - 1) + t * (b - a) == t * (b - 1) == t * b - t;
  }

  lemma NoWrap(n: nat, t: nat, size: nat)
    requires 1 <= t < U32_LIMIT && n < U32_LIMIT && t * size < n + t
    ensures forall k :: 0 <= k < t ==> ChunkNo(k, size, n).begin + size < 0x1_0000_0000_0000_0000
  {
    forall k | 0 <= k < t ensures ChunkNo(k, size, n).begin + size < 0x1_0000_0000_0000_0000 {
      ProductMonotone(k + 1, t, size);
      assert (k + 1) * size == k * size + size;
    }
  }

  lemma ChunksPartition(chunks: seq<Chunk>, n: nat, size: nat, t: nat)
    requires |chunks| == t && t * size >= n && (n > 0 ==> size > 0)
    requires forall k :: 0 <= k < t ==> chunks[k] == ChunkNo(k, size, n) && chunks[k].begin < n
    ensures Partition(chunks, n)
  {
    forall k | 0 < k < t ensures chunks[k - 1].end == chunks[k].begin {
      assert (k - 1) * size + size == k * size;
      assert chunks[k - 1] == ChunkNo(k - 1, size, n);
    }
    if t > 0 {
      assert (t - 1) * size + size == t * size;
    }
  }

  // ---------------------------------------------------------------- the scan and the merge

  ghost function AllVerdicts(loc: Locale, p: Pool, query: WString, o: SearchOptions): Verdicts {
    seq(|p.meta|, i requires 0 <= i < |p.meta| => Verdict(loc, p, query, o, i))
  }

  /** The code of one step of worker k, with the values its loads returned. */
  method WorkerStep(loc: Locale, avx2: bool, p: Pool, query: WString, o: SearchOptions, q: Prepared,
                    ghost c: Config, maxResults: U32, k: Worker, held: Option<SearchResult>,
                    seenCancel: bool, seenCount: nat, collected: nat)
    returns (next: Worker, hit: Option<SearchResult>, counter: nat)
    requires WellFormed(loc, p) && PreparedFor(loc, query, o, q)
    requires c.verdicts == AllVerdicts(loc, p, query, o) && c.cap == maxResults && k.pc != Done
    requires k.pc in {Test, Append} ==> k.i < |p.meta|
    requires k.pc == Append ==> held.Some? && c.verdicts[k.i] == held
    ensures next.pc == Append ==> hit.Some? && next.i < |p.meta| && c.verdicts[next.i] == hit
    ensures next == StepWorker(c, k, seenCancel, seenCount)
    ensures counter == collected + (if k.pc == Increment then 1 else 0)
  {
    hide WellFormed, PreparedFor, Verdict;
    next, hit, counter := k, held, collected;
    match k.pc {
      case CheckCancel =>
        next := k.(pc := if k.i >= k.end || seenCancel then Done else CheckCap);
      case CheckCap =>
        next := k.(pc := if seenCount >= maxResults then Done else Test);
      case Test =>
        hit := TestEntry(loc, avx2, p, k.i, query, o, q);
        if hit.Some? {
          next := k.(pc := Append);
        } else {
          next := k.(i := k.i + 1, pc := CheckCancel);
        }
      case Append =>
        next := k.(local := k.local + [held.value], pc := Increment);
      case Increment =>
        counter := collected + 1;
        next := k.(i := k.i + 1, pc := CheckCancel);
    }
  }

  ghost predicate Reached(c: Config, actions: seq<Action>, s: State) {
    Run(c, Init(c), actions, s) && Inv(c, s)
  }

  /** The scheduler picks an unfinished worker; its loads return some admissible values. */
  method ScheduleOne(loc: Locale, avx2: bool, p: Pool, query: WString, o: SearchOptions, q: Prepared,
                     ghost c: Config, maxResults: U32, workers: seq<Worker>, held: seq<Option<SearchResult>>,
                     collected: nat, cancelled: bool, ghost actions: seq<Action>)
    returns (workers': seq<Worker>, held': seq<Option<SearchResult>>, collected': nat, ghost actions': seq<Action>)
    requires WellFormed(loc, p) && PreparedFor(loc, query, o, q)
    requires c.verdicts == AllVerdicts(loc, p, query, o) && |c.verdicts| == |p.meta| && c.cap == maxResults
    requires Reached(c, actions, State(workers, collected, cancelled)) && HeldOk(c, workers, held)
    requires exists w :: 0 <= w < |workers| && workers[w].pc != Done
    ensures Reached(c, actions', State(workers', collected', cancelled)) && HeldOk(c, workers', held')
    ensures Sum(Work, workers') < Sum(Work, workers)
  {
    hide WellFormed, PreparedFor, AllVerdicts, Sum, StepWorker, Inv, Run;
    ghost var before := State(workers, collected, cancelled);
    var w :| 0 <= w < |workers| && workers[w].pc != Done;
    var seenCancel :| seenCancel ==> cancelled;
    var seenCount: nat :| seenCount <= collected;
    WorkerFacts(c, before, w);
    var k, hit;
    k, hit, collected' := WorkerStep(loc, avx2, p, query, o, q, c, maxResults, workers[w], held[w],
                                     seenCancel, seenCount, collected);
    workers', held' := workers[w := k], held[w := hit];
    ghost var a := Move(w, seenCancel, seenCount);
    MovesUseUpWork(c, before, a);
    Extends(c, actions, before, a);
    actions' := actions + [a];
  }

  /** Runs the workers of the chunks to completion under an arbitrary schedule. */
  method RunWorkers(loc: Locale, avx2: bool, p: Pool, query: WString, o: SearchOptions, q: Prepared,
                    chunks: seq<Chunk>, maxResults: U32)
    returns (workers: seq<Worker>, cancelled: bool, ghost actions: seq<Action>)
    requires WellFormed(loc, p) && |p.meta| < U32_LIMIT && PreparedFor(loc, query, o, q)
    requires Partition(chunks, |p.meta|)
    ensures var c := Config(AllVerdicts(loc, p, query, o), chunks, maxResults);
            exists collected: nat ::
              Run(c, Init(c), actions, State(workers, collected, cancelled))
              && Finished(State(workers, collected, cancelled))
  {
    hide WellFormed, PreparedFor, AllVerdicts, Partition, Sum, Run, Inv;
    ghost var c := Config(AllVerdicts(loc, p, query, o), chunks, maxResults);
    VerdictsOk(loc, p, query, o);
    InitInv(c);
    workers := seq(|chunks|, k requires 0 <= k < |chunks| =>
                     Worker(chunks[k].begin, chunks[k].end, chunks[k].begin, CheckCancel, []));
    var held: seq<Option<SearchResult>> := seq(|chunks|, k => None);
    var collected: nat := 0;
    cancelled := false;
    actions := [];
    assert State(workers, collected, cancelled) == Init(c);
    EmptyRun(c, Init(c));
    while exists w :: 0 <= w < |workers| && workers[w].pc != Done
      invariant Reached(c, actions, State(workers, collected, cancelled)) && HeldOk(c, workers, held)
      decreases Sum(Work, workers)
    {
      if * {
        Extends(c, actions, State(workers, collected, cancelled), Cancel);
        actions := actions + [Cancel];
        cancelled := true;
      }
      workers, held, collected, actions := ScheduleOne(loc, avx2, p, query, o, q, c, maxResults, workers, held,
                                                       collected, cancelled, actions);
    }
  }

  /** A worker about to append holds the verdict it found for its current entry. */
  ghost predicate HeldOk(c: Config, workers: seq<Worker>, held: seq<Option<SearchResult>>) {
    && |held| == |workers|
    && forall w :: 0 <= w < |workers| && workers[w].pc == Append ==>
         held[w].Some? && workers[w].i < |c.verdicts| && c.verdicts[workers[w].i] == held[w]
  }

  lemma WorkerFacts(c: Config, s: State, w: nat)
    requires Inv(c, s) && w < |s.workers|
    ensures s.workers[w].pc in {Test, Append} ==> s.workers[w].i < |c.verdicts|
  {
    assert WorkerOk(c, c.chunks[w], s.workers[w]);
  }

  lemma EmptyRun(c: Config, s: State)
    ensures Run(c, s, [], s)
  {
  }

  lemma Extends(c: Config, actions: seq<Action>, s: State, a: Action)
    requires Run(c, Init(c), actions, s) && Inv(c, s) && Enabled(s, a)
    ensures Run(c, Init(c), actions + [a], Next(c, s, a)) && Inv(c, Next(c, s, a))
  {
    StepKeepsInv(c, s, a);
    assert Run(c, s, [a], Next(c, s, a));
    RunConcat(c, Init(c), actions, s, [a], Next(c, s, a));
  }

  lemma VerdictsOk(loc: Locale, p: Pool, query: WString, o: SearchOptions)
    requires WellFormed(loc, p) && |p.meta| < U32_LIMIT
    ensures var v := AllVerdicts(loc, p, query, o);
            && |v| == |p.meta|
            && forall i :: 0 <= i < |v| && v[i].Some? ==> v[i].value.entryIndex == i
  {
    var v := AllVerdicts(loc, p, query, o);
    forall i | 0 <= i < |v| && v[i].Some? ensures v[i].value.entryIndex == i {
      VerdictExact(loc, p, query, o, i);
    }
  }

  /** The merge loop: chunk lists in order until the cap is reached. */
  method Merge(workers: seq<Worker>, maxResults: nat) returns (results: seq<SearchResult>)
    ensures results == Cut(Flatten(workers), maxResults)
  {
    results := [];
    for f := 0 to |workers|
      invariant results == Flatten(workers[..f]) && |results| <= maxResults
    {
      var chunk := workers[f].local;
      assert workers[..f + 1][..f] == workers[..f];
      for j := 0 to |chunk|
        invariant results == Flatten(workers[..f]) + chunk[..j] && |results| <= maxResults
      {
        if |results| >= maxResults {
          FlattenExtends(workers, f, j);
          return;
        }
        results := results + [chunk[j]];
      }
    }
    assert workers[..|workers|] == workers;
  }

  /** What is merged so far is a prefix of everything. */
  lemma {:induction false} FlattenExtends(workers: seq<Worker>, f: nat, j: nat)
    requires f < |workers| && j <= |workers[f].local|
    ensures Flatten(workers[..f]) + workers[f].local[..j] <= Flatten(workers)
    decreases |workers|
  {
    var n := |workers| - 1;
    if f < n {
      FlattenExtends(workers[..n], f, j);
      assert workers[..n][..f] == workers[..f];
    } else {
      assert workers[..f] == workers[..n];
    }
  }

  /** What every search result list satisfies. */
  ghost predicate SearchOk(v: Verdicts, maxResults: nat, cancelled: bool, results: seq<SearchResult>) {
    var hits := Hits(v, 0, |v|);
    && |results| <= maxResults
    && AscendingHits(v, results, 0, |v|)
    && (!cancelled ==> |results| == Min(maxResults, |hits|))
    && (!cancelled && |hits| <= maxResults ==> results == hits)
  }

  method SearchSubstring(loc: Locale, avx2: bool, p: Pool, query: WString, o: SearchOptions, maxResults: U32,
                         numThreads: U32)
    returns (results: seq<SearchResult>, cancelled: bool)
    requires WellFormed(loc, p) && |p.meta| < U32_LIMIT && numThreads >= 1
    ensures SearchOk(AllVerdicts(loc, p, query, o), maxResults, cancelled, results)
  {
    hide WellFormed, PreparedFor, Verdict, Partition, Hits, AscendingHits;
    var q := Prepare(loc, query, o);
    var chunks := MakeChunks(|p.meta|, numThreads);
    ghost var c := Config(AllVerdicts(loc, p, query, o), chunks, maxResults);
    VerdictsOk(loc, p, query, o);
    var workers;
    ghost var actions;
    workers, cancelled, actions := RunWorkers(loc, avx2, p, query, o, q, chunks, maxResults);
    ghost var collected: nat :| Run(c, Init(c), actions, State(workers, collected, cancelled))
                                && Finished(State(workers, collected, cancelled));
    ghost var t := State(workers, collected, cancelled);
    EveryRunSound(c, actions, t);
    if !cancelled {
      EveryRunExact(c, actions, t);
    }
    results := Merge(workers, maxResults);
  }

  /** Queries of fewer than two characters find nothing; regex queries are not modelled. */
  method Search(loc: Locale, avx2: bool, p: Pool, query: WString, o: SearchOptions, maxResults: U32, numThreads: U32)
    returns (results: seq<SearchResult>, cancelled: bool)
    requires WellFormed(loc, p) && |p.meta| < U32_LIMIT && numThreads >= 1
    ensures |query| < 2 ==> results == []
    ensures |query| >= 2 ==> SearchOk(AllVerdicts(loc, p, query, o), maxResults, cancelled, results)
  {
    if |query| < 2 {
      return [], false;
    }
    results, cancelled := SearchSubstring(loc, avx2, p, query, o, maxResults, numThreads);
  }

  // ---------------------------------------------------------------- meaning on plain records

  datatype Row = Row(record: Record, matchStart: nat, matchLen: nat)

  /** The naive search over a list of records: every hit, in order. */
  ghost function NaiveSearch(loc: Locale, query: WString, o: SearchOptions, rs: seq<Record>): seq<Row> {
    if rs == [] then []
    else
      NaiveSearch(loc, query, o, rs[..|rs| - 1])
      + HitRow(rs[|rs| - 1], NaiveHit(loc, query, o, rs[|rs| - 1]))
  }

  function RowOf(p: Pool, r: SearchResult): Row
    requires r.entryIndex < |p.meta|
  {
    Row(RecordOf(p.pathPool, p.meta[r.entryIndex]), r.matchStart, r.matchLen)
  }

  predicate InRange(p: Pool, results: seq<SearchResult>) {
    forall k :: 0 <= k < |results| ==> results[k].entryIndex < |p.meta|
  }

  function Rows(p: Pool, results: seq<SearchResult>): seq<Row>
    requires InRange(p, results)
  {
    if results == [] then [] else Rows(p, results[..|results| - 1]) + [RowOf(p, results[|results| - 1])]
  }

  lemma {:induction false} HitsInRange(loc: Locale, p: Pool, query: WString, o: SearchOptions, n: nat)
    requires WellFormed(loc, p) && n <= |p.meta| < U32_LIMIT
    ensures InRange(p, Hits(AllVerdicts(loc, p, query, o), 0, n))
    decreases n
  {
    VerdictsOk(loc, p, query, o);
    hide WellFormed, AllVerdicts;
    if n > 0 {
      HitsInRange(loc, p, query, o, n - 1);
    }
  }

  /** The hits of the pool scan, read back as rows, are the naive search over the live records. */
  lemma {:induction false} PoolSearchIsNaiveSearch(loc: Locale, p: Pool, query: WString, o: SearchOptions, n: nat)
    requires WellFormed(loc, p) && n <= |p.meta| < U32_LIMIT
    requires InRange(p, Hits(AllVerdicts(loc, p, query, o), 0, n))
    ensures Rows(p, Hits(AllVerdicts(loc, p, query, o), 0, n))
         == NaiveSearch(loc, query, o, LiveRecords(p.meta[..n], p.pathPool))
    decreases n
  {
    if n > 0 {
      hide NaiveHit, WellFormed, NaiveSearch, Rows, RowOf, LiveRecords, RecordOf;
      HitsInRange(loc, p, query, o, n - 1);
      PoolSearchIsNaiveSearch(loc, p, query, o, n - 1);
      LiveStep(p, n);
      NaiveStep(loc, query, o, LiveRecords(p.meta[..n - 1], p.pathPool), RecordOf(p.pathPool, p.meta[n - 1]));
      RowsStep(loc, p, query, o, n);
    } else {
      assert p.meta[..0] == [];
    }
  }

  lemma LiveStep(p: Pool, n: nat)
    requires 0 < n <= |p.meta|
    ensures LiveRecords(p.meta[..n], p.pathPool)
         == LiveRecords(p.meta[..n - 1], p.pathPool)
            + (if p.meta[n - 1].deleted then [] else [RecordOf(p.pathPool, p.meta[n - 1])])
  {
    assert p.meta[..n][..n - 1] == p.meta[..n - 1];
  }

  function HitRow(r: Record, h: Option<Hit>): seq<Row> {
    match h
    case None => []
    case Some(hit) => [Row(r, hit.start, hit.len)]
  }

  lemma NaiveStep(loc: Locale, query: WString, o: SearchOptions, rs: seq<Record>, r: Record)
    ensures NaiveSearch(loc, query, o, rs + [r])
         == NaiveSearch(loc, query, o, rs) + HitRow(r, NaiveHit(loc, query, o, r))
    ensures NaiveSearch(loc, query, o, rs + []) == NaiveSearch(loc, query, o, rs)
  {
    hide NaiveHit;
    assert (rs + [r])[..|rs|] == rs;
    assert rs + [] == rs;
  }

  /** Entry n - 1 adds to the rows what its record adds to the naive search. */
  lemma RowsStep(loc: Locale, p: Pool, query: WString, o: SearchOptions, n: nat)
    requires WellFormed(loc, p) && 0 < n <= |p.meta| < U32_LIMIT
    requires InRange(p, Hits(AllVerdicts(loc, p, query, o), 0, n - 1))
    requires InRange(p, Hits(AllVerdicts(loc, p, query, o), 0, n))
    ensures var r := RecordOf(p.pathPool, p.meta[n - 1]);
            Rows(p, Hits(AllVerdicts(loc, p, query, o), 0, n))
            == Rows(p, Hits(AllVerdicts(loc, p, query, o), 0, n - 1))
               + (if p.meta[n - 1].deleted then [] else HitRow(r, NaiveHit(loc, query, o, r)))
  {
    hide NaiveHit, WellFormed, RecordOf;
    var v := AllVerdicts(loc, p, query, o);
    var front := Hits(v, 0, n - 1);
    if v[n - 1].Some? {
      VerdictExact(loc, p, query, o, n - 1);
      var x := v[n - 1].value;
      assert Hits(v, 0, n) == front + [x];
      assert (front + [x])[..|front|] == front;
    } else {
      assert front + [] == front;
    }
  }

  /** A search that was not cancelled and found no more than the cap shows exactly the naive search. */
  lemma SearchMeansNaiveSearch(
      loc: Locale, p: Pool, query: WString, o: SearchOptions, maxResults: nat, results: seq<SearchResult>)
    requires WellFormed(loc, p) && |p.meta| < U32_LIMIT
    requires SearchOk(AllVerdicts(loc, p, query, o), maxResults, false, results)
    ensures InRange(p, results)
    ensures |results| == Min(maxResults, |NaiveSearch(loc, query, o, Live(p))|)
    ensures |NaiveSearch(loc, query, o, Live(p))| <= maxResults ==>
              Rows(p, results) == NaiveSearch(loc, query, o, Live(p))
  {
    hide NaiveHit, WellFormed, NaiveSearch;
    var n := |p.meta|;
    HitsInRange(loc, p, query, o, n);
    PoolSearchIsNaiveSearch(loc, p, query, o, n);
    assert p.meta[..n] == p.meta;
    RowsLength(p, Hits(AllVerdicts(loc, p, query, o), 0, n));
  }

  lemma {:induction false} RowsLength(p: Pool, results: seq<SearchResult>)
    requires InRange(p, results)
    ensures |Rows(p, results)| == |results|
    ensures forall k :: 0 <= k < |results| ==> Rows(p, results)[k] == RowOf(p, results[k])
  {
    if results != [] {
      RowsLength(p, results[..|results| - 1]);
    }
  }
}
