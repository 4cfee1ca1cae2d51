/**
 The parallel scan as a transition system, with loads of the counter that may return any value it has held.
 */
module SearchSteps {
  import opened Text
  import opened EntryMatching

  type Verdicts = seq<Option<SearchResult>>

  datatype Chunk = Chunk(begin: nat, end: nat)

  datatype Config = Config(verdicts: Verdicts, chunks: seq<Chunk>, cap: nat)

  /** The chunks are consecutive, non-empty, and cover all entries. */
  ghost predicate Partition(chunks: seq<Chunk>, n: nat) {
    && (forall k :: 0 <= k < |chunks| ==> chunks[k].begin < chunks[k].end)
    && (forall k :: 0 < k < |chunks| ==> chunks[k - 1].end == chunks[k].begin)
    && (if chunks == [] then n == 0 else chunks[0].begin == 0 && chunks[|chunks| - 1].end == n)
  }

  ghost predicate ConfigOk(c: Config) {
    && Partition(c.chunks, |c.verdicts|)
    && forall i :: 0 <= i < |c.verdicts| && c.verdicts[i].Some? ==> c.verdicts[i].value.entryIndex == i
  }

  // ---------------------------------------------------------------- states and steps

  datatype Pc = CheckCancel | CheckCap | Test | Append | Increment | Done

  datatype Worker = Worker(begin: nat, end: nat, i: nat, pc: Pc, local: seq<SearchResult>)

  datatype State = State(workers: seq<Worker>, collected: nat, cancel: bool)

  function Init(c: Config): State {
    State(seq(|c.chunks|, k requires 0 <= k < |c.chunks| =>
                Worker(c.chunks[k].begin, c.chunks[k].end, c.chunks[k].begin, CheckCancel, [])), 0, false)
  }

  /** Someone sets the cancel token, or worker w takes one step with the values its loads return. */
  datatype Action = Cancel | Move(w: nat, seenCancel: bool, seenCount: nat)

  predicate Enabled(s: State, a: Action) {
    match a
    case Cancel => true
    case Move(w, seenCancel, seenCount) =>
      && w < |s.workers| && s.workers[w].pc != Done
      && (seenCancel ==> s.cancel) && seenCount <= s.collected
  }

  function StepWorker(c: Config, k: Worker, seenCancel: bool, seenCount: nat): Worker {
    match k.pc
    case CheckCancel => k.(pc := if k.i >= k.end || seenCancel then Done else CheckCap)
    case CheckCap => k.(pc := if seenCount >= c.cap then Done else Test)
    case Test =>
      if k.i < |c.verdicts| && c.verdicts[k.i].Some? then k.(pc := Append)
      else k.(i := k.i + 1, pc := CheckCancel)
    case Append =>
      if k.i < |c.verdicts| && c.verdicts[k.i].Some?
      then k.(local := k.local + [c.verdicts[k.i].value], pc := Increment) else k
    case Increment => k.(i := k.i + 1, pc := CheckCancel)
    case Done => k
  }

  function Next(c: Config, s: State, a: Action): State
    requires Enabled(s, a)
  {
    match a
    case Cancel => s.(cancel := true)
    case Move(w, seenCancel, seenCount) =>
      var k := s.workers[w];
      State(s.workers[w := StepWorker(c, k, seenCancel, seenCount)],
            s.collected + (if k.pc == Increment then 1 else 0), s.cancel)
  }

  /** The actions lead from s to t, each enabled in its turn. */
  ghost predicate Run(c: Config, s: State, actions: seq<Action>, t: State)
    decreases |actions|
  {
    if actions == [] then s == t
    else Enabled(s, actions[0]) && Run(c, Next(c, s, actions[0]), actions[1..], t)
  }

  predicate Finished(s: State) {
    forall w :: 0 <= w < |s.workers| ==> s.workers[w].pc == Done
  }

  function Flatten(workers: seq<Worker>): seq<SearchResult> {
    if workers == [] then [] else Flatten(workers[..|workers| - 1]) + workers[|workers| - 1].local
  }

  function Cut<T>(s: seq<T>, cap: nat): seq<T> {
    if |s| <= cap then s else s[..cap]
  }

  /** The merge: the local lists in chunk order, cut at the cap. */
  function Result(c: Config, s: State): seq<SearchResult> {
    Cut(Flatten(s.workers), c.cap)
  }

  // ---------------------------------------------------------------- the sequential filter

  /** The hits among entries a to b, in order. */
  function Hits(v: Verdicts, a: nat, b: nat): seq<SearchResult>
    requires b <= |v|
  {
    if b <= a then [] else Hits(v, a, b - 1) + (if v[b - 1].Some? then [v[b - 1].value] else [])
  }

  lemma {:induction false} HitsConcat(v: Verdicts, a: nat, b: nat, e: nat)
    requires a <= b <= e <= |v|
    ensures Hits(v, a, e) == Hits(v, a, b) + Hits(v, b, e)
    decreases e
  {
    if b == e {
    } else {
      HitsConcat(v, a, b, e - 1);
    }
  }

  /** r lists true hits in strictly ascending entry order, all from entries a to b. */
  ghost predicate AscendingHits(v: Verdicts, r: seq<SearchResult>, a: nat, b: nat) {
    && (forall j :: 0 <= j < |r| ==> a <= r[j].entryIndex < b && r[j].entryIndex < |v|
                                     && v[r[j].entryIndex] == Some(r[j]))
    && (forall j, k :: 0 <= j < k < |r| ==> r[j].entryIndex < r[k].entryIndex)
  }

  lemma {:induction false} HitsAscend(c: Config, a: nat, b: nat)
    requires ConfigOk(c) && b <= |c.verdicts|
    ensures AscendingHits(c.verdicts, Hits(c.verdicts, a, b), a, b)
    decreases b
  {
    if a < b {
      HitsAscend(c, a, b - 1);
    }
  }

  lemma AscendingConcat(
      v: Verdicts, r: seq<SearchResult>, q: seq<SearchResult>, a: nat, b: nat, e: nat)
    requires AscendingHits(v, r, a, b) && AscendingHits(v, q, b, e) && a <= b <= e
    ensures AscendingHits(v, r + q, a, e)
  {
  }

  lemma AscendingWider(v: Verdicts, r: seq<SearchResult>, a: nat, b: nat, e: nat)
    requires AscendingHits(v, r, a, b) && b <= e
    ensures AscendingHits(v, r, a, e)
  {
  }

  // ---------------------------------------------------------------- the invariant

  /** How far worker k's local list reaches. */
  function Upto(k: Worker): nat {
    if k.pc == Increment then k.i + 1 else k.i
  }

  ghost predicate WorkerOk(c: Config, ch: Chunk, k: Worker) {
    && k.begin == ch.begin && k.end == ch.end && k.begin <= k.i <= k.end <= |c.verdicts|
    && (k.pc in {CheckCap, Test, Append, Increment} ==> k.i < k.end)
    && (k.pc in {Append, Increment} ==> c.verdicts[k.i].Some?)
    && k.local == Hits(c.verdicts, k.begin, Upto(k))
  }

  datatype Measure = Appended | Pending | PastCheck | Work

  /** What worker k contributes to a measure. */
  function Value(m: Measure, k: Worker): nat {
    match m
    case Appended => |k.local|
    case Pending => if k.pc == Increment then 1 else 0
    case PastCheck => if k.pc in {Test, Append, Increment} then 1 else 0
    case Work =>
      if k.pc == Done then 0
      else
        6 * (if k.i < k.end then k.end - k.i else 0)
        + (match k.pc
           case CheckCancel => 5 case CheckCap => 4 case Test => 3 case Append => 2 case Increment => 1 case Done => 0)
  }

  function Sum(m: Measure, workers: seq<Worker>): nat {
    if workers == [] then 0 else Sum(m, workers[..|workers| - 1]) + Value(m, workers[|workers| - 1])
  }

  lemma {:induction false} SumUpdate(m: Measure, workers: seq<Worker>, w: nat, k: Worker)
    requires w < |workers|
    ensures Sum(m, workers[w := k]) + Value(m, workers[w]) == Sum(m, workers) + Value(m, k)
    decreases |workers|
  {
    var n := |workers| - 1;
    if w == n {
      assert workers[w := k][..n] == workers[..n];
    } else {
      assert workers[w := k][..n] == workers[..n][w := k];
      SumUpdate(m, workers[..n], w, k);
    }
  }

  lemma {:induction false} SumAtMost(m: Measure, workers: seq<Worker>)
    requires m == Pending || m == PastCheck
    ensures Sum(m, workers) <= |workers|
  {
    if workers != [] {
      SumAtMost(m, workers[..|workers| - 1]);
    }
  }

  ghost predicate Inv(c: Config, s: State) {
    && |s.workers| == |c.chunks|
    && (forall w :: 0 <= w < |s.workers| ==> WorkerOk(c, c.chunks[w], s.workers[w]))
    && s.collected + Sum(Pending, s.workers) == Sum(Appended, s.workers)
    && (forall w :: 0 <= w < |s.workers| && s.workers[w].pc == Done ==>
          s.workers[w].i == s.workers[w].end || s.cancel || s.collected >= c.cap)
  }

  lemma {:induction false} NoHitsYet(workers: seq<Worker>)
    requires forall w :: 0 <= w < |workers| ==> workers[w].local == [] && workers[w].pc == CheckCancel
    ensures Sum(Appended, workers) == 0 && Sum(Pending, workers) == 0 && Sum(PastCheck, workers) == 0
  {
    if workers != [] {
      NoHitsYet(workers[..|workers| - 1]);
    }
  }

  lemma {:induction false} PartitionBounds(chunks: seq<Chunk>, n: nat, k: nat)
    requires Partition(chunks, n) && k < |chunks|
    ensures chunks[k].end <= n
    decreases |chunks| - k
  {
    if k + 1 < |chunks| {
      PartitionBounds(chunks, n, k + 1);
    }
  }

  lemma InitInv(c: Config)
    requires ConfigOk(c)
    ensures Inv(c, Init(c))
  {
    NoHitsYet(Init(c).workers);
    forall w | 0 <= w < |c.chunks| ensures WorkerOk(c, c.chunks[w], Init(c).workers[w]) {
      PartitionBounds(c.chunks, |c.verdicts|, w);
    }
  }

  lemma StepWorkerOk(c: Config, ch: Chunk, k: Worker, seenCancel: bool, seenCount: nat)
    requires WorkerOk(c, ch, k) && k.pc != Done
    ensures WorkerOk(c, ch, StepWorker(c, k, seenCancel, seenCount))
  {
  }

  /** Every step of every worker keeps the invariant, whatever values its loads return. */
  lemma StepKeepsInv(c: Config, s: State, a: Action)
    requires Inv(c, s) && Enabled(s, a)
    ensures Inv(c, Next(c, s, a))
  {
    match a
    case Cancel =>
    case Move(w, seenCancel, seenCount) =>
      hide WorkerOk, StepWorker, Value, Sum;
      var k := s.workers[w];
      var k' := StepWorker(c, k, seenCancel, seenCount);
      StepWorkerOk(c, c.chunks[w], k, seenCancel, seenCount);
      StepBalance(c, c.chunks[w], k, seenCancel, seenCount);
      SumUpdate(Pending, s.workers, w, k');
      SumUpdate(Appended, s.workers, w, k');
  }

  /** A step appends only what it leaves pending, and a worker stops only for a reason. */
  lemma StepBalance(c: Config, ch: Chunk, k: Worker, seenCancel: bool, seenCount: nat)
    requires WorkerOk(c, ch, k) && k.pc != Done
    ensures var k' := StepWorker(c, k, seenCancel, seenCount);
            && Value(Appended, k') + Value(Pending, k)
               == Value(Appended, k) + Value(Pending, k') + (if k.pc == Increment then 1 else 0)
            && (k'.pc == Done ==> k'.i == k'.end || seenCancel || seenCount >= c.cap)
  {
  }

  lemma {:induction false} RunKeepsInv(c: Config, s: State, actions: seq<Action>, t: State)
    requires Inv(c, s) && Run(c, s, actions, t)
    ensures Inv(c, t)
    decreases |actions|
  {
    if actions != [] {
      StepKeepsInv(c, s, actions[0]);
      RunKeepsInv(c, Next(c, s, actions[0]), actions[1..], t);
    }
  }

  lemma {:induction false} RunConcat(c: Config, s: State, xs: seq<Action>, t: State, ys: seq<Action>, u: State)
    requires Run(c, s, xs, t) && Run(c, t, ys, u)
    ensures Run(c, s, xs + ys, u)
    decreases |xs|
  {
    if xs == [] {
      assert xs + ys == ys;
    } else {
      assert (xs + ys)[1..] == xs[1..] + ys;
      RunConcat(c, Next(c, s, xs[0]), xs[1..], t, ys, u);
    }
  }

  // ---------------------------------------------------------------- the result

  ghost function Bound(c: Config, k: nat): nat
    requires k <= |c.chunks|
  {
    if k == 0 then 0 else c.chunks[k - 1].end
  }

  lemma {:induction false} FlattenLength(workers: seq<Worker>)
    ensures |Flatten(workers)| == Sum(Appended, workers)
  {
    if workers != [] {
      FlattenLength(workers[..|workers| - 1]);
    }
  }

  /** The lists of the first k workers: ascending true hits, no more than there are. */
  lemma {:induction false} FlattenPrefix(c: Config, s: State, k: nat)
    requires ConfigOk(c) && Inv(c, s) && k <= |c.chunks|
    ensures Bound(c, k) <= |c.verdicts|
    ensures AscendingHits(c.verdicts, Flatten(s.workers[..k]), 0, Bound(c, k))
    ensures |Flatten(s.workers[..k])| <= |Hits(c.verdicts, 0, Bound(c, k))|
    ensures (forall w :: 0 <= w < k ==> Upto(s.workers[w]) == s.workers[w].end) ==>
              Flatten(s.workers[..k]) == Hits(c.verdicts, 0, Bound(c, k))
    decreases k
  {
    if k > 0 {
      hide AscendingHits, Sum;
      assert s.workers[..k][..k - 1] == s.workers[..k - 1];
      var x := s.workers[k - 1];
      assert WorkerOk(c, c.chunks[k - 1], x);
      assert x.begin == Bound(c, k - 1);
      assert Flatten(s.workers[..k]) == Flatten(s.workers[..k - 1]) + x.local;
      hide Inv, Hits, Flatten;
      FlattenPrefix(c, s, k - 1);
      HitsAscend(c, x.begin, Upto(x));
      AscendingWider(c.verdicts, x.local, x.begin, Upto(x), x.end);
      AscendingConcat(c.verdicts, Flatten(s.workers[..k - 1]), x.local, 0, x.begin, x.end);
      HitsConcat(c.verdicts, 0, x.begin, x.end);
      HitsConcat(c.verdicts, x.begin, Upto(x), x.end);
    }
  }

  lemma FlattenWhole(c: Config, s: State)
    requires ConfigOk(c) && Inv(c, s)
    ensures AscendingHits(c.verdicts, Flatten(s.workers), 0, |c.verdicts|)
    ensures |Flatten(s.workers)| == Sum(Appended, s.workers) <= |Hits(c.verdicts, 0, |c.verdicts|)|
    ensures (forall w :: 0 <= w < |s.workers| ==> Upto(s.workers[w]) == s.workers[w].end) ==>
              Flatten(s.workers) == Hits(c.verdicts, 0, |c.verdicts|)
  {
    FlattenLength(s.workers);
    FlattenPrefix(c, s, |c.chunks|);
    assert s.workers[..|c.chunks|] == s.workers;
    assert Bound(c, |c.chunks|) == |c.verdicts|;
  }

  /** At any time, cancelled or not: at most the cap, ascending, and only true hits. */
  lemma ResultSound(c: Config, s: State)
    requires ConfigOk(c) && Inv(c, s)
    ensures |Result(c, s)| <= c.cap
    ensures AscendingHits(c.verdicts, Result(c, s), 0, |c.verdicts|)
  {
    FlattenWhole(c, s);
  }

  /** Finished and not cancelled: the cap or all hits, whichever is less, for every interleaving. */
  lemma ResultExact(c: Config, s: State)
    requires ConfigOk(c) && Inv(c, s) && Finished(s) && !s.cancel
    ensures |Result(c, s)| == Min(c.cap, |Hits(c.verdicts, 0, |c.verdicts|)|)
    ensures |Hits(c.verdicts, 0, |c.verdicts|)| <= c.cap ==> Result(c, s) == Hits(c.verdicts, 0, |c.verdicts|)
  {
    FlattenWhole(c, s);
    if w :| 0 <= w < |s.workers| && s.workers[w].i != s.workers[w].end {
      assert s.workers[w].pc == Done && s.collected >= c.cap;
      assert |Flatten(s.workers)| >= c.cap;
      if |Hits(c.verdicts, 0, |c.verdicts|)| <= c.cap {
        FullIsWhole(c, s);
      }
    }
  }

  /** As many results as there are hits means no worker stopped before its last hit. */
  lemma FullIsWhole(c: Config, s: State)
    requires ConfigOk(c) && Inv(c, s) && |Flatten(s.workers)| == |Hits(c.verdicts, 0, |c.verdicts|)|
    ensures Flatten(s.workers) == Hits(c.verdicts, 0, |c.verdicts|)
  {
    assert s.workers[..|c.chunks|] == s.workers;
    assert Bound(c, |c.chunks|) == |c.verdicts|;
    FlattenIsWholeUpTo(c, s, |c.chunks|);
  }

  lemma {:induction false} FlattenIsWholeUpTo(c: Config, s: State, k: nat)
    requires ConfigOk(c) && Inv(c, s) && k <= |c.chunks| && Bound(c, k) <= |c.verdicts|
    requires |Flatten(s.workers[..k])| == |Hits(c.verdicts, 0, Bound(c, k))|
    ensures Flatten(s.workers[..k]) == Hits(c.verdicts, 0, Bound(c, k))
    decreases k
  {
    if k > 0 {
      hide AscendingHits, Sum;
      var front, v := s.workers[..k - 1], c.verdicts;
      assert s.workers[..k][..k - 1] == front;
      var x := s.workers[k - 1];
      assert WorkerOk(c, c.chunks[k - 1], x) && x.begin == Bound(c, k - 1);
      FlattenPrefix(c, s, k - 1);
      HitsConcat(v, 0, x.begin, x.end);
      HitsConcat(v, x.begin, Upto(x), x.end);
      assert |Hits(v, Upto(x), x.end)| == 0;
      assert x.local + Hits(v, Upto(x), x.end) == x.local;
      FlattenIsWholeUpTo(c, s, k - 1);
    }
  }

  /** Every finished, uncancelled run from the start: exact size, ascending, only true hits. */
  lemma EveryRunExact(c: Config, actions: seq<Action>, t: State)
    requires ConfigOk(c) && Run(c, Init(c), actions, t) && Finished(t) && !t.cancel
    ensures |Result(c, t)| == Min(c.cap, |Hits(c.verdicts, 0, |c.verdicts|)|)
    ensures AscendingHits(c.verdicts, Result(c, t), 0, |c.verdicts|)
    ensures |Hits(c.verdicts, 0, |c.verdicts|)| <= c.cap ==> Result(c, t) == Hits(c.verdicts, 0, |c.verdicts|)
  {
    InitInv(c);
    RunKeepsInv(c, Init(c), actions, t);
    ResultSound(c, t);
    ResultExact(c, t);
  }

  /** Every run, cancelled or not, finished or not. */
  lemma EveryRunSound(c: Config, actions: seq<Action>, t: State)
    requires ConfigOk(c) && Run(c, Init(c), actions, t)
    ensures |Result(c, t)| <= c.cap
    ensures AscendingHits(c.verdicts, Result(c, t), 0, |c.verdicts|)
  {
    InitInv(c);
    RunKeepsInv(c, Init(c), actions, t);
    ResultSound(c, t);
  }

  // ---------------------------------------------------------------- the counter

  lemma {:induction false} HitsAtMost(v: Verdicts, a: nat, b: nat)
    requires a <= b <= |v|
    ensures |Hits(v, a, b)| <= b - a
    decreases b
  {
    if a < b {
      HitsAtMost(v, a, b - 1);
    }
  }

  /** The counter trails the lists by at most one per worker, and never exceeds the entry count. */
  lemma CounterTracksLists(c: Config, s: State)
    requires ConfigOk(c) && Inv(c, s)
    ensures s.collected <= |Flatten(s.workers)| <= s.collected + |s.workers|
    ensures s.collected <= |c.verdicts|
  {
    FlattenWhole(c, s);
    SumAtMost(Pending, s.workers);
    HitsAtMost(c.verdicts, 0, |c.verdicts|);
  }

  /** Every load of the counter returns its current value. */
  ghost predicate FreshRun(c: Config, s: State, actions: seq<Action>, t: State)
    decreases |actions|
  {
    if actions == [] then s == t
    else
      && Enabled(s, actions[0]) && (actions[0].Move? ==> actions[0].seenCount == s.collected)
      && FreshRun(c, Next(c, s, actions[0]), actions[1..], t)
  }

  lemma {:induction false} FreshRunBound(c: Config, s: State, actions: seq<Action>, t: State)
    requires c.cap >= 1 && FreshRun(c, s, actions, t)
    requires s.collected + Sum(PastCheck, s.workers) + 1 <= c.cap + |s.workers|
    ensures t.collected + 1 <= c.cap + |t.workers|
    decreases |actions|
  {
    if actions != [] {
      var a := actions[0];
      var u := Next(c, s, a);
      SumAtMost(PastCheck, s.workers);
      SumAtMost(PastCheck, u.workers);
      if a.Move? {
        SumUpdate(PastCheck, s.workers, a.w, StepWorker(c, s.workers[a.w], a.seenCancel, a.seenCount));
      }
      FreshRunBound(c, u, actions[1..], t);
    }
  }

  /** With current-value loads the counter overshoots the cap by less than the number of workers. */
  lemma OvershootBound(c: Config, actions: seq<Action>, t: State)
    requires ConfigOk(c) && c.cap >= 1 && FreshRun(c, Init(c), actions, t)
    ensures t.collected <= c.cap + |t.workers| - 1
  {
    NoHitsYet(Init(c).workers);
    FreshRunBound(c, Init(c), actions, t);
  }

  lemma StepUsesWork(c: Config, ch: Chunk, k: Worker, seenCancel: bool, seenCount: nat)
    requires WorkerOk(c, ch, k) && k.pc != Done
    ensures Value(Work, StepWorker(c, k, seenCancel, seenCount)) < Value(Work, k)
  {
    hide Hits;
  }

  /** Every enabled move of a worker uses up work, so every run of moves ends. */
  lemma MovesUseUpWork(c: Config, s: State, a: Action)
    requires Inv(c, s) && Enabled(s, a) && a.Move?
    ensures Sum(Work, Next(c, s, a).workers) < Sum(Work, s.workers)
  {
    assert WorkerOk(c, c.chunks[a.w], s.workers[a.w]);
    StepUsesWork(c, c.chunks[a.w], s.workers[a.w], a.seenCancel, a.seenCount);
    hide Inv, WorkerOk, StepWorker, Value, Sum;
    SumUpdate(Work, s.workers, a.w, StepWorker(c, s.workers[a.w], a.seenCancel, a.seenCount));
  }
}
