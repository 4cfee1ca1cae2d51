/**
 The hits a schedule can miss. When the cap is exceeded and the hits lie in more than one chunk, a
 run is built in which one worker waits before a hit that belongs in the result, the others run one
 after the other until the cap is reached, and the first then reads the counter. Every load in it
 returns the current value.
 */
module SearchSchedules {
  import opened Text
  import opened EntryMatching
  import opened SearchSteps

  ghost predicate IsFirst(c: Config, t: State) {
    Result(c, t) == Cut(Hits(c.verdicts, 0, |c.verdicts|), c.cap)
  }

  ghost predicate HitsOnlyIn(c: Config, k: nat) {
    && k < |c.chunks|
    && forall i :: 0 <= i < |c.verdicts| && c.verdicts[i].Some? ==> c.chunks[k].begin <= i < c.chunks[k].end
  }

  // ---------------------------------------------------------------- where hits can lie

  lemma {:induction false} NoHits(v: Verdicts, a: nat, b: nat)
    requires b <= |v| && forall i :: a <= i < b ==> v[i].None?
    ensures Hits(v, a, b) == []
    decreases b
  {
    if a < b {
      NoHits(v, a, b - 1);
    }
  }

  lemma {:induction false} BoundsAscend(c: Config, j: nat, k: nat)
    requires ConfigOk(c) && j <= k <= |c.chunks|
    ensures Bound(c, j) <= Bound(c, k) <= |c.verdicts|
    decreases k
  {
    if j < k {
      BoundsAscend(c, j, k - 1);
      PartitionBounds(c.chunks, |c.verdicts|, k - 1);
    } else if k > 0 {
      PartitionBounds(c.chunks, |c.verdicts|, k - 1);
    }
  }

  /** The list of worker j - 1, and how it extends the lists before it. */
  lemma LastList(c: Config, s: State, j: nat)
    requires ConfigOk(c) && Inv(c, s) && 0 < j <= |c.chunks|
    ensures |s.workers| == |c.chunks|
    ensures var x := s.workers[j - 1];
            && Bound(c, j - 1) == x.begin <= Upto(x) <= x.end == Bound(c, j) <= |c.verdicts|
            && x.begin == c.chunks[j - 1].begin && x.end == c.chunks[j - 1].end
            && x.local == Hits(c.verdicts, x.begin, Upto(x))
            && Flatten(s.workers[..j]) == Flatten(s.workers[..j - 1]) + x.local
  {
    hide Sum, Hits;
    assert s.workers[..j][..j - 1] == s.workers[..j - 1];
    assert WorkerOk(c, c.chunks[j - 1], s.workers[j - 1]);
  }

  lemma AllWorkers(c: Config, s: State)
    requires ConfigOk(c) && Inv(c, s)
    ensures s.workers[..|c.chunks|] == s.workers && Bound(c, |c.chunks|) == |c.verdicts|
  {
    hide Sum, WorkerOk;
  }

  lemma Regroup<T>(a: seq<T>, b: seq<T>, c: seq<T>)
    ensures (a + b) + c == a + (b + c)
  {
  }

  // ---------------------------------------------------------------- hits in two chunks: a run that misses one

  lemma {:induction false} NthHit(v: Verdicts, a: nat, b: nat, m: nat) returns (x: nat)
    requires b <= |v| && m < |Hits(v, a, b)|
    ensures a <= x < b && |Hits(v, a, x)| == m && v[x].Some?
    decreases b
  {
    if m < |Hits(v, a, b - 1)| {
      x := NthHit(v, a, b - 1, m);
    } else {
      x := b - 1;
    }
  }

  lemma FreshIsRun(c: Config, s: State, actions: seq<Action>, t: State)
    requires FreshRun(c, s, actions, t)
    ensures Run(c, s, actions, t)
    decreases |actions|
  {
    if actions != [] {
      FreshIsRun(c, Next(c, s, actions[0]), actions[1..], t);
    }
  }

  lemma {:induction false} FreshConcat(c: Config, s: State, xs: seq<Action>, t: State, ys: seq<Action>, u: State)
    requires FreshRun(c, s, xs, t) && FreshRun(c, t, ys, u)
    ensures FreshRun(c, s, xs + ys, u)
    decreases |xs|
  {
    if xs == [] {
      assert xs + ys == ys;
    } else {
      assert (xs + ys)[1..] == xs[1..] + ys;
      FreshConcat(c, Next(c, s, xs[0]), xs[1..], t, ys, u);
    }
  }

  /** Some run with current-value loads leads from s to t. */
  ghost predicate CanGo(c: Config, s: State, t: State) {
    exists actions :: FreshRun(c, s, actions, t)
  }

  /** A move of worker w that loads the counter's current value. */
  function Fresh(s: State, w: nat): Action {
    Move(w, false, s.collected)
  }

  lemma GoOne(c: Config, s: State, w: nat, t: State)
    requires Enabled(s, Fresh(s, w)) && (Next(c, s, Fresh(s, w)) == t || CanGo(c, Next(c, s, Fresh(s, w)), t))
    ensures CanGo(c, s, t)
  {
    var a := Fresh(s, w);
    if Next(c, s, a) == t {
      assert FreshRun(c, t, [], t);
    }
    var rest :| FreshRun(c, Next(c, s, a), rest, t);
    assert ([a] + rest)[1..] == rest;
    assert FreshRun(c, s, [a] + rest, t);
  }

  lemma GoOn(c: Config, s: State, t: State, u: State)
    requires CanGo(c, s, t) && CanGo(c, t, u)
    ensures CanGo(c, s, u)
  {
    var xs :| FreshRun(c, s, xs, t);
    var ys :| FreshRun(c, t, ys, u);
    FreshConcat(c, s, xs, t, ys, u);
  }

  lemma GoKeepsInv(c: Config, s: State, t: State)
    requires CanGo(c, s, t) && Inv(c, s)
    ensures Inv(c, t)
  {
    var actions :| FreshRun(c, s, actions, t);
    FreshIsRun(c, s, actions, t);
    RunKeepsInv(c, s, actions, t);
  }

  /** Worker w at the top of its loop, at entry i. */
  ghost predicate AtTop(c: Config, s: State, w: nat, i: nat) {
    && w < |s.workers| == |c.chunks| && s.workers[w].pc == CheckCancel && s.workers[w].i == i
    && Inv(c, s) && !s.cancel
  }

  /** Worker w alone moves from s to the top of its loop at entry x, raising the counter by `hits`. */
  ghost predicate MovedTo(c: Config, s: State, t: State, w: nat, x: nat, hits: nat) {
    CanGo(c, s, t) && AtTop(c, t, w, x) && t.collected == s.collected + hits
  }

  /** Below the cap a worker gets through one entry, hit or not. */
  lemma OneEntry(c: Config, s: State, w: nat, i: nat, next: nat, hits: nat)
    requires AtTop(c, s, w, i) && s.collected < c.cap && i < s.workers[w].end && next == i + 1
    requires i < |c.verdicts| && hits == if c.verdicts[i].Some? then 1 else 0
    ensures exists t :: MovedTo(c, s, t, w, next, hits)
  {
    hide Inv, CanGo;
    var s1 := Next(c, s, Fresh(s, w));
    var s2 := Next(c, s1, Fresh(s1, w));
    var s3 := Next(c, s2, Fresh(s2, w));
    var t := s3;
    if c.verdicts[i].Some? {
      var s4 := Next(c, s3, Fresh(s3, w));
      t := Next(c, s4, Fresh(s4, w));
      GoOne(c, s4, w, t);
      GoOne(c, s3, w, t);
    }
    GoOne(c, s2, w, t);
    GoOne(c, s1, w, t);
    GoOne(c, s, w, t);
    GoKeepsInv(c, s, t);
    assert MovedTo(c, s, t, w, next, hits);
  }

  lemma InvBounds(c: Config, s: State, w: nat)
    requires Inv(c, s) && w < |s.workers|
    ensures s.workers[w].end <= |c.verdicts| && s.workers[w].i <= s.workers[w].end
    ensures s.workers[w].end == c.chunks[w].end && s.workers[w].begin == c.chunks[w].begin
  {
    assert WorkerOk(c, c.chunks[w], s.workers[w]);
  }

  /** Below the cap a worker gets to any entry of its chunk. */
  lemma {:induction false} Advance(c: Config, s: State, w: nat, i: nat, x: nat, hits: nat)
    requires AtTop(c, s, w, i) && i <= x <= s.workers[w].end && s.workers[w].end <= |c.verdicts|
    requires hits == |Hits(c.verdicts, i, x)| && s.collected + hits < c.cap
    ensures exists t :: MovedTo(c, s, t, w, x, hits)
    decreases x - i
  {
    hide Inv, CanGo;
    if i == x {
      assert CanGo(c, s, s) by { StaysPut(c, s); }
      assert MovedTo(c, s, s, w, x, hits);
    } else {
      var next, here := i + 1, if c.verdicts[i].Some? then 1 else 0;
      HitsConcat(c.verdicts, i, next, x);
      OneEntry(c, s, w, i, next, here);
      var mid :| MovedTo(c, s, mid, w, next, here);
      InvBounds(c, s, w);
      InvBounds(c, mid, w);
      Advance(c, mid, w, next, x, hits - here);
      var t :| MovedTo(c, mid, t, w, x, hits - here);
      GoOn(c, s, mid, t);
      assert MovedTo(c, s, t, w, x, hits);
    }
  }

  lemma StaysPut(c: Config, s: State)
    ensures CanGo(c, s, s)
  {
    assert FreshRun(c, s, [], s);
  }

  /** Worker a waits at entry x and all others are done. */
  ghost predicate Waiting(c: Config, s: State, a: nat, x: nat) {
    AtTop(c, s, a, x) && forall w :: 0 <= w < |s.workers| && w != a ==> s.workers[w].pc == Done
  }

  ghost predicate OthersFinish(c: Config, s: State, t: State, a: nat, x: nat) {
    CanGo(c, s, t) && Waiting(c, t, a, x)
  }

  /** The others can all finish while worker a waits. */
  lemma {:induction false} FinishOthers(c: Config, s: State, a: nat, x: nat)
    requires AtTop(c, s, a, x)
    ensures exists t :: OthersFinish(c, s, t, a, x)
    decreases Sum(Work, s.workers)
  {
    hide Inv, CanGo, Sum;
    if w :| 0 <= w < |s.workers| && w != a && s.workers[w].pc != Done {
      var mid := Next(c, s, Fresh(s, w));
      StepKeepsInv(c, s, Fresh(s, w));
      MovesUseUpWork(c, s, Fresh(s, w));
      FinishOthers(c, mid, a, x);
      var t :| OthersFinish(c, mid, t, a, x);
      GoOne(c, s, w, t);
      assert OthersFinish(c, s, t, a, x);
    } else {
      StaysPut(c, s);
      assert OthersFinish(c, s, s, a, x);
    }
  }

  lemma NothingBefore(c: Config, s: State, j: nat)
    requires ConfigOk(c) && Inv(c, s) && j <= |c.chunks| && Bound(c, j) <= |c.verdicts|
    requires forall i :: 0 <= i < Bound(c, j) ==> c.verdicts[i].None?
    ensures Flatten(s.workers[..j]) == []
  {
    FlattenPrefix(c, s, j);
    NoHits(c.verdicts, 0, Bound(c, j));
  }

  lemma StagedFirst(c: Config, s: State, a: nat, x: nat)
    requires ConfigOk(c) && Inv(c, s) && a < |c.chunks| && Upto(s.workers[a]) == x
    requires forall i :: 0 <= i < c.chunks[a].begin <= |c.verdicts| ==> c.verdicts[i].None?
    ensures x <= |c.verdicts| && Flatten(s.workers[..a + 1]) == Hits(c.verdicts, c.chunks[a].begin, x)
  {
    LastList(c, s, a + 1);
    NothingBefore(c, s, a);
    hide *;
  }

  lemma StagedNext(c: Config, s: State, a: nat, j: nat)
    requires ConfigOk(c) && Inv(c, s) && a < j - 1 < |c.chunks| && Upto(s.workers[j - 1]) == s.workers[j - 1].end
    ensures c.chunks[a].end <= Bound(c, j - 1) <= Bound(c, j) <= |c.verdicts|
    ensures Flatten(s.workers[..j]) == Flatten(s.workers[..j - 1]) + s.workers[j - 1].local
    ensures Hits(c.verdicts, c.chunks[a].end, Bound(c, j))
         == Hits(c.verdicts, c.chunks[a].end, Bound(c, j - 1)) + s.workers[j - 1].local
  {
    BoundsAscend(c, a + 1, j - 1);
    LastList(c, s, j);
    hide ConfigOk, Inv, Flatten, Sum, Upto, Partition, Hits;
    HitsConcat(c.verdicts, c.chunks[a].end, Bound(c, j - 1), Bound(c, j));
  }

  /** Worker a's list reaches entry x, every other list the end of its chunk. */
  ghost predicate AllScanned(s: State, a: nat, x: nat) {
    forall w :: 0 <= w < |s.workers| ==> Upto(s.workers[w]) == if w == a then x else s.workers[w].end
  }

  /** With nothing before chunk a, the lists are a's part up to x and everything after chunk a. */
  lemma {:induction false} StagedLists(c: Config, s: State, a: nat, x: nat, j: nat)
    requires ConfigOk(c) && Inv(c, s) && a < j <= |c.chunks|
    requires AllScanned(s, a, x)
    requires forall i :: 0 <= i < c.chunks[a].begin <= |c.verdicts| ==> c.verdicts[i].None?
    requires c.chunks[a].begin <= x <= |c.verdicts|
    ensures c.chunks[a].end <= Bound(c, j) <= |c.verdicts|
    ensures Flatten(s.workers[..j])
         == Hits(c.verdicts, c.chunks[a].begin, x) + Hits(c.verdicts, c.chunks[a].end, Bound(c, j))
    decreases j
  {
    hide ConfigOk, Partition, Inv, Flatten, Sum, Upto, Hits, WorkerOk;
    BoundsAscend(c, a + 1, j);
    assert |s.workers| == |c.chunks| by { LastList(c, s, j); }
    if j == a + 1 {
      StagedFirst(c, s, a, x);
      NoHits(c.verdicts, c.chunks[a].end, Bound(c, j));
      hide *;
    } else {
      StagedLists(c, s, a, x, j - 1);
      StagedNext(c, s, a, j);
      Regroup(Hits(c.verdicts, c.chunks[a].begin, x), Hits(c.verdicts, c.chunks[a].end, Bound(c, j - 1)),
              s.workers[j - 1].local);
    }
  }

  lemma {:induction false} NonePending(workers: seq<Worker>)
    requires forall w :: 0 <= w < |workers| ==> workers[w].pc != Increment
    ensures Sum(Pending, workers) == 0
  {
    if workers != [] {
      NonePending(workers[..|workers| - 1]);
    }
  }

  /** The chunk that entry i lies in. */
  lemma {:induction false} ChunkOf(c: Config, i: nat, k: nat) returns (a: nat)
    requires ConfigOk(c) && k <= |c.chunks| && i < Bound(c, k)
    ensures a < k && c.chunks[a].begin <= i < c.chunks[a].end
    decreases k
  {
    if Bound(c, k - 1) <= i {
      a := k - 1;
    } else {
      a := ChunkOf(c, i, k - 1);
    }
  }

  /** Chunk a holds the first hit, x is its hit number m, and enough hits lie beyond the chunk. */
  ghost predicate Split(c: Config, a: nat, x: nat, m: nat) {
    && a < |c.chunks| && c.chunks[a].begin <= x < c.chunks[a].end <= |c.verdicts|
    && (forall i :: 0 <= i < c.chunks[a].begin ==> c.verdicts[i].None?)
    && c.verdicts[x].Some? && |Hits(c.verdicts, c.chunks[a].begin, x)| == m < c.cap
    && m + |Hits(c.verdicts, c.chunks[a].end, |c.verdicts|)| >= c.cap
  }

  lemma FindSplit(c: Config) returns (a: nat, x: nat, m: nat)
    requires ConfigOk(c) && 0 < c.cap < |Hits(c.verdicts, 0, |c.verdicts|)|
    requires forall k :: !HitsOnlyIn(c, k)
    ensures Split(c, a, x, m)
  {
    var v, n := c.verdicts, |c.verdicts|;
    var first := NthHit(v, 0, n, 0);
    assert Bound(c, |c.chunks|) == n;
    a := ChunkOf(c, first, |c.chunks|);
    var b, e := c.chunks[a].begin, c.chunks[a].end;
    PartitionBounds(c.chunks, n, a);
    NoneBeforeFirst(v, 0, first);
    assert b <= first < e <= n && !HitsOnlyIn(c, a);
    var y :| 0 <= y < n && v[y].Some? && !(b <= y < e);
    assert y >= e;
    hide ConfigOk, HitsOnlyIn, Hits;
    HitsConcat(v, 0, b, n);
    NoHits(v, 0, b);
    HitsConcat(v, b, e, n);
    HitBetween(v, e, y, n);
    HitBetween(v, b, first, e);
    var beyond := |Hits(v, e, n)|;
    m := if beyond >= c.cap then 0 else c.cap - beyond;
    x := NthHit(v, b, e, m);
  }

  lemma HitBetween(v: Verdicts, a: nat, y: nat, b: nat)
    requires a <= y < b <= |v| && v[y].Some?
    ensures |Hits(v, a, b)| > 0
  {
    HitsConcat(v, a, y, b);
    HitsConcat(v, y, y + 1, b);
  }

  lemma {:induction false} NoneBeforeFirst(v: Verdicts, a: nat, b: nat)
    requires b <= |v| && |Hits(v, a, b)| == 0
    ensures forall i :: a <= i < b ==> v[i].None?
    decreases b
  {
    if a < b {
      NoneBeforeFirst(v, a, b - 1);
    }
  }

  /** The counter has reached the cap while worker a still has hit number m ahead of it. */
  lemma WaitingCounter(c: Config, s: State, a: nat, x: nat, m: nat)
    requires ConfigOk(c) && Split(c, a, x, m) && Waiting(c, s, a, x)
    ensures s.collected >= c.cap
  {
    if s.collected < c.cap {
      NonePending(s.workers);
      FlattenLength(s.workers);
      assert AllScanned(s, a, x);
      StagedLists(c, s, a, x, |c.chunks|);
      AllWorkers(c, s);
    }
  }

  /** With nothing before b, the hit at x is the one after those from b to x. */
  lemma HitNumber(v: Verdicts, b: nat, x: nat, n: nat)
    requires b <= x < n <= |v| && v[x].Some? && forall i :: 0 <= i < b ==> v[i].None?
    ensures |Hits(v, b, x)| < |Hits(v, 0, n)| && Hits(v, 0, n)[|Hits(v, b, x)|] == v[x].value
  {
    assert Hits(v, 0, x + 1) == Hits(v, 0, x) + [v[x].value];
    hide Hits;
    NoHits(v, 0, b);
    HitsConcat(v, 0, b, x);
    HitsConcat(v, 0, x + 1, n);
  }

  /** No list names entry x when worker a stopped before it. */
  lemma {:induction false} NotListed(c: Config, s: State, a: nat, x: nat, j: nat)
    requires ConfigOk(c) && Inv(c, s) && a < |c.chunks| && c.chunks[a].begin <= x < c.chunks[a].end
    requires Upto(s.workers[a]) <= x && j <= |c.chunks|
    ensures forall r :: r in Flatten(s.workers[..j]) ==> r.entryIndex != x
    decreases j
  {
    if j > 0 {
      NotListed(c, s, a, x, j - 1);
      LastList(c, s, j);
      var k := s.workers[j - 1];
      HitsAscend(c, k.begin, Upto(k));
      if j - 1 < a {
        BoundsAscend(c, j, a);
      } else if j - 1 > a {
        BoundsAscend(c, a + 1, j - 1);
      }
      hide ConfigOk, Inv, Flatten, Hits, Upto;
      assert forall r :: r in k.local ==> r.entryIndex != x;
    }
  }

  /** With nothing before chunk a, a finished run that stopped before hit number m is not the first hits. */
  lemma MissesHit(c: Config, t: State, a: nat, x: nat, m: nat)
    requires ConfigOk(c) && Inv(c, t) && Split(c, a, x, m) && Upto(t.workers[a]) <= x
    ensures !IsFirst(c, t)
  {
    var v, n := c.verdicts, |c.verdicts|;
    NotListed(c, t, a, x, |c.chunks|);
    AllWorkers(c, t);
    HitNumber(v, c.chunks[a].begin, x, n);
    assert v[x].value.entryIndex == x;
    hide ConfigOk, Inv, Flatten, Hits, Split;
    assert Cut(Hits(v, 0, n), c.cap)[m] == v[x].value;
    assert forall r :: r in Result(c, t) ==> r in Flatten(t.workers);
  }

  /** The waiting worker reads the counter and stops: the run is finished. */
  ghost predicate Stopped(c: Config, s: State, t: State, a: nat, x: nat) {
    CanGo(c, s, t) && Finished(t) && !t.cancel && Inv(c, t) && a < |t.workers| && Upto(t.workers[a]) == x
  }

  lemma StopWaiting(c: Config, s: State, a: nat, x: nat)
    requires Waiting(c, s, a, x) && x < s.workers[a].end && s.collected >= c.cap
    ensures exists t :: Stopped(c, s, t, a, x)
  {
    hide Inv, CanGo;
    var mid := Next(c, s, Fresh(s, a));
    var t := Next(c, mid, Fresh(mid, a));
    GoOne(c, mid, a, t);
    GoOne(c, s, a, t);
    GoKeepsInv(c, s, t);
    assert Stopped(c, s, t, a, x);
  }

  /** A run that misses one of the first hits, even with current-value loads. */
  ghost predicate Misses(c: Config, actions: seq<Action>, t: State) {
    FreshRun(c, Init(c), actions, t) && Finished(t) && !t.cancel && !IsFirst(c, t)
  }

  lemma MissingRun(c: Config)
    requires ConfigOk(c) && 0 < c.cap < |Hits(c.verdicts, 0, |c.verdicts|)|
    requires forall k :: !HitsOnlyIn(c, k)
    ensures exists actions, t :: Misses(c, actions, t)
  {
    var a, x, m := FindSplit(c);
    SplitFacts(c, a, x, m);
    InitInv(c);
    assert AtTop(c, Init(c), a, c.chunks[a].begin);
    hide Inv, Split, Finished, Hits, IsFirst, Init, ConfigOk;
    InvBounds(c, Init(c), a);
    Advance(c, Init(c), a, c.chunks[a].begin, x, m);
    var s1 :| MovedTo(c, Init(c), s1, a, x, m);
    FinishOthers(c, s1, a, x);
    var s2 :| OthersFinish(c, s1, s2, a, x);
    WaitingCounter(c, s2, a, x, m);
    InvBounds(c, s2, a);
    StopWaiting(c, s2, a, x);
    var t :| Stopped(c, s2, t, a, x);
    MissesHit(c, t, a, x, m);
    GoOn(c, Init(c), s1, s2);
    GoOn(c, Init(c), s2, t);
    var actions :| FreshRun(c, Init(c), actions, t);
    assert Misses(c, actions, t);
  }

  lemma SplitFacts(c: Config, a: nat, x: nat, m: nat)
    requires ConfigOk(c) && Split(c, a, x, m)
    ensures a < |c.chunks| && c.chunks[a].begin <= x < c.chunks[a].end <= |c.verdicts|
    ensures m == |Hits(c.verdicts, c.chunks[a].begin, x)| < c.cap
    ensures Init(c).collected == 0 && |Init(c).workers| == |c.chunks|
  {
  }
}
