/**
 Which hits a capped search keeps. The parallel scan always returns as many results as it can,
 but the first ones only under an exact condition on where the hits lie.
 */
module SearchOrder {
  import opened Text
  import opened EntryMatching
  import opened SearchSteps
  import opened SearchSchedules

  /** Every finished, uncancelled run returns the first `cap` hits. */
  ghost predicate AlwaysFirst(c: Config) {
    forall actions, t :: Run(c, Init(c), actions, t) && Finished(t) && !t.cancel ==> IsFirst(c, t)
  }

  /** The same for the runs in which every load of the counter returns its current value. */
  ghost predicate AlwaysFirstFresh(c: Config) {
    forall actions, t :: FreshRun(c, Init(c), actions, t) && Finished(t) && !t.cancel ==> IsFirst(c, t)
  }

  // ---------------------------------------------------------------- the exact condition

  /**
   The search returns the first `cap` hits under every schedule if and only if the cap is not
   exceeded, or it is zero, or all hits lie in one worker's chunk. Stale loads of the counter
   make no difference: the condition is the same when every load returns the current value.
   */
  lemma AlwaysFirstIff(c: Config)
    requires ConfigOk(c)
    ensures AlwaysFirst(c) <==>
            |Hits(c.verdicts, 0, |c.verdicts|)| <= c.cap || c.cap == 0 || exists k :: HitsOnlyIn(c, k)
    ensures AlwaysFirstFresh(c) <==> AlwaysFirst(c)
  {
    var hits := Hits(c.verdicts, 0, |c.verdicts|);
    hide Hits, ConfigOk, HitsOnlyIn, Run, FreshRun, Finished, Result, Init;
    forall actions, t | FreshRun(c, Init(c), actions, t) ensures Run(c, Init(c), actions, t) {
      FreshIsRun(c, Init(c), actions, t);
    }
    if |hits| <= c.cap || c.cap == 0 || exists k :: HitsOnlyIn(c, k) {
      forall actions, t | Run(c, Init(c), actions, t) && Finished(t) && !t.cancel
        ensures IsFirst(c, t)
      {
        if k :| HitsOnlyIn(c, k) {
          OneChunkIsFirst(c, actions, t, k);
        } else {
          EveryRunExact(c, actions, t);
        }
      }
    } else {
      MissingRun(c);
    }
  }

  // ---------------------------------------------------------------- hits in one chunk: always the first

  /** Outside the one chunk there are no hits. */
  lemma OutsideChunk(c: Config, k: nat, j: nat)
    requires ConfigOk(c) && HitsOnlyIn(c, k) && j < |c.chunks| && j != k
    ensures c.chunks[j].end <= |c.verdicts|
    ensures forall i :: c.chunks[j].begin <= i < c.chunks[j].end ==> c.verdicts[i].None?
  {
    PartitionBounds(c.chunks, |c.verdicts|, j);
    if j < k {
      BoundsAscend(c, j + 1, k);
    } else {
      BoundsAscend(c, k + 1, j);
    }
  }

  lemma NothingBeforeChunk(c: Config, k: nat, j: nat)
    requires ConfigOk(c) && HitsOnlyIn(c, k) && j <= k
    ensures Bound(c, j) <= |c.verdicts| && Hits(c.verdicts, 0, Bound(c, j)) == []
  {
    BoundsAscend(c, j, k);
    PartitionBounds(c.chunks, |c.verdicts|, k);
    NoHits(c.verdicts, 0, Bound(c, j));
  }

  lemma PrefixAndMore<T>(f: seq<T>, h: seq<T>, l: seq<T>, rest: seq<T>)
    requires f <= h && (h == [] || l == [])
    ensures f + l <= h + (l + rest)
  {
  }

  lemma ThreeParts(v: Verdicts, a: nat, b: nat, e: nat)
    requires a <= b <= e <= |v|
    ensures Hits(v, 0, e) == Hits(v, 0, a) + (Hits(v, a, b) + Hits(v, b, e))
  {
    hide Hits;
    HitsConcat(v, 0, a, e);
    HitsConcat(v, a, b, e);
  }

  /** Either nothing comes before chunk j, or it holds nothing. */
  lemma OneSideEmpty(c: Config, k: nat, j: nat, upto: nat)
    requires ConfigOk(c) && HitsOnlyIn(c, k) && j < |c.chunks| && upto <= c.chunks[j].end <= |c.verdicts|
    ensures c.chunks[j].begin <= |c.verdicts|
    ensures Hits(c.verdicts, 0, c.chunks[j].begin) == [] || Hits(c.verdicts, c.chunks[j].begin, upto) == []
  {
    if j == k {
      NothingBeforeChunk(c, k, k);
    } else {
      OutsideChunk(c, k, j);
      NoHits(c.verdicts, c.chunks[j].begin, upto);
    }
  }

  lemma {:induction false} OneChunkPrefix(c: Config, s: State, k: nat, j: nat)
    requires ConfigOk(c) && Inv(c, s) && HitsOnlyIn(c, k) && j <= |c.chunks|
    ensures Bound(c, j) <= |c.verdicts| && Flatten(s.workers[..j]) <= Hits(c.verdicts, 0, Bound(c, j))
    decreases j
  {
    BoundsAscend(c, j, |c.chunks|);
    if j > 0 {
      OneChunkPrefix(c, s, k, j - 1);
      LastList(c, s, j);
      var x := s.workers[j - 1];
      OneSideEmpty(c, k, j - 1, Upto(x));
      hide *;
      ListGrows(c.verdicts, Flatten(s.workers[..j - 1]), x.begin, Upto(x), x.end);
    }
  }

  /** A prefix of the hits stays one when a worker's list follows it, if either has nothing before it. */
  lemma ListGrows(v: Verdicts, f: seq<SearchResult>, a: nat, b: nat, e: nat)
    requires a <= b <= e <= |v| && f <= Hits(v, 0, a) && (Hits(v, 0, a) == [] || Hits(v, a, b) == [])
    ensures f + Hits(v, a, b) <= Hits(v, 0, e)
  {
    hide Hits;
    ThreeParts(v, a, b, e);
    PrefixAndMore(f, Hits(v, 0, a), Hits(v, a, b), Hits(v, b, e));
  }

  lemma OneChunkIsFirst(c: Config, actions: seq<Action>, t: State, k: nat)
    requires ConfigOk(c) && HitsOnlyIn(c, k) && Run(c, Init(c), actions, t) && Finished(t) && !t.cancel
    ensures Result(c, t) == Cut(Hits(c.verdicts, 0, |c.verdicts|), c.cap)
  {
    hide Run, Inv, Finished, HitsOnlyIn, ConfigOk, Partition, Flatten, Hits, Init;
    InitInv(c);
    RunKeepsInv(c, Init(c), actions, t);
    ResultExact(c, t);
    OneChunkPrefix(c, t, k, |c.chunks|);
    AllWorkers(c, t);
  }


}
