/**
 How far each worker is from its end. A rank of two numbers falls with every step of the worker and
 of its scans, through all points of the three thread bodies: a phase that only ever falls, and what
 is left to do within the phase. Both have bounds that depend on the job alone, so the rank bounds
 the number of steps.
 */
module WorkerRanks {
  import opened Text
  import opened IndexPools
  import opened IndexStores
  import opened WorkerSteps
  import opened WorkerTraces

  datatype Rank = Rank(phase: nat, left: nat)

  predicate Below(a: Rank, b: Rank) {
    a.phase < b.phase || (a.phase == b.phase && a.left < b.left)
  }

  /** The files scan i has yet to emit, and its return. */
  function ScanLeft(k: Worker, i: nat): nat {
    if i < |k.scans| && i < |k.job.outputs| then
      (if |k.scans[i].found| <= |k.job.outputs[i]| then |k.job.outputs[i]| - |k.scans[i].found| else 0)
      + (if k.scans[i].done then 0 else 1)
    else 0
  }

  function ScansLeft(k: Worker, n: nat): nat {
    if n == 0 then 0 else ScansLeft(k, n - 1) + ScanLeft(k, n - 1)
  }

  function RankOf(k: Worker): Rank {
    var roots := |k.job.roots|;
    match k.pc
    case Scanning => Rank(9, ScansLeft(k, |k.scans|))
    case Checking => Rank(8, 0)
    case Beginning => Rank(7, 0)
    case Staging(n) => Rank(6, if n <= |Whole(k.job)| then |Whole(k.job)| - n else 0)
    case Swapping => Rank(5, 0)
    case PathCheck(i) => Rank(if i <= roots then 10 + 3 * (roots - i) else 0, 0)
    case PathScan(i) => Rank(if i <= roots then 9 + 3 * (roots - i) else 0, ScanLeft(k, i))
    case PathAdd(i, n) =>
      Rank(if i <= roots then 8 + 3 * (roots - i) else 0,
           if i < |k.scans| && n <= |k.scans[i].found| then |k.scans[i].found| - n else 0)
    case PathEnd => Rank(9, 0)
    case Removing(i) => Rank(9, if i <= roots then roots - i else 0)
    case StopRoots => Rank(8, 0)
    case Saving => Rank(4, 0)
    case Monitoring(j, checked) =>
      Rank(3, (if j <= |k.job.monitor| then 2 * (|k.job.monitor| - j) else 0) + (if checked then 0 else 1))
    case Signalling => Rank(2, 0)
    case Dead => Rank(0, 0)
  }

  lemma {:induction false} OneScanLess(k: Worker, k': Worker, i: nat, n: nat)
    requires i < |k.scans| == |k.job.outputs| && n <= |k.scans| == |k'.scans| && k'.job == k.job
    requires k'.scans == k.scans[i := k'.scans[i]]
    ensures ScansLeft(k', n) + (if i < n then ScanLeft(k, i) else 0)
            == ScansLeft(k, n) + (if i < n then ScanLeft(k', i) else 0)
    decreases n
  {
    if n > 0 {
      OneScanLess(k, k', i, n - 1);
    }
  }

  lemma ScanDescends(loc: Locale, sys: Sys, w: nat, i: nat, a: Action)
    requires w < |sys.workers| && WorkerOk(loc, sys.workers[w], sys.store, sys.clean)
    requires Enabled(loc, sys, a) && (a == ScanMore(w, i) || a == ScanEnd(w, i))
    ensures Below(RankOf(Next(loc, sys, a).workers[w]), RankOf(sys.workers[w]))
  {
    hide TraceOk, JobOk, Whole, ScansLeft;
    var k := sys.workers[w];
    var k' := Next(loc, sys, a).workers[w];
    assert k'.scans == k.scans[i := k'.scans[i]];
    OneScanLess(k, k', i, |k.scans|);
    assert ScanLeft(k', i) < ScanLeft(k, i);
  }

  lemma PathDescends(loc: Locale, k: Worker, sys: Sys, seen: bool)
    requires TraceOk(loc, k, sys.store.staging, sys.store.pool, sys.clean) && StepReady(k)
    requires |k.scans| == |k.job.outputs|
    requires k.pc.PathCheck? || k.pc.PathScan? || k.pc.PathAdd? || k.pc.PathEnd? || k.pc.Removing? || k.pc.StopRoots?
    ensures Below(RankOf(Moved(k, sys, MoveOf(k, seen), seen)), RankOf(k))
  {
    hide FullTrace, CancelledTrace, SomeAdds, Complete, Whole, AddEffects, RemoveEffects, Upto, FullWork, EffectOf,
         AllFound, ScansLeft, ScanLeft, BulkPool, AllDone;
  }

  lemma OtherDescends(loc: Locale, k: Worker, sys: Sys, seen: bool)
    requires StepReady(k) && (k.pc.Staging? ==> k.pc.next <= |Whole(k.job)| == |AllFound(k)|)
    requires !(k.pc.PathCheck? || k.pc.PathScan? || k.pc.PathAdd? || k.pc.PathEnd? || k.pc.Removing? || k.pc.StopRoots?)
    ensures Below(RankOf(Moved(k, sys, MoveOf(k, seen), seen)), RankOf(k))
  {
    hide Whole, EffectOf, AllFound, ScansLeft, ScanLeft, AllDone;
  }

  lemma MoveDescends(loc: Locale, k: Worker, sys: Sys, seen: bool)
    requires WorkerOk(loc, k, sys.store, sys.clean) && StepReady(k)
    ensures Below(RankOf(Moved(k, sys, MoveOf(k, seen), seen)), RankOf(k))
  {
    if k.pc.Staging? {
      CompleteFound(k);
    }
    hide RankOf, MoveOf, StepReady;
    if k.pc.PathCheck? || k.pc.PathScan? || k.pc.PathAdd? || k.pc.PathEnd? || k.pc.Removing? || k.pc.StopRoots? {
      PathDescends(loc, k, sys, seen);
    } else {
      OtherDescends(loc, k, sys, seen);
    }
  }

  /** More than any rank's second component can be. */
  function LeftBound(job: Job): nat {
    |Whole(job)| + |job.outputs| + |job.roots| + 2 * |job.monitor| + 2
  }

  /** The rank as one number: an upper bound on the steps the worker still takes. */
  function StepsLeft(k: Worker): nat {
    AsNumber(RankOf(k), LeftBound(k.job))
  }

  function AsNumber(rank: Rank, bound: nat): nat {
    rank.phase * bound + rank.left
  }

  lemma ScansLeftBound(k: Worker, n: nat)
    requires ScansOk(k) && n <= |k.scans|
    ensures ScansLeft(k, n) <= |Flat(k.job.outputs[..n])| + n
    decreases n
  {
    if n > 0 {
      ScansLeftBound(k, n - 1);
      FlatStep(k.job.outputs, n - 1);
    }
  }

  lemma OutputBound(job: Job, i: nat)
    requires i < |job.outputs|
    ensures |job.outputs[i]| <= |Whole(job)|
  {
    FlatStep(job.outputs, i);
    assert |Flat(job.outputs[..i]) + job.outputs[i]| <= |Whole(job)|;
  }

  lemma LeftWithinBound(loc: Locale, k: Worker, store: State, clean: bool)
    requires WorkerOk(loc, k, store, clean)
    ensures RankOf(k).left < LeftBound(k.job)
  {
    if k.pc.Scanning? {
      ScansLeftBound(k, |k.scans|);
      assert k.job.outputs[..|k.scans|] == k.job.outputs;
    }
    if (k.pc.PathScan? || k.pc.PathAdd?) && k.pc.i < |k.job.outputs| {
      OutputBound(k.job, k.pc.i);
    }
    hide JobOk, TraceOk, Whole, ScansLeft, Flat;
  }

  lemma LowerRankFewerSteps(a: Rank, b: Rank, bound: nat)
    requires Below(a, b) && a.left < bound
    ensures AsNumber(a, bound) < AsNumber(b, bound)
  {
    if a.phase < b.phase {
      assert (a.phase + 1) * bound <= b.phase * bound;
    }
  }
}
