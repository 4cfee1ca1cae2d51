/**
 What each worker has done to the store and the disk at every point of its body: a rebuild stages
 what its scans found, drive after drive, and swaps it in; an addition adds; a removal removes; all
 then save, unless they were cancelled. Every step of a worker keeps that record, whatever the
 other threads have done since its last one.
 */
module WorkerTraces {
  import opened Text
  import opened IndexPools
  import opened IndexStores
  import opened WorkerSteps

  // ---------------------------------------------------------------- what each worker has done so far

  function Whole(job: Job): seq<FileEntry> {
    Flat(job.outputs)
  }

  function AddEffects(es: seq<FileEntry>): (r: seq<Effect>)
    ensures |r| == |es|
  {
    seq(|es|, i requires 0 <= i < |es| => Did(ApplyAdd(es[i])))
  }

  function RemoveEffects(roots: seq<WString>): (r: seq<Effect>)
    ensures |r| == |roots|
  {
    seq(|roots|, i requires 0 <= i < |roots| => Did(RemoveEntriesUnderPath(roots[i])))
  }

  /** BeginWrite and one AddEntry per entry. */
  function StageEffects(es: seq<FileEntry>): (r: seq<Effect>)
    ensures |r| == |es| + 1
  {
    [Did(BeginWrite)] + seq(|es|, i requires 0 <= i < |es| => Did(StageEntry(es[i])))
  }

  /** Everything a worker does to the store when nobody cancels it. */
  function FullWork(job: Job): seq<Effect> {
    match job.kind
    case Rebuild => StageEffects(Whole(job)) + [Did(EndWrite)]
    case AddPaths => AddEffects(Whole(job))
    case RemovePaths => RemoveEffects(job.roots)
  }

  /** The pool EndWrite makes of the entries, when their lengths fit. */
  ghost function BulkPool(loc: Locale, es: seq<FileEntry>): Pool {
    if AllAddable(es) then FromEntries(loc, es) else EMPTY
  }

  /** It did all its work, then saved; a save with no change since EndWrite wrote exactly the scans. */
  ghost predicate FullTrace(loc: Locale, k: Worker) {
    && |k.effects| == |FullWork(k.job)| + 1 && FullWork(k.job) <= k.effects
    && k.effects[|k.effects| - 1].Saved?
    && var last := k.effects[|k.effects| - 1];
       k.job.kind == Rebuild && last.clean ==> last.pool == BulkPool(loc, Whole(k.job))
  }

  /** A prefix of the entries was added, and nothing else done. */
  ghost predicate SomeAdds(k: Worker) {
    exists n: nat :: n <= |Whole(k.job)| && k.effects == AddEffects(Whole(k.job)[..n])
  }

  /** It saw the cancel flag before saving: a rebuild has done nothing at all, an addition some of its adds. */
  ghost predicate CancelledTrace(k: Worker) {
    k.aware &&
    match k.job.kind
    case Rebuild => k.effects == []
    case AddPaths => SomeAdds(k)
    case RemovePaths => false
  }

  /** The scans of the first n roots emitted all they had. */
  ghost predicate Complete(k: Worker, n: nat) {
    && n <= |k.scans| == |k.job.outputs|
    && forall i :: 0 <= i < n ==> k.scans[i].found == k.job.outputs[i]
  }

  /** Scans emit prefixes; one that returned early saw the cancel flag. */
  ghost predicate ScansOk(k: Worker) {
    && |k.scans| == |k.job.outputs|
    && forall i :: 0 <= i < |k.scans| ==>
         && k.scans[i].found <= k.job.outputs[i]
         && (k.scans[i].done ==> k.scans[i].found == k.job.outputs[i] || k.aware)
  }

  function Upto(job: Job, i: nat): seq<FileEntry> {
    if i <= |job.outputs| then Flat(job.outputs[..i]) else []
  }

  ghost predicate TraceOk(loc: Locale, k: Worker, staging: seq<FileEntry>, pool: Pool, clean: bool) {
    var job, whole := k.job, Whole(k.job);
    match k.pc
    case Scanning => job.kind == Rebuild && k.effects == []
    case Checking => job.kind == Rebuild && k.effects == [] && AllDone(k)
    case Beginning => job.kind == Rebuild && k.effects == [] && Complete(k, |k.scans|)
    case Staging(n) =>
      && job.kind == Rebuild && Complete(k, |k.scans|) && n <= |whole|
      && k.effects == StageEffects(whole[..n]) && staging == whole[..n]
    case Swapping =>
      job.kind == Rebuild && Complete(k, |k.scans|) && k.effects == StageEffects(whole) && staging == whole
    case PathCheck(i) =>
      && job.kind == AddPaths && i <= |job.roots| && SomeAdds(k)
      && (k.aware || (Complete(k, i) && k.effects == AddEffects(Upto(job, i))))
    case PathScan(i) =>
      job.kind == AddPaths && i < |job.roots| && Complete(k, i) && k.effects == AddEffects(Upto(job, i))
    case PathAdd(i, n) =>
      && job.kind == AddPaths && i < |job.roots| && Complete(k, i)
      && i < |k.scans| && k.scans[i].done && n <= |k.scans[i].found|
      && k.effects == AddEffects(Upto(job, i) + k.scans[i].found[..n])
    case PathEnd => job.kind == AddPaths && SomeAdds(k) && (k.aware || k.effects == AddEffects(whole))
    case Removing(i) => job.kind == RemovePaths && i <= |job.roots| && k.effects == RemoveEffects(job.roots[..i])
    case StopRoots => job.kind == RemovePaths && k.effects == FullWork(job)
    case Saving =>
      k.effects == FullWork(job) && (job.kind == Rebuild && clean ==> pool == BulkPool(loc, whole))
    case Monitoring(j, checked) => FullTrace(loc, k) && (checked ==> j < |job.monitor|)
    case Signalling => FullTrace(loc, k) || CancelledTrace(k)
    case Dead => FullTrace(loc, k) || CancelledTrace(k)
  }

  ghost predicate WorkerOk(loc: Locale, k: Worker, store: State, clean: bool) {
    JobOk(loc, k.job) && ScansOk(k) && TraceOk(loc, k, store.staging, store.pool, clean)
  }

  // ---------------------------------------------------------------- lists of lists

  lemma {:induction false} FlatStep<T>(parts: seq<seq<T>>, i: nat)
    requires i < |parts|
    ensures Flat(parts[..i + 1]) == Flat(parts[..i]) + parts[i]
    ensures Flat(parts[..i]) + parts[i] <= Flat(parts)
    decreases |parts|
  {
    assert parts[..i + 1][..i] == parts[..i];
    if i + 1 == |parts| {
      assert parts[..i + 1] == parts;
    } else {
      var front := parts[..|parts| - 1];
      FlatStep(front, i);
      assert front[..i] == parts[..i];
    }
  }

  lemma {:induction false} FlatCanonical(loc: Locale, parts: seq<seq<FileEntry>>)
    requires forall i :: 0 <= i < |parts| ==> AllCanonical(loc, parts[i])
    ensures AllCanonical(loc, Flat(parts))
  {
    if parts != [] {
      FlatCanonical(loc, parts[..|parts| - 1]);
    }
  }

  lemma CompleteFound(k: Worker)
    requires Complete(k, |k.scans|)
    ensures AllFound(k) == Whole(k.job)
  {
    assert Found(k.scans) == k.job.outputs;
  }

  // ---------------------------------------------------------------- every step keeps every trace

  lemma OneMoreAdd(es: seq<FileEntry>, e: FileEntry)
    ensures AddEffects(es + [e]) == AddEffects(es) + [Did(ApplyAdd(e))]
  {
  }

  lemma OneMoreStaged(es: seq<FileEntry>, n: nat)
    requires n < |es|
    ensures StageEffects(es[..n + 1]) == StageEffects(es[..n]) + [Did(StageEntry(es[n]))]
    ensures es[..n + 1] == es[..n] + [es[n]]
  {
  }

  lemma OneMoreRemoved(roots: seq<WString>, i: nat)
    requires i < |roots|
    ensures RemoveEffects(roots[..i + 1]) == RemoveEffects(roots[..i]) + [Did(RemoveEntriesUnderPath(roots[i]))]
  {
  }

  /** The adds so far are a prefix of all of them. */
  lemma PrefixIsSome(k: Worker, es: seq<FileEntry>)
    requires es <= Whole(k.job) && k.effects == AddEffects(es)
    ensures SomeAdds(k)
  {
    assert Whole(k.job)[..|es|] == es;
  }

  /** The trace of worker k after its step m. */
  ghost predicate Advanced(loc: Locale, k: Worker, sys: Sys, seen: bool) {
    var m := MoveOf(k, seen);
    var store := StoreNext(loc, sys.store, m);
    && TraceOk(loc, Moved(k, sys, m, seen), store.staging, store.pool, CleanNext(sys.clean, m))
    && AllCanonical(loc, store.staging)
  }

  ghost predicate Traced(loc: Locale, k: Worker, sys: Sys, seen: bool) {
    && AllCanonical(loc, sys.store.staging) && StepReady(k) && CanSee(sys, k, seen)
    && WorkerOk(loc, k, sys.store, sys.clean)
  }

  lemma StoreBegins(loc: Locale, store: State)
    requires AllCanonical(loc, store.staging)
    ensures StoreAfter(loc, store, BeginWrite) == store.(staging := []) && AllCanonical(loc, [])
  {
  }

  lemma StoreStages(loc: Locale, store: State, e: FileEntry)
    requires AllCanonical(loc, store.staging) && Canonical(loc, e)
    ensures StoreAfter(loc, store, StageEntry(e)) == store.(staging := store.staging + [e])
    ensures AllCanonical(loc, store.staging + [e])
  {
  }

  lemma StoreSwaps(loc: Locale, store: State)
    requires AllCanonical(loc, store.staging)
    ensures StoreAfter(loc, store, EndWrite) == State(BulkPool(loc, store.staging), []) && AllCanonical(loc, [])
  {
  }

  /** The other operations leave the staging buffer alone. */
  lemma StoreKeepsStaging(loc: Locale, store: State, op: StoreOp)
    requires op.ApplyAdd? || op.ApplyRemove? || op.ApplyRename? || op.RemoveEntriesUnderPath?
    ensures StoreAfter(loc, store, op).staging == store.staging
  {
  }

  lemma SameScans(k: Worker, k': Worker, n: nat)
    requires k.job == k'.job && k.scans == k'.scans
    ensures Complete(k, n) <==> Complete(k', n)
  {
  }

  /** A step that only moves on leaves what was done as it is. */
  lemma SameEffects(loc: Locale, k: Worker, sys: Sys, seen: bool)
    requires EffectOf(sys, MoveOf(k, seen)) == []
    ensures var k' := Moved(k, sys, MoveOf(k, seen), seen);
            && k'.effects == k.effects && (SomeAdds(k) <==> SomeAdds(k'))
            && (FullTrace(loc, k) <==> FullTrace(loc, k')) && (CancelledTrace(k) ==> CancelledTrace(k'))
  {
    hide MoveOf, BulkPool, FullWork, AddEffects, Whole;
    assert k.effects + [] == k.effects;
  }

  lemma ScanTrace(loc: Locale, k: Worker, sys: Sys, seen: bool)
    requires Traced(loc, k, sys, seen) && (k.pc.Scanning? || k.pc.Checking?)
    ensures Advanced(loc, k, sys, seen)
  {
    hide AllCanonical, Canonical, StoreAfter;
  }

  lemma BeginTrace(loc: Locale, k: Worker, sys: Sys, seen: bool)
    requires Traced(loc, k, sys, seen) && k.pc.Beginning?
    ensures Advanced(loc, k, sys, seen)
  {
    StoreBegins(loc, sys.store);
    hide AllCanonical, Canonical, StoreAfter, Complete, ScansOk, JobOk, Whole;
    assert Whole(k.job)[..0] == [] && StageEffects([]) == [Did(BeginWrite)];
  }

  lemma StageTrace(loc: Locale, k: Worker, sys: Sys, seen: bool)
    requires Traced(loc, k, sys, seen) && k.pc.Staging?
    ensures Advanced(loc, k, sys, seen)
  {
    var whole := Whole(k.job);
    FlatCanonical(loc, k.job.outputs);
    CompleteFound(k);
    hide AllCanonical, Canonical, StoreAfter, Complete, ScansOk, JobOk, Whole, StageEffects, AllFound;
    if k.pc.next < |whole| {
      OneMoreStaged(whole, k.pc.next);
      EachCanonical(loc, whole, k.pc.next);
      StoreStages(loc, sys.store, whole[k.pc.next]);
    } else {
      assert whole[..k.pc.next] == whole;
    }
  }

  lemma EachCanonical(loc: Locale, es: seq<FileEntry>, i: nat)
    requires AllCanonical(loc, es) && i < |es|
    ensures Canonical(loc, es[i])
  {
  }

  lemma SwapTrace(loc: Locale, k: Worker, sys: Sys, seen: bool)
    requires Traced(loc, k, sys, seen) && k.pc.Swapping?
    ensures Advanced(loc, k, sys, seen)
  {
    hide AllCanonical, Canonical, StoreAfter, Complete, ScansOk, JobOk, Whole, StageEffects, BulkPool;
    StoreSwaps(loc, sys.store);
  }

  lemma PathTrace(loc: Locale, k: Worker, sys: Sys, seen: bool)
    requires Traced(loc, k, sys, seen) && (k.pc.PathCheck? || k.pc.PathScan? || k.pc.PathEnd?)
    ensures Advanced(loc, k, sys, seen)
  {
    hide AllCanonical, Canonical, StoreAfter, AddEffects, SomeAdds, Flat, BulkPool;
    SameEffects(loc, k, sys, seen);
    match k.pc
    case PathCheck(i) =>
      assert k.job.outputs[..|k.job.outputs|] == k.job.outputs;
    case PathScan(i) =>
      assert Upto(k.job, i) + k.scans[i].found[..0] == Upto(k.job, i);
    case PathEnd =>
  }

  lemma NextAddTrace(loc: Locale, k: Worker, sys: Sys, seen: bool)
    requires Traced(loc, k, sys, seen) && k.pc.PathAdd? && k.pc.next < |k.scans[k.pc.i].found|
    ensures Advanced(loc, k, sys, seen)
  {
    var PathAdd(i, n) := k.pc;
    hide AllCanonical, Canonical, StoreAfter, AddEffects, SomeAdds, JobOk, Upto, Complete, ScansOk;
    var found := k.scans[i].found;
    var es := Upto(k.job, i) + found[..n];
    assert Upto(k.job, i) + found[..n + 1] == es + [found[n]];
    OneMoreAdd(es, found[n]);
    StoreKeepsStaging(loc, sys.store, ApplyAdd(found[n]));
  }

  lemma LastAddTrace(loc: Locale, k: Worker, sys: Sys, seen: bool)
    requires Traced(loc, k, sys, seen) && k.pc.PathAdd? && k.pc.next == |k.scans[k.pc.i].found|
    ensures Advanced(loc, k, sys, seen)
  {
    var i := k.pc.i;
    var k' := Moved(k, sys, MoveOf(k, seen), seen);
    var found := k.scans[i].found;
    assert found[..k.pc.next] == found && k'.effects == k.effects + [] == k.effects;
    RootAdded(k, i);
    hide AllCanonical, Canonical, StoreAfter, AddEffects, SomeAdds, JobOk, Upto, Complete, Whole, ScansOk, Flat,
         AllFound;
    PrefixIsSome(k', Upto(k.job, i) + found);
    SameScans(k, k', i + 1);
  }

  /** A scan that is through has emitted all of its root, or the worker knows of the flag. */
  lemma RootAdded(k: Worker, i: nat)
    requires ScansOk(k) && Complete(k, i) && i < |k.scans| && k.scans[i].done
    ensures Upto(k.job, i) + k.scans[i].found <= Whole(k.job)
    ensures k.aware || (Complete(k, i + 1) && Upto(k.job, i + 1) == Upto(k.job, i) + k.scans[i].found)
  {
    FlatStep(k.job.outputs, i);
    PrefixGrows(Upto(k.job, i), k.scans[i].found, k.job.outputs[i], Whole(k.job));
  }

  lemma PrefixGrows<T>(a: seq<T>, b: seq<T>, c: seq<T>, all: seq<T>)
    requires b <= c && a + c <= all
    ensures a + b <= all
  {
    assert a + b == all[..|a + b|];
  }

  lemma RemoveTrace(loc: Locale, k: Worker, sys: Sys, seen: bool)
    requires Traced(loc, k, sys, seen) && (k.pc.Removing? || k.pc.StopRoots?)
    ensures Advanced(loc, k, sys, seen)
  {
    hide AllCanonical, Canonical, StoreAfter, RemoveEffects, JobOk, BulkPool, ScansOk;
    if k.pc.Removing? {
      var i := k.pc.i;
      if i < |k.job.roots| {
        OneMoreRemoved(k.job.roots, i);
        StoreKeepsStaging(loc, sys.store, RemoveEntriesUnderPath(k.job.roots[i]));
      } else {
        assert k.job.roots[..i] == k.job.roots;
      }
    }
  }

  lemma EndTrace(loc: Locale, k: Worker, sys: Sys, seen: bool)
    requires Traced(loc, k, sys, seen) && (k.pc.Saving? || k.pc.Monitoring? || k.pc.Signalling?)
    ensures Advanced(loc, k, sys, seen)
  {
    hide AllCanonical, Canonical, StoreAfter, FullWork, JobOk, BulkPool, ScansOk, CancelledTrace, Whole;
    if !k.pc.Saving? {
      hide FullTrace;
      SameEffects(loc, k, sys, seen);
    } else {
      assert (FullWork(k.job) + [Saved(sys.store.pool, sys.clean)])[..|FullWork(k.job)|] == FullWork(k.job);
    }
  }

  lemma AnyTrace(loc: Locale, k: Worker, sys: Sys, seen: bool)
    requires Traced(loc, k, sys, seen)
    ensures Advanced(loc, k, sys, seen)
  {
    assert k.pc.PathAdd? ==> k.pc.i < |k.scans| && k.pc.next <= |k.scans[k.pc.i].found|;
    assert !k.pc.Dead?;
    hide Traced, Advanced;
    match k.pc
    case Scanning => ScanTrace(loc, k, sys, seen);
    case Checking => ScanTrace(loc, k, sys, seen);
    case Beginning => BeginTrace(loc, k, sys, seen);
    case Staging(_) => StageTrace(loc, k, sys, seen);
    case Swapping => SwapTrace(loc, k, sys, seen);
    case PathCheck(_) => PathTrace(loc, k, sys, seen);
    case PathScan(_) => PathTrace(loc, k, sys, seen);
    case PathEnd => PathTrace(loc, k, sys, seen);
    case PathAdd(i, n) =>
      if n < |k.scans[i].found| {
        NextAddTrace(loc, k, sys, seen);
      } else {
        LastAddTrace(loc, k, sys, seen);
      }
    case Removing(_) => RemoveTrace(loc, k, sys, seen);
    case StopRoots => RemoveTrace(loc, k, sys, seen);
    case Saving => EndTrace(loc, k, sys, seen);
    case Monitoring(_, _) => EndTrace(loc, k, sys, seen);
    case Signalling => EndTrace(loc, k, sys, seen);
    case Dead =>
  }
}
