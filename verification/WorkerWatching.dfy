/**
 What the workers and a loaded start leave behind: the watchers, in order, the work done, the file.
 */
module WorkerWatching {
  import opened Text
  import opened IndexPools
  import opened IndexStores
  import opened WorkerSteps
  import opened WorkerTraces
  import opened WorkerLifecycle
  import opened WorkerRuns
  import opened WorkerWatchSteps

  /**
   A worker starts or finds watchers for the roots it was given to watch, each once and in their
   order: for all of them when it never learnt of a set flag, for a first part of them otherwise,
   and a removal for none.
   */
  lemma WatchesInOrder(loc: Locale, sys: Sys, actions: seq<Action>, end: Sys, w: nat)
    requires Run(loc, sys, actions, end) && |sys.workers| <= w < |end.workers|
    ensures var k, roots := end.workers[w], Locked(loc, sys, actions, w);
            && roots <= k.job.monitor
            && (k.job.kind == RemovePaths ==> roots == [])
            && (k.job.kind != RemovePaths && !Alive(k) && !k.aware ==> roots == k.job.monitor)
  {
    hide Run, Locked;
    RunLocks(loc, sys, actions, end, w, []);
    assert [] + Locked(loc, sys, actions, w) == Locked(loc, sys, actions, w);
  }

  /**
   A rebuild or an addition that never learnt of a set flag leaves every root it was given watched,
   unless a Cancel or a removal of that root came in between.
   */
  lemma FinishedWorkerWatches(
      loc: Locale, sys: Sys, actions: seq<Action>, end: Sys, w: nat, root: WString)
    requires Run(loc, sys, actions, end) && |sys.workers| <= w < |end.workers|
    requires var k := end.workers[w];
             !Alive(k) && !k.aware && k.job.kind != RemovePaths && root in k.job.monitor
    requires Spared(loc, sys, actions, root)
    ensures root in end.watchers
  {
    hide Run, Locked, Spared;
    WatchesInOrder(loc, sys, actions, end, w);
    SparedStays(loc, sys, actions, end, w, root);
  }

  /**
   A removal leaves none of its roots watched: not when it has stopped their watchers, and not
   afterwards, until the next start.
   */
  lemma RemovedRootsUnwatched(loc: Locale, store: State, disk: Option<Pool>, before: seq<Action>, sys: Sys,
                              actions: seq<Action>, end: Sys, w: nat)
    requires AllCanonical(loc, store.staging) && Run(loc, Start(store, disk), before, sys)
    requires w < |sys.workers| && Alive(sys.workers[w]) && sys.workers[w].job.kind == RemovePaths
    requires Run(loc, sys, actions, end) && NoStarts(actions)
    ensures w < |end.workers|
    ensures var k := end.workers[w];
            (k.pc.Saving? || k.pc.Signalling? || k.pc.Dead?) ==> forall r :: r in k.job.roots ==> r !in end.watchers
  {
    hide Run, NoStarts, WorkersOk, ClearedInv;
    var start := Start(store, disk);
    StartInv(loc, store, disk);
    RunKeepsInv(loc, start, before, sys);
    RunKeepsRemovals(loc, start, before, sys);
    LivesAlone(sys, w);
    hide OneWorker;
    RemovalRun(loc, sys, actions, end, w);
  }

  /**
   A job nobody cancels is done: when the event is signalled, one worker has run it, has done all of
   its work on the store, has saved, and leaves exactly the watchers found together with those of
   the roots to watch; or, for a removal, without those of its roots.
   */
  lemma UncancelledJobIsDone(loc: Locale, store: State, disk: Option<Pool>, before: seq<Action>, sys: Sys,
                             actions: seq<Action>, end: Sys)
    requires AllCanonical(loc, store.staging) && Run(loc, Start(store, disk), before, sys) && sys.caller.Resetting?
    requires Run(loc, sys, actions, end) && NoStarts(actions) && NoCancels(actions)
    requires end.caller.Idle? && end.signalled
    ensures |end.workers| == |sys.workers| + 1
    ensures var k := end.workers[|sys.workers|];
            && k.job == sys.caller.job && !Alive(k) && !k.aware
            && FullTrace(loc, k) && end.disk == Some(SavedPool(k))
    ensures var job := sys.caller.job;
            end.watchers == if job.kind == RemovePaths then WithoutRoots(sys.watchers, job.roots)
                            else AllWatched(sys.watchers, job.monitor)
  {
    hide Run, NoStarts, NoCancels, NoRepeats, ClearedInv, Uncancelled, OneWorker, FullTrace, JobOk, ScansOk, WorkersOk,
         DiskOk;
    assert DiskOk(Start(store, disk), disk) by { StartDisk(store, disk); }
    var n, job := |sys.workers|, sys.caller.job;
    StartInv(loc, store, disk);
    RunKeepsInv(loc, Start(store, disk), before, sys);
    RunKeepsInv(loc, sys, actions, end);
    ResettingAlone(loc, sys);
    UncancelledRun(loc, sys, actions, end, n, job, sys.watchers);
    SignalledIsDead(end, n, job, sys.watchers);
    WorkerIsOk(loc, end, n);
    RunKeepsDisk(loc, Start(store, disk), before, sys, disk);
    RunKeepsDisk(loc, sys, actions, end, disk);
    SavedOnDisk(loc, end, disk);
  }

  /** The watchers found stay where they are, and a root is watched exactly when it was or is in the list. */
  lemma {:induction false} WatchedIff(watchers: seq<WString>, roots: seq<WString>, root: WString)
    ensures watchers <= AllWatched(watchers, roots)
    ensures root in AllWatched(watchers, roots) <==> root in watchers || root in roots
  {
    if roots != [] {
      var n := |roots| - 1;
      WatchedIff(watchers, roots[..n], root);
      assert roots == roots[..n] + [roots[n]];
    }
  }

  /** What doing all the work comes to, effect by effect and then the save. */
  lemma WorkInOrder(loc: Locale, k: Worker)
    requires FullTrace(loc, k)
    ensures k.job.kind == AddPaths ==>
              && |k.effects| == |Flat(k.job.outputs)| + 1
              && forall i :: 0 <= i < |k.effects| - 1 ==> k.effects[i] == Did(ApplyAdd(Flat(k.job.outputs)[i]))
    ensures k.job.kind == RemovePaths ==>
              && |k.effects| == |k.job.roots| + 1
              && forall i :: 0 <= i < |k.effects| - 1 ==> k.effects[i] == Did(RemoveEntriesUnderPath(k.job.roots[i]))
    ensures k.job.kind == Rebuild ==>
              && |k.effects| == |Flat(k.job.outputs)| + 3
              && k.effects[0] == Did(BeginWrite) && k.effects[|k.effects| - 2] == Did(EndWrite)
              && forall i :: 1 <= i < |k.effects| - 2 ==> k.effects[i] == Did(StageEntry(Flat(k.job.outputs)[i - 1]))
    ensures k.effects != [] && k.effects[|k.effects| - 1].Saved?
  {
    hide BulkPool, Flat;
    var full := FullWork(k.job);
    assert forall i :: 0 <= i < |full| ==> k.effects[i] == full[i];
  }

  /** In every run the index file holds what the last worker to save has saved. */
  lemma DiskIsLastSave(loc: Locale, store: State, disk: Option<Pool>, actions: seq<Action>, end: Sys)
    requires AllCanonical(loc, store.staging) && Run(loc, Start(store, disk), actions, end)
    ensures end.disk == LastSaved(disk, end.workers)
    ensures forall w :: 0 <= w < |end.workers| - 1 ==> !Alive(end.workers[w])
  {
    hide Run, Inv;
    StartInv(loc, store, disk);
    assert DiskOk(Start(store, disk), disk);
    RunKeepsDisk(loc, Start(store, disk), actions, end, disk);
  }

  /**
   A start that keeps the loaded index clears no cancel flag, as one that rebuilds does: it watches
   its roots exactly when the flag is clear, and leaves the watchers as they were when it is set.
   */
  lemma LoadedStartWatches(loc: Locale, store: State, disk: Option<Pool>, before: seq<Action>, sys: Sys,
                           actions: seq<Action>, end: Sys)
    requires AllCanonical(loc, store.staging) && Run(loc, Start(store, disk), before, sys) && sys.caller.Counting?
    requires Run(loc, sys, actions, end) && NoStarts(actions) && NoCancels(actions)
    requires end.caller.Idle? && |end.workers| == |sys.workers|
    ensures end.watchers == if sys.cancel then sys.watchers else AllWatched(sys.watchers, sys.caller.job.monitor)
    ensures (forall r :: r in sys.caller.job.monitor ==> r in end.watchers) <==>
              !sys.cancel || forall r :: r in sys.caller.job.monitor ==> r in sys.watchers
  {
    hide Run, NoStarts, NoCancels, Inv, AllWatched;
    StartInv(loc, store, disk);
    RunKeepsInv(loc, Start(store, disk), before, sys);
    CountingAlone(loc, sys);
    LoadRun(loc, sys, actions, end, |sys.workers|, sys.caller.job, sys.watchers, sys.cancel);
    forall r ensures r in AllWatched(sys.watchers, sys.caller.job.monitor)
                     <==> r in sys.watchers || r in sys.caller.job.monitor {
      WatchedIff(sys.watchers, sys.caller.job.monitor, r);
    }
  }
}
