/**
 The invariant of the indexer's threads and what every run guarantees: one worker at a time, an
 account of what each has done, a deterministic rebuild, one watcher per root.
 */
module WorkerLifecycle {
  import opened Text
  import opened IndexPools
  import opened IndexStores
  import opened WorkerSteps
  import opened WorkerTraces
  import IndexSerializers
  import Persistence
  import RunningSums
  import RoundTrips

  // ---------------------------------------------------------------- one worker at a time

  /** The caller is past its check that nothing runs and has not yet created the thread. */
  predicate Launching(c: Caller) {
    c.Loading? || c.Counting? || c.Watching? || c.Resetting? || c.Arming? || c.Creating?
  }

  ghost predicate OneWorker(sys: Sys) {
    && (forall v, w :: 0 <= v < w < |sys.workers| ==> !(Alive(sys.workers[v]) && Alive(sys.workers[w])))
    && (forall w :: 0 <= w < |sys.workers| && Alive(sys.workers[w]) ==> !sys.signalled && !Launching(sys.caller))
    && (!sys.signalled ==> sys.caller.Creating? || exists w :: 0 <= w < |sys.workers| && Alive(sys.workers[w]))
    && (sys.caller.Creating? ==> !sys.signalled)
  }

  /** A step sets the event exactly when it ends the worker. */
  lemma SignalEnds(k: Worker, sys: Sys, seen: bool)
    requires StepReady(k)
    ensures Moved(k, sys, MoveOf(k, seen), seen).pc.Dead? <==> MoveOf(k, seen).Signal?
  {
    hide AllFound, AllDone;
  }

  /** What a worker's step leaves alone. */
  lemma StepFrame(loc: Locale, sys: Sys, w: nat, seen: bool)
    requires w < |sys.workers|
    ensures var t, m := WorkerStep(loc, sys, w, seen), MoveOf(sys.workers[w], seen);
            && t.caller == sys.caller && t.cancel == sys.cancel && t.cleared == sys.cleared
            && t.workers == sys.workers[w := Moved(sys.workers[w], sys, m, seen)]
            && t.signalled == (sys.signalled || m.Signal?)
  {
    hide MoveOf, StoreNext, WatchersNext, EffectOf;
  }

  lemma OneWorkerKeptByStep(loc: Locale, sys: Sys, w: nat, seen: bool)
    requires OneWorker(sys) && w < |sys.workers| && StepReady(sys.workers[w])
    ensures OneWorker(WorkerStep(loc, sys, w, seen))
  {
    hide MoveOf, WorkerStep, Moved, StepReady;
    var t := WorkerStep(loc, sys, w, seen);
    SignalEnds(sys.workers[w], sys, seen);
    StepFrame(loc, sys, w, seen);
    assert Alive(sys.workers[w]) by { ReadyIsLive(sys.workers[w]); }
    assert t.signalled || Alive(t.workers[w]);
  }

  lemma ReadyIsLive(k: Worker)
    requires StepReady(k)
    ensures Alive(k)
  {
  }

  lemma OneWorkerKept(loc: Locale, sys: Sys, a: Action)
    requires OneWorker(sys) && Enabled(loc, sys, a)
    ensures OneWorker(Next(loc, sys, a))
  {
    hide OpOk, JobOk, StoreAfter, WithWatcher, AllDone, WorkerStep, StepReady, NewWorker;
    var t := Next(loc, sys, a);
    if a.Step? {
      OneWorkerKeptByStep(loc, sys, a.w, a.seen);
    } else if a.ScanMore? || a.ScanEnd? {
      assert Alive(t.workers[a.w]);
    } else if a.CreateThread? {
      NewIsLive(sys.caller.job);
      assert Alive(t.workers[|sys.workers|]);
    }
  }

  lemma NewIsLive(job: Job)
    ensures Alive(NewWorker(job))
  {
  }

  // ---------------------------------------------------------------- the whole system

  ghost predicate NoRepeats(roots: seq<WString>) {
    forall i, j :: 0 <= i < j < |roots| ==> roots[i] != roots[j]
  }

  /** The worker has found the cancel flag clear and is about to take the watchers' lock. */
  predicate PastFlag(k: Worker) {
    k.pc.Monitoring? && k.pc.checked
  }

  /**
   After a Cancel has run to its end at most one watcher can still come to life: the worker that
   starts it took the lock, so it finds the flag set from then on.
   */
  ghost predicate ClearedInv(sys: Sys) {
    && (sys.caller.Clearing? ==> sys.cancel)
    && (forall w :: 0 <= w < |sys.workers| && Alive(sys.workers[w]) && sys.workers[w].aware ==> sys.cancel)
    && (sys.cleared ==>
      && sys.cancel
      && |sys.watchers| <= 1
      && (|sys.watchers| == 1 ==>
            forall w :: 0 <= w < |sys.workers| && Alive(sys.workers[w]) ==>
              sys.workers[w].aware && !PastFlag(sys.workers[w]))
      && !Launching(sys.caller))
  }

  ghost predicate WorkersOk(loc: Locale, sys: Sys) {
    && AllCanonical(loc, sys.store.staging)
    && (LaunchJob(sys.caller).Some? ==> JobOk(loc, LaunchJob(sys.caller).value))
    && (sys.caller.Loading? || sys.caller.Counting? ==> sys.caller.job.kind == Rebuild)
    && (forall w :: 0 <= w < |sys.workers| ==> WorkerOk(loc, sys.workers[w], sys.store, sys.clean))
  }

  ghost predicate Inv(loc: Locale, sys: Sys) {
    OneWorker(sys) && NoRepeats(sys.watchers) && ClearedInv(sys) && WorkersOk(loc, sys)
  }

  function LaunchJob(c: Caller): Option<Job> {
    if Launching(c) then Some(c.job) else None
  }

  lemma StartInv(loc: Locale, store: State, disk: Option<Pool>)
    requires AllCanonical(loc, store.staging)
    ensures Inv(loc, Start(store, disk))
  {
  }

  lemma WatcherAdded(watchers: seq<WString>, root: WString)
    requires NoRepeats(watchers)
    ensures NoRepeats(WithWatcher(watchers, root)) && |WithWatcher(watchers, root)| <= |watchers| + 1
  {
    var t := WithWatcher(watchers, root);
    if root !in watchers {
      forall i, j | 0 <= i < j < |t| ensures t[i] != t[j] {
        assert t[i] in watchers;
      }
    }
  }

  lemma {:induction false} WatchersRemoved(watchers: seq<WString>, roots: seq<WString>)
    requires NoRepeats(watchers)
    ensures var t := WithoutRoots(watchers, roots);
            && NoRepeats(t) && |t| <= |watchers|
            && (forall r :: r in t <==> r in watchers && r !in roots)
  {
    if watchers != [] {
      var front, last := watchers[..|watchers| - 1], watchers[|watchers| - 1];
      WatchersRemoved(front, roots);
      var rest := WithoutRoots(front, roots);
      assert forall r :: r in watchers <==> r in front || r == last;
      var longer: seq<WString> := rest + [last];
      forall i, j | 0 <= i < j < |longer| ensures longer[i] != longer[j] {
        if j == |rest| {
          assert rest[i] in front;
          var x :| 0 <= x < |front| && front[x] == rest[i];
          assert watchers[x] != watchers[|watchers| - 1];
        }
      }
    }
  }

  lemma WatchersKept(loc: Locale, sys: Sys, a: Action)
    requires NoRepeats(sys.watchers) && Enabled(loc, sys, a)
    ensures NoRepeats(Next(loc, sys, a).watchers)
  {
    hide NoRepeats, WithWatcher, WithoutRoots, OpOk, StoreNext, StoreAfter, AllFound, JobOk;
    NoneRepeats();
    if a.Step? {
      match MoveOf(sys.workers[a.w], a.seen)
      case Watch(root, _) => WatcherAdded(sys.watchers, root);
      case Unwatch(roots, _) => WatchersRemoved(sys.watchers, roots);
      case _ =>
    } else if a.CallerWatch? && sys.caller.j < |sys.caller.job.monitor| {
      WatcherAdded(sys.watchers, sys.caller.job.monitor[sys.caller.j]);
    }
  }

  lemma NoneRepeats()
    ensures NoRepeats([])
  {
  }

  lemma ClearedKept(loc: Locale, sys: Sys, a: Action)
    requires OneWorker(sys) && ClearedInv(sys) && Enabled(loc, sys, a)
    ensures ClearedInv(Next(loc, sys, a))
  {
    hide WithoutRoots, OpOk, StoreNext, StoreAfter, AllFound, JobOk, EffectOf, AllDone;
    if a.Step? {
      WatcherCounts(sys.watchers, MoveOf(sys.workers[a.w], a.seen));
    }
  }

  lemma WatcherCounts(watchers: seq<WString>, m: Move)
    ensures m.Watch? ==> |WatchersNext(watchers, m)| <= |watchers| + 1
    ensures !m.Watch? ==> |WatchersNext(watchers, m)| <= |watchers|
  {
    if m.Unwatch? {
      WithoutShorter(watchers, m.roots);
    }
  }

  lemma {:induction false} WithoutShorter(watchers: seq<WString>, roots: seq<WString>)
    ensures |WithoutRoots(watchers, roots)| <= |watchers|
  {
    if watchers != [] {
      WithoutShorter(watchers[..|watchers| - 1], roots);
    }
  }

  /** A dead worker's record is closed. */
  lemma DeadKept(loc: Locale, k: Worker, store: State, clean: bool, store': State, clean': bool)
    requires WorkerOk(loc, k, store, clean) && !Alive(k)
    ensures WorkerOk(loc, k, store', clean')
  {
  }

  /** A live worker minds only the staging buffer, and a pool it believes clean. */
  lemma LiveKept(loc: Locale, k: Worker, store: State, clean: bool, store': State, clean': bool)
    requires WorkerOk(loc, k, store, clean)
    requires store'.staging == store.staging && (clean' ==> clean && store'.pool == store.pool)
    ensures WorkerOk(loc, k, store', clean')
  {
    hide JobOk, FullTrace, CancelledTrace, SomeAdds, Complete, Whole, AddEffects, BulkPool, FullWork, StageEffects,
         RemoveEffects, Upto;
  }

  lemma ScanKept(loc: Locale, sys: Sys, w: nat, i: nat, scan: Scan, aware: bool)
    requires w < |sys.workers| && WorkerOk(loc, sys.workers[w], sys.store, sys.clean)
    requires ScanRuns(sys.workers[w], i) && scan.found <= sys.workers[w].job.outputs[i]
    requires scan.done ==> scan.found == sys.workers[w].job.outputs[i] || aware
    requires sys.workers[w].aware ==> aware
    ensures var k := sys.workers[w];
            WorkerOk(loc, k.(scans := k.scans[i := scan], aware := aware), sys.store, sys.clean)
  {
    hide JobOk, FullTrace, CancelledTrace, SomeAdds, AddEffects, BulkPool, FullWork, StageEffects, RemoveEffects, Flat;
  }

  lemma NewWorkerOk(loc: Locale, job: Job, store: State, clean: bool)
    requires JobOk(loc, job)
    ensures WorkerOk(loc, NewWorker(job), store, clean)
  {
    var k := NewWorker(job);
    assert job.outputs[..0] == [] && job.roots[..0] == [];
    if job.kind == AddPaths {
      PrefixIsSome(k, []);
    }
  }

  lemma WorkersKeptByStep(loc: Locale, sys: Sys, w: nat, seen: bool)
    requires OneWorker(sys) && WorkersOk(loc, sys)
    requires w < |sys.workers| && StepReady(sys.workers[w]) && CanSee(sys, sys.workers[w], seen)
    ensures WorkersOk(loc, WorkerStep(loc, sys, w, seen))
  {
    var k, t := sys.workers[w], WorkerStep(loc, sys, w, seen);
    assert Alive(k);
    AnyTrace(loc, k, sys, seen);
    hide StoreNext, MoveOf, TraceOk, JobOk, EffectOf, CleanNext, WatchersNext, AllCanonical, StepReady;
    forall v | 0 <= v < |t.workers| ensures WorkerOk(loc, t.workers[v], t.store, t.clean) {
      if v != w {
        DeadKept(loc, sys.workers[v], sys.store, sys.clean, t.store, t.clean);
      } else {
        ScansMoved(k, Moved(k, sys, MoveOf(k, seen), seen));
      }
    }
  }

  lemma ScansMoved(k: Worker, k': Worker)
    requires ScansOk(k) && k'.job == k.job && k'.scans == k.scans && (k.aware ==> k'.aware)
    ensures ScansOk(k')
  {
  }

  lemma WorkersKept(loc: Locale, sys: Sys, a: Action)
    requires OneWorker(sys) && WorkersOk(loc, sys) && Enabled(loc, sys, a)
    ensures WorkersOk(loc, Next(loc, sys, a))
  {
    hide OpOk, StoreNext, MoveOf, WorkerOk, JobOk, StoreAfter, AllCanonical, WithWatcher, WithoutRoots, StepReady,
         WorkerStep;
    if a.Step? {
      WorkersKeptByStep(loc, sys, a.w, a.seen);
    } else if a.CreateThread? {
      NewWorkerOk(loc, sys.caller.job, sys.store, sys.clean);
    } else if a.ScanMore? {
      ScanGrows(loc, sys, a.w, a.i);
    } else if a.ScanEnd? {
      ScanCloses(loc, sys, a.w, a.i);
    } else {
      WorkersUnmoved(loc, sys, a);
    }
  }

  /** The caller and the watchers leave every worker's record right. */
  lemma WorkersUnmoved(loc: Locale, sys: Sys, a: Action)
    requires OneWorker(sys) && WorkersOk(loc, sys) && Enabled(loc, sys, a)
    requires !a.Step? && !a.CreateThread? && !a.ScanMore? && !a.ScanEnd?
    ensures WorkersOk(loc, Next(loc, sys, a))
  {
    hide OpOk, MoveOf, WorkerOk, JobOk, StoreAfter, AllCanonical, WithWatcher, StepReady, WorkerStep, EffectOf;
    var t := Next(loc, sys, a);
    if a.Change? {
      StoreKeepsStaging(loc, sys.store, a.op);
    }
    forall w | 0 <= w < |sys.workers| ensures WorkerOk(loc, sys.workers[w], t.store, t.clean) {
      LiveKept(loc, sys.workers[w], sys.store, sys.clean, t.store, t.clean);
    }
  }

  lemma ScanGrows(loc: Locale, sys: Sys, w: nat, i: nat)
    requires WorkersOk(loc, sys) && Enabled(loc, sys, ScanMore(w, i))
    ensures WorkersOk(loc, Next(loc, sys, ScanMore(w, i)))
  {
    var k := sys.workers[w];
    var n := |k.scans[i].found|;
    assert WorkerOk(loc, k, sys.store, sys.clean);
    assert k.scans[i].found + [k.job.outputs[i][n]] == k.job.outputs[i][..n + 1] <= k.job.outputs[i];
    assert ScanRuns(k, i);
    hide WorkerOk, JobOk, AllCanonical, TraceOk, ScansOk;
    ScanKept(loc, sys, w, i, Scan(k.scans[i].found + [k.job.outputs[i][n]], false), k.aware);
    hide WorkerOk, JobOk, AllCanonical;
  }

  lemma ScanCloses(loc: Locale, sys: Sys, w: nat, i: nat)
    requires WorkersOk(loc, sys) && Enabled(loc, sys, ScanEnd(w, i))
    ensures WorkersOk(loc, Next(loc, sys, ScanEnd(w, i)))
  {
    var k := sys.workers[w];
    assert WorkerOk(loc, k, sys.store, sys.clean);
    ScanKept(loc, sys, w, i, k.scans[i].(done := true), k.aware || k.scans[i].found != k.job.outputs[i]);
    hide WorkerOk, JobOk, AllCanonical;
  }

  /** Every step of every thread keeps the invariant. */
  lemma StepKeepsInv(loc: Locale, sys: Sys, a: Action)
    requires Inv(loc, sys) && Enabled(loc, sys, a)
    ensures Inv(loc, Next(loc, sys, a))
  {
    hide Enabled, Next, OneWorker, NoRepeats, ClearedInv, WorkersOk;
    OneWorkerKept(loc, sys, a);
    WatchersKept(loc, sys, a);
    ClearedKept(loc, sys, a);
    WorkersKept(loc, sys, a);
  }

  lemma {:induction false} RunKeepsInv(loc: Locale, sys: Sys, actions: seq<Action>, end: Sys)
    requires Inv(loc, sys) && Run(loc, sys, actions, end)
    ensures Inv(loc, end)
    decreases |actions|
  {
    hide Inv, Enabled, Next;
    if actions != [] {
      StepKeepsInv(loc, sys, actions[0]);
      RunKeepsInv(loc, Next(loc, sys, actions[0]), actions[1..], end);
    }
  }

  // ---------------------------------------------------------------- what every run guarantees

  /** At most one worker lives, and the event is unsignalled exactly from its arming until that worker signals. */
  lemma AtMostOneWorker(
      loc: Locale, store: State, disk: Option<Pool>, actions: seq<Action>, end: Sys)
    requires AllCanonical(loc, store.staging) && Run(loc, Start(store, disk), actions, end)
    ensures forall v, w :: 0 <= v < w < |end.workers| ==> !(Alive(end.workers[v]) && Alive(end.workers[w]))
    ensures !end.signalled <==> end.caller.Creating? || exists w :: 0 <= w < |end.workers| && Alive(end.workers[w])
  {
    hide Run, WorkersOk, ClearedInv;
    StartInv(loc, store, disk);
    RunKeepsInv(loc, Start(store, disk), actions, end);
  }

  lemma WatcherRootsDistinct(
      loc: Locale, store: State, disk: Option<Pool>, actions: seq<Action>, end: Sys)
    requires AllCanonical(loc, store.staging) && Run(loc, Start(store, disk), actions, end)
    ensures NoRepeats(end.watchers)
    ensures end.cleared ==> |end.watchers| <= 1
  {
    hide Run, WorkersOk, OneWorker;
    StartInv(loc, store, disk);
    RunKeepsInv(loc, Start(store, disk), actions, end);
  }

  /**
   A worker that has signalled either did all its work and saved, or was cancelled: a cancelled
   rebuild has touched neither store nor disk, a cancelled addition has saved nothing.
   */
  lemma EveryWorkerAccounts(
      loc: Locale, store: State, disk: Option<Pool>, actions: seq<Action>, end: Sys, w: nat)
    requires AllCanonical(loc, store.staging) && Run(loc, Start(store, disk), actions, end)
    requires w < |end.workers| && !Alive(end.workers[w])
    ensures FullTrace(loc, end.workers[w]) || CancelledTrace(end.workers[w])
    ensures JobOk(loc, end.workers[w].job)
  {
    hide Run, ClearedInv, OneWorker, FullTrace, CancelledTrace, JobOk;
    StartInv(loc, store, disk);
    RunKeepsInv(loc, Start(store, disk), actions, end);
    assert WorkerOk(loc, end.workers[w], end.store, end.clean);
  }

  /**
   In whatever order the drive threads ran, between EndWrite and the next change the index is the
   concatenation of the drives' scans in drive order.
   */
  lemma RebuildIsDeterministic(
      loc: Locale, store: State, disk: Option<Pool>, actions: seq<Action>, end: Sys, w: nat)
    requires AllCanonical(loc, store.staging) && Run(loc, Start(store, disk), actions, end)
    requires w < |end.workers| && end.workers[w].job.kind == Rebuild && end.workers[w].pc.Saving? && end.clean
    requires HasRoom(BulkPool(loc, Whole(end.workers[w].job)))
    ensures end.store.pool == BulkPool(loc, Whole(end.workers[w].job))
    ensures IndexPools.Live(end.store.pool) == RecordsFor(Whole(end.workers[w].job))
    ensures RunningSums.Dense(end.store.pool.meta)
  {
    hide Run, ClearedInv, OneWorker, JobOk, ScansOk, TraceOk, BulkPool, Whole, HasRoom;
    StartInv(loc, store, disk);
    RunKeepsInv(loc, Start(store, disk), actions, end);
    var k := end.workers[w];
    assert WorkerOk(loc, k, end.store, end.clean);
    hide *;
    SavingIsBulk(loc, k, end.store.staging, end.store.pool);
    BulkMeans(loc, k.job);
  }

  lemma SavingIsBulk(loc: Locale, k: Worker, staging: seq<FileEntry>, pool: Pool)
    requires TraceOk(loc, k, staging, pool, true) && k.job.kind == Rebuild && k.pc.Saving?
    ensures pool == BulkPool(loc, Whole(k.job))
  {
    hide BulkPool, Whole;
  }

  lemma BulkMeans(loc: Locale, job: Job)
    requires JobOk(loc, job) && HasRoom(BulkPool(loc, Whole(job)))
    ensures IndexPools.Live(BulkPool(loc, Whole(job))) == RecordsFor(Whole(job))
    ensures RunningSums.Dense(BulkPool(loc, Whole(job)).meta)
  {
    FlatCanonical(loc, job.outputs);
    hide FromEntries, RunningSums.Dense, RecordsFor, Canonical, IndexPools.Live, HasRoom;
    FromEntriesRefines(loc, Whole(job));
    Persistence.BulkWriteIsDense(loc, Whole(job));
  }

  /** The worker's last act was a save with no change to the pool since EndWrite. */
  predicate SavedUndisturbed(k: Worker) {
    k.effects != [] && k.effects[|k.effects| - 1].Saved? && k.effects[|k.effects| - 1].clean
  }

  function SavedPool(k: Worker): Pool {
    if k.effects != [] && k.effects[|k.effects| - 1].Saved? then k.effects[|k.effects| - 1].pool else EMPTY
  }

  /** Saved with any USN map of the format's limits, in any order and at any time, p loads back as these records. */
  ghost predicate Reloads(loc: Locale, p: Pool, rs: seq<Record>) {
    forall order: seq<WString>, usn: map<WString, U64>, ts: U64, before: IndexSerializers.Outcome ::
      IndexSerializers.IsOrder(order, usn) && RoundTrips.UsnFits(usn) && before.usn == map[] ==>
        var o := IndexSerializers.Deserialized(loc, IndexSerializers.FileOf(p, order, usn, ts), before);
        o.status == IndexSerializers.Ok && o.usn == usn && IndexPools.Live(o.pool) == rs
  }

  /** What a rebuild saved before any watcher interfered loads back as exactly its scans. */
  lemma RebuildThenLoad(
      loc: Locale, store: State, disk: Option<Pool>, actions: seq<Action>, end: Sys, w: nat)
    requires AllCanonical(loc, store.staging) && Run(loc, Start(store, disk), actions, end)
    requires w < |end.workers| && end.workers[w].job.kind == Rebuild && !Alive(end.workers[w])
    requires SavedUndisturbed(end.workers[w])
    requires HasRoom(SavedPool(end.workers[w])) && |Whole(end.workers[w].job)| < U32_LIMIT
    ensures Reloads(loc, SavedPool(end.workers[w]), RecordsFor(Whole(end.workers[w].job)))
  {
    hide *;
    EveryWorkerAccounts(loc, store, disk, actions, end, w);
    SavedIsBulk(loc, end.workers[w]);
    BulkReloads(loc, end.workers[w].job);
  }

  lemma SavedIsBulk(loc: Locale, k: Worker)
    requires k.job.kind == Rebuild && SavedUndisturbed(k) && (FullTrace(loc, k) || CancelledTrace(k))
    ensures SavedPool(k) == BulkPool(loc, Whole(k.job))
  {
    hide BulkPool, Whole, FullWork;
  }

  lemma BulkReloads(loc: Locale, job: Job)
    requires JobOk(loc, job) && HasRoom(BulkPool(loc, Whole(job))) && |Whole(job)| < U32_LIMIT
    ensures Reloads(loc, BulkPool(loc, Whole(job)), RecordsFor(Whole(job)))
  {
    FlatCanonical(loc, job.outputs);
    hide IndexSerializers.FileOf, IndexSerializers.Deserialized, FromEntries, RecordsFor, IndexPools.Live, Canonical,
         Flat, HasRoom;
    forall order: seq<WString>, usn: map<WString, U64>, ts: U64, before: IndexSerializers.Outcome |
      IndexSerializers.IsOrder(order, usn) && RoundTrips.UsnFits(usn) && before.usn == map[]
      ensures var o := IndexSerializers.Deserialized(
                loc, IndexSerializers.FileOf(BulkPool(loc, Whole(job)), order, usn, ts), before);
              o.status == IndexSerializers.Ok && o.usn == usn && IndexPools.Live(o.pool) == RecordsFor(Whole(job))
    {
      Persistence.BulkWriteRoundTrip(loc, Whole(job), order, usn, ts, before);
    }
  }

  // ---------------------------------------------------------------- the watcher list as an object

  /** The roots of the list that have a watcher after `StartWatchersForRoots`, in order. */
  function AllWatched(watchers: seq<WString>, roots: seq<WString>): seq<WString> {
    if roots == [] then watchers
    else WithWatcher(AllWatched(watchers, roots[..|roots| - 1]), roots[|roots| - 1])
  }

  class WatcherList {
    var watchers: seq<WString>

    constructor ()
      ensures watchers == []
    {
      watchers := [];
    }

    /** Each poll of the cancel flag may end the loop; the roots before it are watched. */
    method StartWatchersForRoots(roots: seq<WString>, cancelAt: Option<nat>)
      requires NoRepeats(watchers)
      modifies this
      ensures NoRepeats(watchers)
      ensures var n := if cancelAt.Some? && cancelAt.value < |roots| then cancelAt.value else |roots|;
              watchers == AllWatched(old(watchers), roots[..n])
    {
      for i := 0 to |roots|
        invariant cancelAt.Some? ==> i <= cancelAt.value
        invariant NoRepeats(watchers) && watchers == AllWatched(old(watchers), roots[..i])
      {
        if cancelAt.Some? && cancelAt.value <= i {
          return;
        }
        WatcherAdded(watchers, roots[i]);
        assert roots[..i + 1][..i] == roots[..i];
        if roots[i] in watchers {
          continue;
        }
        watchers := watchers + [roots[i]];
      }
    }

    method StopWatchersForRoots(roots: seq<WString>)
      requires NoRepeats(watchers)
      modifies this
      ensures NoRepeats(watchers) && watchers == WithoutRoots(old(watchers), roots)
      ensures forall r :: r in watchers <==> r in old(watchers) && r !in roots
    {
      WatchersRemoved(watchers, roots);
      var kept: seq<WString> := [];
      for i := 0 to |watchers|
        invariant watchers == old(watchers) && kept == WithoutRoots(watchers[..i], roots)
      {
        assert watchers[..i + 1][..i] == watchers[..i];
        if watchers[i] !in roots {
          kept := kept + [watchers[i]];
        }
      }
      assert watchers[..|watchers|] == watchers;
      watchers := kept;
    }
  }
}
