/**
 The steps behind WorkerWatching: what one step of any thread does to the roots a worker has
 watched, to the watchers, and to the index file, and so what whole runs do.

 Each section holds one property at every point of a worker's body or of a call.
 */
module WorkerWatchSteps {
  import opened Text
  import opened IndexPools
  import opened IndexStores
  import opened WorkerSteps
  import opened WorkerTraces
  import opened WorkerLifecycle
  import opened WorkerRuns

  // ---------------------------------------------------------------- the roots a worker watches

  /** The root for which worker w takes the watchers' lock in this step, to start a watcher unless there is one. */
  function RootLocked(sys: Sys, a: Action, w: nat): seq<WString> {
    if a.Step? && a.w == w && w < |sys.workers| && MoveOf(sys.workers[w], a.seen).Watch?
    then [MoveOf(sys.workers[w], a.seen).root] else []
  }

  /** All of them along a run, in order. */
  ghost function Locked(loc: Locale, sys: Sys, actions: seq<Action>, w: nat): seq<WString>
    decreases |actions|
  {
    if actions == [] || !Enabled(loc, sys, actions[0]) then []
    else RootLocked(sys, actions[0], w) + Locked(loc, Next(loc, sys, actions[0]), actions[1..], w)
  }

  /** The roots watched so far, at each point of the worker's body. */
  ghost predicate LockedOk(k: Worker, roots: seq<WString>) {
    && (k.job.kind == RemovePaths ==> roots == [])
    && match k.pc
       case Monitoring(j, _) => k.job.kind != RemovePaths && j <= |k.job.monitor| && roots == k.job.monitor[..j]
       case Signalling => Closed(k, roots)
       case Dead => Closed(k, roots)
       case _ => roots == []
  }

  ghost predicate Closed(k: Worker, roots: seq<WString>) {
    roots <= k.job.monitor && (!k.aware && k.job.kind != RemovePaths ==> roots == k.job.monitor)
  }

  ghost predicate LockedAt(sys: Sys, w: nat, roots: seq<WString>) {
    if w < |sys.workers| then LockedOk(sys.workers[w], roots) else roots == []
  }

  lemma MoveLocks(k: Worker, sys: Sys, seen: bool, roots: seq<WString>)
    requires LockedOk(k, roots) && StepReady(k)
    ensures var m := MoveOf(k, seen);
            LockedOk(Moved(k, sys, m, seen), roots + if m.Watch? then [m.root] else [])
  {
    hide EffectOf, AllFound, AllDone;
    assert roots + [] == roots;
  }

  lemma StepLocks(loc: Locale, sys: Sys, a: Action, w: nat, roots: seq<WString>)
    requires Enabled(loc, sys, a) && LockedAt(sys, w, roots)
    ensures LockedAt(Next(loc, sys, a), w, roots + RootLocked(sys, a, w))
  {
    hide StoreAfter, OpOk, JobOk, WorkerStep, WithWatcher, StepReady, MoveOf, Moved;
    assert roots + [] == roots;
    if a.Step? {
      StepFrame(loc, sys, a.w, a.seen);
      if a.w == w {
        MoveLocks(sys.workers[w], sys, a.seen, roots);
      }
    }
  }

  lemma {:induction false} RunLocks(
      loc: Locale, sys: Sys, actions: seq<Action>, end: Sys, w: nat, roots: seq<WString>)
    requires Run(loc, sys, actions, end) && LockedAt(sys, w, roots)
    ensures LockedAt(end, w, roots + Locked(loc, sys, actions, w))
    decreases |actions|
  {
    if actions == [] {
      assert roots + [] == roots;
    } else {
      var a := actions[0];
      var next, now := Next(loc, sys, a), RootLocked(sys, a, w);
      StepLocks(loc, sys, a, w, roots);
      hide Enabled, Next, RootLocked, LockedAt;
      RunLocks(loc, next, actions[1..], end, w, roots + now);
      assert roots + now + Locked(loc, next, actions[1..], w) == roots + (now + Locked(loc, next, actions[1..], w));
    }
  }

  // ---------------------------------------------------------------- watchers stay until they are stopped

  /** Cancel drops all watchers, and a removal those of its roots. */
  predicate Stops(sys: Sys, a: Action, root: WString) {
    || a.StopAll?
    || (a.Step? && a.w < |sys.workers| && sys.workers[a.w].pc.StopRoots? && root in sys.workers[a.w].job.roots)
  }

  ghost predicate Spared(loc: Locale, sys: Sys, actions: seq<Action>, root: WString)
    decreases |actions|
  {
    actions != [] && Enabled(loc, sys, actions[0]) ==>
      !Stops(sys, actions[0], root) && Spared(loc, Next(loc, sys, actions[0]), actions[1..], root)
  }

  lemma {:induction false} OthersStay(watchers: seq<WString>, roots: seq<WString>, root: WString)
    ensures root in WithoutRoots(watchers, roots) <==> root in watchers && root !in roots
  {
    if watchers != [] {
      var n := |watchers| - 1;
      OthersStay(watchers[..n], roots, root);
      assert watchers == watchers[..n] + [watchers[n]];
    }
  }

  /** A step leaves a root watched, or makes it so, unless it stops it. */
  lemma StepKeepsWatched(loc: Locale, sys: Sys, a: Action, root: WString, w: nat)
    requires Enabled(loc, sys, a) && !Stops(sys, a, root)
    requires root in sys.watchers || root in RootLocked(sys, a, w)
    ensures root in Next(loc, sys, a).watchers
  {
    hide StoreAfter, OpOk, JobOk, WithoutRoots, StoreNext, EffectOf, AllFound, AllDone;
    if a.Step? {
      OthersStay(sys.watchers, sys.workers[a.w].job.roots, root);
    }
  }

  lemma {:induction false} SparedStays(
      loc: Locale, sys: Sys, actions: seq<Action>, end: Sys, w: nat, root: WString)
    requires Run(loc, sys, actions, end) && Spared(loc, sys, actions, root)
    requires root in sys.watchers || root in Locked(loc, sys, actions, w)
    ensures root in end.watchers
    decreases |actions|
  {
    if actions != [] {
      var a := actions[0];
      var next := Next(loc, sys, a);
      if root in sys.watchers || root in RootLocked(sys, a, w) {
        StepKeepsWatched(loc, sys, a, root, w);
      }
      hide Enabled, Next, RootLocked, Stops;
      SparedStays(loc, next, actions[1..], end, w, root);
    }
  }

  // ---------------------------------------------------------------- a removal leaves none of its roots watched

  /** Worker w removes; nobody else runs or is about to; past StopRoots none of its roots is watched. */
  ghost predicate RemovesAlone(sys: Sys, w: nat) {
    && w < |sys.workers| && sys.workers[w].job.kind == RemovePaths && !Launching(sys.caller)
    && (forall v :: 0 <= v < |sys.workers| && v != w ==> !Alive(sys.workers[v]))
    && RemovalPoint(sys.workers[w], sys.watchers)
  }

  ghost predicate RemovalPoint(k: Worker, watchers: seq<WString>) {
    match k.pc
    case Removing(_) => true
    case StopRoots => true
    case Saving => NoneOf(k.job.roots, watchers)
    case Signalling => NoneOf(k.job.roots, watchers)
    case Dead => NoneOf(k.job.roots, watchers)
    case _ => false
  }

  ghost predicate NoneOf(roots: seq<WString>, watchers: seq<WString>) {
    forall r :: r in roots ==> r !in watchers
  }

  lemma RootsStopped(watchers: seq<WString>, roots: seq<WString>)
    ensures NoneOf(roots, WithoutRoots(watchers, roots))
  {
    forall r | r in roots ensures r !in WithoutRoots(watchers, roots) {
      OthersStay(watchers, roots, r);
    }
  }

  lemma RemovalMoves(k: Worker, sys: Sys, seen: bool)
    requires k.job.kind == RemovePaths && StepReady(k) && RemovalPoint(k, sys.watchers)
    ensures var m := MoveOf(k, seen);
            RemovalPoint(Moved(k, sys, m, seen), WatchersNext(sys.watchers, m))
  {
    hide EffectOf, NoneOf, WithoutRoots, AllFound;
    RootsStopped(sys.watchers, k.job.roots);
  }

  lemma StepWatchers(loc: Locale, sys: Sys, w: nat, seen: bool)
    requires w < |sys.workers|
    ensures WorkerStep(loc, sys, w, seen).watchers == WatchersNext(sys.watchers, MoveOf(sys.workers[w], seen))
    ensures WorkerStep(loc, sys, w, seen).disk
            == if MoveOf(sys.workers[w], seen).Save? then Some(sys.store.pool) else sys.disk
  {
    hide StoreNext, MoveOf, WatchersNext;
  }

  lemma RemovalStep(loc: Locale, sys: Sys, a: Action, w: nat)
    requires RemovesAlone(sys, w) && Enabled(loc, sys, a) && NoStart(a)
    ensures RemovesAlone(Next(loc, sys, a), w)
  {
    hide StoreAfter, OpOk, JobOk, WorkerStep, StepReady, MoveOf, Moved, WatchersNext;
    if a.Step? {
      ReadyIsLive(sys.workers[a.w]);
      StepFrame(loc, sys, w, a.seen);
      StepWatchers(loc, sys, w, a.seen);
      RemovalMoves(sys.workers[w], sys, a.seen);
      assert Moved(sys.workers[w], sys, MoveOf(sys.workers[w], a.seen), a.seen).job == sys.workers[w].job by {
        hide *;
        MovedKeepsJob(sys.workers[w], sys, a.seen);
      }
    }
  }

  lemma MovedKeepsJob(k: Worker, sys: Sys, seen: bool)
    ensures Moved(k, sys, MoveOf(k, seen), seen).job == k.job
  {
    hide MoveOf, EffectOf;
  }

  lemma {:induction false} RemovalRun(loc: Locale, sys: Sys, actions: seq<Action>, end: Sys, w: nat)
    requires RemovesAlone(sys, w) && Run(loc, sys, actions, end) && NoStarts(actions)
    ensures RemovesAlone(end, w)
    decreases |actions|
  {
    if actions != [] {
      hide Enabled, Next, NoStart, NoStarts, RemovesAlone;
      NoStartsRest(actions);
      RemovalStep(loc, sys, actions[0], w);
      RemovalRun(loc, Next(loc, sys, actions[0]), actions[1..], end, w);
    }
  }

  ghost predicate RemovalsOk(sys: Sys) {
    forall w :: 0 <= w < |sys.workers| && Alive(sys.workers[w]) && sys.workers[w].job.kind == RemovePaths ==>
      RemovalPoint(sys.workers[w], sys.watchers)
  }

  /** A live worker is alone, with the caller not on its way to another. */
  lemma LivesAlone(sys: Sys, w: nat)
    requires OneWorker(sys) && w < |sys.workers| && Alive(sys.workers[w])
    ensures !Launching(sys.caller)
    ensures forall v :: 0 <= v < |sys.workers| && v != w ==> !Alive(sys.workers[v])
  {
    hide Alive, Launching;
  }

  lemma StartsAreLive(loc: Locale, sys: Sys, a: Action, w: nat)
    requires Enabled(loc, sys, a) && w < |Next(loc, sys, a).workers| && Alive(Next(loc, sys, a).workers[w])
    ensures w < |sys.workers| ==> Alive(sys.workers[w])
    ensures w < |sys.workers| ==> Next(loc, sys, a).workers[w].job == sys.workers[w].job
    ensures w >= |sys.workers| ==> a.CreateThread? && Next(loc, sys, a).workers[w] == NewWorker(sys.caller.job)
  {
    hide StoreAfter, OpOk, JobOk, WorkerStep, WithWatcher, StepReady, NewWorker, MoveOf, Moved;
    if a.Step? {
      ReadyIsLive(sys.workers[a.w]);
      StepFrame(loc, sys, a.w, a.seen);
      MovedKeepsJob(sys.workers[a.w], sys, a.seen);
    }
  }

  lemma RemovalsKept(loc: Locale, sys: Sys, a: Action)
    requires OneWorker(sys) && RemovalsOk(sys) && Enabled(loc, sys, a)
    ensures RemovalsOk(Next(loc, sys, a))
  {
    var t := Next(loc, sys, a);
    forall w | 0 <= w < |t.workers| && Alive(t.workers[w]) && t.workers[w].job.kind == RemovePaths
      ensures RemovalPoint(t.workers[w], t.watchers)
    {
      StartsAreLive(loc, sys, a, w);
      if w < |sys.workers| {
        LivesAlone(sys, w);
        if !NoStart(a) {
          CallsMoveNoWorker(loc, sys, a);
        } else {
          hide Next, Enabled, NoStart, RemovalPoint, OneWorker;
          RemovalStep(loc, sys, a, w);
        }
      }
    }
  }

  lemma CallsMoveNoWorker(loc: Locale, sys: Sys, a: Action)
    requires Enabled(loc, sys, a) && !NoStart(a)
    ensures Next(loc, sys, a).workers == sys.workers && Next(loc, sys, a).watchers == sys.watchers
    ensures Next(loc, sys, a).disk == sys.disk
  {
  }

  lemma {:induction false} RunKeepsRemovals(loc: Locale, sys: Sys, actions: seq<Action>, end: Sys)
    requires Inv(loc, sys) && RemovalsOk(sys) && Run(loc, sys, actions, end)
    ensures RemovalsOk(end)
    decreases |actions|
  {
    if actions != [] {
      StepKeepsInv(loc, sys, actions[0]);
      RemovalsKept(loc, sys, actions[0]);
      hide Enabled, Next, Inv, RemovalsOk;
      RunKeepsRemovals(loc, Next(loc, sys, actions[0]), actions[1..], end);
    }
  }

  // ---------------------------------------------------------------- an uncancelled job

  ghost predicate NoCancels(actions: seq<Action>) {
    forall i :: 0 <= i < |actions| ==> !actions[i].SetCancel?
  }

  lemma NoCancelsRest(actions: seq<Action>)
    requires actions != [] && NoCancels(actions)
    ensures !actions[0].SetCancel? && NoCancels(actions[1..])
  {
    forall i | 0 <= i < |actions| - 1 ensures !actions[1..][i].SetCancel? {
      assert !actions[i + 1].SetCancel?;
    }
  }

  /** The watchers a job leaves, given those it found. */
  function JobWatchers(job: Job, watchers: seq<WString>): seq<WString> {
    if job.kind == RemovePaths then WithoutRoots(watchers, job.roots) else AllWatched(watchers, job.monitor)
  }

  /** The watchers at each point of the body of a worker that found `was` when it was created. */
  ghost predicate WatchPoint(k: Worker, was: seq<WString>, watchers: seq<WString>) {
    match k.pc
    case Removing(_) => k.job.kind == RemovePaths && watchers == was
    case StopRoots => k.job.kind == RemovePaths && watchers == was
    case Saving => watchers == if k.job.kind == RemovePaths then WithoutRoots(was, k.job.roots) else was
    case Monitoring(j, _) =>
      k.job.kind != RemovePaths && j <= |k.job.monitor| && watchers == AllWatched(was, k.job.monitor[..j])
    case Signalling => watchers == JobWatchers(k.job, was)
    case Dead => watchers == JobWatchers(k.job, was)
    case _ => k.job.kind != RemovePaths && watchers == was
  }

  /** The call is about to create worker n for this job, or has, and nobody has cancelled it. */
  ghost predicate Uncancelled(sys: Sys, n: nat, job: Job, was: seq<WString>) {
    && !sys.cleared && n <= |sys.workers|
    && (forall v :: 0 <= v < n ==> !Alive(sys.workers[v]))
    && if sys.caller.Idle? then
         && !sys.cancel && |sys.workers| == n + 1
         && sys.workers[n].job == job && !sys.workers[n].aware && WatchPoint(sys.workers[n], was, sys.watchers)
       else
         && (sys.caller in {Arming(job), Creating(job)} ==> !sys.cancel)
         && sys.caller in {Resetting(job), Arming(job), Creating(job)}
         && |sys.workers| == n && sys.watchers == was
  }

  lemma OneMoreWatched(was: seq<WString>, roots: seq<WString>, j: nat)
    requires j < |roots|
    ensures AllWatched(was, roots[..j + 1]) == WithWatcher(AllWatched(was, roots[..j]), roots[j])
  {
    assert roots[..j + 1][..j] == roots[..j];
  }

  lemma WatchMoves(k: Worker, sys: Sys, was: seq<WString>)
    requires WatchPoint(k, was, sys.watchers) && StepReady(k) && !k.aware && !sys.cleared
    ensures var m := MoveOf(k, false);
            var k' := Moved(k, sys, m, false);
            k'.job == k.job && !k'.aware && WatchPoint(k', was, WatchersNext(sys.watchers, m))
  {
    hide EffectOf, AllFound, AllDone, AllWatched, WithWatcher, WithoutRoots;
    if k.pc.Monitoring? {
      if k.pc.j < |k.job.monitor| {
        OneMoreWatched(was, k.job.monitor, k.pc.j);
      } else {
        assert k.job.monitor[..k.pc.j] == k.job.monitor;
      }
    } else if k.pc.Saving? {
      assert k.job.monitor[..0] == [];
      NoRoots(was);
    }
  }

  lemma NoRoots(was: seq<WString>)
    ensures AllWatched(was, []) == was
  {
  }

  lemma UncancelledStep(loc: Locale, sys: Sys, a: Action, n: nat, job: Job, was: seq<WString>)
    requires Uncancelled(sys, n, job, was) && Enabled(loc, sys, a) && NoStart(a) && !a.SetCancel?
    ensures Uncancelled(Next(loc, sys, a), n, job, was)
  {
    hide StoreAfter, OpOk, JobOk, WorkerStep, StepReady, MoveOf, Moved, WatchersNext, JobWatchers, AllWatched;
    if a.Step? {
      ReadyIsLive(sys.workers[a.w]);
      StepFrame(loc, sys, a.w, a.seen);
      StepWatchers(loc, sys, a.w, a.seen);
      WatchMoves(sys.workers[n], sys, was);
    }
  }

  lemma {:induction false} UncancelledRun(
      loc: Locale, sys: Sys, actions: seq<Action>, end: Sys, n: nat, job: Job, was: seq<WString>)
    requires Uncancelled(sys, n, job, was) && Run(loc, sys, actions, end) && NoStarts(actions) && NoCancels(actions)
    ensures Uncancelled(end, n, job, was)
    decreases |actions|
  {
    if actions != [] {
      hide Enabled, Next, NoStart, NoStarts, NoCancels, Uncancelled;
      NoStartsRest(actions);
      NoCancelsRest(actions);
      UncancelledStep(loc, sys, actions[0], n, job, was);
      UncancelledRun(loc, Next(loc, sys, actions[0]), actions[1..], end, n, job, was);
    }
  }

  lemma ResettingAlone(loc: Locale, sys: Sys)
    requires Inv(loc, sys) && sys.caller.Resetting?
    ensures Uncancelled(sys, |sys.workers|, sys.caller.job, sys.watchers)
  {
    hide WorkersOk, WatchPoint;
  }

  lemma SignalledIsDead(sys: Sys, n: nat, job: Job, was: seq<WString>)
    requires OneWorker(sys) && Uncancelled(sys, n, job, was) && sys.caller.Idle? && sys.signalled
    ensures |sys.workers| == n + 1 && sys.workers[n].job == job && !sys.workers[n].aware
    ensures !Alive(sys.workers[n]) && sys.watchers == JobWatchers(job, was)
  {
    hide JobWatchers;
  }

  lemma SavedOnDisk(loc: Locale, sys: Sys, initial: Option<Pool>)
    requires DiskOk(sys, initial) && sys.workers != [] && FullTrace(loc, sys.workers[|sys.workers| - 1])
    ensures sys.disk == Some(SavedPool(sys.workers[|sys.workers| - 1]))
  {
    hide FullWork, BulkPool, Whole;
  }

  lemma StartDisk(store: State, disk: Option<Pool>)
    ensures DiskOk(Start(store, disk), disk)
  {
  }

  lemma WorkerIsOk(loc: Locale, sys: Sys, w: nat)
    requires WorkersOk(loc, sys) && w < |sys.workers|
    ensures WorkerOk(loc, sys.workers[w], sys.store, sys.clean)
  {
    hide WorkerOk, JobOk, AllCanonical;
  }

  // ---------------------------------------------------------------- the disk holds the last save

  predicate HasSaved(k: Worker) {
    k.effects != [] && k.effects[|k.effects| - 1].Saved?
  }

  /** What the last worker to save has saved. */
  function LastSaved(initial: Option<Pool>, workers: seq<Worker>): Option<Pool> {
    if workers == [] then initial
    else
      var k := workers[|workers| - 1];
      if HasSaved(k) then Some(SavedPool(k)) else LastSaved(initial, workers[..|workers| - 1])
  }

  /** Only the last worker can be alive, and the disk holds the last save. */
  ghost predicate DiskOk(sys: Sys, initial: Option<Pool>) {
    && (forall w :: 0 <= w < |sys.workers| - 1 ==> !Alive(sys.workers[w]))
    && sys.disk == LastSaved(initial, sys.workers)
  }

  /** A worker with something left to do to the store has not saved yet. */
  lemma PerformsUnsaved(loc: Locale, k: Worker, store: State, clean: bool, seen: bool)
    requires WorkerOk(loc, k, store, clean) && (MoveOf(k, seen).Perform? || MoveOf(k, seen).Save?)
    ensures !HasSaved(k)
  {
    hide FullTrace, CancelledTrace, SomeAdds, Complete, JobOk, ScansOk, BulkPool, Flat, AllFound;
  }

  lemma MoveSaves(loc: Locale, k: Worker, sys: Sys, seen: bool)
    requires WorkerOk(loc, k, sys.store, sys.clean)
    ensures var m := MoveOf(k, seen);
            var k' := Moved(k, sys, m, seen);
            && (m.Save? ==> HasSaved(k') && SavedPool(k') == sys.store.pool)
            && (!m.Save? ==> (HasSaved(k') <==> HasSaved(k)) && (HasSaved(k) ==> SavedPool(k') == SavedPool(k)))
  {
    var m := MoveOf(k, seen);
    if m.Perform? || m.Save? {
      PerformsUnsaved(loc, k, sys.store, sys.clean, seen);
    }
    assert k.effects + [] == k.effects;
    hide MoveOf, WorkerOk;
  }

  lemma SaveStep(loc: Locale, sys: Sys, w: nat, seen: bool, initial: Option<Pool>)
    requires WorkersOk(loc, sys) && DiskOk(sys, initial) && w < |sys.workers| && StepReady(sys.workers[w])
    ensures DiskOk(WorkerStep(loc, sys, w, seen), initial)
  {
    hide MoveOf, Moved, WorkerStep, StepReady, WatchersNext, WorkerOk, HasSaved, SavedPool, StoreNext, AllCanonical,
         JobOk;
    ReadyIsLive(sys.workers[w]);
    assert w == |sys.workers| - 1;
    StepFrame(loc, sys, w, seen);
    StepWatchers(loc, sys, w, seen);
    MoveSaves(loc, sys.workers[w], sys, seen);
    var t := WorkerStep(loc, sys, w, seen);
    assert t.workers[..w] == sys.workers[..w];
  }

  lemma DiskKept(loc: Locale, sys: Sys, a: Action, initial: Option<Pool>)
    requires Inv(loc, sys) && DiskOk(sys, initial) && Enabled(loc, sys, a)
    ensures DiskOk(Next(loc, sys, a), initial)
  {
    hide StoreAfter, OpOk, JobOk, WorkerStep, WithWatcher, StepReady, NewWorker, WorkersOk, ClearedInv, NoRepeats;
    if a.Step? {
      hide OneWorker;
      SaveStep(loc, sys, a.w, a.seen, initial);
    } else if a.CreateThread? {
      DiskOfNew(sys, sys.caller.job, initial);
    } else if a.ScanMore? || a.ScanEnd? {
      LivesAlone(sys, a.w);
      SameSaves(initial, sys.workers, a.w, Next(loc, sys, a).workers[a.w]);
      hide OneWorker, LastSaved;
    }
  }

  lemma DiskOfNew(sys: Sys, job: Job, initial: Option<Pool>)
    requires OneWorker(sys) && DiskOk(sys, initial) && Launching(sys.caller)
    ensures DiskOk(sys.(caller := Idle, workers := sys.workers + [NewWorker(job)]), initial)
  {
    NewUnsaved(job);
    hide NewWorker, HasSaved;
    var workers := sys.workers + [NewWorker(job)];
    assert workers[..|workers| - 1] == sys.workers;
    assert forall w :: 0 <= w < |sys.workers| ==> workers[w] == sys.workers[w];
  }

  lemma NewUnsaved(job: Job)
    ensures !HasSaved(NewWorker(job))
  {
  }

  lemma {:induction false} SameSaves(initial: Option<Pool>, workers: seq<Worker>, w: nat, k: Worker)
    requires w < |workers| && k.effects == workers[w].effects
    ensures LastSaved(initial, workers[w := k]) == LastSaved(initial, workers)
  {
    var n := |workers| - 1;
    if w < n {
      SameSaves(initial, workers[..n], w, k);
      assert workers[w := k][..n] == workers[..n][w := k];
    } else {
      assert workers[w := k][..n] == workers[..n];
    }
  }

  lemma {:induction false} RunKeepsDisk(
      loc: Locale, sys: Sys, actions: seq<Action>, end: Sys, initial: Option<Pool>)
    requires Inv(loc, sys) && DiskOk(sys, initial) && Run(loc, sys, actions, end)
    ensures DiskOk(end, initial)
    decreases |actions|
  {
    if actions != [] {
      StepKeepsInv(loc, sys, actions[0]);
      DiskKept(loc, sys, actions[0], initial);
      hide Enabled, Next, Inv, DiskOk;
      RunKeepsDisk(loc, Next(loc, sys, actions[0]), actions[1..], end, initial);
    }
  }

  // ---------------------------------------------------------------- a start that finds a valid file

  /** The call watches the roots itself, unless it has decided to rebuild. */
  ghost predicate LoadPoint(sys: Sys, n: nat, job: Job, was: seq<WString>, flag: bool) {
    && n <= |sys.workers| && (forall v :: 0 <= v < n ==> !Alive(sys.workers[v]))
    && if |sys.workers| > n then !Launching(sys.caller)
       else
         match sys.caller
         case Counting(j) => j == job && sys.watchers == was && sys.cancel == flag
         case Watching(j, i, checked) =>
           && j == job && i <= |job.monitor| && sys.cancel == flag && (flag ==> i == 0 && !checked)
           && sys.watchers == AllWatched(was, job.monitor[..i])
         case Idle => sys.cancel == flag && sys.watchers == if flag then was else AllWatched(was, job.monitor)
         case Clearing => false
         case Loading(_) => false
         case _ => true
  }

  lemma LoadStep(loc: Locale, sys: Sys, a: Action, n: nat, job: Job, was: seq<WString>, flag: bool)
    requires LoadPoint(sys, n, job, was, flag) && Enabled(loc, sys, a) && NoStart(a) && !a.SetCancel?
    ensures LoadPoint(Next(loc, sys, a), n, job, was, flag)
  {
    hide StoreAfter, OpOk, JobOk, WorkerStep, StepReady, AllWatched, WithWatcher, IndexPools.Live, NewWorker;
    if a.Step? {
      ReadyIsLive(sys.workers[a.w]);
      StepFrame(loc, sys, a.w, a.seen);
    } else if a.CallerWatch? {
      hide Next, Enabled, LoadPoint;
      LoadWatches(loc, sys, n, job, was, flag);
    } else if a.Count? {
      assert job.monitor[..0] == [];
      NoRoots(was);
    }
  }

  lemma LoadWatches(loc: Locale, sys: Sys, n: nat, job: Job, was: seq<WString>, flag: bool)
    requires LoadPoint(sys, n, job, was, flag) && Enabled(loc, sys, CallerWatch)
    ensures LoadPoint(Next(loc, sys, CallerWatch), n, job, was, flag)
  {
    hide AllWatched, WithWatcher, Alive;
    assert job.monitor[..0] == [];
    NoRoots(was);
    if sys.caller.j < |job.monitor| {
      OneMoreWatched(was, sys.caller.job.monitor, sys.caller.j);
    } else {
      assert sys.caller.job.monitor[..|sys.caller.job.monitor|] == sys.caller.job.monitor;
    }
  }

  lemma {:induction false} LoadRun(loc: Locale, sys: Sys, actions: seq<Action>, end: Sys,
                                   n: nat, job: Job, was: seq<WString>, flag: bool)
    requires LoadPoint(sys, n, job, was, flag)
    requires Run(loc, sys, actions, end) && NoStarts(actions) && NoCancels(actions)
    ensures LoadPoint(end, n, job, was, flag)
    decreases |actions|
  {
    if actions != [] {
      hide Enabled, Next, NoStart, NoStarts, NoCancels, LoadPoint;
      NoStartsRest(actions);
      NoCancelsRest(actions);
      LoadStep(loc, sys, actions[0], n, job, was, flag);
      LoadRun(loc, Next(loc, sys, actions[0]), actions[1..], end, n, job, was, flag);
    }
  }

  lemma CountingAlone(loc: Locale, sys: Sys)
    requires Inv(loc, sys) && sys.caller.Counting?
    ensures LoadPoint(sys, |sys.workers|, sys.caller.job, sys.watchers, sys.cancel)
  {
    hide WorkersOk, ClearedInv, NoRepeats, AllWatched;
  }
}
