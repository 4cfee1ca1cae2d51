/**
 Theorems over whole runs of the indexer: every worker signals, an empty load is followed by a
 rebuild under an exact condition, and Cancel leaves no watcher under an exact condition.
 */
module WorkerRuns {
  import opened Text
  import opened IndexPools
  import opened IndexStores
  import opened WorkerSteps
  import opened WorkerTraces
  import opened WorkerRanks
  import opened WorkerLifecycle

  // ---------------------------------------------------------------- every worker signals

  /** No step of another thread undoes a worker's progress. */
  lemma OthersDoNotDelay(loc: Locale, sys: Sys, a: Action, w: nat)
    requires w < |sys.workers| && Enabled(loc, sys, a)
    requires !(a.Step? && a.w == w) && !(a.ScanMore? && a.w == w) && !(a.ScanEnd? && a.w == w)
    ensures w < |Next(loc, sys, a).workers| && Next(loc, sys, a).workers[w] == sys.workers[w]
  {
    hide StoreAfter, WithWatcher, CanApply, JobOk, WorkerStep, StepReady, NewWorker;
    if a.Step? {
      StepFrame(loc, sys, a.w, a.seen);
    }
  }

  /**
   Every step a live worker or one of its scans takes brings it nearer to its end.
   */
  lemma WorkersRunDown(loc: Locale, sys: Sys, a: Action, w: nat)
    requires Inv(loc, sys) && Enabled(loc, sys, a) && w < |sys.workers|
    requires (a.Step? || a.ScanMore? || a.ScanEnd?) && a.w == w
    ensures Below(RankOf(Next(loc, sys, a).workers[w]), RankOf(sys.workers[w]))
  {
    assert WorkerOk(loc, sys.workers[w], sys.store, sys.clean);
    hide OneWorker, NoRepeats, ClearedInv, WorkersOk, TraceOk, JobOk, ScansOk, MoveOf, RankOf, StoreNext;
    if a.Step? {
      MoveDescends(loc, sys.workers[w], sys, a.seen);
    } else {
      ScanDescends(loc, sys, w, a.i, a);
    }
  }

  /** The worker w, or one of its scans, may take the step a. */
  ghost predicate MayStep(loc: Locale, sys: Sys, w: nat, a: Action) {
    (a.Step? || a.ScanMore? || a.ScanEnd?) && a.w == w && Enabled(loc, sys, a)
  }

  lemma LiveWorkerCanStep(loc: Locale, sys: Sys, w: nat)
    requires Inv(loc, sys) && w < |sys.workers| && Alive(sys.workers[w])
    ensures exists a :: MayStep(loc, sys, w, a)
  {
    var k := sys.workers[w];
    assert WorkerOk(loc, k, sys.store, sys.clean);
    hide OneWorker, NoRepeats, ClearedInv, WorkersOk, FullTrace, CancelledTrace, SomeAdds, AddEffects, StageEffects,
         RemoveEffects, Flat, FullWork, BulkPool, AllCanonical;
    if StepReady(k) {
      assert MayStep(loc, sys, w, Step(w, k.aware));
    } else {
      var i: nat;
      if k.pc.Scanning? {
        i :| 0 <= i < |k.scans| && !k.scans[i].done;
      } else {
        i := k.pc.i;
      }
      if |k.scans[i].found| < |k.job.outputs[i]| {
        assert MayStep(loc, sys, w, ScanMore(w, i));
      } else {
        assert MayStep(loc, sys, w, ScanEnd(w, i));
      }
    }
  }

  /** Action a is a step of worker w or of one of its scans. */
  predicate IsOwn(a: Action, w: nat) {
    (a.Step? || a.ScanMore? || a.ScanEnd?) && a.w == w
  }

  function OwnSteps(actions: seq<Action>, w: nat): nat {
    if actions == [] then 0 else (if IsOwn(actions[0], w) then 1 else 0) + OwnSteps(actions[1..], w)
  }

  lemma {:induction false} StepsCount(loc: Locale, sys: Sys, actions: seq<Action>, end: Sys, w: nat)
    requires Inv(loc, sys) && Run(loc, sys, actions, end) && w < |sys.workers|
    ensures w < |end.workers| && OwnSteps(actions, w) + StepsLeft(end.workers[w]) <= StepsLeft(sys.workers[w])
    decreases |actions|
  {
    if actions != [] {
      var a := actions[0];
      var next := Next(loc, sys, a);
      StepKeepsInv(loc, sys, a);
      OneStepCounts(loc, sys, a, w);
      hide Inv, Enabled, Next, StepsLeft, IsOwn;
      StepsCount(loc, next, actions[1..], end, w);
    }
  }

  lemma OneStepCounts(loc: Locale, sys: Sys, a: Action, w: nat)
    requires Inv(loc, sys) && Enabled(loc, sys, a) && w < |sys.workers|
    ensures var next := Next(loc, sys, a);
            && w < |next.workers|
            && StepsLeft(next.workers[w]) + (if IsOwn(a, w) then 1 else 0) <= StepsLeft(sys.workers[w])
  {
    hide Enabled, Next, Inv, RankOf, LeftBound, AsNumber;
    if IsOwn(a, w) {
      WorkersRunDown(loc, sys, a, w);
      OwnStepKeepsJob(loc, sys, a, w);
      StepKeepsInv(loc, sys, a);
      InvWorker(loc, Next(loc, sys, a), w);
      var k, k' := sys.workers[w], Next(loc, sys, a).workers[w];
      LowerRankFewerSteps(RankOf(k'), RankOf(k), LeftBound(k.job));
    } else {
      OthersDoNotDelay(loc, sys, a, w);
    }
  }

  lemma InvWorker(loc: Locale, sys: Sys, w: nat)
    requires Inv(loc, sys) && w < |sys.workers|
    ensures RankOf(sys.workers[w]).left < LeftBound(sys.workers[w].job)
  {
    assert WorkerOk(loc, sys.workers[w], sys.store, sys.clean);
    LeftWithinBound(loc, sys.workers[w], sys.store, sys.clean);
  }

  lemma OwnStepKeepsJob(loc: Locale, sys: Sys, a: Action, w: nat)
    requires Enabled(loc, sys, a) && w < |sys.workers| && IsOwn(a, w)
    ensures w < |Next(loc, sys, a).workers| && Next(loc, sys, a).workers[w].job == sys.workers[w].job
  {
    hide WorkerStep, StepReady;
    if a.Step? {
      StepFrame(loc, sys, a.w, a.seen);
    }
  }

  /** A step of the worker or of one of its scans that kills the worker sets the event. */
  lemma DyingSignals(loc: Locale, sys: Sys, a: Action, w: nat)
    requires Inv(loc, sys) && w < |sys.workers| && Alive(sys.workers[w]) && MayStep(loc, sys, w, a)
    requires !Alive(Next(loc, sys, a).workers[w])
    ensures Next(loc, sys, a).signalled
  {
    hide Inv, MoveOf, WorkerStep, StepReady, Moved;
    if a.Step? {
      SignalEnds(sys.workers[w], sys, a.seen);
      StepFrame(loc, sys, w, a.seen);
    }
  }

  lemma First(loc: Locale, s: Sys, a: Action, rest: seq<Action>, end: Sys)
    requires Enabled(loc, s, a) && Run(loc, Next(loc, s, a), rest, end)
    ensures Run(loc, s, [a] + rest, end)
  {
    assert ([a] + rest)[1..] == rest;
  }

  /** Only steps of worker w and of its scans. */
  ghost predicate OwnOnly(actions: seq<Action>, w: nat) {
    forall i :: 0 <= i < |actions| ==> IsOwn(actions[i], w)
  }

  lemma OneMoreOwn(a: Action, rest: seq<Action>, w: nat)
    requires IsOwn(a, w) && OwnOnly(rest, w)
    ensures OwnOnly([a] + rest, w)
  {
  }

  /** With only its own steps the worker can come to its end, and has then set the event. */
  ghost predicate CanSignal(loc: Locale, sys: Sys, w: nat) {
    exists actions, end :: Run(loc, sys, actions, end) && OwnOnly(actions, w) && HasSignalled(end, w)
  }

  ghost predicate HasSignalled(sys: Sys, w: nat) {
    w < |sys.workers| && !Alive(sys.workers[w]) && sys.signalled
  }

  lemma {:induction false} LiveCanSignal(loc: Locale, sys: Sys, w: nat)
    requires Inv(loc, sys) && w < |sys.workers| && Alive(sys.workers[w])
    ensures CanSignal(loc, sys, w)
    decreases StepsLeft(sys.workers[w])
  {
    hide Inv, Enabled, Next, StepsLeft, Alive, IsOwn, OwnOnly, Run;
    LiveWorkerCanStep(loc, sys, w);
    var a :| MayStep(loc, sys, w, a);
    var next := Next(loc, sys, a);
    assert IsOwn(a, w) by { OwnMoves(loc, sys, w, a); }
    OneStepCounts(loc, sys, a, w);
    StepKeepsInv(loc, sys, a);
    if Alive(next.workers[w]) {
      LiveCanSignal(loc, next, w);
      var actions, end :| Run(loc, next, actions, end) && OwnOnly(actions, w) && HasSignalled(end, w);
      First(loc, sys, a, actions, end);
      OneMoreOwn(a, actions, w);
    } else {
      DyingSignals(loc, sys, a, w);
      NoSteps(loc, next, w);
      First(loc, sys, a, [], next);
      OneMoreOwn(a, [], w);
      assert HasSignalled(next, w);
    }
  }

  lemma OwnMoves(loc: Locale, sys: Sys, w: nat, a: Action)
    requires MayStep(loc, sys, w, a)
    ensures IsOwn(a, w) && Enabled(loc, sys, a)
  {
  }

  lemma NoSteps(loc: Locale, sys: Sys, w: nat)
    ensures Run(loc, sys, [], sys) && OwnOnly([], w)
  {
  }

  lemma DeadCannotStep(loc: Locale, sys: Sys, w: nat, a: Action)
    requires w < |sys.workers| && !Alive(sys.workers[w])
    ensures !MayStep(loc, sys, w, a)
  {
  }

  /**
   Every worker signals. In every run, whatever the other threads do in between, a worker and its
   scans take a bounded number of steps; it has one to take exactly while it lives; and from any
   point of its life its own steps alone bring it to its end with the event set.
   */
  lemma EveryWorkerSignals(loc: Locale, store: State, disk: Option<Pool>, before: seq<Action>, sys: Sys,
                           actions: seq<Action>, end: Sys, w: nat)
    requires AllCanonical(loc, store.staging) && Run(loc, Start(store, disk), before, sys)
    requires Run(loc, sys, actions, end) && w < |sys.workers|
    ensures w < |end.workers| && OwnSteps(actions, w) + StepsLeft(end.workers[w]) <= StepsLeft(sys.workers[w])
    ensures Alive(end.workers[w]) <==> exists a :: MayStep(loc, end, w, a)
    ensures Alive(end.workers[w]) ==> CanSignal(loc, end, w)
  {
    hide Run, Inv, RankOf, StepsLeft, Start, OwnSteps, Alive, CanSignal, MayStep;
    StartInv(loc, store, disk);
    RunKeepsInv(loc, Start(store, disk), before, sys);
    StepsCount(loc, sys, actions, end, w);
    RunKeepsInv(loc, sys, actions, end);
    if Alive(end.workers[w]) {
      LiveWorkerCanStep(loc, end, w);
      LiveCanSignal(loc, end, w);
    } else {
      forall a ensures !MayStep(loc, end, w, a) {
        DeadCannotStep(loc, end, w, a);
      }
    }
  }

  // ---------------------------------------------------------------- when Cancel leaves no watcher

  /** The worker has roots to watch, and its loop over them is not over. */
  predicate WillLook(k: Worker) {
    match k.pc
    case Signalling => false
    case Dead => false
    case Monitoring(j, _) => j < |k.job.monitor|
    case _ => k.job.kind != RemovePaths && k.job.monitor != []
  }

  /** It has found the flag clear and is about to start a watcher, or may still find it clear before it does. */
  predicate MayWatch(k: Worker) {
    PastFlag(k) || (!k.aware && WillLook(k))
  }

  /** Not a call of StartIndexing, IndexPaths or RemovePaths. */
  predicate NoStart(a: Action) {
    !a.CallStart? && !a.CallPaths?
  }

  /** However the run goes on without a new start, it never has a watcher again. */
  ghost predicate StaysUnwatched(loc: Locale, sys: Sys) {
    forall actions, end :: Run(loc, sys, actions, end) && (forall i :: 0 <= i < |actions| ==> NoStart(actions[i])) ==>
      end.watchers == []
  }

  ghost predicate Quiet(sys: Sys) {
    && sys.cancel && sys.watchers == [] && !Launching(sys.caller)
    && forall w :: 0 <= w < |sys.workers| ==> !MayWatch(sys.workers[w])
  }

  lemma QuietStep(loc: Locale, sys: Sys, a: Action)
    requires Quiet(sys) && Enabled(loc, sys, a) && NoStart(a)
    ensures Quiet(Next(loc, sys, a))
  {
    hide StoreNext, StoreAfter, AllFound, OpOk, JobOk, EffectOf, AllDone;
  }

  lemma {:induction false} QuietRun(loc: Locale, sys: Sys, actions: seq<Action>, end: Sys)
    requires Quiet(sys) && Run(loc, sys, actions, end) && forall i :: 0 <= i < |actions| ==> NoStart(actions[i])
    ensures end.watchers == []
    decreases |actions|
  {
    if actions != [] {
      hide Enabled, Next, NoStart;
      assert NoStart(actions[0]) && forall i :: 0 <= i < |actions| - 1 ==> actions[1..][i] == actions[i + 1];
      QuietStep(loc, sys, actions[0]);
      QuietRun(loc, Next(loc, sys, actions[0]), actions[1..], end);
    }
  }

  lemma UnawareMove(loc: Locale, k: Worker, sys: Sys)
    requires WorkerOk(loc, k, sys.store, sys.clean) && MayWatch(k) && !PastFlag(k)
    ensures var m := MoveOf(k, false);
            MayWatch(Moved(k, sys, m, false)) && WatchersNext([], m) == []
  {
    hide FullTrace, CancelledTrace, SomeAdds, AddEffects, RemoveEffects, FullWork, BulkPool, AllFound, EffectOf,
         Complete, Whole, JobOk, ScansOk, Upto, AllDone, StageEffects;
  }

  /** Its next step, when no scan has to end first, can leave the worker unaware and on its way. */
  lemma UnawareStep(loc: Locale, sys: Sys, w: nat)
    requires Inv(loc, sys) && StillMayWatch(sys, w) && !PastFlag(sys.workers[w]) && StepReady(sys.workers[w])
    ensures MayStep(loc, sys, w, Step(w, false)) && StillMayWatch(Next(loc, sys, Step(w, false)), w)
  {
    assert WorkerOk(loc, sys.workers[w], sys.store, sys.clean);
    UnawareMove(loc, sys.workers[w], sys);
    hide Inv, WorkerOk, StoreNext, MoveOf, EffectOf, WatchersNext, StepReady, WillLook;
  }

  /** Otherwise a scan can go on, to its own end. */
  lemma UnawareScan(loc: Locale, sys: Sys, w: nat)
    requires Inv(loc, sys) && StillMayWatch(sys, w) && !PastFlag(sys.workers[w]) && !StepReady(sys.workers[w])
    ensures exists a :: MayStep(loc, sys, w, a) && StillMayWatch(Next(loc, sys, a), w)
  {
    var k := sys.workers[w];
    assert WorkerOk(loc, k, sys.store, sys.clean);
    hide OneWorker, NoRepeats, ClearedInv, WorkersOk, FullTrace, CancelledTrace, SomeAdds, AddEffects, StageEffects,
         RemoveEffects, Flat, FullWork, BulkPool, AllCanonical, StoreNext, WorkerStep;
    var i: nat;
    if k.pc.Scanning? {
      i :| 0 <= i < |k.scans| && !k.scans[i].done;
    } else {
      i := k.pc.i;
    }
    var a := if |k.scans[i].found| < |k.job.outputs[i]| then ScanMore(w, i) else ScanEnd(w, i);
    assert MayStep(loc, sys, w, a) && StillMayWatch(Next(loc, sys, a), w);
  }

  ghost predicate StillMayWatch(sys: Sys, w: nat) {
    w < |sys.workers| && MayWatch(sys.workers[w]) && sys.watchers == []
  }

  /** With only its own steps the worker can come to start a watcher. */
  ghost predicate CanWatch(loc: Locale, sys: Sys, w: nat) {
    exists actions, end :: Run(loc, sys, actions, end) && OwnOnly(actions, w) && end.watchers != []
  }

  lemma {:induction false} UnawareCanWatch(loc: Locale, sys: Sys, w: nat)
    requires Inv(loc, sys) && StillMayWatch(sys, w)
    ensures CanWatch(loc, sys, w)
    decreases StepsLeft(sys.workers[w])
  {
    hide Inv, Enabled, Next, StepsLeft, OwnOnly, Run, PastFlag, WillLook;
    var a: Action;
    var next: Sys;
    if PastFlag(sys.workers[w]) {
      a := WatchesNext(loc, sys, w);
      next := Next(loc, sys, a);
      NoSteps(loc, next, w);
      First(loc, sys, a, [], next);
      OneMoreOwn(a, [], w);
    } else {
      if StepReady(sys.workers[w]) {
        UnawareStep(loc, sys, w);
      } else {
        UnawareScan(loc, sys, w);
      }
      a :| MayStep(loc, sys, w, a) && StillMayWatch(Next(loc, sys, a), w);
      OwnMoves(loc, sys, w, a);
      next := Next(loc, sys, a);
      OneStepCounts(loc, sys, a, w);
      StepKeepsInv(loc, sys, a);
      UnawareCanWatch(loc, next, w);
      var actions, end :| Run(loc, next, actions, end) && OwnOnly(actions, w) && end.watchers != [];
      First(loc, sys, a, actions, end);
      OneMoreOwn(a, actions, w);
    }
  }

  /**
   When Cancel has stopped and dropped the watchers, none comes back before the next start if and
   only if no worker has found the flag clear on its way to the watchers' lock or may still find it
   clear: relaxed loads may lag behind the store for as long as nothing orders them after it.
   */
  lemma CancelLeavesNoneIff(loc: Locale, store: State, disk: Option<Pool>, before: seq<Action>, sys: Sys)
    requires AllCanonical(loc, store.staging) && Run(loc, Start(store, disk), before, sys)
    requires sys.cleared && sys.watchers == []
    ensures StaysUnwatched(loc, sys) <==> forall w :: 0 <= w < |sys.workers| ==> !MayWatch(sys.workers[w])
  {
    hide Run, NoStart, StaysUnwatched, MayWatch, WorkersOk, OneWorker;
    StartInv(loc, store, disk);
    RunKeepsInv(loc, Start(store, disk), before, sys);
    if w :| 0 <= w < |sys.workers| && MayWatch(sys.workers[w]) {
      UnawareCanWatch(loc, sys, w);
      var actions, end :| Run(loc, sys, actions, end) && OwnOnly(actions, w) && end.watchers != [];
      WatchedAgain(loc, sys, w, actions, end);
    } else {
      QuietForEver(loc, sys);
    }
  }

  lemma WatchedAgain(loc: Locale, sys: Sys, w: nat, actions: seq<Action>, end: Sys)
    requires Run(loc, sys, actions, end) && OwnOnly(actions, w) && end.watchers != []
    ensures !StaysUnwatched(loc, sys)
  {
    assert forall i :: 0 <= i < |actions| ==> IsOwn(actions[i], w) && NoStart(actions[i]);
    hide Run;
  }

  lemma QuietForEver(loc: Locale, sys: Sys)
    requires Quiet(sys)
    ensures StaysUnwatched(loc, sys)
  {
    hide Run, NoStart, Quiet;
    forall actions, end |
      Run(loc, sys, actions, end) && (forall i :: 0 <= i < |actions| ==> NoStart(actions[i]))
      ensures end.watchers == []
    {
      QuietRun(loc, sys, actions, end);
    }
  }

  lemma WatchesNext(loc: Locale, sys: Sys, w: nat) returns (a: Action)
    requires Inv(loc, sys) && w < |sys.workers| && PastFlag(sys.workers[w])
    ensures IsOwn(a, w) && Enabled(loc, sys, a) && Next(loc, sys, a).watchers != []
  {
    assert WorkerOk(loc, sys.workers[w], sys.store, sys.clean);
    hide StoreNext, AllFound, EffectOf, FullTrace, JobOk;
    a := Step(w, sys.workers[w].aware);
  }

  /** What a caller can look at: with the completion event signalled, Cancel leaves none. */
  lemma CancelWhenSignalled(loc: Locale, store: State, disk: Option<Pool>, before: seq<Action>, sys: Sys)
    requires AllCanonical(loc, store.staging) && Run(loc, Start(store, disk), before, sys)
    requires sys.cleared && sys.watchers == [] && sys.signalled
    ensures StaysUnwatched(loc, sys)
  {
    hide Run, StaysUnwatched, WorkersOk, ClearedInv;
    CancelLeavesNoneIff(loc, store, disk, before, sys);
    StartInv(loc, store, disk);
    RunKeepsInv(loc, Start(store, disk), before, sys);
  }

  // ---------------------------------------------------------------- loading falls through to a rebuild

  function Jobs(workers: seq<Worker>): (r: seq<Job>)
    ensures |r| == |workers| && forall i :: 0 <= i < |r| ==> r[i] == workers[i].job
  {
    seq(|workers|, i requires 0 <= i < |workers| => workers[i].job)
  }

  /** The job the caller has decided to start. */
  function Decided(c: Caller): seq<Job> {
    if c.Resetting? || c.Arming? || c.Creating? then [c.job] else []
  }

  /** The jobs of the workers created so far, and the one about to be created. */
  function JobsDue(sys: Sys): seq<Job> {
    Jobs(sys.workers) + Decided(sys.caller)
  }

  /** The caller has not yet seen whether the loaded index is empty. */
  predicate Undecided(c: Caller) {
    c.Loading? || c.Counting?
  }

  lemma WorkerStepKeepsJobs(loc: Locale, sys: Sys, w: nat, seen: bool)
    requires w < |sys.workers|
    ensures JobsDue(WorkerStep(loc, sys, w, seen)) == JobsDue(sys)
  {
    hide WorkerStep;
    StepFrame(loc, sys, w, seen);
    assert Jobs(WorkerStep(loc, sys, w, seen).workers) == Jobs(sys.workers);
  }

  /** A decided caller launches exactly what it decided on, whatever the other threads do. */
  lemma JobsDueKept(loc: Locale, sys: Sys, a: Action)
    requires Enabled(loc, sys, a) && NoStart(a) && !Undecided(sys.caller)
    ensures !Undecided(Next(loc, sys, a).caller) && JobsDue(Next(loc, sys, a)) == JobsDue(sys)
  {
    hide StoreAfter, OpOk, JobOk, WorkerStep, WithWatcher, StepReady, AllDone, Jobs;
    if a.Step? {
      WorkerStepKeepsJobs(loc, sys, a.w, a.seen);
      StepFrame(loc, sys, a.w, a.seen);
    } else if a.CreateThread? {
      NewJob(sys.workers, sys.caller.job);
    } else {
      ScansKeepJobs(loc, sys, a);
    }
  }

  lemma NewJob(workers: seq<Worker>, job: Job)
    ensures Jobs(workers + [NewWorker(job)]) == Jobs(workers) + [job]
  {
  }

  lemma ScansKeepJobs(loc: Locale, sys: Sys, a: Action)
    requires Enabled(loc, sys, a) && !a.Step? && !a.CreateThread?
    ensures Jobs(Next(loc, sys, a).workers) == Jobs(sys.workers)
  {
    hide StoreAfter, OpOk, JobOk, WithWatcher, StepReady, AllDone, Jobs;
    if a.ScanMore? || a.ScanEnd? {
      SameJobs(sys.workers, a.w, Next(loc, sys, a).workers[a.w]);
    }
  }

  lemma SameJobs(workers: seq<Worker>, w: nat, k: Worker)
    requires w < |workers| && k.job == workers[w].job
    ensures Jobs(workers[w := k]) == Jobs(workers)
  {
  }

  /** No call of StartIndexing, IndexPaths or RemovePaths in the whole run. */
  ghost predicate NoStarts(actions: seq<Action>) {
    forall i :: 0 <= i < |actions| ==> NoStart(actions[i])
  }

  lemma NoStartsRest(actions: seq<Action>)
    requires actions != [] && NoStarts(actions)
    ensures NoStart(actions[0]) && NoStarts(actions[1..])
  {
    hide NoStart;
    forall i | 0 <= i < |actions| - 1 ensures NoStart(actions[1..][i]) {
      assert NoStart(actions[i + 1]);
    }
  }

  lemma {:induction false} JobsDueKeptByRun(loc: Locale, sys: Sys, actions: seq<Action>, end: Sys)
    requires Run(loc, sys, actions, end) && NoStarts(actions) && !Undecided(sys.caller)
    ensures !Undecided(end.caller) && JobsDue(end) == JobsDue(sys)
    decreases |actions|
  {
    hide Enabled, Next, NoStart, NoStarts, JobsDue, Undecided;
    if actions != [] {
      NoStartsRest(actions);
      JobsDueKept(loc, sys, actions[0]);
      JobsDueKeptByRun(loc, Next(loc, sys, actions[0]), actions[1..], end);
    }
  }

  /** What the watchers' callbacks did before the caller counted the entries. */
  function ChangesBeforeCount(actions: seq<Action>): seq<StoreOp> {
    if actions == [] || actions[0].Count? then []
    else (if actions[0].Change? then [actions[0].op] else []) + ChangesBeforeCount(actions[1..])
  }

  /** The text of the index never outgrows its 32-bit offsets. */
  ghost predicate RoomThroughout(loc: Locale, sys: Sys, actions: seq<Action>)
    decreases |actions|
  {
    && HasRoom(sys.store.pool)
    && (actions != [] && Enabled(loc, sys, actions[0]) ==>
          RoomThroughout(loc, Next(loc, sys, actions[0]), actions[1..]))
  }

  /** While the caller loads, no worker lives: only watchers can act beside it. */
  lemma CountingActions(loc: Locale, sys: Sys, a: Action)
    requires OneWorker(sys) && sys.caller.Counting? && Enabled(loc, sys, a)
    ensures a.Count? || a.Change?
  {
    hide JobOk, OpOk, AllDone;
    if a.Step? {
      ReadyIsLive(sys.workers[a.w]);
    }
  }

  lemma CountDecides(loc: Locale, sys: Sys)
    requires sys.caller.Counting?
    ensures var t := Next(loc, sys, Count);
            !Undecided(t.caller) && t.workers == sys.workers
            && Decided(t.caller) == if Live(sys.store.pool) == [] then [sys.caller.job] else []
  {
  }

  lemma ChangeActs(loc: Locale, sys: Sys, a: Action)
    requires AllCanonical(loc, sys.store.staging) && a.Change? && Enabled(loc, sys, a)
    requires WellFormed(loc, sys.store.pool) && HasRoom(sys.store.pool) && HasRoom(Next(loc, sys, a).store.pool)
    ensures var t := Next(loc, sys, a);
            && t.caller == sys.caller && t.workers == sys.workers && WellFormed(loc, t.store.pool)
            && Abstract(t.store) == ApplyToList(loc, Abstract(sys.store), a.op)
  {
    OperationRefines(loc, sys.store, a.op);
    hide Apply, WellFormed, HasRoom, ApplyToList, IndexPools.Live, OpOk, AllCanonical;
  }

  /** From the load to the count the index is the list the watchers make of it, and the count decides. */
  lemma {:induction false} CountedRun(loc: Locale, sys: Sys, actions: seq<Action>, end: Sys)
    requires Inv(loc, sys) && Run(loc, sys, actions, end) && NoStarts(actions) && RoomThroughout(loc, sys, actions)
    requires sys.caller.Counting? && WellFormed(loc, sys.store.pool) && !Undecided(end.caller)
    ensures var left := RunList(loc, Abstract(sys.store), ChangesBeforeCount(actions)).live;
            JobsDue(end) == Jobs(sys.workers) + if left == [] then [sys.caller.job] else []
    decreases |actions|
  {
    if actions != [] {
      var a := actions[0];
      CountingActions(loc, sys, a);
      NoStartsRest(actions);
      hide WorkersOk, ClearedInv, NoRepeats, OneWorker;
      assert RoomThroughout(loc, Next(loc, sys, a), actions[1..]);
      if a.Count? {
        CountDecides(loc, sys);
        hide Next, Enabled, RoomThroughout, NoStarts, IndexPools.Live;
        JobsDueKeptByRun(loc, Next(loc, sys, a), actions[1..], end);
      } else {
        ChangeActs(loc, sys, a);
        StepKeepsInv(loc, sys, a);
        hide Next, Enabled, NoStarts, Inv, WellFormed, HasRoom, ApplyToList;
        CountedRun(loc, Next(loc, sys, a), actions[1..], end);
        assert ChangesBeforeCount(actions) == [a.op] + ChangesBeforeCount(actions[1..]);
      }
    }
  }

  /** What a refused file, or a valid one without live entries, gives the load. */
  ghost predicate NothingLoaded(loc: Locale, incoming: Option<Pool>) {
    incoming.Some? ==> WellFormed(loc, incoming.value) && IndexPools.Live(incoming.value) == []
  }

  /**
   A load that brings nothing is followed by a rebuild if and only if what the watchers report
   between the load and the count, run on an empty list, leaves no entry: the workers gain the job
   in one case and stay as they were in the other.
   */
  lemma EmptyLoadRebuildsIff(loc: Locale, store: State, disk: Option<Pool>, before: seq<Action>, sys: Sys,
                             incoming: Option<Pool>, actions: seq<Action>, end: Sys)
    requires AllCanonical(loc, store.staging) && Run(loc, Start(store, disk), before, sys)
    requires sys.caller.Loading? && NothingLoaded(loc, incoming)
    requires Run(loc, Next(loc, sys, Load(incoming)), actions, end) && NoStarts(actions)
    requires RoomThroughout(loc, Next(loc, sys, Load(incoming)), actions) && !Launching(end.caller)
    ensures var left := RunList(loc, ListState([], sys.store.staging), ChangesBeforeCount(actions)).live;
            Jobs(end.workers) == Jobs(sys.workers) + if left == [] then [sys.caller.job] else []
    ensures sys.caller.job.kind == Rebuild
  {
    hide Run, RoomThroughout, NoStarts, RunList, ChangesBeforeCount;
    StartInv(loc, store, disk);
    RunKeepsInv(loc, Start(store, disk), before, sys);
    var next := Next(loc, sys, Load(incoming));
    StepKeepsInv(loc, sys, Load(incoming));
    assert Abstract(next.store) == ListState([], sys.store.staging) && WellFormed(loc, next.store.pool);
    hide Inv, Next, WellFormed, IndexPools.Live;
    CountedRun(loc, next, actions, end);
    assert Decided(end.caller) == [];
  }

  /** Without an added entry nothing is left: reports of removals and renamings alone never stop the rebuild. */
  lemma {:induction false} OnlyAddsFill(loc: Locale, s: ListState, ops: seq<StoreOp>)
    requires s.live == []
    requires forall i :: 0 <= i < |ops| ==> ops[i].ApplyRemove? || ops[i].ApplyRename?
    ensures RunList(loc, s, ops).live == []
    decreases |ops|
  {
    if ops != [] {
      assert forall i :: 0 <= i < |ops| - 1 ==> ops[1..][i] == ops[i + 1];
      OnlyAddsFill(loc, ApplyToList(loc, s, ops[0]), ops[1..]);
    }
  }

  /** Without removals nothing is left exactly when there was nothing and nothing was added. */
  lemma {:induction false} AddsFill(loc: Locale, s: ListState, ops: seq<StoreOp>)
    requires forall i :: 0 <= i < |ops| ==> ops[i].ApplyAdd? || ops[i].ApplyRename?
    ensures RunList(loc, s, ops).live == [] <==>
              s.live == [] && forall i :: 0 <= i < |ops| ==> !ops[i].ApplyAdd?
    decreases |ops|
  {
    if ops != [] {
      assert forall i :: 0 <= i < |ops| - 1 ==> ops[1..][i] == ops[i + 1];
      AddsFill(loc, ApplyToList(loc, s, ops[0]), ops[1..]);
    }
  }

  /** Nobody but the counting caller can act. */
  lemma UnwatchedCount(loc: Locale, sys: Sys, actions: seq<Action>, end: Sys)
    requires OneWorker(sys) && sys.caller.Counting? && sys.watchers == [] && IndexPools.Live(sys.store.pool) == []
    requires Run(loc, sys, actions, end) && NoStarts(actions) && !Undecided(end.caller)
    ensures JobsDue(end) == Jobs(sys.workers) + [sys.caller.job]
  {
    hide OneWorker, IndexPools.Live, NoStarts, OpOk, JobOk;
    assert actions != [];
    CountingActions(loc, sys, actions[0]);
    CountDecides(loc, sys);
    NoStartsRest(actions);
    hide Next, Enabled, Decided;
    JobsDueKeptByRun(loc, Next(loc, sys, Count), actions[1..], end);
  }

  /** At the first start no watcher exists yet, and a load that brings nothing is always followed by a rebuild. */
  lemma FirstLoadRebuilds(loc: Locale, store: State, disk: Option<Pool>, before: seq<Action>, sys: Sys,
                          incoming: Option<Pool>, actions: seq<Action>, end: Sys)
    requires AllCanonical(loc, store.staging) && Run(loc, Start(store, disk), before, sys)
    requires sys.caller.Loading? && NothingLoaded(loc, incoming) && sys.watchers == []
    requires Run(loc, Next(loc, sys, Load(incoming)), actions, end) && NoStarts(actions) && !Launching(end.caller)
    ensures Jobs(end.workers) == Jobs(sys.workers) + [sys.caller.job] && sys.caller.job.kind == Rebuild
  {
    hide Run, NoStarts, OneWorker;
    StartInv(loc, store, disk);
    RunKeepsInv(loc, Start(store, disk), before, sys);
    var next := Next(loc, sys, Load(incoming));
    StepKeepsInv(loc, sys, Load(incoming));
    assert IndexPools.Live(next.store.pool) == [] && next.watchers == [] && next.workers == sys.workers;
    hide Next, IndexPools.Live;
    UnwatchedCount(loc, next, actions, end);
    assert Decided(end.caller) == [];
  }

  // ---------------------------------------------------------------- the calling thread returns

  /** A step of the call itself. */
  predicate IsCallers(a: Action) {
    a.Load? || a.Count? || a.CallerWatch? || a.ClearFlag? || a.ResetEvent? || a.CreateThread?
  }

  function WatchesLeft(job: Job, j: nat, checked: bool): nat {
    (if j <= |job.monitor| then 2 * (|job.monitor| - j) else 0) + (if checked then 1 else 2)
  }

  /** An upper bound on the steps the call still takes. */
  function CallLeft(c: Caller): nat {
    match c
    case Loading(job) => 5 + WatchesLeft(job, 0, false)
    case Counting(job) => 4 + WatchesLeft(job, 0, false)
    case Watching(job, j, checked) => WatchesLeft(job, j, checked)
    case Resetting(_) => 3
    case Arming(_) => 2
    case Creating(_) => 1
    case _ => 0
  }

  function CallSteps(actions: seq<Action>): nat {
    if actions == [] then 0 else (if IsCallers(actions[0]) then 1 else 0) + CallSteps(actions[1..])
  }

  lemma CallAdvances(loc: Locale, sys: Sys, a: Action)
    requires Enabled(loc, sys, a) && NoStart(a)
    ensures CallLeft(Next(loc, sys, a).caller) + (if IsCallers(a) then 1 else 0) <= CallLeft(sys.caller)
  {
    hide StoreAfter, OpOk, JobOk, WorkerStep, WithWatcher, StepReady, AllDone, NewWorker;
    if a.Step? {
      StepFrame(loc, sys, a.w, a.seen);
    } else if a.CallerWatch? {
      WatchAdvances(loc, sys);
      hide Next, Enabled;
    } else {
      hide WatchesLeft;
    }
  }

  lemma WatchAdvances(loc: Locale, sys: Sys)
    requires sys.caller.Watching?
    ensures CallLeft(Next(loc, sys, CallerWatch).caller) < CallLeft(sys.caller)
  {
    hide WithWatcher;
  }

  /** A call always can go on, and after its bounded number of steps it has returned. */
  lemma {:induction false} CallReturns(loc: Locale, sys: Sys, actions: seq<Action>, end: Sys)
    requires Run(loc, sys, actions, end) && NoStarts(actions)
    ensures CallSteps(actions) + CallLeft(end.caller) <= CallLeft(sys.caller)
    ensures Launching(end.caller) <==> exists a :: IsCallers(a) && Enabled(loc, end, a)
    decreases |actions|
  {
    if actions != [] {
      hide Enabled, Next, NoStart, NoStarts, IsCallers, CallLeft, Launching;
      NoStartsRest(actions);
      CallAdvances(loc, sys, actions[0]);
      CallReturns(loc, Next(loc, sys, actions[0]), actions[1..], end);
    } else {
      CallCanGoOn(loc, sys);
    }
  }

  lemma CallCanGoOn(loc: Locale, sys: Sys)
    ensures Launching(sys.caller) <==> exists a :: IsCallers(a) && Enabled(loc, sys, a)
  {
    hide OpOk, JobOk, StepReady, ScanRuns;
    var go := match sys.caller
      case Loading(_) => Load(None)
      case Counting(_) => Count
      case Watching(_, _, _) => CallerWatch
      case Resetting(_) => ClearFlag
      case Arming(_) => ResetEvent
      case _ => CreateThread;
    if Launching(sys.caller) {
      assert IsCallers(go) && Enabled(loc, sys, go);
    }
  }
}
