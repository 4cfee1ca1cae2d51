/**
 Runs from the start that show where the indexer's threads fall short of what one would expect: a
 refused file that is not rebuilt, a watcher that outlives Cancel, a loaded start that watches
 nothing.
 */
module WorkerWitnesses {
  import opened Text
  import opened IndexPools
  import opened IndexStores
  import opened WorkerSteps
  import opened WorkerLifecycle
  import opened WorkerRuns

  // ---------------------------------------------------------------- an empty load that is not rebuilt

  /** A job without drives that watches one root. */
  function WatchOnly(root: WString): Job {
    Job(Rebuild, [], [], [root])
  }

  function AtRest(pool: Pool, watchers: seq<WString>): Sys {
    Sys(State(pool, []), None, false, false, true, watchers, false, Idle, [])
  }

  function CallerAt(pool: Pool, watchers: seq<WString>, caller: Caller): Sys {
    AtRest(pool, watchers).(caller := caller)
  }

  /** A counted index that is not empty is watched, and the call returns. */
  lemma CountThenWatch(loc: Locale, pool: Pool, watchers: seq<WString>, root: WString)
    requires IndexPools.Live(pool) != []
    ensures Run(loc, CallerAt(pool, watchers, Counting(WatchOnly(root))),
                [Count, CallerWatch, CallerWatch, CallerWatch], AtRest(pool, WithWatcher(watchers, root)))
  {
    var job := WatchOnly(root);
    var s0 := CallerAt(pool, watchers, Counting(job));
    var s1 := Next(loc, s0, Count);
    var s2 := Next(loc, s1, CallerWatch);
    var s3 := Next(loc, s2, CallerWatch);
    var s4 := Next(loc, s3, CallerWatch);
    assert s4 == AtRest(pool, WithWatcher(watchers, root)) && Run(loc, s4, [], s4);
    assert Enabled(loc, s0, Count) && Enabled(loc, s1, CallerWatch) && Enabled(loc, s2, CallerWatch)
           && Enabled(loc, s3, CallerWatch);
    hide Enabled, Next, Run, AtRest, WithWatcher;
    First(loc, s3, CallerWatch, [], s4);
    First(loc, s2, CallerWatch, [CallerWatch], s4);
    First(loc, s1, CallerWatch, [CallerWatch, CallerWatch], s4);
    First(loc, s0, Count, [CallerWatch, CallerWatch, CallerWatch], s4);
    assert [Count] + [CallerWatch, CallerWatch, CallerWatch] == [Count, CallerWatch, CallerWatch, CallerWatch];
  }

  function Filled(loc: Locale, e: FileEntry): Pool
    requires Storable(e)
  {
    Added(loc, EMPTY, e)
  }

  lemma OneIsListed(loc: Locale, e: FileEntry)
    requires Canonical(loc, e)
    ensures IndexPools.Live(Filled(loc, e)) != []
  {
    AddedAppends(loc, EMPTY, e);
  }

  /** The first start finds an index file with an entry and watches the root. */
  lemma FirstStartWatches(loc: Locale, root: WString, e: FileEntry)
    requires Canonical(loc, e)
    ensures Run(loc, AtRest(EMPTY, []),
                [CallStart(WatchOnly(root), true)]
                + ([Load(Some(Filled(loc, e)))] + [Count, CallerWatch, CallerWatch, CallerWatch]),
                AtRest(Filled(loc, e), [root]))
  {
    var p := Filled(loc, e);
    var job := WatchOnly(root);
    var s0 := AtRest(EMPTY, []);
    var s1 := CallerAt(EMPTY, [], Loading(job));
    assert Enabled(loc, s0, CallStart(job, true)) && Next(loc, s0, CallStart(job, true)) == s1;
    assert Enabled(loc, s1, Load(Some(p))) && Next(loc, s1, Load(Some(p))) == CallerAt(p, [], Counting(job));
    assert WithWatcher([], root) == [root];
    hide Enabled, Next, Run, AtRest, CallerAt, Filled, WithWatcher;
    OneIsListed(loc, e);
    CountThenWatch(loc, p, [], root);
    First(loc, s1, Load(Some(p)), [Count, CallerWatch, CallerWatch, CallerWatch], AtRest(p, [root]));
    First(loc, s0, CallStart(job, true),
          [Load(Some(p))] + [Count, CallerWatch, CallerWatch, CallerWatch], AtRest(p, [root]));
  }

  /** A second start has its file refused, but the watcher reports a file before the count. */
  lemma ReportThenWatch(loc: Locale, root: WString, e: FileEntry)
    requires Canonical(loc, e)
    ensures Run(loc, Next(loc, CallerAt(Filled(loc, e), [root], Loading(WatchOnly(root))), Load(None)),
                [Change(root, ApplyAdd(e))] + [Count, CallerWatch, CallerWatch, CallerWatch],
                AtRest(Filled(loc, e), [root]))
  {
    var p := Filled(loc, e);
    var job := WatchOnly(root);
    var s1 := Next(loc, CallerAt(p, [root], Loading(job)), Load(None));
    var a := Change(root, ApplyAdd(e));
    assert Enabled(loc, s1, a) && Next(loc, s1, a) == CallerAt(p, [root], Counting(job));
    assert WithWatcher([root], root) == [root];
    hide Enabled, Next, Run, AtRest, CallerAt, Filled, WithWatcher;
    OneIsListed(loc, e);
    CountThenWatch(loc, p, [root], root);
    First(loc, s1, a, [Count, CallerWatch, CallerWatch, CallerWatch], AtRest(p, [root]));
  }

  lemma SecondStartLoads(loc: Locale, root: WString, e: FileEntry)
    requires Canonical(loc, e)
    ensures exists before ::
              Run(loc, Start(State(EMPTY, []), None), before,
                  CallerAt(Filled(loc, e), [root], Loading(WatchOnly(root))))
  {
    var start, s, a := AtRest(EMPTY, []), AtRest(Filled(loc, e), [root]), CallStart(WatchOnly(root), true);
    StartAgain(loc, Filled(loc, e), root);
    assert start == Start(State(EMPTY, []), None);
    hide *;
    FirstStartWatches(loc, root, e);
    var first := [a] + ([Load(Some(Filled(loc, e)))] + [Count, CallerWatch, CallerWatch, CallerWatch]);
    Then(loc, start, first, s, a);
    assert Run(loc, Start(State(EMPTY, []), None), first + [a], Next(loc, s, a));
  }

  lemma StartAgain(loc: Locale, pool: Pool, root: WString)
    ensures var s, a := AtRest(pool, [root]), CallStart(WatchOnly(root), true);
            Enabled(loc, s, a) && Next(loc, s, a) == CallerAt(pool, [root], Loading(WatchOnly(root)))
  {
  }

  /** The file is refused at `sys`, and the call returns at `end` with no worker ever created. */
  ghost predicate RefusedAndNotRebuilt(loc: Locale, sys: Sys, actions: seq<Action>, end: Sys) {
    && sys.caller.Loading? && Run(loc, Next(loc, sys, Load(None)), actions, end) && NoStarts(actions)
    && end.caller.Idle? && end.workers == []
  }

  /** In some run the index file is refused, the call returns, and no worker was ever created. */
  lemma RefusedFileNotRebuilt(loc: Locale, root: WString, e: FileEntry)
    requires Canonical(loc, e)
    ensures exists before, sys, actions, end ::
              Run(loc, Start(State(EMPTY, []), None), before, sys) && RefusedAndNotRebuilt(loc, sys, actions, end)
  {
    var p := Filled(loc, e);
    var sys, end := CallerAt(p, [root], Loading(WatchOnly(root))), AtRest(p, [root]);
    var actions := [Change(root, ApplyAdd(e))] + [Count, CallerWatch, CallerWatch, CallerWatch];
    assert sys.caller.Loading? && end.caller.Idle? && end.workers == [] && NoStarts(actions);
    hide Run, Next, Start, Filled, NoStarts, AtRest, CallerAt;
    ReportThenWatch(loc, root, e);
    assert RefusedAndNotRebuilt(loc, sys, actions, end);
    SecondStartLoads(loc, root, e);
  }

  // ---------------------------------------------------------------- a watcher that outlives Cancel

  lemma {:induction false} Then(loc: Locale, s: Sys, actions: seq<Action>, t: Sys, a: Action)
    requires Run(loc, s, actions, t) && Enabled(loc, t, a)
    ensures Run(loc, s, actions + [a], Next(loc, t, a))
    decreases |actions|
  {
    hide Enabled, Next;
    if actions == [] {
      assert actions + [a] == [a] && [a][1..] == [];
    } else {
      assert (actions + [a])[1..] == actions[1..] + [a];
      Then(loc, Next(loc, s, actions[0]), actions[1..], t, a);
    }
  }

  /** One worker, adding the one root, is at `pc`. */
  ghost predicate Alone(sys: Sys, job: Job, pc: Pc, done: bool, watchers: seq<WString>) {
    && |sys.workers| == 1 && sys.workers[0].job == job && sys.workers[0].pc == pc
    && sys.workers[0].scans == [Scan([], done)] && !sys.workers[0].aware && sys.watchers == watchers && !sys.cleared
  }

  function OneRoot(root: WString): Job {
    Job(AddPaths, [root], [[]], [root])
  }

  lemma AloneSteps(loc: Locale, sys: Sys, root: WString, pc: Pc, done: bool)
    requires Alone(sys, OneRoot(root), pc, done, []) && StepReady(sys.workers[0])
    ensures Enabled(loc, sys, Step(0, false))
    ensures var m, t := MoveOf(sys.workers[0], false), Next(loc, sys, Step(0, false));
            && Alone(t, OneRoot(root), PcAfter(m), done, WatchersNext([], m))
            && t.cancel == sys.cancel && t.caller == sys.caller && t.cleared == sys.cleared
  {
    hide StoreNext, MoveOf, WatchersNext, EffectOf, StepReady;
  }

  /** Some run brings the lone worker to this point, with the caller idle and nothing cancelled. */
  ghost predicate CanReach(loc: Locale, root: WString, pc: Pc, done: bool) {
    exists actions, t :: Run(loc, Start(State(EMPTY, []), None), actions, t) && Waits(t, root, pc, done)
  }

  ghost predicate Waits(t: Sys, root: WString, pc: Pc, done: bool) {
    Alone(t, OneRoot(root), pc, done, []) && !t.cancel && t.caller.Idle?
  }

  lemma Reached(
      loc: Locale, root: WString, actions: seq<Action>, s: Sys, a: Action, pc: Pc, done: bool)
    requires Run(loc, Start(State(EMPTY, []), None), actions, s) && Enabled(loc, s, a)
    requires Waits(Next(loc, s, a), root, pc, done)
    ensures CanReach(loc, root, pc, done)
  {
    hide Run, Enabled, Next, Waits;
    Then(loc, Start(State(EMPTY, []), None), actions, s, a);
  }

  lemma CanLaunch(loc: Locale, root: WString)
    ensures CanReach(loc, root, PathCheck(0), false)
  {
    var s := Start(State(EMPTY, []), None);
    var job := OneRoot(root);
    var s1 := Next(loc, s, CallPaths(job));
    var s2 := Next(loc, s1, ClearFlag);
    var s3 := Next(loc, s2, ResetEvent);
    assert Waits(Next(loc, s3, CreateThread), root, PathCheck(0), false);
    assert Run(loc, s, [], s);
    hide Run, Enabled, Next;
    Then(loc, s, [], s, CallPaths(job));
    Then(loc, s, [] + [CallPaths(job)], s1, ClearFlag);
    Then(loc, s, [] + [CallPaths(job)] + [ClearFlag], s2, ResetEvent);
    Reached(loc, root, [] + [CallPaths(job)] + [ClearFlag] + [ResetEvent], s3, CreateThread, PathCheck(0), false);
  }

  lemma CanEndScan(loc: Locale, root: WString)
    requires CanReach(loc, root, PathScan(0), false)
    ensures CanReach(loc, root, PathScan(0), true)
  {
    var actions, t :| Run(loc, Start(State(EMPTY, []), None), actions, t) && Waits(t, root, PathScan(0), false);
    hide Run;
    Reached(loc, root, actions, t, ScanEnd(0, 0), PathScan(0), true);
  }

  /** One step of the lone worker that adds no watcher. */
  lemma CanStep(loc: Locale, root: WString, pc: Pc, next: Pc, done: bool)
    requires CanReach(loc, root, pc, done)
    requires var k := Worker(OneRoot(root), pc, [Scan([], done)], [], false);
             StepReady(k) && PcAfter(MoveOf(k, false)) == next && WatchersNext([], MoveOf(k, false)) == []
    ensures CanReach(loc, root, next, done)
  {
    var actions, t :| Run(loc, Start(State(EMPTY, []), None), actions, t) && Waits(t, root, pc, done);
    var k := Worker(OneRoot(root), pc, [Scan([], done)], [], false);
    assert StepReady(t.workers[0]) && MoveOf(t.workers[0], false) == MoveOf(k, false);
    hide Run, MoveOf, WatchersNext, Enabled, Next, StepReady, Start, PcAfter;
    AloneSteps(loc, t, root, pc, done);
    Reached(loc, root, actions, t, Step(0, false), next, done);
  }

  lemma CanAddAll(loc: Locale, root: WString)
    ensures CanReach(loc, root, PathCheck(1), true)
  {
    hide CanReach, AllFound, AllDone, WithWatcher, WithoutRoots;
    CanLaunch(loc, root);
    CanStep(loc, root, PathCheck(0), PathScan(0), false);
    CanEndScan(loc, root);
    CanStep(loc, root, PathScan(0), PathAdd(0, 0), true);
    CanStep(loc, root, PathAdd(0, 0), PathCheck(1), true);
  }

  /** To the moment the worker has looked at the flag and is about to take the watchers' lock. */
  lemma CanBeAboutToWatch(loc: Locale, root: WString)
    ensures CanReach(loc, root, Monitoring(0, true), true)
  {
    hide CanReach, AllFound, AllDone, WithWatcher, WithoutRoots;
    CanAddAll(loc, root);
    CanStep(loc, root, PathCheck(1), PathEnd, true);
    CanStep(loc, root, PathEnd, Saving, true);
    CanStep(loc, root, Saving, Monitoring(0, false), true);
    CanStep(loc, root, Monitoring(0, false), Monitoring(0, true), true);
  }

  /** Cancel runs to its end between the worker's look at the flag and its taking the lock. */
  lemma CancelThenWatch(loc: Locale, s: Sys, root: WString)
    requires Waits(s, root, Monitoring(0, true), true)
    ensures Enabled(loc, s, SetCancel) && Enabled(loc, Next(loc, s, SetCancel), StopAll)
    ensures var t := Next(loc, Next(loc, s, SetCancel), StopAll);
            && Enabled(loc, t, Step(0, false))
            && var last := Next(loc, t, Step(0, false));
               last.watchers == [root] && last.cleared && last.cancel
  {
    hide StoreNext, AllFound, OpOk, EffectOf;
  }

  /** The bound of one is met: a watcher can be started after Cancel has stopped and dropped all of them. */
  lemma CancelCanLeaveAWatcher(loc: Locale, root: WString)
    ensures exists actions, end ::
              Run(loc, Start(State(EMPTY, []), None), actions, end)
              && end.cleared && end.cancel && end.watchers == [root]
  {
    CanBeAboutToWatch(loc, root);
    var start := Start(State(EMPTY, []), None);
    var before, s :| Run(loc, start, before, s) && Waits(s, root, Monitoring(0, true), true);
    var s1 := Next(loc, s, SetCancel);
    var s2 := Next(loc, s1, StopAll);
    CancelThenWatch(loc, s, root);
    hide Run, Start, Next, Enabled, Waits;
    Then(loc, start, before, s, SetCancel);
    Then(loc, start, before + [SetCancel], s1, StopAll);
    Then(loc, start, before + [SetCancel] + [StopAll], s2, Step(0, false));
  }

  // ---------------------------------------------------------------- a loaded start that watches nothing

  /** After a Cancel, at rest with this index; the caller stands here. */
  function CancelledAt(pool: Pool, cleared: bool, caller: Caller): Sys {
    Sys(State(pool, []), None, false, true, true, [], cleared, caller, [])
  }

  lemma CancelAtStart(loc: Locale, job: Job)
    requires job.kind == Rebuild && JobOk(loc, job)
    ensures Run(loc, Start(State(EMPTY, []), None), [SetCancel] + ([StopAll] + ([CallStart(job, true)] + [])),
                CancelledAt(EMPTY, false, Loading(job)))
  {
    var start := Start(State(EMPTY, []), None);
    var s1, s2 := CancelledAt(EMPTY, false, Clearing), CancelledAt(EMPTY, true, Idle);
    var s3 := CancelledAt(EMPTY, false, Loading(job));
    assert Next(loc, start, SetCancel) == s1 && Next(loc, s1, StopAll) == s2;
    assert Enabled(loc, s2, CallStart(job, true)) && Next(loc, s2, CallStart(job, true)) == s3;
    assert Run(loc, s3, [], s3);
    hide Next, Run, JobOk;
    First(loc, s2, CallStart(job, true), [], s3);
    First(loc, s1, StopAll, [CallStart(job, true)] + [], s3);
    First(loc, start, SetCancel, [StopAll] + ([CallStart(job, true)] + []), s3);
  }

  lemma LoadCancelled(loc: Locale, job: Job, pool: Pool)
    requires IndexPools.Live(pool) != [] && job.monitor != []
    ensures Run(loc, CancelledAt(EMPTY, false, Loading(job)), [Load(Some(pool))] + ([Count] + ([CallerWatch] + [])),
                CancelledAt(pool, false, Idle))
  {
    var s0, s1 := CancelledAt(EMPTY, false, Loading(job)), CancelledAt(pool, false, Counting(job));
    var s2, s3 := CancelledAt(pool, false, Watching(job, 0, false)), CancelledAt(pool, false, Idle);
    assert Next(loc, s0, Load(Some(pool))) == s1 && Next(loc, s1, Count) == s2 && Next(loc, s2, CallerWatch) == s3;
    assert Run(loc, s3, [], s3);
    hide Next, Run, IndexPools.Live;
    First(loc, s2, CallerWatch, [], s3);
    First(loc, s1, Count, [CallerWatch] + [], s3);
    First(loc, s0, Load(Some(pool)), [Count] + ([CallerWatch] + []), s3);
  }

  /** A start after a Cancel can load an index with entries and watch nothing, with no worker to do it later. */
  lemma CancelledLoadWatchesNothing(loc: Locale, root: WString, e: FileEntry)
    requires Canonical(loc, e)
    ensures exists before, sys, actions, end ::
              && Run(loc, Start(State(EMPTY, []), None), before, sys)
              && sys.caller == Loading(WatchOnly(root)) && Run(loc, sys, actions, end)
              && end.caller.Idle? && end.workers == [] && end.watchers == [] && IndexPools.Live(end.store.pool) != []
  {
    var job := WatchOnly(root);
    hide Run, IndexPools.Live, Filled, Start;
    OneIsListed(loc, e);
    CancelAtStart(loc, job);
    LoadCancelled(loc, job, Filled(loc, e));
  }
}
