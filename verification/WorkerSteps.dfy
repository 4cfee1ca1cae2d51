/**
 The indexer's threads as one transition system: the calling thread, the workers it creates, the
 per-drive scan threads of a rebuild, and the directory watchers. Every interleaving is a run.
 */
module WorkerSteps {
  import opened Text
  import opened IndexPools
  import opened IndexStores

  // ---------------------------------------------------------------- jobs and workers

  datatype Kind = Rebuild | AddPaths | RemovePaths

  /**
   The work of one worker thread: the roots it scans or removes, what an undisturbed scan of each
   would emit, and the roots to watch afterwards.
   */
  datatype Job = Job(kind: Kind, roots: seq<WString>, outputs: seq<seq<FileEntry>>, monitor: seq<WString>)

  /** One scan: what it has emitted, and whether it has returned. */
  datatype Scan = Scan(found: seq<FileEntry>, done: bool)

  datatype Pc =
    | Scanning                               // a rebuild's drive threads run
    | Checking                               // joined; about to look at the cancel flag
    | Beginning
    | Staging(next: nat)
    | Swapping
    | PathCheck(i: nat)                      // IndexPathsThread, before root i
    | PathScan(i: nat)
    | PathAdd(i: nat, next: nat)
    | PathEnd
    | Removing(i: nat)                       // RemovePathsThread
    | StopRoots
    | Saving
    | Monitoring(j: nat, checked: bool)
    | Signalling
    | Dead

  /** What a worker does to the store or to the disk; `clean` says that nothing changed the pool since EndWrite. */
  datatype Effect = Did(op: StoreOp) | Saved(pool: Pool, clean: bool)

  /**
   A worker. `aware`: the cancel flag it loads next can no longer look clear, since it or a scan it
   has joined has seen the flag set, or it has taken the watchers' lock after Cancel gave it back.
   */
  datatype Worker = Worker(job: Job, pc: Pc, scans: seq<Scan>, effects: seq<Effect>, aware: bool)

  datatype Caller =
    | Idle
    | Loading(job: Job)                      // StartIndexing, the index file is valid
    | Counting(job: Job)
    | Watching(job: Job, j: nat, checked: bool)
    | Resetting(job: Job)                    // about to clear the cancel flag
    | Arming(job: Job)                       // about to reset the event
    | Creating(job: Job)                     // about to create the thread
    | Clearing                               // Cancel, the flag is set

  datatype Sys = Sys(
    store: State, disk: Option<Pool>, clean: bool, cancel: bool, signalled: bool, watchers: seq<WString>,
    cleared: bool, caller: Caller, workers: seq<Worker>)

  /** The event is created signalled. `cleared`: a Cancel has run to its end and nothing was started since. */
  function Start(store: State, disk: Option<Pool>): Sys {
    Sys(store, disk, false, false, true, [], false, Idle, [])
  }

  function Found(scans: seq<Scan>): (r: seq<seq<FileEntry>>)
    ensures |r| == |scans| && forall i :: 0 <= i < |r| ==> r[i] == scans[i].found
  {
    seq(|scans|, i requires 0 <= i < |scans| => scans[i].found)
  }

  /** The entries of all drives, in drive order. */
  function AllFound(k: Worker): seq<FileEntry> {
    Flat(Found(k.scans))
  }

  function FirstPc(kind: Kind): Pc {
    match kind
    case Rebuild => Scanning
    case AddPaths => PathCheck(0)
    case RemovePaths => Removing(0)
  }

  function NewWorker(job: Job): Worker {
    Worker(job, FirstPc(job.kind), seq(|job.outputs|, _ => Scan([], false)), [], false)
  }

  ghost predicate JobOk(loc: Locale, job: Job) {
    && |job.outputs| == |job.roots| && (job.kind == AddPaths ==> job.monitor == job.roots)
    && forall i :: 0 <= i < |job.outputs| ==> AllCanonical(loc, job.outputs[i])
  }

  predicate Alive(k: Worker) {
    !k.pc.Dead?
  }

  // ---------------------------------------------------------------- steps

  datatype Action =
    | CallStart(job: Job, load: bool)        // StartIndexing; `load`: not forced and the file is valid
    | CallPaths(job: Job)                    // IndexPaths or RemovePaths
    | Load(incoming: Option<Pool>)           // None: the file is refused
    | Count
    | CallerWatch
    | ClearFlag
    | ResetEvent
    | CreateThread
    | SetCancel
    | StopAll
    | ScanMore(w: nat, i: nat)               // a scan emits one more file
    | ScanEnd(w: nat, i: nat)                // a scan is through, or saw the cancel flag
    | Step(w: nat, seen: bool)               // `seen`: what a load of the cancel flag in this step returns
    | Change(root: WString, op: StoreOp)     // a callback of the watcher of that root

  /** Scan i of the worker may run now. */
  predicate ScanRuns(k: Worker, i: nat) {
    i < |k.scans| && i < |k.job.outputs| && !k.scans[i].done && (k.pc.Scanning? || k.pc == PathScan(i))
  }

  predicate AllDone(k: Worker) {
    forall i :: 0 <= i < |k.scans| ==> k.scans[i].done
  }

  predicate StepReady(k: Worker) {
    match k.pc
    case Scanning => AllDone(k)
    case PathScan(i) => i < |k.scans| && k.scans[i].done
    case Dead => false
    case _ => true
  }

  /** A relaxed load of the cancel flag: a worker that is not aware of a set flag may still find it clear. */
  predicate CanSee(sys: Sys, k: Worker, seen: bool) {
    (k.aware ==> seen) && (seen ==> sys.cancel)
  }

  /** The calling thread alone stores to the cancel flag, so its own loads return the current value. */
  ghost predicate Enabled(loc: Locale, sys: Sys, a: Action) {
    match a
    case CallStart(job, _) => sys.caller.Idle? && job.kind == Rebuild && JobOk(loc, job)
    case CallPaths(job) => sys.caller.Idle? && job.kind != Rebuild && JobOk(loc, job)
    case Load(_) => sys.caller.Loading?
    case Count => sys.caller.Counting?
    case CallerWatch => sys.caller.Watching?
    case ClearFlag => sys.caller.Resetting?
    case ResetEvent => sys.caller.Arming?
    case CreateThread => sys.caller.Creating?
    case SetCancel => sys.caller.Idle?
    case StopAll => sys.caller.Clearing?
    case ScanMore(w, i) =>
      && w < |sys.workers| && ScanRuns(sys.workers[w], i)
      && |sys.workers[w].scans[i].found| < |sys.workers[w].job.outputs[i]|
    case ScanEnd(w, i) =>
      && w < |sys.workers| && ScanRuns(sys.workers[w], i)
      && (sys.workers[w].scans[i].found == sys.workers[w].job.outputs[i] || sys.cancel)
    case Step(w, seen) => w < |sys.workers| && StepReady(sys.workers[w]) && CanSee(sys, sys.workers[w], seen)
    case Change(root, op) =>
      root in sys.watchers && OpOk(loc, op) && (op.ApplyAdd? || op.ApplyRemove? || op.ApplyRename?)
  }

  /** `StartWatchersForRoots`, inside the lock: add a watcher unless the root has one. */
  function WithWatcher(watchers: seq<WString>, root: WString): seq<WString> {
    if root in watchers then watchers else watchers + [root]
  }

  /** `StopWatchersForRoots`: keep the watchers of other roots. */
  function WithoutRoots(watchers: seq<WString>, roots: seq<WString>): seq<WString> {
    if watchers == [] then []
    else
      var w := watchers[|watchers| - 1];
      WithoutRoots(watchers[..|watchers| - 1], roots) + (if w in roots then [] else [w])
  }

  /** What one step of a worker does besides moving on. */
  datatype Move =
    | Goto(pc: Pc)
    | Perform(op: StoreOp, pc: Pc)
    | Save(pc: Pc)
    | Watch(root: WString, pc: Pc)
    | Unwatch(roots: seq<WString>, pc: Pc)
    | Signal

  /** The bodies of IndexingThread, IndexPathsThread and RemovePathsThread, step by step. */
  function MoveOf(k: Worker, seen: bool): Move {
    match k.pc
    case Scanning => Goto(Checking)
    case Checking => Goto(if seen then Signalling else Beginning)
    case Beginning => Perform(BeginWrite, Staging(0))
    case Staging(next) =>
      if next < |AllFound(k)| then Perform(StageEntry(AllFound(k)[next]), Staging(next + 1)) else Goto(Swapping)
    case Swapping => Perform(EndWrite, Saving)
    case PathCheck(i) => Goto(if i < |k.job.roots| && !seen then PathScan(i) else PathEnd)
    case PathScan(i) => Goto(PathAdd(i, 0))
    case PathAdd(i, next) =>
      if i < |k.scans| && next < |k.scans[i].found|
      then Perform(ApplyAdd(k.scans[i].found[next]), PathAdd(i, next + 1)) else Goto(PathCheck(i + 1))
    case PathEnd => Goto(if seen then Signalling else Saving)
    case Removing(i) =>
      if i < |k.job.roots| then Perform(RemoveEntriesUnderPath(k.job.roots[i]), Removing(i + 1)) else Goto(StopRoots)
    case StopRoots => Unwatch(k.job.roots, Saving)
    case Saving => Save(if k.job.kind == RemovePaths then Signalling else Monitoring(0, false))
    case Monitoring(j, checked) =>
      if j >= |k.job.monitor| then Goto(Signalling)
      else if !checked then Goto(if seen then Signalling else Monitoring(j, true))
      else Watch(k.job.monitor[j], Monitoring(j + 1, false))
    case Signalling => Signal
    case Dead => Goto(Dead)
  }

  function PcAfter(m: Move): Pc {
    if m.Signal? then Dead else m.pc
  }

  function EffectOf(sys: Sys, m: Move): seq<Effect> {
    match m
    case Perform(op, _) => [Did(op)]
    case Save(_) => [Saved(sys.store.pool, sys.clean)]
    case _ => []
  }

  /** The worker after its move; the watchers' lock passes on what was done before Cancel gave it back. */
  function Moved(k: Worker, sys: Sys, m: Move, seen: bool): Worker {
    k.(pc := PcAfter(m), effects := k.effects + EffectOf(sys, m),
       aware := k.aware || seen || (sys.cleared && (m.Watch? || m.Unwatch?)))
  }

  /** The entries agree with their paths and fit; jobs and events bring no others, and the invariant keeps it so. */
  ghost predicate CanApply(loc: Locale, store: State, op: StoreOp) {
    OpOk(loc, op) && AllCanonical(loc, store.staging)
  }

  ghost function StoreAfter(loc: Locale, store: State, op: StoreOp): State {
    if CanApply(loc, store, op) then Apply(loc, store, op) else store
  }

  ghost function StoreNext(loc: Locale, store: State, m: Move): State {
    if m.Perform? then StoreAfter(loc, store, m.op) else store
  }

  function CleanNext(clean: bool, m: Move): bool {
    if m.Perform? then m.op.EndWrite? else clean
  }

  function WatchersNext(watchers: seq<WString>, m: Move): seq<WString> {
    match m
    case Watch(root, _) => WithWatcher(watchers, root)
    case Unwatch(roots, _) => WithoutRoots(watchers, roots)
    case _ => watchers
  }

  ghost function WorkerStep(loc: Locale, sys: Sys, w: nat, seen: bool): Sys
    requires w < |sys.workers|
  {
    var k := sys.workers[w];
    var m := MoveOf(k, seen);
    Sys(StoreNext(loc, sys.store, m), if m.Save? then Some(sys.store.pool) else sys.disk, CleanNext(sys.clean, m),
        sys.cancel, sys.signalled || m.Signal?, WatchersNext(sys.watchers, m), sys.cleared, sys.caller,
        sys.workers[w := Moved(k, sys, m, seen)])
  }

  ghost function Next(loc: Locale, sys: Sys, a: Action): Sys
    requires Enabled(loc, sys, a)
  {
    match a
    case CallStart(job, load) =>
      if !sys.signalled then sys
      else sys.(cleared := false, caller := if load then Loading(job) else Resetting(job))
    case CallPaths(job) => if !sys.signalled then sys else sys.(cleared := false, caller := Resetting(job))
    case Load(incoming) =>
      sys.(store := sys.store.(pool := if incoming.Some? then incoming.value else EMPTY), clean := false,
           caller := Counting(sys.caller.job))
    case Count =>
      sys.(caller := if |IndexPools.Live(sys.store.pool)| > 0 then Watching(sys.caller.job, 0, false)
                     else Resetting(sys.caller.job))
    case CallerWatch =>
      var Watching(job, j, checked) := sys.caller;
      if j >= |job.monitor| then sys.(caller := Idle)
      else if !checked then sys.(caller := if sys.cancel then Idle else Watching(job, j, true))
      else sys.(caller := Watching(job, j + 1, false), watchers := WithWatcher(sys.watchers, job.monitor[j]))
    case ClearFlag => sys.(cancel := false, caller := Arming(sys.caller.job))
    case ResetEvent => sys.(signalled := false, caller := Creating(sys.caller.job))
    case CreateThread => sys.(caller := Idle, workers := sys.workers + [NewWorker(sys.caller.job)])
    case SetCancel => sys.(cancel := true, caller := Clearing)
    case StopAll => sys.(watchers := [], cleared := true, caller := Idle)
    case ScanMore(w, i) =>
      var k := sys.workers[w];
      var n := |k.scans[i].found|;
      var more := Scan(k.scans[i].found + [k.job.outputs[i][n]], false);
      sys.(workers := sys.workers[w := k.(scans := k.scans[i := more])])
    case ScanEnd(w, i) =>
      var k := sys.workers[w];
      var early := k.scans[i].found != k.job.outputs[i];
      sys.(workers := sys.workers[w := k.(scans := k.scans[i := k.scans[i].(done := true)],
                                          aware := k.aware || early)])
    case Step(w, seen) => WorkerStep(loc, sys, w, seen)
    case Change(_, op) => sys.(store := StoreAfter(loc, sys.store, op), clean := false)
  }

  ghost predicate Run(loc: Locale, sys: Sys, actions: seq<Action>, end: Sys)
    decreases |actions|
  {
    if actions == [] then sys == end
    else Enabled(loc, sys, actions[0]) && Run(loc, Next(loc, sys, actions[0]), actions[1..], end)
  }
}
