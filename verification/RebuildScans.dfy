/**
 The rebuild and its scanners joined: what the index lists once the drives have been scanned.
 */
module RebuildScans {
  import opened Text
  import opened IndexPools
  import opened IndexStores
  import opened FileTree
  import opened FindFileScanners
  import opened MftScanners
  import opened VolumeTables
  import opened ScannerAgreement
  import opened ScanEntries
  import WorkerSteps
  import WorkerTraces
  import WorkerLifecycle

  /** One drive or path, scanned by walking its tree or by reading its table in some order. */
  datatype Volume =
    | Walked(root: WString, top: Node)
    | Tabled(root: WString, top: Node, records: seq<UsnRecord>, order: seq<nat>)

  /** The scan of this volume; a table scan reads a table that describes the tree. */
  ghost predicate IsScanOf(loc: Locale, excluded: seq<WString>, v: Volume, output: seq<FileEntry>) {
    match v
    case Walked(root, top) => output == Bfs(loc, excluded, [Pending(root, top)])
    case Tabled(root, top, records, order) =>
      && EndsInSeparator(root) && Describes(records, top) && multiset(order) == multiset(TableOf(records).Keys)
      && output == EmitAll(loc, excluded, TableOf(records), root, order)
  }

  /** The paths of the volume's files that its scanner lists, in tree order. */
  ghost function Listed(loc: Locale, excluded: seq<WString>, v: Volume): seq<WString> {
    var places := Places(loc, [Ancestor(v.root, v.top.readable)], v.top.children);
    if v.Walked? then PathList(OpenEntries(loc, excluded, places)) else Uncovered(loc, excluded, places)
  }

  lemma ScanLists(loc: Locale, excluded: seq<WString>, v: Volume, output: seq<FileEntry>)
    requires IsScanOf(loc, excluded, v, output)
    ensures multiset(PathList(output)) == multiset(Listed(loc, excluded, v))
  {
    hide Bfs, EmitAll, Describes, Places, OpenEntries, Uncovered, TableOf;
    if v.Walked? {
      WalkListsOpenFiles(loc, excluded, v.root, v.top);
      var places := Places(loc, [Ancestor(v.root, v.top.readable)], v.top.children);
      PathsPermuted(output, OpenEntries(loc, excluded, places));
    } else {
      TableScanListsUncovered(loc, excluded, v.root, v.top, v.records, v.order);
    }
  }

  /** The names the file system gives are proper, and every path the scan emits is below 2^16 characters. */
  ghost predicate Fitting(v: Volume, output: seq<FileEntry>) {
    NamesProper(v.top.children) && forall i :: 0 <= i < |output| ==> |output[i].path| < U16_LIMIT
  }

  /** What either scanner emits goes into the index as it is: name, folded name and lengths agree with the path. */
  lemma ScanIsCanonical(loc: Locale, excluded: seq<WString>, v: Volume, output: seq<FileEntry>)
    requires IsScanOf(loc, excluded, v, output) && Fitting(v, output)
    ensures AllCanonical(loc, output)
  {
    hide Bfs, EmitAll, Describes, TableOf, Canonical, NamesProper, ProperName;
    forall i | 0 <= i < |output| ensures Canonical(loc, output[i]) {
      match v
      case Walked(root, top) => WalkedIsCanonical(loc, excluded, root, top, output[i]);
      case Tabled(root, top, records, order) =>
        DescribedNamesProper(records, top);
        EmittedIsCanonical(loc, excluded, TableOf(records), root, order, output[i]);
    }
  }

  /** A rebuild over scanned volumes is a job the indexer can be given. */
  lemma ScansMakeJob(loc: Locale, excluded: seq<WString>, volumes: seq<Volume>, job: WorkerSteps.Job)
    requires job.kind.Rebuild? && |job.roots| == |job.outputs| && AreScansOf(loc, excluded, volumes, job.outputs)
    requires forall i :: 0 <= i < |volumes| ==> Fitting(volumes[i], job.outputs[i])
    ensures WorkerSteps.JobOk(loc, job)
  {
    hide IsScanOf, Fitting, AllCanonical;
    forall i | 0 <= i < |job.outputs| ensures AllCanonical(loc, job.outputs[i]) {
      ScanIsCanonical(loc, excluded, volumes[i], job.outputs[i]);
    }
  }

  function RecordPaths(rs: seq<Record>): seq<WString> {
    seq(|rs|, i requires 0 <= i < |rs| => rs[i].path)
  }

  lemma RecordPathsOf(found: seq<FileEntry>)
    ensures RecordPaths(RecordsFor(found)) == PathList(found)
  {
  }

  /** The files of all volumes, in drive order. */
  ghost function AllListed(loc: Locale, excluded: seq<WString>, volumes: seq<Volume>): seq<WString> {
    if volumes == [] then []
    else AllListed(loc, excluded, volumes[..|volumes| - 1]) + Listed(loc, excluded, volumes[|volumes| - 1])
  }

  ghost predicate AreScansOf(loc: Locale, excluded: seq<WString>, volumes: seq<Volume>, outputs: seq<seq<FileEntry>>) {
    |volumes| == |outputs| && forall i :: 0 <= i < |outputs| ==> IsScanOf(loc, excluded, volumes[i], outputs[i])
  }

  /** The concatenated scans split at the drives, and list each drive's files there. */
  lemma {:induction false} ScansList(
      loc: Locale, excluded: seq<WString>, volumes: seq<Volume>, outputs: seq<seq<FileEntry>>)
    requires AreScansOf(loc, excluded, volumes, outputs)
    ensures multiset(PathList(Flat(outputs))) == multiset(AllListed(loc, excluded, volumes))
    decreases |outputs|
  {
    if outputs == [] {
      assert Flat(outputs) == [];
    } else {
      var n := |outputs| - 1;
      hide IsScanOf, Listed, PathList;
      ScansList(loc, excluded, volumes[..n], outputs[..n]);
      ScanLists(loc, excluded, volumes[n], outputs[n]);
      PathListConcat(Flat(outputs[..n]), outputs[n]);
    }
  }

  /**
   In every run, however the drive threads interleave: between a rebuild's EndWrite and the next
   change the index lists, drive after drive in the job's order, each drive's scan, and nothing
   but the files its scanner may see.
   */
  lemma RebuildListsVolumes(
      loc: Locale, store: State, disk: Option<Pool>, actions: seq<WorkerSteps.Action>, end: WorkerSteps.Sys,
      w: nat, excluded: seq<WString>, volumes: seq<Volume>)
    requires AllCanonical(loc, store.staging)
    requires WorkerSteps.Run(loc, WorkerSteps.Start(store, disk), actions, end)
    requires w < |end.workers| && end.workers[w].job.kind.Rebuild? && end.workers[w].pc.Saving? && end.clean
    requires HasRoom(WorkerTraces.BulkPool(loc, WorkerTraces.Whole(end.workers[w].job)))
    requires AreScansOf(loc, excluded, volumes, end.workers[w].job.outputs)
    ensures RecordPaths(Live(end.store.pool)) == PathList(Flat(end.workers[w].job.outputs))
    ensures multiset(RecordPaths(Live(end.store.pool))) == multiset(AllListed(loc, excluded, volumes))
  {
    hide *;
    WorkerLifecycle.RebuildIsDeterministic(loc, store, disk, actions, end, w);
    WholeIsFlat(end.workers[w].job);
    RecordPathsOf(Flat(end.workers[w].job.outputs));
    ScansList(loc, excluded, volumes, end.workers[w].job.outputs);
  }

  lemma WholeIsFlat(job: WorkerSteps.Job)
    ensures WorkerTraces.Whole(job) == Flat(job.outputs)
  {
  }
}
