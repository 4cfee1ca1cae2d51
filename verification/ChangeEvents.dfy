/**
 One file-system event reaching the store: what it does to the list of files, and exactly when it
 leaves two entries for one path.
 */
module ChangeEvents {
  import opened Text
  import opened IndexPools
  import opened IndexStores
  import FileTree

  datatype ChangeType = FileAdded | FileRemoved | FileRenamed | FileModified

  datatype ChangeEvent = ChangeEvent(kind: ChangeType, path: WString, oldPath: WString)

  /** What the file system says about the event's path at the time it is handled. */
  datatype Attributes = Attributes(size: U64, lastModified: U64, attributes: U32)

  /** The entry to add, unless the path is gone or a directory. */
  function Built(loc: Locale, path: WString, stat: Option<Attributes>): (r: Option<FileEntry>)
    ensures r.Some? ==> Addable(r.value)
  {
    match stat
    case None => None
    case Some(a) =>
      if a.attributes / FileTree.DIRECTORY % 2 == 1 then None
      else
        var name := path[NameStart(path)..];
        Some(FileEntry(name, loc.Fold(name), path, a.size, a.lastModified, a.attributes))
  }

  function PoolWith(loc: Locale, p: Pool, e: Option<FileEntry>): Pool
    requires e.Some? ==> Addable(e.value)
  {
    if e.Some? then Added(loc, p, e.value) else p
  }

  function ListWith(rs: seq<Record>, e: Option<FileEntry>): seq<Record> {
    if e.Some? then rs + [RecordFor(e.value)] else rs
  }

  function PoolChanged(loc: Locale, p: Pool, evt: ChangeEvent, stat: Option<Attributes>): Pool {
    var e := Built(loc, evt.path, stat);
    match evt.kind
    case FileAdded => PoolWith(loc, p, e)
    case FileModified => PoolWith(loc, Removed(loc, p, evt.path), e)
    case FileRemoved => Removed(loc, p, evt.path)
    case FileRenamed => if evt.oldPath != [] then Renamed(loc, p, evt.oldPath, evt.path) else PoolWith(loc, p, e)
  }

  function ListChanged(loc: Locale, rs: seq<Record>, evt: ChangeEvent, stat: Option<Attributes>): seq<Record> {
    var e := Built(loc, evt.path, stat);
    match evt.kind
    case FileAdded => ListWith(rs, e)
    case FileModified => ListWith(ListRemove(loc, rs, evt.path), e)
    case FileRemoved => ListRemove(loc, rs, evt.path)
    case FileRenamed => if evt.oldPath != [] then ListRename(loc, rs, evt.oldPath, evt.path) else ListWith(rs, e)
  }

  /** `BuildAndApplyAdd`. */
  method BuildAndApplyAdd(store: IndexStore, path: WString, stat: Option<Attributes>) returns (added: bool)
    requires store.Valid()
    modifies store.pool
    ensures added == Built(store.loc, path, stat).Some?
    ensures store.Value().staging == old(store.Value().staging)
    ensures store.Value().pool == PoolWith(store.loc, old(store.Value().pool), Built(store.loc, path, stat))
  {
    if stat.None? {
      return false;
    }
    if stat.value.attributes / FileTree.DIRECTORY % 2 == 1 {
      return false;
    }
    var name := path[NameStart(path)..];
    var fad := stat.value;
    store.ApplyAdd(FileEntry(name, store.loc.Fold(name), path, fad.size, fad.lastModified, fad.attributes));
    added := true;
  }

  method ApplyChange(store: IndexStore, evt: ChangeEvent, stat: Option<Attributes>)
    requires store.Valid()
    modifies store.pool
    ensures store.Value() == old(store.Value()).(pool := PoolChanged(store.loc, old(store.Value().pool), evt, stat))
  {
    hide Removed, Renamed, Added, Built;
    var added;
    match evt.kind {
      case FileAdded =>
        added := BuildAndApplyAdd(store, evt.path, stat);
      case FileModified =>
        store.ApplyRemove(evt.path);
        added := BuildAndApplyAdd(store, evt.path, stat);
      case FileRemoved =>
        store.ApplyRemove(evt.path);
      case FileRenamed =>
        if |evt.oldPath| > 0 {
          store.ApplyRename(evt.oldPath, evt.path);
        } else {
          added := BuildAndApplyAdd(store, evt.path, stat);
        }
    }
  }

  lemma BuiltIsCanonical(loc: Locale, path: WString, stat: Option<Attributes>)
    requires |path| < U16_LIMIT && Built(loc, path, stat).Some?
    ensures Canonical(loc, Built(loc, path, stat).value)
  {
  }

  /** On the list of files, the event does what its kind says. */
  lemma ChangeRefines(loc: Locale, p: Pool, evt: ChangeEvent, stat: Option<Attributes>)
    requires WellFormed(loc, p) && HasRoom(p) && |evt.path| < U16_LIMIT
    ensures WellFormed(loc, PoolChanged(loc, p, evt, stat))
    ensures Live(PoolChanged(loc, p, evt, stat)) == ListChanged(loc, Live(p), evt, stat)
  {
    var e := Built(loc, evt.path, stat);
    if e.Some? {
      BuiltIsCanonical(loc, evt.path, stat);
    }
    hide WellFormed, Live, Added, Removed, Renamed, Canonical, ListRemove, ListRename, Built, RecordFor, HasRoom;
    match evt.kind
    case FileAdded =>
      AddedOrNot(loc, p, e);
    case FileModified =>
      RemovedRefines(loc, p, evt.path);
      AddedOrNot(loc, Removed(loc, p, evt.path), e);
    case FileRemoved =>
      RemovedRefines(loc, p, evt.path);
    case FileRenamed =>
      if evt.oldPath != [] {
        RenamedRefines(loc, p, evt.oldPath, evt.path);
      } else {
        AddedOrNot(loc, p, e);
      }
  }

  lemma AddedOrNot(loc: Locale, p: Pool, e: Option<FileEntry>)
    requires WellFormed(loc, p) && HasRoom(p) && (e.Some? ==> Canonical(loc, e.value))
    ensures WellFormed(loc, PoolWith(loc, p, e)) && Live(PoolWith(loc, p, e)) == ListWith(Live(p), e)
  {
    hide WellFormed, Live, Added, HasRoom, RecordFor;
    if e.Some? {
      AddedAppends(loc, p, e.value);
    }
  }

  // ---------------------------------------------------------------- one entry per path

  ghost predicate UniquePaths(loc: Locale, rs: seq<Record>) {
    forall i, j :: 0 <= i < j < |rs| ==> loc.Fold(rs[i].path) != loc.Fold(rs[j].path)
  }

  predicate HasPath(loc: Locale, rs: seq<Record>, path: WString) {
    exists i :: 0 <= i < |rs| && loc.Fold(rs[i].path) == loc.Fold(path)
  }

  lemma AppendUniqueIff(loc: Locale, rs: seq<Record>, r: Record)
    requires UniquePaths(loc, rs)
    ensures UniquePaths(loc, rs + [r]) <==> !HasPath(loc, rs, r.path)
  {
    var t := rs + [r];
    if i :| 0 <= i < |rs| && loc.Fold(rs[i].path) == loc.Fold(r.path) {
      assert t[i] == rs[i] && t[|rs|] == r;
    } else {
      forall i, j | 0 <= i < j < |t| ensures loc.Fold(t[i].path) != loc.Fold(t[j].path) {
        assert t[i] == rs[i];
      }
    }
  }

  /** The event would add a path the list still has. */
  predicate Duplicates(loc: Locale, rs: seq<Record>, evt: ChangeEvent, stat: Option<Attributes>) {
    match evt.kind
    case FileAdded => Built(loc, evt.path, stat).Some? && HasPath(loc, rs, evt.path)
    case FileModified => false
    case FileRemoved => false
    case FileRenamed =>
      if evt.oldPath == [] then Built(loc, evt.path, stat).Some? && HasPath(loc, rs, evt.path)
      else HasPath(loc, rs, evt.oldPath) && HasPath(loc, ListRemove(loc, rs, evt.oldPath), evt.path)
  }

  /**
   Adding does not look for the path first: an index with one entry per path keeps that property
   if and only if the event brings no path that is already there. A modification always keeps it.
   */
  lemma UniqueKeptIff(loc: Locale, rs: seq<Record>, evt: ChangeEvent, stat: Option<Attributes>)
    requires UniquePaths(loc, rs)
    ensures UniquePaths(loc, ListChanged(loc, rs, evt, stat)) <==> !Duplicates(loc, rs, evt, stat)
  {
    var e := Built(loc, evt.path, stat);
    assert e.Some? ==> RecordFor(e.value).path == evt.path;
    hide Built, UniquePaths, HasPath, RecordFor, ListRemove;
    match evt.kind
    case FileAdded =>
      AppendUnlessNone(loc, rs, e);
    case FileModified =>
      AppendUnlessNone(loc, ListRemove(loc, rs, evt.path), e);
    case FileRemoved =>
    case FileRenamed =>
      if evt.oldPath == [] {
        AppendUnlessNone(loc, rs, e);
      } else {
        RenameUniqueIff(loc, rs, evt.oldPath, evt.path);
      }
  }

  lemma AppendUnlessNone(loc: Locale, rs: seq<Record>, e: Option<FileEntry>)
    requires UniquePaths(loc, rs)
    ensures UniquePaths(loc, ListWith(rs, e)) <==> e.None? || !HasPath(loc, rs, RecordFor(e.value).path)
  {
    hide UniquePaths, HasPath, RecordFor;
    if e.Some? {
      AppendUniqueIff(loc, rs, RecordFor(e.value));
    }
  }

  lemma RenameUniqueIff(loc: Locale, rs: seq<Record>, oldPath: WString, newPath: WString)
    requires UniquePaths(loc, rs)
    ensures UniquePaths(loc, ListRename(loc, rs, oldPath, newPath)) <==>
            !(HasPath(loc, rs, oldPath) && HasPath(loc, ListRemove(loc, rs, oldPath), newPath))
  {
    var k := FirstRecord(loc, rs, loc.Fold(oldPath), 0);
    hide UniquePaths;
    if k.Some? {
      AppendUniqueIff(loc, Without(rs, k.value), rs[k.value].(path := newPath, nameStart := NameStart(newPath)));
    }
  }

  /** The index holds "a"; a second report that "a" was added, as after a missed removal, lists it twice. */
  lemma AddedTwice(loc: Locale)
    ensures var e, stat := FileEntry([97], loc.Fold([97]), [97], 0, 0, 0), Attributes(0, 0, 0);
            var rs, evt := [RecordFor(e)], ChangeEvent(FileAdded, [97], []);
            && UniquePaths(loc, rs)
            && ListChanged(loc, rs, evt, Some(stat)) == [RecordFor(e), RecordFor(e)]
            && !UniquePaths(loc, ListChanged(loc, rs, evt, Some(stat)))
  {
    var e, stat := FileEntry([97], loc.Fold([97]), [97], 0, 0, 0), Attributes(0, 0, 0);
    assert [97][NameStart([97])..] == [97];
    var after := ListChanged(loc, [RecordFor(e)], ChangeEvent(FileAdded, [97], []), Some(stat));
    assert after[0].path == after[1].path;
  }
}
