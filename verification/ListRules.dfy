/**
 What each operation and each event does to the list, said in fields and in single characters.
 */
module ListRules {
  import opened Text
  import opened IndexPools
  import opened IndexStores
  import opened ChangeEvents

  // ---------------------------------------------------------------- the same path up to case

  ghost predicate SameButCase(loc: Locale, a: WString, b: WString) {
    |a| == |b| && forall i :: 0 <= i < |a| ==> loc.lower(a[i]) == loc.lower(b[i])
  }

  lemma SameIsSameFold(loc: Locale, a: WString, b: WString)
    ensures SameButCase(loc, a, b) <==> loc.Fold(a) == loc.Fold(b)
  {
    if loc.Fold(a) == loc.Fold(b) {
      assert forall i :: 0 <= i < |a| ==> loc.Fold(a)[i] == loc.Fold(b)[i];
    }
  }

  /** Record k is the first at this path. */
  ghost predicate FirstSame(loc: Locale, rs: seq<Record>, path: WString, k: nat) {
    && k < |rs| && SameButCase(loc, rs[k].path, path)
    && forall j :: 0 <= j < k ==> !SameButCase(loc, rs[j].path, path)
  }

  ghost predicate NoneSame(loc: Locale, rs: seq<Record>, path: WString) {
    forall j :: 0 <= j < |rs| ==> !SameButCase(loc, rs[j].path, path)
  }

  lemma FirstIsFound(loc: Locale, rs: seq<Record>, path: WString, k: nat)
    requires FirstSame(loc, rs, path, k)
    ensures FirstRecord(loc, rs, loc.Fold(path), 0) == Some(k)
  {
    hide SameButCase;
    forall j | 0 <= j <= k ensures SameButCase(loc, rs[j].path, path) <==> loc.Fold(rs[j].path) == loc.Fold(path) {
      SameIsSameFold(loc, rs[j].path, path);
    }
    assert loc.Fold(rs[k].path) == loc.Fold(path);
    assert forall j :: 0 <= j < k ==> loc.Fold(rs[j].path) != loc.Fold(path);
  }

  lemma NoneIsFound(loc: Locale, rs: seq<Record>, path: WString)
    requires NoneSame(loc, rs, path)
    ensures FirstRecord(loc, rs, loc.Fold(path), 0) == None
  {
    hide SameButCase;
    forall j | 0 <= j < |rs| ensures loc.Fold(rs[j].path) != loc.Fold(path) {
      SameIsSameFold(loc, rs[j].path, path);
    }
  }

  // ---------------------------------------------------------------- one operation

  /** What follows the last backslash starts at n. */
  ghost predicate NameStartsAt(path: WString, n: nat) {
    && n <= |path| && (n > 0 ==> path[n - 1] as int == '\\' as int)
    && forall i :: n <= i < |path| ==> path[i] as int != '\\' as int
  }

  ghost predicate IsRecordOf(r: Record, e: FileEntry) {
    && r.path == e.path && NameStartsAt(e.path, r.nameStart)
    && r.size == e.size && r.lastModified == e.lastModified && r.attributes == e.attributes
  }

  lemma RecordRule(e: FileEntry)
    ensures IsRecordOf(RecordFor(e), e)
  {
  }

  lemma RemoveRule(loc: Locale, s: ListState, path: WString)
    ensures var t := ApplyToList(loc, s, ApplyRemove(path));
            && t.staging == s.staging
            && (NoneSame(loc, s.live, path) ==> t.live == s.live)
            && forall k: nat :: FirstSame(loc, s.live, path, k) ==> t.live == s.live[..k] + s.live[k + 1..]
  {
    hide FirstSame, NoneSame, FirstRecord;
    if NoneSame(loc, s.live, path) {
      NoneIsFound(loc, s.live, path);
    }
    forall k: nat | FirstSame(loc, s.live, path, k)
      ensures k < |s.live|
      ensures ApplyToList(loc, s, ApplyRemove(path)).live == s.live[..k] + s.live[k + 1..]
    {
      FirstIsFound(loc, s.live, path, k);
    }
  }

  /** Under the new path, with the metadata it had. */
  ghost predicate IsMoved(r: Record, was: Record, newPath: WString) {
    && r.path == newPath && NameStartsAt(newPath, r.nameStart)
    && r.size == was.size && r.lastModified == was.lastModified && r.attributes == was.attributes
  }

  lemma RenameRule(loc: Locale, s: ListState, oldPath: WString, newPath: WString)
    ensures var t := ApplyToList(loc, s, ApplyRename(oldPath, newPath));
            && t.staging == s.staging
            && (NoneSame(loc, s.live, oldPath) ==> t.live == s.live)
            && forall k: nat :: FirstSame(loc, s.live, oldPath, k) ==>
                 && |t.live| == |s.live| && t.live[..|s.live| - 1] == s.live[..k] + s.live[k + 1..]
                 && IsMoved(t.live[|s.live| - 1], s.live[k], newPath)
  {
    hide FirstSame, NoneSame, FirstRecord;
    var t := ApplyToList(loc, s, ApplyRename(oldPath, newPath));
    if NoneSame(loc, s.live, oldPath) {
      NoneIsFound(loc, s.live, oldPath);
    }
    forall k: nat | FirstSame(loc, s.live, oldPath, k)
      ensures k < |s.live| == |t.live| && t.live[..|s.live| - 1] == s.live[..k] + s.live[k + 1..]
      ensures IsMoved(t.live[|s.live| - 1], s.live[k], newPath)
    {
      FirstIsFound(loc, s.live, oldPath, k);
    }
  }

  lemma AddRule(loc: Locale, s: ListState, e: FileEntry)
    ensures var t := ApplyToList(loc, s, ApplyAdd(e));
            && t.staging == s.staging && |t.live| == |s.live| + 1 && t.live[..|s.live|] == s.live
            && IsRecordOf(t.live[|s.live|], e)
  {
  }

  /** A bulk write's end lists the staged entries, one record each, in their order. */
  lemma EndWriteRule(loc: Locale, s: ListState)
    ensures var t := ApplyToList(loc, s, EndWrite);
            && t.staging == [] && |t.live| == |s.staging|
            && forall i :: 0 <= i < |s.staging| ==> IsRecordOf(t.live[i], s.staging[i])
  {
    hide IsRecordOf, RecordFor;
    forall i | 0 <= i < |s.staging| ensures IsRecordOf(RecordFor(s.staging[i]), s.staging[i]) {
      RecordRule(s.staging[i]);
    }
  }

  // ---------------------------------------------------------------- everything below a folder

  /** The path starts with the prefix, up to case. */
  ghost predicate StartsWith(loc: Locale, path: WString, prefix: WString) {
    |prefix| <= |path| && forall i :: 0 <= i < |prefix| ==> loc.lower(path[i]) == loc.lower(prefix[i])
  }

  /** The prefix is empty, ends in a backslash, or is followed by one: no sibling that merely begins alike. */
  ghost predicate IsBelow(loc: Locale, path: WString, prefix: WString) {
    && StartsWith(loc, path, prefix)
    && (prefix == [] || loc.lower(prefix[|prefix| - 1]) as int == '\\' as int
        || (|path| > |prefix| && loc.lower(path[|prefix|]) as int == '\\' as int))
  }

  ghost function Outside(loc: Locale, rs: seq<Record>, prefix: WString): seq<Record> {
    if rs == [] then []
    else
      Outside(loc, rs[..|rs| - 1], prefix)
      + (if IsBelow(loc, rs[|rs| - 1].path, prefix) then [] else [rs[|rs| - 1]])
  }

  lemma UnderIsBelow(loc: Locale, path: WString, prefix: WString)
    ensures PathUnder(loc, path, DirectoryPrefix(loc, prefix)) <==> IsBelow(loc, path, prefix)
  {
    var p, f := loc.Fold(path), loc.Fold(prefix);
    var lp := DirectoryPrefix(loc, prefix);
    assert StartsWith(loc, path, prefix) <==> f <= p by {
      if StartsWith(loc, path, prefix) {
        assert forall i :: 0 <= i < |f| ==> f[i] == p[i];
      }
      if f <= p {
        assert forall i :: 0 <= i < |f| ==> f[i] == p[i];
      }
    }
    if lp != f {
      assert lp <= p <==> f <= p && |p| > |f| && p[|f|] == BACKSLASH;
    }
  }

  lemma {:induction false} OutsideStays(loc: Locale, rs: seq<Record>, prefix: WString)
    ensures ListRemoveUnder(loc, rs, DirectoryPrefix(loc, prefix)) == Outside(loc, rs, prefix)
  {
    if rs != [] {
      hide PathUnder, IsBelow, DirectoryPrefix;
      OutsideStays(loc, rs[..|rs| - 1], prefix);
      UnderIsBelow(loc, rs[|rs| - 1].path, prefix);
    }
  }

  /** Removing a folder removes exactly the files below it, and the others keep their order. */
  lemma RemoveFolderRule(loc: Locale, s: ListState, prefix: WString)
    ensures ApplyToList(loc, s, RemoveEntriesUnderPath(prefix)) == s.(live := Outside(loc, s.live, prefix))
  {
    OutsideStays(loc, s.live, prefix);
  }

  // ---------------------------------------------------------------- one event

  /** The path is there and is not a directory. */
  ghost predicate IsFile(stat: Option<Attributes>) {
    stat.Some? && stat.value.attributes / 16 % 2 == 0
  }

  /** The record of the file at the path, as the file system describes it. */
  ghost predicate IsListed(r: Record, path: WString, a: Attributes) {
    && r.path == path && NameStartsAt(path, r.nameStart)
    && r.size == a.size && r.lastModified == a.lastModified && r.attributes == a.attributes
  }

  /** The list before, and behind it the file if there is one. */
  ghost predicate WithFile(before: seq<Record>, after: seq<Record>, path: WString, stat: Option<Attributes>) {
    if IsFile(stat) then
      |after| == |before| + 1 && after[..|before|] == before && IsListed(after[|before|], path, stat.value)
    else after == before
  }

  lemma WithRule(loc: Locale, rs: seq<Record>, path: WString, stat: Option<Attributes>)
    ensures WithFile(rs, ListWith(rs, Built(loc, path, stat)), path, stat)
  {
    if stat.Some? {
      var n := stat.value.attributes / 16;
      assert n % 2 == 0 || n % 2 == 1;
    }
  }

  /** The list without its first record at the path. */
  ghost predicate WithoutFirst(loc: Locale, before: seq<Record>, after: seq<Record>, path: WString) {
    && (NoneSame(loc, before, path) ==> after == before)
    && forall k: nat :: FirstSame(loc, before, path, k) ==> after == before[..k] + before[k + 1..]
  }

  lemma WithoutRule(loc: Locale, rs: seq<Record>, path: WString)
    ensures WithoutFirst(loc, rs, ListRemove(loc, rs, path), path)
  {
    hide FirstSame, NoneSame, ListRemove;
    RemoveRule(loc, ListState(rs, []), path);
    forall k: nat | FirstSame(loc, rs, path, k) ensures k < |rs| {
      FirstIsFound(loc, rs, path, k);
    }
  }

  /** An added file is appended, a removed one goes, a modified one goes and comes back as it is now. */
  lemma EventRule(loc: Locale, rs: seq<Record>, evt: ChangeEvent, stat: Option<Attributes>)
    ensures var after := ListChanged(loc, rs, evt, stat);
            match evt.kind
            case FileAdded => WithFile(rs, after, evt.path, stat)
            case FileRemoved => WithoutFirst(loc, rs, after, evt.path)
            case FileModified =>
              exists between :: WithoutFirst(loc, rs, between, evt.path) && WithFile(between, after, evt.path, stat)
            case FileRenamed =>
              if evt.oldPath == [] then WithFile(rs, after, evt.path, stat)
              else after == ApplyToList(loc, ListState(rs, []), ApplyRename(evt.oldPath, evt.path)).live
  {
    hide WithFile, WithoutFirst, ListWith, Built, ListRemove, ListRename;
    WithRule(loc, rs, evt.path, stat);
    WithoutRule(loc, rs, evt.path);
    WithRule(loc, ListRemove(loc, rs, evt.path), evt.path, stat);
  }
}
