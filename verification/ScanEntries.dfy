/**
 What the two scanners emit, field by field and in numbers, and that all of it can go into the index.
 */
module ScanEntries {
  import opened Text
  import opened IndexPools
  import opened FileTree
  import opened FindFileScanners
  import opened MftScanners
  import opened VolumeTables

  // ---------------------------------------------------------------- exclusion

  ghost predicate SameLetters(loc: Locale, exclusion: WString, path: WString) {
    |exclusion| <= |path| && forall i :: 0 <= i < |exclusion| ==> loc.lower(path[i]) == loc.lower(exclusion[i])
  }

  /** The path is the exclusion or goes on behind a backslash, whether the exclusion ends in one or the path has it. */
  ghost predicate IsWithin(loc: Locale, exclusion: WString, path: WString) {
    && SameLetters(loc, exclusion, path)
    && (|path| > |exclusion| ==>
          || (exclusion != [] && loc.lower(exclusion[|exclusion| - 1]) as int == '\\' as int)
          || loc.lower(path[|exclusion|]) as int == '\\' as int)
  }

  lemma OneExclusionRule(loc: Locale, exclusion: WString, path: WString)
    ensures Covers(loc, exclusion, path) <==> IsWithin(loc, exclusion, path)
  {
    var e, p := loc.Fold(exclusion), loc.Fold(path);
    assert SameLetters(loc, exclusion, path) <==> e <= p by {
      if SameLetters(loc, exclusion, path) {
        assert forall i :: 0 <= i < |e| ==> e[i] == p[i];
      }
      if e <= p {
        assert forall i :: 0 <= i < |e| ==> e[i] == p[i];
      }
    }
    assert e == p <==> e <= p && |e| == |p|;
    if !EndsInSeparator(e) {
      assert Slash(e) <= p <==> e <= p && |p| > |e| && p[|e|] == 92;
    }
  }

  /** A path is excluded exactly when it is one of the exclusions or below one, whatever their letter case. */
  lemma ExclusionRule(loc: Locale, excluded: seq<WString>, path: WString)
    ensures IsExcluded(loc, excluded, path)
       <==> exists i :: 0 <= i < |excluded| && IsWithin(loc, excluded[i], path)
  {
    hide Covers, IsWithin;
    forall i | 0 <= i < |excluded| ensures Covers(loc, excluded[i], path) <==> IsWithin(loc, excluded[i], path) {
      OneExclusionRule(loc, excluded[i], path);
    }
  }

  // ---------------------------------------------------------------- the walk

  /** `dir\name`, with one backslash between them. */
  function Below(dir: WString, name: WString): WString {
    if dir != [] && dir[|dir| - 1] as int == '\\' as int then dir + name else dir + [92] + name
  }

  function PathDown(dir: WString, names: seq<WString>): WString
    decreases |names|
  {
    if names == [] then dir else PathDown(Below(dir, names[0]), names[1..])
  }

  ghost predicate Lowered(loc: Locale, a: WString, b: WString) {
    |a| == |b| && forall i :: 0 <= i < |a| ==> b[i] == loc.lower(a[i])
  }

  /** Attribute 0x10 is that of directories, 0x400 that of reparse points; "." and ".." are no files. */
  ghost predicate IsWalked(n: Node) {
    n.attributes / 1024 % 2 == 0 && n.name != ['.' as int] && n.name != ['.' as int, '.' as int]
  }

  /** The names lead down through directories that can be listed and are not excluded to the file n. */
  ghost predicate OpenWay(
      loc: Locale, excluded: seq<WString>, dir: WString, forest: seq<Node>, names: seq<WString>, n: Node)
    decreases |names|
  {
    && names != []
    && exists i :: 0 <= i < |forest| && forest[i].name == names[0] && IsWalked(forest[i])
                   && LeadsOn(loc, excluded, dir, forest[i], names, n)
  }

  ghost predicate LeadsOn(loc: Locale, excluded: seq<WString>, dir: WString, here: Node, names: seq<WString>, n: Node)
    requires names != []
    decreases |names|, 0
  {
    var path := Below(dir, here.name);
    if |names| == 1 then here == n && n.attributes / 16 % 2 == 0
    else
      && here.attributes / 16 % 2 == 1 && here.readable && !IsExcluded(loc, excluded, path)
      && OpenWay(loc, excluded, path, here.children, names[1..], n)
  }

  /** The entry says of the file at the path what the listing says. */
  ghost predicate IsEntryOf(loc: Locale, e: FileEntry, path: WString, n: Node) {
    && e.path == path && e.name == n.name && Lowered(loc, n.name, e.nameLower)
    && e.size == n.size && e.lastModified == n.lastModified && e.attributes == n.attributes
  }

  ghost predicate IsListed(loc: Locale, excluded: seq<WString>, dir: WString, forest: seq<Node>, e: FileEntry) {
    exists names, n :: OpenWay(loc, excluded, dir, forest, names, n) && IsEntryOf(loc, e, PathDown(dir, names), n)
  }

  lemma OneFileEntry(loc: Locale, dir: WString, n: Node, e: FileEntry)
    ensures IsEntryOf(loc, e, Below(dir, n.name), n) <==> e == FoundEntry(loc, dir, n)
  {
    assert Below(dir, n.name) == Slash(dir) + n.name;
    if Lowered(loc, n.name, e.nameLower) {
      assert e.nameLower == loc.Fold(n.name);
    }
  }

  /** What the last node of a forest contributes to the walk. */
  function LastListed(loc: Locale, excluded: seq<WString>, dir: WString, n: Node): seq<FileEntry> {
    var path := Slash(dir) + n.name;
    if n.IsSkipped() then []
    else if !n.IsDirectory() then [FoundEntry(loc, dir, n)]
    else if IsOpen(loc, excluded, Pending(path, n)) then Visible(loc, excluded, path, n.children)
    else []
  }

  lemma FromTheFront(loc: Locale, excluded: seq<WString>, dir: WString, forest: seq<Node>, e: FileEntry)
    requires forest != [] && IsListed(loc, excluded, dir, forest[..|forest| - 1], e)
    ensures IsListed(loc, excluded, dir, forest, e)
  {
    var front := forest[..|forest| - 1];
    var names, n :| OpenWay(loc, excluded, dir, front, names, n) && IsEntryOf(loc, e, PathDown(dir, names), n);
    var i :| 0 <= i < |front| && front[i].name == names[0] && IsWalked(front[i])
             && LeadsOn(loc, excluded, dir, front[i], names, n);
    hide LeadsOn, IsWalked, IsEntryOf, PathDown;
    assert forest[i] == front[i];
    assert OpenWay(loc, excluded, dir, forest, names, n);
  }

  ghost predicate ListedByLast(loc: Locale, excluded: seq<WString>, dir: WString, last: Node, e: FileEntry) {
    exists names: seq<WString>, n ::
      && names != [] && names[0] == last.name && IsWalked(last) && LeadsOn(loc, excluded, dir, last, names, n)
      && IsEntryOf(loc, e, PathDown(dir, names), n)
  }

  lemma ListedParts(loc: Locale, excluded: seq<WString>, dir: WString, forest: seq<Node>, e: FileEntry)
    requires forest != []
    ensures IsListed(loc, excluded, dir, forest, e) <==>
              || IsListed(loc, excluded, dir, forest[..|forest| - 1], e)
              || ListedByLast(loc, excluded, dir, forest[|forest| - 1], e)
  {
    var front, last := forest[..|forest| - 1], forest[|forest| - 1];
    hide LeadsOn, IsWalked, IsEntryOf, PathDown;
    if IsListed(loc, excluded, dir, front, e) {
      FromTheFront(loc, excluded, dir, forest, e);
    }
    if ListedByLast(loc, excluded, dir, last, e) {
      var names: seq<WString>, n :|
        && names != [] && names[0] == last.name && IsWalked(last) && LeadsOn(loc, excluded, dir, last, names, n)
        && IsEntryOf(loc, e, PathDown(dir, names), n);
      assert OpenWay(loc, excluded, dir, forest, names, n);
    }
    if IsListed(loc, excluded, dir, forest, e) {
      var names, n :| OpenWay(loc, excluded, dir, forest, names, n) && IsEntryOf(loc, e, PathDown(dir, names), n);
      var i :| 0 <= i < |forest| && forest[i].name == names[0] && IsWalked(forest[i])
               && LeadsOn(loc, excluded, dir, forest[i], names, n);
      if i < |front| {
        assert front[i] == forest[i];
        assert OpenWay(loc, excluded, dir, front, names, n);
      }
    }
  }

  lemma LastFile(loc: Locale, excluded: seq<WString>, dir: WString, last: Node, e: FileEntry)
    requires IsWalked(last) && last.attributes / 16 % 2 == 0
    ensures ListedByLast(loc, excluded, dir, last, e) <==> e == FoundEntry(loc, dir, last)
  {
    OneFileEntry(loc, dir, last, e);
    hide IsWalked, IsEntryOf, FoundEntry;
    if e == FoundEntry(loc, dir, last) {
      assert [last.name][1..] == [] && PathDown(dir, [last.name]) == Below(dir, last.name);
      assert LeadsOn(loc, excluded, dir, last, [last.name], last);
    }
    if ListedByLast(loc, excluded, dir, last, e) {
      var names: seq<WString>, n :|
        && names != [] && names[0] == last.name && IsWalked(last) && LeadsOn(loc, excluded, dir, last, names, n)
        && IsEntryOf(loc, e, PathDown(dir, names), n);
      assert names[1..] == [] && PathDown(dir, names) == Below(dir, last.name);
    }
  }

  lemma LastDirectory(loc: Locale, excluded: seq<WString>, dir: WString, last: Node, e: FileEntry)
    requires IsWalked(last) && last.attributes / 16 % 2 == 1
    ensures ListedByLast(loc, excluded, dir, last, e) <==>
              && last.readable && !IsExcluded(loc, excluded, Below(dir, last.name))
              && IsListed(loc, excluded, Below(dir, last.name), last.children, e)
  {
    var path := Below(dir, last.name);
    hide IsWalked, IsEntryOf, IsExcluded, Below;
    if last.readable && !IsExcluded(loc, excluded, path) && IsListed(loc, excluded, path, last.children, e) {
      var rest, n :| OpenWay(loc, excluded, path, last.children, rest, n) && IsEntryOf(loc, e, PathDown(path, rest), n);
      var names := [last.name] + rest;
      assert names[1..] == rest && PathDown(dir, names) == PathDown(path, rest) && rest != [];
      assert LeadsOn(loc, excluded, dir, last, names, n);
    }
    if ListedByLast(loc, excluded, dir, last, e) {
      var names: seq<WString>, n :|
        && names != [] && names[0] == last.name && IsWalked(last) && LeadsOn(loc, excluded, dir, last, names, n)
        && IsEntryOf(loc, e, PathDown(dir, names), n);
      assert OpenWay(loc, excluded, path, last.children, names[1..], n);
      assert IsEntryOf(loc, e, PathDown(path, names[1..]), n);
    }
  }

  lemma NodeBits(n: Node)
    ensures n.IsSkipped() <==> !IsWalked(n)
    ensures n.IsDirectory() <==> n.attributes / 16 % 2 == 1
    ensures !n.IsDirectory() <==> n.attributes / 16 % 2 == 0
  {
  }

  lemma {:induction false} VisibleRule(
      loc: Locale, excluded: seq<WString>, dir: WString, forest: seq<Node>, e: FileEntry)
    ensures e in Visible(loc, excluded, dir, forest) <==> IsListed(loc, excluded, dir, forest, e)
    decreases forest
  {
    if forest == [] {
      assert !IsListed(loc, excluded, dir, forest, e);
    } else {
      var front, last := forest[..|forest| - 1], forest[|forest| - 1];
      LastVisible(loc, excluded, dir, forest);
      NodeBits(last);
      assert Below(dir, last.name) == Slash(dir) + last.name;
      hide Visible, IsListed, IsWalked, IsExcluded, FoundEntry, Slash, Below, ListedByLast;
      VisibleRule(loc, excluded, dir, front, e);
      ListedParts(loc, excluded, dir, forest, e);
      if last.IsSkipped() {
        NotByLast(loc, excluded, dir, last, e);
      } else if last.IsDirectory() {
        VisibleRule(loc, excluded, Slash(dir) + last.name, last.children, e);
        LastDirectory(loc, excluded, dir, last, e);
      } else {
        LastFile(loc, excluded, dir, last, e);
      }
    }
  }

  lemma NotByLast(loc: Locale, excluded: seq<WString>, dir: WString, last: Node, e: FileEntry)
    requires !IsWalked(last)
    ensures !ListedByLast(loc, excluded, dir, last, e)
  {
  }

  /**
   The walk emits an entry if and only if it is that of a file, no reparse point, to which names
   lead from the scan root through directories that are no reparse points, can be listed and are
   not excluded; and the entry has the listing's name, size, time and attributes.
   */
  lemma WalkRule(loc: Locale, excluded: seq<WString>, dir: WString, top: Node, e: FileEntry)
    ensures e in Bfs(loc, excluded, [Pending(dir, top)]) <==>
              top.readable && !IsExcluded(loc, excluded, dir) && IsListed(loc, excluded, dir, top.children, e)
  {
    var queue := [Pending(dir, top)];
    assert queue[..0] == [] && VisibleQueue(loc, excluded, []) == [];
    assert IsOpen(loc, excluded, queue[0]) <==> top.readable && !IsExcluded(loc, excluded, dir);
    hide Bfs, Visible, IsExcluded, IsListed, IsOpen;
    BfsIsVisible(loc, excluded, queue);
    SameMembers(Bfs(loc, excluded, queue), VisibleQueue(loc, excluded, queue));
    VisibleRule(loc, excluded, dir, top.children, e);
  }

  // ---------------------------------------------------------------- the table scan

  /** Record i is the last one of that number that has a name. */
  ghost predicate IsLast(records: seq<UsnRecord>, frn: nat, i: nat) {
    && i < |records| && records[i].frn == frn && records[i].name != []
    && forall j :: i < j < |records| && records[j].frn == frn ==> records[j].name == []
  }

  lemma LastOfMore(records: seq<UsnRecord>, frn: nat, i: nat)
    requires records != []
    ensures var n: nat := |records| - 1;
            IsLast(records, frn, i) <==>
            if records[n].frn == frn && records[n].name != [] then i == n else IsLast(records[..n], frn, i)
  {
    var front := records[..|records| - 1];
    assert forall j :: 0 <= j < |front| ==> front[j] == records[j];
  }

  /** The table says of a number what the last record of that number with a name says of it, and of no other number. */
  lemma {:induction false} LastRecordRule(records: seq<UsnRecord>, frn: nat, e: MftEntry)
    ensures frn in TableOf(records) && TableOf(records)[frn] == e <==>
              exists i: nat :: && IsLast(records, frn, i) && e.name == records[i].name
                               && e.parentFrn == records[i].parentFrn && e.attributes == records[i].attributes
  {
    if records != [] {
      var n: nat := |records| - 1;
      var front, r := records[..n], records[n];
      LastRecordRule(front, frn, e);
      forall i: nat ensures IsLast(records, frn, i) <==>
                        if r.frn == frn && r.name != [] then i == n else IsLast(front, frn, i) {
        LastOfMore(records, frn, i);
      }
      assert forall i: nat :: IsLast(front, frn, i) ==> front[i] == records[i];
      hide IsLast;
      if r.frn == frn && r.name != [] {
        assert IsLast(records, frn, n);
      }
    }
  }

  /** The entry of a record below a directory: no size, no time, the record's name and attributes. */
  ghost predicate IsRecordEntry(loc: Locale, e: FileEntry, dir: WString, r: MftEntry) {
    && r.attributes / 16 % 2 == 0
    && e.path == dir + r.name && e.name == r.name && Lowered(loc, r.name, e.nameLower)
    && e.size == 0 && e.lastModified == 0 && e.attributes == r.attributes
  }

  /** The directory path the parent links of record frn lead to. */
  ghost predicate IsDirectoryOf(entries: Table, root: WString, frn: nat, dir: WString) {
    frn in entries && exists chain :: Climbs(entries, entries[frn].parentFrn, chain)
                                      && dir == Joined(root, Names(entries, chain))
  }

  ghost predicate IsEmittedAs(
      loc: Locale, excluded: seq<WString>, entries: Table, root: WString, frn: nat, dir: WString, e: FileEntry) {
    && frn in entries && IsDirectoryOf(entries, root, frn, dir) && IsRecordEntry(loc, e, dir, entries[frn])
    && !IsExcluded(loc, excluded, e.path)
  }

  lemma OneRecordRule(loc: Locale, excluded: seq<WString>, entries: Table, root: WString, frn: nat, e: FileEntry)
    ensures e in EmitOne(loc, excluded, entries, root, frn)
       <==> exists dir :: IsEmittedAs(loc, excluded, entries, root, frn, dir, e)
  {
    hide IsExcluded;
    if e in EmitOne(loc, excluded, entries, root, frn) {
      var parent := entries[frn].parentFrn;
      var dir := ResolvePath(entries, root, parent, {}).value;
      ResolvedChain(entries, root, parent, {});
      var chain :| Climbs(entries, parent, chain);
      ResolveAlong(entries, root, parent, chain, {});
      assert IsEmittedAs(loc, excluded, entries, root, frn, dir, e);
    }
    if dir :| IsEmittedAs(loc, excluded, entries, root, frn, dir, e) {
      var chain :| Climbs(entries, entries[frn].parentFrn, chain) && dir == Joined(root, Names(entries, chain));
      ResolveAlong(entries, root, entries[frn].parentFrn, chain, {});
      SameLower(loc, e, entries[frn].name);
    }
  }

  lemma SameLower(loc: Locale, e: FileEntry, name: WString)
    requires Lowered(loc, name, e.nameLower)
    ensures e.nameLower == loc.Fold(name)
  {
  }

  /**
   The table scan emits an entry if and only if it is that of a record in the table that is no
   directory, whose parent links lead to the root, under the names on the way, and whose path no
   exclusion covers; it has the record's name and attributes, and neither size nor time.
   */
  lemma {:induction false} TableRule(
      loc: Locale, excluded: seq<WString>, entries: Table, root: WString, order: seq<nat>, e: FileEntry)
    ensures e in EmitAll(loc, excluded, entries, root, order)
       <==> exists frn, dir :: frn in order && IsEmittedAs(loc, excluded, entries, root, frn, dir, e)
    decreases |order|
  {
    hide EmitOne, IsEmittedAs;
    if order != [] {
      var front, last := order[..|order| - 1], order[|order| - 1];
      assert forall frn :: frn in order <==> frn in front || frn == last;
      TableRule(loc, excluded, entries, root, front, e);
      OneRecordRule(loc, excluded, entries, root, last, e);
    }
  }

  // ---------------------------------------------------------------- what is emitted can go into the index

  ghost predicate NamesProper(forest: seq<Node>)
    decreases forest
  {
    forall i :: 0 <= i < |forest| ==> ProperName(forest[i].name) && NamesProper(forest[i].children)
  }

  lemma CanonicalBelow(loc: Locale, e: FileEntry, dir: WString)
    requires EndsInSeparator(dir) && ProperName(e.name) && e.path == dir + e.name && |e.path| < U16_LIMIT
    requires Lowered(loc, e.name, e.nameLower)
    ensures Canonical(loc, e)
  {
    NameStartsAfterSeparator(e.path, |dir|, e.name);
    SameLower(loc, e, e.name);
  }

  lemma {:induction false} WayToProper(
      loc: Locale, excluded: seq<WString>, dir: WString, forest: seq<Node>, names: seq<WString>, n: Node)
    requires NamesProper(forest) && OpenWay(loc, excluded, dir, forest, names, n)
    ensures ProperName(n.name) && exists d :: EndsInSeparator(d) && PathDown(dir, names) == d + n.name
    decreases |names|
  {
    hide IsWalked, IsExcluded;
    var i :| 0 <= i < |forest| && forest[i].name == names[0] && IsWalked(forest[i])
             && LeadsOn(loc, excluded, dir, forest[i], names, n);
    if |names| == 1 {
      assert names[1..] == [];
      var d := if dir != [] && dir[|dir| - 1] == 92 then dir else dir + [92];
      assert EndsInSeparator(d) && PathDown(dir, names) == d + n.name;
    } else {
      WayToProper(loc, excluded, Below(dir, names[0]), forest[i].children, names[1..], n);
    }
  }

  /** Everything the walk emits under a path below 2^16 characters fits the index as it is. */
  lemma WalkedIsCanonical(loc: Locale, excluded: seq<WString>, dir: WString, top: Node, e: FileEntry)
    requires NamesProper(top.children) && e in Bfs(loc, excluded, [Pending(dir, top)]) && |e.path| < U16_LIMIT
    ensures Canonical(loc, e)
  {
    hide Bfs, IsExcluded, OpenWay, Canonical, NamesProper, PathDown;
    WalkRule(loc, excluded, dir, top, e);
    var names, n :| OpenWay(loc, excluded, dir, top.children, names, n) && IsEntryOf(loc, e, PathDown(dir, names), n);
    WayToProper(loc, excluded, dir, top.children, names, n);
    var d :| EndsInSeparator(d) && PathDown(dir, names) == d + n.name;
    CanonicalBelow(loc, e, d);
  }

  lemma JoinedEnds(root: WString, names: seq<WString>)
    requires EndsInSeparator(root)
    ensures EndsInSeparator(Joined(root, names))
  {
  }

  ghost predicate RecordsProper(entries: Table) {
    forall frn :: frn in entries ==> ProperName(entries[frn].name)
  }

  /** And so does everything the table scan emits, when the records' names are proper. */
  lemma EmittedIsCanonical(
      loc: Locale, excluded: seq<WString>, entries: Table, root: WString, order: seq<nat>, e: FileEntry)
    requires EndsInSeparator(root) && RecordsProper(entries)
    requires e in EmitAll(loc, excluded, entries, root, order) && |e.path| < U16_LIMIT
    ensures Canonical(loc, e)
  {
    hide EmitAll, IsExcluded, Canonical, ProperName, Joined, Names;
    TableRule(loc, excluded, entries, root, order, e);
    var frn, dir :| frn in order && IsEmittedAs(loc, excluded, entries, root, frn, dir, e);
    var chain :| Climbs(entries, entries[frn].parentFrn, chain) && dir == Joined(root, Names(entries, chain));
    JoinedEnds(root, Names(entries, chain));
    CanonicalBelow(loc, e, dir);
  }

  lemma {:induction false} PlainIsProper(forest: seq<Node>)
    requires Plain(forest)
    ensures NamesProper(forest)
    decreases forest
  {
    forall i | 0 <= i < |forest| ensures NamesProper(forest[i].children) {
      PlainIsProper(forest[i].children);
    }
  }

  lemma {:induction false} RecordNamesProper(parent: nat, forest: seq<Node>)
    requires Plain(forest)
    ensures forall r :: r in RecordsOf(parent, forest) ==> ProperName(r.name)
    decreases forest
  {
    hide ProperName;
    if forest != [] {
      PlainParts(forest);
      RecordNamesProper(parent, forest[..|forest| - 1]);
      RecordNamesProper(forest[|forest| - 1].frn, forest[|forest| - 1].children);
    }
  }

  lemma DescribedNamesProper(records: seq<UsnRecord>, top: Node)
    requires Describes(records, top)
    ensures RecordsProper(TableOf(records))
  {
    var entries, root, below := TableOf(records), RootRecord(top), RecordsOf(top.frn, top.children);
    assert ProperName(root.name);
    RecordNamesProper(top.frn, top.children);
    RecordsAreClean(records, top);
    hide *;
    TableIsFaithful(records, root, below);
    FaithfulNames(entries, records, root, below);
  }

  lemma FaithfulNames(entries: Table, records: seq<UsnRecord>, root: UsnRecord, below: seq<UsnRecord>)
    requires Clean(records, root, below) && Faithful(entries, records)
    requires ProperName(root.name) && forall r :: r in below ==> ProperName(r.name)
    ensures RecordsProper(entries)
  {
    hide ProperName;
    forall frn | frn in entries ensures ProperName(entries[frn].name) {
      var r :| r in records && r.frn == frn;
    }
  }
}
