/**
 The two scanners on one volume. They list the same files exactly when no exclusion is aimed
 directly at a file or at a directory written with a trailing backslash.
 */
module ScannerAgreement {
  import opened Text
  import opened IndexPools
  import opened FileTree
  import opened FindFileScanners
  import opened MftScanners
  import opened VolumeTables

  // ---------------------------------------------------------------- what the table scan emits

  function PathList(found: seq<FileEntry>): seq<WString> {
    seq(|found|, i requires 0 <= i < |found| => found[i].path)
  }

  /** The paths of the places that no exclusion covers. */
  function Uncovered(loc: Locale, excluded: seq<WString>, places: seq<Place>): seq<WString> {
    if places == [] then []
    else
      var path := places[|places| - 1].entry.path;
      Uncovered(loc, excluded, places[..|places| - 1]) + (if IsExcluded(loc, excluded, path) then [] else [path])
  }

  lemma {:induction false} UncoveredConcat(loc: Locale, excluded: seq<WString>, xs: seq<Place>, ys: seq<Place>)
    ensures Uncovered(loc, excluded, xs + ys) == Uncovered(loc, excluded, xs) + Uncovered(loc, excluded, ys)
    decreases |ys|
  {
    if ys == [] {
      assert xs + ys == xs;
    } else {
      hide IsExcluded;
      assert (xs + ys)[..|xs + ys| - 1] == xs + ys[..|ys| - 1];
      UncoveredConcat(loc, excluded, xs, ys[..|ys| - 1]);
    }
  }

  lemma {:induction false} EmitConcat(
      loc: Locale, excluded: seq<WString>, entries: Table, root: WString, xs: seq<nat>, ys: seq<nat>)
    ensures EmitAll(loc, excluded, entries, root, xs + ys)
         == EmitAll(loc, excluded, entries, root, xs) + EmitAll(loc, excluded, entries, root, ys)
    decreases |ys|
  {
    if ys == [] {
      assert xs + ys == xs;
    } else {
      hide EmitOne;
      assert (xs + ys)[..|xs + ys| - 1] == xs + ys[..|ys| - 1];
      EmitConcat(loc, excluded, entries, root, xs, ys[..|ys| - 1]);
    }
  }

  lemma EmitSingle(loc: Locale, excluded: seq<WString>, entries: Table, root: WString, frn: nat)
    ensures EmitAll(loc, excluded, entries, root, [frn]) == EmitOne(loc, excluded, entries, root, frn)
  {
    hide EmitOne;
    assert [frn][..0] == [];
  }

  /** The parent links lead from directory `parent` to the root along `chain`, whose path is `dir`. */
  ghost predicate Leads(entries: Table, root: WString, parent: nat, chain: seq<nat>, dir: WString) {
    Climbs(entries, parent, chain) && Slash(dir) == Joined(root, Names(entries, chain))
  }

  lemma LeadsOn(entries: Table, root: WString, parent: nat, chain: seq<nat>, dir: WString, n: Node)
    requires Leads(entries, root, parent, chain, dir) && ProperName(n.name)
    requires n.frn in entries && entries[n.frn] == MftEntry(n.name, parent, n.attributes) && n.frn != parent
    ensures Leads(entries, root, n.frn, [n.frn] + chain, Slash(dir) + n.name)
  {
    var longer := [n.frn] + chain;
    assert longer[1..] == chain;
    var up := Names(entries, chain);
    assert (up + [n.name])[..|up|] == up;
    assert !EndsInSeparator(Slash(dir) + n.name) by {
      assert (Slash(dir) + n.name)[|Slash(dir) + n.name| - 1] == n.name[|n.name| - 1];
    }
  }

  /** One file of the tree: emitted under its tree path unless an exclusion covers that. */
  lemma EmitFile(
      loc: Locale, excluded: seq<WString>, entries: Table, root: WString, parent: nat, chain: seq<nat>,
      above: seq<Ancestor>, n: Node)
    requires above != [] && Leads(entries, root, parent, chain, above[|above| - 1].path)
    requires n.frn in entries && entries[n.frn] == MftEntry(n.name, parent, n.attributes) && !n.IsDirectory()
    ensures PathList(EmitOne(loc, excluded, entries, root, n.frn))
         == Uncovered(loc, excluded, [Place(FoundEntry(loc, above[|above| - 1].path, n), above)])
  {
    hide IsExcluded, Climbs, Joined, Names, Slash;
    ResolveAlong(entries, root, parent, chain, {});
    var place := Place(FoundEntry(loc, above[|above| - 1].path, n), above);
    assert [place][..0] == [];
  }

  lemma PathListConcat(xs: seq<FileEntry>, ys: seq<FileEntry>)
    ensures PathList(xs + ys) == PathList(xs) + PathList(ys)
  {
  }

  /** The places a node of a plain tree contributes. */
  function NodePlaces(loc: Locale, above: seq<Ancestor>, n: Node): seq<Place>
    requires above != []
  {
    var dir := above[|above| - 1].path;
    if n.IsDirectory() then Places(loc, above + [Ancestor(Slash(dir) + n.name, n.readable)], n.children)
    else [Place(FoundEntry(loc, dir, n), above)]
  }

  lemma PlaceParts(loc: Locale, above: seq<Ancestor>, forest: seq<Node>)
    requires above != [] && forest != [] && Plain(forest)
    ensures Places(loc, above, forest)
         == Places(loc, above, forest[..|forest| - 1]) + NodePlaces(loc, above, forest[|forest| - 1])
  {
    PlainParts(forest);
    hide Slash, FoundEntry, Plain;
  }

  /** A node and what lies below it, given that what lies below it is emitted right. */
  lemma EmitNode(
      loc: Locale, excluded: seq<WString>, entries: Table, root: WString, parent: nat, chain: seq<nat>,
      above: seq<Ancestor>, n: Node)
    requires above != [] && Leads(entries, root, parent, chain, above[|above| - 1].path)
    requires n.frn in entries && entries[n.frn] == MftEntry(n.name, parent, n.attributes)
    requires n.IsDirectory() || n.children == []
    requires n.IsDirectory() ==>
               PathList(EmitAll(loc, excluded, entries, root, Frns(RecordsOf(n.frn, n.children))))
               == Uncovered(loc, excluded, NodePlaces(loc, above, n))
    ensures PathList(EmitOne(loc, excluded, entries, root, n.frn))
            + PathList(EmitAll(loc, excluded, entries, root, Frns(RecordsOf(n.frn, n.children))))
         == Uncovered(loc, excluded, NodePlaces(loc, above, n))
  {
    hide Places, Slash, FoundEntry, Uncovered, Leads;
    if !n.IsDirectory() {
      EmitFile(loc, excluded, entries, root, parent, chain, above, n);
      assert Frns(RecordsOf(n.frn, n.children)) == [];
    }
  }

  /** Walking the table in tree order emits the uncovered files of the tree, in tree order. */
  lemma {:induction false} EmitTree(
      loc: Locale, excluded: seq<WString>, entries: Table, root: WString, parent: nat, chain: seq<nat>,
      above: seq<Ancestor>, forest: seq<Node>)
    requires above != [] && Plain(forest) && Holds(entries, parent, forest)
    requires Leads(entries, root, parent, chain, above[|above| - 1].path)
    ensures PathList(EmitAll(loc, excluded, entries, root, Frns(RecordsOf(parent, forest))))
         == Uncovered(loc, excluded, Places(loc, above, forest))
    decreases forest
  {
    hide EmitAll, EmitOne, Frns, Uncovered, Places, Slash, Leads, RecordsOf, PathList, FoundEntry;
    if forest == [] {
      EmitNothing(loc, excluded, entries, root, parent, above);
    } else {
      var n, front, dir := forest[|forest| - 1], forest[..|forest| - 1], above[|above| - 1].path;
      PlainParts(forest);
      EmitTree(loc, excluded, entries, root, parent, chain, above, front);
      if n.IsDirectory() {
        var here := Ancestor(Slash(dir) + n.name, n.readable);
        var longer := above + [here];
        assert longer[|longer| - 1] == here;
        LeadsOn(entries, root, parent, chain, dir, n);
        EmitTree(loc, excluded, entries, root, n.frn, [n.frn] + chain, longer, n.children);
      }
      EmitNode(loc, excluded, entries, root, parent, chain, above, n);
      PlaceParts(loc, above, forest);
      NumberParts(parent, forest);
      hide *;
      EmitSplit(loc, excluded, entries, root,
                Frns(RecordsOf(parent, front)), n.frn, Frns(RecordsOf(n.frn, n.children)));
      UncoveredConcat(loc, excluded, Places(loc, above, front), NodePlaces(loc, above, n));
    }
  }

  lemma EmitNothing(
      loc: Locale, excluded: seq<WString>, entries: Table, root: WString, parent: nat, above: seq<Ancestor>)
    requires above != []
    ensures PathList(EmitAll(loc, excluded, entries, root, Frns(RecordsOf(parent, []))))
         == Uncovered(loc, excluded, Places(loc, above, []))
  {
    assert Frns(RecordsOf(parent, [])) == [];
  }

  lemma EmitSplit(
      loc: Locale, excluded: seq<WString>, entries: Table, root: WString, xs: seq<nat>, frn: nat, ys: seq<nat>)
    ensures PathList(EmitAll(loc, excluded, entries, root, (xs + [frn]) + ys))
         == PathList(EmitAll(loc, excluded, entries, root, xs))
            + (PathList(EmitOne(loc, excluded, entries, root, frn))
               + PathList(EmitAll(loc, excluded, entries, root, ys)))
  {
    hide *;
    EmitConcat(loc, excluded, entries, root, xs + [frn], ys);
    EmitConcat(loc, excluded, entries, root, xs, [frn]);
    EmitSingle(loc, excluded, entries, root, frn);
    var a, b, c := EmitAll(loc, excluded, entries, root, xs), EmitOne(loc, excluded, entries, root, frn),
                   EmitAll(loc, excluded, entries, root, ys);
    PathListConcat(a + b, c);
    PathListConcat(a, b);
  }

  // ---------------------------------------------------------------- order does not matter

  function Dropped<T>(s: seq<T>, j: nat): seq<T>
    requires j < |s|
  {
    s[..j] + s[j + 1..]
  }

  /** An element of a permutation, and what is left without it. */
  lemma TakeOut<T>(xs: seq<T>, ys: seq<T>) returns (j: nat)
    requires xs != [] && multiset(xs) == multiset(ys)
    ensures j < |ys| && ys[j] == xs[|xs| - 1] && multiset(xs[..|xs| - 1]) == multiset(Dropped(ys, j))
  {
    var x := xs[|xs| - 1];
    assert xs == xs[..|xs| - 1] + [x];
    assert x in multiset(ys);
    j :| 0 <= j < |ys| && ys[j] == x;
    assert ys == ys[..j] + [x] + ys[j + 1..];
    calc {
      multiset(xs[..|xs| - 1]);
      multiset(xs) - multiset{x};
      multiset(ys[..j] + [x] + ys[j + 1..]) - multiset{x};
      multiset(ys[..j]) + multiset(ys[j + 1..]);
      multiset(Dropped(ys, j));
    }
  }

  lemma {:induction false} EmitPermuted(
      loc: Locale, excluded: seq<WString>, entries: Table, root: WString, xs: seq<nat>, ys: seq<nat>)
    requires multiset(xs) == multiset(ys)
    ensures multiset(EmitAll(loc, excluded, entries, root, xs)) == multiset(EmitAll(loc, excluded, entries, root, ys))
    decreases |xs|
  {
    if xs == [] {
      assert |multiset(ys)| == |ys|;
    } else {
      hide EmitOne;
      var j := TakeOut(xs, ys);
      EmitPermuted(loc, excluded, entries, root, xs[..|xs| - 1], Dropped(ys, j));
      EmitConcat(loc, excluded, entries, root, ys[..j], ys[j + 1..]);
      EmitAround(loc, excluded, entries, root, ys, j);
    }
  }

  lemma EmitAround(
      loc: Locale, excluded: seq<WString>, entries: Table, root: WString, ys: seq<nat>, j: nat)
    requires j < |ys|
    ensures EmitAll(loc, excluded, entries, root, ys)
         == EmitAll(loc, excluded, entries, root, ys[..j]) + EmitOne(loc, excluded, entries, root, ys[j])
            + EmitAll(loc, excluded, entries, root, ys[j + 1..])
  {
    hide *;
    assert ys == (ys[..j] + [ys[j]]) + ys[j + 1..];
    EmitConcat(loc, excluded, entries, root, ys[..j] + [ys[j]], ys[j + 1..]);
    EmitConcat(loc, excluded, entries, root, ys[..j], [ys[j]]);
    EmitSingle(loc, excluded, entries, root, ys[j]);
  }

  lemma {:induction false} PathsPermuted(xs: seq<FileEntry>, ys: seq<FileEntry>)
    requires multiset(xs) == multiset(ys)
    ensures multiset(PathList(xs)) == multiset(PathList(ys))
    decreases |xs|
  {
    if xs == [] {
      assert |multiset(ys)| == |ys|;
    } else {
      var j := TakeOut(xs, ys);
      PathsPermuted(xs[..|xs| - 1], Dropped(ys, j));
      assert PathList(xs) == PathList(xs[..|xs| - 1]) + [ys[j].path];
      assert PathList(Dropped(ys, j)) == PathList(ys[..j]) + PathList(ys[j + 1..]);
      assert PathList(ys) == PathList(ys[..j]) + [ys[j].path] + PathList(ys[j + 1..]);
    }
  }

  lemma {:induction false} KeysOnce(s: seq<nat>, keys: set<nat>)
    requires NoDuplicates(s) && forall x :: x in s <==> x in keys
    ensures multiset(s) == multiset(keys)
    decreases |s|
  {
    if s == [] {
      assert keys == {};
    } else {
      var x := s[|s| - 1];
      var front := s[..|s| - 1];
      assert s == front + [x];
      forall y ensures y in front <==> y in keys - {x} {
        if y in front {
          var i :| 0 <= i < |front| && front[i] == y;
          assert s[i] != s[|s| - 1];
        }
      }
      KeysOnce(front, keys - {x});
      assert multiset(keys) == multiset(keys - {x}) + multiset{x};
    }
  }

  /** Whatever order the table is walked in, it emits the uncovered files of the tree. */
  lemma TableScanListsUncovered(
      loc: Locale, excluded: seq<WString>, root: WString, top: Node, records: seq<UsnRecord>, order: seq<nat>)
    requires EndsInSeparator(root) && Describes(records, top) && multiset(order) == multiset(TableOf(records).Keys)
    ensures multiset(PathList(EmitAll(loc, excluded, TableOf(records), root, order)))
         == multiset(Uncovered(loc, excluded, Places(loc, [Ancestor(root, top.readable)], top.children)))
  {
    var entries, numbers := TableOf(records), Frns(RecordsOf(top.frn, top.children));
    TableIsTree(records, top);
    assert Leads(entries, root, top.frn, [], root);
    assert [Ancestor(root, top.readable)][0].path == root && Plain(top.children);
    hide *;
    EmitTree(loc, excluded, entries, root, top.frn, [], [Ancestor(root, top.readable)], top.children);
    TreeOrder(loc, excluded, entries, root, top.frn, numbers, order);
    PathsPermuted(EmitAll(loc, excluded, entries, root, order), EmitAll(loc, excluded, entries, root, numbers));
  }

  lemma TreeOrder(
      loc: Locale, excluded: seq<WString>, entries: Table, root: WString, top: nat, numbers: seq<nat>, order: seq<nat>)
    requires multiset(order) == multiset(entries.Keys) && NoDuplicates(numbers)
    requires forall frn :: frn in numbers ==> frn in entries && frn != top
    requires forall frn :: frn in entries ==> frn == top || frn in numbers
    requires top in entries ==> entries[top].IsDirectory()
    ensures multiset(EmitAll(loc, excluded, entries, root, order))
         == multiset(EmitAll(loc, excluded, entries, root, numbers))
  {
    if top in entries {
      assert NoDuplicates(numbers + [top]);
      KeysOnce(numbers + [top], entries.Keys);
      EmitPermuted(loc, excluded, entries, root, order, numbers + [top]);
      EmitConcat(loc, excluded, entries, root, numbers, [top]);
      EmitSingle(loc, excluded, entries, root, top);
    } else {
      KeysOnce(numbers, entries.Keys);
      EmitPermuted(loc, excluded, entries, root, order, numbers);
    }
  }

  // ---------------------------------------------------------------- where the scanners part

  /**
   Only the table scan drops such a file: its directories are open, but an exclusion is its very
   path, or its directory written with a trailing backslash.
   */
  predicate Clash(loc: Locale, excluded: seq<WString>, p: Place) {
    && AllOpen(loc, excluded, p.above) && p.above != []
    && (Named(loc, excluded, p.entry.path) || Named(loc, excluded, Slash(p.above[|p.above| - 1].path)))
  }

  /** The directories of a place are open just when the last of them is not excluded. */
  ghost predicate Aligned(loc: Locale, excluded: seq<WString>, above: seq<Ancestor>) {
    && above != []
    && (AllOpen(loc, excluded, above) <==> !IsExcluded(loc, excluded, above[|above| - 1].path))
  }

  lemma AlignedBelow(loc: Locale, excluded: seq<WString>, above: seq<Ancestor>, name: WString)
    requires loc.KeepsSeparator() && NoneEmpty(excluded) && ProperName(name) && Aligned(loc, excluded, above)
    ensures Aligned(loc, excluded, above + [Ancestor(Slash(above[|above| - 1].path) + name, true)])
  {
    hide IsExcluded, Slash, AllOpen;
    var dir := above[|above| - 1].path;
    var here := Ancestor(Slash(dir) + name, true);
    ChildExcludedIff(loc, excluded, dir, name);
    OneMoreAncestor(loc, excluded, above, here);
    assert (above + [here])[|above + [here]| - 1] == here;
  }

  /** A place the table scan emits is open; an open place it does not emit clashes. */
  ghost predicate Explained(loc: Locale, excluded: seq<WString>, p: Place) {
    IsExcluded(loc, excluded, p.entry.path) <==> !AllOpen(loc, excluded, p.above) || Clash(loc, excluded, p)
  }

  lemma {:induction false} PlacesExplained(loc: Locale, excluded: seq<WString>, above: seq<Ancestor>, forest: seq<Node>)
    requires loc.KeepsSeparator() && NoneEmpty(excluded) && Plain(forest) && Aligned(loc, excluded, above)
    ensures forall p :: p in Places(loc, above, forest) ==> Explained(loc, excluded, p)
    decreases forest
  {
    if forest != [] {
      var n, front, dir := forest[|forest| - 1], forest[..|forest| - 1], above[|above| - 1].path;
      PlainParts(forest);
      PlaceParts(loc, above, forest);
      hide Explained, Places, IsExcluded, AllOpen;
      PlacesExplained(loc, excluded, above, front);
      if n.IsDirectory() {
        var here := Ancestor(Slash(dir) + n.name, true);
        AlignedBelow(loc, excluded, above, n.name);
        PlacesExplained(loc, excluded, above + [here], n.children);
      } else {
        FileExplained(loc, excluded, above, n);
      }
    }
  }

  lemma FileExplained(loc: Locale, excluded: seq<WString>, above: seq<Ancestor>, n: Node)
    requires loc.KeepsSeparator() && NoneEmpty(excluded) && ProperName(n.name) && Aligned(loc, excluded, above)
    ensures Explained(loc, excluded, Place(FoundEntry(loc, above[|above| - 1].path, n), above))
  {
    hide IsExcluded, Slash, AllOpen;
    ChildExcludedIff(loc, excluded, above[|above| - 1].path, n.name);
  }

  /** `table` is part of `walk`, and all of it if it is as long. */
  ghost predicate Within<T>(table: seq<T>, walk: seq<T>) {
    multiset(table) <= multiset(walk) && |table| <= |walk| && (|table| == |walk| ==> table == walk)
  }

  lemma WithinStep<T>(table: seq<T>, walk: seq<T>, x: T, inTable: bool, inWalk: bool)
    requires Within(table, walk) && (inTable ==> inWalk)
    ensures var table', walk' := table + (if inTable then [x] else []), walk + (if inWalk then [x] else []);
            && Within(table', walk')
            && (|table'| == |walk'| <==> |table| == |walk| && (inWalk ==> inTable))
  {
  }

  ghost predicate NoClash(loc: Locale, excluded: seq<WString>, places: seq<Place>) {
    forall p :: p in places ==> !Clash(loc, excluded, p)
  }

  lemma ListsGrow(loc: Locale, excluded: seq<WString>, places: seq<Place>)
    requires places != []
    ensures var p, front := places[|places| - 1], places[..|places| - 1];
            && PathList(OpenEntries(loc, excluded, places))
               == PathList(OpenEntries(loc, excluded, front))
                  + (if AllOpen(loc, excluded, p.above) then [p.entry.path] else [])
            && Uncovered(loc, excluded, places)
               == Uncovered(loc, excluded, front)
                  + (if !IsExcluded(loc, excluded, p.entry.path) then [p.entry.path] else [])
            && (NoClash(loc, excluded, places) <==> NoClash(loc, excluded, front) && !Clash(loc, excluded, p))
  {
    hide AllOpen, IsExcluded, Clash;
    var p, front := places[|places| - 1], places[..|places| - 1];
    assert forall q :: q in places <==> q in front || q == p;
  }

  /** The table scan never lists more than the walk, and the same just when no file clashes. */
  lemma {:induction false} ListsCompared(loc: Locale, excluded: seq<WString>, places: seq<Place>)
    requires forall p :: p in places ==> Explained(loc, excluded, p)
    ensures var walk, table := PathList(OpenEntries(loc, excluded, places)), Uncovered(loc, excluded, places);
            Within(table, walk) && (|table| == |walk| <==> NoClash(loc, excluded, places))
    decreases |places|
  {
    if places == [] {
      assert PathList(OpenEntries(loc, excluded, places)) == [];
    } else {
      var p, front := places[|places| - 1], places[..|places| - 1];
      assert Explained(loc, excluded, p) && (Clash(loc, excluded, p) ==> AllOpen(loc, excluded, p.above));
      hide AllOpen, IsExcluded, Within, Clash, NoClash, Uncovered, OpenEntries, PathList;
      ListsCompared(loc, excluded, front);
      ListsGrow(loc, excluded, places);
      WithinStep(Uncovered(loc, excluded, front), PathList(OpenEntries(loc, excluded, front)), p.entry.path,
                 !IsExcluded(loc, excluded, p.entry.path), AllOpen(loc, excluded, p.above));
    }
  }

  /**
   On one volume the table scan lists no file the walk does not list, and the two list the same
   files if and only if no open file clashes with an exclusion.
   */
  lemma ScannersAgreeIff(
      loc: Locale, excluded: seq<WString>, root: WString, top: Node, records: seq<UsnRecord>, order: seq<nat>)
    requires loc.KeepsSeparator() && NoneEmpty(excluded) && EndsInSeparator(root)
    requires Describes(records, top) && multiset(order) == multiset(TableOf(records).Keys)
    ensures var walk := PathList(Bfs(loc, excluded, [Pending(root, top)]));
            var table := PathList(EmitAll(loc, excluded, TableOf(records), root, order));
            && multiset(table) <= multiset(walk)
            && (multiset(table) == multiset(walk) <==>
                NoClash(loc, excluded, Places(loc, [Ancestor(root, top.readable)], top.children)))
  {
    var above := [Ancestor(root, top.readable)];
    var places := Places(loc, above, top.children);
    WalkListsOpenFiles(loc, excluded, root, top);
    PathsPermuted(Bfs(loc, excluded, [Pending(root, top)]), OpenEntries(loc, excluded, places));
    TableScanListsUncovered(loc, excluded, root, top, records, order);
    AlignedTop(loc, excluded, root);
    assert top.readable && Plain(top.children);
    hide *;
    PlacesExplained(loc, excluded, above, top.children);
    ListsCompared(loc, excluded, places);
    WithinMeans(Uncovered(loc, excluded, places), PathList(OpenEntries(loc, excluded, places)));
  }

  lemma AlignedTop(loc: Locale, excluded: seq<WString>, root: WString)
    ensures Aligned(loc, excluded, [Ancestor(root, true)])
  {
    hide IsExcluded;
    if AllOpen(loc, excluded, [Ancestor(root, true)]) {
      assert OpenAncestor(loc, excluded, [Ancestor(root, true)][0]);
    }
  }

  lemma WithinMeans<T>(table: seq<T>, walk: seq<T>)
    requires Within(table, walk)
    ensures multiset(table) <= multiset(walk) && (multiset(table) == multiset(walk) <==> |table| == |walk|)
  {
    assert |multiset(table)| == |table| && |multiset(walk)| == |walk|;
  }

  /** With no exclusion ending in a backslash and none naming a file, they list the same files. */
  lemma ScannersAgree(
      loc: Locale, excluded: seq<WString>, root: WString, top: Node, records: seq<UsnRecord>, order: seq<nat>)
    requires loc.KeepsSeparator() && NoneEmpty(excluded) && EndsInSeparator(root)
    requires Describes(records, top) && multiset(order) == multiset(TableOf(records).Keys)
    requires forall i :: 0 <= i < |excluded| ==> !EndsInSeparator(excluded[i])
    requires forall p :: p in Places(loc, [Ancestor(root, top.readable)], top.children) ==>
               !Named(loc, excluded, p.entry.path)
    ensures multiset(PathList(EmitAll(loc, excluded, TableOf(records), root, order)))
         == multiset(PathList(Bfs(loc, excluded, [Pending(root, top)])))
  {
    ScannersAgreeIff(loc, excluded, root, top, records, order);
    forall p | p in Places(loc, [Ancestor(root, top.readable)], top.children) ensures !Clash(loc, excluded, p) {
      if p.above != [] {
        NotNamed(loc, excluded, p.above[|p.above| - 1].path);
      }
    }
  }

  lemma EndsDiffer(loc: Locale, a: WString, b: WString)
    requires loc.KeepsSeparator() && !EndsInSeparator(a) && EndsInSeparator(b)
    ensures loc.Fold(a) != loc.Fold(b)
  {
    if |a| == |b| {
      assert loc.Fold(b)[|b| - 1] == BACKSLASH && loc.Fold(a)[|a| - 1] != BACKSLASH;
    }
  }

  lemma NotNamed(loc: Locale, excluded: seq<WString>, dir: WString)
    requires loc.KeepsSeparator() && forall i :: 0 <= i < |excluded| ==> !EndsInSeparator(excluded[i])
    ensures !Named(loc, excluded, Slash(dir))
  {
    assert EndsInSeparator(Slash(dir));
    hide EndsInSeparator, Slash;
    forall i | 0 <= i < |excluded| ensures loc.Fold(excluded[i]) != loc.Fold(Slash(dir)) {
      EndsDiffer(loc, excluded[i], Slash(dir));
    }
  }

  // ---------------------------------------------------------------- two volumes where they part

  const ROOT: WString := [67, 58, BACKSLASH]

  function FileNode(name: WString, frn: nat): Node {
    Node(name, frn, 0, 0, 0, true, [])
  }

  function DirectoryNode(name: WString, frn: nat, children: seq<Node>): Node {
    Node(name, frn, DIRECTORY, 0, 0, true, children)
  }

  /** What the scanners list on a volume where one open place is the only file. */
  lemma OnlyPlace(loc: Locale, excluded: seq<WString>, top: Node, records: seq<UsnRecord>, order: seq<nat>, p: Place)
    requires Describes(records, top) && multiset(order) == multiset(TableOf(records).Keys)
    requires Places(loc, [Ancestor(ROOT, true)], top.children) == [p]
    requires AllOpen(loc, excluded, p.above) && IsExcluded(loc, excluded, p.entry.path)
    ensures multiset(PathList(Bfs(loc, excluded, [Pending(ROOT, top)]))) == multiset{p.entry.path}
    ensures EmitAll(loc, excluded, TableOf(records), ROOT, order) == []
  {
    assert top.readable;
    assert OpenEntries(loc, excluded, [p]) == [p.entry] && Uncovered(loc, excluded, [p]) == [] by {
      assert [p][..0] == [];
    }
    hide *;
    WalkListsOpenFiles(loc, excluded, ROOT, top);
    OnePath(Bfs(loc, excluded, [Pending(ROOT, top)]), p.entry);
    TableScanListsUncovered(loc, excluded, ROOT, top, records, order);
    NoPath(EmitAll(loc, excluded, TableOf(records), ROOT, order));
  }

  lemma OnePath(found: seq<FileEntry>, e: FileEntry)
    requires multiset(found) == multiset([e])
    ensures multiset(PathList(found)) == multiset{e.path}
  {
    PathsPermuted(found, [e]);
    assert PathList([e]) == [e.path];
  }

  lemma NoPath(found: seq<FileEntry>)
    requires multiset(PathList(found)) == multiset([])
    ensures found == []
  {
    assert |multiset(PathList(found))| == |PathList(found)|;
  }

  /** An exclusion that is longer than a path leaves it alone. */
  lemma LongerDoesNotCover(loc: Locale, exclusion: WString, path: WString)
    requires |exclusion| > |path|
    ensures !IsExcluded(loc, [exclusion], path)
  {
  }

  lemma DirectoryCovers(loc: Locale, dir: WString, name: WString)
    requires loc.KeepsSeparator() && EndsInSeparator(dir)
    ensures IsExcluded(loc, [dir], dir + name)
  {
    FoldConcat(loc, dir, name);
    assert Covers(loc, [dir][0], dir + name);
  }

  /** C:\a is excluded by name: the walk lists it all the same, the table scan does not. */
  lemma FileExclusionParts(loc: Locale, order: seq<nat>)
    requires var records := [UsnRecord(2, 1, [97], 0)]; multiset(order) == multiset(TableOf(records).Keys)
    ensures var top := DirectoryNode([67], 1, [FileNode([97], 2)]);
            var records, path := [UsnRecord(2, 1, [97], 0)], ROOT + [97];
            && Describes(records, top)
            && multiset(PathList(Bfs(loc, [path], [Pending(ROOT, top)]))) == multiset{path}
            && EmitAll(loc, [path], TableOf(records), ROOT, order) == []
  {
    var n := FileNode([97], 2);
    var top, records, path := DirectoryNode([67], 1, [n]), [UsnRecord(2, 1, [97], 0)], ROOT + [97];
    var above := [Ancestor(ROOT, true)];
    var p := Place(FoundEntry(loc, ROOT, n), above);
    assert [n][..0] == [] && RecordsOf(1, [n]) == records && Places(loc, above, [n]) == [p];
    assert Plain([n]) && Describes(records, top);
    LongerDoesNotCover(loc, path, ROOT);
    assert Covers(loc, [path][0], path);
    hide Describes, Places, IsExcluded, Plain, Bfs, EmitAll, RecordsOf;
    OnlyPlace(loc, [path], top, records, order, p);
  }

  /** One directory "d" with one file "a" in it. */
  function Nested(): Node {
    DirectoryNode([67], 1, [DirectoryNode([100], 2, [FileNode([97], 3)])])
  }

  function NestedRecords(): seq<UsnRecord> {
    [UsnRecord(2, 1, [100], DIRECTORY), UsnRecord(3, 2, [97], 0)]
  }

  lemma NestedIsDescribed()
    ensures Describes(NestedRecords(), Nested())
  {
    var n := FileNode([97], 3);
    var d := DirectoryNode([100], 2, [n]);
    assert Plain(n.children) && RecordsOf(3, n.children) == [];
    OneNode(2, n);
    OneNode(1, d);
    hide Plain, RecordsOf, Frns, NoDuplicates, Describes;
    assert NestedRecords() == [UsnRecord(2, 1, [100], DIRECTORY)] + [UsnRecord(3, 2, [97], 0)];
    NestedNumbers();
    DescribedExactly(NestedRecords(), Nested());
  }

  lemma DescribedExactly(records: seq<UsnRecord>, top: Node)
    requires top.IsDirectory() && top.readable && Plain(top.children)
    requires records == RecordsOf(top.frn, top.children) && NoDuplicates(Frns([RootRecord(top)] + records))
    ensures Describes(records, top)
  {
    hide Plain, RecordsOf, Frns, NoDuplicates;
  }

  lemma NestedNumbers()
    ensures NoDuplicates(Frns([RootRecord(Nested())] + NestedRecords()))
  {
    assert Frns([RootRecord(Nested())] + NestedRecords()) == [1, 2, 3];
  }

  lemma OneNode(parent: nat, n: Node)
    requires ProperName(n.name) && !n.IsSkipped() && n.readable && Plain(n.children)
    requires n.IsDirectory() || n.children == []
    ensures Plain([n])
    ensures RecordsOf(parent, [n]) == [UsnRecord(n.frn, parent, n.name, n.attributes)] + RecordsOf(n.frn, n.children)
  {
    assert [n][..0] == [];
  }

  lemma NestedPlace(loc: Locale)
    ensures var above := [Ancestor(ROOT, true), Ancestor(ROOT + [100], true)];
            Places(loc, [Ancestor(ROOT, true)], Nested().children)
            == [Place(FoundEntry(loc, ROOT + [100], FileNode([97], 3)), above)]
  {
    var n := FileNode([97], 3);
    var above := [Ancestor(ROOT, true), Ancestor(ROOT + [100], true)];
    var d := DirectoryNode([100], 2, [n]);
    NestedIsPlain();
    assert d.IsDirectory() && !n.IsDirectory() && Slash(ROOT) == ROOT && Nested().children == [d];
    hide Plain, Places, Slash, FoundEntry, DirectoryNode, FileNode;
    OnePlaces(loc, [Ancestor(ROOT, true)], d);
    OnePlaces(loc, above, n);
    assert [Ancestor(ROOT, true)] + [Ancestor(ROOT + [100], true)] == above;
  }

  lemma NestedIsPlain()
    ensures Plain([FileNode([97], 3)]) && Plain([DirectoryNode([100], 2, [FileNode([97], 3)])])
  {
    OneNode(2, FileNode([97], 3));
    OneNode(1, DirectoryNode([100], 2, [FileNode([97], 3)]));
  }

  lemma OnePlaces(loc: Locale, above: seq<Ancestor>, n: Node)
    requires above != [] && Plain([n])
    ensures Places(loc, above, [n]) == NodePlaces(loc, above, n)
  {
    PlaceParts(loc, above, [n]);
    assert [n][..0] == [] && Places(loc, above, []) == [];
    hide NodePlaces, Plain;
  }

  /** C:\d\ is excluded with its backslash: the walk enters C:\d and lists the file, the table scan does not. */
  lemma BackslashExclusionParts(loc: Locale, order: seq<nat>)
    requires loc.KeepsSeparator() && multiset(order) == multiset(TableOf(NestedRecords()).Keys)
    ensures Describes(NestedRecords(), Nested())
    ensures var dir := ROOT + [100, BACKSLASH];
            && multiset(PathList(Bfs(loc, [dir], [Pending(ROOT, Nested())]))) == multiset{dir + [97]}
            && EmitAll(loc, [dir], TableOf(NestedRecords()), ROOT, order) == []
  {
    var dir := ROOT + [100, BACKSLASH];
    var above := [Ancestor(ROOT, true), Ancestor(ROOT + [100], true)];
    var p := Place(FoundEntry(loc, ROOT + [100], FileNode([97], 3)), above);
    assert p.entry.path == dir + [97];
    LongerDoesNotCover(loc, dir, ROOT);
    LongerDoesNotCover(loc, dir, ROOT + [100]);
    hide IsExcluded, Slash, FoundEntry;
    assert AllOpen(loc, [dir], p.above);
    hide *;
    DirectoryCovers(loc, dir, [97]);
    NestedIsDescribed();
    NestedPlace(loc);
    OnlyPlace(loc, [dir], Nested(), NestedRecords(), order, p);
  }

  /** The resolver ends on every table that describes a volume. */
  lemma DescribedIsAcyclic(records: seq<UsnRecord>, top: Node)
    requires Describes(records, top)
    ensures Acyclic(TableOf(records))
  {
    var entries, numbers := TableOf(records), Frns(RecordsOf(top.frn, top.children));
    TableIsTree(records, top);
    assert Leads(entries, [BACKSLASH], top.frn, [], [BACKSLASH]);
    hide TableOf, RecordsOf, Frns, ResolvePath, Describes, Holds;
    TreeResolves(entries, top.frn, [], top.children);
    forall frn | frn in entries ensures ResolvePath(entries, [], entries[frn].parentFrn, {}).Some? {
      if frn == top.frn {
        ResolveAlong(entries, [], frn, [], {});
      } else {
        var i :| 0 <= i < |numbers| && numbers[i] == frn;
      }
    }
  }

  lemma {:induction false} TreeResolves(entries: Table, parent: nat, chain: seq<nat>, forest: seq<Node>)
    requires Holds(entries, parent, forest) && Climbs(entries, parent, chain)
    ensures forall frn :: frn in Frns(RecordsOf(parent, forest)) ==>
              frn in entries && ResolvePath(entries, [], entries[frn].parentFrn, {}).Some?
    decreases forest
  {
    if forest != [] {
      var n, front := forest[|forest| - 1], forest[..|forest| - 1];
      NumberParts(parent, forest);
      hide Frns, RecordsOf, ResolvePath;
      TreeResolves(entries, parent, chain, front);
      ResolveAlong(entries, [], parent, chain, {});
      assert ([n.frn] + chain)[1..] == chain;
      TreeResolves(entries, n.frn, [n.frn] + chain, n.children);
    }
  }
}
