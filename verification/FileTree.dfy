/**
 The directory tree of a volume, the exclusion test both scanners share, and the plain listing of
 a tree's files that both scanners are measured against.
 */
module FileTree {
  import opened Text
  import opened IndexPools

  const DIRECTORY: nat := 0x10
  const REPARSE_POINT: nat := 0x400
  const DOT: WChar := 46

  datatype Node = Node(
    name: WString, frn: nat, attributes: U32, size: U64, lastModified: U64, readable: bool, children: seq<Node>)
  {
    predicate IsDirectory() {
      attributes / DIRECTORY % 2 == 1
    }

    predicate IsReparsePoint() {
      attributes / REPARSE_POINT % 2 == 1
    }

    /** What a directory walk passes over: reparse points, `.` and `..`. */
    predicate IsSkipped() {
      IsReparsePoint() || name == [DOT] || name == [DOT, DOT]
    }
  }

  predicate EndsInSeparator(s: WString) {
    s != [] && s[|s| - 1] == BACKSLASH
  }

  /** The path with a trailing backslash. */
  function Slash(s: WString): WString {
    if EndsInSeparator(s) then s else s + [BACKSLASH]
  }

  /** One exclusion against one path, case-insensitively: the path itself or anything below it. */
  predicate Covers(loc: Locale, exclusion: WString, path: WString) {
    var lower, exclLower := loc.Fold(path), loc.Fold(exclusion);
    lower == exclLower || Slash(exclLower) <= lower
  }

  predicate IsExcluded(loc: Locale, excluded: seq<WString>, path: WString) {
    exists i :: 0 <= i < |excluded| && Covers(loc, excluded[i], path)
  }

  /** Some exclusion is this very path, up to case. */
  predicate Named(loc: Locale, excluded: seq<WString>, path: WString) {
    exists i :: 0 <= i < |excluded| && loc.Fold(excluded[i]) == loc.Fold(path)
  }

  // ---------------------------------------------------------------- the files of a tree

  function FoundEntry(loc: Locale, dir: WString, n: Node): FileEntry {
    FileEntry(n.name, loc.Fold(n.name), Slash(dir) + n.name, n.size, n.lastModified, n.attributes)
  }

  datatype Ancestor = Ancestor(path: WString, readable: bool)

  /** A file and its directories, from the scan root down. */
  datatype Place = Place(entry: FileEntry, above: seq<Ancestor>)

  /** Every file below the directories `above`, each once, with all its directories. */
  function Places(loc: Locale, above: seq<Ancestor>, forest: seq<Node>): seq<Place>
    requires above != []
    decreases forest
  {
    if forest == [] then []
    else
      var n, dir := forest[|forest| - 1], above[|above| - 1].path;
      Places(loc, above, forest[..|forest| - 1]) +
      (if n.IsSkipped() then []
       else if n.IsDirectory() then Places(loc, above + [Ancestor(Slash(dir) + n.name, n.readable)], n.children)
       else [Place(FoundEntry(loc, dir, n), above)])
  }

  predicate OpenAncestor(loc: Locale, excluded: seq<WString>, a: Ancestor) {
    a.readable && !IsExcluded(loc, excluded, a.path)
  }

  predicate AllOpen(loc: Locale, excluded: seq<WString>, above: seq<Ancestor>) {
    forall i :: 0 <= i < |above| ==> OpenAncestor(loc, excluded, above[i])
  }

  /** The files whose directories are all readable and not excluded. */
  function OpenEntries(loc: Locale, excluded: seq<WString>, places: seq<Place>): seq<FileEntry> {
    if places == [] then []
    else
      var p := places[|places| - 1];
      OpenEntries(loc, excluded, places[..|places| - 1]) + (if AllOpen(loc, excluded, p.above) then [p.entry] else [])
  }

  lemma {:induction false} OpenEntriesConcat(loc: Locale, excluded: seq<WString>, xs: seq<Place>, ys: seq<Place>)
    ensures OpenEntries(loc, excluded, xs + ys) == OpenEntries(loc, excluded, xs) + OpenEntries(loc, excluded, ys)
    decreases |ys|
  {
    if ys == [] {
      assert xs + ys == xs;
    } else {
      assert (xs + ys)[..|xs + ys| - 1] == xs + ys[..|ys| - 1];
      OpenEntriesConcat(loc, excluded, xs, ys[..|ys| - 1]);
    }
  }

  // ---------------------------------------------------------------- exclusion, one level at a time

  ghost predicate ProperName(name: WString) {
    name != [] && forall i :: 0 <= i < |name| ==> name[i] != BACKSLASH
  }

  /** A prefix that ends in a backslash cannot end inside a name. */
  lemma PrefixStopsBeforeName(p: WString, dir: WString, name: WString)
    requires EndsInSeparator(p) && ProperName(name)
    ensures p <= dir + name <==> p <= dir
  {
    if |dir| < |p| <= |dir + name| {
      assert (dir + name)[|p| - 1] == name[|p| - 1 - |dir|] != p[|p| - 1];
    }
  }

  lemma PrefixOfSlash(e: WString, d: WString)
    requires e != []
    ensures Slash(e) <= Slash(d) <==> e == Slash(d) || e == d || Slash(e) <= d
  {
    if Slash(e) == Slash(d) {
      assert EndsInSeparator(e) || e == Slash(d)[..|e|];
      assert EndsInSeparator(d) || d == Slash(d)[..|d|];
    } else if Slash(e) <= Slash(d) {
      assert |Slash(e)| < |Slash(d)| && Slash(e) == Slash(d)[..|Slash(e)|];
      assert Slash(e) == d[..|Slash(e)|];
    }
  }

  lemma ChildCovered(loc: Locale, e: WString, dir: WString, name: WString)
    requires loc.KeepsSeparator() && e != [] && ProperName(name)
    ensures Covers(loc, e, Slash(dir) + name) <==>
            loc.Fold(e) == loc.Fold(Slash(dir) + name) || loc.Fold(e) == loc.Fold(Slash(dir)) || Covers(loc, e, dir)
  {
    var fe := loc.Fold(e);
    FoldConcat(loc, Slash(dir), name);
    PrefixStopsBeforeName(Slash(fe), Slash(loc.Fold(dir)), loc.Fold(name));
    PrefixOfSlash(fe, loc.Fold(dir));
  }

  ghost predicate NoneEmpty(excluded: seq<WString>) {
    forall i :: 0 <= i < |excluded| ==> excluded[i] != []
  }

  /**
   A path is excluded exactly when its directory is, or an exclusion is the path itself or its
   directory written with a trailing backslash.
   */
  lemma ChildExcludedIff(loc: Locale, excluded: seq<WString>, dir: WString, name: WString)
    requires loc.KeepsSeparator() && NoneEmpty(excluded) && ProperName(name)
    ensures IsExcluded(loc, excluded, Slash(dir) + name) <==>
            || Named(loc, excluded, Slash(dir) + name) || Named(loc, excluded, Slash(dir))
            || IsExcluded(loc, excluded, dir)
  {
    forall i | 0 <= i < |excluded|
      ensures Covers(loc, excluded[i], Slash(dir) + name) <==>
              || loc.Fold(excluded[i]) == loc.Fold(Slash(dir) + name)
              || loc.Fold(excluded[i]) == loc.Fold(Slash(dir)) || Covers(loc, excluded[i], dir)
    {
      ChildCovered(loc, excluded[i], dir, name);
    }
    hide Covers, Slash;
  }

  /** The path reached from `root` by going down through `names`. */
  function PathAt(root: WString, names: seq<WString>): WString {
    if names == [] then root else Slash(PathAt(root, names[..|names| - 1])) + names[|names| - 1]
  }

  /** An exclusion is the path reached after k names, or that path with a trailing backslash before further names. */
  ghost predicate NamedOnTheWay(loc: Locale, excluded: seq<WString>, root: WString, names: seq<WString>, k: nat) {
    && k <= |names|
    && ((k > 0 && Named(loc, excluded, PathAt(root, names[..k])))
        || (k < |names| && Named(loc, excluded, Slash(PathAt(root, names[..k])))))
  }

  lemma OneNameFurther(
      loc: Locale, excluded: seq<WString>, root: WString, names: seq<WString>, k: nat)
    requires names != []
    ensures var front, n := names[..|names| - 1], |names|;
            NamedOnTheWay(loc, excluded, root, names, k) <==>
            || NamedOnTheWay(loc, excluded, root, front, k)
            || (k == n && Named(loc, excluded, PathAt(root, names)))
            || (k == n - 1 && Named(loc, excluded, Slash(PathAt(root, front))))
  {
    var front, n := names[..|names| - 1], |names|;
    hide Named, Slash, PathAt;
    if k < n {
      assert front[..k] == names[..k];
    } else if k == n {
      assert names[..k] == names;
    }
    assert front[..n - 1] == front;
  }

  /** A path is excluded exactly when its root is or an exclusion names it or a directory above it. */
  lemma {:induction false} ExcludedIffNamedOnTheWay(
      loc: Locale, excluded: seq<WString>, root: WString, names: seq<WString>)
    requires loc.KeepsSeparator() && NoneEmpty(excluded) && forall i :: 0 <= i < |names| ==> ProperName(names[i])
    ensures IsExcluded(loc, excluded, PathAt(root, names)) <==>
            IsExcluded(loc, excluded, root) || exists k :: NamedOnTheWay(loc, excluded, root, names, k)
    decreases |names|
  {
    if names == [] {
      assert !exists k :: NamedOnTheWay(loc, excluded, root, names, k);
    } else {
      var front, n := names[..|names| - 1], |names|;
      ExcludedIffNamedOnTheWay(loc, excluded, root, front);
      ChildExcludedIff(loc, excluded, PathAt(root, front), names[n - 1]);
      assert PathAt(root, names) == Slash(PathAt(root, front)) + names[n - 1];
      hide *;
      if k :| NamedOnTheWay(loc, excluded, root, names, k) {
        OneNameFurther(loc, excluded, root, names, k);
      } else if IsExcluded(loc, excluded, PathAt(root, names)) && !IsExcluded(loc, excluded, root) {
        var k := if Named(loc, excluded, PathAt(root, names)) then n
                 else if Named(loc, excluded, Slash(PathAt(root, front))) then n - 1
                 else var k :| NamedOnTheWay(loc, excluded, root, front, k); k;
        OneNameFurther(loc, excluded, root, names, k);
      }
    }
  }
}
