/**
 The breadth-first directory walk. A queue of directories, pruned by exclusion as each is taken
 out, lists the same files as the plain recursive description of the tree.
 */
module FindFileScanners {
  import opened Text
  import opened IndexPools
  import opened FileTree

  /** A directory in the queue: its path, and what is found there. */
  datatype Pending = Pending(path: WString, node: Node)

  /** What listing a directory emits. */
  function FilesIn(loc: Locale, dir: WString, forest: seq<Node>): seq<FileEntry> {
    if forest == [] then []
    else
      var n := forest[|forest| - 1];
      FilesIn(loc, dir, forest[..|forest| - 1]) +
      (if n.IsSkipped() || n.IsDirectory() then [] else [FoundEntry(loc, dir, n)])
  }

  /** What listing a directory queues. */
  function DirectoriesIn(dir: WString, forest: seq<Node>): seq<Pending> {
    if forest == [] then []
    else
      var n := forest[|forest| - 1];
      DirectoriesIn(dir, forest[..|forest| - 1]) +
      (if n.IsSkipped() || !n.IsDirectory() then [] else [Pending(Slash(dir) + n.name, n)])
  }

  /** Neither excluded nor unreadable. */
  predicate IsOpen(loc: Locale, excluded: seq<WString>, p: Pending) {
    OpenAncestor(loc, excluded, Ancestor(p.path, p.node.readable))
  }

  // ---------------------------------------------------------------- termination: the unvisited tree

  function Size(forest: seq<Node>): nat
    decreases forest
  {
    if forest == [] then 0
    else 1 + Size(forest[|forest| - 1].children) + Size(forest[..|forest| - 1])
  }

  function Unvisited(queue: seq<Pending>): nat {
    if queue == [] then 0 else 1 + Size(queue[0].node.children) + Unvisited(queue[1..])
  }

  lemma {:induction false} UnvisitedConcat(xs: seq<Pending>, ys: seq<Pending>)
    ensures Unvisited(xs + ys) == Unvisited(xs) + Unvisited(ys)
    decreases |xs|
  {
    if xs == [] {
      assert xs + ys == ys;
    } else {
      assert (xs + ys)[1..] == xs[1..] + ys;
      UnvisitedConcat(xs[1..], ys);
    }
  }

  lemma {:induction false} QueuedWithinTree(dir: WString, forest: seq<Node>)
    ensures Unvisited(DirectoriesIn(dir, forest)) <= Size(forest)
    decreases |forest|
  {
    if forest != [] {
      var n := forest[|forest| - 1];
      var front := forest[..|forest| - 1];
      QueuedWithinTree(dir, front);
      if n.IsSkipped() || !n.IsDirectory() {
        assert DirectoriesIn(dir, forest) == DirectoriesIn(dir, front);
      } else {
        var last := Pending(Slash(dir) + n.name, n);
        UnvisitedConcat(DirectoriesIn(dir, front), [last]);
      }
    }
  }

  /** Taking out the first directory and queueing its subdirectories leaves less to visit. */
  lemma StepShrinks(queue: seq<Pending>)
    requires queue != []
    ensures Unvisited(queue[1..] + DirectoriesIn(queue[0].path, queue[0].node.children)) < Unvisited(queue)
  {
    UnvisitedConcat(queue[1..], DirectoriesIn(queue[0].path, queue[0].node.children));
    QueuedWithinTree(queue[0].path, queue[0].node.children);
  }

  /** All files the walk emits from a queue, in its order. */
  function Bfs(loc: Locale, excluded: seq<WString>, queue: seq<Pending>): seq<FileEntry>
    decreases Unvisited(queue)
  {
    if queue == [] then []
    else
      var current := queue[0];
      if IsOpen(loc, excluded, current) then
        StepShrinks(queue);
        FilesIn(loc, current.path, current.node.children)
        + Bfs(loc, excluded, queue[1..] + DirectoriesIn(current.path, current.node.children))
      else Bfs(loc, excluded, queue[1..])
  }

  // ---------------------------------------------------------------- the walk

  /** The cancel flag as a scan sees it: false up to some poll, true from then on. */
  predicate SeesCancel(cancelAt: Option<nat>, poll: nat) {
    cancelAt.Some? && cancelAt.value <= poll
  }

  /** None of the first `polls` polls saw the flag set. */
  predicate Undisturbed(cancelAt: Option<nat>, polls: nat) {
    cancelAt.None? || polls <= cancelAt.value
  }

  /** The inner loop: one directory's listing. */
  method ListDirectory(loc: Locale, dir: WString, forest: seq<Node>, cancelAt: Option<nat>, before: nat)
    returns (files: seq<FileEntry>, directories: seq<Pending>, polls: nat)
    requires Undisturbed(cancelAt, before)
    ensures before <= polls && files <= FilesIn(loc, dir, forest) && Unvisited(directories) <= Size(forest)
    ensures Undisturbed(cancelAt, polls) ==>
              files == FilesIn(loc, dir, forest) && directories == DirectoriesIn(dir, forest)
    ensures before + |files| <= polls
    ensures cancelAt.Some? ==> before + |files| <= cancelAt.value && polls <= cancelAt.value + 1
  {
    files, directories, polls := [], [], before;
    var i := 0;
    while i < |forest|
      invariant i <= |forest| && before + |files| <= polls && Undisturbed(cancelAt, polls)
      invariant files == FilesIn(loc, dir, forest[..i])
      invariant directories == DirectoriesIn(dir, forest[..i])
    {
      ListedPrefix(loc, dir, forest, i);
      var cancelled := SeesCancel(cancelAt, polls);
      polls := polls + 1;
      if cancelled {
        assert directories == DirectoriesIn(dir, forest[..i]);
        return;
      }
      var n := forest[i];
      assert forest[..i + 1][..i] == forest[..i];
      i := i + 1;
      if n.IsReparsePoint() {
        continue;
      }
      if n.name == [DOT] || n.name == [DOT, DOT] {
        continue;
      }
      var fullPath := Slash(dir) + n.name;
      if n.IsDirectory() {
        directories := directories + [Pending(fullPath, n)];
      } else {
        files := files + [FileEntry(n.name, loc.Fold(n.name), fullPath, n.size, n.lastModified, n.attributes)];
      }
    }
    assert forest[..|forest|] == forest;
    ListedPrefix(loc, dir, forest, i);
  }

  lemma {:induction false} ListedPrefix(loc: Locale, dir: WString, forest: seq<Node>, i: nat)
    requires i <= |forest|
    ensures FilesIn(loc, dir, forest[..i]) <= FilesIn(loc, dir, forest)
    ensures Unvisited(DirectoriesIn(dir, forest[..i])) <= Size(forest)
    decreases |forest|
  {
    if i == |forest| {
      assert forest[..i] == forest;
      QueuedWithinTree(dir, forest);
    } else {
      var front := forest[..|forest| - 1];
      assert front[..i] == forest[..i];
      ListedPrefix(loc, dir, front, i);
    }
  }

  /** What is emitted so far and what the queue still yields make up the whole walk. */
  ghost predicate OnCourse(
      loc: Locale, excluded: seq<WString>, found: seq<FileEntry>, queue: seq<Pending>, all: seq<FileEntry>) {
    found + Bfs(loc, excluded, queue) == all
  }

  lemma WalkStep(
      loc: Locale, excluded: seq<WString>, found: seq<FileEntry>, queue: seq<Pending>, all: seq<FileEntry>)
    requires queue != [] && OnCourse(loc, excluded, found, queue, all)
    ensures Unvisited(queue[1..]) + Size(queue[0].node.children) < Unvisited(queue)
    ensures !IsOpen(loc, excluded, queue[0]) ==> OnCourse(loc, excluded, found, queue[1..], all)
    ensures IsOpen(loc, excluded, queue[0]) ==>
              var files := FilesIn(loc, queue[0].path, queue[0].node.children);
              && found + files <= all
              && OnCourse(loc, excluded, found + files,
                          queue[1..] + DirectoriesIn(queue[0].path, queue[0].node.children), all)
  {
    hide IsOpen, FilesIn, DirectoriesIn;
    if IsOpen(loc, excluded, queue[0]) {
      var files, rest := FilesIn(loc, queue[0].path, queue[0].node.children),
                         Bfs(loc, excluded, queue[1..] + DirectoriesIn(queue[0].path, queue[0].node.children));
      assert Bfs(loc, excluded, queue) == files + rest;
      hide Bfs;
      assert found + (files + rest) == (found + files) + rest;
    }
  }

  /**
   `ScanDirectory`: undisturbed it emits the whole walk, cancelled a prefix of it, no longer than
   the polls that found the flag clear, and then it stops. The loop ends because every round leaves
   less of the tree unvisited.
   */
  method ScanDirectory(loc: Locale, excluded: seq<WString>, dir: WString, top: Node, cancelAt: Option<nat>)
    returns (found: seq<FileEntry>, polls: nat)
    requires dir != [] && NoneEmpty(excluded)
    ensures found <= Bfs(loc, excluded, [Pending(dir, top)])
    ensures Undisturbed(cancelAt, polls) ==> found == Bfs(loc, excluded, [Pending(dir, top)])
    ensures cancelAt.Some? ==> |found| <= cancelAt.value && polls <= cancelAt.value + 2
  {
    hide IsExcluded, FilesIn, DirectoriesIn, Size, Unvisited, Bfs, OnCourse;
    var queue := [Pending(dir, top)];
    ghost var all := Bfs(loc, excluded, queue);
    found, polls := [], 0;
    Setting(loc, excluded, queue);
    while queue != []
      invariant found <= all && |found| <= polls
      invariant cancelAt.Some? ==> |found| <= cancelAt.value && polls <= cancelAt.value + 1
      invariant Undisturbed(cancelAt, polls) ==> OnCourse(loc, excluded, found, queue, all)
      decreases Unvisited(queue)
    {
      var cancelled := SeesCancel(cancelAt, polls);
      if cancelled {
        polls := polls + 1;
        break;
      }
      WalkStep(loc, excluded, found, queue, all);
      polls := polls + 1;
      var current := queue[0];
      queue := queue[1..];
      if IsExcluded(loc, excluded, current.path) {
        continue;
      }
      if !current.node.readable {
        continue;
      }
      var files, directories;
      files, directories, polls := ListDirectory(loc, current.path, current.node.children, cancelAt, polls);
      UnvisitedConcat(queue, directories);
      found := found + files;
      queue := queue + directories;
    }
    Arrived(loc, excluded, found, all);
  }

  lemma Setting(loc: Locale, excluded: seq<WString>, queue: seq<Pending>)
    ensures OnCourse(loc, excluded, [], queue, Bfs(loc, excluded, queue))
  {
    hide Bfs;
  }

  lemma Arrived(loc: Locale, excluded: seq<WString>, found: seq<FileEntry>, all: seq<FileEntry>)
    ensures OnCourse(loc, excluded, found, [], all) ==> found == all
  {
  }

  // ---------------------------------------------------------------- what the walk lists

  /** The files below an open directory, pruned on the way down. */
  function Visible(loc: Locale, excluded: seq<WString>, dir: WString, forest: seq<Node>): seq<FileEntry>
    decreases forest
  {
    if forest == [] then []
    else
      var n := forest[|forest| - 1];
      var path := Slash(dir) + n.name;
      Visible(loc, excluded, dir, forest[..|forest| - 1]) +
      (if n.IsSkipped() then []
       else if !n.IsDirectory() then [FoundEntry(loc, dir, n)]
       else if IsOpen(loc, excluded, Pending(path, n)) then Visible(loc, excluded, path, n.children)
       else [])
  }

  function VisibleQueue(loc: Locale, excluded: seq<WString>, queue: seq<Pending>): seq<FileEntry> {
    if queue == [] then []
    else
      var p := queue[|queue| - 1];
      VisibleQueue(loc, excluded, queue[..|queue| - 1])
      + (if IsOpen(loc, excluded, p) then Visible(loc, excluded, p.path, p.node.children) else [])
  }

  lemma {:induction false} VisibleQueueConcat(loc: Locale, excluded: seq<WString>, xs: seq<Pending>, ys: seq<Pending>)
    ensures VisibleQueue(loc, excluded, xs + ys) == VisibleQueue(loc, excluded, xs) + VisibleQueue(loc, excluded, ys)
    decreases |ys|
  {
    if ys == [] {
      assert xs + ys == xs;
    } else {
      assert (xs + ys)[..|xs + ys| - 1] == xs + ys[..|ys| - 1];
      VisibleQueueConcat(loc, excluded, xs, ys[..|ys| - 1]);
    }
  }

  lemma VisibleQueueOne(loc: Locale, excluded: seq<WString>, queue: seq<Pending>, p: Pending)
    ensures VisibleQueue(loc, excluded, queue + [p])
         == VisibleQueue(loc, excluded, queue)
            + (if IsOpen(loc, excluded, p) then Visible(loc, excluded, p.path, p.node.children) else [])
  {
    assert (queue + [p])[..|queue|] == queue;
  }

  lemma GrowBoth<T>(whole: seq<T>, left: seq<T>, right: seq<T>, a: seq<T>, b: seq<T>)
    requires multiset(whole) == multiset(left) + multiset(right)
    ensures multiset(whole + (a + b)) == multiset(left + a) + multiset(right + b)
  {
  }

  /** Below a directory: its own files and what lies below its subdirectories. */
  lemma {:induction false} VisibleSplit(loc: Locale, excluded: seq<WString>, dir: WString, forest: seq<Node>)
    ensures multiset(Visible(loc, excluded, dir, forest))
         == multiset(FilesIn(loc, dir, forest)) + multiset(VisibleQueue(loc, excluded, DirectoriesIn(dir, forest)))
    decreases |forest|
  {
    if forest != [] {
      hide IsOpen, Slash, VisibleQueue;
      var n, front := forest[|forest| - 1], forest[..|forest| - 1];
      VisibleSplit(loc, excluded, dir, front);
      var p := Pending(Slash(dir) + n.name, n);
      var own := if n.IsSkipped() || n.IsDirectory() then [] else [FoundEntry(loc, dir, n)];
      var below := if !n.IsSkipped() && n.IsDirectory() && IsOpen(loc, excluded, p)
                   then Visible(loc, excluded, p.path, n.children) else [];
      hide *;
      ListGrowth(loc, excluded, dir, forest);
      QueueGrowth(loc, excluded, dir, forest);
      GrowBoth(Visible(loc, excluded, dir, front), FilesIn(loc, dir, front),
               VisibleQueue(loc, excluded, DirectoriesIn(dir, front)), own, below);
    }
  }

  lemma ListGrowth(loc: Locale, excluded: seq<WString>, dir: WString, forest: seq<Node>)
    requires forest != []
    ensures var n := forest[|forest| - 1];
            var p := Pending(Slash(dir) + n.name, n);
            var own := if n.IsSkipped() || n.IsDirectory() then [] else [FoundEntry(loc, dir, n)];
            var below := if !n.IsSkipped() && n.IsDirectory() && IsOpen(loc, excluded, p)
                         then Visible(loc, excluded, p.path, n.children) else [];
            && FilesIn(loc, dir, forest) == FilesIn(loc, dir, forest[..|forest| - 1]) + own
            && Visible(loc, excluded, dir, forest)
               == Visible(loc, excluded, dir, forest[..|forest| - 1]) + (own + below)
  {
    hide IsOpen, Slash, FoundEntry, Visible;
    LastVisible(loc, excluded, dir, forest);
  }

  lemma LastVisible(loc: Locale, excluded: seq<WString>, dir: WString, forest: seq<Node>)
    requires forest != []
    ensures var n, path := forest[|forest| - 1], Slash(dir) + forest[|forest| - 1].name;
            Visible(loc, excluded, dir, forest)
            == Visible(loc, excluded, dir, forest[..|forest| - 1])
               + (if n.IsSkipped() then []
                  else if !n.IsDirectory() then [FoundEntry(loc, dir, n)]
                  else if IsOpen(loc, excluded, Pending(path, n)) then Visible(loc, excluded, path, n.children)
                  else [])
  {
    hide IsOpen, Slash, FoundEntry;
  }

  lemma QueueGrowth(loc: Locale, excluded: seq<WString>, dir: WString, forest: seq<Node>)
    requires forest != []
    ensures var n := forest[|forest| - 1];
            var p := Pending(Slash(dir) + n.name, n);
            VisibleQueue(loc, excluded, DirectoriesIn(dir, forest)) ==
            VisibleQueue(loc, excluded, DirectoriesIn(dir, forest[..|forest| - 1]))
            + (if !n.IsSkipped() && n.IsDirectory() && IsOpen(loc, excluded, p)
               then Visible(loc, excluded, p.path, n.children) else [])
  {
    hide IsOpen, Slash, VisibleQueue, Visible;
    var n, front := forest[|forest| - 1], forest[..|forest| - 1];
    var p := Pending(Slash(dir) + n.name, n);
    if n.IsSkipped() || !n.IsDirectory() {
      assert DirectoriesIn(dir, forest) == DirectoriesIn(dir, front);
    } else {
      VisibleQueueOne(loc, excluded, DirectoriesIn(dir, front), p);
    }
  }

  /** The order of the walk aside, it lists what the pruned recursion lists. */
  lemma {:induction false} BfsIsVisible(loc: Locale, excluded: seq<WString>, queue: seq<Pending>)
    ensures multiset(Bfs(loc, excluded, queue)) == multiset(VisibleQueue(loc, excluded, queue))
    decreases Unvisited(queue)
  {
    if queue != [] {
      var p, rest := queue[0], queue[1..];
      assert queue == [p] + rest;
      VisibleQueueConcat(loc, excluded, [p], rest);
      if IsOpen(loc, excluded, p) {
        StepShrinks(queue);
        var next := DirectoriesIn(p.path, p.node.children);
        BfsIsVisible(loc, excluded, rest + next);
        VisibleQueueConcat(loc, excluded, rest, next);
        VisibleSplit(loc, excluded, p.path, p.node.children);
      } else {
        BfsIsVisible(loc, excluded, rest);
      }
    }
  }

  lemma OneMoreAncestor(loc: Locale, excluded: seq<WString>, above: seq<Ancestor>, a: Ancestor)
    ensures AllOpen(loc, excluded, above + [a]) <==> AllOpen(loc, excluded, above) && OpenAncestor(loc, excluded, a)
  {
    hide OpenAncestor;
    if AllOpen(loc, excluded, above + [a]) {
      assert (above + [a])[|above|] == a;
      forall i | 0 <= i < |above| ensures OpenAncestor(loc, excluded, above[i]) {
        assert (above + [a])[i] == above[i];
      }
    }
  }

  lemma {:induction false} VisibleIsOpen(loc: Locale, excluded: seq<WString>, above: seq<Ancestor>, forest: seq<Node>)
    requires above != []
    ensures OpenEntries(loc, excluded, Places(loc, above, forest))
         == if AllOpen(loc, excluded, above) then Visible(loc, excluded, above[|above| - 1].path, forest) else []
    decreases forest
  {
    if forest == [] {
    } else {
      var n, front, dir := forest[|forest| - 1], forest[..|forest| - 1], above[|above| - 1].path;
      hide AllOpen, OpenAncestor, Slash, FoundEntry, OpenEntries;
      VisibleIsOpen(loc, excluded, above, front);
      if n.IsSkipped() {
        assert Places(loc, above, forest) == Places(loc, above, front);
      } else if n.IsDirectory() {
        var here := Ancestor(Slash(dir) + n.name, n.readable);
        var below := above + [here];
        assert below[|below| - 1] == here;
        VisibleIsOpen(loc, excluded, below, n.children);
        OneMoreAncestor(loc, excluded, above, here);
        OpenEntriesConcat(loc, excluded, Places(loc, above, front), Places(loc, below, n.children));
      } else {
        var place := Place(FoundEntry(loc, dir, n), above);
        OpenEntriesConcat(loc, excluded, Places(loc, above, front), [place]);
      }
    }
  }

  /**
   The walk emits each file whose directories, from the scan root down, are all readable and not
   excluded, exactly once, and no other file.
   */
  lemma WalkListsOpenFiles(loc: Locale, excluded: seq<WString>, dir: WString, top: Node)
    ensures multiset(Bfs(loc, excluded, [Pending(dir, top)]))
         == multiset(OpenEntries(loc, excluded, Places(loc, [Ancestor(dir, top.readable)], top.children)))
  {
    var queue := [Pending(dir, top)];
    BfsIsVisible(loc, excluded, queue);
    VisibleIsOpen(loc, excluded, [Ancestor(dir, top.readable)], top.children);
  }

  /** What the walk emits can go into the index: its name fields agree with its path. */
  lemma FoundIsCanonical(loc: Locale, dir: WString, n: Node)
    requires ProperName(n.name) && |Slash(dir) + n.name| < U16_LIMIT
    ensures Canonical(loc, FoundEntry(loc, dir, n))
  {
    var path := Slash(dir) + n.name;
    assert path[|Slash(dir)| - 1] == BACKSLASH;
    NameStartsAfterSeparator(path, |Slash(dir)|, n.name);
  }

  lemma NameStartsAfterSeparator(path: WString, k: nat, name: WString)
    requires 0 < k <= |path| && path[k - 1] == BACKSLASH && path[k..] == name && ProperName(name)
    ensures NameStart(path) == k
  {
    assert forall i :: k <= i < |path| ==> path[i] == path[k..][i - k];
  }
}
