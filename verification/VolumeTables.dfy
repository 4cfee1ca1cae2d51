/**
 A volume's tree and the table read from it. The change journal gives one record per file, in any
 order, with or without one for the root directory. Read into the table these say of every file of
 the tree what the tree says, and of no other number: the table is a second form of the tree, and
 the climb along its parent links stops at the root.
 */
module VolumeTables {
  import opened Text
  import opened IndexPools
  import opened FileTree
  import opened MftScanners

  // ---------------------------------------------------------------- a volume and its records

  /** No reparse points, every directory readable, names without backslash, and only directories have children. */
  ghost predicate Plain(forest: seq<Node>)
    decreases forest
  {
    forall i :: 0 <= i < |forest| ==>
      var n := forest[i];
      && ProperName(n.name) && !n.IsSkipped() && n.readable && Plain(n.children)
      && (n.IsDirectory() || n.children == [])
  }

  /** One record per node below `parent`. */
  function RecordsOf(parent: nat, forest: seq<Node>): seq<UsnRecord>
    decreases forest
  {
    if forest == [] then []
    else
      var n := forest[|forest| - 1];
      RecordsOf(parent, forest[..|forest| - 1])
      + ([UsnRecord(n.frn, parent, n.name, n.attributes)] + RecordsOf(n.frn, n.children))
  }

  /** The root directory names itself as its parent. */
  function RootRecord(top: Node): UsnRecord {
    UsnRecord(top.frn, top.frn, [DOT], top.attributes)
  }

  function Frns(records: seq<UsnRecord>): (r: seq<nat>)
    ensures |r| == |records|
    ensures forall i :: 0 <= i < |r| ==> r[i] == records[i].frn
  {
    seq(|records|, i requires 0 <= i < |records| => records[i].frn)
  }

  ghost predicate NoDuplicates(s: seq<nat>) {
    forall i, j :: 0 <= i < j < |s| ==> s[i] != s[j]
  }

  /**
   `records` is the table of the tree below `top`, in any order, with or without a record for the
   root itself; every file has one reference number.
   */
  ghost predicate Describes(records: seq<UsnRecord>, top: Node) {
    && top.IsDirectory() && top.readable && Plain(top.children)
    && NoDuplicates(Frns([RootRecord(top)] + RecordsOf(top.frn, top.children)))
    && (multiset(records) == multiset(RecordsOf(top.frn, top.children))
        || multiset(records) == multiset([RootRecord(top)] + RecordsOf(top.frn, top.children)))
  }

  /** The table says of every node what the tree says. */
  ghost predicate Holds(entries: Table, parent: nat, forest: seq<Node>)
    decreases forest
  {
    forest == [] ||
    var n := forest[|forest| - 1];
    && Holds(entries, parent, forest[..|forest| - 1])
    && n.frn in entries && entries[n.frn] == MftEntry(n.name, parent, n.attributes) && n.frn != parent
    && Holds(entries, n.frn, n.children)
  }

  lemma PlainParts(forest: seq<Node>)
    requires Plain(forest) && forest != []
    ensures Plain(forest[..|forest| - 1]) && Plain(forest[|forest| - 1].children)
    ensures var n := forest[|forest| - 1];
            ProperName(n.name) && !n.IsSkipped() && n.readable && (n.IsDirectory() || n.children == [])
  {
  }

  lemma NumberParts(parent: nat, forest: seq<Node>)
    requires forest != []
    ensures var n := forest[|forest| - 1];
            Frns(RecordsOf(parent, forest)) ==
            (Frns(RecordsOf(parent, forest[..|forest| - 1])) + [n.frn]) + Frns(RecordsOf(n.frn, n.children))
  {
    var n := forest[|forest| - 1];
    var above, below := RecordsOf(parent, forest[..|forest| - 1]), RecordsOf(n.frn, n.children);
    var r := UsnRecord(n.frn, parent, n.name, n.attributes);
    assert RecordsOf(parent, forest) == above + ([r] + below);
    hide *;
    FrnsConcat(above, [r] + below);
    FrnsConcat([r], below);
    assert Frns([r]) == [n.frn];
  }

  lemma FrnsConcat(xs: seq<UsnRecord>, ys: seq<UsnRecord>)
    ensures Frns(xs + ys) == Frns(xs) + Frns(ys)
  {
  }

  // ---------------------------------------------------------------- the table is right

  lemma {:induction false} TableHasOnly(records: seq<UsnRecord>, frn: nat)
    ensures frn in TableOf(records) ==>
              exists i :: 0 <= i < |records| && records[i].frn == frn && TableOf(records)[frn] == EntryOf(records[i])
    decreases |records|
  {
    if records != [] {
      TableHasOnly(records[..|records| - 1], frn);
    }
  }

  lemma {:induction false} TableHas(records: seq<UsnRecord>, i: nat)
    requires i < |records| && records[i].name != []
    requires forall j :: 0 <= j < |records| && records[j].frn == records[i].frn ==> records[j] == records[i]
    ensures records[i].frn in TableOf(records) && TableOf(records)[records[i].frn] == EntryOf(records[i])
    decreases |records|
  {
    if i < |records| - 1 {
      TableHas(records[..|records| - 1], i);
    }
  }

  /** The numbers of a tree, taken apart at its last node. */
  lemma FrnParts(parent: nat, forest: seq<Node>)
    requires forest != [] && NoDuplicates([parent] + Frns(RecordsOf(parent, forest)))
    ensures var n := forest[|forest| - 1];
            && NoDuplicates([parent] + Frns(RecordsOf(parent, forest[..|forest| - 1])))
            && NoDuplicates([n.frn] + Frns(RecordsOf(n.frn, n.children)))
            && n.frn != parent
  {
    var n := forest[|forest| - 1];
    hide *;
    NumberParts(parent, forest);
    SplitDistinct(parent, Frns(RecordsOf(parent, forest[..|forest| - 1])), n.frn, Frns(RecordsOf(n.frn, n.children)));
  }

  lemma SplitDistinct(x: nat, a: seq<nat>, y: nat, b: seq<nat>)
    requires NoDuplicates([x] + ((a + [y]) + b))
    ensures NoDuplicates([x] + a) && NoDuplicates([y] + b) && x != y
  {
    var s := [x] + ((a + [y]) + b);
    var k := 1 + |a|;
    assert s[..k] == [x] + a && s[k..] == [y] + b && s[k] == y;
    forall i, j | 0 <= i < j < |s[k..]| ensures s[k..][i] != s[k..][j] {
      assert s[k + i] != s[k + j];
    }
    forall i, j | 0 <= i < j < |s[..k]| ensures s[..k][i] != s[..k][j] {
      assert s[i] != s[j];
    }
    assert s[0] != s[k];
  }

  lemma {:induction false} HoldsFromRecords(entries: Table, parent: nat, forest: seq<Node>)
    requires forall r :: r in RecordsOf(parent, forest) ==> r.frn in entries && entries[r.frn] == EntryOf(r)
    requires NoDuplicates([parent] + Frns(RecordsOf(parent, forest)))
    ensures Holds(entries, parent, forest)
    decreases forest
  {
    if forest != [] {
      var n, front := forest[|forest| - 1], forest[..|forest| - 1];
      var r := UsnRecord(n.frn, parent, n.name, n.attributes);
      FrnParts(parent, forest);
      hide NoDuplicates;
      assert r in RecordsOf(parent, forest);
      HoldsFromRecords(entries, parent, front);
      HoldsFromRecords(entries, n.frn, n.children);
    }
  }

  /** The records of a volume: each a tree node's or the root's, each node's among them, one per number. */
  ghost predicate Clean(records: seq<UsnRecord>, root: UsnRecord, below: seq<UsnRecord>) {
    && (forall r :: r in records ==> r == root || r in below)
    && (forall r :: r in below ==> r in records)
    && (forall r, q :: r in records && q in records && r.frn == q.frn ==> r == q)
    && (forall r :: r in records ==> r.name != [])
    && (forall r :: r in below ==> r.frn != root.frn)
  }

  lemma {:induction false} NamesNotEmpty(parent: nat, forest: seq<Node>)
    requires Plain(forest)
    ensures forall r :: r in RecordsOf(parent, forest) ==> r.name != []
    decreases forest
  {
    if forest != [] {
      PlainParts(forest);
      NamesNotEmpty(parent, forest[..|forest| - 1]);
      NamesNotEmpty(forest[|forest| - 1].frn, forest[|forest| - 1].children);
    }
  }

  lemma DistinctRecords(all: seq<UsnRecord>)
    requires NoDuplicates(Frns(all)) && all != []
    ensures forall r, q :: r in all && q in all && r.frn == q.frn ==> r == q
    ensures forall r :: r in all[1..] ==> r.frn != all[0].frn
  {
    forall r, q | r in all && q in all && r.frn == q.frn ensures r == q {
      var i :| 0 <= i < |all| && all[i] == r;
      var j :| 0 <= j < |all| && all[j] == q;
      assert Frns(all)[i] == Frns(all)[j];
    }
    forall r | r in all[1..] ensures r.frn != all[0].frn {
      var i :| 0 <= i < |all| - 1 && all[1..][i] == r;
      assert Frns(all)[i + 1] != Frns(all)[0];
    }
  }

  lemma RecordsAreClean(records: seq<UsnRecord>, top: Node)
    requires Describes(records, top)
    ensures Clean(records, RootRecord(top), RecordsOf(top.frn, top.children))
  {
    var root, below := RootRecord(top), RecordsOf(top.frn, top.children);
    NamesNotEmpty(top.frn, top.children);
    DistinctRecords([root] + below);
    assert ([root] + below)[1..] == below;
    assert forall r :: r in [root] + below <==> r == root || r in below;
    var bare := multiset(records) == multiset(below);
    assert bare || multiset(records) == multiset([root] + below);
    hide *;
    if bare {
      SameMembers(records, below);
    } else {
      SameMembers(records, [root] + below);
    }
    assert forall r :: r in records ==> r == root || r in below;
    assert forall r :: r in below ==> r in records;
    CleanFromParts(records, root, below);
  }

  lemma CleanFromParts(records: seq<UsnRecord>, root: UsnRecord, below: seq<UsnRecord>)
    requires (forall r :: r in records ==> r == root || r in below) && (forall r :: r in below ==> r in records)
    requires forall r, q :: r in [root] + below && q in [root] + below && r.frn == q.frn ==> r == q
    requires root.name != [] && forall r :: r in below ==> r.name != [] && r.frn != root.frn
    ensures Clean(records, root, below)
  {
    forall r, q | r in records && q in records && r.frn == q.frn ensures r == q {
      assert r in [root] + below && q in [root] + below;
    }
  }

  /** The table holds exactly these records. */
  ghost predicate Faithful(entries: Table, records: seq<UsnRecord>) {
    && (forall r :: r in records ==> r.frn in entries && entries[r.frn] == EntryOf(r))
    && (forall frn :: frn in entries ==> exists r :: r in records && r.frn == frn)
  }

  lemma TableIsFaithful(records: seq<UsnRecord>, root: UsnRecord, below: seq<UsnRecord>)
    requires Clean(records, root, below)
    ensures Faithful(TableOf(records), records)
  {
    var entries := TableOf(records);
    hide TableOf;
    forall r | r in records ensures r.frn in entries && entries[r.frn] == EntryOf(r) {
      var i :| 0 <= i < |records| && records[i] == r;
      TableHas(records, i);
    }
    forall frn | frn in entries ensures exists r :: r in records && r.frn == frn {
      TableHasOnly(records, frn);
    }
  }

  /** The root stops every climb, the tree's nodes are in the table, and nothing else is. */
  lemma TableIsTree(records: seq<UsnRecord>, top: Node)
    requires Describes(records, top)
    ensures var entries, numbers := TableOf(records), Frns(RecordsOf(top.frn, top.children));
            && Holds(entries, top.frn, top.children) && IsStop(entries, top.frn)
            && (top.frn in entries ==> entries[top.frn].IsDirectory())
            && (forall frn :: frn in numbers ==> frn in entries && frn != top.frn)
            && (forall frn :: frn in entries ==> frn == top.frn || frn in numbers)
            && NoDuplicates(numbers)
  {
    var entries, root, below := TableOf(records), RootRecord(top), RecordsOf(top.frn, top.children);
    assert top.IsDirectory() && NoDuplicates(Frns([root] + below));
    assert Frns([root] + below) == [top.frn] + Frns(below);
    assert EntryOf(root).IsDirectory() && EntryOf(root).parentFrn == top.frn;
    hide TableOf, Describes, RecordsOf, Holds, Frns, NoDuplicates, EntryOf, Plain;
    RecordsAreClean(records, top);
    TableIsFaithful(records, root, below);
    BelowInTable(entries, records, root, below);
    hide Clean, Faithful;
    HoldsFromRecords(entries, top.frn, top.children);
    NoDuplicateTail(top.frn, Frns(below));
    NumbersOf(entries, records, root, below);
  }

  lemma BelowInTable(entries: Table, records: seq<UsnRecord>, root: UsnRecord, below: seq<UsnRecord>)
    requires Clean(records, root, below) && Faithful(entries, records)
    ensures forall r :: r in below ==> r.frn in entries && entries[r.frn] == EntryOf(r)
  {
  }

  lemma NoDuplicateTail(x: nat, s: seq<nat>)
    requires NoDuplicates([x] + s)
    ensures NoDuplicates(s)
  {
    forall i, j | 0 <= i < j < |s| ensures s[i] != s[j] {
      assert ([x] + s)[i + 1] == s[i] && ([x] + s)[j + 1] == s[j];
    }
  }

  lemma NumbersOf(entries: Table, records: seq<UsnRecord>, root: UsnRecord, below: seq<UsnRecord>)
    requires Clean(records, root, below) && Faithful(entries, records) && root.parentFrn == root.frn
    ensures forall frn :: frn in Frns(below) ==> frn in entries && frn != root.frn
    ensures forall frn :: frn in entries ==> frn == root.frn || frn in Frns(below)
    ensures root.frn in entries ==> entries[root.frn] == EntryOf(root)
  {
    forall frn | frn in entries ensures frn == root.frn || frn in Frns(below) {
      var r :| r in records && r.frn == frn;
      if r != root {
        var i :| 0 <= i < |below| && below[i] == r;
        assert Frns(below)[i] == frn;
      }
    }
    if root.frn in entries {
      var r :| r in records && r.frn == root.frn;
      assert r !in below;
    }
  }
}
