/**
 The master-file-table scan: a table of parent links read from the volume, a recursive path
 resolver over it, and a loop that emits every file whose full path is not excluded.
 */
module MftScanners {
  import opened Text
  import opened IndexPools
  import opened FileTree
  import opened FindFileScanners

  datatype UsnRecord = UsnRecord(frn: nat, parentFrn: nat, name: WString, attributes: U32)

  datatype MftEntry = MftEntry(name: WString, parentFrn: nat, attributes: U32) {
    predicate IsDirectory() {
      attributes / DIRECTORY % 2 == 1
    }
  }

  type Table = map<nat, MftEntry>

  function EntryOf(r: UsnRecord): MftEntry {
    MftEntry(r.name, r.parentFrn, r.attributes)
  }

  /** The table after reading the records in order: a later record replaces an earlier one. */
  function TableOf(records: seq<UsnRecord>): Table {
    if records == [] then map[]
    else
      var r := records[|records| - 1];
      var before := TableOf(records[..|records| - 1]);
      if r.name == [] then before else before[r.frn := EntryOf(r)]
  }

  // ---------------------------------------------------------------- resolving a path

  /** Where the climb ends: a parent that is not in the table, or the root that is its own parent. */
  predicate IsStop(entries: Table, frn: nat) {
    frn !in entries || entries[frn].parentFrn == frn
  }

  /**
   `resolvePath`. `seen` holds the directories of the calls in progress; None stands for the
   endless recursion the program falls into when the parent links form a cycle.
   */
  function ResolvePath(entries: Table, root: WString, frn: nat, seen: set<nat>): Option<WString>
    decreases entries.Keys - seen
  {
    if frn !in entries then Some(root)
    else if entries[frn].parentFrn == frn then Some(root)
    else if frn in seen then None
    else
      match ResolvePath(entries, root, entries[frn].parentFrn, seen + {frn})
      case None => None
      case Some(parent) => Some(parent + entries[frn].name + [BACKSLASH])
  }

  /** The parent links lead from frn through `chain`, frn first, to a stop. */
  ghost predicate Climbs(entries: Table, frn: nat, chain: seq<nat>)
    decreases |chain|
  {
    if chain == [] then IsStop(entries, frn)
    else chain[0] == frn && !IsStop(entries, frn) && Climbs(entries, entries[frn].parentFrn, chain[1..])
  }

  /** The names along a chain, from the root down. */
  ghost function Names(entries: Table, chain: seq<nat>): seq<WString> {
    if chain == [] then []
    else Names(entries, chain[1..]) + [if chain[0] in entries then entries[chain[0]].name else []]
  }

  /** The root, then every name with a backslash after it. */
  function Joined(root: WString, names: seq<WString>): WString {
    if names == [] then root
    else Joined(root, names[..|names| - 1]) + names[|names| - 1] + [BACKSLASH]
  }

  lemma {:induction false} ClimbIsUnique(entries: Table, frn: nat, xs: seq<nat>, ys: seq<nat>)
    requires Climbs(entries, frn, xs) && Climbs(entries, frn, ys)
    ensures xs == ys
    decreases |xs|
  {
    if xs != [] {
      ClimbIsUnique(entries, entries[frn].parentFrn, xs[1..], ys[1..]);
      assert xs == [frn] + xs[1..] && ys == [frn] + ys[1..];
    }
  }

  lemma {:induction false} ClimbSuffix(entries: Table, frn: nat, chain: seq<nat>, i: nat)
    requires Climbs(entries, frn, chain) && i < |chain|
    ensures Climbs(entries, chain[i], chain[i..])
    decreases i
  {
    if i > 0 {
      ClimbSuffix(entries, entries[frn].parentFrn, chain[1..], i - 1);
      assert chain[1..][i - 1..] == chain[i..];
    }
  }

  lemma NoReturn(entries: Table, frn: nat, chain: seq<nat>)
    requires Climbs(entries, frn, chain) && chain != []
    ensures frn !in chain[1..]
  {
    if i :| 0 < i < |chain| && chain[i] == frn {
      ClimbSuffix(entries, frn, chain, i);
      ClimbIsUnique(entries, frn, chain, chain[i..]);
    }
  }

  lemma {:induction false} ResolveAlong(entries: Table, root: WString, frn: nat, chain: seq<nat>, seen: set<nat>)
    requires Climbs(entries, frn, chain) && forall x :: x in chain ==> x !in seen
    ensures ResolvePath(entries, root, frn, seen) == Some(Joined(root, Names(entries, chain)))
    decreases |chain|
  {
    if chain != [] {
      NoReturn(entries, frn, chain);
      var rest := chain[1..];
      forall x | x in rest ensures x !in seen + {frn} {
        assert x in chain;
      }
      ResolveAlong(entries, root, entries[frn].parentFrn, rest, seen + {frn});
      var up := Names(entries, rest);
      assert (up + [entries[frn].name])[..|up|] == up;
    }
  }

  lemma {:induction false} ResolvedChain(entries: Table, root: WString, frn: nat, seen: set<nat>)
    requires ResolvePath(entries, root, frn, seen).Some?
    ensures exists chain :: Climbs(entries, frn, chain)
    decreases entries.Keys - seen
  {
    if IsStop(entries, frn) {
      assert Climbs(entries, frn, []);
    } else {
      ResolvedChain(entries, root, entries[frn].parentFrn, seen + {frn});
      var rest :| Climbs(entries, entries[frn].parentFrn, rest);
      assert ([frn] + rest)[1..] == rest;
      assert Climbs(entries, frn, [frn] + rest);
    }
  }

  /**
   The resolver ends exactly when the parent links lead to a stop, and then yields the root
   followed by every ancestor name, root first, each with a backslash after it.
   */
  lemma ResolvesIffClimbs(entries: Table, root: WString, frn: nat, path: WString)
    ensures ResolvePath(entries, root, frn, {}) == Some(path) <==>
            exists chain :: Climbs(entries, frn, chain) && path == Joined(root, Names(entries, chain))
  {
    if ResolvePath(entries, root, frn, {}) == Some(path) {
      ResolvedChain(entries, root, frn, {});
      var chain :| Climbs(entries, frn, chain);
      ResolveAlong(entries, root, frn, chain, {});
    }
    if chain :| Climbs(entries, frn, chain) && path == Joined(root, Names(entries, chain)) {
      ResolveAlong(entries, root, frn, chain, {});
    }
  }

  // ---------------------------------------------------------------- emitting

  /** What the loop emits for one table entry. */
  function EmitOne(loc: Locale, excluded: seq<WString>, entries: Table, root: WString, frn: nat): seq<FileEntry> {
    if frn !in entries || entries[frn].IsDirectory() then []
    else
      match ResolvePath(entries, root, entries[frn].parentFrn, {})
      case None => []
      case Some(dir) =>
        var e := entries[frn];
        if IsExcluded(loc, excluded, dir + e.name) then []
        else [FileEntry(e.name, loc.Fold(e.name), dir + e.name, 0, 0, e.attributes)]
  }

  function EmitAll(
      loc: Locale, excluded: seq<WString>, entries: Table, root: WString, order: seq<nat>): seq<FileEntry> {
    if order == [] then []
    else EmitAll(loc, excluded, entries, root, order[..|order| - 1])
         + EmitOne(loc, excluded, entries, root, order[|order| - 1])
  }

  /** Every climb ends: the parent links have no cycle but the root's own. */
  ghost predicate Acyclic(entries: Table) {
    forall frn :: frn in entries ==> ResolvePath(entries, [], entries[frn].parentFrn, {}).Some?
  }

  lemma RootDoesNotMatter(entries: Table, root: WString, frn: nat)
    requires ResolvePath(entries, [], frn, {}).Some?
    ensures ResolvePath(entries, root, frn, {}).Some?
  {
    ResolvedChain(entries, [], frn, {});
    var chain :| Climbs(entries, frn, chain);
    ResolveAlong(entries, root, frn, chain, {});
  }

  /** One buffer of records. */
  method ReadBuffer(table: Table, ghost before: seq<UsnRecord>, buffer: seq<UsnRecord>) returns (entries: Table)
    requires table == TableOf(before)
    ensures entries == TableOf(before + buffer)
  {
    entries := table;
    var j := 0;
    assert before + buffer[..0] == before;
    while j < |buffer|
      invariant j <= |buffer| && entries == TableOf(before + buffer[..j])
    {
      var record := buffer[j];
      if |record.name| > 0 {
        entries := entries[record.frn := MftEntry(record.name, record.parentFrn, record.attributes)];
      }
      assert (before + buffer[..j + 1])[..|before| + j] == before + buffer[..j];
      j := j + 1;
    }
    assert buffer[..j] == buffer;
  }

  /** The reading loop: one poll before each buffer and one before the read that finds no more. */
  method ReadTable(batches: seq<seq<UsnRecord>>, cancelAt: Option<nat>) returns (entries: Table, polls: nat)
    ensures Undisturbed(cancelAt, polls) ==> entries == TableOf(Flat(batches))
    ensures cancelAt.Some? ==> polls <= cancelAt.value + 1
  {
    entries, polls := map[], 0;
    var i := 0;
    while true
      invariant i <= |batches| && Undisturbed(cancelAt, polls)
      invariant entries == TableOf(Flat(batches[..i]))
      decreases |batches| - i
    {
      var cancelled := SeesCancel(cancelAt, polls);
      polls := polls + 1;
      if cancelled {
        break;
      }
      if i == |batches| {
        assert batches[..i] == batches;
        break;
      }
      entries := ReadBuffer(entries, Flat(batches[..i]), batches[i]);
      assert batches[..i + 1][..i] == batches[..i];
      i := i + 1;
    }
  }

  /**
   `ScanVolume`: undisturbed it emits for every table entry, in the table's own iteration order;
   cancelled, a prefix of that, no longer than the polls that found the flag clear. `order` is the
   order in which the hash table is walked.
   */
  method ScanVolume(
      loc: Locale, excluded: seq<WString>, root: WString, batches: seq<seq<UsnRecord>>, order: seq<nat>,
      cancelAt: Option<nat>)
    returns (found: seq<FileEntry>, polls: nat)
    requires NoneEmpty(excluded) && Acyclic(TableOf(Flat(batches)))
    requires multiset(order) == multiset(TableOf(Flat(batches)).Keys)
    ensures found <= EmitAll(loc, excluded, TableOf(Flat(batches)), root, order)
    ensures Undisturbed(cancelAt, polls) ==> found == EmitAll(loc, excluded, TableOf(Flat(batches)), root, order)
    ensures cancelAt.Some? ==> |found| <= cancelAt.value && polls <= cancelAt.value + 2
  {
    var entries;
    entries, polls := ReadTable(batches, cancelAt);
    ghost var table := TableOf(Flat(batches));
    hide TableOf, Flat, ResolvePath, IsExcluded, EmitAll;
    found := [];
    EmitNone(loc, excluded, table, root, order);
    var i := 0;
    while i < |order|
      invariant i <= |order| && (Undisturbed(cancelAt, polls) ==> entries == table)
      invariant found == EmitAll(loc, excluded, table, root, order[..i]) && |found| <= polls
      invariant cancelAt.Some? ==> |found| <= cancelAt.value && polls <= cancelAt.value + 1
    {
      EmitMore(loc, excluded, table, root, order, i);
      var cancelled := SeesCancel(cancelAt, polls);
      if cancelled {
        polls := polls + 1;
        return;
      }
      assert entries == table && order[i] in multiset(order);
      polls := polls + 1;
      var frn := order[i];
      var entry := entries[frn];
      i := i + 1;
      if entry.IsDirectory() {
        continue;
      }
      RootDoesNotMatter(entries, root, entry.parentFrn);
      var dir := ResolvePath(entries, root, entry.parentFrn, {}).value;
      var full := dir + entry.name;
      if IsExcluded(loc, excluded, full) {
        continue;
      }
      found := found + [FileEntry(entry.name, loc.Fold(entry.name), full, 0, 0, entry.attributes)];
    }
    assert order[..|order|] == order;
  }

  lemma EmitNone(loc: Locale, excluded: seq<WString>, entries: Table, root: WString, order: seq<nat>)
    ensures EmitAll(loc, excluded, entries, root, order[..0]) == []
  {
  }

  lemma {:induction false} EmitMore(
      loc: Locale, excluded: seq<WString>, entries: Table, root: WString, order: seq<nat>, i: nat)
    requires i < |order|
    ensures EmitAll(loc, excluded, entries, root, order[..i + 1])
         == EmitAll(loc, excluded, entries, root, order[..i]) + EmitOne(loc, excluded, entries, root, order[i])
    ensures EmitAll(loc, excluded, entries, root, order[..i]) <= EmitAll(loc, excluded, entries, root, order)
    decreases |order|
  {
    hide EmitOne;
    assert order[..i + 1][..i] == order[..i];
    var front := order[..|order| - 1];
    assert front[..i] == order[..i];
    if i < |front| {
      EmitMore(loc, excluded, entries, root, front, i);
    }
  }
}
