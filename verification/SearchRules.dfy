/**
 Which record each row shown stands for and what it holds of it, and that a cancelled search stops.
 */
module SearchRules {
  import opened Text
  import opened IndexPools
  import opened EntryMatching
  import opened SearchEngines
  import opened SearchProtocol
  import S = SearchSteps

  // ---------------------------------------------------------------- what a row shows

  /** The row holds the record's path, last component and metadata, and the hit as its highlight. */
  ghost predicate IsShownAs(row: DisplayEntry, r: Record, h: Hit) {
    && row.path == r.path && (r.nameStart <= |r.path| ==> row.name == r.path[r.nameStart..])
    && row.size == r.size && row.lastModified == r.lastModified && row.attributes == r.attributes
    && row.matchStart == h.start && row.matchLen == h.len
  }

  /** The positions of the records that are hit, in ascending order. */
  ghost predicate AreHits(loc: Locale, query: WString, o: SearchOptions, rs: seq<Record>, at: seq<nat>) {
    && (forall j, k :: 0 <= j < k < |at| ==> at[j] < at[k])
    && (forall k :: 0 <= k < |at| ==> at[k] < |rs| && NaiveHit(loc, query, o, rs[at[k]]).Some?)
    && (forall i :: 0 <= i < |rs| && NaiveHit(loc, query, o, rs[i]).Some? ==> i in at)
  }

  /** The rows are those of the records at these positions. */
  ghost predicate AreRows(
      loc: Locale, query: WString, o: SearchOptions, rs: seq<Record>, at: seq<nat>, rows: seq<DisplayEntry>) {
    && |rows| == |at|
    && forall k :: 0 <= k < |at| && at[k] < |rs| && NaiveHit(loc, query, o, rs[at[k]]).Some? ==>
         IsShownAs(rows[k], rs[at[k]], NaiveHit(loc, query, o, rs[at[k]]).value)
  }

  lemma ShownRow(r: Record, h: Hit)
    ensures IsShownAs(Shown(Row(r, h.start, h.len)), r, h)
  {
  }

  lemma LastShown(loc: Locale, query: WString, o: SearchOptions, rs: seq<Record>)
    requires rs != []
    ensures var front, r := rs[..|rs| - 1], rs[|rs| - 1];
            AllShown(NaiveSearch(loc, query, o, rs))
            == AllShown(NaiveSearch(loc, query, o, front))
               + match NaiveHit(loc, query, o, r)
                 case None => []
                 case Some(h) => [Shown(Row(r, h.start, h.len))]
  {
    hide NaiveHit, Shown;
  }

  lemma OneMoreAt(loc: Locale, query: WString, o: SearchOptions, rs: seq<Record>, at: seq<nat>)
    requires rs != [] && AreHits(loc, query, o, rs[..|rs| - 1], at)
    requires NaiveHit(loc, query, o, rs[|rs| - 1]).Some?
    ensures AreHits(loc, query, o, rs, at + [|rs| - 1])
  {
    hide NaiveHit;
    var front, longer := rs[..|rs| - 1], at + [|rs| - 1];
    assert forall i :: 0 <= i < |front| ==> front[i] == rs[i];
    assert forall i :: i in longer <==> i in at || i == |rs| - 1;
  }

  lemma OneMoreHit(
      loc: Locale, query: WString, o: SearchOptions, rs: seq<Record>, at: seq<nat>, rows: seq<DisplayEntry>, h: Hit)
    requires rs != [] && AreHits(loc, query, o, rs[..|rs| - 1], at) && AreRows(loc, query, o, rs[..|rs| - 1], at, rows)
    requires NaiveHit(loc, query, o, rs[|rs| - 1]) == Some(h)
    ensures var r := rs[|rs| - 1];
            && AreHits(loc, query, o, rs, at + [|rs| - 1])
            && AreRows(loc, query, o, rs, at + [|rs| - 1], rows + [Shown(Row(r, h.start, h.len))])
  {
    hide *;
    OneMoreAt(loc, query, o, rs, at);
    OneMoreRowOf(loc, query, o, rs, at, rows, h);
  }

  lemma OneMoreRowOf(
      loc: Locale, query: WString, o: SearchOptions, rs: seq<Record>, at: seq<nat>, rows: seq<DisplayEntry>, h: Hit)
    requires rs != [] && AreHits(loc, query, o, rs[..|rs| - 1], at) && AreRows(loc, query, o, rs[..|rs| - 1], at, rows)
    requires NaiveHit(loc, query, o, rs[|rs| - 1]) == Some(h)
    ensures AreRows(loc, query, o, rs, at + [|rs| - 1], rows + [Shown(Row(rs[|rs| - 1], h.start, h.len))])
  {
    ShownRow(rs[|rs| - 1], h);
    var n := |rs| - 1;
    var longer, shown := at + [n], rows + [Shown(Row(rs[n], h.start, h.len))];
    assert forall k :: 0 <= k < |at| ==> at[k] < n;
    hide NaiveHit, IsShownAs, Shown, AreHits;
    forall k | 0 <= k < |longer| && longer[k] < |rs| && NaiveHit(loc, query, o, rs[longer[k]]).Some?
      ensures IsShownAs(shown[k], rs[longer[k]], NaiveHit(loc, query, o, rs[longer[k]]).value)
    {
      if k < |at| {
        assert rs[..n][at[k]] == rs[longer[k]];
      }
    }
  }

  lemma OneMoreMiss(
      loc: Locale, query: WString, o: SearchOptions, rs: seq<Record>, at: seq<nat>, rows: seq<DisplayEntry>)
    requires rs != [] && AreHits(loc, query, o, rs[..|rs| - 1], at) && AreRows(loc, query, o, rs[..|rs| - 1], at, rows)
    requires NaiveHit(loc, query, o, rs[|rs| - 1]) == None
    ensures AreHits(loc, query, o, rs, at) && AreRows(loc, query, o, rs, at, rows)
  {
    hide NaiveHit, IsShownAs;
    assert forall i :: 0 <= i < |rs| - 1 ==> rs[..|rs| - 1][i] == rs[i];
  }

  /** The rows of a search are those of the records that are hit, each once, in the order of the list. */
  lemma {:induction false} RowRule(loc: Locale, query: WString, o: SearchOptions, rs: seq<Record>)
    ensures exists at :: AreHits(loc, query, o, rs, at)
                         && AreRows(loc, query, o, rs, at, AllShown(NaiveSearch(loc, query, o, rs)))
  {
    hide NaiveHit, AreHits, AreRows, NaiveSearch, AllShown, Shown;
    if rs == [] {
      NoRows(loc, query, o);
    } else {
      var front, r := rs[..|rs| - 1], rs[|rs| - 1];
      RowRule(loc, query, o, front);
      LastShown(loc, query, o, rs);
      var rows := AllShown(NaiveSearch(loc, query, o, front));
      var at :| AreHits(loc, query, o, front, at) && AreRows(loc, query, o, front, at, rows);
      match NaiveHit(loc, query, o, r)
      case None =>
        assert rows + [] == rows;
        OneMoreMiss(loc, query, o, rs, at, rows);
      case Some(h) =>
        OneMoreHit(loc, query, o, rs, at, rows, h);
    }
  }

  lemma NoRows(loc: Locale, query: WString, o: SearchOptions)
    ensures AreHits(loc, query, o, [], []) && AreRows(loc, query, o, [], [], AllShown(NaiveSearch(loc, query, o, [])))
  {
  }

  // ---------------------------------------------------------------- a cancelled search stops

  /** The run's loads of the cancel token return its current value. */
  ghost predicate SeesToken(c: S.Config, s: S.State, actions: seq<S.Action>, t: S.State)
    decreases |actions|
  {
    if actions == [] then s == t
    else
      && S.Enabled(s, actions[0]) && (actions[0].Move? ==> actions[0].seenCancel == s.cancel)
      && SeesToken(c, S.Next(c, s, actions[0]), actions[1..], t)
  }

  /** Whether the worker is past its look at the token and has not yet appended. */
  function MayAppend(k: S.Worker): nat {
    if k.pc in {S.CheckCap, S.Test, S.Append} then 1 else 0
  }

  lemma OneStepAppends(c: S.Config, k: S.Worker, seenCount: nat)
    ensures var k' := S.StepWorker(c, k, true, seenCount);
            |k'.local| + MayAppend(k') <= |k.local| + MayAppend(k)
  {
  }

  /** Once the token is set, a worker appends at most the one hit it was about to test. */
  lemma {:induction false} CancelStops(c: S.Config, s: S.State, actions: seq<S.Action>, t: S.State, w: nat)
    requires s.cancel && SeesToken(c, s, actions, t) && w < |s.workers|
    ensures w < |t.workers|
    ensures |t.workers[w].local| + MayAppend(t.workers[w]) <= |s.workers[w].local| + MayAppend(s.workers[w])
    ensures t.cancel
    decreases |actions|
  {
    if actions != [] {
      var a := actions[0];
      if a.Move? {
        OneStepAppends(c, s.workers[a.w], a.seenCount);
      }
      hide S.StepWorker, MayAppend;
      CancelStops(c, S.Next(c, s, a), actions[1..], t, w);
    }
  }

  lemma {:induction false} NothingListed(workers: seq<S.Worker>)
    requires forall w :: 0 <= w < |workers| ==> workers[w].local == []
    ensures S.Flatten(workers) == []
  {
    if workers != [] {
      NothingListed(workers[..|workers| - 1]);
    }
  }

  lemma {:induction false} WorkersKept(c: S.Config, s: S.State, actions: seq<S.Action>, t: S.State)
    requires SeesToken(c, s, actions, t)
    ensures |t.workers| == |s.workers|
    decreases |actions|
  {
    if actions != [] {
      WorkersKept(c, S.Next(c, s, actions[0]), actions[1..], t);
    }
  }

  /** A search cancelled before it starts finds nothing. */
  lemma CancelledAtOnce(c: S.Config, actions: seq<S.Action>, t: S.State)
    requires SeesToken(c, S.Init(c).(cancel := true), actions, t)
    ensures S.Result(c, t) == []
  {
    var s := S.Init(c).(cancel := true);
    hide SeesToken;
    WorkersKept(c, s, actions, t);
    forall w | 0 <= w < |t.workers| ensures t.workers[w].local == [] {
      CancelStops(c, s, actions, t, w);
    }
    NothingListed(t.workers);
  }
}
