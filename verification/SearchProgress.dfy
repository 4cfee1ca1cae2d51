/**
 Progress of a search beside writers, readers and the window: it takes a bounded number of steps,
 can always take one until it is over, and so lets the join in ExecuteSearch return.
 */
module SearchProgress {
  import opened Text
  import opened EntryMatching
  import opened SearchProtocol
  import S = SearchSteps

  /** A step of the search thread or of one of its workers. */
  predicate IsSearchs(a: Action) {
    a.Scan? || a.Merge? || a.Copy? || a.Post? || a.Unlock?
  }

  /** An upper bound on the steps the search still takes. */
  function WorkLeft(search: Search): nat {
    match search
    case NoSearch => 0
    case Unlocking => 1
    case Copying(_, _, _, _, _, results, rows) => 2 + (if |rows| <= |results| then |results| - |rows| else 0)
    case Running(_, _, _, _, _, s) => 3 + MAX_RESULTS + S.Sum(S.Work, s.workers)
  }

  function StepsOfSearch(actions: seq<Action>): nat {
    if actions == [] then 0 else (if IsSearchs(actions[0]) then 1 else 0) + StepsOfSearch(actions[1..])
  }

  lemma ScanLowers(loc: Locale, sys: Sys, b: S.Action)
    requires Inv(loc, sys) && Enabled(loc, sys, Scan(b))
    ensures WorkLeft(Next(loc, sys, Scan(b)).search) < WorkLeft(sys.search)
  {
    hide S.Inv, S.Next, S.Enabled, MutexInv, PoolInv, PostedInv;
    S.MovesUseUpWork(ConfigNow(loc, sys), sys.search.s, b);
  }

  lemma MergeLowers(loc: Locale, sys: Sys)
    requires Enabled(loc, sys, Merge)
    ensures WorkLeft(Next(loc, sys, Merge).search) < WorkLeft(sys.search)
  {
    hide S.Flatten, S.Finished;
  }

  /** Every step of the search brings it nearer to its end, and no other step but a new start undoes that. */
  lemma SearchAdvances(loc: Locale, sys: Sys, a: Action)
    requires Inv(loc, sys) && Enabled(loc, sys, a) && !a.Lock?
    ensures WorkLeft(Next(loc, sys, a).search) + (if IsSearchs(a) then 1 else 0) <= WorkLeft(sys.search)
  {
    hide Inv, S.Sum, S.Enabled, S.Finished, S.Next, S.Result, OpFits, SearchProtocol.After, CopyRow, ConfigNow;
    if a.Scan? {
      ScanLowers(loc, sys, a.a);
    } else if a.Merge? {
      MergeLowers(loc, sys);
    }
  }

  /** A search that is not over can take a step, whatever the other threads hold. */
  lemma SearchCanStep(loc: Locale, sys: Sys)
    requires Inv(loc, sys) && !sys.search.NoSearch?
    ensures exists a :: IsSearchs(a) && Enabled(loc, sys, a)
  {
    hide PoolInv, PostedInv, Answers, CopyRow, S.Inv;
    var a: Action;
    match sys.search {
      case Unlocking =>
        a := Unlock;
      case Copying(_, _, _, _, _, results, rows) =>
        a := if |rows| < |results| then Copy else Post;
      case Running(_, _, _, _, _, s) =>
        if S.Finished(s) {
          a := Merge;
        } else {
          var w :| 0 <= w < |s.workers| && s.workers[w].pc != S.Done;
          a := Scan(S.Move(w, false, 0));
        }
    }
    assert IsSearchs(a) && Enabled(loc, sys, a);
  }

  /** No new search is started. */
  ghost predicate NoLocks(actions: seq<Action>) {
    forall i :: 0 <= i < |actions| ==> !actions[i].Lock?
  }

  lemma {:induction false} StepsCount(loc: Locale, sys: Sys, actions: seq<Action>, end: Sys)
    requires Inv(loc, sys) && Run(loc, sys, actions, end) && NoLocks(actions)
    ensures StepsOfSearch(actions) + WorkLeft(end.search) <= WorkLeft(sys.search)
    decreases |actions|
  {
    if actions != [] {
      hide Inv, Enabled, Next, WorkLeft, IsSearchs;
      assert !actions[0].Lock? && forall i :: 0 <= i < |actions| - 1 ==> actions[1..][i] == actions[i + 1];
      SearchAdvances(loc, sys, actions[0]);
      StepKeepsInv(loc, sys, actions[0]);
      StepsCount(loc, Next(loc, sys, actions[0]), actions[1..], end);
    }
  }

  /** Only steps of the search. */
  ghost predicate SearchOnly(actions: seq<Action>) {
    forall i :: 0 <= i < |actions| ==> IsSearchs(actions[i])
  }

  /** With only its own steps the search can come to its end; the window is then as it was. */
  ghost predicate CanEnd(loc: Locale, sys: Sys) {
    exists actions, end ::
      Run(loc, sys, actions, end) && SearchOnly(actions) && end.search.NoSearch? && end.ui == sys.ui
  }

  lemma UiKept(loc: Locale, sys: Sys, a: Action)
    requires IsSearchs(a) && Enabled(loc, sys, a)
    ensures Next(loc, sys, a).ui == sys.ui && !a.Lock?
  {
    hide S.Next, S.Result, S.Enabled, S.Finished, CopyRow, ConfigNow;
  }

  lemma First(loc: Locale, sys: Sys, a: Action, rest: seq<Action>, end: Sys)
    requires IsSearchs(a) && Enabled(loc, sys, a) && Run(loc, Next(loc, sys, a), rest, end) && SearchOnly(rest)
    ensures Run(loc, sys, [a] + rest, end) && SearchOnly([a] + rest)
  {
    assert ([a] + rest)[1..] == rest;
  }

  lemma {:induction false} SearchEnds(loc: Locale, sys: Sys)
    requires Inv(loc, sys)
    ensures CanEnd(loc, sys)
    decreases WorkLeft(sys.search)
  {
    hide Inv, Enabled, Next, WorkLeft, SearchOnly, IsSearchs, Run;
    if sys.search.NoSearch? {
      AlreadyOver(loc, sys);
    } else {
      SearchCanStep(loc, sys);
      var a :| IsSearchs(a) && Enabled(loc, sys, a);
      var next := Next(loc, sys, a);
      UiKept(loc, sys, a);
      SearchAdvances(loc, sys, a);
      StepKeepsInv(loc, sys, a);
      SearchEnds(loc, next);
      var actions, end :|
        Run(loc, next, actions, end) && SearchOnly(actions) && end.search.NoSearch? && end.ui == next.ui;
      First(loc, sys, a, actions, end);
    }
  }

  lemma AlreadyOver(loc: Locale, sys: Sys)
    requires sys.search.NoSearch?
    ensures CanEnd(loc, sys)
  {
    assert Run(loc, sys, [], sys) && SearchOnly([]);
  }

  /**
   In every run, whatever writers, readers and the window do: until the next start the search takes
   a bounded number of steps, it has one to take exactly while it is not over, and from any point
   its own steps alone bring it to its end.
   */
  lemma EverySearchEnds(loc: Locale, writers: nat, before: seq<Action>, sys: Sys, actions: seq<Action>, end: Sys)
    requires Run(loc, Start(writers), before, sys)
    requires Run(loc, sys, actions, end) && NoLocks(actions)
    ensures StepsOfSearch(actions) + WorkLeft(end.search) <= WorkLeft(sys.search)
    ensures !end.search.NoSearch? <==> exists a :: IsSearchs(a) && Enabled(loc, end, a)
    ensures CanEnd(loc, end)
  {
    hide Run, Inv, WorkLeft, Start, StepsOfSearch, CanEnd;
    StartInv(loc, writers);
    RunKeepsInv(loc, Start(writers), before, sys);
    RunKeepsInv(loc, sys, actions, end);
    StepsCount(loc, sys, actions, end);
    SearchEnds(loc, end);
    if !end.search.NoSearch? {
      SearchCanStep(loc, end);
    }
  }

  /** While the window waits to join, the search it waits for has been told to stop. */
  ghost predicate ToldToStop(sys: Sys) {
    sys.ui.Joining? && sys.search.Running? ==> sys.search.s.cancel
  }

  lemma {:induction false} RunTells(loc: Locale, sys: Sys, actions: seq<Action>, end: Sys)
    requires ToldToStop(sys) && Run(loc, sys, actions, end)
    ensures ToldToStop(end)
    decreases |actions|
  {
    if actions != [] {
      StepTells(loc, sys, actions[0]);
      hide Enabled, Next, ToldToStop;
      RunTells(loc, Next(loc, sys, actions[0]), actions[1..], end);
    }
  }

  lemma StepTells(loc: Locale, sys: Sys, a: Action)
    requires ToldToStop(sys) && Enabled(loc, sys, a)
    ensures ToldToStop(Next(loc, sys, a))
  {
    hide S.Result, S.Finished, CopyRow, ConfigNow, OpFits, S.StepWorker;
  }

  /**
   The join waits for a search that has been told to stop, and nothing but steps of that search is
   needed for it to return.
   */
  lemma JoinReturns(loc: Locale, writers: nat, before: seq<Action>, sys: Sys)
    requires Run(loc, Start(writers), before, sys) && sys.ui.Joining?
    ensures sys.search.Running? ==> sys.search.s.cancel
    ensures exists actions, end ::
              Run(loc, sys, actions, end) && SearchOnly(actions) && end.ui == sys.ui && Enabled(loc, end, Join)
  {
    assert ToldToStop(Start(writers));
    hide Run, Inv, Start, SearchOnly;
    StartInv(loc, writers);
    RunKeepsInv(loc, Start(writers), before, sys);
    RunTells(loc, Start(writers), before, sys);
    SearchEnds(loc, sys);
    var actions, end :|
      Run(loc, sys, actions, end) && SearchOnly(actions) && end.search.NoSearch? && end.ui == sys.ui;
    assert Enabled(loc, end, Join);
  }

  // ---------------------------------------------------------------- every search is answered

  datatype Question = Question(query: WString, options: SearchOptions)

  function Answered(posted: seq<Posting>): (r: seq<Question>)
    ensures |r| == |posted|
  {
    seq(|posted|, i requires 0 <= i < |posted| => Question(posted[i].query, posted[i].options))
  }

  /** The question of the search whose rows are not posted yet. */
  function Pending(search: Search): seq<Question> {
    if search.Running? || search.Copying? then [Question(search.query, search.options)] else []
  }

  /** The question of the search this step starts. */
  function AskedNow(sys: Sys, a: Action): seq<Question> {
    if a.Lock? && sys.ui.Locking? then [Question(sys.ui.query, sys.ui.options)] else []
  }

  /** What was asked of the searches started along the run. */
  ghost function Asked(loc: Locale, sys: Sys, actions: seq<Action>): seq<Question>
    decreases |actions|
  {
    if actions == [] || !Enabled(loc, sys, actions[0]) then []
    else
      AskedNow(sys, actions[0]) + Asked(loc, Next(loc, sys, actions[0]), actions[1..])
  }

  lemma StepAnswers(loc: Locale, sys: Sys, a: Action)
    requires Inv(loc, sys) && Enabled(loc, sys, a)
    ensures var t := Next(loc, sys, a);
            Answered(t.posted) + Pending(t.search)
            == Answered(sys.posted) + Pending(sys.search) + AskedNow(sys, a)
  {
    hide S.Next, S.Result, S.Enabled, S.Finished, S.Partition, S.Init, CopyRow, ConfigNow, OpFits, PoolInv, SearchInv,
         PostedInv, SearchProtocol.After;
    if a.Post? {
      PostedOneMore(sys.posted, Next(loc, sys, a).posted[|sys.posted|]);
    }
  }

  lemma PostedOneMore(posted: seq<Posting>, p: Posting)
    ensures Answered(posted + [p]) == Answered(posted) + [Question(p.query, p.options)]
  {
  }

  lemma {:induction false} RunAnswers(loc: Locale, sys: Sys, actions: seq<Action>, end: Sys)
    requires Inv(loc, sys) && Run(loc, sys, actions, end)
    ensures Answered(end.posted) + Pending(end.search)
         == Answered(sys.posted) + Pending(sys.search) + Asked(loc, sys, actions)
    decreases |actions|
  {
    hide Inv, Enabled, Next, Answered, Pending, AskedNow;
    if actions != [] {
      var next := Next(loc, sys, actions[0]);
      StepAnswers(loc, sys, actions[0]);
      StepKeepsInv(loc, sys, actions[0]);
      RunAnswers(loc, next, actions[1..], end);
      Regroup(Answered(sys.posted) + Pending(sys.search), AskedNow(sys, actions[0]), Asked(loc, next, actions[1..]));
    } else {
      var all := Answered(sys.posted) + Pending(sys.search);
      assert all + [] == all;
    }
  }

  lemma Regroup<T>(a: seq<T>, b: seq<T>, c: seq<T>)
    ensures (a + b) + c == a + (b + c)
  {
  }

  /** In every run the searches started are answered in their order, each once: the last may still be under way. */
  lemma EverySearchIsAnswered(loc: Locale, writers: nat, actions: seq<Action>, end: Sys)
    requires Run(loc, Start(writers), actions, end)
    ensures Answered(end.posted) + Pending(end.search) == Asked(loc, Start(writers), actions)
  {
    hide Run, Inv, Asked;
    StartInv(loc, writers);
    RunAnswers(loc, Start(writers), actions, end);
    assert Answered([]) == [];
  }

  // ---------------------------------------------------------------- what is shown in the end

  ghost predicate NoTyping(actions: seq<Action>) {
    forall i :: 0 <= i < |actions| ==> !actions[i].Type?
  }

  /** The rows posted last answer this question, uncancelled, on the files at this point or later. */
  ghost predicate ShownLast(sys: Sys, q: Question, n: nat) {
    && sys.posted != []
    && var p := sys.posted[|sys.posted| - 1];
       p.query == q.query && p.options == q.options && !p.cancelled && n <= p.seen
  }

  /** The question typed last, at each point on its way to the window. */
  ghost predicate OnItsWay(sys: Sys, q: Question, n: nat) {
    && n <= |sys.log|
    && match sys.ui
       case Joining(query, options) => query == q.query && options == q.options
       case Locking(query, options) => query == q.query && options == q.options
       case Typing =>
         match sys.search
         case NoSearch => ShownLast(sys, q, n)
         case Unlocking => ShownLast(sys, q, n)
         case Running(query, options, _, seen, _, s) =>
           query == q.query && options == q.options && n <= seen && !s.cancel
         case Copying(query, options, _, seen, cancelled, _, _) =>
           query == q.query && options == q.options && n <= seen && !cancelled
  }

  lemma StepOnItsWay(loc: Locale, sys: Sys, a: Action, q: Question, n: nat)
    requires OnItsWay(sys, q, n) && Enabled(loc, sys, a) && !a.Type?
    ensures OnItsWay(Next(loc, sys, a), q, n)
  {
    hide S.Result, S.Finished, S.StepWorker, S.Partition, CopyRow, ConfigNow, OpFits, SearchProtocol.After;
  }

  lemma {:induction false} RunOnItsWay(
      loc: Locale, sys: Sys, actions: seq<Action>, end: Sys, q: Question, n: nat)
    requires OnItsWay(sys, q, n) && Run(loc, sys, actions, end) && NoTyping(actions)
    ensures OnItsWay(end, q, n)
    decreases |actions|
  {
    if actions != [] {
      assert !actions[0].Type? && forall i :: 0 <= i < |actions| - 1 ==> actions[1..][i] == actions[i + 1];
      StepOnItsWay(loc, sys, actions[0], q, n);
      hide Enabled, Next, OnItsWay;
      RunOnItsWay(loc, Next(loc, sys, actions[0]), actions[1..], end, q, n);
    }
  }

  /**
   When nothing more is typed and the search is over, the rows posted last are those of the question
   typed last: the search was not cancelled, and it saw at least the changes made before the typing.
   */
  lemma LastQuestionIsShown(loc: Locale, sys: Sys, query: WString, options: SearchOptions,
                            actions: seq<Action>, end: Sys)
    requires Enabled(loc, sys, Type(query, options)) && Run(loc, Next(loc, sys, Type(query, options)), actions, end)
    requires NoTyping(actions) && end.ui.Typing? && (end.search.NoSearch? || end.search.Unlocking?)
    ensures end.posted != []
    ensures var p := end.posted[|end.posted| - 1];
            p.query == query && p.options == options && !p.cancelled && |sys.log| <= p.seen
  {
    var q := Question(query, options);
    assert OnItsWay(Next(loc, sys, Type(query, options)), q, |sys.log|);
    hide Run, Next, Enabled, NoTyping;
    RunOnItsWay(loc, Next(loc, sys, Type(query, options)), actions, end, q, |sys.log|);
  }
}
