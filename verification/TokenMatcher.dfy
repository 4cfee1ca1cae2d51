/**
 Token-set matching: splitting on separators, and deciding with sorted token lists and
 binary search whether every query token is present.
 */
module TokenMatcher {
  import opened Text

  predicate IsTokenSep(c: WChar) {
    c == 32 || c == 95 || c == 45 || c == 46  // space, '_', '-', '.'
  }

  predicate QueryHasSeparators(query: WString) {
    exists i :: 0 <= i < |query| && IsTokenSep(query[i])
  }

  // ---------------------------------------------------------------- tokens

  predicate SeparatorFree(s: WString) {
    forall i :: 0 <= i < |s| ==> !IsTokenSep(s[i])
  }

  predicate AllSeparators(s: WString) {
    forall i :: 0 <= i < |s| ==> IsTokenSep(s[i])
  }

  /** The length of the separator-free run at the front of s. */
  function RunLength(s: WString): (n: nat)
    ensures n <= |s| && SeparatorFree(s[..n])
    ensures n < |s| ==> IsTokenSep(s[n])
  {
    if s == [] || IsTokenSep(s[0]) then 0
    else
      assert s[..1 + RunLength(s[1..])] == [s[0]] + s[1..][..RunLength(s[1..])];
      1 + RunLength(s[1..])
  }

  function Tokens(s: WString): seq<WString>
    decreases |s|
  {
    if s == [] then []
    else if IsTokenSep(s[0]) then Tokens(s[1..])
    else [s[..RunLength(s)]] + Tokens(s[RunLength(s)..])
  }

  method TokenizeView(s: WString) returns (tokens: seq<WString>)
    ensures tokens == Tokens(s)
  {
    tokens := [];
    var start := 0;
    for i := 0 to |s| + 1
      invariant 0 <= start <= |s| + 1 && start <= i <= |s| + 1
      invariant forall k :: start <= k < i && k < |s| ==> !IsTokenSep(s[k])
      invariant start <= |s| ==> tokens + Tokens(s[start..]) == Tokens(s)
      invariant start == |s| + 1 ==> tokens == Tokens(s)
      invariant i == |s| + 1 ==> start == |s| + 1
    {
      if i == |s| || IsTokenSep(s[i]) {
        if i > start {
          TokenAt(s, start, i);
          assert tokens + ([s[start..i]] + Tokens(s[i..])) == (tokens + [s[start..i]]) + Tokens(s[i..]);
          tokens := tokens + [s[start..i]];
        }
        SeparatorAt(s, i);
        start := i + 1;
      }
    }
  }

  lemma TokenAt(s: WString, start: nat, i: nat)
    requires start < i <= |s| && (i < |s| ==> IsTokenSep(s[i]))
    requires forall k :: start <= k < i ==> !IsTokenSep(s[k])
    ensures Tokens(s[start..]) == [s[start..i]] + Tokens(s[i..])
  {
    FirstToken(s[start..], i - start);
    assert s[start..][..i - start] == s[start..i] && s[start..][i - start..] == s[i..];
  }

  lemma SeparatorAt(s: WString, i: nat)
    requires i <= |s| && (i < |s| ==> IsTokenSep(s[i]))
    ensures Tokens(s[i..]) == if i < |s| then Tokens(s[i + 1..]) else []
  {
    if i < |s| {
      assert s[i..][1..] == s[i + 1..];
    }
  }

  lemma FirstToken(s: WString, n: nat)
    requires 0 < n <= |s| && SeparatorFree(s[..n]) && (n < |s| ==> IsTokenSep(s[n]))
    ensures Tokens(s) == [s[..n]] + Tokens(s[n..])
  {
    var m := RunLength(s);
    assert forall k :: 0 <= k < n ==> s[..n][k] == s[k];
    assert forall k :: 0 <= k < m ==> s[..m][k] == s[k];
    assert m == n;
  }

  // ---------------------------------------------------------------- tokens are the maximal runs

  /** s[a..b] is a maximal non-empty separator-free run. */
  ghost predicate IsRun(s: WString, a: int, b: int) {
    && 0 <= a < b <= |s|
    && (forall i :: a <= i < b ==> !IsTokenSep(s[i]))
    && (a == 0 || IsTokenSep(s[a - 1])) && (b == |s| || IsTokenSep(s[b]))
  }

  /** How much of s the first step of the tokeniser consumes, and how many tokens that yields. */
  ghost function Consumed(s: WString): (n: nat)
    requires s != []
    ensures 0 < n <= |s|
  {
    if IsTokenSep(s[0]) then 1 else RunLength(s)
  }

  ghost function Yielded(s: WString): nat
    requires s != []
  {
    if IsTokenSep(s[0]) then 0 else 1
  }

  /** Where token k starts. */
  ghost function StartOf(s: WString, k: nat): (a: nat)
    requires k < |Tokens(s)|
    ensures a + |Tokens(s)[k]| <= |s| && Tokens(s)[k] != []
    decreases |s|
  {
    if k < Yielded(s) then 0
    else Consumed(s) + StartOf(s[Consumed(s)..], k - Yielded(s))
  }

  lemma TokenOfRest(s: WString, k: nat)
    requires k < |Tokens(s)| && k >= Yielded(s)
    ensures var n, j := Consumed(s), k - Yielded(s);
            && j < |Tokens(s[n..])| && Tokens(s[n..])[j] == Tokens(s)[k]
            && StartOf(s, k) == n + StartOf(s[n..], j)
  {
  }

  /** A run of the part not yet consumed is a run of the whole, and the reverse. */
  lemma RunOfRest(s: WString, a: int, b: int)
    requires s != [] && a >= Consumed(s)
    ensures IsRun(s, a, b) <==> IsRun(s[Consumed(s)..], a - Consumed(s), b - Consumed(s))
  {
    var n := Consumed(s);
    assert forall i :: n <= i < |s| ==> s[i] == s[n..][i - n];
  }

  lemma LiftRun(s: WString, n: nat, a: nat, b: nat)
    requires s != [] && n == Consumed(s) && IsRun(s[n..], a, b)
    ensures IsRun(s, n + a, n + b)
  {
    RunOfRest(s, n + a, n + b);
  }

  lemma FirstRun(s: WString)
    requires s != [] && !IsTokenSep(s[0])
    ensures IsRun(s, 0, RunLength(s))
  {
    var n := RunLength(s);
    assert forall i :: 0 <= i < n ==> s[..n][i] == s[i];
  }

  /** The text t stands in s at position a. */
  ghost predicate TextAt(s: WString, a: int, t: WString) {
    0 <= a <= |s| - |t| && forall i :: 0 <= i < |t| ==> s[a + i] == t[i]
  }

  lemma TextOfRest(s: WString, n: nat, a: int, t: WString)
    requires n <= |s| && TextAt(s[n..], a, t)
    ensures TextAt(s, n + a, t)
  {
    forall i | 0 <= i < |t| ensures s[n + a + i] == t[i] {
      assert s[n..][a + i] == t[i];
    }
  }

  lemma FirstTokenAt(s: WString, k: nat)
    requires k < |Tokens(s)|
    ensures s != []
    ensures k < Yielded(s) ==>
              k == StartOf(s, k) == 0 && !IsTokenSep(s[0]) && Tokens(s)[k] == s[..RunLength(s)]
  {
  }

  lemma {:induction false} TokenTextAt(s: WString, k: nat)
    requires k < |Tokens(s)|
    ensures TextAt(s, StartOf(s, k), Tokens(s)[k])
    decreases |s|
  {
    hide Tokens, StartOf, Consumed, Yielded, RunLength;
    FirstTokenAt(s, k);
    if k >= Yielded(s) {
      hide TextAt;
      TokenOfRest(s, k);
      var n, j := Consumed(s), k - Yielded(s);
      TokenTextAt(s[n..], j);
      TextOfRest(s, n, StartOf(s[n..], j), Tokens(s)[k]);
    }
  }

  /** Token k is a maximal run of the text. */
  lemma {:induction false} TokenIsRun(s: WString, k: nat)
    requires k < |Tokens(s)|
    ensures IsRun(s, StartOf(s, k), StartOf(s, k) + |Tokens(s)[k]|)
    decreases |s|
  {
    hide *;
    FirstTokenAt(s, k);
    if k < Yielded(s) {
      FirstRun(s);
    } else {
      TokenOfRest(s, k);
      var n, j := Consumed(s), k - Yielded(s);
      TokenIsRun(s[n..], j);
      LiftRun(s, n, StartOf(s[n..], j), StartOf(s[n..], j) + |Tokens(s[n..])[j]|);
    }
  }

  /** Every maximal run is one of the tokens. */
  lemma {:induction false} RunIsToken(s: WString, a: int, b: int) returns (k: nat)
    requires IsRun(s, a, b)
    ensures k < |Tokens(s)| && StartOf(s, k) == a && |Tokens(s)[k]| == b - a
    decreases |s|
  {
    var n := Consumed(s);
    if a >= n {
      RunOfRest(s, a, b);
      var j := RunIsToken(s[n..], a - n, b - n);
      k := j + Yielded(s);
    } else {
      k := 0;
      assert !IsTokenSep(s[0]);
      assert forall i :: 0 <= i < n ==> s[..n][i] == s[i];
      assert a == 0 && b == n;
    }
  }

  /** Tokens come in the order of the text, with at least one separator between them. */
  lemma {:induction false} TokensAscend(s: WString, j: nat, k: nat)
    requires j < k < |Tokens(s)|
    ensures StartOf(s, j) + |Tokens(s)[j]| < StartOf(s, k)
    decreases |s|
  {
    var n := Consumed(s);
    TokenOfRest(s, k);
    if j < Yielded(s) {
      assert IsTokenSep(s[n]);
      TokenIsRun(s[n..], k - 1);
      assert StartOf(s[n..], k - 1) != 0;
    } else {
      TokenOfRest(s, j);
      TokensAscend(s[n..], j - Yielded(s), k - Yielded(s));
    }
  }

  // ---------------------------------------------------------------- tokenising inverts joining

  /** gaps[0] t0 gaps[1] t1 ... gaps[n] */
  function Join(tokens: seq<WString>, gaps: seq<WString>): WString
    requires |gaps| == |tokens| + 1
    decreases |tokens|
  {
    if tokens == [] then gaps[0] else gaps[0] + tokens[0] + Join(tokens[1..], gaps[1..])
  }

  /** Separator runs between the tokens are not empty; those at the two ends may be. */
  ghost predicate ProperGaps(tokens: seq<WString>, gaps: seq<WString>) {
    && |gaps| == |tokens| + 1
    && (forall i :: 0 <= i < |gaps| ==> AllSeparators(gaps[i]))
    && (forall i :: 0 < i < |tokens| ==> gaps[i] != [])
  }

  lemma {:induction false} SkipSeparators(gap: WString, s: WString)
    requires AllSeparators(gap)
    ensures Tokens(gap + s) == Tokens(s)
  {
    if gap == [] {
      assert gap + s == s;
    } else {
      assert (gap + s)[1..] == gap[1..] + s;
      SkipSeparators(gap[1..], s);
    }
  }

  lemma {:induction false} TokensInvertJoin(tokens: seq<WString>, gaps: seq<WString>)
    requires ProperGaps(tokens, gaps)
    requires forall i :: 0 <= i < |tokens| ==> tokens[i] != [] && SeparatorFree(tokens[i])
    ensures Tokens(Join(tokens, gaps)) == tokens
    decreases |tokens|
  {
    if tokens == [] {
      SkipSeparators(gaps[0], []);
      assert gaps[0] + [] == gaps[0];
    } else {
      var rest := Join(tokens[1..], gaps[1..]);
      var s := tokens[0] + rest;
      assert Join(tokens, gaps) == gaps[0] + s;
      SkipSeparators(gaps[0], s);
      TokensInvertJoin(tokens[1..], gaps[1..]);
      var n := |tokens[0]|;
      assert s[..n] == tokens[0] && s[n..] == rest;
      if rest != [] {
        JoinStartsWithSeparator(tokens[1..], gaps[1..]);
      }
      FirstToken(s, n);
    }
  }

  lemma JoinStartsWithSeparator(tokens: seq<WString>, gaps: seq<WString>)
    requires |gaps| == |tokens| + 1 && AllSeparators(gaps[0]) && (tokens != [] ==> gaps[0] != [])
    requires Join(tokens, gaps) != []
    ensures IsTokenSep(Join(tokens, gaps)[0])
  {
    assert gaps[0] != [];
    assert Join(tokens, gaps)[0] == gaps[0][0];
  }

  // ---------------------------------------------------------------- sorting and searching

  /** `operator<` of wide string views: lexicographic on code units. */
  predicate Less(a: WString, b: WString) {
    if b == [] then false
    else if a == [] then true
    else a[0] < b[0] || (a[0] == b[0] && Less(a[1..], b[1..]))
  }

  lemma {:induction false} LessTrichotomy(a: WString, b: WString)
    ensures Less(a, b) || a == b || Less(b, a)
    ensures !(Less(a, b) && Less(b, a)) && !Less(a, a)
    decreases |a|
  {
    if a != [] {
      LessTrichotomy(a[1..], a[1..]);
      if b != [] {
        LessTrichotomy(a[1..], b[1..]);
        assert a == [a[0]] + a[1..] && b == [b[0]] + b[1..];
      }
    }
  }

  lemma {:induction false} LessTransitive(a: WString, b: WString, c: WString)
    requires Less(a, b) && Less(b, c)
    ensures Less(a, c)
    decreases |a|
  {
    if a != [] && a[0] == b[0] == c[0] {
      LessTransitive(a[1..], b[1..], c[1..]);
    }
  }

  ghost predicate Sorted(ts: seq<WString>) {
    forall i, j :: 0 <= i < j < |ts| ==> !Less(ts[j], ts[i])
  }

  lemma NotLessTransitive(a: WString, b: WString, c: WString)
    requires !Less(b, a) && !Less(c, b)
    ensures !Less(c, a)
  {
    LessTrichotomy(a, b);
    LessTrichotomy(b, c);
    LessTrichotomy(a, c);
    if Less(c, a) {
      if Less(a, b) {
        LessTransitive(c, a, b);
      }
    }
  }

  /** Any sort will do: a sorted arrangement of given tokens is unique. */
  method Sort(tokens: seq<WString>) returns (sorted: seq<WString>)
    ensures Sorted(sorted) && multiset(sorted) == multiset(tokens)
  {
    sorted := [];
    for n := 0 to |tokens|
      invariant Sorted(sorted) && multiset(sorted) == multiset(tokens[..n])
    {
      assert tokens[..n + 1] == tokens[..n] + [tokens[n]];
      sorted := Insert(sorted, tokens[n]);
    }
    assert tokens[..|tokens|] == tokens;
  }

  method Insert(sorted: seq<WString>, t: WString) returns (r: seq<WString>)
    requires Sorted(sorted)
    ensures Sorted(r) && multiset(r) == multiset(sorted) + multiset{t}
  {
    var k := 0;
    while k < |sorted| && !Less(t, sorted[k])
      invariant 0 <= k <= |sorted|
      invariant forall i :: 0 <= i < k ==> !Less(t, sorted[i])
    {
      k := k + 1;
    }
    r := sorted[..k] + [t] + sorted[k..];
    assert sorted == sorted[..k] + sorted[k..];
    forall i | k <= i < |sorted| ensures !Less(sorted[i], t) {
      LessTrichotomy(t, sorted[k]);
      LessTrichotomy(sorted[k], sorted[k]);
      NotLessTransitive(t, sorted[k], sorted[i]);
    }
  }

  /** `std::binary_search` */
  method BinarySearch(ts: seq<WString>, t: WString) returns (found: bool)
    requires Sorted(ts)
    ensures found <==> t in ts
  {
    var lo, hi := 0, |ts|;
    while lo < hi
      invariant 0 <= lo <= hi <= |ts|
      invariant forall i :: 0 <= i < lo ==> Less(ts[i], t)
      invariant forall i :: hi <= i < |ts| ==> !Less(ts[i], t)
    {
      var mid := (lo + hi) / 2;
      if Less(ts[mid], t) {
        forall i | 0 <= i < mid ensures Less(ts[i], t) {
          if !Less(ts[i], t) {
            NotLessTransitive(t, ts[i], ts[mid]);
          }
        }
        lo := mid + 1;
      } else {
        forall i | mid <= i < |ts| ensures !Less(ts[i], t) {
          LessTrichotomy(ts[mid], ts[mid]);
          NotLessTransitive(t, ts[mid], ts[i]);
        }
        hi := mid;
      }
    }
    found := lo < |ts| && !Less(t, ts[lo]);
    forall i | 0 <= i < |ts| && ts[i] == t ensures found {
      LessTrichotomy(t, t);
      assert lo <= i;
    }
    if found {
      LessTrichotomy(t, ts[lo]);
    }
  }

  /** Some query token exists and every one of them is a filename token. */
  predicate TokenSetIncluded(query: seq<WString>, filename: seq<WString>) {
    query != [] && forall t :: t in query ==> t in filename
  }

  method AllQueryTokensPresent(query: seq<WString>, filename: seq<WString>) returns (r: bool)
    requires Sorted(filename)
    ensures r == TokenSetIncluded(query, filename)
  {
    if query == [] {
      return false;
    }
    for i := 0 to |query|
      invariant forall k :: 0 <= k < i ==> query[k] in filename
    {
      var found := BinarySearch(filename, query[i]);
      if !found {
        return false;
      }
    }
    return true;
  }

  /**
   Reordering the words of a query, repeating one, repeating separators or swapping one
   separator for another never changes the decision.
   */
  lemma TokenDecisionIgnoresOrderAndSeparators(
      p: seq<WString>, pGaps: seq<WString>, q: seq<WString>, qGaps: seq<WString>, text: WString)
    requires ProperGaps(p, pGaps) && ProperGaps(q, qGaps)
    requires forall i :: 0 <= i < |p| ==> p[i] != [] && SeparatorFree(p[i])
    requires forall t :: t in p <==> t in q
    ensures TokenSetIncluded(Tokens(Join(p, pGaps)), Tokens(text))
        <==> TokenSetIncluded(Tokens(Join(q, qGaps)), Tokens(text))
  {
    assert forall i :: 0 <= i < |q| ==> q[i] in q;
    assert p != [] ==> p[0] in q;
    assert q != [] ==> q[0] in p;
    TokensInvertJoin(p, pGaps);
    TokensInvertJoin(q, qGaps);
  }
}
