/**
 When one index entry matches a query: the rule on plain records, and the code that decides it
 straight from the flat pools.
 */
module EntryMatching {
  import opened Text
  import opened SimdSearch
  import opened TokenMatcher
  import opened IndexPools

  datatype SearchOptions = SearchOptions(caseSensitive: bool, wholeWord: bool, matchPath: bool)

  datatype SearchResult = SearchResult(entryIndex: U32, matchStart: U32, matchLen: U32)

  datatype Hit = Hit(start: nat, len: nat)

  // ---------------------------------------------------------------- the rule on plain records

  predicate IsWordChar(loc: Locale, c: WChar) {
    loc.alnum(c) || c == 95
  }

  predicate MatchesWholeWord(loc: Locale, text: WString, pos: nat, len: nat) {
    && (0 < pos <= |text| ==> !IsWordChar(loc, text[pos - 1]))
    && (pos + len < |text| ==> !IsWordChar(loc, text[pos + len]))
  }

  function Needle(loc: Locale, query: WString, o: SearchOptions): WString {
    if o.caseSensitive then query else loc.Fold(query)
  }

  /** The text searched in a record, in each of the four case and path modes. */
  function Haystack(loc: Locale, r: Record, o: SearchOptions): WString {
    var text := if o.matchPath then r.path else r.Name();
    if o.caseSensitive then text else loc.Fold(text)
  }

  /** The leftmost occurrence at or after i. */
  ghost function FirstFrom(hay: WString, needle: WString, i: nat): (r: Option<nat>)
    ensures match r
            case Some(p) => i <= p && OccursAt(hay, needle, p)
                            && forall k :: i <= k < p ==> !OccursAt(hay, needle, k)
            case None => forall k :: i <= k ==> !OccursAt(hay, needle, k)
    decreases |hay| - i
  {
    if OccursAt(hay, needle, i) then Some(i)
    else if i + |needle| >= |hay| then None
    else FirstFrom(hay, needle, i + 1)
  }

  /** Whether a record is reported, and what is highlighted. */
  ghost function NaiveHit(loc: Locale, query: WString, o: SearchOptions, r: Record): Option<Hit> {
    var hay, needle := Haystack(loc, r, o), Needle(loc, query, o);
    match FirstFrom(hay, needle, 0)
    case Some(p) =>
      if o.wholeWord && !MatchesWholeWord(loc, hay, p, |needle|) then None else Some(Hit(p, |needle|))
    case None =>
      if !o.caseSensitive && QueryHasSeparators(query) && TokenSetIncluded(Tokens(needle), Tokens(hay))
      then Some(Hit(0, 0)) else None
  }

  /**
   A record is reported iff the needle occurs and, for whole words, its leftmost occurrence has
   word boundaries, or it does not occur and the token rule holds; the highlight is that occurrence.
   */
  lemma ReportedIff(loc: Locale, query: WString, o: SearchOptions, r: Record, p: Option<nat>)
    requires IsLeftmost(Haystack(loc, r, o), Needle(loc, query, o), p)
    ensures var hay, needle := Haystack(loc, r, o), Needle(loc, query, o);
            NaiveHit(loc, query, o, r) ==
            if p.Some? then
              if o.wholeWord && !MatchesWholeWord(loc, hay, p.value, |needle|) then None
              else Some(Hit(p.value, |needle|))
            else if !o.caseSensitive && QueryHasSeparators(query)
                    && Tokens(needle) != [] && (forall t :: t in Tokens(needle) ==> t in Tokens(hay))
            then Some(Hit(0, 0))
            else None
  {
    var hay, needle := Haystack(loc, r, o), Needle(loc, query, o);
    LeftmostIsUnique(hay, needle, FirstFrom(hay, needle, 0), p);
  }

  // ---------------------------------------------------------------- the rule on the pools

  /** What the scan reports for entry i. */
  ghost function Verdict(loc: Locale, p: Pool, query: WString, o: SearchOptions, i: nat): Option<SearchResult>
    requires i < |p.meta|
  {
    if p.meta[i].deleted then None
    else
      match NaiveHit(loc, query, o, RecordOf(p.pathPool, p.meta[i]))
      case None => None
      case Some(h) => Some(SearchResult(i % U32_LIMIT, h.start % U32_LIMIT, h.len % U32_LIMIT))
  }

  /** The prepared query: needle, whether token matching is on, and the sorted query tokens. */
  datatype Prepared = Prepared(needle: WString, doTokenMatch: bool, sortedQueryTokens: seq<WString>)

  ghost predicate PreparedFor(loc: Locale, query: WString, o: SearchOptions, q: Prepared) {
    && q.needle == Needle(loc, query, o)
    && q.doTokenMatch == (!o.caseSensitive && QueryHasSeparators(query))
    && (q.doTokenMatch ==> multiset(q.sortedQueryTokens) == multiset(Tokens(q.needle)))
  }

  method Prepare(loc: Locale, query: WString, o: SearchOptions) returns (q: Prepared)
    ensures PreparedFor(loc, query, o, q)
  {
    var needle := if o.caseSensitive then query else loc.Fold(query);
    var doTokenMatch := !o.caseSensitive && QueryHasSeparators(query);
    var sorted := [];
    if doTokenMatch {
      var tokens := TokenizeView(needle);
      sorted := Sort(tokens);
    }
    q := Prepared(needle, doTokenMatch, sorted);
  }

  /** The text the code searches is the record's haystack, and every slice it takes is in bounds. */
  method SelectHaystack(loc: Locale, p: Pool, i: nat, o: SearchOptions) returns (hay: WString)
    requires WellFormed(loc, p) && i < |p.meta|
    ensures hay == Haystack(loc, RecordOf(p.pathPool, p.meta[i]), o) && |hay| < U16_LIMIT
  {
    var m := p.meta[i];
    assert EntryOk(loc, p, m);
    if o.matchPath {
      hay := p.pathPool[m.pathOffset..m.pathOffset + m.pathLen];
      if !o.caseSensitive {
        hay := loc.Fold(hay);
      }
    } else if o.caseSensitive {
      hay := p.pathPool[m.pathOffset + m.nameStart..m.pathOffset + m.pathLen];
      assert hay == RecordOf(p.pathPool, m).Name();
    } else {
      hay := p.nameLowerPool[m.nameLowerOffset..m.nameLowerOffset + m.nameLowerLen];
    }
  }

  /** Token fallback: tokenise, sort and look up the haystack's tokens. */
  method TokensMatch(q: Prepared, hay: WString) returns (r: bool)
    requires multiset(q.sortedQueryTokens) == multiset(Tokens(q.needle))
    ensures r == TokenSetIncluded(Tokens(q.needle), Tokens(hay))
  {
    var tokens := TokenizeView(hay);
    var sorted := Sort(tokens);
    SameMembers(tokens, sorted);
    SameMembers(q.sortedQueryTokens, Tokens(q.needle));
    r := AllQueryTokensPresent(q.sortedQueryTokens, sorted);
  }

  /** One loop body of a search worker past the cap check. */
  method TestEntry(loc: Locale, avx2: bool, p: Pool, i: nat, ghost query: WString, o: SearchOptions, q: Prepared)
    returns (r: Option<SearchResult>)
    requires WellFormed(loc, p) && i < |p.meta| && PreparedFor(loc, query, o, q)
    ensures r == Verdict(loc, p, query, o, i)
  {
    if p.meta[i].deleted {
      return None;
    }
    hide Haystack, Needle, WellFormed, TokenSetIncluded, QueryHasSeparators, NaiveHit, FirstFrom, MatchesWholeWord,
         Tokens;
    var hay := SelectHaystack(loc, p, i, o);
    var found := SimdFindSubstring(avx2, hay, q.needle);
    ReportedIff(loc, query, o, RecordOf(p.pathPool, p.meta[i]), found);
    var tokenMatch, pos := false, 0;
    match found {
      case Some(at) =>
        pos := at;
      case None =>
        if !q.doTokenMatch {
          return None;
        }
        var present := TokensMatch(q, hay);
        if !present {
          return None;
        }
        tokenMatch := true;
    }
    if o.wholeWord && !tokenMatch {
      if !MatchesWholeWord(loc, hay, pos, |q.needle|) {
        return None;
      }
    }
    r := Some(SearchResult(i % U32_LIMIT, pos % U32_LIMIT, if tokenMatch then 0 else |q.needle| % U32_LIMIT));
  }

  /** A highlight lies inside the haystack. */
  lemma HitInside(loc: Locale, query: WString, o: SearchOptions, r: Record)
    requires NaiveHit(loc, query, o, r).Some?
    ensures var h := NaiveHit(loc, query, o, r).value; h.start + h.len <= |Haystack(loc, r, o)|
  {
    hide Haystack, Needle, Tokens, TokenSetIncluded, MatchesWholeWord, QueryHasSeparators;
    var p := FirstFrom(Haystack(loc, r, o), Needle(loc, query, o), 0);
    ReportedIff(loc, query, o, r, p);
  }

  lemma HaystackSmall(loc: Locale, p: Pool, i: nat, o: SearchOptions)
    requires WellFormed(loc, p) && i < |p.meta|
    ensures |Haystack(loc, RecordOf(p.pathPool, p.meta[i]), o)| < U16_LIMIT
  {
    assert EntryOk(loc, p, p.meta[i]);
  }

  /** No cast loses anything: positions and lengths stay below 2^16. */
  lemma VerdictExact(loc: Locale, p: Pool, query: WString, o: SearchOptions, i: nat)
    requires WellFormed(loc, p) && i < |p.meta| < U32_LIMIT && Verdict(loc, p, query, o, i).Some?
    ensures var v := Verdict(loc, p, query, o, i).value;
            && v.entryIndex == i && !p.meta[i].deleted
            && NaiveHit(loc, query, o, RecordOf(p.pathPool, p.meta[i])) == Some(Hit(v.matchStart, v.matchLen))
  {
    hide NaiveHit, Haystack, WellFormed;
    HaystackSmall(loc, p, i, o);
    HitInside(loc, query, o, RecordOf(p.pathPool, p.meta[i]));
  }
}
