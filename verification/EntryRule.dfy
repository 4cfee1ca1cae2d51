/**
 The test of one entry said in single characters, without the functions that compute it.
 */
module EntryRules {
  import opened Text
  import opened TokenMatcher
  import opened SimdSearch
  import opened IndexPools
  import opened EntryMatching

  const SPACE: int := ' ' as int
  const UNDERSCORE: int := '_' as int
  const HYPHEN: int := '-' as int
  const FULL_STOP: int := '.' as int

  // ---------------------------------------------------------------- what is searched for, and where

  /** b is a with every character in lower case. */
  ghost predicate Lowered(loc: Locale, a: WString, b: WString) {
    |a| == |b| && forall i :: 0 <= i < |a| ==> b[i] == loc.lower(a[i])
  }

  /** The record's whole path, or what follows its last backslash. */
  ghost predicate IsSearchedText(r: Record, o: SearchOptions, text: WString) {
    if o.matchPath then text == r.path else r.nameStart <= |r.path| && r.path == r.path[..r.nameStart] + text
  }

  /** With case-sensitive search on the texts stand as they are, otherwise both are lowered. */
  ghost predicate AreCompared(
      loc: Locale, query: WString, o: SearchOptions, r: Record, hay: WString, needle: WString) {
    exists text :: IsSearchedText(r, o, text) &&
      if o.caseSensitive then hay == text && needle == query
      else Lowered(loc, text, hay) && Lowered(loc, query, needle)
  }

  lemma ComparedTexts(loc: Locale, query: WString, o: SearchOptions, r: Record, hay: WString, needle: WString)
    requires AreCompared(loc, query, o, r, hay, needle)
    ensures hay == Haystack(loc, r, o) && needle == Needle(loc, query, o)
  {
    var text :| IsSearchedText(r, o, text) &&
      if o.caseSensitive then hay == text && needle == query
      else Lowered(loc, text, hay) && Lowered(loc, query, needle);
    assert text == if o.matchPath then r.path else r.path[r.nameStart..];
  }

  // ---------------------------------------------------------------- occurrences and words

  /** The needle stands at p, character by character. */
  ghost predicate StandsAt(hay: WString, needle: WString, p: int) {
    0 <= p <= |hay| - |needle| && forall j :: 0 <= j < |needle| ==> hay[p + j] == needle[j]
  }

  ghost predicate FirstAt(hay: WString, needle: WString, p: nat) {
    StandsAt(hay, needle, p) && forall i :: 0 <= i < p ==> !StandsAt(hay, needle, i)
  }

  lemma StandsIsOccurs(hay: WString, needle: WString, p: int)
    ensures StandsAt(hay, needle, p) <==> OccursAt(hay, needle, p)
  {
    if 0 <= p <= |hay| - |needle| {
      var slice := hay[p..p + |needle|];
      assert forall j :: 0 <= j < |needle| ==> slice[j] == hay[p + j];
    }
  }

  lemma FirstIsLeftmost(hay: WString, needle: WString, p: nat)
    requires FirstAt(hay, needle, p)
    ensures IsLeftmost(hay, needle, Some(p)) && p + |needle| <= |hay|
  {
    hide StandsAt, OccursAt;
    StandsIsOccurs(hay, needle, p);
    forall i | 0 <= i < p ensures !OccursAt(hay, needle, i) {
      StandsIsOccurs(hay, needle, i);
    }
    assert p + |needle| <= |hay| by { StandsInside(hay, needle, p); }
  }

  lemma StandsInside(hay: WString, needle: WString, p: int)
    requires StandsAt(hay, needle, p)
    ensures 0 <= p <= |hay| - |needle|
  {
  }

  /** Neither a letter or digit nor an underscore. */
  predicate EndsWord(loc: Locale, c: WChar) {
    !loc.alnum(c) && c != UNDERSCORE
  }

  /**
   With the needle first at p: without whole-word search the entry is reported, with it just when
   the needle has no letter, digit or underscore right before it and none right after it.
   */
  lemma OccurrenceRule(
      loc: Locale, query: WString, o: SearchOptions, r: Record, hay: WString, needle: WString, p: nat)
    requires AreCompared(loc, query, o, r, hay, needle) && FirstAt(hay, needle, p)
    ensures NaiveHit(loc, query, o, r)
         == if o.wholeWord ==> (p == 0 || EndsWord(loc, hay[p - 1]))
                               && (p + |needle| == |hay| || EndsWord(loc, hay[p + |needle|]))
            then Some(Hit(p, |needle|)) else None
  {
    hide *;
    ComparedTexts(loc, query, o, r, hay, needle);
    FirstIsLeftmost(hay, needle, p);
    ReportedIff(loc, query, o, r, Some(p));
    BoundariesMean(loc, hay, p, |needle|);
  }

  lemma BoundariesMean(loc: Locale, hay: WString, p: nat, len: nat)
    requires p + len <= |hay|
    ensures MatchesWholeWord(loc, hay, p, len)
       <==> (p == 0 || EndsWord(loc, hay[p - 1])) && (p + len == |hay| || EndsWord(loc, hay[p + len]))
  {
  }

  ghost predicate Separates(c: WChar) {
    c == SPACE || c == UNDERSCORE || c == HYPHEN || c == FULL_STOP
  }

  /** w stands in s from a on, between separators or ends, and holds no separator. */
  ghost predicate IsWord(s: WString, w: WString, a: nat) {
    && w != [] && a + |w| <= |s| && s[a..a + |w|] == w
    && (forall i :: 0 <= i < |w| ==> !Separates(w[i]))
    && (a == 0 || Separates(s[a - 1])) && (a + |w| == |s| || Separates(s[a + |w|]))
  }

  ghost predicate HasWord(s: WString, w: WString) {
    exists a: nat :: IsWord(s, w, a)
  }

  lemma WordIsToken(s: WString, w: WString, a: nat)
    requires IsWord(s, w, a)
    ensures w in Tokens(s)
  {
    assert forall i :: a <= i < a + |w| ==> s[i] == w[i - a];
    assert IsRun(s, a, a + |w|);
    hide Tokens, IsRun, IsWord, StartOf;
    var k := RunIsToken(s, a, a + |w|);
    TokenTextAt(s, k);
    assert Tokens(s)[k] == w by { SameText(s, a, Tokens(s)[k], w); }
  }

  lemma SameText(s: WString, a: nat, t: WString, w: WString)
    requires TextAt(s, a, t) && |t| == |w| && a + |w| <= |s| && forall i :: a <= i < a + |w| ==> s[i] == w[i - a]
    ensures t == w
  {
    forall i | 0 <= i < |t| ensures t[i] == w[i] {
      assert s[a + i] == t[i];
    }
  }

  lemma TokenIsWord(s: WString, k: nat)
    requires k < |Tokens(s)|
    ensures HasWord(s, Tokens(s)[k])
  {
    hide Tokens, StartOf;
    var a, w := StartOf(s, k), Tokens(s)[k];
    TokenIsRun(s, k);
    TokenTextAt(s, k);
    assert s[a..a + |w|] == w;
    assert IsWord(s, w, a);
  }

  lemma WordsAreTokens(s: WString, w: WString)
    ensures HasWord(s, w) <==> w in Tokens(s)
  {
    hide Tokens, IsWord;
    if a: nat :| IsWord(s, w, a) {
      WordIsToken(s, w, a);
    }
    if w in Tokens(s) {
      var k :| 0 <= k < |Tokens(s)| && Tokens(s)[k] == w;
      TokenIsWord(s, k);
    }
  }

  ghost predicate AllWordsIn(needle: WString, hay: WString) {
    (exists w :: HasWord(needle, w)) && forall w :: HasWord(needle, w) ==> HasWord(hay, w)
  }

  lemma WordsIncluded(needle: WString, hay: WString)
    ensures AllWordsIn(needle, hay) <==>
              Tokens(needle) != [] && forall t :: t in Tokens(needle) ==> t in Tokens(hay)
  {
    hide Tokens, HasWord;
    forall w ensures HasWord(needle, w) <==> w in Tokens(needle) {
      WordsAreTokens(needle, w);
    }
    forall w ensures HasWord(hay, w) <==> w in Tokens(hay) {
      WordsAreTokens(hay, w);
    }
    assert Tokens(needle) != [] ==> Tokens(needle)[0] in Tokens(needle);
  }

  /**
   Where the needle does not occur, the entry is reported, with nothing highlighted, just when case
   does not matter, the query holds a separator, the needle has a word, and each of its words is a
   word of the searched text.
   */
  lemma WordRule(loc: Locale, query: WString, o: SearchOptions, r: Record, hay: WString, needle: WString)
    requires AreCompared(loc, query, o, r, hay, needle) && forall p :: !StandsAt(hay, needle, p)
    ensures NaiveHit(loc, query, o, r)
         == if !o.caseSensitive && (exists i :: 0 <= i < |query| && Separates(query[i])) && AllWordsIn(needle, hay)
            then Some(Hit(0, 0)) else None
  {
    forall p ensures !OccursAt(hay, needle, p) {
      StandsIsOccurs(hay, needle, p);
    }
    assert QueryHasSeparators(query) <==> exists i :: 0 <= i < |query| && Separates(query[i]);
    assert IsLeftmost(hay, needle, None);
    hide *;
    ComparedTexts(loc, query, o, r, hay, needle);
    WordsIncluded(needle, hay);
    ReportedIff(loc, query, o, r, None);
  }
}
