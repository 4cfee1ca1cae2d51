/**
 Wide characters and strings, the fixed-width integers of the index, and the two
 locale functions the program takes from the C runtime.
 */
module Text {

  type Byte = x: int | 0 <= x < 0x100
  type U16 = x: int | 0 <= x < 0x1_0000
  type U32 = x: int | 0 <= x < 0x1_0000_0000
  type U64 = x: int | 0 <= x < 0x1_0000_0000_0000_0000

  type WChar = U16
  type WString = seq<WChar>

  const BACKSLASH: WChar := 92

  datatype Option<+T> = None | Some(value: T)

  /** `towlower` and `iswalnum`, each total on 16-bit characters. */
  datatype Locale = Locale(lower: WChar -> WChar, alnum: WChar -> bool) {

    /** `std::transform(..., ::towlower)`. */
    function Fold(s: WString): (r: WString)
      ensures |r| == |s|
      ensures forall i :: 0 <= i < |s| ==> r[i] == lower(s[i])
    {
      seq(|s|, i requires 0 <= i < |s| => lower(s[i]))
    }

    /** Folding neither makes nor hides a path separator. */
    ghost predicate KeepsSeparator() {
      forall c: WChar :: lower(c) == BACKSLASH <==> c == BACKSLASH
    }
  }

  lemma FoldConcat(loc: Locale, a: WString, b: WString)
    ensures loc.Fold(a + b) == loc.Fold(a) + loc.Fold(b)
  {
  }

  /** One past the last backslash, or 0 when there is none (`rfind` plus one). */
  function NameStart(path: WString): (r: nat)
    ensures r <= |path|
    ensures forall i :: r <= i < |path| ==> path[i] != BACKSLASH
    ensures r > 0 ==> path[r - 1] == BACKSLASH
  {
    if path == [] then 0
    else if path[|path| - 1] == BACKSLASH then |path|
    else NameStart(path[..|path| - 1])
  }

  function Min(a: int, b: int): int {
    if a <= b then a else b
  }

  // ---------------------------------------------------------------- sequences

  /** The parts, end to end. */
  function Flat<T>(parts: seq<seq<T>>): seq<T> {
    if parts == [] then [] else Flat(parts[..|parts| - 1]) + parts[|parts| - 1]
  }

  /** Permutations of each other have the same members. */
  lemma SameMembers<T>(a: seq<T>, b: seq<T>)
    requires multiset(a) == multiset(b)
    ensures forall t :: t in a <==> t in b
    ensures a == [] <==> b == []
  {
    forall t ensures t in a <==> t in b {
      assert t in a <==> t in multiset(a);
      assert t in b <==> t in multiset(b);
    }
    assert |multiset(a)| == |a| && |multiset(b)| == |b|;
  }
}
