/**
Letter case for keys and commands in ASCII. Of the characters outside ASCII only three can matter to them:
the Kelvin sign and the long s fold onto ASCII letters, and the Kelvin sign and the dotted capital I become
ASCII letters in lower case. Every other one is left as it is here.
*/
module LetterCase {
  const KELVIN_SIGN: char := '\U{212A}'
  const LONG_S: char := '\U{017F}'
  const DOTTED_I: char := '\U{0130}'

  predicate Ascii(s: string) {
    forall i :: 0 <= i < |s| ==> s[i] as int < 128
  }

  /** unicode.ToLower. */
  function LowerChar(c: char): char {
    if 'A' <= c <= 'Z' then (c as int + 32) as char
    else if c == KELVIN_SIGN then 'k'
    else if c == DOTTED_I then 'i'
    else c
  }

  /** The representative of a character among those strings.EqualFold takes for the same. */
  function FoldChar(c: char): char {
    if c == LONG_S then 's'
    else if c == DOTTED_I then c
    else LowerChar(c)
  }

  function Each(f: char -> char, s: string): (r: string)
    ensures |r| == |s| && forall i :: 0 <= i < |s| ==> r[i] == f(s[i])
  {
    if s == "" then "" else [f(s[0])] + Each(f, s[1..])
  }

  /** strings.ToLower. */
  function Lower(s: string): string {
    Each(LowerChar, s)
  }

  function Fold(s: string): string {
    Each(FoldChar, s)
  }

  /** strings.EqualFold. */
  predicate EqualFold(s: string, t: string) {
    Fold(s) == Fold(t)
  }

  lemma AsciiFolds(s: string)
    requires Ascii(s)
    ensures Fold(s) == Lower(s) && Ascii(Lower(s))
  {
  }

  // ----- What lowering and folding identify, by plain ranges of characters -----

  /** A capital letter of ASCII and its small letter, which comes 32 places later. */
  predicate Capital(c: char, d: char) {
    'A' <= c <= 'Z' && d as int == c as int + 32
  }

  predicate SameLetter(c: char, d: char) {
    c == d || Capital(c, d) || Capital(d, c)
  }

  /** The strings differ in the case of ASCII letters only. */
  predicate CaseVariant(s: string, t: string) {
    Pairwise(SameLetter, s, t)
  }

  predicate BothOf(a: char, b: char, x: char, c: char, d: char) {
    (c == a || c == b || c == x) && (d == a || d == b || d == x)
  }

  /** The characters that lowering identifies. */
  predicate LoweredAlike(c: char, d: char) {
    SameLetter(c, d) || BothOf('k', 'K', KELVIN_SIGN, c, d) || BothOf('i', 'I', DOTTED_I, c, d)
  }

  /** The characters that EqualFold identifies. */
  predicate FoldedAlike(c: char, d: char) {
    SameLetter(c, d) || BothOf('k', 'K', KELVIN_SIGN, c, d) || BothOf('s', 'S', LONG_S, c, d)
  }

  /** The strings are equal in length and their characters are related pairwise. */
  predicate Pairwise(alike: (char, char) -> bool, s: string, t: string) {
    |s| == |t| && forall i :: 0 <= i < |s| ==> alike(s[i], t[i])
  }

  lemma SameImage(f: char -> char, alike: (char, char) -> bool, s: string, t: string)
    requires forall c, d :: f(c) == f(d) <==> alike(c, d)
    ensures Each(f, s) == Each(f, t) <==> Pairwise(alike, s, t)
  {
    if Pairwise(alike, s, t) {
      assert Each(f, s) == Each(f, t);
    } else if |s| == |t| {
      var i :| 0 <= i < |s| && !alike(s[i], t[i]);
      assert Each(f, s)[i] != Each(f, t)[i];
    }
  }

  lemma LoweredChars(c: char, d: char)
    ensures LowerChar(c) == LowerChar(d) <==> LoweredAlike(c, d)
  {
  }

  lemma FoldedChars(c: char, d: char)
    ensures FoldChar(c) == FoldChar(d) <==> FoldedAlike(c, d)
  {
  }

  /** Two strings have the same lower case exactly if they differ only in what lowering identifies. */
  lemma SameLower(s: string, t: string)
    ensures Lower(s) == Lower(t) <==> Pairwise(LoweredAlike, s, t)
  {
    forall c, d ensures LowerChar(c) == LowerChar(d) <==> LoweredAlike(c, d) {
      LoweredChars(c, d);
    }
    SameImage(LowerChar, LoweredAlike, s, t);
  }

  lemma SameFold(s: string, t: string)
    ensures EqualFold(s, t) <==> Pairwise(FoldedAlike, s, t)
  {
    forall c, d ensures FoldChar(c) == FoldChar(d) <==> FoldedAlike(c, d) {
      FoldedChars(c, d);
    }
    SameImage(FoldChar, FoldedAlike, s, t);
  }

  /** Lowering leaves no capital, changes nothing but case in ASCII, and stays as it is when repeated. */
  lemma LowerIsLower(s: string)
    ensures Pairwise(LoweredAlike, s, Lower(s)) && forall i :: 0 <= i < |s| ==> !('A' <= Lower(s)[i] <= 'Z')
    ensures Ascii(s) ==> CaseVariant(s, Lower(s))
    ensures Lower(Lower(s)) == Lower(s)
  {
  }

  lemma VariantsAlike(s: string, t: string)
    requires CaseVariant(s, t)
    ensures Lower(s) == Lower(t) && Fold(s) == Fold(t)
  {
    SameLower(s, t);
    SameFold(s, t);
  }

  /** Lowering a query and folding it agree exactly when it holds neither the long s nor the dotted I. */
  lemma LowerIsFold(s: string)
    ensures Lower(s) == Fold(s) <==> LONG_S !in s && DOTTED_I !in s
  {
    if LONG_S in s || DOTTED_I in s {
      var i :| 0 <= i < |s| && (s[i] == LONG_S || s[i] == DOTTED_I);
      assert Lower(s)[i] != Fold(s)[i];
    } else {
      forall i | 0 <= i < |s| ensures Lower(s)[i] == Fold(s)[i] {
        assert s[i] in s;
      }
    }
  }
}
