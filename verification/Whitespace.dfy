/** Unicode white space, strings.TrimSpace and strings.Fields. */
module Whitespace {
  /** unicode.IsSpace: the White_Space property. */
  predicate IsSpace(c: int) {
    || 0x09 <= c <= 0x0D || c == 0x20 || c == 0x85 || c == 0xA0 || c == 0x1680
    || 0x2000 <= c <= 0x200A || c == 0x2028 || c == 0x2029 || c == 0x202F || c == 0x205F || c == 0x3000
  }

  /** Cuts the elements that satisfy `space` off both ends. */
  function Trim<T>(space: T -> bool, s: seq<T>): seq<T> {
    if s == [] then []
    else if space(s[0]) then Trim(space, s[1..])
    else if space(s[|s| - 1]) then Trim(space, s[..|s| - 1])
    else s
  }

  /** `s` is its trimmed middle between what was cut off on either side, all of it white space. */
  ghost predicate Cut<T(!new)>(space: T -> bool, s: seq<T>, left: seq<T>, right: seq<T>) {
    && s == left + Trim(space, s) + right
    && (forall i :: 0 <= i < |left| ==> space(left[i]))
    && (forall i :: 0 <= i < |right| ==> space(right[i]))
  }

  lemma CutFront<T(!new)>(space: T -> bool, s: seq<T>, left: seq<T>, right: seq<T>)
    requires s != [] && space(s[0]) && Cut(space, s[1..], left, right)
    ensures Cut(space, s, [s[0]] + left, right)
  {
    assert s == [s[0]] + (left + Trim(space, s[1..]) + right);
    assert [s[0]] + (left + Trim(space, s[1..]) + right) == [s[0]] + left + Trim(space, s) + right;
  }

  lemma CutBack<T(!new)>(space: T -> bool, s: seq<T>, left: seq<T>, right: seq<T>)
    requires s != [] && !space(s[0]) && space(s[|s| - 1]) && Cut(space, s[..|s| - 1], left, right)
    ensures Cut(space, s, left, right + [s[|s| - 1]])
  {
    assert s == (left + Trim(space, s[..|s| - 1]) + right) + [s[|s| - 1]];
    assert left + Trim(space, s) + right + [s[|s| - 1]] == left + Trim(space, s) + (right + [s[|s| - 1]]);
  }

  /** What is cut off is all white space, and what is left neither starts nor ends with any. */
  lemma {:induction false} TrimCutsOnlySpace<T(!new)>(space: T -> bool, s: seq<T>) returns (left: seq<T>, right: seq<T>)
    ensures Cut(space, s, left, right)
    ensures var t := Trim(space, s); t != [] ==> !space(t[0]) && !space(t[|t| - 1])
  {
    left, right := [], [];
    if s != [] {
      if space(s[0]) {
        left, right := TrimCutsOnlySpace(space, s[1..]);
        CutFront(space, s, left, right);
        left := [s[0]] + left;
      } else if space(s[|s| - 1]) {
        left, right := TrimCutsOnlySpace(space, s[..|s| - 1]);
        CutBack(space, s, left, right);
        right := right + [s[|s| - 1]];
      }
    }
  }

  predicate Blank(c: char) {
    IsSpace(c as int)
  }

  /** How far the word at the front reaches. */
  function WordLength(s: string): (n: nat)
    ensures n <= |s| && (forall i :: 0 <= i < n ==> !Blank(s[i])) && (n < |s| ==> Blank(s[n]))
  {
    if s == "" || Blank(s[0]) then 0 else 1 + WordLength(s[1..])
  }

  /** strings.Fields: the words between runs of white space. */
  function Fields(s: string): seq<string>
    decreases |s|
  {
    if s == "" then []
    else if Blank(s[0]) then Fields(s[1..])
    else [s[..WordLength(s)]] + Fields(s[WordLength(s)..])
  }

  /** Words and gaps in turn: gap, word, gap, ..., word, gap. */
  function Woven(gaps: seq<string>, words: seq<string>): string
    requires |gaps| == |words| + 1
  {
    if words == [] then gaps[0] else gaps[0] + words[0] + Woven(gaps[1..], words[1..])
  }

  predicate AllBlank(s: string) {
    forall i :: 0 <= i < |s| ==> Blank(s[i])
  }

  predicate IsWord(s: string) {
    s != "" && forall i :: 0 <= i < |s| ==> !Blank(s[i])
  }

  /** The gaps are white space, and between two words there is some. */
  predicate Gaps(gaps: seq<string>) {
    && (forall i :: 0 <= i < |gaps| ==> AllBlank(gaps[i]))
    && (forall i :: 0 < i < |gaps| - 1 ==> gaps[i] != "")
  }

  /** A string is its fields with nothing but white space around them. */
  lemma {:induction false} FieldsAreTheWords(s: string) returns (gaps: seq<string>)
    ensures |gaps| == |Fields(s)| + 1 && Gaps(gaps) && s == Woven(gaps, Fields(s))
    ensures forall i :: 0 <= i < |Fields(s)| ==> IsWord(Fields(s)[i])
    decreases |s|
  {
    if s == "" {
      gaps := [""];
    } else if Blank(s[0]) {
      gaps := FieldsAreTheWords(s[1..]);
      WidenGap(s[0], gaps, Fields(s));
      assert s == [s[0]] + s[1..];
      gaps := [[s[0]] + gaps[0]] + gaps[1..];
    } else {
      var n := WordLength(s);
      var rest := FieldsAreTheWords(s[n..]);
      if Fields(s[n..]) != [] {
        GapNeeded(s[n..], rest, Fields(s[n..]));
      }
      NewWord(s[..n], rest, Fields(s[n..]));
      assert s == s[..n] + s[n..];
      gaps := [""] + rest;
    }
  }

  lemma WidenGap(c: char, gaps: seq<string>, words: seq<string>)
    requires Blank(c) && |gaps| == |words| + 1 && Gaps(gaps)
    ensures var wider := [[c] + gaps[0]] + gaps[1..];
            Gaps(wider) && Woven(wider, words) == [c] + Woven(gaps, words)
  {
    var wider := [[c] + gaps[0]] + gaps[1..];
    assert wider[1..] == gaps[1..] && wider[0] == [c] + gaps[0];
    if words != [] {
      OneMoreInFront(c, gaps[0], words[0], Woven(gaps[1..], words[1..]));
    }
    forall i | 0 <= i < |wider| ensures AllBlank(wider[i]) && (0 < i < |wider| - 1 ==> wider[i] != "") {
      if i > 0 {
        assert wider[i] == gaps[i];
      }
    }
  }

  lemma OneMoreInFront(c: char, gap: string, word: string, rest: string)
    ensures [c] + gap + word + rest == [c] + (gap + word + rest)
  {
  }

  lemma NewWord(word: string, rest: seq<string>, words: seq<string>)
    requires |rest| == |words| + 1 && Gaps(rest) && (words != [] ==> rest[0] != "")
    ensures Gaps([""] + rest) && Woven([""] + rest, [word] + words) == word + Woven(rest, words)
  {
    var gaps, more := [""] + rest, [word] + words;
    assert gaps[1..] == rest && more[1..] == words && gaps[0] == "" && more[0] == word;
    assert "" + word == word;
    GapsAgain(rest, |words|);
  }

  lemma GapsAgain(rest: seq<string>, n: nat)
    requires |rest| == n + 1 && Gaps(rest) && (n > 0 ==> rest[0] != "")
    ensures Gaps([""] + rest)
  {
    var gaps := [""] + rest;
    forall i | 0 <= i < |gaps| ensures AllBlank(gaps[i]) && (0 < i < |gaps| - 1 ==> gaps[i] != "") {
      if i > 0 {
        assert gaps[i] == rest[i - 1];
      }
    }
  }

  /** What starts with white space starts with a gap. */
  lemma GapNeeded(s: string, gaps: seq<string>, words: seq<string>)
    requires |gaps| == |words| + 1 && words != [] && IsWord(words[0]) && s == Woven(gaps, words)
    requires s != "" && Blank(s[0])
    ensures gaps[0] != ""
  {
    if gaps[0] == "" {
      assert s[0] == (words[0] + Woven(gaps[1..], words[1..]))[0];
    }
  }

  /** Trimming takes off exactly the white space around a middle that neither starts nor ends with any. */
  lemma {:induction false} TrimOfPadded<T(!new)>(space: T -> bool, left: seq<T>, mid: seq<T>, right: seq<T>)
    requires (forall i :: 0 <= i < |left| ==> space(left[i])) && (forall i :: 0 <= i < |right| ==> space(right[i]))
    requires mid != [] && !space(mid[0]) && !space(mid[|mid| - 1])
    ensures Trim(space, left + mid + right) == mid
    decreases |left| + |right|
  {
    var s := left + mid + right;
    if left != [] {
      assert s[1..] == left[1..] + mid + right;
      TrimOfPadded(space, left[1..], mid, right);
    } else if right != [] {
      assert s[0] == mid[0];
      assert s[..|s| - 1] == left + mid + right[..|right| - 1];
      TrimOfPadded(space, left, mid, right[..|right| - 1]);
    } else {
      assert s == mid;
    }
  }

  /** A word and what follows it after a blank. */
  lemma FieldsOfWord(word: string, rest: string)
    requires IsWord(word)
    ensures Fields(word) == [word]
    ensures Fields(word + " " + rest) == [word] + Fields(rest)
  {
    var s := word + " " + rest;
    assert s[|word|] == ' ';
    assert s[|word|..][1..] == rest;
    assert WordLength(s) == |word| by {
      assert forall i :: 0 <= i < |word| ==> s[i] == word[i];
    }
    assert s[..|word|] == word;
    assert word[..|word|] == word && WordLength(word) == |word|;
  }
}
