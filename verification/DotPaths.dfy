/** Dot-separated key paths, split into segments and put together. */
module DotPaths {
  import opened LetterCase

  /** strings.Split(s, "."). */
  function Split(s: string): (r: seq<string>)
    ensures |r| >= 1
    ensures forall i :: 0 <= i < |r| ==> '.' !in r[i]
  {
    if s == "" then [""]
    else
      var rest := Split(s[1..]);
      if s[0] == '.' then [""] + rest else [[s[0]] + rest[0]] + rest[1..]
  }

  function Join(segments: seq<string>): string
    requires segments != []
  {
    if |segments| == 1 then segments[0] else segments[0] + "." + Join(segments[1..])
  }

  lemma {:induction false} JoinSplit(s: string)
    ensures Join(Split(s)) == s
  {
    if s != "" {
      JoinSplit(s[1..]);
      var rest := Split(s[1..]);
      if s[0] == '.' {
        assert Split(s)[1..] == rest;
      } else {
        assert Split(s)[1..] == rest[1..];
      }
      assert s == [s[0]] + s[1..];
    }
  }

  lemma SplitInjective(s: string, t: string)
    requires Split(s) == Split(t)
    ensures s == t
  {
    JoinSplit(s);
    JoinSplit(t);
  }

  lemma {:induction false} SplitOne(s: string)
    requires '.' !in s
    ensures Split(s) == [s]
  {
    if s != "" {
      SplitOne(s[1..]);
      assert s == [s[0]] + s[1..];
    }
  }

  /** How one more leading character changes the split. */
  function Prepend(c: char, segments: seq<string>): seq<string>
    requires segments != []
  {
    if c == '.' then [""] + segments else [[c] + segments[0]] + segments[1..]
  }

  lemma SplitCons(c: char, s: string)
    ensures Split([c] + s) == Prepend(c, Split(s))
  {
    assert ([c] + s)[1..] == s;
  }

  lemma PrependConcat(c: char, a: seq<string>, b: seq<string>)
    requires a != []
    ensures Prepend(c, a + b) == Prepend(c, a) + b
  {
    assert (a + b)[1..] == a[1..] + b;
  }

  lemma {:induction false} SplitConcat(s: string, t: string)
    ensures Split(s + "." + t) == Split(s) + Split(t)
  {
    if s == "" {
      SplitCons('.', t);
      assert s + "." + t == ['.'] + t;
    } else {
      SplitConcat(s[1..], t);
      assert s == [s[0]] + s[1..] && s + "." + t == [s[0]] + (s[1..] + "." + t);
      SplitCons(s[0], s[1..] + "." + t);
      SplitCons(s[0], s[1..]);
      PrependConcat(s[0], Split(s[1..]), Split(t));
    }
  }

  lemma {:induction false} SplitEach(f: char -> char, s: string)
    requires forall c :: f(c) == '.' <==> c == '.'
    ensures |Split(Each(f, s))| == |Split(s)|
    ensures forall i :: 0 <= i < |Split(s)| ==> Split(Each(f, s))[i] == Each(f, Split(s)[i])
  {
    if s != "" {
      SplitEach(f, s[1..]);
      var rest := Split(s[1..]);
      assert Each(f, s)[1..] == Each(f, s[1..]);
      if s[0] != '.' {
        assert Each(f, [s[0]] + rest[0]) == [f(s[0])] + Each(f, rest[0]) by {
          assert ([s[0]] + rest[0])[1..] == rest[0];
        }
      }
    }
  }

  lemma LowerKeepsDots(s: string)
    ensures '.' in Lower(s) <==> '.' in s
  {
    forall i | 0 <= i < |s| ensures Lower(s)[i] == '.' <==> s[i] == '.' {
    }
    if '.' in s {
      var i :| 0 <= i < |s| && s[i] == '.';
      assert Lower(s)[i] == '.';
    }
  }
}
