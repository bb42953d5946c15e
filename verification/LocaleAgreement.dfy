/**
The flat index answers every query as the walk does: for which locales, and for which queries. Locale
keys are ASCII throughout.
*/
module LocaleAgreement {
  import opened DotPaths
  import opened LetterCase
  import opened LocaleIndex
  import opened LocaleTree
  import opened Options
  import opened Whitespace

  const EMPTY := Tables(map[], map[])

  /** What every index built from `data` holds, whatever order the maps were visited in. */
  ghost predicate Built(data: Value, t: Tables) {
    (EmptyKeyIsBare(data) ==> Recorded(EMPTY, t, [], data)) && SameUnderDots(EMPTY, t)
  }

  /** buildLookupIndex. */
  method BuildLookupIndex(data: Value) returns (index: LookupIndex?)
    requires data.Mapping?
    ensures index == null <==> Collides(data)
    ensures index != null ==> Built(data, index.View())
  {
    var collides := HasCaseCollidingKeys(data);
    if collides {
      return null;
    }
    index := new LookupIndex();
    index.AddMap("", data);
  }

  // ----- The two ways to answer -----

  function AsString(v: Option<Value>): string {
    if v.None? || v.value.Null? then "" else Sprint(v.value)
  }

  /** None is Go's nil slice. */
  function AsSlice(v: Option<Value>): Option<seq<string>> {
    if v.None? || v.value.Null? then None else Some(Strings(v.value))
  }

  /** What the walk finds, by the contract of Lookup. */
  ghost function Walk(data: Value, key: string): Option<Value> {
    Find(data, Split(Fold(key)))
  }

  function IndexString(t: Tables, key: string): string {
    if Lower(key) in t.scalars then t.scalars[Lower(key)] else ""
  }

  function IndexSlice(t: Tables, key: string): Option<seq<string>> {
    if Lower(key) in t.slices then Some(t.slices[Lower(key)])
    else if Lower(key) in t.scalars then Some(Fields(t.scalars[Lower(key)]))
    else None
  }

  ghost predicate Agree(data: Value, t: Tables, key: string) {
    IndexString(t, key) == AsString(Walk(data, key)) && IndexSlice(t, key) == AsSlice(Walk(data, key))
  }

  /** A translator with or without an index. */
  class Translator {
    const data: Value
    const index: LookupIndex?

    constructor (data: Value, index: LookupIndex?)
      ensures this.data == data && this.index == index
    {
      this.data, this.index := data, index;
    }

    /** Translator.lookupString. */
    method LookupString(key: string) returns (r: string)
      requires data.Mapping?
      ensures index != null ==> r == IndexString(index.View(), key)
      ensures index == null && !Collides(data) && AsciiKeys(data) ==> r == AsString(Walk(data, key))
    {
      if index != null {
        var lowered := Lower(key);
        return if lowered in index.scalars then index.scalars[lowered] else "";
      }
      var value := Lookup(data, key);
      return if value.None? || value.value.Null? then "" else Sprint(value.value);
    }

    /** Translator.lookupStringSlice. */
    method LookupStringSlice(key: string) returns (r: Option<seq<string>>)
      requires data.Mapping?
      ensures index != null ==> r == IndexSlice(index.View(), key)
      ensures index == null && !Collides(data) && AsciiKeys(data) ==> r == AsSlice(Walk(data, key))
    {
      if index != null {
        var lowered := Lower(key);
        if lowered in index.slices {
          return Some(index.slices[lowered]);
        }
        return if lowered in index.scalars then Some(Fields(index.scalars[lowered])) else None;
      }
      var value := Lookup(data, key);
      if value.None? || value.value.Null? {
        return None;
      }
      var strings := ToLookupSlice(value.value);
      return Some(strings);
    }
  }

  // ----- For which locales -----

  /** The index answers a query with what lies under its lowered segments. */
  lemma IndexFinds(data: Value, t: Tables, key: string)
    requires EmptyKeyIsBare(data) && Built(data, t)
    ensures IndexString(t, key) == AsString(Find(data, Split(Lower(key))))
    ensures IndexSlice(t, key) == AsSlice(Find(data, Split(Lower(key))))
  {
    var path := Split(Lower(key));
    assert path[0..] == path;
    assert CellAt(t, Lower(key)) == Write(CellAt(EMPTY, Lower(key)), Find(data, path));
  }

  /** For every good locale and every query, index and walk agree, for scalars and for slices. */
  lemma IndexIsWalk(data: Value, t: Tables, key: string)
    requires EmptyKeyIsBare(data) && Built(data, t)
    requires LONG_S !in key && DOTTED_I !in key
    ensures Agree(data, t, key)
  {
    LowerIsFold(key);
    IndexFinds(data, t, key);
  }

  /** An entry below the empty top-level key is recorded elsewhere, and its own path is never found. */
  lemma EntryBelowEmptyKeyIsLost(data: Value, t: Tables, k: string)
    requires data.Mapping? && !Collides(data) && AsciiKeys(data) && Built(data, t)
    requires "" in data.entries && Indexable(data.entries[""], k)
    ensures IndexSlice(t, "." + k) == None && AsSlice(Walk(data, "." + k)).Some?
  {
    var key := "." + k;
    assert Ascii(key);
    AsciiFolds(key);
    assert Lower(key) == "" + "." + Lower(k);
    LowerKeepsDots(k);
    SplitConcat("", Lower(k));
    SplitOne(Lower(k));
    assert Split(Lower(key)) == ["", Lower(k)];
    assert CellAt(t, Lower(key)) == CellAt(EMPTY, Lower(key));
    FindBelowEmptyKey(data, k);
  }

  lemma FindBelowEmptyKey(data: Value, k: string)
    requires data.Mapping? && !Collides(data) && "" in data.entries && Indexable(data.entries[""], k)
    ensures Find(data, ["", Lower(k)]) == Some(data.entries[""].entries[k])
  {
    KeyIsUnique(data.entries, "");
    var child := data.entries[""];
    assert !Collides(child);
    KeyIsUnique(child.entries, k);
    assert ["", Lower(k)][1..] == [Lower(k)];
    assert Find(child, [Lower(k)]) == Some(child.entries[k]);
  }

  /**
  Exactly the locales whose empty top-level key, if any, has nothing indexable below it are served by
  their index as by the walk, on all queries free of the long s and the dotted I.
  */
  lemma AgreesExactlyWhenEmptyKeyIsBare(data: Value, t: Tables)
    requires data.Mapping? && !Collides(data) && AsciiKeys(data) && Built(data, t)
    ensures (forall key :: LONG_S !in key && DOTTED_I !in key ==> Agree(data, t, key)) <==> EmptyKeyIsBare(data)
  {
    if EmptyKeyIsBare(data) {
      forall key | LONG_S !in key && DOTTED_I !in key ensures Agree(data, t, key) {
        IndexIsWalk(data, t, key);
      }
    } else {
      var k :| Indexable(data.entries[""], k);
      EntryBelowEmptyKeyIsLost(data, t, k);
      assert Ascii(k) && !Agree(data, t, "." + k);
    }
  }

  // ----- For which queries -----

  lemma {:induction false} SegmentHolding(s: string, c: char) returns (i: nat)
    requires c in s && c != '.'
    ensures i < |Split(s)| && c in Split(s)[i]
  {
    if s[0] == c {
      i := 0;
    } else {
      i := SegmentHolding(s[1..], c);
      if s[0] == '.' {
        i := i + 1;
      }
    }
  }

  lemma {:induction false} NothingOutsideAscii(v: Value, segments: seq<string>, i: nat)
    requires AsciiKeys(v) && i < |segments| && !Ascii(segments[i])
    ensures Find(v, segments) == None
    decreases |segments|
  {
    if v.Mapping? {
      var k := KeyFor(v.entries, segments[0]);
      if k.Some? {
        AsciiFolds(k.value);
        if i > 0 {
          NothingOutsideAscii(v.entries[k.value], segments[1..], i - 1);
        }
      }
    }
  }

  lemma NothingFor(data: Value, s: string, c: char)
    requires AsciiKeys(data) && c in s && c as int >= 128
    ensures Find(data, Split(s)) == None
  {
    var i := SegmentHolding(s, c);
    var j :| 0 <= j < |Split(s)[i]| && Split(s)[i][j] == c;
    NothingOutsideAscii(data, Split(s), i);
  }

  /** Such characters survive lowering, or folding. */
  lemma Survives(key: string)
    ensures LONG_S in key ==> LONG_S in Lower(key)
    ensures DOTTED_I in key ==> DOTTED_I in Fold(key)
  {
    if LONG_S in key {
      var i :| 0 <= i < |key| && key[i] == LONG_S;
      assert Lower(key)[i] == LONG_S;
    }
    if DOTTED_I in key {
      var i :| 0 <= i < |key| && key[i] == DOTTED_I;
      assert Fold(key)[i] == DOTTED_I;
    }
  }

  /** Agreement needs only that a query hold both of the two characters or neither. */
  lemma AgreesOnBothOrNeither(data: Value, t: Tables, key: string)
    requires EmptyKeyIsBare(data) && AsciiKeys(data) && Built(data, t)
    requires LONG_S in key <==> DOTTED_I in key
    ensures Agree(data, t, key)
  {
    if LONG_S in key {
      Survives(key);
      IndexFinds(data, t, key);
      NothingFor(data, Lower(key), LONG_S);
      NothingFor(data, Fold(key), DOTTED_I);
    } else {
      IndexIsWalk(data, t, key);
    }
  }

  /** A locale with a single path. */
  function Nest(segments: seq<string>): Value {
    if segments == [] then Text("x") else Mapping(map[segments[0] := Nest(segments[1..])], "")
  }

  ghost predicate Lowered(segments: seq<string>) {
    forall i :: 0 <= i < |segments| ==> Ascii(segments[i]) && Lower(segments[i]) == segments[i]
  }

  lemma {:induction false} NestFinds(segments: seq<string>, path: seq<string>)
    requires Lowered(segments) && |path| == |segments|
    ensures Find(Nest(segments), path) == if path == segments then Some(Text("x")) else None
    ensures AsciiKeys(Nest(segments)) && !Collides(Nest(segments))
  {
    if segments != [] {
      var v := Nest(segments);
      NestFinds(segments[1..], path[1..]);
      assert path == [path[0]] + path[1..] && segments == [segments[0]] + segments[1..];
      assert segments[0] in v.entries;
      assert KeyFor(v.entries, path[0]) == if path[0] == segments[0] then Some(segments[0]) else None;
    }
  }

  predicate Reachable(c: char) {
    c as int < 128 || c == KELVIN_SIGN || c == LONG_S || c == DOTTED_I
  }

  /** Queries that lowering or folding can bring into ASCII. */
  predicate WithinReach(key: string) {
    forall i :: 0 <= i < |key| ==> Reachable(key[i])
  }

  lemma {:induction false} SegmentCharacters(s: string, i: nat)
    requires i < |Split(s)|
    ensures forall c :: c in Split(s)[i] ==> c in s
  {
    if s != "" {
      assert s == [s[0]] + s[1..];
      if s[0] == '.' {
        if i > 0 {
          SegmentCharacters(s[1..], i - 1);
        }
      } else {
        SegmentCharacters(s[1..], i);
      }
    }
  }

  lemma LoweredSegments(f: char -> char, key: string)
    requires forall c :: f(c) == '.' <==> c == '.'
    requires forall c :: c in key ==> f(c) as int < 128 && LowerChar(f(c)) == f(c)
    ensures Lowered(Split(Each(f, key))) && |Split(Each(f, key))| == |Split(key)|
  {
    SplitEach(f, key);
    forall i | 0 <= i < |Split(key)|
      ensures Ascii(Each(f, Split(key)[i])) && Lower(Each(f, Split(key)[i])) == Each(f, Split(key)[i])
    {
      SegmentCharacters(key, i);
    }
  }

  /** The segments of the locale that tells the two ways apart. */
  function Telling(key: string): seq<string> {
    Split(if LONG_S in key then Fold(key) else Lower(key))
  }

  lemma TellsApart(key: string)
    requires WithinReach(key) && StartsPlain(key) && (LONG_S in key) != (DOTTED_I in key)
    ensures Lowered(Telling(key)) && Telling(key)[0] != ""
    ensures |Split(Fold(key))| == |Split(Lower(key))| == |Telling(key)| && Split(Fold(key)) != Split(Lower(key))
  {
    if LONG_S in key {
      LoweredSegments(FoldChar, key);
    } else {
      LoweredSegments(LowerChar, key);
    }
    SplitEach(FoldChar, key);
    SplitEach(LowerChar, key);
    assert key != "" && key[0] != '.';
    LowerIsFold(key);
    if Split(Fold(key)) == Split(Lower(key)) {
      SplitInjective(Fold(key), Lower(key));
    }
  }

  lemma NestIsBare(segments: seq<string>)
    requires segments != [] && segments[0] != ""
    ensures EmptyKeyIsBare(Nest(segments))
  {
  }

  lemma TellingIsGood(key: string)
    requires WithinReach(key) && StartsPlain(key) && (LONG_S in key) != (DOTTED_I in key)
    ensures var data := Nest(Telling(key));
            data.Mapping? && !Collides(data) && AsciiKeys(data) && EmptyKeyIsBare(data)
  {
    TellsApart(key);
    NestFinds(Telling(key), Telling(key));
    NestIsBare(Telling(key));
  }

  /** Every index built for the locale that tells the two ways apart answers wrongly. */
  lemma TellingDiffers(key: string, t: Tables)
    requires WithinReach(key) && StartsPlain(key) && (LONG_S in key) != (DOTTED_I in key)
    requires Built(Nest(Telling(key)), t)
    ensures !Agree(Nest(Telling(key)), t, key)
  {
    TellsApart(key);
    NestFinds(Telling(key), Split(Fold(key)));
    NestFinds(Telling(key), Split(Lower(key)));
    TellingIsGood(key);
    IndexFinds(Nest(Telling(key)), t, key);
  }

  /** No query within reach but these does: one that holds just one of the two fails on some good locale. */
  method LocaleThatDiffers(key: string) returns (data: Value, index: LookupIndex?)
    requires WithinReach(key) && StartsPlain(key) && (LONG_S in key) != (DOTTED_I in key)
    ensures data.Mapping? && !Collides(data) && AsciiKeys(data) && EmptyKeyIsBare(data)
    ensures index != null && Built(data, index.View()) && !Agree(data, index.View(), key)
  {
    data := Nest(Telling(key));
    TellingIsGood(key);
    index := BuildLookupIndex(data);
    TellingDiffers(key, index.View());
  }

  // ----- Exactly those queries -----

  lemma NestRecorded(base: Tables, before: Tables, prefix: string, segments: seq<string>) returns (after: Tables)
    requires segments != [] && Lowered(segments) && (forall i :: 0 <= i < |segments| ==> '.' !in segments[i])
    requires Faithful(prefix, Nest(segments)) && Extend(prefix, segments[0]) != ""
    requires StartsPlain(prefix) && SameUnderDots(base, before)
    ensures Recorded(before, after, At(prefix), Nest(segments)) && SameUnderDots(base, after)
    decreases |segments|
  {
    var v, key, value := Nest(segments), segments[0], Nest(segments[1..]);
    var path := Extend(prefix, key);
    NestKind(segments[1..]);
    assert v.entries[key] == value;
    var t1 := Tables(before.scalars[Lower(path) := Sprint(value)], before.slices);
    assert Added(before, t1, path, value);
    ExtendPlain(prefix, key);
    AddedUnderDots(base, before, t1, path, value);
    after := t1;
    if segments[1..] != [] {
      ChildFaithful(prefix, v, key);
      after := NestRecorded(base, t1, path, segments[1..]);
    }
    NestVisited(before, t1, after, prefix, segments);
  }

  lemma NestKind(segments: seq<string>)
    ensures if segments == [] then Nest(segments).Text? else Nest(segments).Mapping?
  {
  }

  lemma NestVisited(before: Tables, t1: Tables, after: Tables, prefix: string, segments: seq<string>)
    requires segments != [] && '.' !in segments[0] && Faithful(prefix, Nest(segments))
    requires Added(before, t1, Extend(prefix, segments[0]), Nest(segments[1..]))
    requires if segments[1..] != [] then Recorded(t1, after, At(Extend(prefix, segments[0])), Nest(segments[1..]))
             else after == t1
    ensures Recorded(before, after, At(prefix), Nest(segments))
  {
    var v, key := Nest(segments), segments[0];
    NothingVisited(before, At(prefix), v);
    assert v.entries.Keys - v.entries.Keys == {};
    VisitStep(before, before, t1, after, prefix, v, {}, key);
    assert Only(v, {} + {key}).entries == v.entries;
  }

  /** An index can be built for the locale that tells the two ways apart, and it answers wrongly. */
  lemma SomeLocaleDiffers(key: string) returns (data: Value, t: Tables)
    requires WithinReach(key) && StartsPlain(key) && (LONG_S in key) != (DOTTED_I in key)
    ensures EmptyKeyIsBare(data) && !Collides(data) && AsciiKeys(data) && Built(data, t) && !Agree(data, t, key)
  {
    data := Nest(Telling(key));
    TellsApart(key);
    TellingIsGood(key);
    t := NestRecorded(EMPTY, EMPTY, "", Telling(key));
    TellingDiffers(key, t);
  }

  /** A character that neither lowering nor folding brings into ASCII is found by neither way. */
  lemma AgreesOutOfReach(data: Value, t: Tables, key: string)
    requires EmptyKeyIsBare(data) && AsciiKeys(data) && Built(data, t) && !WithinReach(key)
    ensures Agree(data, t, key)
  {
    var i :| 0 <= i < |key| && !Reachable(key[i]);
    var c := key[i];
    assert Lower(key)[i] == c && Fold(key)[i] == c;
    IndexFinds(data, t, key);
    NothingFor(data, Lower(key), c);
    NothingFor(data, Fold(key), c);
  }

  /** Below a bare empty key either way finds nothing but nulls. */
  lemma FindsNothingAfterDot(data: Value, path: string)
    requires EmptyKeyIsBare(data) && path != "" && path[0] == '.'
    ensures Find(data, Split(path)).None? || Find(data, Split(path)).value.Null?
  {
    var below := Split(path[1..]);
    SplitCons('.', path[1..]);
    assert path == ['.'] + path[1..];
    assert Split(path)[0] == "" && Split(path)[1..] == below;
    var k := KeyFor(data.entries, "");
    if k.Some? {
      assert k.value == "";
      BareFindsNothing(data.entries[""], below);
    }
  }

  lemma AgreesAfterDot(data: Value, t: Tables, key: string)
    requires EmptyKeyIsBare(data) && Built(data, t) && !StartsPlain(key)
    ensures Agree(data, t, key)
  {
    assert Lower(key)[0] == '.' && Fold(key)[0] == '.';
    IndexFinds(data, t, key);
    FindsNothingAfterDot(data, Lower(key));
    FindsNothingAfterDot(data, Fold(key));
  }

  /** Every good locale and every index built from it agree on `key`. */
  ghost predicate AlwaysAgree(key: string) {
    forall data, t :: EmptyKeyIsBare(data) && !Collides(data) && AsciiKeys(data) && Built(data, t) ==>
      Agree(data, t, key)
  }

  /**
  Exactly the queries that hold just one of the long s and the dotted I, do not start with a dot and hold
  nothing else beyond the reach of ASCII are answered differently on some good locale.
  */
  lemma AgreesExactlyOnTheseQueries(key: string)
    ensures AlwaysAgree(key) <==> !(WithinReach(key) && StartsPlain(key) && (LONG_S in key) != (DOTTED_I in key))
  {
    if WithinReach(key) && StartsPlain(key) && (LONG_S in key) != (DOTTED_I in key) {
      var data, t := SomeLocaleDiffers(key);
    } else {
      forall data, t | EmptyKeyIsBare(data) && !Collides(data) && AsciiKeys(data) && Built(data, t)
        ensures Agree(data, t, key)
      {
        if !WithinReach(key) {
          AgreesOutOfReach(data, t, key);
        } else if !StartsPlain(key) {
          AgreesAfterDot(data, t, key);
        } else {
          AgreesOnBothOrNeither(data, t, key);
        }
      }
    }
  }
}
