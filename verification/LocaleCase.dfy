/**
What a dotted query means to its caller: the value under keys that are its segments up to case, and that
value for every spelling of the query that differs in case.
*/
module LocaleCase {
  import opened DotPaths
  import opened LetterCase
  import opened LocaleAgreement
  import opened LocaleIndex
  import opened LocaleTree
  import opened Options
  import opened Whitespace

  /** The value under exactly these keys. */
  function Below(v: Value, keys: seq<string>): Option<Value> {
    if keys == [] then Some(v)
    else if v.Mapping? && keys[0] in v.entries then Below(v.entries[keys[0]], keys[1..])
    else None
  }

  /** The keys are the segments, up to what lowering identifies. */
  ghost predicate Spells(keys: seq<string>, segments: seq<string>) {
    |keys| == |segments| && forall i :: 0 <= i < |keys| ==> Pairwise(LoweredAlike, keys[i], segments[i])
  }

  lemma SpellsRest(keys: seq<string>, segments: seq<string>)
    requires Spells(keys, segments) && keys != []
    ensures Lower(keys[0]) == Lower(segments[0]) && Spells(keys[1..], segments[1..])
  {
    SameLower(keys[0], segments[0]);
  }

  function Lowers(segments: seq<string>): (r: seq<string>)
    ensures |r| == |segments| && forall i :: 0 <= i < |r| ==> r[i] == Lower(segments[i])
  {
    seq(|segments|, i requires 0 <= i < |segments| => Lower(segments[i]))
  }

  /** Where no keys collide, the value under a path is found by any spelling of it. */
  lemma {:induction false} FindsBelow(v: Value, keys: seq<string>, segments: seq<string>)
    requires !Collides(v) && Spells(keys, segments) && Below(v, keys).Some?
    ensures Find(v, Lowers(segments)) == Below(v, keys)
    decreases |keys|
  {
    if keys != [] {
      SpellsRest(keys, segments);
      KeyIsUnique(v.entries, keys[0]);
      assert Lowers(segments)[1..] == Lowers(segments[1..]);
      FindsBelow(v.entries[keys[0]], keys[1..], segments[1..]);
    }
  }

  /** Whatever is found lies under keys that spell the query. */
  lemma {:induction false} FoundBelow(v: Value, segments: seq<string>) returns (keys: seq<string>)
    requires Find(v, Lowers(segments)).Some?
    ensures Spells(keys, segments) && Below(v, keys) == Find(v, Lowers(segments))
    decreases |segments|
  {
    if segments == [] {
      keys := [];
    } else {
      var k := KeyFor(v.entries, Lower(segments[0])).value;
      assert Lowers(segments)[1..] == Lowers(segments[1..]);
      var rest := FoundBelow(v.entries[k], segments[1..]);
      SameLower(k, segments[0]);
      keys := [k] + rest;
      assert keys[1..] == rest;
    }
  }

  lemma LoweredQuery(query: string)
    ensures Split(Lower(query)) == Lowers(Split(query))
  {
    SplitEach(LowerChar, query);
  }

  /**
  Every index of a good locale answers a query with the value that lies under keys spelling it, and with
  nothing exactly if there are no such keys or the value is null.
  */
  lemma AnswersByPath(data: Value, t: Tables, query: string) returns (found: Option<Value>)
    requires EmptyKeyIsBare(data) && !Collides(data) && Built(data, t)
    ensures IndexString(t, query) == AsString(found) && IndexSlice(t, query) == AsSlice(found)
    ensures forall keys :: Spells(keys, Split(query)) && Below(data, keys).Some? ==> found == Below(data, keys)
    ensures found.Some? ==> exists keys :: Spells(keys, Split(query)) && found == Below(data, keys)
  {
    LoweredQuery(query);
    IndexFinds(data, t, query);
    found := Find(data, Lowers(Split(query)));
    forall keys | Spells(keys, Split(query)) && Below(data, keys).Some? ensures found == Below(data, keys) {
      FindsBelow(data, keys, Split(query));
    }
    if found.Some? {
      var keys := FoundBelow(data, Split(query));
    }
  }

  // ----- Any case -----

  lemma {:induction false} SplitJoin(keys: seq<string>)
    requires keys != [] && forall i :: 0 <= i < |keys| ==> '.' !in keys[i]
    ensures Split(Join(keys)) == keys
  {
    SplitOne(keys[0]);
    if |keys| > 1 {
      SplitJoin(keys[1..]);
      SplitConcat(keys[0], Join(keys[1..]));
    }
  }

  /** Queries that differ only in the case of ASCII letters are answered alike, with an index and without. */
  lemma CaseNeverMatters(data: Value, t: Tables, query: string, other: string)
    requires CaseVariant(query, other)
    ensures IndexString(t, query) == IndexString(t, other) && IndexSlice(t, query) == IndexSlice(t, other)
    ensures Walk(data, query) == Walk(data, other)
  {
    VariantsAlike(query, other);
  }

  lemma WalkByKeys(data: Value, keys: seq<string>)
    requires !Collides(data) && AsciiKeys(data) && Below(data, keys).Some? && keys != []
    requires forall i :: 0 <= i < |keys| ==> '.' !in keys[i]
    ensures Walk(data, Join(keys)) == Below(data, keys)
  {
    KeysAreAscii(data, keys);
    SplitJoin(keys);
    SplitEach(FoldChar, Join(keys));
    forall i | 0 <= i < |keys| ensures Fold(keys[i]) == Lower(keys[i]) {
      AsciiFolds(keys[i]);
    }
    assert Split(Fold(Join(keys))) == Lowers(keys);
    SelfSpelled(keys);
    FindsBelow(data, keys, keys);
  }

  lemma SelfSpelled(keys: seq<string>)
    ensures Spells(keys, keys)
  {
  }

  lemma {:induction false} KeysAreAscii(v: Value, keys: seq<string>)
    requires AsciiKeys(v) && Below(v, keys).Some?
    ensures forall i :: 0 <= i < |keys| ==> Ascii(keys[i])
    decreases |keys|
  {
    if keys != [] {
      KeysAreAscii(v.entries[keys[0]], keys[1..]);
    }
  }

  /** The strings are the items of a sequence, one by one. */
  predicate Prints(strings: seq<string>, items: seq<Value>) {
    && |strings| == |items|
    && forall i :: 0 <= i < |items| && items[i].Text? ==> strings[i] == items[i].text
  }

  /** Every value under keys without dots is found under its joined path, in any case, by either way. */
  lemma FoundInAnyCase(data: Value, t: Tables, keys: seq<string>, query: string)
    requires EmptyKeyIsBare(data) && !Collides(data) && AsciiKeys(data) && Built(data, t)
    requires keys != [] && Below(data, keys).Some? && forall i :: 0 <= i < |keys| ==> '.' !in keys[i]
    requires CaseVariant(Join(keys), query)
    ensures IndexString(t, query) == AsString(Below(data, keys)) && IndexSlice(t, query) == AsSlice(Below(data, keys))
    ensures Walk(data, query) == Below(data, keys)
    ensures match Below(data, keys).value
            case Null => IndexString(t, query) == "" && IndexSlice(t, query) == None
            case Text(text) => IndexString(t, query) == text && IndexSlice(t, query) == Some(Fields(text))
            case Sequence(items, _) => IndexSlice(t, query).Some? && Prints(IndexSlice(t, query).value, items)
            case _ => IndexString(t, query) == Below(data, keys).value.printed
  {
    CaseNeverMatters(data, t, Join(keys), query);
    WalkByKeys(data, keys);
    SplitJoin(keys);
    SelfSpelled(keys);
    var found := AnswersByPath(data, t, Join(keys));
  }
}
