/**
The flat, lowered index of a locale, built by visiting every map in any order, and its agreement with the
walk over the tree.
*/
module LocaleIndex {
  import opened DotPaths
  import opened LetterCase
  import opened LocaleTree
  import opened Options

  datatype Tables = Tables(scalars: map<string, string>, slices: map<string, seq<string>>)

  /** What the tables hold under one key. */
  datatype Cell = Cell(scalar: Option<string>, slice: Option<seq<string>>)

  function CellAt(t: Tables, key: string): Cell {
    Cell(if key in t.scalars then Some(t.scalars[key]) else None,
         if key in t.slices then Some(t.slices[key]) else None)
  }

  /** What recording `v`, if there is anything to record, leaves in a cell. */
  function Write(c: Cell, v: Option<Value>): Cell {
    if v.None? || v.value.Null? then c
    else Cell(Some(Sprint(v.value)), if v.value.Sequence? then Some(Strings(v.value)) else c.slice)
  }

  // ----- What visiting a map must record -----

  /** The segments under which the entries of the map at `prefix` lie; the root has none. */
  function At(prefix: string): seq<string> {
    if prefix == "" then [] else Split(Lower(prefix))
  }

  /** The value below `v` that `path` leads to, where `v` itself lies at `at`. */
  ghost function Under(at: seq<string>, v: Value, path: seq<string>): Option<Value> {
    if |at| < |path| && at == path[..|at|] then Find(v, path[|at|..]) else None
  }

  function Only(v: Value, keys: set<string>): Value
    requires v.Mapping?
  {
    Mapping(map k | k in v.entries && k in keys :: v.entries[k], v.printed)
  }

  ghost predicate Recorded(before: Tables, after: Tables, at: seq<string>, v: Value) {
    forall key :: CellAt(after, key) == Write(CellAt(before, key), Under(at, v, Split(key)))
  }

  /** The values an index can hold: not null, under a key without a dot. */
  ghost predicate Indexable(v: Value, key: string) {
    v.Mapping? && key in v.entries && '.' !in key && !v.entries[key].Null?
  }

  /** The empty top-level key, if there is one, has nothing below it that could be indexed. */
  ghost predicate EmptyKeyIsBare(data: Value) {
    data.Mapping? && ("" in data.entries ==> forall k :: !Indexable(data.entries[""], k))
  }

  // ----- One entry more -----

  lemma KeyIsUnique(entries: map<string, Value>, key: string)
    requires key in entries && !Clash(entries)
    ensures KeyFor(entries, Lower(key)) == Some(key)
  {
  }

  /** Adding an entry to the visited ones changes what is found under that entry's segment only. */
  lemma FindOnly(v: Value, done: set<string>, key: string, path: seq<string>)
    requires v.Mapping? && !Clash(v.entries) && key in v.entries && key !in done && done <= v.entries.Keys
    requires path != []
    ensures path[0] == Lower(key) ==> Find(Only(v, done), path) == None
    ensures path[0] == Lower(key) ==> Find(Only(v, done + {key}), path) == Find(v.entries[key], path[1..])
    ensures path[0] != Lower(key) ==> Find(Only(v, done + {key}), path) == Find(Only(v, done), path)
  {
    var less, more := Only(v, done).entries, Only(v, done + {key}).entries;
    if path[0] == Lower(key) {
      KeyIsUnique(more, key);
    } else {
      SameKey(less, more, path[0]);
    }
  }

  lemma SameKey(less: map<string, Value>, more: map<string, Value>, segment: string)
    requires !Clash(more) && (forall k :: k in less ==> k in more && less[k] == more[k])
    requires forall k :: k in more && k !in less ==> Lower(k) != segment
    ensures KeyFor(less, segment) == KeyFor(more, segment)
  {
    var k := KeyFor(more, segment);
    if k.Some? {
      assert k.value in less;
      assert !Clash(less);
    }
  }

  /** The path of an entry of the map at `prefix`. */
  function Extend(prefix: string, key: string): string {
    if prefix == "" then key else prefix + "." + key
  }

  lemma ExtendSegments(prefix: string, key: string)
    requires '.' !in key
    ensures Split(Lower(Extend(prefix, key))) == At(prefix) + [Lower(key)]
  {
    LowerKeepsDots(key);
    SplitOne(Lower(key));
    if prefix != "" {
      assert Lower(prefix + "." + key) == Lower(prefix) + "." + Lower(key);
      SplitConcat(Lower(prefix), Lower(key));
    }
  }

  ghost predicate Added(before: Tables, after: Tables, path: string, value: Value) {
    forall key :: CellAt(after, key) ==
                  if key == Lower(path) then Write(CellAt(before, key), Some(value)) else CellAt(before, key)
  }

  /** `at` leads to `path` by way of an entry whose lowered key is `segment`. */
  lemma UnderSplits(at: seq<string>, v: Value, done: set<string>, key: string, path: seq<string>)
    requires v.Mapping? && !Clash(v.entries) && key in v.entries && key !in done && done <= v.entries.Keys
    ensures var here := |at| < |path| && at == path[..|at|] && path[|at|] == Lower(key);
            && (here ==> Under(at, Only(v, done), path) == None)
            && (here ==> Under(at, Only(v, done + {key}), path) == Find(v.entries[key], path[|at| + 1..]))
            && (!here ==> Under(at, Only(v, done + {key}), path) == Under(at, Only(v, done), path))
  {
    if |at| < |path| {
      FindOnly(v, done, key, path[|at|..]);
      assert path[|at|..][1..] == path[|at| + 1..];
    }
  }

  /** A key with a dot in it cannot be asked for. */
  lemma SkipStep(before: Tables, t: Tables, at: seq<string>, v: Value, done: set<string>, key: string)
    requires v.Mapping? && !Clash(v.entries) && key in v.entries && key !in done && done <= v.entries.Keys
    requires '.' in key && Recorded(before, t, at, Only(v, done))
    ensures Recorded(before, t, at, Only(v, done + {key}))
  {
    LowerKeepsDots(key);
    forall k ensures CellAt(t, k) == Write(CellAt(before, k), Under(at, Only(v, done + {key}), Split(k))) {
      UnderSplits(at, v, done, key, Split(k));
    }
  }

  /** Below an entry whose segments are `at + [segment]`. */
  lemma UnderEntry(at: seq<string>, segment: string, child: Value, path: seq<string>)
    ensures var here := |at| < |path| && at == path[..|at|] && path[|at|] == segment;
            && Under(at + [segment], child, path) ==
               (if here && |path| > |at| + 1 then Find(child, path[|at| + 1..]) else None)
            && (path == at + [segment] <==> here && |path| == |at| + 1)
  {
    var longer := at + [segment];
    if |at| < |path| {
      assert path[..|at| + 1] == path[..|at|] + [path[|at|]];
    }
  }

  /** Recording an entry and everything below it accounts for one key more. */
  lemma EntryStep(before: Tables, t0: Tables, t1: Tables, t2: Tables, prefix: string, v: Value, done: set<string>,
                  key: string, k: string)
    requires v.Mapping? && !Clash(v.entries) && key in v.entries && key !in done && done <= v.entries.Keys
    requires '.' !in key && Extend(prefix, key) != ""
    requires Recorded(before, t0, At(prefix), Only(v, done))
    requires Added(t0, t1, Extend(prefix, key), v.entries[key])
    requires if v.entries[key].Mapping? then Recorded(t1, t2, At(Extend(prefix, key)), v.entries[key]) else t2 == t1
    ensures CellAt(t2, k) == Write(CellAt(before, k), Under(At(prefix), Only(v, done + {key}), Split(k)))
  {
    var at, path, value := At(prefix), Split(k), v.entries[key];
    ExtendSegments(prefix, key);
    assert k == Lower(Extend(prefix, key)) <==> path == at + [Lower(key)] by {
      if path == at + [Lower(key)] {
        SplitInjective(k, Lower(Extend(prefix, key)));
      }
    }
    UnderSplits(at, v, done, key, path);
    UnderEntry(at, Lower(key), value, path);
  }

  // ----- The empty top-level key -----

  /** A bare map has nothing that could be found below it but nulls. */
  lemma BareFindsNothing(child: Value, path: seq<string>)
    requires (forall k :: !Indexable(child, k)) && path != [] && '.' !in path[0]
    ensures Find(child, path).None? || Find(child, path).value.Null?
  {
    if child.Mapping? {
      var k := KeyFor(child.entries, path[0]);
      if k.Some? {
        LowerKeepsDots(k.value);
        assert !Indexable(child, k.value);
      }
    }
  }

  /** The entries below the empty key are visited as if they were top-level ones, which a bare map survives. */
  lemma EmptyKeyStep(before: Tables, t0: Tables, t1: Tables, t2: Tables, v: Value, done: set<string>, k: string)
    requires v.Mapping? && !Clash(v.entries) && "" in v.entries && "" !in done && done <= v.entries.Keys
    requires EmptyKeyIsBare(v)
    requires Recorded(before, t0, [], Only(v, done))
    requires Added(t0, t1, "", v.entries[""])
    requires if v.entries[""].Mapping? then Recorded(t1, t2, [], v.entries[""]) else t2 == t1
    ensures CellAt(t2, k) == Write(CellAt(before, k), Under([], Only(v, done + {""}), Split(k)))
  {
    var path, value := Split(k), v.entries[""];
    assert k == Lower("") <==> path == [""] by {
      if path == [""] {
        SplitInjective(k, "");
      }
    }
    UnderSplits([], v, done, "", path);
    if value.Mapping? {
      assert path[0..] == path;
      BareFindsNothing(value, path);
      if |path| > 1 {
        BareFindsNothing(value, path[1..]);
      }
    }
  }

  /** Whether what visiting `m` at `prefix` records is what can be looked up there. */
  ghost predicate Faithful(prefix: string, m: Value) {
    !Collides(m) && (prefix == "" ==> EmptyKeyIsBare(m))
  }

  lemma VisitStep(before: Tables, t0: Tables, t1: Tables, t2: Tables, prefix: string, v: Value, done: set<string>,
                  key: string)
    requires v.Mapping? && key in v.entries && key !in done && done <= v.entries.Keys
    requires '.' !in key && Faithful(prefix, v)
    requires Recorded(before, t0, At(prefix), Only(v, done))
    requires Added(t0, t1, Extend(prefix, key), v.entries[key])
    requires if v.entries[key].Mapping? then Recorded(t1, t2, At(Extend(prefix, key)), v.entries[key]) else t2 == t1
    ensures Recorded(before, t2, At(prefix), Only(v, done + {key}))
  {
    forall k ensures CellAt(t2, k) == Write(CellAt(before, k), Under(At(prefix), Only(v, done + {key}), Split(k))) {
      if Extend(prefix, key) == "" {
        EmptyKeyStep(before, t0, t1, t2, v, done, k);
      } else {
        EntryStep(before, t0, t1, t2, prefix, v, done, key, k);
      }
    }
  }

  lemma ChildFaithful(prefix: string, v: Value, key: string)
    requires v.Mapping? && key in v.entries && v.entries[key].Mapping? && Faithful(prefix, v)
    ensures Faithful(Extend(prefix, key), v.entries[key])
  {
    if Extend(prefix, key) == "" {
      assert !Indexable(v.entries[""], "");
    }
  }

  // ----- Paths never start with a dot -----

  ghost predicate SameUnderDots(before: Tables, after: Tables) {
    forall key :: key != "" && key[0] == '.' ==> CellAt(after, key) == CellAt(before, key)
  }

  predicate StartsPlain(path: string) {
    path == "" || path[0] != '.'
  }

  lemma AddedUnderDots(before: Tables, t0: Tables, t1: Tables, path: string, value: Value)
    requires SameUnderDots(before, t0) && Added(t0, t1, path, value) && StartsPlain(path)
    ensures SameUnderDots(before, t1)
  {
    assert StartsPlain(Lower(path));
  }

  lemma ExtendPlain(prefix: string, key: string)
    requires StartsPlain(prefix) && '.' !in key
    ensures StartsPlain(Extend(prefix, key))
  {
    if key != "" {
      assert key[0] in key;
    }
  }

  class LookupIndex {
    var scalars: map<string, string>
    var slices: map<string, seq<string>>

    function View(): Tables
      reads this
    {
      Tables(scalars, slices)
    }

    constructor ()
      ensures View() == Tables(map[], map[])
    {
      scalars, slices := map[], map[];
    }

    /** add. */
    method Add(path: string, value: Value)
      modifies this
      ensures Added(old(View()), View(), path, value)
    {
      if value.Null? {
        return;
      }
      var key := Lower(path);
      scalars := scalars[key := Sprint(value)];
      if value.Sequence? {
        var strings := ToLookupSlice(value);
        slices := slices[key := strings];
      }
    }

    /** addMap: whatever the order of the entries, each is recorded under the path that leads to it. */
    method AddMap(prefix: string, m: Value)
      requires m.Mapping?
      modifies this
      ensures Faithful(prefix, m) ==> Recorded(old(View()), View(), At(prefix), m)
      ensures StartsPlain(prefix) ==> SameUnderDots(old(View()), View())
      decreases m
    {
      ghost var before := View();
      var todo := m.entries.Keys;
      NothingVisited(before, At(prefix), m);
      while todo != {}
        invariant todo <= m.entries.Keys
        invariant Faithful(prefix, m) ==> Recorded(before, View(), At(prefix), Only(m, m.entries.Keys - todo))
        invariant StartsPlain(prefix) ==> SameUnderDots(before, View())
        decreases |todo|
      {
        var key :| key in todo;
        ghost var done := m.entries.Keys - todo;
        todo := todo - {key};
        assert m.entries.Keys - todo == done + {key};
        if '.' in key {
          if Faithful(prefix, m) {
            SkipStep(before, View(), At(prefix), m, done, key);
          }
          continue;
        }
        AddEntry(prefix, m, key, before, done);
      }
      EverythingVisited(m);
    }

    /** One round of addMap's loop. */
    method AddEntry(prefix: string, m: Value, key: string, ghost before: Tables, ghost done: set<string>)
      requires m.Mapping? && key in m.entries && '.' !in key && key !in done && done <= m.entries.Keys
      requires Faithful(prefix, m) ==> Recorded(before, View(), At(prefix), Only(m, done))
      requires StartsPlain(prefix) ==> SameUnderDots(before, View())
      modifies this
      ensures Faithful(prefix, m) ==> Recorded(before, View(), At(prefix), Only(m, done + {key}))
      ensures StartsPlain(prefix) ==> SameUnderDots(before, View())
      decreases m, 0
    {
      var path := if prefix == "" then key else prefix + "." + key;
      ghost var t0 := View();
      Add(path, m.entries[key]);
      ghost var t1 := View();
      if StartsPlain(prefix) {
        ExtendPlain(prefix, key);
        AddedUnderDots(before, t0, t1, path, m.entries[key]);
      }
      if m.entries[key].Mapping? {
        if Faithful(prefix, m) {
          ChildFaithful(prefix, m, key);
        }
        AddMap(path, m.entries[key]);
      }
      if Faithful(prefix, m) {
        VisitStep(before, t0, t1, View(), prefix, m, done, key);
      }
    }
  }

  lemma NothingVisited(t: Tables, at: seq<string>, m: Value)
    requires m.Mapping?
    ensures Recorded(t, t, at, Only(m, m.entries.Keys - m.entries.Keys))
  {
    forall path: seq<string> ensures Under(at, Only(m, m.entries.Keys - m.entries.Keys), path) == None {
    }
  }

  lemma EverythingVisited(m: Value)
    requires m.Mapping?
    ensures Only(m, m.entries.Keys - {}) == m
  {
    assert Only(m, m.entries.Keys - {}).entries == m.entries;
  }
}
