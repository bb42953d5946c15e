/**
A parsed locale and the recursive walk over it: each segment of a dotted query is matched exactly or,
failing that, case-insensitively, over a map that is scanned in any order.
*/
module LocaleTree {
  import opened DotPaths
  import opened LetterCase
  import opened Options
  import opened Whitespace

  /** A decoded YAML value; `printed` is what fmt.Sprint makes of it where that is not its own text. */
  datatype Value =
    | Null
    | Text(text: string)
    | Other(printed: string)
    | Sequence(items: seq<Value>, printed: string)
    | Mapping(entries: map<string, Value>, printed: string)

  function Sprint(v: Value): string {
    match v
    case Null => "<nil>"
    case Text(text) => text
    case _ => v.printed
  }

  /** What toLookupSlice yields. */
  function Strings(v: Value): seq<string> {
    if v.Sequence? then seq(|v.items|, i requires 0 <= i < |v.items| => Sprint(v.items[i])) else Fields(Sprint(v))
  }

  /** toLookupSlice. */
  method ToLookupSlice(v: Value) returns (out: seq<string>)
    ensures out == Strings(v)
  {
    if !v.Sequence? {
      return Fields(Sprint(v));
    }
    out := [];
    for i := 0 to |v.items|
      invariant out == Strings(v)[..i]
    {
      out := out + [Sprint(v.items[i])];
    }
  }

  // ----- Case collisions -----

  /** Two keys of one map differ only in case. */
  ghost predicate Clash(entries: map<string, Value>) {
    exists k, l :: k in entries && l in entries && k != l && Lower(k) == Lower(l)
  }

  ghost predicate Collides(v: Value) {
    v.Mapping? && (Clash(v.entries) || exists k :: k in v.entries && Collides(v.entries[k]))
  }

  ghost predicate AsciiKeys(v: Value) {
    v.Mapping? ==> forall k :: k in v.entries ==> Ascii(k) && AsciiKeys(v.entries[k])
  }

  /** hasCaseCollidingKeys. */
  method HasCaseCollidingKeys(m: Value) returns (collides: bool)
    requires m.Mapping?
    ensures collides <==> Collides(m)
    decreases m
  {
    var todo, seen: set<string> := m.entries.Keys, {};
    while todo != {}
      invariant todo <= m.entries.Keys
      invariant forall s :: s in seen <==> exists k :: k in m.entries.Keys - todo && Lower(k) == s
      invariant forall k, l :: k in m.entries.Keys - todo && l in m.entries.Keys - todo && k != l ==>
                  Lower(k) != Lower(l)
      invariant forall k :: k in m.entries.Keys - todo ==> !Collides(m.entries[k])
      decreases |todo|
    {
      var key :| key in todo;
      var lowered := Lower(key);
      if lowered in seen {
        return true;
      }
      todo, seen := todo - {key}, seen + {lowered};
      if m.entries[key].Mapping? {
        var child := HasCaseCollidingKeys(m.entries[key]);
        if child {
          return true;
        }
      }
    }
    assert m.entries.Keys - todo == m.entries.Keys;
    return false;
  }

  // ----- The reference: descend by lowered segments -----

  ghost function KeyFor(entries: map<string, Value>, segment: string): (k: Option<string>)
    ensures k.Some? ==> k.value in entries && Lower(k.value) == segment
    ensures k.None? ==> forall l :: l in entries ==> Lower(l) != segment
  {
    if exists k :: k in entries && Lower(k) == segment then
      var k :| k in entries && Lower(k) == segment;
      Some(k)
    else None
  }

  ghost function Find(v: Value, segments: seq<string>): Option<Value>
    decreases |segments|
  {
    if segments == [] then Some(v)
    else if !v.Mapping? then None
    else
      var k := KeyFor(v.entries, segments[0]);
      if k.None? then None else Find(v.entries[k.value], segments[1..])
  }

  // ----- The walk -----

  /** lookupSegment. */
  method LookupSegment(m: Value, segment: string) returns (value: Option<Value>)
    requires m.Mapping?
    ensures segment in m.entries ==> value == Some(m.entries[segment])
    ensures value.Some? ==> exists k :: k in m.entries && EqualFold(k, segment) && value.value == m.entries[k]
    ensures value.None? ==> forall k :: k in m.entries ==> !EqualFold(k, segment)
  {
    if segment in m.entries {
      return Some(m.entries[segment]);
    }
    var todo := m.entries.Keys;
    while todo != {}
      invariant todo <= m.entries.Keys
      invariant forall k :: k in m.entries.Keys - todo ==> !EqualFold(k, segment)
      decreases |todo|
    {
      var k :| k in todo;
      todo := todo - {k};
      if EqualFold(k, segment) {
        return Some(m.entries[k]);
      }
    }
    return None;
  }

  /** Where no keys collide, every scan order gives the one key whose lower case is the folded segment. */
  lemma SegmentIsUnique(m: Value, segment: string, value: Option<Value>)
    requires m.Mapping? && !Clash(m.entries) && AsciiKeys(m)
    requires value.Some? ==> exists k :: k in m.entries && EqualFold(k, segment) && value.value == m.entries[k]
    requires value.None? ==> forall k :: k in m.entries ==> !EqualFold(k, segment)
    ensures var k := KeyFor(m.entries, Fold(segment));
            value == if k.Some? then Some(m.entries[k.value]) else None
  {
    forall k | k in m.entries ensures Fold(k) == Lower(k) {
      AsciiFolds(k);
    }
  }

  lemma FindNext(current: Value, folded: seq<string>, i: nat, next: Option<Value>)
    requires current.Mapping? && i < |folded|
    requires var k := KeyFor(current.entries, folded[i]);
             next == if k.Some? then Some(current.entries[k.value]) else None
    ensures Find(current, folded[i..]) == if next.Some? then Find(next.value, folded[i + 1..]) else None
  {
    assert folded[i..][1..] == folded[i + 1..];
  }

  /** lookup: the walk finds what descending by the folded segments finds, whatever the scan order. */
  method Lookup(data: Value, key: string) returns (value: Option<Value>)
    requires data.Mapping?
    ensures !Collides(data) && AsciiKeys(data) ==> value == Find(data, Split(Fold(key)))
  {
    var segments := Split(key);
    var current := data;
    SplitEach(FoldChar, key);
    ghost var folded := Split(Fold(key));
    ghost var good := !Collides(data) && AsciiKeys(data);
    for i := 0 to |segments|
      invariant good ==> !Collides(current) && AsciiKeys(current)
      invariant good ==> Find(data, folded) == Find(current, folded[i..])
    {
      if !current.Mapping? {
        return None;
      }
      var next := LookupSegment(current, segments[i]);
      if good {
        SegmentIsUnique(current, segments[i], next);
        FindNext(current, folded, i, next);
      }
      if next.None? {
        return None;
      }
      current := next.value;
    }
    return Some(current);
  }
}
