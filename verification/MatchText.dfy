/** The searchable text that the moderation filters match against: text, caption and every link, once each. */
module MatchText {
  import opened Options
  import opened EntityText
  import opened Int64
  import W = Whitespace

  datatype Entity = Entity(kind: string, offset: int64, length: int64, url: Text)

  datatype Message = Message(text: Text, caption: Text, entities: seq<Entity>, captionEntities: seq<Entity>)

  const NEWLINE: Text := [0x0A]

  // ----- strings.TrimSpace -----

  function Trim(s: Text): Text {
    W.Trim((c: Scalar) => W.IsSpace(c), s)
  }

  /** strings.TrimSpace: cuts the white space on either side, and nothing else. */
  method TrimSpace(s: Text) returns (t: Text)
    ensures t == Trim(s)
  {
    var lo, hi := 0, |s|;
    assert s[lo..hi] == s;
    while lo < hi && W.IsSpace(s[lo])
      invariant 0 <= lo <= hi
      invariant Trim(s[lo..hi]) == Trim(s)
    {
      assert s[lo..hi][1..] == s[lo + 1..hi];
      lo := lo + 1;
    }
    while lo < hi && W.IsSpace(s[hi - 1])
      invariant lo <= hi <= |s|
      invariant lo < hi ==> !W.IsSpace(s[lo])
      invariant Trim(s[lo..hi]) == Trim(s)
    {
      assert s[lo..hi][..hi - lo - 1] == s[lo..hi - 1];
      hi := hi - 1;
    }
    t := s[lo..hi];
  }

  // ----- extractEntityURLs -----

  /** What one entity contributes: an explicit link as it is, a bare "url" entity as the text it covers. */
  function EntityURL(source: Text, e: Entity): seq<Text> {
    if e.url != [] then [e.url]
    else if e.kind == "url" && Reference(source, e.offset as int, e.length as int) != [] then
      [Reference(source, e.offset as int, e.length as int)]
    else []
  }

  function EntityURLs(source: Text, entities: seq<Entity>): seq<Text> {
    if entities == [] then []
    else EntityURLs(source, entities[..|entities| - 1]) + EntityURL(source, entities[|entities| - 1])
  }

  method ExtractEntityURLs(source: Text, entities: seq<Entity>) returns (urls: seq<Text>)
    requires |Encode(source)| <= MAX_INT64
    ensures urls == EntityURLs(source, entities)
  {
    urls := [];
    for i := 0 to |entities|
      invariant urls == EntityURLs(source, entities[..i])
    {
      var e := entities[i];
      assert entities[..i + 1][..i] == entities[..i];
      if e.url != [] {
        urls := urls + [e.url];
        continue;
      }
      if e.kind == "url" {
        var extracted := ExtractEntityText(source, e.offset, e.length);
        if extracted != [] {
          urls := urls + [extracted];
        }
      }
    }
    assert entities[..|entities|] == entities;
  }

  /** `url` is the link that the entity stands for: the one it carries, or the text it covers. */
  ghost predicate IsLink(source: Text, e: Entity, url: Text) {
    url != [] && (e.url == url ||
                  (e.url == [] && e.kind == "url" && url == Reference(source, e.offset as int, e.length as int)))
  }

  /** `at` are the positions of the entities that stand for a link, in order, and `urls` those links. */
  ghost predicate LinksAt(source: Text, entities: seq<Entity>, urls: seq<Text>, at: seq<nat>) {
    && |at| == |urls|
    && (forall i, j :: 0 <= i < j < |at| ==> at[i] < at[j])
    && (forall i :: 0 <= i < |at| ==> at[i] < |entities| && IsLink(source, entities[at[i]], urls[i]))
    && (forall k, url :: 0 <= k < |entities| && IsLink(source, entities[k], url) ==> k in at)
  }

  lemma LinkOf(source: Text, e: Entity)
    ensures |EntityURL(source, e)| <= 1
    ensures forall url :: IsLink(source, e, url) <==> EntityURL(source, e) == [url]
  {
  }

  lemma LinksAtMore(source: Text, rest: seq<Entity>, e: Entity, urls: seq<Text>, at: seq<nat>)
    requires LinksAt(source, rest, urls, at)
    ensures LinksAt(source, rest + [e], urls + EntityURL(source, e),
                    at + if EntityURL(source, e) == [] then [] else [|rest|])
  {
    LinkOf(source, e);
    var more := at + if EntityURL(source, e) == [] then [] else [|rest|];
    forall k, url | 0 <= k < |rest + [e]| && IsLink(source, (rest + [e])[k], url) ensures k in more {
      if k < |rest| {
        assert k in at;
      } else {
        assert more[|at|] == k;
      }
    }
  }

  /** The urls are exactly the links of the entities, in the order of the entities. */
  lemma {:induction false} UrlsAreTheLinks(source: Text, entities: seq<Entity>) returns (at: seq<nat>)
    ensures LinksAt(source, entities, EntityURLs(source, entities), at)
  {
    at := [];
    if entities != [] {
      var rest, e := entities[..|entities| - 1], entities[|entities| - 1];
      at := UrlsAreTheLinks(source, rest);
      LinksAtMore(source, rest, e, EntityURLs(source, rest), at);
      assert entities == rest + [e];
      at := at + if EntityURL(source, e) == [] then [] else [|rest|];
    }
  }

  // ----- Distinct parts -----

  /** The parts after one more candidate. */
  function AddDistinct(parts: seq<Text>, candidate: Text): seq<Text> {
    if candidate == [] || candidate in parts then parts else parts + [candidate]
  }

  /** The distinct non-empty trimmed candidates, in the order in which they first occur. */
  function Distinct(candidates: seq<Text>): seq<Text> {
    if candidates == [] then []
    else AddDistinct(Distinct(candidates[..|candidates| - 1]), Trim(candidates[|candidates| - 1]))
  }

  lemma DistinctAppend(candidates: seq<Text>, x: Text)
    ensures Distinct(candidates + [x]) == AddDistinct(Distinct(candidates), Trim(x))
  {
    assert (candidates + [x])[..|candidates|] == candidates;
  }

  /** The position at which a part first occurs among the trimmed candidates. */
  ghost predicate FirstAt(candidates: seq<Text>, part: Text, n: nat) {
    && n < |candidates| && Trim(candidates[n]) == part
    && forall j :: 0 <= j < n ==> Trim(candidates[j]) != part
  }

  /** `positions[i]` is where `parts[i]` first occurs; the positions ascend. */
  ghost predicate InFirstOccurrenceOrder(candidates: seq<Text>, parts: seq<Text>, positions: seq<nat>) {
    && |positions| == |parts|
    && (forall i :: 0 <= i < |parts| ==> FirstAt(candidates, parts[i], positions[i]))
    && (forall i, j :: 0 <= i < j < |parts| ==> positions[i] < positions[j])
  }

  ghost predicate IsPart(candidates: seq<Text>, part: Text) {
    part != [] && exists i :: 0 <= i < |candidates| && Trim(candidates[i]) == part
  }

  lemma IsPartAppend(candidates: seq<Text>, x: Text, part: Text)
    ensures IsPart(candidates + [x], part) <==> IsPart(candidates, part) || (part != [] && Trim(x) == part)
  {
    var more := candidates + [x];
    assert more[|candidates|] == x;
    if i :| 0 <= i < |candidates| && Trim(candidates[i]) == part {
      assert more[i] == candidates[i];
    }
  }

  lemma AddDistinctMembers(parts: seq<Text>, candidate: Text, part: Text)
    requires multiset(parts)[part] <= 1
    ensures part in AddDistinct(parts, candidate) <==> part in parts || (part != [] && candidate == part)
    ensures multiset(AddDistinct(parts, candidate))[part] <= 1
  {
  }

  /** The parts are exactly the non-empty trimmed candidates, each once. */
  lemma {:induction false} DistinctMembers(candidates: seq<Text>, part: Text)
    ensures part in Distinct(candidates) <==> IsPart(candidates, part)
    ensures multiset(Distinct(candidates))[part] <= 1
  {
    if candidates != [] {
      var rest, x := candidates[..|candidates| - 1], candidates[|candidates| - 1];
      DistinctMembers(rest, part);
      AddDistinctMembers(Distinct(rest), Trim(x), part);
      assert candidates == rest + [x];
      DistinctAppend(rest, x);
      IsPartAppend(rest, x, part);
    }
  }

  lemma FirstAtStays(candidates: seq<Text>, x: Text, part: Text, n: nat)
    requires FirstAt(candidates, part, n)
    ensures FirstAt(candidates + [x], part, n)
  {
    assert forall j :: 0 <= j <= n ==> (candidates + [x])[j] == candidates[j];
  }

  lemma OrderStays(candidates: seq<Text>, x: Text, parts: seq<Text>, positions: seq<nat>)
    requires InFirstOccurrenceOrder(candidates, parts, positions)
    ensures InFirstOccurrenceOrder(candidates + [x], parts, positions)
  {
    forall i | 0 <= i < |parts| ensures FirstAt(candidates + [x], parts[i], positions[i]) {
      FirstAtStays(candidates, x, parts[i], positions[i]);
    }
  }

  lemma OrderExtends(candidates: seq<Text>, x: Text, parts: seq<Text>, positions: seq<nat>)
    requires InFirstOccurrenceOrder(candidates, parts, positions)
    requires FirstAt(candidates + [x], Trim(x), |candidates|)
    ensures InFirstOccurrenceOrder(candidates + [x], parts + [Trim(x)], positions + [|candidates|])
  {
    OrderStays(candidates, x, parts, positions);
    forall i | 0 <= i < |positions| ensures positions[i] < |candidates| {
      assert FirstAt(candidates, parts[i], positions[i]);
    }
  }

  /** The parts come in the order in which they first occur among the candidates. */
  lemma {:induction false} DistinctInFirstOccurrenceOrder(candidates: seq<Text>) returns (positions: seq<nat>)
    ensures InFirstOccurrenceOrder(candidates, Distinct(candidates), positions)
  {
    positions := [];
    if candidates != [] {
      var rest, x := candidates[..|candidates| - 1], candidates[|candidates| - 1];
      positions := DistinctInFirstOccurrenceOrder(rest);
      assert candidates == rest + [x];
      if Trim(x) != [] && Trim(x) !in Distinct(rest) {
        FirstAtEnd(candidates);
        OrderExtends(rest, x, Distinct(rest), positions);
        positions := positions + [|rest|];
      } else {
        OrderStays(rest, x, Distinct(rest), positions);
      }
    }
  }

  lemma FirstAtEnd(candidates: seq<Text>)
    requires candidates != []
    requires Trim(candidates[|candidates| - 1]) != []
    requires Trim(candidates[|candidates| - 1]) !in Distinct(candidates[..|candidates| - 1])
    ensures FirstAt(candidates, Trim(candidates[|candidates| - 1]), |candidates| - 1)
  {
    var n := |candidates| - 1;
    DistinctMembers(candidates[..n], Trim(candidates[n]));
    assert !IsPart(candidates[..n], Trim(candidates[n]));
    forall j | 0 <= j < n ensures Trim(candidates[j]) != Trim(candidates[n]) {
      assert candidates[..n][j] == candidates[j];
    }
  }

  function Join(parts: seq<Text>): Text {
    if parts == [] then []
    else if |parts| == 1 then parts[0]
    else Join(parts[..|parts| - 1]) + NEWLINE + parts[|parts| - 1]
  }

  predicate Block(text: Text, start: nat, part: Text) {
    start + |part| <= |text| && text[start..start + |part|] == part
  }

  /** A newline, and nothing else, lies between the end of one part and the start of the next. */
  predicate Follows(text: Text, start: nat, part: Text, next: nat) {
    next == start + |part| + 1 && next <= |text| && text[next - 1] == 0x0A
  }

  /** The parts lie in the text one after the other, from its start to its end, a newline between any two. */
  ghost predicate LaidOut(text: Text, parts: seq<Text>, starts: seq<nat>) {
    && |starts| == |parts| && parts != [] && starts[0] == 0
    && (forall i :: 0 <= i < |parts| ==> Block(text, starts[i], parts[i]))
    && (forall i :: 0 <= i < |parts| - 1 ==> Follows(text, starts[i], parts[i], starts[i + 1]))
    && |text| == starts[|parts| - 1] + |parts[|parts| - 1]|
  }

  lemma BlockStays(text: Text, more: Text, start: nat, part: Text)
    requires Block(text, start, part)
    ensures Block(text + more, start, part)
  {
    assert (text + more)[start..start + |part|] == text[start..start + |part|];
  }

  lemma FollowsStays(text: Text, more: Text, start: nat, part: Text, next: nat)
    requires Follows(text, start, part, next)
    ensures Follows(text + more, start, part, next)
  {
  }

  lemma LastBlock(text: Text, part: Text, start: nat, last: Text)
    requires |text| == start + |last|
    ensures Block(text + (NEWLINE + part), |text| + 1, part)
    ensures Follows(text + (NEWLINE + part), start, last, |text| + 1)
  {
    var longer := text + (NEWLINE + part);
    assert longer[|text| + 1..|text| + 1 + |part|] == part;
  }

  lemma LaidOutLonger(text: Text, parts: seq<Text>, starts: seq<nat>, part: Text)
    requires LaidOut(text, parts, starts)
    ensures LaidOut(text + (NEWLINE + part), parts + [part], starts + [|text| + 1])
  {
    var n, longer := |parts|, text + (NEWLINE + part);
    var all, at := parts + [part], starts + [|text| + 1];
    LastBlock(text, part, starts[n - 1], parts[n - 1]);
    forall i | 0 <= i < n + 1 ensures Block(longer, at[i], all[i]) {
      if i < n {
        BlockStays(text, NEWLINE + part, starts[i], parts[i]);
      }
    }
    forall i | 0 <= i < n ensures Follows(longer, at[i], all[i], at[i + 1]) {
      if i < n - 1 {
        FollowsStays(text, NEWLINE + part, starts[i], parts[i], starts[i + 1]);
      }
    }
  }

  lemma JoinOneMore(parts: seq<Text>, part: Text)
    requires parts != []
    ensures Join(parts + [part]) == Join(parts) + (NEWLINE + part)
  {
    assert (parts + [part])[..|parts|] == parts;
    assert Join(parts) + NEWLINE + part == Join(parts) + (NEWLINE + part);
  }

  lemma JoinedLonger(parts: seq<Text>, part: Text, starts: seq<nat>)
    requires LaidOut(Join(parts), parts, starts)
    ensures LaidOut(Join(parts + [part]), parts + [part], starts + [|Join(parts)| + 1])
  {
    LaidOutLonger(Join(parts), parts, starts, part);
    JoinOneMore(parts, part);
  }

  lemma OnePart(part: Text)
    ensures LaidOut(Join([part]), [part], [0])
  {
    assert part[0..0 + |part|] == part;
  }

  /** The joined text is its parts in their order, separated by single newlines, and nothing else. */
  lemma {:induction false} JoinLaysOut(parts: seq<Text>) returns (starts: seq<nat>)
    requires parts != []
    ensures LaidOut(Join(parts), parts, starts)
  {
    if |parts| == 1 {
      OnePart(parts[0]);
      assert parts == [parts[0]];
      starts := [0];
    } else {
      var rest, part := parts[..|parts| - 1], parts[|parts| - 1];
      var before := JoinLaysOut(rest);
      JoinedLonger(rest, part, before);
      starts := before + [|Join(rest)| + 1];
      assert rest + [part] == parts;
    }
  }

  /** The parts and the set of those already seen, grown together by appendUnique. */
  class Parts {
    var parts: seq<Text>
    var seen: set<Text>

    ghost predicate Valid()
      reads this
    {
      forall p :: p in seen <==> p in parts
    }

    constructor ()
      ensures Valid() && parts == []
    {
      parts, seen := [], {};
    }

    method AppendUnique(s: Text)
      requires Valid()
      modifies this
      ensures Valid() && parts == AddDistinct(old(parts), Trim(s))
    {
      var trimmed := TrimSpace(s);
      if trimmed == [] || trimmed in seen {
        return;
      }
      seen := seen + {trimmed};
      parts := parts + [trimmed];
    }

    method AppendAll(candidates: seq<Text>, ghost before: seq<Text>)
      requires Valid() && parts == Distinct(before)
      modifies this
      ensures Valid() && parts == Distinct(before + candidates)
    {
      assert before + candidates[..0] == before;
      for i := 0 to |candidates|
        invariant Valid() && parts == Distinct(before + candidates[..i])
      {
        DistinctAppend(before + candidates[..i], candidates[i]);
        assert before + candidates[..i] + [candidates[i]] == before + candidates[..i + 1];
        AppendUnique(candidates[i]);
      }
      assert candidates[..|candidates|] == candidates;
    }
  }

  /** Everything a message offers for matching, in the order in which it is considered. */
  function Candidates(m: Message): seq<Text> {
    [m.text, m.caption] + EntityURLs(m.text, m.entities) + EntityURLs(m.caption, m.captionEntities)
  }

  lemma TwoCandidates(text: Text, caption: Text)
    ensures Distinct([text, caption]) == AddDistinct(AddDistinct([], Trim(text)), Trim(caption))
  {
    DistinctAppend([], text);
    assert [] + [text] == [text];
    DistinctAppend([text], caption);
    assert [text] + [caption] == [text, caption];
  }

  /**
  buildModerationMatchText. The allocation-free path for messages without entities yields exactly what
  the general path would: both are the join of the distinct trimmed non-empty candidates.
  */
  method BuildModerationMatchText(msg: Option<Message>) returns (text: Text)
    requires msg.Some? ==> |Encode(msg.value.text)| <= MAX_INT64 && |Encode(msg.value.caption)| <= MAX_INT64
    ensures text == if msg.None? then [] else Join(Distinct(Candidates(msg.value)))
  {
    if msg.None? {
      return [];
    }
    var m := msg.value;
    if m.entities == [] && m.captionEntities == [] {
      assert Candidates(m) == [m.text, m.caption];
      TwoCandidates(m.text, m.caption);
      var body := TrimSpace(m.text);
      var caption := TrimSpace(m.caption);
      if body == [] {
        return caption;
      } else if caption == [] || caption == body {
        return body;
      } else {
        assert [body, caption][..1] == [body];
        return body + NEWLINE + caption;
      }
    }
    var parts := new Parts();
    parts.AppendUnique(m.text);
    parts.AppendUnique(m.caption);
    TwoCandidates(m.text, m.caption);
    var urls := ExtractEntityURLs(m.text, m.entities);
    parts.AppendAll(urls, [m.text, m.caption]);
    var captionUrls := ExtractEntityURLs(m.caption, m.captionEntities);
    parts.AppendAll(captionUrls, [m.text, m.caption] + urls);
    text := Join(parts.parts);
  }
}
