/**
UTF-16 extraction of message entities. Strings are sequences of Unicode scalar values, which is what
Go's range loop over a string yields. Encoding and decoding follow sections 2.1 and 2.2 of RFC 2781, a
surrogate without a partner decoding to U+FFFD.
*/
module EntityText {
  import opened Int64

  type Scalar = x: int | 0 <= x <= 0x10FFFF && !(0xD800 <= x <= 0xDFFF)
  type CodeUnit = x: int | 0 <= x <= 0xFFFF
  type Text = seq<Scalar>

  const REPLACEMENT: Scalar := 0xFFFD

  predicate High(u: CodeUnit) { 0xD800 <= u <= 0xDBFF }

  predicate Low(u: CodeUnit) { 0xDC00 <= u <= 0xDFFF }

  function Width(r: Scalar): nat {
    if r > 0xFFFF then 2 else 1
  }

  function EncodeScalar(r: Scalar): (u: seq<CodeUnit>)
    ensures |u| == Width(r)
  {
    if r <= 0xFFFF then [r]
    else [0xD800 + (r - 0x10000) / 0x400, 0xDC00 + (r - 0x10000) % 0x400]
  }

  function Encode(s: Text): seq<CodeUnit> {
    if s == [] then [] else Encode(s[..|s| - 1]) + EncodeScalar(s[|s| - 1])
  }

  function Pair(high: CodeUnit, low: CodeUnit): Scalar
    requires High(high) && Low(low)
  {
    var h: int, l: int := high, low;
    0x10000 + (h - 0xD800) * 0x400 + (l - 0xDC00)
  }

  /** The scalar value at the front of `u`, and how many units it takes. */
  function DecodeFirst(u: seq<CodeUnit>): (r: (Scalar, nat))
    requires u != []
    ensures 1 <= r.1 <= |u| && r.1 <= 2
  {
    if High(u[0]) && |u| >= 2 && Low(u[1]) then (Pair(u[0], u[1]), 2)
    else if High(u[0]) || Low(u[0]) then (REPLACEMENT, 1)
    else (u[0], 1)
  }

  function Decode(u: seq<CodeUnit>): Text {
    if u == [] then [] else [DecodeFirst(u).0] + Decode(u[DecodeFirst(u).1..])
  }

  /** The meaning of an entity's (offset, length): encode everything, slice, decode. */
  function Reference(source: Text, offset: int, length: int): Text {
    var units := Encode(source);
    if offset < 0 || length <= 0 || offset >= |units| || length > |units| - offset then []
    else Decode(units[offset..offset + length])
  }

  // ----- Encoding and decoding -----

  /** Decoding may be done piecewise wherever the left piece does not end in half a pair. */
  lemma {:induction false} DecodeConcat(x: seq<CodeUnit>, y: seq<CodeUnit>)
    requires x == [] || !High(x[|x| - 1])
    ensures Decode(x + y) == Decode(x) + Decode(y)
  {
    if x == [] {
      assert x + y == y;
    } else {
      var n, rest := DecodeFirst(x).1, x[DecodeFirst(x).1..];
      assert DecodeFirst(x + y) == DecodeFirst(x);
      assert (x + y)[n..] == rest + y;
      DecodeConcat(rest, y);
      assert [DecodeFirst(x).0] + (Decode(rest) + Decode(y)) == Decode(x) + Decode(y);
    }
  }

  lemma DecodeScalar(r: Scalar)
    ensures Decode(EncodeScalar(r)) == [r]
  {
    var u := EncodeScalar(r);
    if r <= 0xFFFF {
      assert u[1..] == [];
    } else {
      assert u[2..] == [];
    }
  }

  lemma LastUnitClosed(s: Text)
    ensures Encode(s) == [] <==> s == []
    ensures s != [] ==> !High(Encode(s)[|Encode(s)| - 1])
  {
  }

  /** Round trip: no text is changed by encoding and decoding it. */
  lemma {:induction false} DecodeEncode(s: Text)
    ensures Decode(Encode(s)) == s
  {
    if s != [] {
      var rest, r := s[..|s| - 1], s[|s| - 1];
      DecodeEncode(rest);
      LastUnitClosed(rest);
      DecodeConcat(Encode(rest), EncodeScalar(r));
      DecodeScalar(r);
    }
  }

  lemma {:induction false} EncodePrefix(s: Text, n: nat)
    requires n <= |s|
    ensures Encode(s[..n]) <= Encode(s)
  {
    if n < |s| {
      EncodePrefix(s[..|s| - 1], n);
      assert s[..|s| - 1][..n] == s[..n];
    } else {
      assert s[..n] == s;
    }
  }

  // ----- The single-pass walk -----

  function Clamp(x: int, n: nat): nat {
    if x < 0 then 0 else if x > n then n else x
  }

  /** The part of `u` between positions `from` and `to`, either of which may lie outside. */
  function Clip(u: seq<CodeUnit>, from: int, to: int): seq<CodeUnit> {
    if from >= to then [] else u[Clamp(from, |u|)..Clamp(to, |u|)]
  }

  lemma ClipConcat(u: seq<CodeUnit>, w: seq<CodeUnit>, from: int, to: int)
    requires 0 <= from && |u| < to
    ensures Clip(u + w, from, to) == Clip(u, from, to) + Clip(w, from - |u|, to - |u|)
  {
  }

  /** What one scalar contributes to the range: itself, half of its pair, or nothing. */
  function Covered(r: Scalar, from: int, to: int): Text {
    var width := Width(r);
    var covered := (if width < to then width else to) - (if 0 > from then 0 else from);
    if covered == width then [r] else if covered > 0 then [REPLACEMENT] else []
  }

  lemma DecodeClipScalar(r: Scalar, from: int, to: int)
    requires to > 0
    ensures Decode(Clip(EncodeScalar(r), from, to)) == Covered(r, from, to)
  {
    var w := EncodeScalar(r);
    var c := Clip(w, from, to);
    DecodeScalar(r);
    if |c| == |w| {
      assert c == w;
    } else if |c| == 1 {
      assert c[1..] == [];
    }
  }

  lemma EncodeAppend(prefix: Text, r: Scalar)
    ensures Encode(prefix + [r]) == Encode(prefix) + EncodeScalar(r)
  {
    assert (prefix + [r])[..|prefix|] == prefix;
  }

  lemma ClipClosed(prefix: Text, from: int, to: int)
    requires |Encode(prefix)| < to
    ensures var x := Clip(Encode(prefix), from, to); x == [] || !High(x[|x| - 1])
  {
    LastUnitClosed(prefix);
  }

  lemma ClipAppend(prefix: Text, r: Scalar, unit: nat, offset: int, end: int)
    requires 0 <= offset && unit == |Encode(prefix)| < end
    ensures Clip(Encode(prefix + [r]), offset, end) ==
            Clip(Encode(prefix), offset, end) + Clip(EncodeScalar(r), offset - unit, end - unit)
  {
    EncodeAppend(prefix, r);
    ClipConcat(Encode(prefix), EncodeScalar(r), offset, end);
  }

  lemma DecodePieces(prefix: Text, x: seq<CodeUnit>, y: seq<CodeUnit>, offset: int, end: int)
    requires |Encode(prefix)| < end && x == Clip(Encode(prefix), offset, end)
    ensures Decode(x + y) == Decode(x) + Decode(y)
  {
    ClipClosed(prefix, offset, end);
    DecodeConcat(x, y);
  }

  lemma ExtendWalk(prefix: Text, r: Scalar, unit: nat, offset: int, end: int)
    requires 0 <= offset && unit == |Encode(prefix)| < end
    ensures Decode(Clip(Encode(prefix + [r]), offset, end)) ==
            Decode(Clip(Encode(prefix), offset, end)) + Covered(r, offset - unit, end - unit)
  {
    var x, y := Clip(Encode(prefix), offset, end), Clip(EncodeScalar(r), offset - unit, end - unit);
    ClipAppend(prefix, r, unit, offset, end);
    DecodePieces(prefix, x, y, offset, end);
    DecodeClipScalar(r, offset - unit, end - unit);
  }

  /** Where scalar `i` starts, counting widths. */
  function Before(source: Text, i: nat): nat
    requires i <= |source|
  {
    if i == 0 then 0 else Before(source, i - 1) + Width(source[i - 1])
  }

  /** What the loop has written when it stands before scalar `i`. */
  function Written(source: Text, i: nat, from: int, end: int): Text
    requires i <= |source|
  {
    if i == 0 then []
    else Written(source, i - 1, from, end) +
         Covered(source[i - 1], from - Before(source, i - 1), end - Before(source, i - 1))
  }

  lemma {:induction false} BeforeIsEncoded(source: Text, i: nat)
    requires i <= |source|
    ensures |Encode(source[..i])| == Before(source, i)
  {
    if i > 0 {
      BeforeIsEncoded(source, i - 1);
      assert source[..i][..i - 1] == source[..i - 1];
    }
  }

  /** The part of the range among the first `i` scalars, by encode, slice, decode. */
  function Sliced(source: Text, i: nat, from: int, end: int): Text
    requires i <= |source|
  {
    Decode(Clip(Encode(source[..i]), from, end))
  }

  lemma SlicedStart(source: Text, from: int, end: int)
    ensures Sliced(source, 0, from, end) == []
  {
    assert Clip([], from, end) == [];
  }

  lemma SlicedNext(source: Text, i: nat, from: int, end: int)
    requires i < |source| && 0 <= from && Before(source, i) < end
    ensures Sliced(source, i + 1, from, end) ==
            Sliced(source, i, from, end) + Covered(source[i], from - Before(source, i), end - Before(source, i))
  {
    var prefix, r, unit := source[..i], source[i], Before(source, i);
    assert source[..i + 1] == prefix + [r];
    assert |Encode(prefix)| == unit by {
      BeforeIsEncoded(source, i);
    }
    ExtendWalk(prefix, r, unit, from, end);
  }

  lemma BeforeGrows(source: Text, i: nat)
    requires i < |source|
    ensures Before(source, i) < Before(source, i + 1)
  {
  }

  /** The walk has written the decoded part of the range that it has passed. */
  lemma {:induction false} WrittenIsSliced(source: Text, i: nat, from: int, end: int)
    requires i <= |source| && 0 <= from && (i > 0 ==> Before(source, i - 1) < end)
    ensures Written(source, i, from, end) == Sliced(source, i, from, end)
  {
    if i == 0 {
      SlicedStart(source, from, end);
    } else {
      var k := i - 1;
      if k > 0 {
        BeforeGrows(source, k - 1);
      }
      WrittenIsSliced(source, k, from, end);
      SlicedNext(source, k, from, end);
    }
  }

  lemma SliceOfPrefix(u: seq<CodeUnit>, v: seq<CodeUnit>, from: nat, end: nat)
    requires u <= v && from < end <= |u|
    ensures Clip(u, from, end) == v[from..end]
  {
  }

  /** The reference, for a range that lies inside. */
  lemma ReferenceInside(source: Text, v: seq<CodeUnit>, from: nat, end: nat)
    requires v == Encode(source) && from < end <= |v|
    ensures Reference(source, from, end - from) == Decode(v[from..end])
  {
  }

  lemma RangeWalked(source: Text, i: nat, from: nat, end: nat)
    requires i <= |source| && from < end <= Before(source, i) && (i > 0 ==> Before(source, i - 1) < end)
    ensures Written(source, i, from, end) == Reference(source, from, end - from)
  {
    var u, v := Encode(source[..i]), Encode(source);
    assert |u| >= end by {
      BeforeIsEncoded(source, i);
    }
    assert u <= v by {
      EncodePrefix(source, i);
    }
    assert Clip(u, from, end) == v[from..end] by {
      SliceOfPrefix(u, v, from, end);
    }
    WrittenIsSliced(source, i, from, end);
    ReferenceInside(source, v, from, end);
  }

  lemma RangeTooLong(source: Text, from: nat, count: nat)
    requires |Encode(source)| <= MAX_INT64 < from + count
    ensures Reference(source, from, count) == []
  {
  }

  /** Leaving the loop early is right: the range has been walked, or its end overflowed and lies outside. */
  lemma StoppedEarly(source: Text, i: nat, from: nat, count: nat, end: int)
    requires i <= |source| && end <= Before(source, i) && (i > 0 ==> Before(source, i - 1) < end)
    requires count > 0 && |Encode(source)| <= MAX_INT64
    requires end == from + count || (end < 0 && from + count > MAX_INT64)
    ensures Written(source, i, from, end) == Reference(source, from, count)
  {
    if end == from + count {
      RangeWalked(source, i, from, end);
    } else {
      RangeTooLong(source, from, count);
    }
  }

  /** After the whole source the remaining range check is that of the reference. */
  lemma WalkedThrough(source: Text, from: nat, count: nat)
    requires source != [] && count > 0 && Before(source, |source| - 1) < from + count
    ensures Reference(source, from, count) ==
            if from >= Before(source, |source|) || count > Before(source, |source|) - from then []
            else Written(source, |source|, from, from + count)
  {
    assert source[..|source|] == source;
    BeforeIsEncoded(source, |source|);
    WrittenIsSliced(source, |source|, from, from + count);
  }

  /** The loop body's switch: how wide `r` is, and what it adds to the output when it starts at `unit`. */
  method Visit(r: Scalar, unit: nat, from: int, end: int) returns (width: nat, piece: Text)
    requires unit < end
    ensures width == Width(r) && piece == Covered(r, from - unit, end - unit)
  {
    width := if r > 0xFFFF then 2 else 1;
    var covered := (if unit + width < end then unit + width else end) - (if unit > from then unit else from);
    piece := [];
    if covered == width {
      piece := [r];
    } else if covered > 0 {
      piece := [REPLACEMENT];
    }
  }

  /** The range loop, with the number of scalars it has walked. It stops once the end of the range is reached. */
  method Walk(source: Text, from: nat, end: int) returns (text: Text, unit: nat, stopped: bool, i: nat)
    ensures i <= |source| && unit == Before(source, i) && text == Written(source, i, from, end)
    ensures i > 0 ==> Before(source, i - 1) < end
    ensures if stopped then end <= unit else i == |source|
  {
    unit := 0;
    var k := 0;
    text := [];
    while k < |source|
      invariant 0 <= k <= |source| && unit == Before(source, k) && text == Written(source, k, from, end)
      invariant k > 0 ==> Before(source, k - 1) < end
    {
      if unit >= end {
        return text, unit, true, k;
      }
      var width, piece := Visit(source[k], unit, from, end);
      text := text + piece;
      unit := unit + width;
      k := k + 1;
    }
    return text, unit, false, k;
  }

  /**
  extractEntityText: one pass, no encoding of the whole source. It agrees with encode, slice, decode for
  every offset and length, also when offset + length overflows. A Go string has at most MAX_INT64 bytes,
  and no fewer bytes than code units.
  */
  method ExtractEntityText(source: Text, offset: int64, length: int64) returns (text: Text)
    requires |Encode(source)| <= MAX_INT64
    ensures text == Reference(source, offset as int, length as int)
  {
    if source == [] || offset < 0 || length <= 0 {
      return [];
    }
    var from, count := offset as int, length as int;
    var end := WrapAdd(offset, length);
    var stopped, unit, i;
    text, unit, stopped, i := Walk(source, from, end);
    if stopped {
      StoppedEarly(source, i, from, count, end);
      return;
    }
    WalkedThrough(source, from, count);
    if from >= unit || count > unit - from {
      return [];
    }
  }

  /** The longest possible entity is the text itself. */
  lemma WholeTextIsAnEntity(source: Text)
    ensures Reference(source, 0, |Encode(source)|) == source
  {
    DecodeEncode(source);
    LastUnitClosed(source);
    assert Encode(source)[0..|Encode(source)|] == Encode(source);
  }
}
