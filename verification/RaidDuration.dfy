/** The durations of the anti-raid commands: text to seconds and back. */
module RaidDuration {
  import opened Int64
  import opened LetterCase
  import opened Numerals
  import opened Options
  import Whitespace

  const MAX_ANTI_RAID_DURATION: int := 366 * 24 * 60 * 60

  const SECOND: int64 := 1
  const MINUTE: int64 := 60
  const HOUR: int64 := 60 * 60
  const DAY: int64 := 24 * 60 * 60
  const WEEK: int64 := 7 * 24 * 60 * 60

  function TrimSpace(s: string): string {
    Whitespace.Trim((c: char) => Whitespace.IsSpace(c as int), s)
  }

  // ----- The two functions -----

  function Multiplier(unit: char): Option<int64> {
    match unit
    case 's' => Some(SECOND)
    case 'm' => Some(MINUTE)
    case 'h' => Some(HOUR)
    case 'd' => Some(DAY)
    case 'w' => Some(WEEK)
    case _ => None
  }

  /** What a duration means: a number of units between one second and 366 days. */
  function Meaning(input: string): Option<int> {
    Count(TrimSpace(Lower(input)))
  }

  function Count(s: string): Option<int> {
    if s == [] then None
    else
      var num, unit := ParseInt(s[..|s| - 1]), Multiplier(s[|s| - 1]);
      if num.Some? && unit.Some? && 0 < num.value * unit.value as int <= MAX_ANTI_RAID_DURATION then
        Some(num.value * unit.value as int)
      else None
  }

  lemma QuotientBound(num: int, m: int)
    requires num >= 0 && m > 0
    ensures num > MAX_INT64 / m <==> num * m > MAX_INT64
  {
    var top := MAX_INT64;
    var q := top / m;
    assert q * m <= top < (q + 1) * m;
    if num > q {
      assert num * m >= (q + 1) * m;
    } else {
      assert num * m <= q * m;
    }
  }

  /**
  parseDuration: for every input string the guarded product stays inside int64, and the guards reject
  exactly the inputs that mean no duration between one second and 366 days.
  */
  method ParseDuration(text: string) returns (seconds: int64, ok: bool)
    ensures ok <==> Meaning(text).Some?
    ensures ok ==> seconds as int == Meaning(text).value
    ensures !ok ==> seconds == 0
  {
    var input := TrimSpace(Lower(text));
    if |input| == 0 {
      return 0, false;
    }
    var unit := input[|input| - 1];
    if IsDigit(unit) {
      return 0, false;
    }
    var parsed := ParseInt(input[..|input| - 1]);
    if parsed.None? || parsed.value < 0 {
      assert parsed.Some? && Multiplier(unit).Some? ==> parsed.value * Multiplier(unit).value as int <= 0;
      return 0, false;
    }
    var num := parsed.value as int64;
    var multiplier := Multiplier(unit);
    if multiplier.None? {
      return 0, false;
    }
    QuotientBound(num as int, multiplier.value as int);
    if num > MAX_INT64 as int64 / multiplier.value {
      return 0, false;
    }
    var duration := num * multiplier.value;
    if duration <= 0 || duration as int > MAX_ANTI_RAID_DURATION {
      return 0, false;
    }
    return duration, true;
  }

  function FormatDuration(seconds: int): string {
    if seconds >= 604800 && seconds % 604800 == 0 then Itoa(seconds / 604800) + ['w']
    else if seconds >= 86400 && seconds % 86400 == 0 then Itoa(seconds / 86400) + ['d']
    else if seconds >= 3600 && seconds % 3600 == 0 then Itoa(seconds / 3600) + ['h']
    else if seconds >= 60 && seconds % 60 == 0 then Itoa(seconds / 60) + ['m']
    else Itoa(seconds) + ['s']
  }

  // ----- Round trip -----

  lemma PlainText(n: nat, unit: char)
    requires 'a' <= unit <= 'z'
    ensures TrimSpace(Lower(Itoa(n) + [unit])) == Itoa(n) + [unit]
  {
    var s := Itoa(n) + [unit];
    assert Lower(s) == s;
  }

  lemma CountOfUnits(n: nat, unit: char)
    requires Multiplier(unit).Some? && n <= MAX_ANTI_RAID_DURATION
    requires 0 < n * Multiplier(unit).value as int <= MAX_ANTI_RAID_DURATION
    ensures Meaning(Itoa(n) + [unit]) == Some(n * Multiplier(unit).value as int)
  {
    PlainText(n, unit);
    ParseOfItoa(n);
    assert (Itoa(n) + [unit])[..|Itoa(n)|] == Itoa(n);
  }

  lemma WholeUnits(seconds: int, m: nat, unit: char)
    requires 1 <= seconds <= MAX_ANTI_RAID_DURATION && m > 0 && seconds % m == 0
    requires Multiplier(unit).Some? && Multiplier(unit).value as int == m
    ensures Meaning(Itoa(seconds / m) + [unit]) == Some(seconds)
  {
    assert seconds == seconds / m * m;
    CountOfUnits(seconds / m, unit);
  }

  /** Every duration that the commands accept is read back from its display form unchanged. */
  lemma ParseOfFormat(seconds: int)
    requires 1 <= seconds <= MAX_ANTI_RAID_DURATION
    ensures Meaning(FormatDuration(seconds)) == Some(seconds)
  {
    if seconds >= 604800 && seconds % 604800 == 0 { WholeUnits(seconds, 604800, 'w'); }
    else if seconds >= 86400 && seconds % 86400 == 0 { WholeUnits(seconds, 86400, 'd'); }
    else if seconds >= 3600 && seconds % 3600 == 0 { WholeUnits(seconds, 3600, 'h'); }
    else if seconds >= 60 && seconds % 60 == 0 { WholeUnits(seconds, 60, 'm'); }
    else {
      WholeUnits(seconds, 1, 's');
      assert seconds / 1 == seconds;
    }
  }

  /** Formatting is a normal form: inputs that mean the same are displayed the same, others differently. */
  lemma FormatIsNormalForm(a: string, b: string)
    requires Meaning(a).Some? && Meaning(b).Some?
    ensures Meaning(FormatDuration(Meaning(a).value)) == Meaning(a)
    ensures FormatDuration(Meaning(a).value) == FormatDuration(Meaning(b).value) <==> Meaning(a) == Meaning(b)
  {
    ParseOfFormat(Meaning(a).value);
    ParseOfFormat(Meaning(b).value);
  }

  /** The display uses the largest unit that divides the duration. */
  lemma FormatUsesLargestUnit(seconds: int) returns (n: nat, unit: char)
    requires 1 <= seconds <= MAX_ANTI_RAID_DURATION
    ensures FormatDuration(seconds) == Itoa(n) + [unit] && Multiplier(unit).Some?
    ensures n * Multiplier(unit).value as int == seconds
    ensures forall u :: Multiplier(u).Some? && Multiplier(u).value > Multiplier(unit).value ==>
              seconds % Multiplier(u).value as int != 0
  {
    if seconds % 604800 == 0 { n, unit := seconds / 604800, 'w'; }
    else if seconds % 86400 == 0 { n, unit := seconds / 86400, 'd'; }
    else if seconds % 3600 == 0 { n, unit := seconds / 3600, 'h'; }
    else if seconds % 60 == 0 { n, unit := seconds / 60, 'm'; }
    else { n, unit := seconds, 's'; }
  }

  // ----- Which inputs are accepted -----

  /** The case of a command does not matter. */
  lemma MeaningInAnyCase(a: string, b: string)
    requires CaseVariant(a, b)
    ensures Meaning(a) == Meaning(b)
  {
    VariantsAlike(a, b);
  }

  /** How long the units are, in either case; 0 for any other character. */
  function UnitSeconds(c: char): nat {
    if c == 's' || c == 'S' then 1
    else if c == 'm' || c == 'M' then 60
    else if c == 'h' || c == 'H' then 3600
    else if c == 'd' || c == 'D' then 86400
    else if c == 'w' || c == 'W' then 604800
    else 0
  }

  /** An optional plus sign and a numeral. */
  predicate Counting(s: string, plus: string, num: string) {
    s == plus + num && (plus == "" || plus == "+") && num != "" && AllDigits(num)
  }

  function Front(s: string): string
    requires s != ""
  {
    s[..|s| - 1]
  }

  /** A count, and at the end a unit. */
  ghost predicate Written(core: string, value: int) {
    core != "" && exists plus, num ::
      && Counting(Front(core), plus, num) && UnitSeconds(core[|core| - 1]) > 0
      && value == Value(num) * UnitSeconds(core[|core| - 1])
  }

  /** It is written in the input, with white space around it. */
  ghost predicate Reads(input: string, value: int) {
    exists left, core, right ::
      && input == left + core + right && Whitespace.AllBlank(left) && Whitespace.AllBlank(right)
      && Written(core, value)
  }

  lemma LowerOfConcat(a: string, b: string)
    ensures Lower(a + b) == Lower(a) + Lower(b)
  {
  }

  /** Lowering neither makes nor unmakes white space, digits and signs. */
  lemma LowerKeeps(s: string)
    ensures Whitespace.AllBlank(Lower(s)) <==> Whitespace.AllBlank(s)
    ensures forall i :: 0 <= i < |s| && (IsDigit(Lower(s)[i]) || Lower(s)[i] == '+') ==> Lower(s)[i] == s[i]
    ensures forall i :: 0 <= i < |s| && (IsDigit(s[i]) || s[i] == '+') ==> Lower(s)[i] == s[i]
  {
    forall i | 0 <= i < |s| ensures Whitespace.Blank(Lower(s)[i]) <==> Whitespace.Blank(s[i]) {
    }
  }

  lemma SignedNumeral(s: string, plus: string, num: string)
    requires Counting(s, plus, num)
    ensures ParseInt(s) == if Value(num) <= MAX_INT64 then Some(Value(num)) else None
  {
    if plus == "" {
      assert s == num;
    } else {
      assert s[1..] == num;
    }
  }

  lemma UnitScales(unit: char)
    ensures if UnitSeconds(unit) > 0 then Multiplier(LowerChar(unit)) == Some(UnitSeconds(unit) as int64)
            else Multiplier(LowerChar(unit)) == None
  {
  }

  lemma TrimmedCore(left: string, core: string, right: string)
    requires Whitespace.AllBlank(left) && Whitespace.AllBlank(right)
    requires core != "" && !Whitespace.Blank(core[0]) && !Whitespace.Blank(core[|core| - 1])
    ensures TrimSpace(left + core + right) == core
  {
    var space := (c: char) => Whitespace.IsSpace(c as int);
    assert forall c :: space(c) <==> Whitespace.Blank(c);
    Whitespace.TrimOfPadded(space, left, core, right);
  }

  lemma ParsedCount(s: string) returns (plus: string, num: string)
    requires ParseInt(s).Some? && ParseInt(s).value > 0
    ensures Counting(s, plus, num) && ParseInt(s) == Some(Value(num))
  {
    if s[0] == '+' {
      plus, num := "+", s[1..];
    } else {
      plus, num := "", s;
    }
  }

  lemma FewUnits(n: int, scale: int)
    requires scale >= 1
    ensures n >= 0 ==> n <= n * scale
    ensures n <= 0 ==> n * scale <= 0
  {
  }

  lemma CountOf(s: string, plus: string, num: string, scale: int64)
    requires s != "" && Counting(s[..|s| - 1], plus, num) && Multiplier(s[|s| - 1]) == Some(scale)
    requires 1 <= Value(num) * scale as int <= MAX_ANTI_RAID_DURATION
    ensures Count(s) == Some(Value(num) * scale as int)
  {
    FewUnits(Value(num), scale as int);
    SignedNumeral(s[..|s| - 1], plus, num);
  }

  lemma CountReads(s: string) returns (plus: string, num: string)
    requires Count(s).Some?
    ensures s != "" && Counting(s[..|s| - 1], plus, num) && Multiplier(s[|s| - 1]).Some?
    ensures Count(s) == Some(Value(num) * Multiplier(s[|s| - 1]).value as int)
  {
    FewUnits(ParseInt(s[..|s| - 1]).value, Multiplier(s[|s| - 1]).value as int);
    plus, num := ParsedCount(s[..|s| - 1]);
  }

  /** Lowering a count with its unit lowers the unit only. */
  lemma LoweredCore(core: string, plus: string, num: string)
    requires core != "" && Counting(core[..|core| - 1], plus, num)
    ensures Lower(core) == core[..|core| - 1] + [LowerChar(core[|core| - 1])]
  {
    LowerKeeps(core);
    forall i | 0 <= i < |core| - 1 ensures Lower(core)[i] == core[i] {
      assert core[..|core| - 1][i] == core[i];
    }
  }

  lemma RaisedCore(core: string, plus: string, num: string)
    requires core != "" && Counting(Lower(core)[..|core| - 1], plus, num)
    ensures core[..|core| - 1] == Lower(core)[..|core| - 1]
  {
    LowerKeeps(core);
    var lowered := Lower(core)[..|core| - 1];
    forall i | 0 <= i < |core| - 1 ensures core[i] == Lower(core)[i] {
      assert lowered[i] == Lower(core)[i];
      assert lowered[i] == '+' || IsDigit(lowered[i]);
    }
  }

  lemma WrittenCounts(core: string, value: int)
    requires Written(core, value) && 1 <= value <= MAX_ANTI_RAID_DURATION
    ensures Count(Lower(core)) == Some(value)
    ensures |core| == |Lower(core)| && !Whitespace.Blank(Lower(core)[0]) && !Whitespace.Blank(Lower(core)[|core| - 1])
  {
    var unit := core[|core| - 1];
    var plus, num :| Counting(Front(core), plus, num) && value == Value(num) * UnitSeconds(unit);
    LoweredCore(core, plus, num);
    UnitScales(unit);
    assert Lower(core)[..|core| - 1] == core[..|core| - 1];
    CountOf(Lower(core), plus, num, UnitSeconds(unit) as int64);
    StartsWithCount(core, plus, num);
  }

  lemma StartsWithCount(core: string, plus: string, num: string)
    requires core != "" && Counting(core[..|core| - 1], plus, num) && UnitSeconds(core[|core| - 1]) > 0
    ensures !Whitespace.Blank(Lower(core)[0]) && !Whitespace.Blank(Lower(core)[|core| - 1])
  {
    assert core[0] == core[..|core| - 1][0];
    assert core[0] == '+' || IsDigit(core[0]);
  }

  lemma CountedIsWritten(core: string)
    requires Count(Lower(core)).Some?
    ensures Written(core, Count(Lower(core)).value)
  {
    var plus, num := CountReads(Lower(core));
    RaisedCore(core, plus, num);
    assert Counting(Front(core), plus, num);
    UnitScales(core[|core| - 1]);
    assert Lower(core)[|core| - 1] == LowerChar(core[|core| - 1]);
  }

  lemma LowerOfParts(left: string, core: string, right: string)
    ensures Lower(left + core + right) == Lower(left) + Lower(core) + Lower(right)
  {
    LowerOfConcat(left + core, right);
    LowerOfConcat(left, core);
  }

  lemma PartsLowered(input: string, l: string, s: string, r: string) returns (left: string, core: string, right: string)
    requires Lower(input) == l + s + r
    ensures input == left + core + right && Lower(left) == l && Lower(core) == s && Lower(right) == r
  {
    left, core, right := input[..|l|], input[|l|..|l| + |s|], input[|l| + |s|..];
    LowerOfParts(left, core, right);
    assert input == left + core + right;
    var all := Lower(input);
    assert all[..|l|] == l && all[|l|..|l| + |s|] == s && all[|l| + |s|..] == r;
    assert all[..|l|] == Lower(left) && all[|l|..|l| + |s|] == Lower(core) && all[|l| + |s|..] == Lower(right);
  }

  lemma AcceptedInputReads(input: string)
    requires Meaning(input).Some?
    ensures Reads(input, Meaning(input).value)
  {
    var l, r := Whitespace.TrimCutsOnlySpace((c: char) => Whitespace.IsSpace(c as int), Lower(input));
    var left, core, right := PartsLowered(input, l, TrimSpace(Lower(input)), r);
    LowerKeeps(left);
    LowerKeeps(right);
    CountedIsWritten(core);
  }

  /** Exactly these inputs are accepted, and they mean that many seconds. */
  lemma AcceptsExactly(input: string, value: int)
    ensures Meaning(input) == Some(value) <==> Reads(input, value) && 1 <= value <= 366 * 24 * 60 * 60
  {
    if Meaning(input) == Some(value) {
      AcceptedInputReads(input);
    }
    if Reads(input, value) && 1 <= value <= 366 * 24 * 60 * 60 {
      var left, core, right :|
        && input == left + core + right && Whitespace.AllBlank(left) && Whitespace.AllBlank(right)
        && Written(core, value);
      LowerOfParts(left, core, right);
      LowerKeeps(left);
      LowerKeeps(right);
      WrittenCounts(core, value);
      TrimmedCore(Lower(left), Lower(core), Lower(right));
    }
  }
}
