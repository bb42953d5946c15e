/** The arithmetic captcha: a question, its answer, and four shuffled options. */
module MathCaptcha {
  import opened Int64
  import opened Numerals
  import opened Options
  import opened Sets
  import opened Shuffle
  import opened Whitespace

  datatype Operation = Add | Subtract | Multiply

  datatype Question = Question(a: nat, b: nat, operation: Operation)

  function Answer(q: Question): int {
    match q.operation
    case Add => q.a + q.b
    case Subtract => q.a - q.b
    case Multiply => q.a * q.b
  }

  function Sign(operation: Operation): string {
    match operation
    case Add => "+"
    case Subtract => "-"
    case Multiply => "x"
  }

  function FormatMathQuestion(q: Question): string {
    Itoa(q.a) + " " + Sign(q.operation) + " " + Itoa(q.b)
  }

  function Compute(a: int, sign: string, b: int): Option<int> {
    if sign == "+" then Some(a + b)
    else if sign == "-" then Some(a - b)
    else if sign == "x" then Some(a * b)
    else None
  }

  function SolveWords(words: seq<string>): Option<int> {
    if |words| != 3 || ParseInt(words[0]).None? || ParseInt(words[2]).None? then None
    else Compute(ParseInt(words[0]).value, words[1], ParseInt(words[2]).value)
  }

  /** What whoever reads the question works out. */
  function Solve(question: string): Option<int> {
    SolveWords(Fields(question))
  }

  lemma NumeralIsWord(n: nat)
    ensures IsWord(Itoa(n))
  {
  }

  lemma TwoWords(a: string, b: string)
    requires IsWord(a) && IsWord(b)
    ensures Fields(a + " " + b) == [a, b]
  {
    FieldsOfWord(b, "");
    FieldsOfWord(a, b);
  }

  lemma ThreeWords(a: string, b: string, c: string)
    requires IsWord(a) && IsWord(b) && IsWord(c)
    ensures Fields(a + " " + b + " " + c) == [a, b, c]
  {
    var rest := b + " " + c;
    TwoWords(b, c);
    FieldsOfWord(a, rest);
    assert a + " " + b + " " + c == a + " " + rest;
  }

  lemma SignComputes(q: Question)
    ensures IsWord(Sign(q.operation)) && Compute(q.a, Sign(q.operation), q.b) == Some(Answer(q))
  {
  }

  /** The question as it is displayed has the answer that is expected. */
  lemma QuestionAsksForAnswer(q: Question)
    requires q.a <= MAX_INT64 && q.b <= MAX_INT64
    ensures Solve(FormatMathQuestion(q)) == Some(Answer(q))
  {
    var a, sign, b := Itoa(q.a), Sign(q.operation), Itoa(q.b);
    assert Fields(a + " " + sign + " " + b) == [a, sign, b] by {
      NumeralIsWord(q.a);
      NumeralIsWord(q.b);
      SignComputes(q);
      ThreeWords(a, sign, b);
    }
    assert SolveWords([a, sign, b]) == Some(Answer(q)) by {
      ParseOfItoa(q.a);
      ParseOfItoa(q.b);
      SignComputes(q);
    }
  }

  // ----- Decoys -----

  /** The offset drawn is acceptable: the decoy is positive and is not the answer. */
  predicate Acceptable(answer: int, off: nat) {
    off < 20 && off != 10 && answer + off - 10 > 0
  }

  /** The acceptable offsets among the draws, each counted once. */
  function AcceptableOffsets(answer: int, draws: seq<nat>): set<nat> {
    set i | 0 <= i < |draws| && Acceptable(answer, draws[i] % 20) :: draws[i] % 20
  }

  lemma OffsetsAppend(answer: int, draws: seq<nat>, d: nat)
    ensures AcceptableOffsets(answer, draws + [d]) ==
            AcceptableOffsets(answer, draws) + if Acceptable(answer, d % 20) then {d % 20} else {}
  {
    var more := draws + [d];
    assert more[|draws|] == d;
    forall x | x in AcceptableOffsets(answer, draws) ensures x in AcceptableOffsets(answer, more) {
      var i :| 0 <= i < |draws| && Acceptable(answer, draws[i] % 20) && draws[i] % 20 == x;
      assert more[i] == draws[i];
    }
  }

  lemma {:induction false} OffsetsMonotone(answer: int, draws: seq<nat>, n: nat)
    requires n <= |draws|
    ensures AcceptableOffsets(answer, draws[..n]) <= AcceptableOffsets(answer, draws)
  {
    forall x | x in AcceptableOffsets(answer, draws[..n]) ensures x in AcceptableOffsets(answer, draws) {
      var i :| 0 <= i < n && Acceptable(answer, draws[..n][i] % 20) && draws[..n][i] % 20 == x;
      assert draws[i] == draws[..n][i];
    }
  }

  /** The option texts: the answer, then the decoys in the order in which they were found. */
  function Texts(answer: int, offsets: seq<nat>): seq<string> {
    if offsets == [] then [Itoa(answer)]
    else Texts(answer, offsets[..|offsets| - 1]) + [Itoa(answer + offsets[|offsets| - 1] - 10)]
  }

  ghost predicate DistinctOffsets(answer: int, offsets: seq<nat>) {
    && (forall i :: 0 <= i < |offsets| ==> Acceptable(answer, offsets[i]))
    && (forall i, j :: 0 <= i < j < |offsets| ==> offsets[i] != offsets[j])
  }

  lemma {:induction false} TextsAre(answer: int, offsets: seq<nat>)
    ensures |Texts(answer, offsets)| == |offsets| + 1 && Texts(answer, offsets)[0] == Itoa(answer)
    ensures forall i :: 0 < i <= |offsets| ==> Texts(answer, offsets)[i] == Itoa(answer + offsets[i - 1] - 10)
  {
    if offsets != [] {
      TextsAre(answer, offsets[..|offsets| - 1]);
    }
  }

  ghost predicate Distinct(options: seq<string>) {
    forall i, j :: 0 <= i < j < |options| ==> options[i] != options[j]
  }

  lemma TextsDistinct(answer: int, offsets: seq<nat>)
    requires DistinctOffsets(answer, offsets)
    ensures Distinct(Texts(answer, offsets))
  {
    TextsAre(answer, offsets);
    var t := Texts(answer, offsets);
    forall i, j | 0 <= i < j < |t| ensures t[i] != t[j] {
      var x := if i == 0 then answer else answer + offsets[i - 1] - 10;
      var y := answer + offsets[j - 1] - 10;
      if Itoa(x) == Itoa(y) {
        ItoaInjective(x, y);
      }
    }
  }

  /** A decoy's text is already among the options exactly when its offset was used before. */
  lemma TextKnown(answer: int, offsets: seq<nat>, off: nat)
    requires DistinctOffsets(answer, offsets) && Acceptable(answer, off)
    ensures Itoa(answer + off - 10) in Texts(answer, offsets) <==> off in offsets
  {
    TextsAre(answer, offsets);
    var t := Texts(answer, offsets);
    if Itoa(answer + off - 10) in t {
      var i :| 0 <= i < |t| && t[i] == Itoa(answer + off - 10);
      ItoaInjective(answer + off - 10, if i == 0 then answer else answer + offsets[i - 1] - 10);
    }
    if off in offsets {
      var i :| 0 <= i < |offsets| && offsets[i] == off;
      assert t[i + 1] == Itoa(answer + off - 10);
    }
  }

  /** The offsets in use are the acceptable ones among the draws so far, without repetition. */
  ghost predicate Chosen(answer: int, offsets: seq<nat>, draws: seq<nat>) {
    && DistinctOffsets(answer, offsets)
    && forall x :: x in offsets <==> x in AcceptableOffsets(answer, draws)
  }

  lemma ChosenStep(answer: int, offsets: seq<nat>, draws: seq<nat>, d: nat)
    requires Chosen(answer, offsets, draws)
    ensures Chosen(answer, if Acceptable(answer, d % 20) && d % 20 !in offsets then offsets + [d % 20] else offsets,
                   draws + [d])
  {
    OffsetsAppend(answer, draws, d);
  }

  lemma ElementsCount(s: seq<nat>, t: set<nat>)
    requires forall i, j :: 0 <= i < j < |s| ==> s[i] != s[j]
    requires forall x :: x in s <==> x in t
    ensures |t| == |s|
  {
    if s == [] {
      assert t == {};
    } else {
      var rest, x := s[..|s| - 1], s[|s| - 1];
      assert s == rest + [x];
      ElementsCount(rest, t - {x});
    }
  }

  /** The body of the rejection loop. */
  method Consider(answer: int, options: seq<string>, ghost offsets: seq<nat>, off: nat)
    returns (more: seq<string>, ghost used: seq<nat>)
    requires off < 20 && DistinctOffsets(answer, offsets) && options == Texts(answer, offsets)
    ensures used == if Acceptable(answer, off) && off !in offsets then offsets + [off] else offsets
    ensures more == Texts(answer, if Acceptable(answer, off) && off !in offsets then offsets + [off] else offsets)
  {
    more, used := options, offsets;
    var wrongAnswer := answer + off - 10;
    if wrongAnswer != answer && wrongAnswer > 0 {
      TextKnown(answer, offsets, off);
      if Itoa(wrongAnswer) !in options {
        more := options + [Itoa(wrongAnswer)];
        used := offsets + [off];
        assert used[..|offsets|] == offsets;
      }
    }
  }

  /** One round of the rejection loop. */
  method Draw(answer: int, options: seq<string>, ghost offsets: seq<nat>, e: Entropy, ghost draws: seq<nat>,
              ghost used: nat)
    returns (more: seq<string>, ghost chosen: seq<nat>, ok: bool)
    requires options == Texts(answer, offsets) && |options| == |offsets| + 1
    requires used <= |draws| && e.left == draws[used..] && Chosen(answer, offsets, draws[..used])
    modifies e
    ensures ok <==> used < |draws|
    ensures if ok then e.left == draws[used + 1..] && Chosen(answer, chosen, draws[..used + 1])
            else e.left == draws[used..] && chosen == offsets && more == options
    ensures more == Texts(answer, chosen) && |more| == |chosen| + 1 <= |options| + 1
  {
    more, chosen := options, offsets;
    var off;
    off, ok := e.Intn(20);
    if ok {
      ChosenStep(answer, offsets, draws[..used], draws[used]);
      assert draws[..used] + [draws[used]] == draws[..used + 1];
      more, chosen := Consider(answer, options, offsets, off);
      TextsAre(answer, chosen);
    }
  }

  /** When the draws have run out, the offsets in use are all the acceptable ones there were. */
  lemma RanOut(answer: int, offsets: seq<nat>, draws: seq<nat>, used: nat)
    requires used == |draws| && Chosen(answer, offsets, draws[..used])
    ensures |AcceptableOffsets(answer, draws)| == |offsets| && draws[used..] == []
  {
    assert draws[..used] == draws;
    ElementsCount(offsets, AcceptableOffsets(answer, draws));
  }

  lemma EnoughDrawn(answer: int, offsets: seq<nat>, draws: seq<nat>, used: nat)
    requires used <= |draws| && Chosen(answer, offsets, draws[..used])
    ensures |AcceptableOffsets(answer, draws)| >= |offsets|
  {
    ElementsCount(offsets, AcceptableOffsets(answer, draws[..used]));
    OffsetsMonotone(answer, draws, used);
    SubsetSize(AcceptableOffsets(answer, draws[..used]), AcceptableOffsets(answer, draws));
  }

  lemma NothingChosen(answer: int, draws: seq<nat>)
    ensures Chosen(answer, [], draws[..0])
  {
    assert AcceptableOffsets(answer, draws[..0]) == {};
  }

  /**
  The rejection loop: it delivers the answer and the first three distinct acceptable decoys that are drawn,
  and it runs out of entropy only when the draws do not contain three.
  */
  method ChooseOptions(answer: int, e: Entropy)
    returns (options: seq<string>, ghost offsets: seq<nat>, ghost used: nat, ok: bool)
    modifies e
    ensures options == Texts(answer, offsets) && DistinctOffsets(answer, offsets)
    ensures ok <==> |AcceptableOffsets(answer, old(e.left))| >= 3
    ensures used <= |old(e.left)| && e.left == old(e.left)[used..]
    ensures Chosen(answer, offsets, old(e.left)[..used])
    ensures if ok then |options| == 4 && |offsets| == 3 else e.left == []
  {
    ghost var draws := e.left;
    options, offsets, used := [Itoa(answer)], [], 0;
    NothingChosen(answer, draws);
    while |options| < 4
      invariant |options| == |offsets| + 1 <= 4 && options == Texts(answer, offsets)
      invariant used <= |draws| && e.left == draws[used..]
      invariant Chosen(answer, offsets, draws[..used])
      decreases |e.left|
    {
      options, offsets, ok := Draw(answer, options, offsets, e, draws, used);
      if !ok {
        RanOut(answer, offsets, draws, used);
        return;
      }
      used := used + 1;
    }
    EnoughDrawn(answer, offsets, draws, used);
    ok := true;
  }

  // ----- The whole captcha -----

  /** The questions that can be asked: sums up to 100, differences of at least 0, products up to 144. */
  predicate Askable(q: Question) {
    match q.operation
    case Add => 1 <= q.a <= 50 && 1 <= q.b <= 50
    case Subtract => 20 <= q.a <= 69 && 1 <= q.b <= q.a
    case Multiply => 1 <= q.a <= 12 && 1 <= q.b <= 12
  }

  /** At least nine decoys suit every answer that can be asked for, so seven are left whatever was chosen. */
  lemma NineDecoysSuit(q: Question, offsets: seq<nat>)
    requires Askable(q) && DistinctOffsets(Answer(q), offsets) && |offsets| < 3
    ensures |set off: nat | off < 20 && Acceptable(Answer(q), off)| >= 9
    ensures exists off: nat :: Acceptable(Answer(q), off) && off !in offsets
  {
    assert Answer(q) >= 0;
    var nine: set<nat> := {11, 12, 13, 14, 15, 16, 17, 18, 19};
    var suitable := set off: nat | off < 20 && Acceptable(Answer(q), off);
    SubsetSize(nine, suitable);
    assert Acceptable(Answer(q), 11) && Acceptable(Answer(q), 12) && Acceptable(Answer(q), 13);
    SomeMissing(offsets);
  }

  lemma SomeMissing(offsets: seq<nat>)
    requires |offsets| < 3
    ensures 11 !in offsets || 12 !in offsets || 13 !in offsets
  {
  }

  /** The question that three draws make. */
  function QuestionFrom(d: seq<nat>): Question
    requires |d| == 3
  {
    match d[0] % 3
    case 0 => Question(d[1] % 50 + 1, d[2] % 50 + 1, Add)
    case 1 => Question(d[1] % 50 + 20, d[2] % (d[1] % 50 + 20) + 1, Subtract)
    case _ => Question(d[1] % 12 + 1, d[2] % 12 + 1, Multiply)
  }

  /** Whatever is drawn makes an askable question, and every askable question is made by some draws. */
  lemma ExactlyAskable(q: Question)
    ensures Askable(q) <==> exists d :: |d| == 3 && QuestionFrom(d) == q
  {
    if Askable(q) {
      var d: seq<nat> :=
        match q.operation
        case Add => [0, q.a - 1, q.b - 1]
        case Subtract => [1, q.a - 20, q.b - 1]
        case Multiply => [2, q.a - 1, q.b - 1];
      MadeBy(d, q);
    }
  }

  lemma Residue(x: nat, m: nat)
    requires x < m
    ensures x % m == x
  {
  }

  lemma MadeBy(d: seq<nat>, q: Question)
    requires Askable(q) && |d| == 3 && d[2] == q.b - 1
    requires match q.operation
             case Add => d[0] == 0 && d[1] == q.a - 1
             case Subtract => d[0] == 1 && d[1] == q.a - 20
             case Multiply => d[0] == 2 && d[1] == q.a - 1
    ensures QuestionFrom(d) == q
  {
    Residue(d[0], 3);
    match q.operation
    case Add => Residue(d[1], 50); Residue(d[2], 50);
    case Subtract => Residue(d[1], 50); Residue(d[2], q.a);
    case Multiply => Residue(d[1], 12); Residue(d[2], 12);
  }

  method PickQuestion(e: Entropy) returns (q: Question, ok: bool)
    modifies e
    ensures ok <==> |old(e.left)| >= 3
    ensures ok ==> q == QuestionFrom(old(e.left)[..3]) && e.left == old(e.left)[3..]
    ensures !ok ==> e.left == []
  {
    q := Question(1, 1, Add);
    var opIdx, a0, b0;
    opIdx, ok := e.Intn(3);
    if !ok { return; }
    var operation := if opIdx == 0 then Add else if opIdx == 1 then Subtract else Multiply;
    a0, ok := e.Intn(if operation == Multiply then 12 else 50);
    if !ok { return; }
    var a := a0 + if operation == Subtract then 20 else 1;
    b0, ok := e.Intn(match operation case Add => 50 case Subtract => a case Multiply => 12);
    if !ok { return; }
    q := Question(a, b0 + 1, operation);
  }

  lemma ShuffledOptions(answer: int, offsets: seq<nat>, options: seq<string>)
    requires DistinctOffsets(answer, offsets) && multiset(options) == multiset(Texts(answer, offsets))
    ensures |options| == |offsets| + 1 && Distinct(options) && Itoa(answer) in options
  {
    TextsDistinct(answer, offsets);
    TextsAre(answer, offsets);
    DistinctPermutation(Texts(answer, offsets), options);
    assert Texts(answer, offsets)[0] in multiset(options);
  }

  /** Copies the options and shuffles them. */
  method ShuffleOptions(choices: seq<string>, e: Entropy) returns (options: seq<string>, ok: bool)
    requires |choices| == 4
    modifies e
    ensures |options| == 4 && multiset(options) == multiset(choices)
    ensures !ok ==> e.left == []
  {
    var a := new string[4](i requires 0 <= i < 4 => choices[i]);
    assert a[..] == choices;
    ok := ShuffleInPlace(a, e);
    options := a[..];
  }

  /**
  generateMathCaptcha: it asks the question that its first three draws make, with four pairwise distinct
  options, one of them the answer and all of them within ten of it. It fails only when the entropy runs out.
  */
  method GenerateMathCaptcha(e: Entropy)
    returns (question: string, answer: string, options: seq<string>,
             ghost q: Question, ghost offsets: seq<nat>, ok: bool)
    modifies e
    ensures !ok ==> e.left == []
    ensures ok ==> |old(e.left)| >= 3 && q == QuestionFrom(old(e.left)[..3])
    ensures ok ==>
      && Askable(q) && question == FormatMathQuestion(q) && answer == Itoa(Answer(q))
      && |options| == 4 && Distinct(options) && answer in options
      && DistinctOffsets(Answer(q), offsets) && multiset(options) == multiset(Texts(Answer(q), offsets))
  {
    question, answer, options, offsets := "", "", [], [];
    var asked;
    asked, ok := PickQuestion(e);
    q := asked;
    if !ok { return; }
    ExactlyAskable(asked);
    var choices;
    ghost var used;
    choices, offsets, used, ok := ChooseOptions(Answer(asked), e);
    if !ok { return; }
    assert DistinctOffsets(Answer(asked), offsets);
    options, ok := ShuffleOptions(choices, e);
    if !ok { return; }
    ShuffledOptions(Answer(asked), offsets, options);
    question, answer := FormatMathQuestion(asked), Itoa(Answer(asked));
  }

  lemma DistinctCounts(s: seq<string>, x: string)
    requires Distinct(s)
    ensures multiset(s)[x] <= 1
  {
    if s != [] {
      DistinctCounts(s[..|s| - 1], x);
      assert s == s[..|s| - 1] + [s[|s| - 1]];
    }
  }

  lemma TwoOccurrences(t: seq<string>, i: nat, j: nat)
    requires i < j < |t| && t[i] == t[j]
    ensures multiset(t)[t[i]] >= 2
  {
    assert t == t[..j] + t[j..] && t[..j][i] == t[i] && t[j..][0] == t[j];
    assert multiset(t) == multiset(t[..j]) + multiset(t[j..]);
  }

  lemma DistinctPermutation(s: seq<string>, t: seq<string>)
    requires Distinct(s) && multiset(s) == multiset(t)
    ensures |s| == |t| && Distinct(t)
  {
    assert |multiset(s)| == |multiset(t)|;
    forall i, j | 0 <= i < j < |t| ensures t[i] != t[j] {
      DistinctCounts(s, t[i]);
      if t[i] == t[j] {
        TwoOccurrences(t, i, j);
      }
    }
  }
}
