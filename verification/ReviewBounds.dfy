/**
 Where review scores lie: each answer between 0 and its maximum, the overall score between 0 and 10
 and between the lowest and highest answer scores; and that a stored template scores as entered.
*/
module ReviewBounds {
  import opened Common
  import opened Rounding
  import opened ReviewTemplates
  import opened ReviewScoring

  // ----- One answer -----

  /** Earned points are between none and all; nothing can be earned exactly where nothing is scored. */
  predicate InBounds(a: Scored) {
    0.0 <= a.Earned() <= a.possible && (a.possible == 0.0 <==> NotScored(a.kind))
  }

  lemma Quotients(a: real, b: real, d: real)
    requires d > 0.0 && a >= 0.0 && b >= 0.0
    ensures a / d >= 0.0 && b / d >= 0.0 && a / d + b / d == (a + b) / d
  {
  }

  lemma Itself(d: real)
    requires d > 0.0
    ensures d / d == 1.0
  {
  }

  lemma FractionInUnit(x: real, low: real, high: real)
    requires low < high && low <= x <= high
    ensures 0.0 <= Fraction(x, low, high) <= 1.0
  {
    var d := high - low;
    Quotients(x - low, high - x, d);
    Itself(d);
  }

  lemma TimesMonotone(w: real, a: real, b: real)
    requires w >= 0.0 && a <= b
    ensures w * a <= w * b
  {
    assert w * (b - a) >= 0.0;
  }

  function GridPoint(n: int, low: real, step: real): real {
    n as real * step + low
  }

  lemma GridDistance(y: real, n: int, low: real, step: real)
    requires step > 0.0
    ensures Distance(y * step + low, GridPoint(n, low, step)) == step * Distance(y, n as real)
  {
    var gap := y - n as real;
    assert y * step - n as real * step == step * gap;
    if gap >= 0.0 {
      TimesMonotone(step, 0.0, gap);
    } else {
      TimesMonotone(step, gap, 0.0);
    }
  }

  /** The snapped answer is within half a millionth of the grid point nearest to what was entered. */
  lemma SnapIsNearest(x: real, low: real, step: real, other: int)
    requires step > 0.0
    ensures var n := RoundInt((x - low) / step);
      && Distance(GridPoint(n, low, step), Snap(x, low, step)) <= 0.0000005
      && Distance(x, GridPoint(n, low, step)) <= Distance(x, GridPoint(other, low, step))
  {
    hide RoundInt, RoundTo, GridPoint, Distance;
    var y := (x - low) / step;
    var n := RoundInt(y);
    assert y * step + low == x;
    SnapRounds(x, low, step);
    RoundToIsClose(GridPoint(n, low, step), 1000000);
    RoundIntIsNearest(y, other);
    GridDistance(y, n, low, step);
    GridDistance(y, other, low, step);
    TimesMonotone(step, Distance(y, n as real), Distance(y, other as real));
  }

  lemma SnapRounds(x: real, low: real, step: real)
    requires step > 0.0
    ensures Snap(x, low, step) == RoundTo(GridPoint(RoundInt((x - low) / step), low, step), 1000000)
  {
    hide RoundInt, RoundTo;
  }

  /** An accepted scale answer scores its place on the scale: the clamp to [0, 1] changes nothing. */
  lemma ScaleScore(q: Question, weight: real, answer: string, parse: Parser)
    requires weight > 0.0
    ensures var r := ScoreScale(q, weight, answer, parse);
      r.Ok? ==>
        var scale := ScaleOf(q);
        && parse(answer).Some?
        && r.value.answerWeight == Fraction(Snap(parse(answer).value, scale.0, scale.2), scale.0, scale.1)
        && 0.0 <= r.value.Earned() <= r.value.possible == weight
  {
    hide Snap, ScaleOf, Fraction;
    var r := ScoreScale(q, weight, answer, parse);
    if r.Ok? {
      var scale := ScaleOf(q);
      var f := Snap(parse(answer).value, scale.0, scale.2);
      FractionInUnit(f, scale.0, scale.1);
      TimesMonotone(weight, 0.0, r.value.answerWeight);
      TimesMonotone(weight, r.value.answerWeight, 1.0);
    }
  }

  predicate AtMost(options: seq<Choice>, top: real) {
    forall i :: 0 <= i < |options| ==> 0.0 <= options[i].weight <= top && options[i].weight <= 100.0
  }

  lemma {:induction false} MatchIsAnOption(options: seq<Choice>, answer: string)
    ensures var m := Match(options, answer); m.Some? ==> m.value in options && Lower(m.value.value) == Lower(answer)
  {
    if options != [] {
      MatchIsAnOption(options[1..], answer);
    }
  }

  lemma {:induction false} MatchesAtMost(options: seq<Choice>, answers: seq<string>, top: real)
    requires AtMost(options, top)
    ensures var m := Matches(options, answers); m.Some? ==> AtMost(m.value, top)
  {
    if answers != [] {
      MatchIsAnOption(options, answers[0]);
      MatchesAtMost(options, answers[1..], top);
    }
  }

  lemma {:induction false} TotalWeightAtMost(options: seq<Choice>, top: real)
    requires AtMost(options, top)
    ensures 0.0 <= TotalWeight(options) <= |options| as real * top
  {
    if options != [] {
      TotalWeightAtMost(options[1..], top);
      var n := |options| - 1;
      assert (n + 1) as real * top == n as real * top + top;
    }
  }

  lemma DivideBounds(total: real, n: nat, top: real)
    requires n > 0 && 0.0 <= total <= n as real * top
    ensures 0.0 <= total / n as real <= top
  {
    var gap := n as real * top - total;
    assert gap / n as real >= 0.0;
    assert total / n as real + gap / n as real == (n as real * top) / n as real == top;
  }

  lemma AverageAtMost(q: Question, answers: seq<string>, top: real)
    requires AtMost(q.options, top) && answers != []
    ensures var m := Matches(q.options, Counted(q, answers));
      m.Some? ==> m.value != [] && 0.0 <= Average(m.value) <= top
  {
    hide SafeBool, TotalWeight;
    var m := Matches(q.options, Counted(q, answers));
    MatchesSize(q.options, Counted(q, answers));
    if m.Some? {
      MatchesAtMost(q.options, Counted(q, answers), top);
      TotalWeightAtMost(m.value, top);
      DivideBounds(TotalWeight(m.value), |m.value|, top);
    }
  }

  lemma OptionScore(q: Question, weight: real, answers: seq<string>)
    requires WellFormed(q) && ScoredByOption(q.kind) && weight > 0.0 && answers != []
    ensures var r := ScoreOptions(q, weight, answers);
      r.Ok? ==> 0.0 <= r.value.Earned() <= r.value.possible && r.value.possible == weight * q.maxAnswerWeight > 0.0
  {
    hide SafeBool, Average, Matches, Counted;
    var r := ScoreOptions(q, weight, answers);
    if r.Ok? {
      var chosen := Matches(q.options, Counted(q, answers)).value;
      var top := q.maxAnswerWeight;
      AverageAtMost(q, answers, top);
      TimesMonotone(weight, 0.0, Average(chosen));
      TimesMonotone(weight, Average(chosen), top);
      TimesMonotone(weight, 0.01, top);
    }
  }

  lemma AnswerInBounds(q: Question, answers: seq<string>, parse: Parser)
    requires WellFormed(q)
    ensures var r := ScoreQuestion(q, answers, parse);
      r.Ok? && r.value.Some? ==> InBounds(r.value.value) && r.value.value.kind == q.kind && r.value.value.code == q.code
  {
    hide ScaleOf, Snap;
    var weight := SafeFloat(Some(q.weight), 1.0, if NotScored(q.kind) then 0.0 else 0.01, Some(100.0));
    if answers != [] && ScoredByScale(q.kind) {
      ScaleScore(q, weight, answers[0], parse);
    } else if answers != [] && ScoredByOption(q.kind) {
      OptionScore(q, weight, answers);
    }
  }

  lemma Rounded(a: Scored)
    requires InBounds(a)
    ensures 0.0 <= Stored(a).weightedScore <= Stored(a).weightedMax
    ensures Stored(a).score10.Some? <==> !NotScored(a.kind)
    ensures Stored(a).score10.Some? ==> 0.0 <= Stored(a).score10.value <= 10.0
  {
    hide RoundTo, OutOfTen;
    RoundMonotone(0.0, a.Earned(), 10000);
    RoundWhole(0, 10000);
    RoundMonotone(a.Earned(), a.possible, 10000);
    if a.possible > 0.0 {
      WithinTen(a.Earned(), a.possible);
    }
  }

  lemma WithinTen(earned: real, possible: real)
    requires 0.0 <= earned <= possible && possible > 0.0
    ensures 0.0 <= OutOfTen(earned, possible) <= 10.0
    ensures 0.0 <= Round2(OutOfTen(earned, possible)) <= 10.0
  {
    hide RoundTo;
    var t := OutOfTen(earned, possible);
    TenTimes(earned, possible, 0.0);
    TenTimes(earned, possible, 10.0);
    RoundMonotone(0.0, t, 100);
    RoundMonotone(t, 10.0, 100);
    RoundWhole(0, 100);
    RoundWhole(10, 100);
  }

  /** Comparing a score out of ten with a bound, without the division. */
  lemma TenTimes(earned: real, possible: real, bound: real)
    requires possible > 0.0
    ensures bound <= OutOfTen(earned, possible) <==> bound * possible <= 10.0 * earned
    ensures bound >= OutOfTen(earned, possible) <==> bound * possible >= 10.0 * earned
  {
    var share := earned / possible;
    assert share * possible == earned;
    var gap := bound - share * 10.0;
    assert gap * possible == bound * possible - 10.0 * earned;
    assert gap >= 0.0 ==> gap * possible >= 0.0;
    assert gap <= 0.0 ==> gap * possible <= 0.0;
    assert gap > 0.0 ==> gap * possible > 0.0;
    assert gap < 0.0 ==> gap * possible < 0.0;
  }

  // ----- The whole submission -----

  predicate AllInBounds(s: seq<Scored>) {
    forall i :: 0 <= i < |s| ==> InBounds(s[i])
  }

  function IsAnswered(): Question -> bool {
    (q: Question) => q.kind != Section
  }

  /**
   Every question but a section header must be answered, whatever its `required` field says: a
   stored false reads back as the default. So an accepted form has one scored answer per such question.
  */
  lemma EveryQuestionIsRequired(q: Question, parse: Parser)
    ensures ScoreQuestion(q, [], parse) == if q.kind == Section then Ok(None) else Err(AnswerRequired(q.caption))
  {
  }

  /** A form is accepted only if it answers every question but the section headers. */
  lemma {:induction false} AcceptedFormsAnswerAll(questions: seq<Question>, form: Form, parse: Parser, i: nat)
    requires ScoreAll(questions, form, parse).Ok? && i < |questions| && form(questions[i].code) == []
    ensures questions[i].kind == Section
  {
    var n := |questions| - 1;
    if i < n {
      AcceptedFormsAnswerAll(questions[..n], form, parse, i);
    } else {
      EveryQuestionIsRequired(questions[i], parse);
    }
  }

  lemma {:induction false} ScoreAllInBounds(questions: seq<Question>, form: Form, parse: Parser)
    requires AllWellFormed(questions)
    ensures var r := ScoreAll(questions, form, parse);
      r.Ok? ==>
        && AllInBounds(r.value)
        && |r.value| == |Filter(questions, IsAnswered())|
        && forall i :: 0 <= i < |r.value| ==>
             var q := Filter(questions, IsAnswered())[i];
             r.value[i].code == q.code && r.value[i].kind == q.kind
  {
    hide ScoreQuestion, InBounds, WellFormed;
    if questions != [] {
      var n := |questions| - 1;
      var q := questions[n];
      ScoreAllInBounds(questions[..n], form, parse);
      AnswerInBounds(q, form(q.code), parse);
      SkippedIff(q, form(q.code), parse);
      assert questions == questions[..n] + [q];
      FilterAppend(questions[..n], [q], IsAnswered());
    }
  }

  lemma SkippedIff(q: Question, answers: seq<string>, parse: Parser)
    ensures var r := ScoreQuestion(q, answers, parse); r.Ok? ==> (r.value.None? <==> q.kind == Section)
  {
    hide ScoreOptions, ScoreScale;
  }

  lemma Distribute(x: real, a: real, b: real)
    ensures x * (a + b) == x * a + x * b
  {
  }

  /** A bound that holds for every answer's score holds for the totals. */
  lemma {:induction false} TotalsBound(s: seq<Scored>, low: real, high: real)
    requires forall i :: 0 <= i < |s| ==> low * s[i].possible <= 10.0 * s[i].Earned() <= high * s[i].possible
    ensures low * TotalPossible(s) <= 10.0 * TotalEarned(s) <= high * TotalPossible(s)
  {
    if s != [] {
      var n := |s| - 1;
      TotalsBound(s[..n], low, high);
      Distribute(low, TotalPossible(s[..n]), s[n].possible);
      Distribute(high, TotalPossible(s[..n]), s[n].possible);
      Distribute(10.0, TotalEarned(s[..n]), s[n].Earned());
    }
  }

  lemma {:induction false} TotalsInBounds(s: seq<Scored>)
    requires AllInBounds(s)
    ensures 0.0 <= TotalEarned(s) <= TotalPossible(s)
    ensures TotalPossible(s) > 0.0 <==> exists i :: 0 <= i < |s| && s[i].possible > 0.0
  {
    hide Scored.Earned;
    if s != [] {
      var n := |s| - 1;
      TotalsInBounds(s[..n]);
      assert InBounds(s[n]);
      if i :| 0 <= i < n && s[i].possible > 0.0 {
        assert s[..n][i].possible > 0.0;
      }
    }
  }

  function ScoreOf(a: Scored): real
    requires a.possible > 0.0
  {
    OutOfTen(a.Earned(), a.possible)
  }

  /** The scored answers with the lowest and the highest score. */
  lemma {:induction false} Extremes(s: seq<Scored>, start: nat) returns (lowest: nat, highest: nat)
    requires start < |s| && s[start].possible > 0.0
    ensures lowest < |s| && s[lowest].possible > 0.0 && highest < |s| && s[highest].possible > 0.0
    ensures forall i :: 0 <= i < |s| && s[i].possible > 0.0 ==>
      ScoreOf(s[lowest]) <= ScoreOf(s[i]) <= ScoreOf(s[highest])
  {
    hide ScoreOf;
    lowest, highest := start, start;
    for k := 0 to |s|
      invariant lowest < |s| && s[lowest].possible > 0.0 && highest < |s| && s[highest].possible > 0.0
      invariant forall i :: 0 <= i < k && s[i].possible > 0.0 ==>
        ScoreOf(s[lowest]) <= ScoreOf(s[i]) <= ScoreOf(s[highest])
      invariant ScoreOf(s[lowest]) <= ScoreOf(s[highest])
    {
      if s[k].possible > 0.0 {
        if ScoreOf(s[k]) < ScoreOf(s[lowest]) {
          lowest := k;
        }
        if ScoreOf(s[k]) > ScoreOf(s[highest]) {
          highest := k;
        }
      }
    }
  }

  lemma OneBetween(a: Scored, low: real, high: real)
    requires InBounds(a) && (a.possible > 0.0 ==> low <= ScoreOf(a) <= high)
    ensures low * a.possible <= 10.0 * a.Earned() <= high * a.possible
  {
    hide OutOfTen, Scored.Earned;
    if a.possible > 0.0 {
      TenTimes(a.Earned(), a.possible, low);
      TenTimes(a.Earned(), a.possible, high);
    }
  }

  /** The exact overall score lies between the lowest and the highest exact answer score. */
  lemma OverallBetween(s: seq<Scored>, lowest: nat, highest: nat)
    requires AllInBounds(s) && TotalPossible(s) > 0.0
    requires lowest < |s| && s[lowest].possible > 0.0 && highest < |s| && s[highest].possible > 0.0
    requires forall i :: 0 <= i < |s| && s[i].possible > 0.0 ==>
      ScoreOf(s[lowest]) <= ScoreOf(s[i]) <= ScoreOf(s[highest])
    ensures ScoreOf(s[lowest]) <= OutOfTen(TotalEarned(s), TotalPossible(s)) <= ScoreOf(s[highest])
  {
    hide OutOfTen, InBounds, Scored.Earned, TotalEarned, TotalPossible, ScoreOf;
    var low, high := ScoreOf(s[lowest]), ScoreOf(s[highest]);
    forall i | 0 <= i < |s| ensures low * s[i].possible <= 10.0 * s[i].Earned() <= high * s[i].possible {
      OneBetween(s[i], low, high);
    }
    TotalsBound(s, low, high);
    TenTimes(TotalEarned(s), TotalPossible(s), low);
    TenTimes(TotalEarned(s), TotalPossible(s), high);
  }

  /** Two stored answers whose scores enclose the stored overall score. */
  predicate Encloses(answers: seq<Row>, overall: real, i: int, j: int) {
    && 0 <= i < |answers| && answers[i].score10.Some?
    && 0 <= j < |answers| && answers[j].score10.Some?
    && answers[i].score10.value <= overall <= answers[j].score10.value
  }

  /**
   For every form accepted for a well-formed template: the stored answer rows are within bounds, the
   stored overall score is in [0, 10], and it lies between two stored answer scores unless nothing
   was scored, when it is 0.
  */
  lemma {:induction false} SubmissionBounds(questions: seq<Question>, form: Form, parse: Parser)
    requires AllWellFormed(questions)
    ensures var r := ScoreAll(questions, form, parse);
      r.Ok? ==>
        var sub := SubmissionOf(r.value);
        && (forall i :: 0 <= i < |sub.answers| ==> 0.0 <= sub.answers[i].weightedScore <= sub.answers[i].weightedMax)
        && (forall i :: 0 <= i < |sub.answers| ==> (sub.answers[i].score10.Some? <==> !NotScored(sub.answers[i].kind)))
        && 0.0 <= sub.overall <= 10.0
        && 0.0 <= sub.scoreTotal <= sub.maxTotal
        && if exists i :: 0 <= i < |sub.answers| && sub.answers[i].score10.Some?
           then exists i, j :: Encloses(sub.answers, sub.overall, i, j)
           else sub.overall == 0.0
  {
    hide ScoreAll, SubmissionOf, InBounds;
    var r := ScoreAll(questions, form, parse);
    if r.Ok? {
      ScoreAllInBounds(questions, form, parse);
      BoundsOf(r.value);
    }
  }

  lemma BoundsOf(s: seq<Scored>)
    requires AllInBounds(s)
    ensures var sub := SubmissionOf(s);
      && (forall i :: 0 <= i < |sub.answers| ==> 0.0 <= sub.answers[i].weightedScore <= sub.answers[i].weightedMax)
      && (forall i :: 0 <= i < |sub.answers| ==> (sub.answers[i].score10.Some? <==> !NotScored(sub.answers[i].kind)))
      && 0.0 <= sub.overall <= 10.0
      && 0.0 <= sub.scoreTotal <= sub.maxTotal
      && if exists i :: 0 <= i < |sub.answers| && sub.answers[i].score10.Some?
         then exists i, j :: Encloses(sub.answers, sub.overall, i, j)
         else sub.overall == 0.0
  {
    hide RoundTo, OutOfTen, InBounds, TotalEarned, TotalPossible, Scored.Earned;
    var sub := SubmissionOf(s);
    TotalsInBounds(s);
    RoundMonotone(0.0, TotalEarned(s), 10000);
    RoundWhole(0, 10000);
    RoundMonotone(TotalEarned(s), TotalPossible(s), 10000);
    forall i | 0 <= i < |s|
      ensures 0.0 <= sub.answers[i].weightedScore <= sub.answers[i].weightedMax
      ensures sub.answers[i].score10.Some? <==> !NotScored(sub.answers[i].kind)
    {
      Rounded(s[i]);
    }
    if TotalPossible(s) > 0.0 {
      WithinTen(TotalEarned(s), TotalPossible(s));
      EnclosingAnswers(s);
    }
  }

  lemma EnclosingAnswers(s: seq<Scored>)
    requires AllInBounds(s) && TotalPossible(s) > 0.0
    ensures exists i, j :: Encloses(SubmissionOf(s).answers, SubmissionOf(s).overall, i, j)
  {
    hide RoundTo, OutOfTen, InBounds, TotalEarned, TotalPossible, Scored.Earned;
    TotalsInBounds(s);
    var k :| 0 <= k < |s| && s[k].possible > 0.0;
    var lowest, highest := Extremes(s, k);
    OverallBetween(s, lowest, highest);
    var t := OutOfTen(TotalEarned(s), TotalPossible(s));
    RoundMonotone(ScoreOf(s[lowest]), t, 100);
    RoundMonotone(t, ScoreOf(s[highest]), 100);
    assert Encloses(SubmissionOf(s).answers, SubmissionOf(s).overall, lowest, highest);
  }

  // ----- Storing a template and reading it back -----

  function StoredChoice(): Choice -> RawOption {
    (c: Choice) => RawOption(c.value, c.caption, Some(c.weight))
  }

  /** The item a question is stored as. */
  function StoredItem(q: Question): Item {
    Item(q.code, q.caption, Some(q.kind), Some(q.weight), Is(q.required), Some(q.scaleMin), Some(q.scaleMax),
         Some(q.scaleStep), Is(q.allowMultiple), Map(q.options, StoredChoice()))
  }

  function Lowered(options: seq<Choice>): (r: seq<Choice>)
    ensures |r| == |options|
  {
    Map(options, LowerValue())
  }

  function LowerValue(): Choice -> Choice {
    (c: Choice) => Choice(Lower(c.value), c.caption, c.weight)
  }

  /** Reading back keeps every option; only the case of its value may change. */
  lemma {:induction false} OptionsReadBack(options: seq<Choice>)
    requires WeightsOk(options) && forall i :: 0 <= i < |options| ==> options[i].caption != ""
    ensures V2Choices(Map(options, StoredChoice())) == Lowered(options)
  {
    if options != [] {
      OptionsReadBack(options[1..]);
      var raw := Map(options, StoredChoice());
      assert raw[1..] == Map(options[1..], StoredChoice());
      assert Map(raw, V2Choice())[1..] == Map(raw[1..], V2Choice());
      assert Lowered(options) == [LowerValue()(options[0])] + Lowered(options[1..]);
    }
  }

  lemma LowerTwice(s: string)
    ensures Lower(Lower(s)) == Lower(s)
  {
  }

  lemma {:induction false} MatchLowered(options: seq<Choice>, answer: string)
    ensures Match(Lowered(options), answer)
      == match Match(options, answer) case None => None case Some(c) => Some(LowerValue()(c))
  {
    if options != [] {
      LowerTwice(options[0].value);
      assert Lowered(options)[1..] == Lowered(options[1..]);
      MatchLowered(options[1..], answer);
    }
  }

  lemma {:induction false} MatchesLowered(options: seq<Choice>, answers: seq<string>)
    ensures Matches(Lowered(options), answers)
      == match Matches(options, answers) case None => None case Some(m) => Some(Lowered(m))
  {
    if answers != [] {
      MatchLowered(options, answers[0]);
      MatchesLowered(options, answers[1..]);
      var rest := Matches(options, answers[1..]);
      if Match(options, answers[0]).Some? && rest.Some? {
        var c := Match(options, answers[0]).value;
        assert Lowered([c] + rest.value) == [LowerValue()(c)] + Lowered(rest.value);
      }
    }
  }

  lemma {:induction false} WeightLowered(options: seq<Choice>)
    ensures TotalWeight(Lowered(options)) == TotalWeight(options)
  {
    if options != [] {
      assert Lowered(options)[1..] == Lowered(options[1..]);
      WeightLowered(options[1..]);
    }
  }

  lemma {:induction false} HeaviestLowered(options: seq<Choice>)
    requires options != []
    ensures Heaviest(Lowered(options)) == Heaviest(options)
  {
    if |options| > 1 {
      assert Lowered(options)[1..] == Lowered(options[1..]);
      HeaviestLowered(options[1..]);
    }
  }

  /** Two questions that score every answer alike. */
  predicate ScoreAlike(p: Question, q: Question) {
    && p.code == q.code && p.caption == q.caption && p.kind == q.kind && p.weight == q.weight
    && p.allowMultiple == q.allowMultiple && p.maxAnswerWeight == q.maxAnswerWeight
    && (ScoredByScale(q.kind) ==> p.scaleMin == q.scaleMin && p.scaleMax == q.scaleMax && p.scaleStep == q.scaleStep)
    && p.options == Lowered(q.options)
  }

  /** What an option answer scores, given the options its answers name. */
  lemma OptionsScored(q: Question, weight: real, answers: seq<string>, chosen: seq<Choice>)
    requires answers != [] && q.options != [] && chosen != []
    requires Matches(q.options, Counted(q, answers)) == Some(chosen)
    ensures ScoreOptions(q, weight, answers)
      == Ok(Scored(q.code, q.kind, weight, Average(chosen), MostPoints(q, weight)))
  {
    hide Matches, Counted, Average, MostPoints;
  }

  lemma AverageLowered(options: seq<Choice>)
    requires options != []
    ensures Average(Lowered(options)) == Average(options)
  {
    WeightLowered(options);
  }

  lemma SameMost(p: Question, q: Question, weight: real)
    requires p.maxAnswerWeight == q.maxAnswerWeight
    ensures MostPoints(p, weight) == MostPoints(q, weight)
  {
  }

  lemma AlikeOptions(p: Question, q: Question, weight: real, answers: seq<string>)
    requires ScoreAlike(p, q) && answers != []
    ensures ScoreOptions(p, weight, answers) == ScoreOptions(q, weight, answers)
  {
    hide Matches, Average, MostPoints;
    var counted := Counted(q, answers);
    assert MostPoints(p, weight) == MostPoints(q, weight) by {
      SameMost(p, q, weight);
    }
    assert Counted(p, answers) == counted;
    MatchesLowered(q.options, counted);
    MatchesSize(q.options, counted);
    var m := Matches(q.options, counted);
    if q.options != [] && m.Some? {
      OptionsScored(q, weight, answers, m.value);
      OptionsScored(p, weight, answers, Lowered(m.value));
      AverageLowered(m.value);
    }
  }

  lemma AlikeScores(p: Question, q: Question, answers: seq<string>, parse: Parser)
    requires ScoreAlike(p, q)
    ensures ScoreQuestion(p, answers, parse) == ScoreQuestion(q, answers, parse)
  {
    hide ScoreOptions, Snap;
    if answers != [] {
      AlikeOptions(p, q, SafeFloat(Some(q.weight), 1.0, if NotScored(q.kind) then 0.0 else 0.01, Some(100.0)), answers);
    }
  }

  /** The question with its label as it is read back: a label cut at a blank loses that blank. */
  function Relabelled(q: Question): Question {
    q.(caption := Strip(q.caption))
  }

  /**
   A question entered in the form, stored and read back as a version 2 item is kept, and scores every
   set of answers as before, although its `required` field need not survive.
  */
  lemma StoredFormScoresTheSame(row: FormRow, answers: seq<string>, parse: Parser)
    requires Strip(row.caption) != "" && forall o <- row.options :: o.caption != ""
    ensures var q := FormQuestion(row);
      q.Ok? ==>
        var back := V2Question()(StoredItem(q.value));
        && back.Some?
        && ScoreQuestion(back.value, answers, parse) == ScoreQuestion(Relabelled(q.value), answers, parse)
        && back.value.required == (q.value.kind != Section)
  {
    hide ScoreQuestion;
    if FormQuestion(row).Ok? {
      ReadsBackAlike(row);
      var q := FormQuestion(row).value;
      AlikeScores(V2Question()(StoredItem(q)).value, Relabelled(q), answers, parse);
    }
  }

  lemma FormCaptions(row: FormRow, k: Kind)
    requires forall o <- row.options :: o.caption != ""
    ensures var r := FormOptions(row, k); r.Ok? ==> forall i :: 0 <= i < |r.value| ==> r.value[i].caption != ""
  {
  }

  lemma LabelSurvives(row: FormRow)
    requires Strip(row.caption) != ""
    ensures Strip(Cut(Strip(row.caption), LABEL_LIMIT)) != ""
  {
    StripStarts(row.caption);
    CutKeepsStart(Strip(row.caption), LABEL_LIMIT);
  }

  lemma {:induction false} ReadsBackAlike(row: FormRow)
    requires Strip(row.caption) != "" && FormQuestion(row).Ok? && forall o <- row.options :: o.caption != ""
    ensures var q := FormQuestion(row).value;
      var back := V2Question()(StoredItem(q));
      back.Some? && ScoreAlike(back.value, Relabelled(q)) && back.value.required == (q.kind != Section)
  {
    hide FormOptions, Lowered, Heaviest, Strip, Cut;
    var q := FormQuestion(row).value;
    LabelSurvives(row);
    FormCaptions(row, q.kind);
    OptionsReadBack(q.options);
    if q.options != [] {
      HeaviestLowered(q.options);
    }
    assert q.weight == SafeFloat(Some(q.weight), 1.0, 0.01, Some(100.0));
  }
}
