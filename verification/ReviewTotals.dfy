/**
 What a submission scores: each answer by its question's own weight and its place on the scale or the
 weights of the options it names, and the totals and the overall score by the sums of these.
*/
module ReviewTotals {
  import opened Common
  import opened Rounding
  import opened ReviewTemplates
  import opened ReviewScoring
  import opened ReviewBounds

  // ----- One answer -----

  /** Bottom, top and step of a question's scale; stars go from 1 to 5. */
  function ScaleFor(q: Question): (real, real, real) {
    if q.kind == Star then (1.0, 5.0, 1.0) else (q.scaleMin, q.scaleMax, q.scaleStep)
  }

  /** Where a number lands on the scale. */
  function Landing(q: Question, x: real): real
    requires WellFormed(q) && ScoredByScale(q.kind)
  {
    Snap(x, ScaleFor(q).0, ScaleFor(q).2)
  }

  /** The weight of the first option with this value, ignoring case. */
  function WeightNamed(options: seq<Choice>, name: string): real {
    if options == [] then 0.0 else
    if Lower(options[0].value) == Lower(name) then options[0].weight else WeightNamed(options[1..], name)
  }

  predicate Named(options: seq<Choice>, name: string) {
    exists i :: 0 <= i < |options| && Lower(options[i].value) == Lower(name)
  }

  function SumNamed(options: seq<Choice>, names: seq<string>): real {
    if names == [] then 0.0 else WeightNamed(options, names[0]) + SumNamed(options, names[1..])
  }

  /** The answers that count: all of them where several are allowed, else the first. */
  function Names(q: Question, answers: seq<string>): (n: seq<string>)
    requires answers != []
    ensures n != []
  {
    if q.kind == Multi && q.allowMultiple then answers else [answers[0]]
  }

  /** What an accepted answer is worth, before the question's weight. */
  function Worth(q: Question, answers: seq<string>, parse: Parser): real
    requires WellFormed(q)
  {
    if answers == [] then 0.0
    else if ScoredByScale(q.kind) then
      (match parse(answers[0])
       case None => 0.0
       case Some(x) => (Landing(q, x) - ScaleFor(q).0) / (ScaleFor(q).1 - ScaleFor(q).0))
    else if ScoredByOption(q.kind) then SumNamed(q.options, Names(q, answers)) / |Names(q, answers)| as real
    else 0.0
  }

  /** What the best answer is worth. */
  function Best(q: Question): real {
    if ScoredByScale(q.kind) then 1.0 else if ScoredByOption(q.kind) then q.maxAnswerWeight else 0.0
  }

  /** The points an answer earns: the question's weight times the worth of the answer. */
  function Points(q: Question, answers: seq<string>, parse: Parser): real
    requires WellFormed(q)
  {
    q.weight * Worth(q, answers, parse)
  }

  /** The points of the best answer. */
  function BestPoints(q: Question): real {
    q.weight * Best(q)
  }

  /** An accepted answer. */
  function AnswerFor(q: Question, answers: seq<string>, parse: Parser): Scored
    requires WellFormed(q)
  {
    Scored(q.code, q.kind, q.weight, Worth(q, answers, parse), BestPoints(q))
  }

  /** The error of an answer that is refused. */
  function Refusal(q: Question, answers: seq<string>, parse: Parser): Option<SubmitError>
    requires WellFormed(q)
  {
    if q.kind == Section then None
    else if answers == [] then Some(AnswerRequired(q.caption))
    else if ScoredByScale(q.kind) then
      (match parse(answers[0])
       case None => Some(NotNumeric(q.caption))
       case Some(x) =>
         if ScaleFor(q).0 <= Landing(q, x) <= ScaleFor(q).1 then None else Some(OutOfRange(q.caption)))
    else if ScoredByOption(q.kind) && exists name <- Names(q, answers) :: !Named(q.options, name) then
      Some(InvalidAnswer(q.caption))
    else None
  }

  lemma ScaleForIs(q: Question)
    requires WellFormed(q) && ScoredByScale(q.kind)
    ensures ScaleOf(q) == ScaleFor(q)
  {
  }

  lemma {:induction false} MatchIs(options: seq<Choice>, name: string)
    ensures Match(options, name).Some? <==> Named(options, name)
    ensures Match(options, name).Some? ==> Match(options, name).value.weight == WeightNamed(options, name)
    ensures Match(options, name).Some? ==> Match(options, name).value in options
  {
    if options != [] {
      MatchIs(options[1..], name);
      assert forall i :: 1 <= i < |options| ==> options[i] == options[1..][i - 1];
      if i :| 0 <= i < |options[1..]| && Lower(options[1..][i].value) == Lower(name) {
        assert Lower(options[i + 1].value) == Lower(name);
      }
    }
  }

  lemma {:induction false} MatchesAre(options: seq<Choice>, names: seq<string>)
    requires WeightsOk(options)
    ensures Matches(options, names).Some? <==> forall name <- names :: Named(options, name)
    ensures Matches(options, names).Some? ==>
      TotalWeight(Matches(options, names).value) == SumNamed(options, names)
  {
    hide Named, WeightNamed;
    if names != [] {
      MatchIs(options, names[0]);
      MatchesAre(options, names[1..]);
      assert names == [names[0]] + names[1..];
      if Match(options, names[0]).Some? && Matches(options, names[1..]).Some? {
        var rest := Matches(options, names[1..]).value;
        assert ([Match(options, names[0]).value] + rest)[1..] == rest;
      }
    }
  }

  lemma NamesAre(q: Question, answers: seq<string>)
    requires answers != []
    ensures Counted(q, answers) == Names(q, answers)
  {
    assert answers[..1] == [answers[0]];
  }

  lemma ScaleOutcome(q: Question, answers: seq<string>, parse: Parser)
    requires WellFormed(q) && ScoredByScale(q.kind) && answers != []
    ensures ScoreScale(q, q.weight, answers[0], parse) ==
      match Refusal(q, answers, parse)
      case Some(e) => Err(e)
      case None => Ok(AnswerFor(q, answers, parse))
  {
    hide Snap, ScaleOf;
    ScaleForIs(q);
    if parse(answers[0]).Some? && Refusal(q, answers, parse).None? {
      FractionInUnit(Landing(q, parse(answers[0]).value), ScaleFor(q).0, ScaleFor(q).1);
    }
  }

  lemma OptionOutcome(q: Question, answers: seq<string>, parse: Parser)
    requires WellFormed(q) && ScoredByOption(q.kind) && answers != []
    ensures ScoreOptions(q, q.weight, answers) ==
      match Refusal(q, answers, parse)
      case Some(e) => Err(e)
      case None => Ok(AnswerFor(q, answers, parse))
  {
    hide Named, SumNamed, Matches, TotalWeight, Counted, Names, MostPoints;
    NamesAre(q, answers);
    var names := Names(q, answers);
    MatchesAre(q.options, names);
    MatchesSize(q.options, names);
    if Matches(q.options, names).Some? {
      var chosen := Matches(q.options, names).value;
      OptionsScored(q, q.weight, answers, chosen);
      MostPointsAre(q);
      assert Worth(q, answers, parse) == Average(chosen);
      assert Refusal(q, answers, parse).None?;
    } else {
      assert Refusal(q, answers, parse) == Some(InvalidAnswer(q.caption));
    }
  }

  lemma MostPointsAre(q: Question)
    requires WellFormed(q) && ScoredByOption(q.kind)
    ensures MostPoints(q, q.weight) == BestPoints(q)
  {
  }

  /**
   The outcome for one question of a template: a section header is skipped; an answer is refused with
   the right error; and an accepted one carries the question's own weight, its worth, and as possible
   points the question's weight times the best worth.
  */
  lemma AnswerIs(q: Question, answers: seq<string>, parse: Parser)
    requires WellFormed(q)
    ensures ScoreQuestion(q, answers, parse) ==
      if q.kind == Section then Ok(None) else
      match Refusal(q, answers, parse)
      case Some(e) => Err(e)
      case None => Ok(Some(AnswerFor(q, answers, parse)))
  {
    hide ScoreScale, ScoreOptions, Landing, SumNamed, Names, Named;
    assert SafeFloat(Some(q.weight), 1.0, if NotScored(q.kind) then 0.0 else 0.01, Some(100.0)) == q.weight;
    if answers != [] && ScoredByScale(q.kind) {
      ScaleOutcome(q, answers, parse);
    } else if answers != [] && ScoredByOption(q.kind) {
      OptionOutcome(q, answers, parse);
    } else if NotScored(q.kind) {
      assert BestPoints(q) == q.weight * 0.0 == 0.0;
    }
  }

  // ----- A whole form -----

  /** The points that the answers earn: each question's weight times the worth of its answer. */
  function EarnedPoints(questions: seq<Question>, form: Form, parse: Parser): real
    requires AllWellFormed(questions)
  {
    if questions == [] then 0.0 else
    var n := |questions| - 1;
    var q := questions[n];
    EarnedPoints(questions[..n], form, parse)
    + if q.kind == Section then 0.0 else Points(q, form(q.code), parse)
  }

  /** The points that could be earned: each question's weight times the worth of its best answer. */
  function PossiblePoints(questions: seq<Question>): real {
    if questions == [] then 0.0 else
    var n := |questions| - 1;
    PossiblePoints(questions[..n]) + if questions[n].kind == Section then 0.0 else BestPoints(questions[n])
  }

  /** No answer is refused. */
  predicate AllAccepted(questions: seq<Question>, form: Form, parse: Parser)
    requires AllWellFormed(questions)
  {
    forall i :: 0 <= i < |questions| ==> Refusal(questions[i], form(questions[i].code), parse).None?
  }

  /** The answer to question i is the first that is refused. */
  predicate FirstRefusal(questions: seq<Question>, form: Form, parse: Parser, i: nat)
    requires AllWellFormed(questions)
  {
    && i < |questions| && Refusal(questions[i], form(questions[i].code), parse).Some?
    && AllAccepted(questions[..i], form, parse)
  }

  /** The answers of an accepted form, one for each question that is no section header, in order. */
  function Answers(questions: seq<Question>, form: Form, parse: Parser): seq<Scored>
    requires AllWellFormed(questions)
  {
    if questions == [] then [] else
    var n := |questions| - 1;
    var q := questions[n];
    Answers(questions[..n], form, parse)
    + if q.kind == Section then [] else [AnswerFor(q, form(q.code), parse)]
  }

  lemma {:induction false} AcceptedForm(questions: seq<Question>, form: Form, parse: Parser)
    requires AllWellFormed(questions) && AllAccepted(questions, form, parse)
    ensures ScoreAll(questions, form, parse) == Ok(Answers(questions, form, parse))
  {
    hide ScoreQuestion, Refusal, WellFormed, AnswerFor;
    if questions != [] {
      var n := |questions| - 1;
      var q := questions[n];
      assert AllAccepted(questions[..n], form, parse) by {
        assert forall i :: 0 <= i < n ==> questions[..n][i] == questions[i];
      }
      AcceptedForm(questions[..n], form, parse);
      AnswerIs(q, form(q.code), parse);
      assert Answers(questions[..n], form, parse) + [] == Answers(questions[..n], form, parse);
    }
  }

  lemma {:induction false} RefusedForm(questions: seq<Question>, form: Form, parse: Parser, i: nat)
    requires AllWellFormed(questions) && FirstRefusal(questions, form, parse, i)
    ensures ScoreAll(questions, form, parse) == Err(Refusal(questions[i], form(questions[i].code), parse).value)
  {
    hide ScoreQuestion, Refusal, WellFormed;
    var n := |questions| - 1;
    var q := questions[n];
    if i < n {
      assert questions[..n][..i] == questions[..i] && questions[..n][i] == questions[i];
      RefusedForm(questions[..n], form, parse, i);
    } else {
      AcceptedForm(questions[..n], form, parse);
      AnswerIs(q, form(q.code), parse);
      SectionsPass(q, form(q.code), parse);
    }
  }

  lemma {:induction false} SomeFirstRefusal(questions: seq<Question>, form: Form, parse: Parser) returns (i: nat)
    requires AllWellFormed(questions) && !AllAccepted(questions, form, parse)
    ensures FirstRefusal(questions, form, parse, i)
  {
    hide Refusal, WellFormed;
    var n := |questions| - 1;
    if AllAccepted(questions[..n], form, parse) {
      i := n;
      assert forall j :: 0 <= j < n ==> questions[..n][j] == questions[j];
    } else {
      i := SomeFirstRefusal(questions[..n], form, parse);
      assert questions[..n][..i] == questions[..i] && questions[..n][i] == questions[i];
    }
  }

  /** A form is accepted exactly when no answer is refused, and otherwise gets the error of the first refusal. */
  lemma FormOutcome(questions: seq<Question>, form: Form, parse: Parser)
    requires AllWellFormed(questions)
    ensures ScoreAll(questions, form, parse).Ok? <==> AllAccepted(questions, form, parse)
    ensures ScoreAll(questions, form, parse).Ok? ==>
      ScoreAll(questions, form, parse) == Ok(Answers(questions, form, parse))
    ensures forall i: nat :: FirstRefusal(questions, form, parse, i) ==>
      ScoreAll(questions, form, parse) == Err(Refusal(questions[i], form(questions[i].code), parse).value)
  {
    hide ScoreAll, Refusal, WellFormed, AllAccepted, Answers;
    if AllAccepted(questions, form, parse) {
      AcceptedForm(questions, form, parse);
    } else {
      var i := SomeFirstRefusal(questions, form, parse);
      RefusedForm(questions, form, parse, i);
    }
    forall i: nat | FirstRefusal(questions, form, parse, i)
      ensures ScoreAll(questions, form, parse) == Err(Refusal(questions[i], form(questions[i].code), parse).value)
    {
      RefusedForm(questions, form, parse, i);
    }
  }

  lemma SectionsPass(q: Question, answers: seq<string>, parse: Parser)
    requires WellFormed(q)
    ensures q.kind == Section ==> Refusal(q, answers, parse).None?
  {
  }

  lemma EarnedIs(q: Question, answers: seq<string>, parse: Parser)
    requires WellFormed(q)
    ensures AnswerFor(q, answers, parse).Earned() == Points(q, answers, parse)
    ensures AnswerFor(q, answers, parse).possible == BestPoints(q)
  {
  }

  lemma {:induction false} TotalsAre(questions: seq<Question>, form: Form, parse: Parser)
    requires AllWellFormed(questions)
    ensures TotalEarned(Answers(questions, form, parse)) == EarnedPoints(questions, form, parse)
    ensures TotalPossible(Answers(questions, form, parse)) == PossiblePoints(questions)
  {
    hide Worth, Best, WellFormed;
    if questions != [] {
      hide Points, BestPoints, TotalEarned, TotalPossible, Scored.Earned;
      var n := |questions| - 1;
      var q := questions[n];
      TotalsAre(questions[..n], form, parse);
      var before := Answers(questions[..n], form, parse);
      if q.kind != Section {
        AddAnswer(before, AnswerFor(q, form(q.code), parse));
        EarnedIs(q, form(q.code), parse);
      } else {
        assert before + [] == before;
      }
    }
  }

  /** The stored row of a question's answer. */
  function RowFor(q: Question, answers: seq<string>, parse: Parser): Row
    requires WellFormed(q)
  {
    var earned, possible := Points(q, answers, parse), BestPoints(q);
    Row(q.code, q.kind, q.weight, Round4(Worth(q, answers, parse)), Round4(earned), Round4(possible),
        if possible > 0.0 then Some(Round2(earned / possible * 10.0)) else None)
  }

  function RowsFor(questions: seq<Question>, form: Form, parse: Parser): seq<Row>
    requires AllWellFormed(questions)
  {
    if questions == [] then [] else
    var n := |questions| - 1;
    RowsFor(questions[..n], form, parse)
    + if questions[n].kind == Section then [] else [RowFor(questions[n], form(questions[n].code), parse)]
  }

  lemma RowIs(q: Question, answers: seq<string>, parse: Parser)
    requires WellFormed(q)
    ensures Stored(AnswerFor(q, answers, parse)) == RowFor(q, answers, parse)
  {
    hide Points, BestPoints, RoundTo, Scored.Earned;
    EarnedIs(q, answers, parse);
  }

  lemma MapLast(before: seq<Scored>, a: Scored)
    ensures Map(before + [a], Stored) == Map(before, Stored) + [Stored(a)]
  {
  }

  lemma {:induction false} RowsAre(questions: seq<Question>, form: Form, parse: Parser)
    requires AllWellFormed(questions)
    ensures Map(Answers(questions, form, parse), Stored) == RowsFor(questions, form, parse)
  {
    hide WellFormed;
    if questions != [] {
      hide RowFor, AnswerFor, Stored;
      var n := |questions| - 1;
      var q := questions[n];
      RowsAre(questions[..n], form, parse);
      var before := Answers(questions[..n], form, parse);
      if q.kind != Section {
        MapLast(before, AnswerFor(q, form(q.code), parse));
        RowIs(q, form(q.code), parse);
      } else {
        assert before + [] == before;
        assert RowsFor(questions[..n], form, parse) + [] == RowsFor(questions[..n], form, parse);
      }
    }
  }

  /**
   The submission of an accepted form: a row for each question in order, with its own weight; the
   totals are the earned and the possible points, rounded; the overall score is ten times their
   quotient, rounded.
  */
  lemma SubmissionIs(questions: seq<Question>, form: Form, parse: Parser)
    requires AllWellFormed(questions) && ScoreAll(questions, form, parse).Ok?
    ensures
      var s := SubmissionOf(ScoreAll(questions, form, parse).value);
      var earned, possible := EarnedPoints(questions, form, parse), PossiblePoints(questions);
      && s.answers == RowsFor(questions, form, parse)
      && s.scoreTotal == Round4(earned) && s.maxTotal == Round4(possible)
      && s.overall == if possible > 0.0 then Round2(earned / possible * 10.0) else 0.0
  {
    hide Answers, EarnedPoints, PossiblePoints, RoundTo, RowsFor, WellFormed;
    FormOutcome(questions, form, parse);
    TotalsAre(questions, form, parse);
    RowsAre(questions, form, parse);
  }

  // ----- What is entered is kept -----

  /** The number is given and within the limits. */
  predicate Given(raw: Option<real>, low: real, high: real) {
    raw.Some? && low <= raw.value <= high
  }

  /**
   A version 1 criterion becomes a scale from 0 to its maximum score, when that is from 1 to 100, in
   steps of a tenth.
  */
  lemma CriterionIs(c: Criterion)
    requires c.Criterion? && Strip(c.caption) != ""
    ensures V1Question()(c).Some?
    ensures var q := V1Question()(c).value;
      && q.code == c.code && q.caption == Strip(c.caption) && q.kind == Scale && q.weight == 1.0
      && q.scaleMin == 0.0 && q.scaleStep == 0.1
      && (Given(c.maxScore, 1.0, 100.0) ==> q.scaleMax == c.maxScore.value)
      && (c.maxScore.None? ==> q.scaleMax == 10.0)
  {
  }

  /**
   A version 2 item keeps what it gives within the limits, and its best answer weighs what its
   heaviest option does.
  */
  lemma ItemIs(item: Item)
    requires item.Item? && V2Question()(item).Some?
    ensures var q := V2Question()(item).value;
      && q.code == item.code && q.caption == Strip(item.caption)
      && (item.kind.Some? ==> q.kind == item.kind.value)
      && (Given(item.weight, 0.01, 100.0) ==> q.weight == item.weight.value)
      && (q.kind == Scale && Given(item.scaleMin, 0.0, 1000.0) ==> q.scaleMin == item.scaleMin.value)
      && (q.kind == Scale && Given(item.scaleMax, 0.01, 1000.0) && item.scaleMax.value > q.scaleMin ==>
            q.scaleMax == item.scaleMax.value)
      && (q.kind == Scale && Given(item.scaleStep, 0.01, 100.0) ==> q.scaleStep == item.scaleStep.value)
      && (q.kind == Multi && item.allowMultiple == Is(true) ==> q.allowMultiple)
      && (V2Choices(item.options) != [] ==> q.options == V2Choices(item.options))
      && (ScoredByOption(q.kind) ==>
            && (forall o <- q.options :: o.weight <= q.maxAnswerWeight)
            && (q.maxAnswerWeight == 0.01 || exists o <- q.options :: o.weight == q.maxAnswerWeight))
  {
    hide V2Choices, Strip;
    var q := V2Question()(item).value;
    if ScoredByOption(q.kind) {
      var w := Heaviest(q.options);
      var i :| 0 <= i < |q.options| && q.options[i].weight == w;
      assert q.options[i] in q.options;
    }
  }

  /** An option keeps its label, its weight from 0 to 100, and its value but for case. */
  lemma OptionIs(o: RawOption)
    requires o.RawOption? && o.caption != ""
    ensures V2Choice()(o).Some?
    ensures var c := V2Choice()(o).value;
      && c.caption == o.caption && Lower(c.value) == Lower(o.value)
      && (Given(o.weight, 0.0, 100.0) ==> c.weight == o.weight.value)
  {
    LowerTwice(o.value);
  }

  /** A question entered in the form keeps what is given within the limits; the stars of a rating are 1 to 5. */
  lemma RowFieldsAre(row: FormRow)
    requires FormQuestion(row).Ok?
    ensures var q := FormQuestion(row).value;
      && q.code == row.code && (|Strip(row.caption)| <= 160 ==> q.caption == Strip(row.caption))
      && (row.kind.Some? ==> q.kind == row.kind.value)
      && (row.kind.None? ==> q.kind == Scale)
      && (Given(row.weight, 0.01, 100.0) ==> q.weight == row.weight.value)
      && (q.kind == Scale && Given(row.scaleMin, 0.0, 1000.0) ==> q.scaleMin == row.scaleMin.value)
      && (q.kind == Scale && Given(row.scaleMax, 0.01, 1000.0) ==> q.scaleMax == row.scaleMax.value)
      && (q.kind == Scale && Given(row.scaleStep, 0.01, 100.0) ==> q.scaleStep == row.scaleStep.value)
      && (q.kind == Star ==> q.scaleMin == 1.0 && q.scaleMax == 5.0 && q.scaleStep == 1.0)
      && (q.kind == Multi && row.allowMultiple == Is(true) ==> q.allowMultiple)
      && (q.kind != Multi ==> !q.allowMultiple)
      && (ScoredByOption(q.kind) ==>
            && (forall o <- q.options :: o.weight <= q.maxAnswerWeight)
            && (q.maxAnswerWeight == 0.01 || exists o <- q.options :: o.weight == q.maxAnswerWeight))
  {
    hide FormChoices, Strip;
    var q := FormQuestion(row).value;
    if ScoredByOption(q.kind) {
      var w := Heaviest(q.options);
      var i :| 0 <= i < |q.options| && q.options[i].weight == w;
      assert q.options[i] in q.options;
    }
  }

  /**
   The options entered keep their values, labels and weights in order. Without weights each weighs
   one, except the second of a yes or no question, which weighs nothing.
  */
  lemma RowOptionsAre(row: FormRow, i: nat)
    requires FormQuestion(row).Ok? && ScoredByOption(FormQuestion(row).value.kind) && i < |row.options|
    ensures var q := FormQuestion(row).value;
      && |q.options| == |row.options|
      && q.options[i].value == row.options[i].value && q.options[i].caption == row.options[i].caption
      && (row.optionWeights == [] ==>
            q.options[i].weight == if q.kind == Boolean && i == 1 then 0.0 else 1.0)
      && (row.optionWeights != [] ==>
            && |row.optionWeights| == |row.options|
            && (Given(row.optionWeights[i], 0.0, 100.0) ==> q.options[i].weight == row.optionWeights[i].value))
  {
    hide Strip, Heaviest;
  }

  /** When a labelled row is refused: an empty scale, fewer than two options, or the wrong number of weights. */
  lemma RowErrorIs(row: FormRow)
    ensures var k := if row.kind.Some? then row.kind.value else Scale;
      var low := SafeFloat(row.scaleMin, 1.0, 0.0, Some(1000.0));
      var high := SafeFloat(row.scaleMax, 5.0, 0.01, Some(1000.0));
      FormQuestion(row).Err? <==>
        || (k in {Scale, Star} && high <= low)
        || (k in {Multi, Dropdown, Likert} && |row.options| == 1)
        || (k in {Boolean, Multi, Dropdown, Likert} && row.options != [] && row.optionWeights != []
            && |row.optionWeights| != |row.options|)
  {
    hide Strip, Heaviest, SafeFloat, FormChoices;
  }
}
