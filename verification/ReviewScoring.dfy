/**
 Scoring a demo review: one answer at a time, then the weighted overall score; and why every score
 lies where it should, before and after rounding.
*/
module ReviewScoring {
  import opened Common
  import opened Rounding
  import opened ReviewTemplates

  // ----- Scoring one answer -----

  /** Exact values; the submission stores them rounded. */
  datatype Scored = Scored(code: string, kind: Kind, questionWeight: real, answerWeight: real, possible: real) {
    function Earned(): real { questionWeight * answerWeight }
  }

  datatype SubmitError =
    | AnswerRequired(caption: string)
    | NotNumeric(caption: string)
    | OutOfRange(caption: string)
    | MissingOptions(caption: string)
    | InvalidAnswer(caption: string)

  /** `float(text)`, when the text is a number. */
  type Parser = string -> Option<real>

  function Bound(x: real, low: real, high: real): real {
    var m := if x < high then x else high;
    if m < low then low else m
  }

  /** The nearest point of the scale's grid, to six decimals. */
  function Snap(x: real, low: real, step: real): real
    requires step > 0.0
  {
    Round6(RoundInt((x - low) / step) as real * step + low)
  }

  /** The limits used for scoring, clamped again from the stored question. */
  function ScaleOf(q: Question): (r: (real, real, real))
    ensures 0.0 <= r.0 < r.1 && r.2 >= 0.01
  {
    if q.kind == Star then (1.0, 5.0, 1.0) else
    var low := SafeFloat(Some(q.scaleMin), 1.0, 0.0, None);
    var high := SafeFloat(Some(q.scaleMax), 5.0, 0.01, None);
    var step := SafeFloat(Some(q.scaleStep), 1.0, 0.01, None);
    (low, if high <= low then low + 1.0 else high, step)
  }

  function Fraction(x: real, low: real, high: real): real
    requires low < high
  {
    (x - low) / (high - low)
  }

  function ScoreScale(q: Question, weight: real, answer: string, parse: Parser): Result<Scored, SubmitError> {
    var scale := ScaleOf(q);
    match parse(answer)
    case None => Err(NotNumeric(q.caption))
    case Some(x) =>
      var snapped := Snap(x, scale.0, scale.2);
      if snapped < scale.0 || snapped > scale.1 then Err(OutOfRange(q.caption)) else
      Ok(Scored(q.code, q.kind, weight, Bound(Fraction(snapped, scale.0, scale.1), 0.0, 1.0), weight * 1.0))
  }

  /** The first option with this value, ignoring case. */
  function Match(options: seq<Choice>, answer: string): Option<Choice> {
    if options == [] then None else
    if Lower(options[0].value) == Lower(answer) then Some(options[0]) else Match(options[1..], answer)
  }

  function Matches(options: seq<Choice>, answers: seq<string>): Option<seq<Choice>> {
    if answers == [] then Some([]) else
    match Match(options, answers[0])
    case None => None
    case Some(o) => (match Matches(options, answers[1..]) case None => None case Some(rest) => Some([o] + rest))
  }

  function Joined(found: seq<Choice>, rest: Option<seq<Choice>>): Option<seq<Choice>> {
    match rest case None => None case Some(more) => Some(found + more)
  }

  lemma NextMatch(options: seq<Choice>, answers: seq<string>, i: nat, found: seq<Choice>)
    requires i < |answers|
    ensures Joined(found, Matches(options, answers[i..])) == match Match(options, answers[i])
      case None => None
      case Some(o) => Joined(found + [o], Matches(options, answers[i + 1..]))
  {
    assert answers[i..][0] == answers[i] && answers[i..][1..] == answers[i + 1..];
    var rest := Matches(options, answers[i + 1..]);
    if Match(options, answers[i]).Some? && rest.Some? {
      var o := Match(options, answers[i]).value;
      assert found + ([o] + rest.value) == (found + [o]) + rest.value;
    }
  }

  /** The inner loops of the option branch: every answer must name an option. */
  method MatchAnswers(options: seq<Choice>, answers: seq<string>) returns (r: Option<seq<Choice>>)
    ensures r == Matches(options, answers)
  {
    var matched: seq<Choice> := [];
    ghost var all := Matches(options, answers);
    assert answers[0..] == answers && (all.Some? ==> [] + all.value == all.value);
    for i := 0 to |answers|
      invariant Matches(options, answers) == Joined(matched, Matches(options, answers[i..]))
    {
      NextMatch(options, answers, i, matched);
      var found: Option<Choice> := None;
      for k := 0 to |options|
        invariant found == None
        invariant Match(options, answers[i]) == Match(options[k..], answers[i])
      {
        assert options[k..][1..] == options[k + 1..];
        if Lower(options[k].value) == Lower(answers[i]) {
          found := Some(options[k]);
          break;
        }
      }
      if found.None? {
        return None;
      }
      matched := matched + [found.value];
    }
    assert matched + [] == matched;
    r := Some(matched);
  }

  function TotalWeight(options: seq<Choice>): real {
    if options == [] then 0.0 else SafeFloat(Some(options[0].weight), 0.0, 0.0, Some(100.0)) + TotalWeight(options[1..])
  }

  function Average(options: seq<Choice>): real
    requires options != []
  {
    TotalWeight(options) / |options| as real
  }

  /** A question that takes several answers counts them all; any other counts the first. */
  function Counted(q: Question, answers: seq<string>): seq<string>
    requires answers != []
  {
    if SafeBool(Is(q.allowMultiple), false) && q.kind == Multi then answers else answers[..1]
  }

  /** The points of the heaviest answer. */
  function MostPoints(q: Question, weight: real): real {
    weight * SafeFloat(Some(q.maxAnswerWeight), 1.0, 0.01, None)
  }

  function ScoreOptions(q: Question, weight: real, answers: seq<string>): Result<Scored, SubmitError>
    requires answers != []
  {
    if q.options == [] then Err(MissingOptions(q.caption)) else
    match Matches(q.options, Counted(q, answers))
    case None => Err(InvalidAnswer(q.caption))
    case Some(chosen) =>
      MatchesSize(q.options, Counted(q, answers));
      Ok(Scored(q.code, q.kind, weight, Average(chosen), MostPoints(q, weight)))
  }

  lemma {:induction false} MatchesSize(options: seq<Choice>, answers: seq<string>)
    ensures var m := Matches(options, answers); m.Some? ==> |m.value| == |answers|
  {
    if answers != [] {
      MatchesSize(options, answers[1..]);
    }
  }

  /** One question against its non-blank answers; nothing for a question that is skipped. */
  function ScoreQuestion(q: Question, answers: seq<string>, parse: Parser): Result<Option<Scored>, SubmitError> {
    var weight := SafeFloat(Some(q.weight), 1.0, if NotScored(q.kind) then 0.0 else 0.01, Some(100.0));
    var required := q.kind != Section && SafeBool(Is(q.required), true);
    if q.kind == Section then Ok(None) else
    if answers == [] then (if required then Err(AnswerRequired(q.caption)) else Ok(None)) else
    if ScoredByScale(q.kind) then Present(ScoreScale(q, weight, answers[0], parse)) else
    if ScoredByOption(q.kind) then Present(ScoreOptions(q, weight, answers)) else
    Ok(Some(Scored(q.code, q.kind, weight, 0.0, 0.0)))
  }

  function Present(r: Result<Scored, SubmitError>): Result<Option<Scored>, SubmitError> {
    match r case Err(e) => Err(e) case Ok(a) => Ok(Some(a))
  }

  /** The loop body of `build_submission_from_form` for one question. */
  method ScoreAnswer(q: Question, answers: seq<string>, parse: Parser) returns (r: Result<Option<Scored>, SubmitError>)
    ensures r == ScoreQuestion(q, answers, parse)
  {
    hide ScoreScale, Matches, Average, MostPoints;
    var weight := SafeFloat(Some(q.weight), 1.0, if NotScored(q.kind) then 0.0 else 0.01, Some(100.0));
    var required := SafeBool(Is(q.required), true);
    if q.kind == Section {
      return Ok(None);
    }
    if answers == [] {
      return if required then Err(AnswerRequired(q.caption)) else Ok(None);
    }
    if ScoredByScale(q.kind) {
      return Present(ScoreScale(q, weight, answers[0], parse));
    }
    if !ScoredByOption(q.kind) {
      return Ok(Some(Scored(q.code, q.kind, weight, 0.0, 0.0)));
    }
    if q.options == [] {
      return Err(MissingOptions(q.caption));
    }
    var chosen := MatchAnswers(q.options, Counted(q, answers));
    if chosen.None? {
      return Err(InvalidAnswer(q.caption));
    }
    MatchesSize(q.options, Counted(q, answers));
    r := Ok(Some(Scored(q.code, q.kind, weight, Average(chosen.value), MostPoints(q, weight))));
  }

  // ----- The submission -----

  datatype Row = Row(
    code: string, kind: Kind, questionWeight: real, answerWeight: real,
    weightedScore: real, weightedMax: real, score10: Option<real>)

  datatype Submission = Submission(answers: seq<Row>, overall: real, scoreTotal: real, maxTotal: real)

  /** Ten times the share of the possible points that was earned. */
  function OutOfTen(earned: real, possible: real): real
    requires possible > 0.0
  {
    earned / possible * 10.0
  }

  function Stored(a: Scored): Row {
    Row(a.code, a.kind, a.questionWeight, Round4(a.answerWeight), Round4(a.Earned()), Round4(a.possible),
        if a.possible > 0.0 then Some(Round2(OutOfTen(a.Earned(), a.possible))) else None)
  }

  function TotalEarned(s: seq<Scored>): real {
    if s == [] then 0.0 else TotalEarned(s[..|s| - 1]) + s[|s| - 1].Earned()
  }

  function TotalPossible(s: seq<Scored>): real {
    if s == [] then 0.0 else TotalPossible(s[..|s| - 1]) + s[|s| - 1].possible
  }

  function Overall(s: seq<Scored>): real {
    if TotalPossible(s) > 0.0 then Round2(OutOfTen(TotalEarned(s), TotalPossible(s))) else 0.0
  }

  function SubmissionOf(s: seq<Scored>): Submission {
    Submission(Map(s, Stored), Overall(s), Round4(TotalEarned(s)), Round4(TotalPossible(s)))
  }

  /** The answers given for a question, by its code; blank ones are dropped beforehand. */
  type Form = string -> seq<string>

  /** The scored answers of a form, in question order, or the first question's error. */
  function ScoreAll(questions: seq<Question>, form: Form, parse: Parser): Result<seq<Scored>, SubmitError> {
    if questions == [] then Ok([]) else
    var last := |questions| - 1;
    match ScoreAll(questions[..last], form, parse)
    case Err(e) => Err(e)
    case Ok(before) =>
      match ScoreQuestion(questions[last], form(questions[last].code), parse)
      case Err(e) => Err(e)
      case Ok(None) => Ok(before)
      case Ok(Some(a)) => Ok(before + [a])
  }

  lemma {:induction false} FirstErrorStays(questions: seq<Question>, n: nat, form: Form, parse: Parser)
    requires n <= |questions| && ScoreAll(questions[..n], form, parse).Err?
    ensures ScoreAll(questions, form, parse) == ScoreAll(questions[..n], form, parse)
  {
    if n < |questions| {
      assert questions[..|questions| - 1][..n] == questions[..n];
      FirstErrorStays(questions[..|questions| - 1], n, form, parse);
    } else {
      assert questions[..n] == questions;
    }
  }

  /** One more question scored. */
  lemma NextQuestion(questions: seq<Question>, i: nat, form: Form, parse: Parser)
    requires i < |questions| && ScoreAll(questions[..i], form, parse).Ok?
    ensures ScoreAll(questions[..i + 1], form, parse)
      == var before := ScoreAll(questions[..i], form, parse).value;
         match ScoreQuestion(questions[i], form(questions[i].code), parse)
         case Err(e) => Err(e)
         case Ok(None) => Ok(before)
         case Ok(Some(a)) => Ok(before + [a])
  {
    hide ScoreQuestion;
    assert questions[..i + 1][..i] == questions[..i];
  }

  /** One more answer in the rows and totals. */
  lemma AddAnswer(scored: seq<Scored>, a: Scored)
    ensures Map(scored + [a], Stored) == Map(scored, Stored) + [Stored(a)]
    ensures TotalEarned(scored + [a]) == TotalEarned(scored) + a.Earned()
    ensures TotalPossible(scored + [a]) == TotalPossible(scored) + a.possible
  {
    hide Stored, Scored.Earned;
    assert (scored + [a])[..|scored|] == scored;
  }

  /** `build_submission_from_form`. */
  method BuildSubmission(questions: seq<Question>, form: Form, parse: Parser)
    returns (r: Result<Submission, SubmitError>)
    ensures r == match ScoreAll(questions, form, parse)
      case Err(e) => Err(e)
      case Ok(scored) => Ok(SubmissionOf(scored))
  {
    hide ScoreQuestion, OutOfTen, Stored, Scored.Earned, RoundTo;
    var answers: seq<Row> := [];
    var earned, possible := 0.0, 0.0;
    ghost var scored: seq<Scored> := [];
    for i := 0 to |questions|
      invariant ScoreAll(questions[..i], form, parse) == Ok(scored)
      invariant answers == Map(scored, Stored)
      invariant earned == TotalEarned(scored) && possible == TotalPossible(scored)
    {
      NextQuestion(questions, i, form, parse);
      var q := questions[i];
      var outcome := ScoreAnswer(q, form(q.code), parse);
      if outcome.Err? {
        FirstErrorStays(questions, i + 1, form, parse);
        return Err(outcome.error);
      }
      if outcome.value.Some? {
        var a := outcome.value.value;
        AddAnswer(scored, a);
        earned, possible := earned + a.Earned(), possible + a.possible;
        answers := answers + [Stored(a)];
        scored := scored + [a];
      }
    }
    assert questions[..|questions|] == questions;
    var overall := 0.0;
    if possible > 0.0 {
      overall := Round2(OutOfTen(earned, possible));
    }
    r := Ok(Submission(answers, overall, Round4(earned), Round4(possible)));
  }
}
