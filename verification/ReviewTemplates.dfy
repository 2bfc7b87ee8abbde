/**
 Demo review templates: the three parsers that produce questions, and what every question they
 produce satisfies. Number fields arrive as the number their text denotes, or none if it is not one.
*/
module ReviewTemplates {
  import opened Common

  datatype Kind = Scale | Boolean | Multi | Star | Likert | Dropdown | ShortText | LongText | Section

  predicate ScoredByScale(k: Kind) { k.Scale? || k.Star? }

  predicate ScoredByOption(k: Kind) { k.Boolean? || k.Multi? || k.Likert? || k.Dropdown? }

  predicate NotScored(k: Kind) { k.ShortText? || k.LongText? || k.Section? }

  predicate NeedsTwoOptions(k: Kind) { k.Multi? || k.Dropdown? || k.Likert? }

  datatype Choice = Choice(value: string, caption: string, weight: real)

  datatype Question = Question(
    code: string, caption: string, kind: Kind, weight: real, required: bool,
    scaleMin: real, scaleMax: real, scaleStep: real,
    allowMultiple: bool, maxAnswerWeight: real, options: seq<Choice>)

  // ----- Reading loose values -----

  /** `_safe_float`: the default replaces a non-number, then the lower and the upper bound apply. */
  function SafeFloat(raw: Option<real>, default: real, minimum: real, maximum: Option<real>): (r: real)
    ensures maximum.None? || minimum <= maximum.value ==> r >= minimum
    ensures maximum.Some? ==> r <= maximum.value
    ensures raw.Some? && raw.value >= minimum && (maximum.None? || raw.value <= maximum.value) ==> r == raw.value
  {
    var value := if raw.Some? then raw.value else default;
    var raised := if value < minimum then minimum else value;
    if maximum.Some? && raised > maximum.value then maximum.value else raised
  }

  /** A stored flag: absent, a boolean, or text. */
  datatype Flag = Absent | Is(on: bool) | Says(text: string)

  /** `_safe_bool`: false and absent both read as empty text, which means the default. */
  function SafeBool(raw: Flag, default: bool): bool {
    match raw
    case Absent => default
    case Is(on) => if on then true else default
    case Says(text) => if text == "" then default else text in {"1", "true", "yes", "y", "on"}
  }

  /** A stored boolean survives being read back exactly when it is true or the default is false. */
  lemma FlagSurvivesIff(on: bool, default: bool)
    ensures SafeBool(Is(on), default) == on <==> on || !default
  {
  }

  // ----- Options -----

  function Defaults(k: Kind): (o: seq<Choice>)
    ensures ScoredByOption(k) <==> o != []
    ensures ScoredByOption(k) ==> |o| >= 2
    ensures forall i :: 0 <= i < |o| ==> 0.0 <= o[i].weight <= 100.0 && o[i].caption != ""
  {
    match k
    case Boolean => [Choice("yes", "Yes", 1.0), Choice("no", "No", 0.0)]
    case Multi => [Choice("option_1", "Option 1", 1.0), Choice("option_2", "Option 2", 0.5),
                   Choice("option_3", "Option 3", 0.0)]
    case Likert => [Choice("strongly_disagree", "Strongly Disagree", 1.0), Choice("disagree", "Disagree", 2.0),
                    Choice("neutral", "Neutral", 3.0), Choice("agree", "Agree", 4.0),
                    Choice("strongly_agree", "Strongly Agree", 5.0)]
    case Dropdown => [Choice("option_1", "Option 1", 1.0), Choice("option_2", "Option 2", 0.0)]
    case _ => []
  }

  function Heaviest(options: seq<Choice>): (w: real)
    requires options != []
    ensures forall i :: 0 <= i < |options| ==> options[i].weight <= w
    ensures exists i :: 0 <= i < |options| && options[i].weight == w
  {
    if |options| == 1 then options[0].weight else
    var rest := Heaviest(options[1..]);
    assert forall i :: 1 <= i < |options| ==> options[i] == options[1..][i - 1];
    if options[0].weight < rest then rest else options[0].weight
  }

  function MaxAnswerWeight(k: Kind, options: seq<Choice>): real {
    if ScoredByOption(k) && options != [] then (var w := Heaviest(options); if w < 0.01 then 0.01 else w)
    else if NotScored(k) then 0.0 else 1.0
  }

  predicate WeightsOk(options: seq<Choice>) {
    forall i :: 0 <= i < |options| ==> 0.0 <= options[i].weight <= 100.0
  }

  /** What scoring relies on. */
  predicate WellFormed(q: Question) {
    && 0.01 <= q.weight <= 100.0
    && WeightsOk(q.options)
    && (ScoredByScale(q.kind) ==> 0.0 <= q.scaleMin < q.scaleMax && q.scaleMax >= 0.01 && q.scaleStep >= 0.01)
    && (ScoredByOption(q.kind) ==>
          && q.options != []
          && q.maxAnswerWeight >= 0.01
          && forall i :: 0 <= i < |q.options| ==> q.options[i].weight <= q.maxAnswerWeight)
  }

  predicate AllWellFormed(qs: seq<Question>) {
    forall i :: 0 <= i < |qs| ==> WellFormed(qs[i])
  }

  // ----- Collecting questions -----

  /** The values present, in order: what a loop that skips or appends builds. */
  function Somes<T>(s: seq<Option<T>>): seq<T> {
    if s == [] then [] else (if s[0].Some? then [s[0].value] else []) + Somes(s[1..])
  }

  lemma {:induction false} SomesAppend<T>(a: seq<Option<T>>, b: seq<Option<T>>)
    ensures Somes(a + b) == Somes(a) + Somes(b)
  {
    if a == [] {
      assert a + b == b;
    } else {
      var head := if a[0].Some? then [a[0].value] else [];
      assert (a + b)[0] == a[0] && (a + b)[1..] == a[1..] + b;
      SomesAppend(a[1..], b);
      assert head + (Somes(a[1..]) + Somes(b)) == (head + Somes(a[1..])) + Somes(b);
    }
  }

  function Map<S, T>(s: seq<S>, f: S -> T): (r: seq<T>)
    ensures |r| == |s| && forall i :: 0 <= i < |s| ==> r[i] == f(s[i])
  {
    seq(|s|, i requires 0 <= i < |s| => f(s[i]))
  }

  lemma {:induction false} SomesWellFormed(s: seq<Option<Question>>)
    requires forall i :: 0 <= i < |s| && s[i].Some? ==> WellFormed(s[i].value)
    ensures AllWellFormed(Somes(s))
  {
    if s != [] {
      SomesWellFormed(s[1..]);
    }
  }

  /** One more item taken by such a loop. */
  lemma NextSome<S, T>(s: seq<S>, f: S -> Option<T>, i: nat)
    requires i < |s|
    ensures Somes(Map(s[..i + 1], f))
      == Somes(Map(s[..i], f)) + if f(s[i]).Some? then [f(s[i]).value] else []
  {
    assert Map(s[..i + 1], f) == Map(s[..i], f) + [f(s[i])];
    SomesAppend(Map(s[..i], f), [f(s[i])]);
  }

  // ----- Version 1 templates -----

  datatype Criterion = NotACriterion | Criterion(code: string, caption: string, maxScore: Option<real>)

  function V1Question(): Criterion -> Option<Question> {
    (c: Criterion) =>
      if c.NotACriterion? || Strip(c.caption) == "" then None else
      var top := SafeFloat(c.maxScore, 10.0, 1.0, Some(100.0));
      Some(Question(c.code, Strip(c.caption), Scale, 1.0, true, 0.0, top, 0.1, false, 1.0, []))
  }

  function V1Questions(criteria: seq<Criterion>): seq<Question> {
    Somes(Map(criteria, V1Question()))
  }

  /** `_parse_template_v1`: no template when no criterion yields a question. */
  method ParseV1(criteria: seq<Criterion>) returns (r: Option<seq<Question>>)
    ensures r == if V1Questions(criteria) == [] then None else Some(V1Questions(criteria))
  {
    var questions: seq<Question> := [];
    for i := 0 to |criteria|
      invariant questions == Somes(Map(criteria[..i], V1Question()))
    {
      NextSome(criteria, V1Question(), i);
      var c := criteria[i];
      if c.Criterion? && Strip(c.caption) != "" {
        var top := SafeFloat(c.maxScore, 10.0, 1.0, Some(100.0));
        questions := questions + [Question(c.code, Strip(c.caption), Scale, 1.0, true, 0.0, top, 0.1, false, 1.0, [])];
      }
    }
    assert criteria[..|criteria|] == criteria;
    r := if questions == [] then None else Some(questions);
  }

  // ----- Version 2 templates -----

  datatype RawOption = NotAnOption | RawOption(value: string, caption: string, weight: Option<real>)

  datatype Item = NotAnItem | Item(
    code: string, caption: string, kind: Option<Kind>, weight: Option<real>, required: Flag,
    scaleMin: Option<real>, scaleMax: Option<real>, scaleStep: Option<real>,
    allowMultiple: Flag, options: seq<RawOption>)

  function V2Choice(): RawOption -> Option<Choice> {
    (o: RawOption) =>
      if o.NotAnOption? || o.caption == "" then None
      else Some(Choice(Lower(o.value), o.caption, SafeFloat(o.weight, 0.0, 0.0, Some(100.0))))
  }

  function V2Choices(options: seq<RawOption>): seq<Choice> {
    Somes(Map(options, V2Choice()))
  }

  lemma {:induction false} V2ChoicesOk(options: seq<RawOption>)
    ensures WeightsOk(V2Choices(options))
  {
    if options != [] {
      V2ChoicesOk(options[1..]);
      assert Map(options, V2Choice())[1..] == Map(options[1..], V2Choice());
    }
  }

  method ParseOptions(options: seq<RawOption>) returns (r: seq<Choice>)
    ensures r == V2Choices(options)
  {
    r := [];
    for i := 0 to |options|
      invariant r == Somes(Map(options[..i], V2Choice()))
    {
      NextSome(options, V2Choice(), i);
      var o := options[i];
      if o.RawOption? && o.caption != "" {
        r := r + [Choice(Lower(o.value), o.caption, SafeFloat(o.weight, 0.0, 0.0, Some(100.0)))];
      }
    }
    assert options[..|options|] == options;
  }

  /** The limits of a scale: an empty range is widened by one, and stars are always 1 to 5. */
  function V2Scale(item: Item, k: Kind): (r: (real, real, real))
    requires item.Item?
    ensures 0.0 <= r.0 < r.1 && r.1 >= 0.01 && r.2 >= 0.01
  {
    if k == Star then (1.0, 5.0, 1.0) else
    var low := SafeFloat(item.scaleMin, 1.0, 0.0, Some(1000.0));
    var high := SafeFloat(item.scaleMax, 5.0, 0.01, Some(1000.0));
    var step := SafeFloat(item.scaleStep, 1.0, 0.01, Some(100.0));
    (low, if high <= low then low + 1.0 else high, step)
  }

  function V2With(item: Item, options: seq<Choice>): Option<Question>
    requires item.Item?
  {
    var k := if item.kind.Some? then item.kind.value else Scale;
    var weight := SafeFloat(item.weight, 1.0, 0.01, Some(100.0));
    var required := k != Section && SafeBool(item.required, true);
    var allowMultiple := k == Multi && SafeBool(item.allowMultiple, false);
    var scale := V2Scale(item, k);
    var filled := if ScoredByOption(k) && options == [] then Defaults(k) else options;
    if NeedsTwoOptions(k) && |filled| < 2 then None else
    Some(Question(item.code, Strip(item.caption), k, weight, required, scale.0, scale.1, scale.2,
                  allowMultiple, MaxAnswerWeight(k, filled), filled))
  }

  function V2Question(): Item -> Option<Question> {
    (item: Item) =>
      if item.NotAnItem? || Strip(item.caption) == "" then None else V2With(item, V2Choices(item.options))
  }

  function V2Questions(items: seq<Item>): seq<Question> {
    Somes(Map(items, V2Question()))
  }

  method ParseV2(items: seq<Item>) returns (r: Option<seq<Question>>)
    ensures r == if V2Questions(items) == [] then None else Some(V2Questions(items))
  {
    var questions: seq<Question> := [];
    for i := 0 to |items|
      invariant questions == Somes(Map(items[..i], V2Question()))
    {
      NextSome(items, V2Question(), i);
      var item := items[i];
      if item.Item? && Strip(item.caption) != "" {
        var options := ParseOptions(item.options);
        var parsed := V2With(item, options);
        if parsed.Some? {
          questions := questions + [parsed.value];
        }
      }
    }
    assert items[..|items|] == items;
    r := if questions == [] then None else Some(questions);
  }

  // ----- Templates entered in the form -----

  datatype FormOption = FormOption(value: string, caption: string)

  datatype FormRow = FormRow(
    code: string, caption: string, kind: Option<Kind>, weight: Option<real>, required: Flag,
    scaleMin: Option<real>, scaleMax: Option<real>, scaleStep: Option<real>,
    allowMultiple: Flag, options: seq<FormOption>, optionWeights: seq<Option<real>>)

  datatype FormError =
    | ScaleRange(caption: string)
    | TwoOptions(caption: string)
    | WeightCount(caption: string)
    | NoQuestions

  /** Without weights every option weighs 1, except the second of a yes/no question. */
  function FormWeight(k: Kind, n: nat, weights: seq<Option<real>>, i: nat): Option<real>
    requires i < n && (weights == [] || |weights| == n)
  {
    if weights != [] then weights[i] else Some(if k == Boolean && n >= 2 && i == 1 then 0.0 else 1.0)
  }

  function FormChoices(row: FormRow, k: Kind): (r: seq<Choice>)
    requires row.optionWeights == [] || |row.optionWeights| == |row.options|
    ensures |r| == |row.options| && WeightsOk(r)
  {
    seq(|row.options|, i requires 0 <= i < |row.options| =>
      Choice(row.options[i].value, row.options[i].caption,
             SafeFloat(FormWeight(k, |row.options|, row.optionWeights, i), 0.0, 0.0, Some(100.0))))
  }

  function FormOptions(row: FormRow, k: Kind): (r: Result<seq<Choice>, FormError>)
    ensures r.Ok? ==> WeightsOk(r.value) && (ScoredByOption(k) <==> r.value != [])
    ensures r.Ok? && NeedsTwoOptions(k) ==> |r.value| >= 2
  {
    if !ScoredByOption(k) then Ok([]) else
    if row.options == [] then Ok(Defaults(k)) else
    if NeedsTwoOptions(k) && |row.options| < 2 then Err(TwoOptions(Strip(row.caption))) else
    if row.optionWeights != [] && |row.optionWeights| != |row.options| then Err(WeightCount(Strip(row.caption))) else
    Ok(FormChoices(row, k))
  }

  /** Labels are cut at this length when they are stored. */
  const LABEL_LIMIT := 160

  function FormQuestion(row: FormRow): Result<Question, FormError> {
    var k := if row.kind.Some? then row.kind.value else Scale;
    var low := SafeFloat(row.scaleMin, 1.0, 0.0, Some(1000.0));
    var high := SafeFloat(row.scaleMax, 5.0, 0.01, Some(1000.0));
    if high <= low && ScoredByScale(k) then Err(ScaleRange(Strip(row.caption))) else
    var step := SafeFloat(row.scaleStep, 1.0, 0.01, Some(100.0));
    var scale := if k == Star then (1.0, 5.0, 1.0) else (low, high, step);
    match FormOptions(row, k)
    case Err(e) => Err(e)
    case Ok(options) =>
      Ok(Question(row.code, Cut(Strip(row.caption), LABEL_LIMIT), k, SafeFloat(row.weight, 1.0, 0.01, Some(100.0)),
                  k != Section && SafeBool(row.required, true), scale.0, scale.1, scale.2,
                  k == Multi && SafeBool(row.allowMultiple, false), MaxAnswerWeight(k, options), options))
  }

  /** The questions of the labelled rows, or the first row's error. */
  function FormQuestions(rows: seq<FormRow>): Result<seq<Question>, FormError> {
    if rows == [] then Ok([]) else
    if Strip(rows[0].caption) == "" then FormQuestions(rows[1..]) else
    match FormQuestion(rows[0])
    case Err(e) => Err(e)
    case Ok(q) =>
      match FormQuestions(rows[1..])
      case Err(e) => Err(e)
      case Ok(rest) => Ok([q] + rest)
  }

  function Before(found: seq<Question>, r: Result<seq<Question>, FormError>): Result<seq<Question>, FormError> {
    match r case Err(e) => Err(e) case Ok(rest) => Ok(found + rest)
  }

  /** One more labelled row taken by the loop. */
  lemma NextRow(rows: seq<FormRow>, i: nat, found: seq<Question>)
    requires i < |rows| && Strip(rows[i].caption) != "" && FormQuestion(rows[i]).Ok?
    ensures Before(found, FormQuestions(rows[i..]))
      == Before(found + [FormQuestion(rows[i]).value], FormQuestions(rows[i + 1..]))
  {
    hide FormQuestion;
    var q, rest := FormQuestion(rows[i]).value, FormQuestions(rows[i + 1..]);
    assert rows[i..][0] == rows[i] && rows[i..][1..] == rows[i + 1..];
    if rest.Ok? {
      assert found + ([q] + rest.value) == (found + [q]) + rest.value;
    }
  }

  method ParseForm(rows: seq<FormRow>) returns (r: Result<seq<Question>, FormError>)
    ensures r == match FormQuestions(rows)
      case Err(e) => Err(e)
      case Ok(questions) => if questions == [] then Err(NoQuestions) else Ok(questions)
  {
    hide FormQuestion;
    var questions: seq<Question> := [];
    ghost var all := FormQuestions(rows);
    assert rows[0..] == rows && (all.Ok? ==> [] + all.value == all.value);
    for i := 0 to |rows|
      invariant FormQuestions(rows) == Before(questions, FormQuestions(rows[i..]))
    {
      assert rows[i..][0] == rows[i] && rows[i..][1..] == rows[i + 1..];
      if Strip(rows[i].caption) != "" {
        var parsed := FormQuestion(rows[i]);
        if parsed.Err? {
          return Err(parsed.error);
        }
        NextRow(rows, i, questions);
        questions := questions + [parsed.value];
      }
    }
    assert rows[|rows|..] == [] && questions + [] == questions;
    if questions == [] {
      return Err(NoQuestions);
    }
    r := Ok(questions);
  }

  // ----- Every parsed question is well formed -----

  lemma V1WellFormed(criteria: seq<Criterion>)
    ensures AllWellFormed(V1Questions(criteria))
  {
    SomesWellFormed(Map(criteria, V1Question()));
  }

  lemma V2WithWellFormed(item: Item)
    requires item.Item?
    ensures var r := V2With(item, V2Choices(item.options)); r.Some? ==> WellFormed(r.value)
  {
    V2ChoicesOk(item.options);
  }

  lemma V2WellFormed(items: seq<Item>)
    ensures AllWellFormed(V2Questions(items))
  {
    forall i | 0 <= i < |items| && V2Question()(items[i]).Some? ensures WellFormed(V2Question()(items[i]).value) {
      V2WithWellFormed(items[i]);
    }
    SomesWellFormed(Map(items, V2Question()));
  }

  lemma FormQuestionWellFormed(row: FormRow)
    ensures var r := FormQuestion(row); r.Ok? ==> WellFormed(r.value)
  {
  }

  lemma {:induction false} FormWellFormed(rows: seq<FormRow>)
    ensures var r := FormQuestions(rows); r.Ok? ==> AllWellFormed(r.value)
  {
    if rows != [] {
      FormWellFormed(rows[1..]);
      FormQuestionWellFormed(rows[0]);
    }
  }
}
