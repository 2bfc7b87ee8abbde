/**
 What a copied or deleted template still scores. Its questions are stored as they were read and are
 read again, which changes no score unless it cuts a scale; the operations never produce such a scale.
*/
module TemplateCopies {
  import opened Common
  import opened ReviewTemplates
  import opened ReviewScoring
  import opened Rounding
  import opened ReviewBounds
  import opened TemplateLibrary
  import opened TemplateHistory

  // ----- Stored again, questions score as before -----

  /** Scales are cut at 1000 when they are read, unless they start there. */
  predicate Stable(q: Question) {
    q.kind == Scale && q.scaleMax > 1000.0 ==> q.scaleMin == 1000.0
  }

  predicate AllStable(qs: seq<Question>) {
    forall i :: 0 <= i < |qs| ==> Stable(qs[i])
  }

  lemma {:induction false} ChoicesAreLower(options: seq<RawOption>)
    ensures Lowered(V2Choices(options)) == V2Choices(options)
  {
    if options != [] {
      ChoicesAreLower(options[1..]);
      assert Map(options, V2Choice())[1..] == Map(options[1..], V2Choice());
      var first, rest := V2Choice()(options[0]), V2Choices(options[1..]);
      if first.Some? {
        LowerTwice(options[0].value);
        assert V2Choices(options) == [first.value] + rest;
        assert Lowered([first.value] + rest) == [LowerValue()(first.value)] + Lowered(rest);
      } else {
        assert V2Choices(options) == [] + rest == rest;
      }
    }
  }

  lemma OptionsAreLower()
    ensures Lower("option_1") == "option_1" && Lower("option_2") == "option_2" && Lower("option_3") == "option_3"
  {
  }

  lemma LikertIsLower()
    ensures Lower("strongly_disagree") == "strongly_disagree" && Lower("disagree") == "disagree"
    ensures Lower("neutral") == "neutral" && Lower("agree") == "agree" && Lower("strongly_agree") == "strongly_agree"
  {
  }

  lemma DefaultsAreLower(k: Kind)
    ensures Lowered(Defaults(k)) == Defaults(k)
  {
    match k
    case Boolean => assert Lower("yes") == "yes" && Lower("no") == "no";
    case Multi => OptionsAreLower();
    case Dropdown => OptionsAreLower();
    case Likert => LikertIsLower();
    case _ =>
  }

  /** What reading yields has lower-case option values. */
  lemma ReadIsLower(item: Item)
    requires V2Question()(item).Some?
    ensures var q := V2Question()(item).value; Lowered(q.options) == q.options
  {
    hide Lowered, V2Choices, Defaults;
    ChoicesAreLower(item.options);
    DefaultsAreLower(V2Question()(item).value.kind);
  }

  /** A question that was read scores the same when stored and read again exactly when its scale is not cut. */
  lemma ReadAgainIff(item: Item)
    requires V2Question()(item).Some?
    ensures var q := V2Question()(item).value;
      var back := V2Question()(StoredItem(q));
      && back.Some?
      && (ScoreAlike(back.value, q) <==> Stable(q))
      && (Stable(q) ==> Stable(back.value))
  {
    hide Lowered, Heaviest, Strip, V2Choices, Defaults;
    var q := V2Question()(item).value;
    ParsedIsStorable(item);
    ReadIsLower(item);
    StripTwice(item.caption);
    OptionsReadBack(q.options);
  }

  /** A scale that is cut has a width of 1 and ends at 1000 afterwards; nothing else changes. */
  lemma CutScale(item: Item)
    requires V2Question()(item).Some? && !Stable(V2Question()(item).value)
    ensures var q := V2Question()(item).value;
      var back := V2Question()(StoredItem(q));
      && back.Some?
      && 999.0 < q.scaleMin < 1000.0 && q.scaleMax == q.scaleMin + 1.0 && q.scaleStep >= 0.01
      && back.value.(scaleMax := q.scaleMax, required := q.required) == q && back.value.scaleMax == 1000.0
  {
    hide Lowered, Heaviest, Strip, V2Choices, Defaults;
    var q := V2Question()(item).value;
    ParsedIsStorable(item);
    ReadIsLower(item);
    StripTwice(item.caption);
    OptionsReadBack(q.options);
  }

  /** Some answer lands above the bottom of the scale. */
  ghost predicate CanScore(q: Question) {
    q.scaleStep > 0.0 && exists x: real :: q.scaleMin < Snap(x, q.scaleMin, q.scaleStep) <= q.scaleMax
  }

  /** An answer to a cut scale scores otherwise exactly when it lands above the bottom. */
  lemma CutAnswerIff(q: Question, p: Question, weight: real, answer: string, parse: Parser)
    requires q.kind == Scale && 999.0 < q.scaleMin < 1000.0 && q.scaleMax == q.scaleMin + 1.0 && q.scaleStep >= 0.01
    requires p.(scaleMax := q.scaleMax, required := q.required) == q && p.scaleMax == 1000.0
    ensures ScoreScale(p, weight, answer, parse) != ScoreScale(q, weight, answer, parse) <==>
      parse(answer).Some? && q.scaleMin < Snap(parse(answer).value, q.scaleMin, q.scaleStep) <= q.scaleMax
  {
    hide Snap, Bound, Fraction, ScaleOf;
    CutLimits(q, p);
    if parse(answer).Some? {
      var x := Snap(parse(answer).value, q.scaleMin, q.scaleStep);
      if q.scaleMin <= x <= 1000.0 {
        CutFraction(x, q.scaleMin);
      }
    }
  }

  lemma CutLimits(q: Question, p: Question)
    requires q.kind == Scale && 999.0 < q.scaleMin < 1000.0 && q.scaleMax == q.scaleMin + 1.0 && q.scaleStep >= 0.01
    requires p.(scaleMax := q.scaleMax, required := q.required) == q && p.scaleMax == 1000.0
    ensures ScaleOf(q) == (q.scaleMin, q.scaleMin + 1.0, q.scaleStep)
    ensures ScaleOf(p) == (q.scaleMin, 1000.0, q.scaleStep)
  {
  }

  /** The same place on the two scales scores alike at the bottom only. */
  lemma CutFraction(x: real, low: real)
    requires 999.0 < low < 1000.0 && low <= x <= 1000.0
    ensures Bound(Fraction(x, low, 1000.0), 0.0, 1.0) == Bound(Fraction(x, low, low + 1.0), 0.0, 1.0) <==> x == low
  {
    assert Fraction(x, low, low + 1.0) == x - low;
    if x > low {
      Wider(x - low, 1000.0 - low);
    }
  }

  lemma Wider(d: real, width: real)
    requires 0.0 < d <= width < 1.0
    ensures d < d / width <= 1.0
  {
    Quotients(d, width - d, width);
    Itself(width);
    Quotient(d, width);
    TimesLess(d / width, width);
  }

  function Times(f: real, width: real): real { f * width }

  lemma TimesLess(f: real, width: real)
    requires f > 0.0 && 0.0 < width < 1.0
    ensures Times(f, width) < f
  {
    var rest := 1.0 - width;
    assert f * rest > 0.0;
    Distribute(f, width, rest);
    assert width + rest == 1.0 && f * 1.0 == f;
  }

  lemma Quotient(d: real, width: real)
    requires d > 0.0 && width > 0.0
    ensures d / width > 0.0 && Times(d / width, width) == d
  {
  }

  /**
   A question that was read, stored and read again scores every answer as before if and only if its
   scale is not cut, or no answer lands above its bottom.
  */
  lemma ScoresSameIff(item: Item)
    requires V2Question()(item).Some?
    ensures var q := V2Question()(item).value;
      var back := V2Question()(StoredItem(q));
      && back.Some?
      && ((forall answers, parse :: ScoreQuestion(back.value, answers, parse) == ScoreQuestion(q, answers, parse))
          <==> Stable(q) || !CanScore(q))
  {
    hide ScoreAlike, ScoreScale, ScoreOptions, V2Question, CanScore;
    ReadAgainIff(item);
    var q, back := V2Question()(item).value, V2Question()(StoredItem(V2Question()(item).value)).value;
    if Stable(q) {
      forall answers, parse ensures ScoreQuestion(back, answers, parse) == ScoreQuestion(q, answers, parse) {
        AlikeScores(back, q, answers, parse);
      }
    } else {
      CutScale(item);
      CutScoresSameIff(q, back);
    }
  }

  lemma CutScoresSameIff(q: Question, p: Question)
    requires q.kind == Scale && 999.0 < q.scaleMin < 1000.0 && q.scaleMax == q.scaleMin + 1.0 && q.scaleStep >= 0.01
    requires p.(scaleMax := q.scaleMax, required := q.required) == q && p.scaleMax == 1000.0
    ensures (forall answers, parse :: ScoreQuestion(p, answers, parse) == ScoreQuestion(q, answers, parse))
      <==> !CanScore(q)
  {
    hide ScoreScale, ScoreOptions, Snap;
    var weight := SafeFloat(Some(q.weight), 1.0, 0.01, Some(100.0));
    if CanScore(q) {
      var x: real :| q.scaleMin < Snap(x, q.scaleMin, q.scaleStep) <= q.scaleMax;
      var parse: Parser := (_: string) => Some(x);
      CutAnswerIff(q, p, weight, "", parse);
      assert ScoreQuestion(p, [""], parse) != ScoreQuestion(q, [""], parse);
    } else {
      forall answers: seq<string>, parse: Parser
        ensures ScoreQuestion(p, answers, parse) == ScoreQuestion(q, answers, parse)
      {
        if answers != [] {
          CutAnswerIff(q, p, weight, answers[0], parse);
        }
      }
    }
  }

  lemma NothingStored()
    ensures V2Questions([]) == [] && V2Questions(StoredItems([])) == []
  {
  }

  lemma ReadFirst(items: seq<Item>)
    requires items != []
    ensures var q := V2Question()(items[0]);
      V2Questions(items) == (if q.Some? then [q.value] else []) + V2Questions(items[1..])
  {
    assert Map(items, V2Question())[1..] == Map(items[1..], V2Question());
  }

  lemma {:induction false} ReadAllAgain(items: seq<Item>)
    ensures var qs := V2Questions(items);
      var back := V2Questions(StoredItems(qs));
      && |back| == |qs|
      && forall i :: 0 <= i < |qs| ==>
           (ScoreAlike(back[i], qs[i]) <==> Stable(qs[i])) && (Stable(qs[i]) ==> Stable(back[i]))
  {
    hide ScoreAlike, Stable, V2Question, StoredItems;
    if items == [] {
      NothingStored();
    } else {
      ReadAllAgain(items[1..]);
      ReadFirst(items);
      var rest := V2Questions(items[1..]);
      if V2Question()(items[0]).Some? {
        var q := V2Question()(items[0]).value;
        ReadAgainIff(items[0]);
        StoredFirst(q, rest);
      } else {
        assert V2Questions(items) == rest;
      }
    }
  }

  lemma StoredFirst(q: Question, rest: seq<Question>)
    requires V2Question()(StoredItem(q)).Some?
    ensures V2Questions(StoredItems([q] + rest)) == [V2Question()(StoredItem(q)).value] + V2Questions(StoredItems(rest))
  {
    hide V2Question, StoredItem;
    var items := StoredItems([q] + rest);
    assert items == [StoredItem(q)] + StoredItems(rest);
    assert items[1..] == StoredItems(rest);
    ReadFirst(items);
  }

  lemma {:induction false} AllAlikeScore(p: seq<Question>, q: seq<Question>, form: Form, parse: Parser)
    requires |p| == |q| && forall i :: 0 <= i < |p| ==> ScoreAlike(p[i], q[i])
    ensures ScoreAll(p, form, parse) == ScoreAll(q, form, parse)
  {
    hide ScoreQuestion;
    if p != [] {
      var last := |p| - 1;
      AllAlikeScore(p[..last], q[..last], form, parse);
      AlikeScores(p[last], q[last], form(q[last].code), parse);
    }
  }

  /** Every form filled in is scored alike, or in error alike. */
  ghost predicate ScoreTheSame(p: seq<Question>, q: seq<Question>) {
    forall form, parse :: ScoreAll(p, form, parse) == ScoreAll(q, form, parse)
  }

  lemma StoredAgainScoresTheSame(items: seq<Item>)
    requires AllStable(V2Questions(items))
    ensures ScoreTheSame(V2Questions(StoredItems(V2Questions(items))), V2Questions(items))
    ensures AllStable(V2Questions(StoredItems(V2Questions(items))))
  {
    hide V2Questions, StoredItems, ScoreAll, ScoreAlike;
    ReadAllAgain(items);
    var qs := V2Questions(items);
    var back := V2Questions(StoredItems(qs));
    forall form, parse ensures ScoreAll(back, form, parse) == ScoreAll(qs, form, parse) {
      AllAlikeScore(back, qs, form, parse);
    }
  }

  lemma {:induction false} FormIsStable(rows: seq<FormRow>)
    requires TokensOk(rows) && FormQuestions(rows).Ok?
    ensures AllStable(V2Questions(StoredItems(FormQuestions(rows).value)))
  {
    hide Stable, FormQuestion;
    if rows != [] {
      FormIsStable(rows[1..]);
      if Strip(rows[0].caption) != "" {
        FormRowIsStable(rows[0]);
        StoredFirst(FormQuestion(rows[0]).value, FormQuestions(rows[1..]).value);
      }
    }
  }

  lemma FormRowIsStable(row: FormRow)
    requires Strip(row.caption) != "" && FormQuestion(row).Ok? && forall o <- row.options :: o.caption != ""
    ensures var back := V2Question()(StoredItem(FormQuestion(row).value)); back.Some? && Stable(back.value)
  {
    ReadsBackAlike(row);
  }

  ghost predicate LogStable(notes: seq<Note>) {
    forall n <- notes :: AllStable(V2Questions(n.items))
  }

  lemma LatestIsLast(notes: seq<Note>, key: string)
    requires LogOk(notes) && |notes| <= ROW_LIMIT && Lookup(notes, key).Some?
    ensures exists n <- notes :: n.key == key && Lookup(notes, key).value.latest == TemplateOf(n)
  {
    hide Lookup, LogOk, Rows, Catalogue, FindEntry, TemplateOf;
    CatalogueShowsLast(notes, key);
    HistoryIs(notes, key);
    var h := History(notes, key);
    assert h[|h| - 1] in notes;
  }

  /** The operations write stable questions only. */
  lemma {:induction false} StepKeepsStable(notes: seq<Note>, op: Op)
    requires LogOk(notes) && Ready(notes, op) && LogStable(notes)
    ensures LogStable(After(notes, op))
  {
    hide Lookup, LogOk, FormQuestions, StoredItems, V2Questions, AllStable;
    var after := After(notes, op);
    if after != notes {
      var items := after[|notes|].items;
      if op.SaveOp? {
        FormIsStable(op.d.rows);
      } else {
        LatestIsLast(notes, op.key);
        var n :| n in notes && n.key == op.key && Lookup(notes, op.key).value.latest == TemplateOf(n);
        StoredAgainScoresTheSame(n.items);
      }
      assert AllStable(V2Questions(items));
    }
  }

  lemma {:induction false} RunKeepsStable(notes: seq<Note>, ops: seq<Op>)
    requires LogOk(notes) && LogStable(notes) && ReadyRun(notes, ops)
    ensures LogStable(Run(notes, ops))
    decreases |ops|
  {
    hide LogOk, LogStable, Ready, After;
    if ops != [] {
      StepKeepsLog(notes, ops[0]);
      StepKeepsStable(notes, ops[0]);
      RunKeepsStable(After(notes, ops[0]), ops[1..]);
    }
  }

  function SizeQuestion(top: real): Question {
    Question("a", "Size", Scale, 1.0, true, 999.5, top, 0.5, false, 1.0, [])
  }

  function SizeItem(required: Flag, top: real): Item {
    Item("a", "Size", Some(Scale), Some(1.0), required, Some(999.5), Some(top), Some(0.5), Is(false), [])
  }

  lemma SizeIsRead(required: Flag, top: real)
    requires required == Absent || required == Is(true)
    ensures V2Questions([SizeItem(required, top)])
      == [SizeQuestion(if top <= 999.5 then 1000.5 else if top > 1000.0 then 1000.0 else top)]
  {
    var item := SizeItem(required, top);
    TrimLeftStarts("Size");
    assert Strip("Size") == "Size";
    assert V2Choices([]) == [];
    ReadFirst([item]);
    assert [item][1..] == [] && V2Questions([]) == [];
  }

  lemma SizeScores(top: real, parse: Parser)
    requires 1000.0 <= top <= 1000.5 && parse("x") == Some(1000.0)
    ensures ScoreQuestion(SizeQuestion(top), ["x"], parse)
      == Ok(Some(Scored("a", Scale, 1.0, 0.5 / (top - 999.5), 1.0)))
  {
    assert RoundInt(1.0) == 1;
    assert Snap(1000.0, 999.5, 0.5) == 1000.0;
  }

  /** A scale that is read as 999.5 to 1000.5 is narrowed by a copy: 1000 scores half before and in full after. */
  lemma CopyCanNarrowScale(parse: Parser)
    requires parse("x") == Some(1000.0)
    ensures
      var qs := V2Questions([SizeItem(Absent, 5.0)]);
      var back := V2Questions(StoredItems(qs));
      && |qs| == |back| == 1
      && ScoreQuestion(qs[0], ["x"], parse) == Ok(Some(Scored("a", Scale, 1.0, 0.5, 1.0)))
      && ScoreQuestion(back[0], ["x"], parse) == Ok(Some(Scored("a", Scale, 1.0, 1.0, 1.0)))
  {
    hide ScoreQuestion, V2Questions;
    SizeIsRead(Absent, 5.0);
    SizeIsRead(Is(true), 1000.5);
    var q := SizeQuestion(1000.5);
    assert StoredItems([q]) == [StoredItem(q)] && Map(q.options, StoredChoice()) == [];
    SizeScores(1000.5, parse);
    SizeScores(1000.0, parse);
  }

  // ----- Copies and deleted records in the log -----

  lemma CopyTitleIsKept(title: string)
    ensures Strip(CopyTitle(title)) != ""
  {
    var full := "Copy of " + title;
    TrimRightIsPrefix(full);
    assert TrimLeft(full) == full;
    StripStarts(full);
    CutKeepsStart(Strip(full), 140);
  }

  lemma LatestTitle(notes: seq<Note>, key: string)
    requires LogOk(notes) && |notes| <= ROW_LIMIT && Lookup(notes, key).Some?
    ensures var title := Lookup(notes, key).value.latest.title; Strip(title) == title != ""
  {
    hide Lookup, LogOk, V2Questions;
    LatestIsLast(notes, key);
    var n :| n in notes && n.key == key && Lookup(notes, key).value.latest == TemplateOf(n);
    StripTwice(n.title);
    DefaultTitle();
  }

  lemma DefaultTitle()
    ensures Strip("Demo Review Form") == "Demo Review Form"
  {
  }

  /** The latest record's questions, stored again. */
  lemma LatestStoredAgain(notes: seq<Note>, key: string)
    requires LogOk(notes) && |notes| <= ROW_LIMIT && Lookup(notes, key).Some?
    ensures var qs := Lookup(notes, key).value.latest.questions;
      AllStable(qs) ==> ScoreTheSame(V2Questions(StoredItems(qs)), qs)
  {
    hide Lookup, LogOk, V2Questions, StoredItems, AllStable, ScoreTheSame;
    LatestIsLast(notes, key);
    var n :| n in notes && n.key == key && Lookup(notes, key).value.latest == TemplateOf(n);
    if AllStable(V2Questions(n.items)) {
      StoredAgainScoresTheSame(n.items);
    }
  }

  /** A copy is active at version 1 under its own key, with the stored questions of the original. */
  lemma {:induction false} CopiedIsActive(notes: seq<Note>, key: string, newKey: string, now: int)
    requires LogOk(notes) && |notes| < ROW_LIMIT && IsNew(notes, newKey)
    ensures var source := Lookup(notes, key);
      var entry := FindEntry(Catalogue(Rows(AfterCopy(notes, key, newKey, now)), false), newKey);
      source.Some? ==>
        && entry.Some?
        && entry.value.version == 1
        && entry.value.latest.title == Strip(CopyTitle(source.value.latest.title))
        && |entry.value.latest.questions| == |source.value.latest.questions|
        && (AllStable(source.value.latest.questions) ==>
              ScoreTheSame(entry.value.latest.questions, source.value.latest.questions))
  {
    hide Lookup, LogOk, StoredItems, Rows, Catalogue, FindEntry, V2Questions, AllStable, ScoreTheSame, CopyTitle;
    if Lookup(notes, key).Some? {
      LatestStoredAgain(notes, key);
      CopyTitleIsKept(Lookup(notes, key).value.latest.title);
      var after := AfterCopy(notes, key, newKey, now);
      CopyKeepsLog(notes, key, newKey, now);
      NewHasNoHistory(notes, newKey);
      HistoryAppend(notes, after[|notes|], newKey);
      CatalogueShowsLast(after, newKey);
      CatalogueShowsLast(notes, key);
      LastIsStorable(notes, key);
      StoredAreKept(Lookup(notes, key).value.latest.questions);
    }
  }

  /** A deleted key is listed no more, but its record stays and scores every form as before. */
  lemma {:induction false} DeletedIsHidden(notes: seq<Note>, key: string, now: int)
    requires LogOk(notes) && |notes| < ROW_LIMIT
    ensures var after := AfterDelete(notes, key, now);
      && FindEntry(Catalogue(Rows(after), false), key) == None
      && Lookup(after, key).Some? == Lookup(notes, key).Some?
      && (Lookup(notes, key).Some? ==>
            && Lookup(after, key).value.status == "deleted"
            && Lookup(after, key).value.latest.title == Lookup(notes, key).value.latest.title
            && |Lookup(after, key).value.latest.questions| == |Lookup(notes, key).value.latest.questions|
            && (AllStable(Lookup(notes, key).value.latest.questions) ==>
                  ScoreTheSame(Lookup(after, key).value.latest.questions, Lookup(notes, key).value.latest.questions)))
  {
    hide Lookup, LogOk, StoredItems, Rows, Catalogue, FindEntry, V2Questions, AllStable;
    var after := AfterDelete(notes, key, now);
    CatalogueShowsLast(notes, key);
    DeleteKeepsLog(notes, key, now);
    if after != notes {
      LatestStoredAgain(notes, key);
      LatestTitle(notes, key);
      HistoryAppend(notes, after[|notes|], key);
      CatalogueShowsLast(after, key);
      LastIsStorable(notes, key);
      StoredAreKept(Lookup(notes, key).value.latest.questions);
    }
  }

  /** After any run from an empty log, a copy scores every form as its original does. */
  lemma CopiesScoreTheSame(ops: seq<Op>, key: string, newKey: string, now: int)
    requires ReadyRun([], ops)
    requires var notes := Run([], ops); |notes| < ROW_LIMIT && IsNew(notes, newKey) && Lookup(notes, key).Some?
    ensures var notes := Run([], ops);
      var copy := FindEntry(Catalogue(Rows(AfterCopy(notes, key, newKey, now)), false), newKey);
      copy.Some? && ScoreTheSame(copy.value.latest.questions, Lookup(notes, key).value.latest.questions)
  {
    hide Lookup, Rows, Catalogue, FindEntry, V2Questions, AllStable, ScoreTheSame, AfterCopy, Run, ReadyRun, CopyTitle;
    RunKeepsLog([], ops);
    RunKeepsStable([], ops);
    var notes := Run([], ops);
    CopiedIsActive(notes, key, newKey, now);
    LatestIsLast(notes, key);
    var n :| n in notes && n.key == key && Lookup(notes, key).value.latest == TemplateOf(n);
  }
}
