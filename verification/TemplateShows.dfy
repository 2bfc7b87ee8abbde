/**
 What the catalogue shows after a save, a copy or a delete: title, instructions, status and time of
 the template concerned, and every other template as it was.
*/
module TemplateShows {
  import opened Common
  import opened ReviewTemplates
  import opened TemplateLibrary
  import opened TemplateHistory
  import opened TemplateCopies

  predicate Stripped(s: string) {
    s != "" && !IsSpace(s[0]) && !IsSpace(s[|s| - 1])
  }

  lemma StripIs(s: string)
    ensures Stripped(s) ==> Strip(s) == s
    ensures Strip(s) == "" || Stripped(Strip(s))
  {
    TrimLeftStarts(s);
    TrimRightIsPrefix(TrimLeft(s));
  }

  /** A saved template is listed as active, with the title and instructions of the form. */
  lemma SaveShows(notes: seq<Note>, d: Draft, newKey: string, now: int)
    requires LogOk(notes) && |notes| < ROW_LIMIT && IsNew(notes, newKey) && TokensOk(d.rows) && FormParsed(d.rows).Ok?
    ensures var key := if d.key != "" then d.key else newKey;
      var entry := FindEntry(Catalogue(Rows(AfterSave(notes, d, newKey, now)), false), key);
      && entry.Some? && entry.value.status == "active"
      && entry.value.latest.title == (if Strip(d.title) == "" then "Demo Review Form" else Strip(d.title))
      && entry.value.latest.instructions == d.instructions
      && entry.value.latest.createdAt == now
  {
    hide Lookup, LogOk, StoredItems, FormParsed, Rows, Catalogue, FindEntry, V2Questions, Strip;
    var after, key := AfterSave(notes, d, newKey, now), KeyOf(d, newKey);
    SaveKeepsLog(notes, d, newKey, now);
    HistoryAppend(notes, after[|notes|], key);
    CatalogueShowsLast(after, key);
    StripTwice(d.title);
    StripIs("Demo Review Form");
  }

  lemma CopyTitleIs(title: string)
    requires Strip(title) == title != ""
    ensures var full, shown := "Copy of " + title, Strip(CopyTitle(title));
      && shown != "" && shown <= full
      && (|title| <= 132 ==> shown == full)
      && (|title| > 132 ==> shown == Strip(full[..140]))
  {
    var full := "Copy of " + title;
    StripIs(title);
    assert full[0] == 'C' && full[|full| - 1] == title[|title| - 1];
    StripIs(full);
    CopyTitleIsKept(title);
    var cut := Cut(full, 140);
    assert cut[0] == 'C';
    assert TrimLeft(cut) == cut;
    TrimRightIsPrefix(cut);
  }

  /** The title of a copy says so, cut to the limit; the instructions are those of the original. */
  lemma CopyShows(notes: seq<Note>, key: string, newKey: string, now: int)
    requires LogOk(notes) && |notes| < ROW_LIMIT && IsNew(notes, newKey) && Lookup(notes, key).Some?
    ensures var source := Lookup(notes, key).value.latest;
      var entry := FindEntry(Catalogue(Rows(AfterCopy(notes, key, newKey, now)), false), newKey);
      && entry.Some? && entry.value.status == "active"
      && entry.value.latest.title <= "Copy of " + source.title
      && (|source.title| <= 132 ==> entry.value.latest.title == "Copy of " + source.title)
      && (|source.title| > 132 ==>
            entry.value.latest.title == Strip(("Copy of " + source.title)[..140]))
      && entry.value.latest.instructions == source.instructions
      && entry.value.latest.createdAt == now
  {
    hide Lookup, LogOk, StoredItems, Rows, Catalogue, FindEntry, V2Questions, CopyTitle, Strip;
    LatestTitle(notes, key);
    CopyTitleIs(Lookup(notes, key).value.latest.title);
    var after := AfterCopy(notes, key, newKey, now);
    CopyKeepsLog(notes, key, newKey, now);
    NewHasNoHistory(notes, newKey);
    HistoryAppend(notes, after[|notes|], newKey);
    CatalogueShowsLast(after, newKey);
  }

  /** A deleted template keeps its instructions, and its record has the next version and the time of the delete. */
  lemma DeleteShows(notes: seq<Note>, key: string, now: int)
    requires LogOk(notes) && |notes| < ROW_LIMIT && Lookup(notes, key).Some?
    ensures var before, after := Lookup(notes, key).value, Lookup(AfterDelete(notes, key, now), key);
      && after.Some? && after.value.latest.instructions == before.latest.instructions
      && (before.status != "deleted" ==>
            after.value.version == before.version + 1 && after.value.latest.createdAt == now)
  {
    hide Lookup, LogOk, StoredItems, Rows, Catalogue, FindEntry, V2Questions;
    var after := AfterDelete(notes, key, now);
    CatalogueShowsLast(notes, key);
    if after != notes {
      DeleteKeepsLog(notes, key, now);
      HistoryAppend(notes, after[|notes|], key);
      CatalogueShowsLast(after, key);
    }
  }

  /** The key an operation writes to. */
  function Written(op: Op): string {
    match op
    case SaveOp(d, newKey, _) => if d.key != "" then d.key else newKey
    case CopyOp(_, newKey, _) => newKey
    case DeleteOp(key, _) => key
  }

  lemma {:induction false} AppendsOwnKey(notes: seq<Note>, op: Op)
    requires LogOk(notes) && Ready(notes, op)
    ensures |notes| < ROW_LIMIT
    ensures var after := After(notes, op);
      after == notes
        || (|after| == |notes| + 1 && after == notes + [after[|notes|]] && after[|notes|].key == Written(op))
  {
    hide Lookup, LogOk, StoredItems, FormParsed, CopyTitle, NextVersion;
    if op.DeleteOp? {
      CatalogueShowsLast(notes, op.key);
    }
  }

  /** Every other template stays as it was, listed or not. */
  lemma OthersStay(notes: seq<Note>, op: Op, key: string)
    requires LogOk(notes) && Ready(notes, op) && key != Written(op)
    ensures Lookup(After(notes, op), key) == Lookup(notes, key)
    ensures FindEntry(Catalogue(Rows(After(notes, op)), false), key) == FindEntry(Catalogue(Rows(notes), false), key)
  {
    hide Lookup, LogOk, Rows, Catalogue, FindEntry, Ready, AfterSave, AfterCopy, AfterDelete;
    StepKeepsLog(notes, op);
    AppendsOwnKey(notes, op);
    var after := After(notes, op);
    if after != notes {
      HistoryAppend(notes, after[|notes|], key);
      CatalogueShowsLast(notes, key);
      CatalogueShowsLast(after, key);
    }
  }
}
