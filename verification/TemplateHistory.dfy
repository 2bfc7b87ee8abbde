/**
 What the template log guarantees over any run of saves, copies and deletes: each key's versions
 count 1, 2, ..., the catalogue shows the last one appended, and a deleted key stays deleted.
*/
module TemplateHistory {
  import opened Common
  import opened ReviewTemplates
  import opened ReviewBounds
  import opened TemplateLibrary

  // ----- Stored questions are always read back -----

  /** A question that survives being stored and read back. */
  predicate Storable(q: Question) {
    && Strip(q.caption) != ""
    && WeightsOk(q.options)
    && (forall i :: 0 <= i < |q.options| ==> q.options[i].caption != "")
    && (NeedsTwoOptions(q.kind) ==> |q.options| >= 2)
  }

  predicate AllStorable(qs: seq<Question>) {
    forall i :: 0 <= i < |qs| ==> Storable(qs[i])
  }

  lemma StorableIsKept(q: Question)
    requires Storable(q)
    ensures V2Question()(StoredItem(q)).Some?
  {
    OptionsReadBack(q.options);
  }

  lemma {:induction false} StoredAreKept(qs: seq<Question>)
    requires AllStorable(qs)
    ensures |V2Questions(StoredItems(qs))| == |qs|
  {
    if qs != [] {
      StorableIsKept(qs[0]);
      StoredAreKept(qs[1..]);
      assert StoredItems(qs)[1..] == StoredItems(qs[1..]);
      assert Map(StoredItems(qs), V2Question())[1..] == Map(StoredItems(qs[1..]), V2Question());
    }
  }

  lemma {:induction false} ChoicesHaveCaptions(options: seq<RawOption>)
    ensures var c := V2Choices(options); forall i :: 0 <= i < |c| ==> c[i].caption != ""
  {
    if options != [] {
      ChoicesHaveCaptions(options[1..]);
      assert Map(options, V2Choice())[1..] == Map(options[1..], V2Choice());
      var first := V2Choice()(options[0]);
      assert V2Choices(options) == (if first.Some? then [first.value] else []) + V2Choices(options[1..]);
    }
  }

  /** What version 2 parsing returns can be stored again. */
  lemma ParsedIsStorable(item: Item)
    ensures var q := V2Question()(item); q.Some? ==> Storable(q.value)
  {
    if item.Item? {
      StripTwice(item.caption);
      V2ChoicesOk(item.options);
      ChoicesHaveCaptions(item.options);
    }
  }

  lemma {:induction false} ParsedAreStorable(items: seq<Item>)
    ensures AllStorable(V2Questions(items))
  {
    if items != [] {
      ParsedIsStorable(items[0]);
      ParsedAreStorable(items[1..]);
      assert Map(items, V2Question())[1..] == Map(items[1..], V2Question());
    }
  }

  /** Option labels come from splitting text into non-blank tokens. */
  predicate TokensOk(rows: seq<FormRow>) {
    forall i :: 0 <= i < |rows| ==> forall o <- rows[i].options :: o.caption != ""
  }

  lemma FormQuestionIsStorable(row: FormRow)
    requires Strip(row.caption) != "" && forall o <- row.options :: o.caption != ""
    ensures var r := FormQuestion(row); r.Ok? ==> Storable(r.value)
  {
    LabelSurvives(row);
    FormCaptions(row, if row.kind.Some? then row.kind.value else Scale);
  }

  lemma {:induction false} FormIsStorable(rows: seq<FormRow>)
    requires TokensOk(rows)
    ensures var r := FormQuestions(rows); r.Ok? ==> AllStorable(r.value)
  {
    if rows != [] {
      FormIsStorable(rows[1..]);
      if Strip(rows[0].caption) != "" {
        FormQuestionIsStorable(rows[0]);
      }
    }
  }

  // ----- The log -----

  function KeyIs(key: string): Note -> bool {
    (n: Note) => n.key == key
  }

  /** The notes of one key, in the order they were appended. */
  function History(notes: seq<Note>, key: string): seq<Note> {
    Filter(notes, KeyIs(key))
  }

  /** A note the three operations can have written. */
  predicate NoteOk(n: Note) {
    n.key != "" && V2Questions(n.items) != [] && (n.status == "active" || n.status == "deleted")
  }

  /** Each key's versions are exactly 1, 2, ... in the order they were appended. */
  ghost predicate Numbered(notes: seq<Note>) {
    forall key: string, i: int :: 0 <= i < |History(notes, key)| ==> History(notes, key)[i].version == i + 1
  }

  ghost predicate LogOk(notes: seq<Note>) {
    (forall n <- notes :: NoteOk(n)) && Numbered(notes)
  }

  function TemplateOf(n: Note): Template {
    Template(n.key, if n.version < 1 then 1 else n.version, n.status, OrElse(Strip(n.title), "Demo Review Form"),
             n.instructions, V2Questions(n.items), n.createdAt)
  }

  lemma HistoryIs(notes: seq<Note>, key: string)
    ensures var h := History(notes, key);
      && (forall i :: 0 <= i < |h| ==> h[i] in notes && h[i].key == key)
      && (forall n <- notes :: n.key == key ==> n in h)
  {
    FilterIn(notes, KeyIs(key));
    var h := History(notes, key);
    assert forall i :: 0 <= i < |h| ==> h[i] in h;
  }

  lemma RowsAreNotes(notes: seq<Note>)
    requires |notes| <= ROW_LIMIT
    ensures forall n :: n in Rows(notes) <==> n in notes
  {
    var r := Rows(notes);
    forall n ensures n in r <==> n in notes {
      if n in notes {
        var i :| 0 <= i < |notes| && notes[i] == n;
        assert r[|notes| - 1 - i] == n;
      }
    }
  }

  lemma {:induction false} ParsedAre(rows: seq<Note>, t: Template)
    requires forall n <- rows :: NoteOk(n)
    ensures t in Parsed(rows) <==> exists n <- rows :: TemplateOf(n) == t
  {
    if rows != [] {
      assert rows[0] in rows && rows == [rows[0]] + rows[1..];
      ParsedAre(rows[1..], t);
      ParsedFirst(rows);
    }
  }

  lemma ParsedFirst(rows: seq<Note>)
    requires rows != [] && NoteOk(rows[0])
    ensures Parsed(rows) == [TemplateOf(rows[0])] + Parsed(rows[1..])
  {
    assert Parse()(rows[0]) == Some(TemplateOf(rows[0]));
    assert Map(rows, Parse())[1..] == Map(rows[1..], Parse());
  }

  lemma {:induction false} NewestIs(versions: seq<Template>)
    requires versions != []
    ensures var t := Newest(versions); t in versions && forall v <- versions :: v.version <= t.version
  {
    var n := |versions| - 1;
    if n > 0 {
      NewestIs(versions[..n]);
      assert versions == versions[..n] + [versions[n]];
    }
  }

  lemma {:induction false} FindInCatalogue(rows: seq<Note>, keys: seq<string>, includeInactive: bool, key: string)
    ensures FindEntry(Somes(Map(keys, EntryOf(rows, includeInactive))), key)
      == if key in keys then EntryOf(rows, includeInactive)(key) else None
    requires AllDifferent(keys)
  {
    hide Versions, Newest;
    if keys != [] {
      FindInCatalogue(rows, keys[1..], includeInactive, key);
      assert Map(keys, EntryOf(rows, includeInactive))[1..] == Map(keys[1..], EntryOf(rows, includeInactive));
      assert keys == [keys[0]] + keys[1..];
      assert keys[0] !in keys[1..];
      var rest := Somes(Map(keys[1..], EntryOf(rows, includeInactive)));
      var first := EntryOf(rows, includeInactive)(keys[0]);
      if first.Some? {
        assert ([first.value] + rest)[1..] == rest;
        assert first.value.key == keys[0];
      } else {
        assert [] + rest == rest;
      }
    }
  }

  predicate AllDifferent(keys: seq<string>) {
    forall i, j :: 0 <= i < j < |keys| ==> keys[i] != keys[j]
  }

  lemma DifferentAppend(keys: seq<string>, key: string)
    requires AllDifferent(keys) && key !in keys
    ensures AllDifferent(keys + [key])
  {
  }

  lemma {:induction false} KeysDistinct(templates: seq<Template>)
    ensures AllDifferent(Keys(templates))
  {
    if templates != [] {
      var n := |templates| - 1;
      KeysDistinct(templates[..n]);
      if templates[n].key !in Keys(templates[..n]) {
        DifferentAppend(Keys(templates[..n]), templates[n].key);
      }
    }
  }

  /** A key's entry is its newest version, if it has one that is wanted. */
  lemma {:induction false} EntryIs(rows: seq<Note>, includeInactive: bool, key: string)
    ensures FindEntry(Catalogue(rows, includeInactive), key) == EntryOf(rows, includeInactive)(key)
  {
    KeysDistinct(Parsed(rows));
    HasVersions(rows, key);
    FindInCatalogue(rows, Keys(Parsed(rows)), includeInactive, key);
  }

  /** A key's versions in the catalogue are its history, read newest first. */
  lemma VersionMembers(notes: seq<Note>, key: string, t: Template)
    requires |notes| <= ROW_LIMIT && forall n <- notes :: NoteOk(n)
    ensures t in Versions(Rows(notes), key) <==>
      exists i :: 0 <= i < |History(notes, key)| && TemplateOf(History(notes, key)[i]) == t
  {
    hide Rows, NoteOk, Parsed;
    var rows, h := Rows(notes), History(notes, key);
    RowsAreNotes(notes);
    HistoryIs(notes, key);
    FilterIn(Parsed(rows), HasKey(key));
    ParsedAre(rows, t);
    if t in Versions(rows, key) {
      var n :| n in rows && TemplateOf(n) == t;
      assert n in h;
      var i :| 0 <= i < |h| && h[i] == n;
    }
  }

  lemma VersionsAre(notes: seq<Note>, key: string)
    requires LogOk(notes) && |notes| <= ROW_LIMIT
    ensures var v, h := Versions(Rows(notes), key), History(notes, key);
      && (v == [] <==> h == [])
      && (h != [] ==> Newest(v) == TemplateOf(h[|h| - 1]))
  {
    hide Versions, Rows, NoteOk, History, Newest;
    var v, h := Versions(Rows(notes), key), History(notes, key);
    if h != [] {
      VersionMembers(notes, key, TemplateOf(h[|h| - 1]));
    }
    if v != [] {
      NewestIs(v);
      VersionMembers(notes, key, Newest(v));
      var i :| 0 <= i < |h| && TemplateOf(h[i]) == Newest(v);
    }
  }

  /**
   The catalogue entry of a key is its last appended note, and the key is listed as active exactly
   when that note is not a delete.
  */
  lemma CatalogueShowsLast(notes: seq<Note>, key: string)
    requires LogOk(notes) && |notes| <= ROW_LIMIT
    ensures var h, all := History(notes, key), Lookup(notes, key);
      && (all.None? <==> h == [])
      && (h == [] ==> FindEntry(Catalogue(Rows(notes), false), key) == None)
      && (h != [] ==> var last := h[|h| - 1];
           && all.value == Entry(key, |h|, last.status, TemplateOf(last))
           && (FindEntry(Catalogue(Rows(notes), false), key)
                 == if last.status == "deleted" then None else all))
  {
    hide Versions, Catalogue, Rows, Newest;
    VersionsAre(notes, key);
    EntryIs(Rows(notes), true, key);
    EntryIs(Rows(notes), false, key);
    HistoryIs(notes, key);
  }

  // ----- The operations keep the log in order -----

  lemma HistoryAppend(notes: seq<Note>, n: Note, key: string)
    ensures History(notes + [n], key) == History(notes, key) + if n.key == key then [n] else []
  {
    FilterAppend(notes, [n], KeyIs(key));
  }

  lemma AppendKeepsLog(notes: seq<Note>, n: Note)
    requires LogOk(notes) && NoteOk(n) && n.version == |History(notes, n.key)| + 1
    ensures LogOk(notes + [n])
  {
    hide NoteOk;
    forall key: string, i: int | 0 <= i < |History(notes + [n], key)|
      ensures History(notes + [n], key)[i].version == i + 1
    {
      HistoryAppend(notes, n, key);
    }
  }

  datatype Op =
    | SaveOp(d: Draft, newKey: string, now: int)
    | CopyOp(key: string, newKey: string, now: int)
    | DeleteOp(key: string, now: int)

  function After(notes: seq<Note>, op: Op): seq<Note> {
    match op
    case SaveOp(d, newKey, now) => AfterSave(notes, d, newKey, now)
    case CopyOp(key, newKey, now) => AfterCopy(notes, key, newKey, now)
    case DeleteOp(key, now) => AfterDelete(notes, key, now)
  }

  predicate IsNew(notes: seq<Note>, key: string) {
    key != "" && forall n <- notes :: n.key != key
  }

  /** Fresh keys are fresh, option labels are tokens, and the log is below the row limit. */
  predicate Ready(notes: seq<Note>, op: Op) {
    && |notes| < ROW_LIMIT
    && match op
       case SaveOp(d, newKey, _) => IsNew(notes, newKey) && TokensOk(d.rows)
       case CopyOp(_, newKey, _) => IsNew(notes, newKey)
       case DeleteOp(_, _) => true
  }

  lemma NewHasNoHistory(notes: seq<Note>, key: string)
    requires IsNew(notes, key)
    ensures History(notes, key) == []
  {
    FilterNone(notes, KeyIs(key));
  }

  lemma {:induction false} SaveKeepsLog(notes: seq<Note>, d: Draft, newKey: string, now: int)
    requires LogOk(notes) && |notes| < ROW_LIMIT && IsNew(notes, newKey) && TokensOk(d.rows)
    ensures LogOk(AfterSave(notes, d, newKey, now))
  {
    hide Lookup, LogOk, FormQuestions, StoredItems, V2Questions;
    if FormParsed(d.rows).Ok? {
      var questions := FormParsed(d.rows).value;
      FormIsStorable(d.rows);
      StoredAreKept(questions);
      var n := SavedNote(notes, d, questions, newKey, now);
      CatalogueShowsLast(notes, n.key);
      AppendKeepsLog(notes, n);
    }
  }

  lemma {:induction false} CopyKeepsLog(notes: seq<Note>, key: string, newKey: string, now: int)
    requires LogOk(notes) && |notes| < ROW_LIMIT && IsNew(notes, newKey)
    ensures LogOk(AfterCopy(notes, key, newKey, now))
  {
    hide Lookup, LogOk, StoredItems, V2Questions;
    CatalogueShowsLast(notes, key);
    if Lookup(notes, key).Some? {
      LastIsStorable(notes, key);
      StoredAreKept(Lookup(notes, key).value.latest.questions);
      NewHasNoHistory(notes, newKey);
      AppendKeepsLog(notes, AfterCopy(notes, key, newKey, now)[|notes|]);
    }
  }

  lemma {:induction false} DeleteKeepsLog(notes: seq<Note>, key: string, now: int)
    requires LogOk(notes) && |notes| < ROW_LIMIT
    ensures LogOk(AfterDelete(notes, key, now))
  {
    hide Lookup, LogOk, StoredItems, V2Questions;
    CatalogueShowsLast(notes, key);
    if Lookup(notes, key).Some? && Lookup(notes, key).value.status != "deleted" {
      LastIsStorable(notes, key);
      StoredAreKept(Lookup(notes, key).value.latest.questions);
      AppendKeepsLog(notes, AfterDelete(notes, key, now)[|notes|]);
    }
  }

  lemma {:induction false} LastIsStorable(notes: seq<Note>, key: string)
    requires LogOk(notes) && |notes| < ROW_LIMIT && History(notes, key) != []
    ensures Lookup(notes, key).Some? && key != ""
    ensures var q := Lookup(notes, key).value.latest.questions; q != [] && AllStorable(q)
  {
    hide Lookup;
    CatalogueShowsLast(notes, key);
    HistoryIs(notes, key);
    var last := History(notes, key)[|History(notes, key)| - 1];
    ParsedAreStorable(last.items);
  }

  lemma {:induction false} StepKeepsLog(notes: seq<Note>, op: Op)
    requires LogOk(notes) && Ready(notes, op)
    ensures LogOk(After(notes, op))
  {
    hide LogOk, AfterSave, AfterCopy, AfterDelete;
    match op
    case SaveOp(d, newKey, now) => SaveKeepsLog(notes, d, newKey, now);
    case CopyOp(key, newKey, now) => CopyKeepsLog(notes, key, newKey, now);
    case DeleteOp(key, now) => DeleteKeepsLog(notes, key, now);
  }

  predicate ReadyRun(notes: seq<Note>, ops: seq<Op>)
    decreases |ops|
  {
    ops == [] || (Ready(notes, ops[0]) && ReadyRun(After(notes, ops[0]), ops[1..]))
  }

  function Run(notes: seq<Note>, ops: seq<Op>): seq<Note>
    decreases |ops|
  {
    if ops == [] then notes else Run(After(notes, ops[0]), ops[1..])
  }

  /** Over any run from an empty log, every key's versions are exactly 1, 2, ... */
  lemma {:induction false} RunKeepsLog(notes: seq<Note>, ops: seq<Op>)
    requires LogOk(notes) && ReadyRun(notes, ops)
    ensures LogOk(Run(notes, ops))
    decreases |ops|
  {
    hide LogOk, Ready, After;
    if ops != [] {
      StepKeepsLog(notes, ops[0]);
      RunKeepsLog(After(notes, ops[0]), ops[1..]);
    }
  }

  /** Nothing is ever removed from the log. */
  lemma {:induction false} RunOnlyAppends(notes: seq<Note>, ops: seq<Op>)
    ensures notes <= Run(notes, ops)
    decreases |ops|
  {
    hide Lookup, FormParsed;
    if ops != [] {
      RunOnlyAppends(After(notes, ops[0]), ops[1..]);
    }
  }

  /** Deleting a key twice appends nothing the second time. */
  lemma {:induction false} DeleteTwice(notes: seq<Note>, key: string, now: int, later: int)
    requires LogOk(notes) && |notes| < ROW_LIMIT
    ensures AfterDelete(AfterDelete(notes, key, now), key, later) == AfterDelete(notes, key, now)
  {
    hide Lookup, LogOk, StoredItems;
    var after := AfterDelete(notes, key, now);
    CatalogueShowsLast(notes, key);
    DeleteKeepsLog(notes, key, now);
    if after != notes {
      HistoryAppend(notes, after[|notes|], key);
      CatalogueShowsLast(after, key);
    }
  }

  lemma {:induction false} SavedIsActive(notes: seq<Note>, d: Draft, newKey: string, now: int)
    requires LogOk(notes) && |notes| < ROW_LIMIT && IsNew(notes, newKey) && TokensOk(d.rows) && FormParsed(d.rows).Ok?
    ensures var after, key := AfterSave(notes, d, newKey, now), KeyOf(d, newKey);
      var entry := FindEntry(Catalogue(Rows(after), false), key);
      && entry.Some?
      && entry.value.version == |History(notes, key)| + 1
      && entry.value.latest.questions == V2Questions(StoredItems(FormParsed(d.rows).value))
  {
    hide Lookup, LogOk, StoredItems, FormParsed, Rows, Catalogue, FindEntry, V2Questions;
    var after, key := AfterSave(notes, d, newKey, now), KeyOf(d, newKey);
    SaveKeepsLog(notes, d, newKey, now);
    HistoryAppend(notes, after[|notes|], key);
    CatalogueShowsLast(after, key);
  }
}
