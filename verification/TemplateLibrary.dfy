/**
 The demo template library: an append-only log of notes, projected to a catalogue that shows, for
 each template key, its latest version.

 A note carries its parsed payload. Reading the log returns the newest notes first, at most 2000.
*/
module TemplateLibrary {
  import opened Common
  import opened ReviewTemplates
  import opened ReviewBounds

  datatype Note = Note(
    key: string, version: int, status: string, title: string, instructions: string, items: seq<Item>, createdAt: int)

  datatype Template = Template(
    key: string, version: int, status: string, title: string, instructions: string,
    questions: seq<Question>, createdAt: int)

  datatype Entry = Entry(key: string, version: int, status: string, latest: Template)

  const ROW_LIMIT := 2000

  // ----- From rows to a catalogue -----

  /** `parse_template_note` on one version 2 row, and the key check that follows it. */
  function Parse(): Note -> Option<Template> {
    (n: Note) =>
      if V2Questions(n.items) == [] || n.key == "" then None else
      Some(Template(n.key, if n.version < 1 then 1 else n.version, OrElse(n.status, "active"),
                    OrElse(Strip(n.title), "Demo Review Form"), n.instructions, V2Questions(n.items), n.createdAt))
  }

  function Parsed(rows: seq<Note>): seq<Template> {
    Somes(Map(rows, Parse()))
  }

  function HasKey(key: string): Template -> bool {
    (t: Template) => t.key == key
  }

  function Versions(rows: seq<Note>, key: string): seq<Template> {
    Filter(Parsed(rows), HasKey(key))
  }

  /** The keys in order of first appearance, as a dictionary keeps them. */
  function Keys(templates: seq<Template>): seq<string> {
    if templates == [] then [] else
    var n := |templates| - 1;
    var before := Keys(templates[..n]);
    if templates[n].key in before then before else before + [templates[n].key]
  }

  predicate Newer(a: Template, b: Template) {
    a.version > b.version || (a.version == b.version && a.createdAt > b.createdAt)
  }

  /** The first template that no other is newer than: the head of the descending sort. */
  function Newest(versions: seq<Template>): (t: Template)
    requires versions != []
  {
    var n := |versions| - 1;
    if n == 0 then versions[0] else
    var best := Newest(versions[..n]);
    if Newer(versions[n], best) then versions[n] else best
  }

  function EntryOf(rows: seq<Note>, includeInactive: bool): string -> Option<Entry> {
    (key: string) =>
      if Versions(rows, key) == [] then None else
      var t := Newest(Versions(rows, key));
      if !includeInactive && t.status != "active" then None else Some(Entry(key, t.version, t.status, t))
  }

  function Catalogue(rows: seq<Note>, includeInactive: bool): seq<Entry> {
    Somes(Map(Keys(Parsed(rows)), EntryOf(rows, includeInactive)))
  }

  lemma {:induction false} KeysAre(templates: seq<Template>, key: string)
    ensures key in Keys(templates) <==> exists t <- templates :: t.key == key
  {
    if templates != [] {
      var n := |templates| - 1;
      KeysAre(templates[..n], key);
      assert templates == templates[..n] + [templates[n]];
    }
  }

  /** The first loop of `build_template_library_index`: versions grouped by key. */
  method GroupByKey(rows: seq<Note>) returns (keys: seq<string>, grouped: map<string, seq<Template>>)
    ensures keys == Keys(Parsed(rows))
    ensures forall k :: k in grouped <==> k in keys
    ensures forall k <- grouped :: grouped[k] == Versions(rows, k)
  {
    hide Parse, Versions, Parsed;
    keys, grouped := [], map[];
    NoRows();
    for i := 0 to |rows|
      invariant keys == Keys(Parsed(rows[..i]))
      invariant forall k :: k in grouped <==> k in keys
      invariant forall k <- grouped :: grouped[k] == Versions(rows[..i], k)
    {
      NextRow(rows, i);
      var parsed := Parse()(rows[i]);
      if parsed.Some? {
        var t := parsed.value;
        if t.key in grouped {
          grouped := grouped[t.key := grouped[t.key] + [t]];
        } else {
          HasVersions(rows[..i], t.key);
          grouped := grouped[t.key := [t]];
          keys := keys + [t.key];
        }
      }
    }
    assert rows[..|rows|] == rows;
  }

  lemma NoRows()
    ensures Parsed([]) == []
  {
  }

  /** `build_template_library_index`, up to the final ordering by title. */
  method BuildIndex(rows: seq<Note>, includeInactive: bool) returns (catalogue: seq<Entry>)
    ensures catalogue == Catalogue(rows, includeInactive)
  {
    hide Parsed, Versions;
    var keys, grouped := GroupByKey(rows);
    catalogue := [];
    for i := 0 to |keys|
      invariant catalogue == Somes(Map(keys[..i], EntryOf(rows, includeInactive)))
    {
      NextSome(keys, EntryOf(rows, includeInactive), i);
      HasVersions(rows, keys[i]);
      var latest := Newest(grouped[keys[i]]);
      if includeInactive || latest.status == "active" {
        catalogue := catalogue + [Entry(keys[i], latest.version, latest.status, latest)];
      }
    }
    assert keys[..|keys|] == keys;
  }

  /** What one more row adds. */
  lemma NextRow(rows: seq<Note>, i: nat)
    requires i < |rows|
    ensures var before, after, p := Parsed(rows[..i]), Parsed(rows[..i + 1]), Parse()(rows[i]);
      && (p.None? ==> after == before)
      && (p.Some? ==> after == before + [p.value] && after[..|after| - 1] == before)
      && forall k :: Versions(rows[..i + 1], k)
           == Versions(rows[..i], k) + if p.Some? && p.value.key == k then [p.value] else []
  {
    NextSome(rows, Parse(), i);
    var p := Parse()(rows[i]);
    if p.Some? {
      forall k ensures Filter(Parsed(rows[..i]) + [p.value], HasKey(k))
        == Filter(Parsed(rows[..i]), HasKey(k)) + if p.value.key == k then [p.value] else []
      {
        FilterAppend(Parsed(rows[..i]), [p.value], HasKey(k));
      }
    }
  }

  lemma HasVersions(rows: seq<Note>, key: string)
    ensures key in Keys(Parsed(rows)) <==> Versions(rows, key) != []
  {
    KeysAre(Parsed(rows), key);
    FilterIn(Parsed(rows), HasKey(key));
    var v := Versions(rows, key);
    assert v == [] || v[0] in v;
  }

  // ----- The store and its three operations -----

  /** The rows a read returns: newest first, up to the limit. */
  function Rows(notes: seq<Note>): (r: seq<Note>) {
    Reversed(if |notes| > ROW_LIMIT then notes[|notes| - ROW_LIMIT..] else notes)
  }

  function Reversed(notes: seq<Note>): (r: seq<Note>)
    ensures |r| == |notes|
  {
    seq(|notes|, i requires 0 <= i < |notes| => notes[|notes| - 1 - i])
  }

  function FindEntry(catalogue: seq<Entry>, key: string): Option<Entry> {
    if catalogue == [] then None else
    if catalogue[0].key == key then Some(catalogue[0]) else FindEntry(catalogue[1..], key)
  }

  function Lookup(notes: seq<Note>, key: string): Option<Entry> {
    FindEntry(Catalogue(Rows(notes), true), key)
  }

  function NextVersion(notes: seq<Note>, key: string): int {
    if key == "" || Lookup(notes, key).None? then 1 else Lookup(notes, key).value.version + 1
  }

  function StoredItems(questions: seq<Question>): seq<Item> {
    Map(questions, StoredItem)
  }

  datatype Draft = Draft(key: string, title: string, instructions: string, rows: seq<FormRow>)

  function KeyOf(d: Draft, newKey: string): string {
    if d.key == "" then newKey else d.key
  }

  function FormParsed(rows: seq<FormRow>): Result<seq<Question>, FormError> {
    match FormQuestions(rows)
    case Err(e) => Err(e)
    case Ok(questions) => if questions == [] then Err(NoQuestions) else Ok(questions)
  }

  function SavedNote(notes: seq<Note>, d: Draft, questions: seq<Question>, newKey: string, now: int): Note {
    var key := KeyOf(d, newKey);
    Note(key, NextVersion(notes, key), "active", OrElse(Strip(d.title), "Demo Review Form"), d.instructions,
         StoredItems(questions), now)
  }

  function AfterSave(notes: seq<Note>, d: Draft, newKey: string, now: int): seq<Note> {
    match FormParsed(d.rows)
    case Err(_) => notes
    case Ok(questions) => notes + [SavedNote(notes, d, questions, newKey, now)]
  }

  function CopyTitle(title: string): string {
    Cut(Strip("Copy of " + title), 140)
  }

  function AfterCopy(notes: seq<Note>, key: string, newKey: string, now: int): seq<Note> {
    match Lookup(notes, key)
    case None => notes
    case Some(e) =>
      notes + [Note(newKey, 1, "active", CopyTitle(e.latest.title), e.latest.instructions,
                    StoredItems(e.latest.questions), now)]
  }

  function AfterDelete(notes: seq<Note>, key: string, now: int): seq<Note> {
    match Lookup(notes, key)
    case None => notes
    case Some(e) =>
      if e.status == "deleted" then notes else
      notes + [Note(e.key, e.version + 1, "deleted", e.latest.title, e.latest.instructions,
                    StoredItems(e.latest.questions), now)]
  }

  class Library {
    var notes: seq<Note>

    constructor ()
      ensures notes == []
    {
      notes := [];
    }

    method Load(includeInactive: bool) returns (catalogue: seq<Entry>)
      ensures catalogue == Catalogue(Rows(notes), includeInactive)
    {
      catalogue := BuildIndex(Rows(notes), includeInactive);
    }

    /** The scan of the catalogue for one key. */
    method Scan(catalogue: seq<Entry>, key: string) returns (found: Option<Entry>)
      ensures found == FindEntry(catalogue, key)
    {
      for i := 0 to |catalogue|
        invariant FindEntry(catalogue, key) == FindEntry(catalogue[i..], key)
      {
        assert catalogue[i..][1..] == catalogue[i + 1..];
        if catalogue[i].key == key {
          return Some(catalogue[i]);
        }
      }
      found := None;
    }

    method NextTemplateVersion(catalogue: seq<Entry>, key: string) returns (version: int)
      ensures version == if key == "" || FindEntry(catalogue, key).None? then 1
                         else FindEntry(catalogue, key).value.version + 1
    {
      if key == "" {
        return 1;
      }
      var found := Scan(catalogue, key);
      version := if found.None? then 1 else found.value.version + 1;
    }

    method Save(d: Draft, newKey: string, now: int) returns (error: Option<FormError>)
      modifies this
      ensures notes == AfterSave(old(notes), d, newKey, now)
      ensures error.Some? <==> FormParsed(d.rows).Err?
    {
      hide Catalogue, Rows, FormQuestions, StoredItems, FindEntry;
      var parsed := ParseForm(d.rows);
      if parsed.Err? {
        return Some(parsed.error);
      }
      var catalogue := Load(true);
      var key := KeyOf(d, newKey);
      var version := NextTemplateVersion(catalogue, key);
      notes := notes + [Note(key, version, "active", OrElse(Strip(d.title), "Demo Review Form"), d.instructions,
                             StoredItems(parsed.value), now)];
      error := None;
    }

    method Copy(key: string, newKey: string, now: int) returns (found: bool)
      modifies this
      ensures notes == AfterCopy(old(notes), key, newKey, now)
      ensures found <==> Lookup(old(notes), key).Some?
    {
      hide Catalogue, Rows, StoredItems, FindEntry;
      var catalogue := Load(true);
      var source := Scan(catalogue, key);
      if source.None? {
        return false;
      }
      var t := source.value.latest;
      notes := notes + [Note(newKey, 1, "active", CopyTitle(t.title), t.instructions, StoredItems(t.questions), now)];
      found := true;
    }

    method Delete(key: string, now: int) returns (deleted: bool)
      modifies this
      ensures notes == AfterDelete(old(notes), key, now)
      ensures deleted <==> Lookup(old(notes), key).Some? && Lookup(old(notes), key).value.status != "deleted"
    {
      hide Catalogue, Rows, StoredItems, FindEntry;
      var catalogue := Load(true);
      var target := Scan(catalogue, key);
      if target.None? || target.value.status == "deleted" {
        return false;
      }
      var e := target.value;
      notes := notes + [Note(e.key, e.version + 1, "deleted", e.latest.title, e.latest.instructions,
                             StoredItems(e.latest.questions), now)];
      deleted := true;
    }
  }
}
