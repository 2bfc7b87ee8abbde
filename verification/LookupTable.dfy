/**
 Versioned lookup options: saving or deleting one closes the current version, inserts new ones,
 and renumbers every option whose validity window overlaps.

 The table is a sequence of rows. Values the source normalises first (lookup type, option code,
 trimmed label, parsed timestamps) arrive here normalised; timestamps are seconds.
*/
module LookupTable {
  import opened Common

  type Id = string

  datatype Window = Window(from: int, to: int) {
    predicate Valid() { from <= to }
  }

  datatype Row = Row(
    id: Id, kind: string, code: string, caption: string, sortOrder: int, active: bool, window: Window,
    current: bool, deleted: bool, updatedAt: int, updatedBy: string)

  /** The time and actor recorded by one call. */
  datatype Stamp = Stamp(now: int, actor: string)

  const SECONDS_PER_DAY := 86400

  function Day(ts: int): int { ts / SECONDS_PER_DAY }

  /** `_lookup_windows_overlap`: windows are compared by calendar day. */
  predicate Overlap(a: Window, b: Window) {
    Day(a.from) <= Day(b.to) && Day(b.from) <= Day(a.to)
  }

  predicate IsLive(kind: string, r: Row) {
    r.kind == kind && r.current && !r.deleted
  }

  function LiveOf(kind: string): Row -> bool {
    (r: Row) => IsLive(kind, r)
  }

  function OverlapsWith(w: Window): Row -> bool {
    (r: Row) => Overlap(w, r.window)
  }

  function IdNot(id: Id): Row -> bool {
    (r: Row) => r.id != id
  }

  function HasCode(code: string): Row -> bool {
    (r: Row) => r.code == code
  }

  /** `list_lookup_options`, up to its order, which the callers do not use. */
  function Live(rows: seq<Row>, kind: string): seq<Row> {
    Filter(rows, LiveOf(kind))
  }

  // ----- Ordering -----

  predicate StrLeq(a: string, b: string) {
    a == [] || (b != [] && (a[0] < b[0] || (a[0] == b[0] && StrLeq(a[1..], b[1..]))))
  }

  function SortKey(r: Row): int {
    if r.sortOrder == 0 then 999 else r.sortOrder
  }

  /** The sort key (sort order, lower-case label, id), compared lexicographically. */
  predicate RowLeq(a: Row, b: Row) {
    || SortKey(a) < SortKey(b)
    || (SortKey(a) == SortKey(b) &&
        (if Lower(a.caption) != Lower(b.caption) then StrLeq(Lower(a.caption), Lower(b.caption))
         else StrLeq(a.id, b.id)))
  }

  function InsertRow(r: Row, sorted: seq<Row>): seq<Row> {
    if sorted == [] || RowLeq(r, sorted[0]) then [r] + sorted else [sorted[0]] + InsertRow(r, sorted[1..])
  }

  function SortRows(rows: seq<Row>): (s: seq<Row>)
    ensures |s| == |rows|
  {
    if rows == [] then [] else
    var s := SortRows(rows[1..]);
    InsertRowSize(rows[0], s);
    InsertRow(rows[0], s)
  }

  lemma {:induction false} InsertRowSize(r: Row, sorted: seq<Row>)
    ensures |InsertRow(r, sorted)| == |sorted| + 1
  {
    if sorted != [] {
      InsertRowSize(r, sorted[1..]);
    }
  }

  // ----- Renumbering -----

  /** A place in the new order: what it should hold, and the version it supersedes, if any. */
  datatype Slot = Slot(prior: Option<Row>, code: string, caption: string, window: Window)

  function KeepSlot(r: Row): Slot {
    Slot(Some(r), r.code, r.caption, r.window)
  }

  function KeepSlots(rows: seq<Row>): (s: seq<Slot>)
    ensures |s| == |rows|
  {
    seq(|rows|, i requires 0 <= i < |rows| => KeepSlot(rows[i]))
  }

  /** The existing version already says what place `sort` should. */
  predicate Unchanged(slot: Slot, sort: int) {
    slot.prior.Some? &&
    var p := slot.prior.value;
    p.code == slot.code && p.caption == slot.caption && p.sortOrder == sort && p.window == slot.window
  }

  function NewVersion(id: Id, kind: string, slot: Slot, sort: int, st: Stamp): Row {
    Row(id, kind, slot.code, slot.caption, sort, true, slot.window, true, false, st.now, st.actor)
  }

  /** Ids of the versions to close, in place order, from place `from` on. */
  function ToClose(slots: seq<Slot>, from: nat): seq<Id>
    decreases |slots| - from
  {
    if from >= |slots| then [] else
    (if !Unchanged(slots[from], from + 1) && slots[from].prior.Some? then [slots[from].prior.value.id] else [])
    + ToClose(slots, from + 1)
  }

  /** Versions to insert, in place order, from place `from` on; place i takes the fresh id ids[i]. */
  function ToInsert(slots: seq<Slot>, kind: string, ids: seq<Id>, st: Stamp, from: nat): seq<Row>
    requires |ids| >= |slots|
    decreases |slots| - from
  {
    if from >= |slots| then [] else
    (if !Unchanged(slots[from], from + 1) then [NewVersion(ids[from], kind, slots[from], from + 1, st)] else [])
    + ToInsert(slots, kind, ids, st, from + 1)
  }

  /** What place i adds to the two lists. */
  lemma PlanStep(slots: seq<Slot>, kind: string, ids: seq<Id>, st: Stamp, i: nat, toClose: seq<Id>, toInsert: seq<Row>)
    requires i < |slots| <= |ids|
    ensures toClose + ToClose(slots, i)
      == (toClose + (if !Unchanged(slots[i], i + 1) && slots[i].prior.Some? then [slots[i].prior.value.id] else []))
         + ToClose(slots, i + 1)
    ensures toInsert + ToInsert(slots, kind, ids, st, i)
      == (toInsert + (if !Unchanged(slots[i], i + 1) then [NewVersion(ids[i], kind, slots[i], i + 1, st)] else []))
         + ToInsert(slots, kind, ids, st, i + 1)
  {
    hide Unchanged, NewVersion;
  }

  /** Closing a version ends its validity and clears its current flag; nothing else changes. */
  function Closed(r: Row, st: Stamp): Row {
    r.(window := Window(r.window.from, st.now), current := false, updatedAt := st.now, updatedBy := st.actor)
  }

  function CloseVersion(rows: seq<Row>, id: Id, st: Stamp): (after: seq<Row>)
    ensures |after| == |rows|
  {
    seq(|rows|, i requires 0 <= i < |rows| => if rows[i].id == id then Closed(rows[i], st) else rows[i])
  }

  function CloseAll(rows: seq<Row>, ids: seq<Id>, st: Stamp): (after: seq<Row>)
    ensures |after| == |rows|
    decreases |ids|
  {
    if ids == [] then rows else CloseAll(CloseVersion(rows, ids[0], st), ids[1..], st)
  }

  lemma PlanStart(slots: seq<Slot>, kind: string, ids: seq<Id>, st: Stamp)
    requires |ids| >= |slots|
    ensures [] + ToClose(slots, 0) == ToClose(slots, 0)
    ensures [] + ToInsert(slots, kind, ids, st, 0) == ToInsert(slots, kind, ids, st, 0)
    ensures ToClose(slots, |slots|) == [] && ToInsert(slots, kind, ids, st, |slots|) == []
  {
  }

  lemma CloseNext(rows: seq<Row>, ids: seq<Id>, st: Stamp, i: nat)
    requires i < |ids|
    ensures CloseAll(rows, ids[i..], st) == CloseAll(CloseVersion(rows, ids[i], st), ids[i + 1..], st)
  {
    assert ids[i..][1..] == ids[i + 1..];
  }

  function Renumber(rows: seq<Row>, kind: string, slots: seq<Slot>, ids: seq<Id>, st: Stamp): seq<Row>
    requires |ids| >= |slots|
  {
    CloseAll(rows, ToClose(slots, 0), st) + ToInsert(slots, kind, ids, st, 0)
  }

  lemma NothingToClose(rows: seq<Row>, st: Stamp)
    ensures CloseAll(rows, [], st) == rows
  {
  }

  // ----- Saving -----

  datatype Save = Save(optionId: Id, kind: string, code: string, caption: string, sortOrder: int, window: Window)

  datatype Error = BadWindow | IdRequired | NoSuchOption | LabelTaken

  function FindById(rows: seq<Row>, id: Id): Option<Row> {
    if rows == [] then None else if rows[0].id == id then Some(rows[0]) else FindById(rows[1..], id)
  }

  /** The version being updated: the one asked for, or the only one with this code. */
  function Selected(live: seq<Row>, s: Save): Option<Row> {
    if s.optionId != "" then FindById(live, s.optionId) else
    var matching := Filter(live, HasCode(s.code));
    if |matching| == 1 then Some(matching[0]) else None
  }

  function Others(live: seq<Row>, selected: Option<Row>): seq<Row> {
    match selected case None => live case Some(r) => Filter(live, IdNot(r.id))
  }

  predicate Clashes(s: Save, r: Row) {
    Lower(r.caption) == Lower(s.caption) && Overlap(s.window, r.window)
  }

  /** The overlapping options in their old order. */
  function Neighbours(others: seq<Row>, w: Window): seq<Row> {
    SortRows(Filter(others, OverlapsWith(w)))
  }

  /** The place asked for, capped at the end of the list; counted from 0. */
  function TargetIndex(sortOrder: int, neighbours: nat): (i: nat)
    ensures i <= neighbours
    ensures i == 0 <==> sortOrder <= 1 || neighbours == 0
  {
    Min(if sortOrder < 1 then 1 else sortOrder, neighbours + 1) - 1
  }

  function SaveSlots(neighbours: seq<Row>, selected: Option<Row>, s: Save): seq<Slot> {
    var at := TargetIndex(s.sortOrder, |neighbours|);
    KeepSlots(neighbours[..at]) + [Slot(selected, s.code, s.caption, s.window)] + KeepSlots(neighbours[at..])
  }

  function SaveError(rows: seq<Row>, s: Save): Option<Error> {
    if !s.window.Valid() then Some(BadWindow) else
    var live := Live(rows, s.kind);
    var selected := Selected(live, s);
    if s.optionId != "" && selected.None? then Some(NoSuchOption) else
    if exists r <- Others(live, selected) :: Clashes(s, r) then Some(LabelTaken) else None
  }

  /** The places that an accepted save fills, in their new order. */
  function SlotsOf(rows: seq<Row>, s: Save): seq<Slot> {
    var live := Live(rows, s.kind);
    var selected := Selected(live, s);
    SaveSlots(Neighbours(Others(live, selected), s.window), selected, s)
  }

  function SaveRows(rows: seq<Row>, s: Save, ids: seq<Id>, st: Stamp): seq<Row>
    requires |ids| >= |SlotsOf(rows, s)|
  {
    if SaveError(rows, s).Some? then rows else Renumber(rows, s.kind, SlotsOf(rows, s), ids, st)
  }

  // ----- Deleting -----

  function Tombstone(id: Id, target: Row, st: Stamp): Row {
    Row(id, target.kind, target.code, target.caption, SortKey(target), false, Window(st.now, END_OF_TIME),
        true, true, st.now, st.actor)
  }

  /** 9999-12-31 23:59:59 UTC. */
  const END_OF_TIME := 253402300799

  function DeleteError(rows: seq<Row>, kind: string, id: Id): Option<Error> {
    if id == "" then Some(IdRequired) else
    if FindById(Live(rows, kind), id).None? then Some(NoSuchOption) else None
  }

  /** The table once the target's version is closed and its tombstone added. */
  function Removed(rows: seq<Row>, target: Row, id: Id, st: Stamp): seq<Row> {
    CloseVersion(rows, target.id, st) + [Tombstone(id, target, st)]
  }

  function SurvivorSlots(rows: seq<Row>, target: Row): seq<Slot> {
    KeepSlots(Neighbours(Live(rows, target.kind), target.window))
  }

  function DeleteRows(rows: seq<Row>, kind: string, id: Id, tombstone: Id, ids: seq<Id>, st: Stamp): seq<Row>
    requires DeleteError(rows, kind, id).None? ==>
      var target := FindById(Live(rows, kind), id).value;
      |ids| >= |SurvivorSlots(Removed(rows, target, tombstone, st), target)|
  {
    if DeleteError(rows, kind, id).Some? then rows else
    var target := FindById(Live(rows, kind), id).value;
    var removed := Removed(rows, target, tombstone, st);
    Renumber(removed, kind, SurvivorSlots(removed, target), ids, st)
  }

  class OptionTable {
    var rows: seq<Row>

    constructor (rows: seq<Row>)
      ensures this.rows == rows
    {
      this.rows := rows;
    }

    /** Collects `rows_to_close` and `rows_to_insert`. */
    method PlanVersions(kind: string, slots: seq<Slot>, ids: seq<Id>, st: Stamp)
      returns (toClose: seq<Id>, toInsert: seq<Row>)
      requires |ids| >= |slots|
      ensures toClose == ToClose(slots, 0)
      ensures toInsert == ToInsert(slots, kind, ids, st, 0)
    {
      hide Unchanged, NewVersion, ToClose, ToInsert;
      toClose, toInsert := [], [];
      PlanStart(slots, kind, ids, st);
      for i := 0 to |slots|
        invariant toClose + ToClose(slots, i) == ToClose(slots, 0)
        invariant toInsert + ToInsert(slots, kind, ids, st, i) == ToInsert(slots, kind, ids, st, 0)
      {
        PlanStep(slots, kind, ids, st, i, toClose, toInsert);
        if !Unchanged(slots[i], i + 1) {
          if slots[i].prior.Some? {
            toClose := toClose + [slots[i].prior.value.id];
          }
          toInsert := toInsert + [NewVersion(ids[i], kind, slots[i], i + 1, st)];
        }
      }
    }

    /** The close and insert statements at the end of both operations. */
    method WriteVersions(kind: string, slots: seq<Slot>, ids: seq<Id>, st: Stamp)
      requires |ids| >= |slots|
      modifies this
      ensures rows == Renumber(old(rows), kind, slots, ids, st)
    {
      hide CloseAll, CloseVersion, ToClose, ToInsert;
      var toClose, toInsert := PlanVersions(kind, slots, ids, st);
      assert toClose[0..] == toClose;
      for i := 0 to |toClose|
        invariant CloseAll(rows, toClose[i..], st) == CloseAll(old(rows), toClose, st)
      {
        CloseNext(rows, toClose, st, i);
        rows := CloseVersion(rows, toClose[i], st);
      }
      assert toClose[|toClose|..] == [];
      NothingToClose(rows, st);
      ghost var closed := rows;
      for i := 0 to |toInsert|
        invariant rows == closed + toInsert[..i]
      {
        rows := rows + [toInsert[i]];
      }
      assert toInsert[..|toInsert|] == toInsert;
    }

    /** The label check: true when some other live version clashes. */
    method FindClash(s: Save, others: seq<Row>) returns (clash: bool)
      ensures clash <==> exists r <- others :: Clashes(s, r)
    {
      for i := 0 to |others|
        invariant forall j :: 0 <= j < i ==> !Clashes(s, others[j])
      {
        if Clashes(s, others[i]) {
          return true;
        }
      }
      clash := false;
    }

    method CollectOverlapping(w: Window, others: seq<Row>) returns (overlapping: seq<Row>)
      ensures overlapping == Filter(others, OverlapsWith(w))
    {
      overlapping := [];
      for i := 0 to |others|
        invariant overlapping == Filter(others[..i], OverlapsWith(w))
      {
        FilterAppend(others[..i], [others[i]], OverlapsWith(w));
        assert others[..i + 1] == others[..i] + [others[i]];
        if Overlap(w, others[i].window) {
          overlapping := overlapping + [others[i]];
        }
      }
      assert others[..|others|] == others;
    }

    method SaveOption(s: Save, ids: seq<Id>, st: Stamp) returns (error: Option<Error>)
      requires |ids| >= |SlotsOf(rows, s)|
      modifies this
      ensures error == SaveError(old(rows), s)
      ensures rows == SaveRows(old(rows), s, ids, st)
    {
      if !s.window.Valid() {
        return Some(BadWindow);
      }
      var live := Live(rows, s.kind);
      var selected := Selected(live, s);
      if s.optionId != "" && selected.None? {
        return Some(NoSuchOption);
      }
      var others := Others(live, selected);
      var clash := FindClash(s, others);
      if clash {
        return Some(LabelTaken);
      }
      var overlapping := CollectOverlapping(s.window, others);
      WriteVersions(s.kind, SaveSlots(SortRows(overlapping), selected, s), ids, st);
      error := None;
    }

    method DeleteOption(kind: string, id: Id, tombstone: Id, ids: seq<Id>, st: Stamp) returns (error: Option<Error>)
      requires DeleteError(rows, kind, id).None? ==>
        var target := FindById(Live(rows, kind), id).value;
        |ids| >= |SurvivorSlots(Removed(rows, target, tombstone, st), target)|
      modifies this
      ensures error == DeleteError(old(rows), kind, id)
      ensures rows == DeleteRows(old(rows), kind, id, tombstone, ids, st)
    {
      if id == "" {
        return Some(IdRequired);
      }
      var found := FindById(Live(rows, kind), id);
      if found.None? {
        return Some(NoSuchOption);
      }
      var target := found.value;
      rows := CloseVersion(rows, target.id, st);
      rows := rows + [Tombstone(tombstone, target, st)];
      WriteVersions(kind, SurvivorSlots(rows, target), ids, st);
      error := None;
    }
  }
}
