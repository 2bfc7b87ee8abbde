/**
 The main results about lookup options: what one save or delete does to the options in its window,
 what it leaves alone, and what holds after any run of saves and deletes.
*/
module LookupRuns {
  import opened Common
  import opened LookupTable
  import opened LookupTheorems

  predicate TableOk(rows: seq<Row>) {
    DistinctIds(rows) && LiveWindowsValid(rows) && NoClash(rows)
  }

  /** The live options of a type that overlap a window, in the order they are shown. */
  function InOrder(rows: seq<Row>, kind: string, w: Window): seq<Row> {
    Neighbours(Live(rows, kind), w)
  }

  /** Same option: everything but its place and its version. */
  predicate SameOption(a: Row, b: Row) {
    a.kind == b.kind && a.code == b.code && a.caption == b.caption && a.window == b.window
  }

  // ----- Which rows an operation looks at -----

  lemma LiveIs(rows: seq<Row>, kind: string)
    requires DistinctIds(rows)
    ensures DistinctIds(Live(rows, kind))
    ensures forall r :: r in Live(rows, kind) <==> r in rows && IsLive(kind, r)
  {
    FilterDistinct(rows, LiveOf(kind));
    FilterIn(rows, LiveOf(kind));
  }

  lemma {:induction false} FindByIdIs(rows: seq<Row>, id: Id)
    ensures var f := FindById(rows, id);
      && (f.Some? ==> f.value in rows && f.value.id == id)
      && (f.None? ==> forall r <- rows :: r.id != id)
  {
    if rows != [] {
      FindByIdIs(rows[1..], id);
      assert rows == [rows[0]] + rows[1..];
    }
  }

  lemma SelectedIs(live: seq<Row>, s: Save)
    ensures var selected := Selected(live, s);
      && (selected.Some? ==> selected.value in live)
      && (selected.Some? && s.optionId != "" ==> selected.value.id == s.optionId)
  {
    if s.optionId != "" {
      FindByIdIs(live, s.optionId);
    } else {
      FilterIn(live, HasCode(s.code));
    }
  }

  lemma OthersAre(live: seq<Row>, selected: Option<Row>)
    requires DistinctIds(live) && (selected.Some? ==> selected.value in live)
    ensures DistinctIds(Others(live, selected))
    ensures forall r :: r in Others(live, selected) <==> r in live && selected != Some(r)
  {
    if selected.Some? {
      var other := IdNot(selected.value.id);
      FilterDistinct(live, other);
      FilterIn(live, other);
      forall r <- live | r.id == selected.value.id ensures r == selected.value {
        SameIdSameRow(live, r, selected.value);
      }
    }
  }

  lemma NeighboursAre(others: seq<Row>, w: Window)
    requires DistinctIds(others)
    ensures var n := Neighbours(others, w);
      SortedRows(n) && DistinctIds(n) && forall r :: r in n <==> r in others && Overlap(w, r.window)
  {
    FilterDistinct(others, OverlapsWith(w));
    FilterIn(others, OverlapsWith(w));
    SortRowsSorted(Filter(others, OverlapsWith(w)));
  }

  // ----- Sorted lists -----

  predicate ByPlace(s: seq<Row>) {
    forall i, j :: 0 <= i < j < |s| ==> SortKey(s[i]) < SortKey(s[j])
  }

  lemma SameTails(s: seq<Row>, t: seq<Row>)
    requires s != [] && t != [] && s[0] == t[0] && s[0] !in s[1..] && t[0] !in t[1..]
    requires forall r :: r in s <==> r in t
    ensures forall r :: r in s[1..] <==> r in t[1..]
  {
    assert s == [s[0]] + s[1..] && t == [t[0]] + t[1..];
    forall r ensures r in s[1..] <==> r in t[1..] {
      assert r in s <==> r == s[0] || r in s[1..];
      assert r in t <==> r == t[0] || r in t[1..];
    }
  }

  lemma SameHeads(s: seq<Row>, t: seq<Row>)
    requires s != [] && t != [] && SortedRows(s) && ByPlace(t)
    requires s[0] in t && t[0] in s
    ensures s[0] == t[0]
  {
    var k :| 0 <= k < |t| && t[k] == s[0];
    var m :| 0 <= m < |s| && s[m] == t[0];
  }

  /** Only one ordering of a set of rows is sorted, when their places all differ. */
  lemma {:induction false} SortedIsUnique(s: seq<Row>, t: seq<Row>)
    requires SortedRows(s) && DistinctIds(s) && ByPlace(t)
    requires forall r :: r in s <==> r in t
    ensures s == t
  {
    assert s == [] || s[0] in t;
    assert t == [] || t[0] in s;
    if s != [] {
      SameHeads(s, t);
      SameTails(s, t);
      SortedIsUnique(s[1..], t[1..]);
    }
  }

  lemma FinalsByPlace(slots: seq<Slot>, kind: string, ids: seq<Id>, st: Stamp)
    requires |ids| >= |slots|
    ensures var f := Finals(slots, kind, ids, st);
      ByPlace(f) && forall i :: 0 <= i < |f| ==> f[i].sortOrder == i + 1
  {
  }

  /** After renumbering, the window in display order is the list of final rows. */
  lemma RenumberedInOrder(rows: seq<Row>, kind: string, slots: seq<Slot>, ids: seq<Id>, st: Stamp, w: Window)
    requires DistinctIds(rows) && |ids| >= |slots| && FreshIds(rows, ids)
    requires PriorsOk(rows, kind, slots) && CoversWindow(rows, kind, slots, w)
    ensures InOrder(Renumber(rows, kind, slots, ids, st), kind, w) == Finals(slots, kind, ids, st)
  {
    var after, finals := Renumber(rows, kind, slots, ids, st), Finals(slots, kind, ids, st);
    RenumberKeepsIds(rows, kind, slots, ids, st);
    LiveIs(after, kind);
    NeighboursAre(Live(after, kind), w);
    FinalsByPlace(slots, kind, ids, st);
    forall r ensures r in InOrder(after, kind, w) <==> r in finals {
      RenumberedWindow(rows, kind, slots, ids, st, w, r);
    }
    SortedIsUnique(InOrder(after, kind, w), finals);
  }

  // ----- The places a save fills -----

  /** How a save splits the live options: the selected one, the others, and those in its window. */
  predicate Split(rows: seq<Row>, s: Save, selected: Option<Row>, others: seq<Row>, n: seq<Row>) {
    && (selected.Some? ==> selected.value in rows && IsLive(s.kind, selected.value))
    && (selected.Some? ==> forall i :: 0 <= i < |n| ==> n[i].id != selected.value.id)
    && (forall r <- others :: !Clashes(s, r))
    && (forall r <- rows :: IsLive(s.kind, r) && selected != Some(r) ==> r in others)
    && (forall r <- others :: Overlap(s.window, r.window) ==> r in n)
    && (forall i :: 0 <= i < |n| ==> n[i] in rows && IsLive(s.kind, n[i]) && Overlap(s.window, n[i].window))
  }

  lemma SaveSplits(rows: seq<Row>, s: Save)
    requires DistinctIds(rows) && SaveError(rows, s).None?
    ensures var live := Live(rows, s.kind);
      var selected := Selected(live, s);
      var others := Others(live, selected);
      var n := Neighbours(others, s.window);
      Split(rows, s, selected, others, n) && DistinctIds(n)
  {
    hide Live, Selected, Others, Neighbours;
    var live := Live(rows, s.kind);
    var selected := Selected(live, s);
    var others := Others(live, selected);
    LiveIs(rows, s.kind);
    SelectedIs(live, s);
    OthersAre(live, selected);
    NeighboursAre(others, s.window);
    var n := Neighbours(others, s.window);
    forall i | 0 <= i < |n|
      ensures n[i] in rows && IsLive(s.kind, n[i]) && Overlap(s.window, n[i].window)
      ensures selected.Some? ==> n[i].id != selected.value.id
    {
      assert n[i] in n && n[i] in others;
      if selected.Some? && n[i].id == selected.value.id {
        SameIdSameRow(live, n[i], selected.value);
      }
    }
  }

  lemma SlotAt(n: seq<Row>, selected: Option<Row>, s: Save)
    ensures var slots, at := SaveSlots(n, selected, s), TargetIndex(s.sortOrder, |n|);
      && |slots| == |n| + 1
      && slots[at] == Slot(selected, s.code, s.caption, s.window)
      && (forall i :: 0 <= i < at ==> slots[i] == KeepSlot(n[i]))
      && (forall i :: at < i < |slots| ==> slots[i] == KeepSlot(n[i - 1]))
  {
  }

  lemma PlacesHavePriors(rows: seq<Row>, s: Save, others: seq<Row>, n: seq<Row>, selected: Option<Row>)
    requires DistinctIds(n) && Split(rows, s, selected, others, n)
    ensures PriorsOk(rows, s.kind, SaveSlots(n, selected, s))
  {
    hide SaveSlots;
    SlotAt(n, selected, s);
  }

  /** Every neighbour has a place, and so has the saved option. */
  lemma PlaceOf(n: seq<Row>, selected: Option<Row>, s: Save, r: Row)
    requires selected == Some(r) || r in n
    ensures IsPrior(SaveSlots(n, selected, s), r)
  {
    hide SaveSlots;
    SlotAt(n, selected, s);
    var at, slots := TargetIndex(s.sortOrder, |n|), SaveSlots(n, selected, s);
    if selected == Some(r) {
      assert slots[at].prior == Some(r);
    } else {
      var k :| 0 <= k < |n| && n[k] == r;
      if k < at {
        assert slots[k].prior == Some(r);
      } else {
        assert slots[k + 1].prior == Some(r);
      }
    }
  }

  lemma OverlapReflexive(w: Window)
    requires w.Valid()
    ensures Overlap(w, w)
  {
  }

  lemma PlacesOverlap(rows: seq<Row>, s: Save, others: seq<Row>, n: seq<Row>, selected: Option<Row>)
    requires s.window.Valid() && Split(rows, s, selected, others, n)
    ensures var slots := SaveSlots(n, selected, s);
      forall i :: 0 <= i < |slots| ==> Overlap(s.window, slots[i].window)
  {
    hide SaveSlots, Overlap, Clashes, IsLive;
    SlotAt(n, selected, s);
    OverlapReflexive(s.window);
  }

  lemma PlacesCover(rows: seq<Row>, s: Save, others: seq<Row>, n: seq<Row>, selected: Option<Row>)
    requires s.window.Valid() && Split(rows, s, selected, others, n)
    ensures CoversWindow(rows, s.kind, SaveSlots(n, selected, s), s.window)
  {
    hide SaveSlots, Overlap, Clashes, IsLive, IsPrior;
    PlacesOverlap(rows, s, others, n, selected);
    forall r <- rows | IsLive(s.kind, r) && Overlap(s.window, r.window)
      ensures IsPrior(SaveSlots(n, selected, s), r)
    {
      PlaceOf(n, selected, s, r);
    }
  }

  lemma PlacesFit(rows: seq<Row>, s: Save, others: seq<Row>, n: seq<Row>, selected: Option<Row>)
    requires s.window.Valid() && Split(rows, s, selected, others, n)
    ensures SavedFits(rows, s.kind, SaveSlots(n, selected, s), TargetIndex(s.sortOrder, |n|))
  {
    hide SaveSlots;
    SlotAt(n, selected, s);
  }

  /** Everything the renumbering lemmas ask of the places of a save. */
  lemma {:induction false} SaveSlotsOk(rows: seq<Row>, s: Save)
    requires TableOk(rows) && SaveError(rows, s).None?
    ensures var slots := SlotsOf(rows, s);
      && PriorsOk(rows, s.kind, slots)
      && CoversWindow(rows, s.kind, slots, s.window)
      && SavedFits(rows, s.kind, slots, TargetIndex(s.sortOrder, |slots| - 1))
  {
    hide Split, PriorsOk, CoversWindow, SavedFits, Live, Selected, Others, Neighbours;
    hide DistinctIds, LiveWindowsValid, NoClash;
    var live := Live(rows, s.kind);
    var selected := Selected(live, s);
    var others := Others(live, selected);
    var n := Neighbours(others, s.window);
    SaveSplits(rows, s);
    SlotAt(n, selected, s);
    PlacesHavePriors(rows, s, others, n, selected);
    PlacesCover(rows, s, others, n, selected);
    PlacesFit(rows, s, others, n, selected);
  }

  // ----- Saving -----

  lemma SaveKeepsTable(rows: seq<Row>, s: Save, ids: seq<Id>, st: Stamp)
    requires TableOk(rows) && SaveError(rows, s).None? && |ids| >= |SlotsOf(rows, s)| && FreshIds(rows, ids)
    ensures TableOk(SaveRows(rows, s, ids, st))
  {
    hide SlotsOf, Renumber, Live, PriorsOk, CoversWindow, SavedFits;
    var slots := SlotsOf(rows, s);
    var at := TargetIndex(s.sortOrder, Max0(|slots| - 1));
    SaveSlotsOk(rows, s);
    RenumberKeepsIds(rows, s.kind, slots, ids, st);
    RenumberKeepsWindows(rows, s.kind, slots, ids, st, at);
    RenumberKeepsNoClash(rows, s.kind, slots, ids, st, at);
  }

  /**
   After a save the live options overlapping the saved window are numbered 1, 2, ... in display
   order; the saved one stands at the place asked for, or last; the others follow the order they
   had and keep their code, label and window.
  */
  lemma SaveRenumbersDensely(rows: seq<Row>, s: Save, ids: seq<Id>, st: Stamp)
    requires TableOk(rows) && SaveError(rows, s).None? && |ids| >= |SlotsOf(rows, s)| && FreshIds(rows, ids)
    ensures
      var live := Live(rows, s.kind);
      var before := Neighbours(Others(live, Selected(live, s)), s.window);
      var after := InOrder(SaveRows(rows, s, ids, st), s.kind, s.window);
      var at := Min(if s.sortOrder < 1 then 1 else s.sortOrder, |after|) - 1;
      && |after| == |before| + 1
      && (forall i :: 0 <= i < |after| ==> after[i].sortOrder == i + 1)
      && after[at].code == s.code && after[at].caption == s.caption && after[at].window == s.window
      && (forall i :: 0 <= i < at ==> SameOption(after[i], before[i]))
      && (forall i :: at < i < |after| ==> SameOption(after[i], before[i - 1]))
  {
    hide Neighbours, SaveSlots, Renumber, PriorsOk, CoversWindow, SavedFits, Live, Others, Selected, FreshIds;
    var live := Live(rows, s.kind);
    var selected := Selected(live, s);
    var before := Neighbours(Others(live, selected), s.window);
    var slots := SlotsOf(rows, s);
    SlotAt(before, selected, s);
    SaveSlotsOk(rows, s);
    RenumberedInOrder(rows, s.kind, slots, ids, st, s.window);
    FinalsKeepOptions(rows, s.kind, slots, ids, st);
    NeighboursAreLive(rows, s);
  }

  lemma NeighboursAreLive(rows: seq<Row>, s: Save)
    requires DistinctIds(rows)
    ensures var live := Live(rows, s.kind);
      var n := Neighbours(Others(live, Selected(live, s)), s.window);
      forall i :: 0 <= i < |n| ==> n[i].kind == s.kind
  {
    var live := Live(rows, s.kind);
    LiveIs(rows, s.kind);
    SelectedIs(live, s);
    OthersAre(live, Selected(live, s));
    NeighboursAre(Others(live, Selected(live, s)), s.window);
    var n := Neighbours(Others(live, Selected(live, s)), s.window);
    assert forall i :: 0 <= i < |n| ==> n[i] in n;
  }

  /** A final row is what its place asks for, whether new or left alone. */
  lemma FinalsKeepOptions(rows: seq<Row>, kind: string, slots: seq<Slot>, ids: seq<Id>, st: Stamp)
    requires |ids| >= |slots| && PriorsOk(rows, kind, slots)
    ensures forall i :: 0 <= i < |slots| ==>
      var f := Finals(slots, kind, ids, st)[i];
      && f.kind == kind && f.code == slots[i].code && f.caption == slots[i].caption
      && f.window == slots[i].window && f.sortOrder == i + 1
  {
  }

  /** Live options of other types, or not overlapping the saved window, stay as they are. */
  lemma SaveLeavesRest(rows: seq<Row>, s: Save, ids: seq<Id>, st: Stamp, r: Row)
    requires TableOk(rows) && SaveError(rows, s).None? && |ids| >= |SlotsOf(rows, s)| && FreshIds(rows, ids)
    requires IsLive(r.kind, r) && (r.kind != s.kind || !Overlap(s.window, r.window))
    ensures r in SaveRows(rows, s, ids, st) <==> r in rows && Selected(Live(rows, s.kind), s) != Some(r)
  {
    var live := Live(rows, s.kind);
    var selected := Selected(live, s);
    SaveSlotsOk(rows, s);
    LiveIs(rows, s.kind);
    SelectedIs(live, s);
    if r.kind == s.kind {
      OutsideWindow(rows, s.kind, SlotsOf(rows, s), ids, st, s.window, r);
      PriorIff(rows, s, r);
    } else {
      OtherKind(rows, s.kind, SlotsOf(rows, s), ids, st, r);
    }
  }

  lemma PriorIff(rows: seq<Row>, s: Save, r: Row)
    requires DistinctIds(rows) && !Overlap(s.window, r.window)
    ensures IsPrior(SlotsOf(rows, s), r) <==> Selected(Live(rows, s.kind), s) == Some(r)
  {
    hide SaveSlots, Live, Others, Selected;
    var live := Live(rows, s.kind);
    var selected := Selected(live, s);
    var others := Others(live, selected);
    LiveIs(rows, s.kind);
    SelectedIs(live, s);
    OthersAre(live, selected);
    NeighboursAre(others, s.window);
    var n := Neighbours(others, s.window);
    SlotAt(n, selected, s);
    var slots := SlotsOf(rows, s);
    var at := TargetIndex(s.sortOrder, |n|);
    assert forall i :: 0 <= i < |n| ==> n[i] in n;
    assert slots[at].prior == selected;
  }

  lemma OtherKind(rows: seq<Row>, kind: string, slots: seq<Slot>, ids: seq<Id>, st: Stamp, r: Row)
    requires DistinctIds(rows) && |ids| >= |slots| && PriorsOk(rows, kind, slots)
    requires r.current && r.kind != kind
    ensures r in Renumber(rows, kind, slots, ids, st) <==> r in rows
  {
    LiveAfter(rows, kind, slots, ids, st, r);
    ToInsertIs(slots, kind, ids, st, 0, r);
    if r in rows {
      ClosedIff(rows, kind, slots, r);
    }
  }

  lemma {:induction false} NewPlacesAt(slots: seq<Slot>, from: nat, at: int)
    requires forall i :: 0 <= i < |slots| && i != at ==> slots[i].prior.Some?
    ensures NewPlaces(slots, from) == if from <= at < |slots| && slots[at].prior.None? then 1 else 0
    decreases |slots| - from
  {
    if from < |slots| {
      NewPlacesAt(slots, from + 1, at);
    }
  }

  /** An update keeps the number of live options of its type; a create adds one. */
  lemma SaveCounts(rows: seq<Row>, s: Save, ids: seq<Id>, st: Stamp)
    requires TableOk(rows) && SaveError(rows, s).None? && |ids| >= |SlotsOf(rows, s)| && FreshIds(rows, ids)
    ensures |Live(SaveRows(rows, s, ids, st), s.kind)|
      == |Live(rows, s.kind)| + if Selected(Live(rows, s.kind), s).Some? then 0 else 1
  {
    hide SaveSlots, Renumber, PriorsOk, CoversWindow, Live, Others, Selected, FreshIds, Neighbours;
    var live := Live(rows, s.kind);
    var selected := Selected(live, s);
    var n := Neighbours(Others(live, selected), s.window);
    SaveSlotsOk(rows, s);
    SlotAt(n, selected, s);
    LiveCount(rows, s.kind, SlotsOf(rows, s), ids, st);
    NewPlacesAt(SlotsOf(rows, s), 0, TargetIndex(s.sortOrder, |n|));
  }

  // ----- Deleting -----

  /** Closing a version takes it out of the live list and leaves the rest in order. */
  lemma {:induction false} CloseVersionLive(rows: seq<Row>, kind: string, id: Id, st: Stamp)
    ensures Live(CloseVersion(rows, id, st), kind) == Filter(Live(rows, kind), IdNot(id))
  {
    var after := CloseVersion(rows, id, st);
    if rows != [] {
      assert after[1..] == CloseVersion(rows[1..], id, st);
      CloseVersionLive(rows[1..], kind, id, st);
      var head := if IsLive(kind, rows[0]) then [rows[0]] else [];
      FilterAppend(head, Live(rows[1..], kind), IdNot(id));
    } else {
      assert after == [];
    }
  }

  lemma RemovedLive(rows: seq<Row>, kind: string, target: Row, tombstone: Id, st: Stamp)
    ensures Live(Removed(rows, target, tombstone, st), kind) == Others(Live(rows, kind), Some(target))
  {
    var closed := CloseVersion(rows, target.id, st);
    CloseVersionLive(rows, kind, target.id, st);
    FilterAppend(closed, [Tombstone(tombstone, target, st)], LiveOf(kind));
  }

  /** What a delete works on: the target, and the table without it. */
  predicate Deletes(rows: seq<Row>, kind: string, id: Id, target: Row) {
    DeleteError(rows, kind, id).None? && FindById(Live(rows, kind), id) == Some(target)
  }

  predicate EnoughIds(rows: seq<Row>, target: Row, tombstone: Id, ids: seq<Id>, st: Stamp) {
    var removed := Removed(rows, target, tombstone, st);
    |ids| >= |SurvivorSlots(removed, target)| && FreshIds(rows, ids) && FreshIds(rows, [tombstone]) && tombstone !in ids
  }

  lemma TargetIsLive(rows: seq<Row>, kind: string, id: Id, target: Row)
    requires Deletes(rows, kind, id, target)
    ensures target in rows && IsLive(kind, target) && target.id == id && target in Live(rows, kind)
  {
    FindByIdIs(Live(rows, kind), id);
    FilterIn(rows, LiveOf(kind));
  }

  /** A live row after the removal was there before, and is not the target. */
  lemma RemovedOnly(rows: seq<Row>, target: Row, tombstone: Id, st: Stamp, r: Row)
    requires r.current && !r.deleted
    ensures r in Removed(rows, target, tombstone, st) <==> r in rows && r.id != target.id
  {
    var closed := CloseVersion(rows, target.id, st);
    if r in rows && r.id != target.id {
      var i :| 0 <= i < |rows| && rows[i] == r;
      assert closed[i] == r;
    }
    if r in closed {
      var i :| 0 <= i < |closed| && closed[i] == r;
      assert rows[i] == r;
    }
  }

  lemma RemovedKeepsTable(rows: seq<Row>, target: Row, tombstone: Id, ids: seq<Id>, st: Stamp)
    requires TableOk(rows) && FreshIds(rows, ids) && FreshIds(rows, [tombstone]) && tombstone !in ids
    ensures var removed := Removed(rows, target, tombstone, st); TableOk(removed) && FreshIds(removed, ids)
  {
    var removed := Removed(rows, target, tombstone, st);
    forall i | 0 <= i < |rows| ensures removed[i].id == rows[i].id && rows[i].id != tombstone {
      assert rows[i] in rows && tombstone in [tombstone];
    }
    forall r <- removed | r.current && !r.deleted ensures r in rows {
      RemovedOnly(rows, target, tombstone, st, r);
    }
    forall r <- removed ensures r.id !in ids {
      var i :| 0 <= i < |removed| && removed[i] == r;
      if i < |rows| {
        assert rows[i] in rows;
      }
    }
  }

  lemma LiveNeighbours(rows: seq<Row>, kind: string, w: Window)
    requires DistinctIds(rows)
    ensures var n := InOrder(rows, kind, w);
      && DistinctIds(n)
      && (forall i :: 0 <= i < |n| ==> n[i] in rows && IsLive(kind, n[i]) && Overlap(w, n[i].window))
      && (forall r <- rows :: IsLive(kind, r) && Overlap(w, r.window) ==> r in n)
  {
    LiveIs(rows, kind);
    NeighboursAre(Live(rows, kind), w);
    var n := InOrder(rows, kind, w);
    assert forall i :: 0 <= i < |n| ==> n[i] in n;
  }

  lemma SurvivorsOk(removed: seq<Row>, target: Row)
    requires DistinctIds(removed)
    ensures var slots := SurvivorSlots(removed, target);
      && PriorsOk(removed, target.kind, slots)
      && CoversWindow(removed, target.kind, slots, target.window)
      && SavedFits(removed, target.kind, slots, -1)
  {
    hide Neighbours, Live;
    LiveNeighbours(removed, target.kind, target.window);
    var n, slots := InOrder(removed, target.kind, target.window), SurvivorSlots(removed, target);
    forall r <- removed | IsLive(target.kind, r) && Overlap(target.window, r.window)
      ensures exists i :: 0 <= i < |slots| && slots[i].prior == Some(r)
    {
      var k :| 0 <= k < |n| && n[k] == r;
      assert slots[k].prior == Some(r);
    }
  }

  lemma DeleteKeepsTable(rows: seq<Row>, kind: string, id: Id, target: Row, tombstone: Id, ids: seq<Id>, st: Stamp)
    requires TableOk(rows) && Deletes(rows, kind, id, target) && EnoughIds(rows, target, tombstone, ids, st)
    ensures TableOk(DeleteRows(rows, kind, id, tombstone, ids, st))
  {
    hide SurvivorSlots, Renumber, Live, PriorsOk, CoversWindow, SavedFits, Removed;
    var removed := Removed(rows, target, tombstone, st);
    var slots := SurvivorSlots(removed, target);
    TargetIsLive(rows, kind, id, target);
    RemovedKeepsTable(rows, target, tombstone, ids, st);
    SurvivorsOk(removed, target);
    RenumberKeepsIds(removed, kind, slots, ids, st);
    RenumberKeepsWindows(removed, kind, slots, ids, st, -1);
    RenumberKeepsNoClash(removed, kind, slots, ids, st, -1);
  }

  /**
   After a delete the live options overlapping the deleted one's window are the others that did
   before, in the same order, numbered 1, 2, ...; and the type has one live option less.
  */
  lemma DeleteRenumbers(rows: seq<Row>, kind: string, id: Id, target: Row, tombstone: Id, ids: seq<Id>, st: Stamp)
    requires TableOk(rows) && Deletes(rows, kind, id, target) && EnoughIds(rows, target, tombstone, ids, st)
    ensures
      var survivors := Neighbours(Others(Live(rows, kind), Some(target)), target.window);
      var after := InOrder(DeleteRows(rows, kind, id, tombstone, ids, st), kind, target.window);
      && |after| == |survivors|
      && (forall i :: 0 <= i < |after| ==> after[i].sortOrder == i + 1 && SameOption(after[i], survivors[i]))
      && target.id !in Ids(Live(DeleteRows(rows, kind, id, tombstone, ids, st), kind))
  {
    hide Neighbours, Renumber, PriorsOk, CoversWindow, SavedFits, Live, Others, FreshIds, Removed;
    var removed := Removed(rows, target, tombstone, st);
    var slots := SurvivorSlots(removed, target);
    TargetIsLive(rows, kind, id, target);
    RemovedKeepsTable(rows, target, tombstone, ids, st);
    RemovedLive(rows, kind, target, tombstone, st);
    SurvivorsOk(removed, target);
    RenumberedInOrder(removed, kind, slots, ids, st, target.window);
    FinalsKeepOptions(removed, kind, slots, ids, st);
    LiveNeighbours(removed, kind, target.window);
    assert slots == KeepSlots(Neighbours(Others(Live(rows, kind), Some(target)), target.window));
    TargetGone(rows, kind, target, tombstone, ids, st);
  }

  function Ids(rows: seq<Row>): set<Id> {
    set r <- rows :: r.id
  }

  lemma TargetGone(rows: seq<Row>, kind: string, target: Row, tombstone: Id, ids: seq<Id>, st: Stamp)
    requires TableOk(rows) && EnoughIds(rows, target, tombstone, ids, st)
    requires target in rows && IsLive(kind, target)
    ensures var removed := Removed(rows, target, tombstone, st);
      target.id !in Ids(Live(Renumber(removed, kind, SurvivorSlots(removed, target), ids, st), kind))
  {
    hide Neighbours, Renumber, CoversWindow, SavedFits, Live, Removed, SurvivorSlots;
    var removed := Removed(rows, target, tombstone, st);
    var slots := SurvivorSlots(removed, target);
    var after := Renumber(removed, kind, slots, ids, st);
    RemovedKeepsTable(rows, target, tombstone, ids, st);
    SurvivorsOk(removed, target);
    RenumberKeepsIds(removed, kind, slots, ids, st);
    LiveIs(after, kind);
    forall r <- Live(after, kind) ensures r.id != target.id {
      var i := Source(removed, kind, slots, ids, st, r);
      if i == -1 {
        RemovedOnly(rows, target, tombstone, st, r);
      } else {
        assert ids[i] in ids;
      }
    }
  }

  /** Live options of other types, or not overlapping the deleted window, stay as they are. */
  lemma DeleteLeavesRest(
      rows: seq<Row>, kind: string, id: Id, target: Row, tombstone: Id, ids: seq<Id>, st: Stamp, r: Row)
    requires TableOk(rows) && Deletes(rows, kind, id, target) && EnoughIds(rows, target, tombstone, ids, st)
    requires IsLive(r.kind, r) && (r.kind != kind || !Overlap(target.window, r.window))
    ensures r in DeleteRows(rows, kind, id, tombstone, ids, st) <==> r in rows
  {
    hide Renumber, PriorsOk, CoversWindow, SavedFits, Neighbours, Live, Removed, SurvivorSlots;
    var removed := Removed(rows, target, tombstone, st);
    var slots := SurvivorSlots(removed, target);
    TargetIsLive(rows, kind, id, target);
    RemovedKeepsTable(rows, target, tombstone, ids, st);
    SurvivorsOk(removed, target);
    RemovedOnly(rows, target, tombstone, st, r);
    if r in rows && r.id == target.id {
      SameIdSameRow(rows, r, target);
      OverlapReflexive(target.window);
    }
    if r.kind == kind {
      OutsideWindow(removed, kind, slots, ids, st, target.window, r);
      SurvivorsOverlap(removed, target, r);
    } else {
      OtherKind(removed, kind, slots, ids, st, r);
    }
  }

  lemma SurvivorsOverlap(removed: seq<Row>, target: Row, r: Row)
    requires DistinctIds(removed) && !Overlap(target.window, r.window)
    ensures !IsPrior(SurvivorSlots(removed, target), r)
  {
    hide Neighbours, Live;
    LiveNeighbours(removed, target.kind, target.window);
  }

  lemma DeleteCounts(rows: seq<Row>, kind: string, id: Id, target: Row, tombstone: Id, ids: seq<Id>, st: Stamp)
    requires TableOk(rows) && Deletes(rows, kind, id, target) && EnoughIds(rows, target, tombstone, ids, st)
    ensures |Live(DeleteRows(rows, kind, id, tombstone, ids, st), kind)| == |Live(rows, kind)| - 1
  {
    hide Renumber, PriorsOk, CoversWindow, SavedFits, Neighbours;
    var removed := Removed(rows, target, tombstone, st);
    var slots := SurvivorSlots(removed, target);
    TargetIsLive(rows, kind, id, target);
    RemovedKeepsTable(rows, target, tombstone, ids, st);
    SurvivorsOk(removed, target);
    LiveCount(removed, kind, slots, ids, st);
    NewPlacesAt(slots, 0, -1);
    var i :| 0 <= i < |rows| && rows[i] == target;
    CloseOneLive(rows, kind, target.id, st);
    FilterAppend(CloseVersion(rows, target.id, st), [Tombstone(tombstone, target, st)], LiveOf(kind));
  }

  // ----- Runs -----

  datatype Op =
    | SaveOp(s: Save, ids: seq<Id>, st: Stamp)
    | DeleteOp(kind: string, id: Id, tombstone: Id, ids: seq<Id>, st: Stamp)

  /** The new ids are fresh, and there are enough of them. */
  predicate Ready(rows: seq<Row>, op: Op) {
    match op
    case SaveOp(s, ids, st) => |ids| >= |SlotsOf(rows, s)| && FreshIds(rows, ids)
    case DeleteOp(kind, id, tombstone, ids, st) =>
      DeleteError(rows, kind, id).None? ==>
        EnoughIds(rows, FindById(Live(rows, kind), id).value, tombstone, ids, st)
  }

  function After(rows: seq<Row>, op: Op): seq<Row>
    requires Ready(rows, op)
  {
    match op
    case SaveOp(s, ids, st) => SaveRows(rows, s, ids, st)
    case DeleteOp(kind, id, tombstone, ids, st) => DeleteRows(rows, kind, id, tombstone, ids, st)
  }

  predicate ReadyRun(rows: seq<Row>, ops: seq<Op>)
    decreases |ops|
  {
    ops == [] || (Ready(rows, ops[0]) && ReadyRun(After(rows, ops[0]), ops[1..]))
  }

  function Run(rows: seq<Row>, ops: seq<Op>): seq<Row>
    requires ReadyRun(rows, ops)
    decreases |ops|
  {
    if ops == [] then rows else Run(After(rows, ops[0]), ops[1..])
  }

  lemma StepKeepsTable(rows: seq<Row>, op: Op)
    requires TableOk(rows) && Ready(rows, op)
    ensures TableOk(After(rows, op))
  {
    hide TableOk, SlotsOf, EnoughIds, FreshIds, SaveError, DeleteError;
    match op
    case SaveOp(s, ids, st) =>
      if SaveError(rows, s).None? {
        SaveKeepsTable(rows, s, ids, st);
      }
    case DeleteOp(kind, id, tombstone, ids, st) =>
      if DeleteError(rows, kind, id).None? {
        FoundTarget(rows, kind, id);
        DeleteKeepsTable(rows, kind, id, FindById(Live(rows, kind), id).value, tombstone, ids, st);
      }
  }

  lemma FoundTarget(rows: seq<Row>, kind: string, id: Id)
    requires DeleteError(rows, kind, id).None?
    ensures FindById(Live(rows, kind), id).Some? && Deletes(rows, kind, id, FindById(Live(rows, kind), id).value)
  {
  }

  /** Over any run, no two live options of a type share a label while their windows overlap. */
  lemma {:induction false} RunKeepsTable(rows: seq<Row>, ops: seq<Op>)
    requires TableOk(rows) && ReadyRun(rows, ops)
    ensures TableOk(Run(rows, ops))
    decreases |ops|
  {
    if ops != [] {
      StepKeepsTable(rows, ops[0]);
      RunKeepsTable(After(rows, ops[0]), ops[1..]);
    }
  }

  /** The version is still where it was; at most it was current and has been marked superseded. */
  ghost predicate Kept(before: Row, after: Row) {
    || after == before
    || (before.current && exists st: Stamp :: after == Closed(before, st))
  }

  lemma StepKeepsHistory(rows: seq<Row>, op: Op, i: nat)
    requires TableOk(rows) && Ready(rows, op) && i < |rows|
    ensures i < |After(rows, op)| && Kept(rows[i], After(rows, op)[i])
  {
    hide Renumber, PriorsOk, CoversWindow, SavedFits, Live, FreshIds;
    match op
    case SaveOp(s, ids, st) =>
      if SaveError(rows, s).None? {
        SaveSlotsOk(rows, s);
        HistoryKept(rows, s.kind, SlotsOf(rows, s), ids, st, i);
      }
    case DeleteOp(kind, id, tombstone, ids, st) =>
      if DeleteError(rows, kind, id).None? {
        FoundTarget(rows, kind, id);
        var target := FindById(Live(rows, kind), id).value;
        var removed := Removed(rows, target, tombstone, st);
        TargetIsLive(rows, kind, id, target);
        RemovedKeepsTable(rows, target, tombstone, ids, st);
        SurvivorsOk(removed, target);
        HistoryKept(removed, kind, SurvivorSlots(removed, target), ids, st, i);
        if rows[i].id == target.id {
          SameIdSameRow(rows, rows[i], target);
        }
      }
  }

  /** Over any run, every version ever written is still there, at most marked superseded. */
  lemma {:induction false} RunKeepsHistory(rows: seq<Row>, ops: seq<Op>, i: nat)
    requires TableOk(rows) && ReadyRun(rows, ops) && i < |rows|
    ensures i < |Run(rows, ops)| && Kept(rows[i], Run(rows, ops)[i])
    decreases |ops|
  {
    if ops != [] {
      var next := After(rows, ops[0]);
      StepKeepsTable(rows, ops[0]);
      StepKeepsHistory(rows, ops[0], i);
      RunKeepsHistory(next, ops[1..], i);
    }
  }
}
