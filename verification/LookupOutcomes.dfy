/**
 Which version a save or a delete works on, when each is refused, and what it writes, in terms of the
 rows alone.
*/
module LookupOutcomes {
  import opened Common
  import opened LookupTable
  import opened LookupTheorems
  import opened LookupRuns

  // ----- The version a save updates -----

  /** A live version with the code that is the only one of its type. */
  predicate OnlyWithCode(rows: seq<Row>, kind: string, code: string, r: Row) {
    && r in rows && IsLive(kind, r) && r.code == code
    && forall x <- rows :: IsLive(kind, x) && x.code == code ==> x == r
  }

  /** The version an update works on: the one with the id given, or without an id the only one with the code. */
  predicate IsTarget(rows: seq<Row>, s: Save, r: Row) {
    if s.optionId != "" then r in rows && IsLive(s.kind, r) && r.id == s.optionId
    else OnlyWithCode(rows, s.kind, s.code, r)
  }

  lemma OnlyMember(s: seq<Row>, r: Row)
    requires DistinctIds(s)
    ensures |s| == 1 && s[0] == r <==> r in s && forall x <- s :: x == r
  {
    assert s != [] ==> s[0] in s;
    assert |s| > 1 ==> s[0].id != s[1].id && s[1] in s;
  }

  lemma OneLeft(rows: seq<Row>, kind: string, code: string, r: Row)
    requires DistinctIds(rows)
    ensures var matching := Filter(Live(rows, kind), HasCode(code));
      |matching| == 1 && matching[0] == r <==> OnlyWithCode(rows, kind, code, r)
  {
    hide DistinctIds;
    var live := Live(rows, kind);
    var matching := Filter(live, HasCode(code));
    LiveIs(rows, kind);
    FilterIn(live, HasCode(code));
    FilterDistinct(live, HasCode(code));
    OnlyMember(matching, r);
    assert forall x :: x in matching <==> x in rows && IsLive(kind, x) && x.code == code;
  }

  lemma SelectedIff(rows: seq<Row>, s: Save, r: Row)
    requires DistinctIds(rows)
    ensures Selected(Live(rows, s.kind), s) == Some(r) <==> IsTarget(rows, s, r)
  {
    hide OnlyWithCode;
    LiveIs(rows, s.kind);
    if s.optionId != "" {
      FindByIdIs(Live(rows, s.kind), s.optionId);
      if IsTarget(rows, s, r) {
        var found := FindById(Live(rows, s.kind), s.optionId).value;
        SameIdSameRow(rows, found, r);
      }
    } else {
      OneLeft(rows, s.kind, s.code, r);
    }
  }

  /** A live version of the type, other than the one updated, with the label at an overlapping time. */
  predicate LabelElsewhere(rows: seq<Row>, s: Save) {
    exists r <- rows ::
      && IsLive(s.kind, r) && !IsTarget(rows, s, r)
      && Lower(r.caption) == Lower(s.caption) && Overlap(s.window, r.window)
  }

  lemma OthersExactly(rows: seq<Row>, s: Save)
    requires DistinctIds(rows)
    ensures var others := Others(Live(rows, s.kind), Selected(Live(rows, s.kind), s));
      forall r :: r in others <==> r in rows && IsLive(s.kind, r) && !IsTarget(rows, s, r)
  {
    hide IsTarget, Others, Selected, Live;
    var live := Live(rows, s.kind);
    LiveIs(rows, s.kind);
    SelectedIs(live, s);
    OthersAre(live, Selected(live, s));
    forall r ensures Selected(live, s) == Some(r) <==> IsTarget(rows, s, r) {
      SelectedIff(rows, s, r);
    }
  }

  /**
   When a save is refused, and why: a reversed window; then an id that is no live version's; then a
   label that another live version of the type has at an overlapping time. Otherwise it is accepted.
  */
  lemma SaveErrorIs(rows: seq<Row>, s: Save)
    requires DistinctIds(rows)
    ensures SaveError(rows, s) ==
      if s.window.from > s.window.to then Some(BadWindow)
      else if s.optionId != "" && !(exists r <- rows :: IsLive(s.kind, r) && r.id == s.optionId) then Some(NoSuchOption)
      else if LabelElsewhere(rows, s) then Some(LabelTaken)
      else None
  {
    hide Others;
    var live := Live(rows, s.kind);
    LiveIs(rows, s.kind);
    FindByIdIs(live, s.optionId);
    OthersExactly(rows, s);
  }

  /** The day, counted from the epoch, lies in the window. */
  predicate DayIn(d: int, w: Window) {
    w.from / 86400 <= d <= w.to / 86400
  }

  /** Two windows overlap exactly when some calendar day lies in both. */
  lemma OverlapIff(a: Window, b: Window)
    requires a.from <= a.to && b.from <= b.to
    ensures Overlap(a, b) <==> exists d: int :: DayIn(d, a) && DayIn(d, b)
  {
    if Overlap(a, b) {
      var d := if Day(a.from) <= Day(b.from) then Day(b.from) else Day(a.from);
      DaysOrdered(a);
      DaysOrdered(b);
      assert DayIn(d, a) && DayIn(d, b);
    }
  }

  lemma DaysOrdered(w: Window)
    requires w.from <= w.to
    ensures Day(w.from) <= Day(w.to)
  {
  }

  // ----- What a save does to the live versions -----

  /**
   An accepted save with a target is an update: it keeps the number of live options, and the target
   is either superseded or already was what is saved. Without a target it is a create: it adds one.
  */
  lemma SaveUpdatesOrCreates(rows: seq<Row>, s: Save, ids: seq<Id>, st: Stamp)
    requires TableOk(rows) && SaveError(rows, s).None? && |ids| >= |SlotsOf(rows, s)| && FreshIds(rows, ids)
    ensures var before, after := Live(rows, s.kind), Live(SaveRows(rows, s, ids, st), s.kind);
      && (forall r <- rows :: IsTarget(rows, s, r) ==>
            && |after| == |before|
            && (r in after ==> r.code == s.code && r.caption == s.caption && r.window == s.window))
      && ((forall r <- rows :: !IsTarget(rows, s, r)) ==> |after| == |before| + 1)
  {
    hide IsTarget, Selected, SlotsOf, SaveRows, SaveError;
    var live := Live(rows, s.kind);
    LiveIs(rows, s.kind);
    SelectedIs(live, s);
    SaveCounts(rows, s, ids, st);
    forall r <- rows ensures Selected(live, s) == Some(r) <==> IsTarget(rows, s, r) {
      SelectedIff(rows, s, r);
    }
    forall r <- rows | IsTarget(rows, s, r) && r in Live(SaveRows(rows, s, ids, st), s.kind)
      ensures r.code == s.code && r.caption == s.caption && r.window == s.window
    {
      TargetReplaced(rows, s, ids, st, r);
    }
  }

  lemma TargetReplaced(rows: seq<Row>, s: Save, ids: seq<Id>, st: Stamp, r: Row)
    requires TableOk(rows) && SaveError(rows, s).None? && |ids| >= |SlotsOf(rows, s)| && FreshIds(rows, ids)
    requires Selected(Live(rows, s.kind), s) == Some(r)
    requires r in Live(SaveRows(rows, s, ids, st), s.kind)
    ensures r.code == s.code && r.caption == s.caption && r.window == s.window
  {
    hide SaveSlots, PriorsOk, CoversWindow, SavedFits, Others, Neighbours, ToClose, ToInsert, CloseAll;
    var live := Live(rows, s.kind);
    var others := Others(live, Selected(live, s));
    var slots := SlotsOf(rows, s);
    LiveIs(rows, s.kind);
    SelectedIs(live, s);
    FilterIn(SaveRows(rows, s, ids, st), LiveOf(s.kind));
    SaveSlotsOk(rows, s);
    LiveAfter(rows, s.kind, slots, ids, st, r);
    ToInsertIs(slots, s.kind, ids, st, 0, r);
    ToCloseIs(slots, 0, r.id);
    SlotAt(Neighbours(others, s.window), Selected(live, s), s);
    var at := TargetIndex(s.sortOrder, |Neighbours(others, s.window)|);
    assert slots[at] == Slot(Some(r), s.code, s.caption, s.window);
    assert !ClosesAt(slots, at, r.id);
  }

  /** Live versions of other types, or outside the saved window, are exactly those there before, but for the target. */
  lemma SaveLeavesOthers(rows: seq<Row>, s: Save, ids: seq<Id>, st: Stamp, r: Row)
    requires TableOk(rows) && SaveError(rows, s).None? && |ids| >= |SlotsOf(rows, s)| && FreshIds(rows, ids)
    requires IsLive(r.kind, r) && (r.kind != s.kind || !Overlap(s.window, r.window))
    ensures r in SaveRows(rows, s, ids, st) <==> r in rows && !IsTarget(rows, s, r)
  {
    SaveLeavesRest(rows, s, ids, st, r);
    SelectedIff(rows, s, r);
  }

  /** The live versions of the type that overlap the saved window, but for the target, in the order they are shown. */
  ghost predicate AreOthers(rows: seq<Row>, s: Save, others: seq<Row>) {
    && SortedRows(others) && DistinctIds(others)
    && forall r :: r in others <==>
         r in rows && IsLive(s.kind, r) && !IsTarget(rows, s, r) && Overlap(s.window, r.window)
  }

  lemma NeighboursAreOthers(rows: seq<Row>, s: Save)
    requires DistinctIds(rows)
    ensures var live := Live(rows, s.kind);
      AreOthers(rows, s, Neighbours(Others(live, Selected(live, s)), s.window))
  {
    hide IsTarget, Neighbours, Others, Selected, Live;
    var live := Live(rows, s.kind);
    LiveIs(rows, s.kind);
    SelectedIs(live, s);
    OthersAre(live, Selected(live, s));
    NeighboursAre(Others(live, Selected(live, s)), s.window);
    OthersExactly(rows, s);
  }

  /**
   After a save the options of the window are the others in their order with the saved one at its
   place, numbered densely.
  */
  lemma SavePlaces(rows: seq<Row>, s: Save, ids: seq<Id>, st: Stamp) returns (before: seq<Row>)
    requires TableOk(rows) && SaveError(rows, s).None? && |ids| >= |SlotsOf(rows, s)| && FreshIds(rows, ids)
    ensures AreOthers(rows, s, before)
    ensures
      var after := InOrder(SaveRows(rows, s, ids, st), s.kind, s.window);
      var at := Min(if s.sortOrder < 1 then 1 else s.sortOrder, |after|) - 1;
      && |after| == |before| + 1
      && (forall i :: 0 <= i < |after| ==> after[i].sortOrder == i + 1)
      && after[at].code == s.code && after[at].caption == s.caption && after[at].window == s.window
      && (forall i :: 0 <= i < at ==> SameOption(after[i], before[i]))
      && (forall i :: at < i < |after| ==> SameOption(after[i], before[i - 1]))
  {
    hide IsTarget, Neighbours, Others, Selected, Live, SaveRows, SlotsOf, InOrder;
    var live := Live(rows, s.kind);
    before := Neighbours(Others(live, Selected(live, s)), s.window);
    NeighboursAreOthers(rows, s);
    SaveRenumbersDensely(rows, s, ids, st);
  }

  predicate SaysThat(r: Row, s: Save) {
    r.code == s.code && r.caption == s.caption && r.window == s.window
  }

  /**
   A version that already stands at its number is not written again: the others of the window that
   keep their number stay as they are, and so does the saved one when nothing about it changes.
  */
  lemma SaveRewritesNoMore(rows: seq<Row>, s: Save, ids: seq<Id>, st: Stamp) returns (before: seq<Row>)
    requires TableOk(rows) && SaveError(rows, s).None? && |ids| >= |SlotsOf(rows, s)| && FreshIds(rows, ids)
    ensures AreOthers(rows, s, before)
    ensures
      var after := InOrder(SaveRows(rows, s, ids, st), s.kind, s.window);
      var at := Min(if s.sortOrder < 1 then 1 else s.sortOrder, |after|) - 1;
      && |after| == |before| + 1
      && (forall i :: 0 <= i < at && before[i].sortOrder == i + 1 ==> after[i] == before[i])
      && (forall i :: at < i < |after| && before[i - 1].sortOrder == i + 1 ==> after[i] == before[i - 1])
      && (forall r <- rows :: IsTarget(rows, s, r) && SaysThat(r, s) && r.sortOrder == at + 1 ==> after[at] == r)
  {
    hide IsTarget, Neighbours, Others, Selected, Live, SaveSlots, Renumber, InOrder, PriorsOk, CoversWindow, SavedFits;
    hide Clashes, LabelElsewhere;
    var live := Live(rows, s.kind);
    var selected := Selected(live, s);
    before := Neighbours(Others(live, selected), s.window);
    NeighboursAreOthers(rows, s);
    SlotAt(before, selected, s);
    SaveSlotsOk(rows, s);
    RenumberedInOrder(rows, s.kind, SlotsOf(rows, s), ids, st, s.window);
    forall r <- rows ensures selected == Some(r) <==> IsTarget(rows, s, r) {
      SelectedIff(rows, s, r);
    }
  }

  // ----- What is written -----

  /** A version that an operation closes keeps everything but its end, its current flag and its stamp. */
  predicate ClosedAt(before: Row, after: Row, st: Stamp) {
    && after == before.(window := after.window, current := false, updatedAt := st.now, updatedBy := st.actor)
    && after.window == Window(before.window.from, st.now)
  }

  /**
   Old rows stay, or are closed at the time of the save; each new row is a live, active version of
   the type, stamped by it.
  */
  lemma SaveWrites(rows: seq<Row>, s: Save, ids: seq<Id>, st: Stamp, i: nat)
    requires TableOk(rows) && SaveError(rows, s).None? && |ids| >= |SlotsOf(rows, s)| && FreshIds(rows, ids)
    requires i < |SaveRows(rows, s, ids, st)|
    ensures var after := SaveRows(rows, s, ids, st);
      && |after| >= |rows|
      && (i < |rows| ==> after[i] == rows[i] || (IsLive(s.kind, rows[i]) && ClosedAt(rows[i], after[i], st)))
      && (i >= |rows| ==>
            && IsLive(s.kind, after[i]) && after[i].active && after[i].id in ids
            && after[i].updatedAt == st.now && after[i].updatedBy == st.actor)
  {
    hide SlotsOf, PriorsOk, CoversWindow, SavedFits, ToClose, ToInsert;
    var slots := SlotsOf(rows, s);
    SaveSlotsOk(rows, s);
    if i < |rows| {
      HistoryKept(rows, s.kind, slots, ids, st, i);
    } else {
      var r := SaveRows(rows, s, ids, st)[i];
      assert r == ToInsert(slots, s.kind, ids, st, 0)[i - |rows|];
      ToInsertIs(slots, s.kind, ids, st, 0, r);
    }
  }

  // ----- Deleting -----

  /** A delete is refused without an id, and when the id is no live version's. */
  lemma DeleteErrorIs(rows: seq<Row>, kind: string, id: Id)
    requires DistinctIds(rows)
    ensures DeleteError(rows, kind, id) ==
      if id == "" then Some(IdRequired)
      else if !(exists r <- rows :: IsLive(kind, r) && r.id == id) then Some(NoSuchOption)
      else None
  {
    LiveIs(rows, kind);
    FindByIdIs(Live(rows, kind), id);
  }

  /** The version deleted is the live one with the id. */
  lemma DeletesIff(rows: seq<Row>, kind: string, id: Id, target: Row)
    requires DistinctIds(rows) && id != ""
    ensures Deletes(rows, kind, id, target) <==> target in rows && IsLive(kind, target) && target.id == id
  {
    LiveIs(rows, kind);
    FindByIdIs(Live(rows, kind), id);
    if target in rows && IsLive(kind, target) && target.id == id {
      SameIdSameRow(rows, FindById(Live(rows, kind), id).value, target);
    }
  }

  /**
   An accepted delete closes the target where it stands and adds its tombstone, which is valid from
   then on and never shown.
  */
  lemma DeleteWrites(rows: seq<Row>, kind: string, id: Id, target: Row, tombstone: Id, ids: seq<Id>, st: Stamp, i: nat)
    requires TableOk(rows) && Deletes(rows, kind, id, target) && EnoughIds(rows, target, tombstone, ids, st)
    requires i < |rows| && rows[i] == target
    ensures var after := DeleteRows(rows, kind, id, tombstone, ids, st);
      && |after| > |rows| && ClosedAt(target, after[i], st)
      && var t := after[|rows|];
         && t.id == tombstone && t.kind == target.kind && t.code == target.code && t.caption == target.caption
         && t.deleted && !t.active && t.window == Window(st.now, END_OF_TIME)
         && t.updatedAt == st.now && t.updatedBy == st.actor
         && (target.sortOrder != 0 ==> t.sortOrder == target.sortOrder)
  {
    hide SurvivorSlots, PriorsOk, CoversWindow, ToClose, ToInsert;
    var removed := Removed(rows, target, tombstone, st);
    var slots := SurvivorSlots(removed, target);
    TargetIsLive(rows, kind, id, target);
    RemovedKeepsTable(rows, target, tombstone, ids, st);
    SurvivorsOk(removed, target);
    HistoryKept(removed, kind, slots, ids, st, i);
    HistoryKept(removed, kind, slots, ids, st, |rows|);
  }

  // ----- The order in which options are shown -----

  /** At place k the first text is at its end or has the smaller character, and both agree before it. */
  predicate DiffersAt(a: string, b: string, k: nat) {
    && k <= |a| && k <= |b| && a[..k] == b[..k]
    && (k == |a| || (k < |b| && a[k] < b[k]))
  }

  /** Texts are compared by their first difference. */
  lemma {:induction false} StrLeqIff(a: string, b: string)
    ensures StrLeq(a, b) <==> exists k: nat :: DiffersAt(a, b, k)
  {
    if a == [] {
      assert DiffersAt(a, b, 0);
    } else if b != [] && a[0] == b[0] {
      StrLeqIff(a[1..], b[1..]);
      if k: nat :| DiffersAt(a[1..], b[1..], k) {
        assert a[..k + 1] == [a[0]] + a[1..][..k] && b[..k + 1] == [b[0]] + b[1..][..k];
        assert DiffersAt(a, b, k + 1);
      }
      if k: nat :| DiffersAt(a, b, k) {
        assert k > 0;
        assert a[1..][..k - 1] == a[..k][1..] && b[1..][..k - 1] == b[..k][1..];
        assert DiffersAt(a[1..], b[1..], k - 1);
      }
    } else {
      if b != [] && a[0] < b[0] {
        assert DiffersAt(a, b, 0);
      }
      if k: nat :| DiffersAt(a, b, k) {
        assert k > 0 ==> a[..k][0] == b[..k][0];
      }
    }
  }

  /** Options are shown by number, an unnumbered one as 999; then by label ignoring case; then by id. */
  lemma OrderIs(a: Row, b: Row)
    ensures var m, n := if a.sortOrder == 0 then 999 else a.sortOrder, if b.sortOrder == 0 then 999 else b.sortOrder;
      && (m < n ==> RowLeq(a, b)) && (m > n ==> !RowLeq(a, b))
      && (m == n && Lower(a.caption) != Lower(b.caption) ==>
            (RowLeq(a, b) <==> StrLeq(Lower(a.caption), Lower(b.caption))))
      && (m == n && Lower(a.caption) == Lower(b.caption) ==> (RowLeq(a, b) <==> StrLeq(a.id, b.id)))
  {
  }
}
