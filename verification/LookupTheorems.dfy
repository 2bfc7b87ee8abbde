/**
 What saving and deleting lookup options guarantee: dense renumbering of the overlapping window,
 nothing else touched, no clashing labels, and no version ever lost, over any run of calls.
*/
module LookupTheorems {
  import opened Common
  import opened LookupTable

  // ----- The table invariant -----

  predicate DistinctIds(rows: seq<Row>) {
    forall i, j :: 0 <= i < j < |rows| ==> rows[i].id != rows[j].id
  }

  predicate LiveWindowsValid(rows: seq<Row>) {
    forall r <- rows :: r.current && !r.deleted ==> r.window.Valid()
  }

  /** Two live versions of one type that a user would take for the same option at the same time. */
  predicate Clash(a: Row, b: Row) {
    && IsLive(a.kind, a) && IsLive(a.kind, b)
    && a.id != b.id
    && Lower(a.caption) == Lower(b.caption)
    && Overlap(a.window, b.window)
  }

  predicate NoClash(rows: seq<Row>) {
    forall a <- rows, b <- rows :: !Clash(a, b)
  }

  /** Fresh ids, as uuid4 gives them: all different and none in the table. */
  predicate FreshIds(rows: seq<Row>, ids: seq<Id>) {
    && (forall i, j :: 0 <= i < j < |ids| ==> ids[i] != ids[j])
    && (forall r <- rows :: r.id !in ids)
  }

  // ----- Order -----

  lemma {:induction false} StrLeqTotal(a: string, b: string)
    ensures StrLeq(a, b) || StrLeq(b, a)
  {
    if a != [] && b != [] {
      StrLeqTotal(a[1..], b[1..]);
    }
  }

  lemma {:induction false} StrLeqTransitive(a: string, b: string, c: string)
    requires StrLeq(a, b) && StrLeq(b, c)
    ensures StrLeq(a, c)
  {
    if a != [] && a[0] == b[0] == c[0] {
      StrLeqTransitive(a[1..], b[1..], c[1..]);
    }
  }

  lemma {:induction false} StrLeqAntisymmetric(a: string, b: string)
    requires StrLeq(a, b) && StrLeq(b, a)
    ensures a == b
  {
    if a != [] {
      StrLeqAntisymmetric(a[1..], b[1..]);
    }
  }

  lemma RowLeqTotal(a: Row, b: Row)
    ensures RowLeq(a, b) || RowLeq(b, a)
  {
    StrLeqTotal(Lower(a.caption), Lower(b.caption));
    StrLeqTotal(a.id, b.id);
  }

  lemma RowLeqTransitive(a: Row, b: Row, c: Row)
    requires RowLeq(a, b) && RowLeq(b, c)
    ensures RowLeq(a, c)
  {
    var la, lb, lc := Lower(a.caption), Lower(b.caption), Lower(c.caption);
    if StrLeq(la, lb) && StrLeq(lb, lc) {
      StrLeqTransitive(la, lb, lc);
    }
    if la == lc && StrLeq(la, lb) && StrLeq(lb, lc) {
      StrLeqAntisymmetric(la, lb);
    }
    if StrLeq(a.id, b.id) && StrLeq(b.id, c.id) {
      StrLeqTransitive(a.id, b.id, c.id);
    }
  }

  predicate SortedRows(s: seq<Row>) {
    forall i, j :: 0 <= i < j < |s| ==> RowLeq(s[i], s[j])
  }

  lemma {:induction false} InsertRowMembers(r: Row, s: seq<Row>)
    ensures forall x :: x in InsertRow(r, s) <==> x == r || x in s
  {
    if s != [] {
      InsertRowMembers(r, s[1..]);
      assert s == [s[0]] + s[1..];
    }
  }

  lemma {:induction false} InsertRowSorted(r: Row, s: seq<Row>)
    requires SortedRows(s)
    ensures SortedRows(InsertRow(r, s))
  {
    if s == [] {
    } else if RowLeq(r, s[0]) {
      forall j | 0 <= j < |s| ensures RowLeq(r, s[j]) {
        if j > 0 { RowLeqTransitive(r, s[0], s[j]); }
      }
    } else {
      RowLeqTotal(r, s[0]);
      InsertRowSorted(r, s[1..]);
      InsertRowMembers(r, s[1..]);
      var t := InsertRow(r, s[1..]);
      forall j | 0 <= j < |t| ensures RowLeq(s[0], t[j]) {
        assert t[j] in t;
      }
    }
  }

  lemma {:induction false} InsertRowDistinct(r: Row, s: seq<Row>)
    requires DistinctIds(s) && forall i :: 0 <= i < |s| ==> s[i].id != r.id
    ensures DistinctIds(InsertRow(r, s))
  {
    if s != [] && !RowLeq(r, s[0]) {
      InsertRowDistinct(r, s[1..]);
      InsertRowMembers(r, s[1..]);
      var t := InsertRow(r, s[1..]);
      forall j | 0 <= j < |t| ensures s[0].id != t[j].id {
        assert t[j] in t;
      }
    }
  }

  /** Sorting keeps the same rows, in key order. */
  lemma {:induction false} SortRowsSorted(rows: seq<Row>)
    requires DistinctIds(rows)
    ensures var s := SortRows(rows);
      SortedRows(s) && DistinctIds(s) && forall x :: x in s <==> x in rows
  {
    if rows != [] {
      SortRowsSorted(rows[1..]);
      assert rows == [rows[0]] + rows[1..];
      var s := SortRows(rows[1..]);
      forall i | 0 <= i < |s| ensures s[i].id != rows[0].id {
        assert s[i] in s;
      }
      InsertRowMembers(rows[0], s);
      InsertRowSorted(rows[0], s);
      InsertRowDistinct(rows[0], s);
    }
  }

  lemma {:induction false} FilterDistinct(rows: seq<Row>, p: Row -> bool)
    requires DistinctIds(rows)
    ensures DistinctIds(Filter(rows, p))
  {
    if rows != [] {
      FilterDistinct(rows[1..], p);
      var rest := Filter(rows[1..], p);
      FilterIn(rows[1..], p);
      forall j | 0 <= j < |rest| ensures rest[j].id != rows[0].id {
        assert rest[j] in rest && rest[j] in rows[1..];
      }
      assert Filter(rows, p) == rest || Filter(rows, p) == [rows[0]] + rest;
    }
  }

  // ----- What renumbering writes -----

  /** Place i changes, and supersedes the version with this id. */
  predicate ClosesAt(slots: seq<Slot>, i: int, id: Id) {
    0 <= i < |slots| && !Unchanged(slots[i], i + 1) && slots[i].prior.Some? && slots[i].prior.value.id == id
  }

  /** Place i changes, and r is the version it gets. */
  predicate InsertsAt(slots: seq<Slot>, kind: string, ids: seq<Id>, st: Stamp, i: int, r: Row)
    requires |ids| >= |slots|
  {
    0 <= i < |slots| && !Unchanged(slots[i], i + 1) && r == NewVersion(ids[i], kind, slots[i], i + 1, st)
  }

  lemma {:induction false} ToCloseIs(slots: seq<Slot>, from: nat, id: Id)
    ensures id in ToClose(slots, from) <==> exists i :: i >= from && ClosesAt(slots, i, id)
    decreases |slots| - from
  {
    if from < |slots| {
      ToCloseIs(slots, from + 1, id);
      assert id in ToClose(slots, from) <==> ClosesAt(slots, from, id) || id in ToClose(slots, from + 1);
    }
  }

  lemma {:induction false} ToInsertIs(slots: seq<Slot>, kind: string, ids: seq<Id>, st: Stamp, from: nat, r: Row)
    requires |ids| >= |slots|
    ensures r in ToInsert(slots, kind, ids, st, from) <==>
      exists i :: i >= from && InsertsAt(slots, kind, ids, st, i, r)
    decreases |slots| - from
  {
    if from < |slots| {
      ToInsertIs(slots, kind, ids, st, from + 1, r);
      assert r in ToInsert(slots, kind, ids, st, from) <==>
        InsertsAt(slots, kind, ids, st, from, r) || r in ToInsert(slots, kind, ids, st, from + 1);
    }
  }

  /** Closing leaves every row in its place, and touches only the listed ones. */
  lemma {:induction false} CloseAllAt(rows: seq<Row>, ids: seq<Id>, st: Stamp, i: nat)
    requires i < |rows|
    ensures CloseAll(rows, ids, st)[i] == if rows[i].id in ids then Closed(rows[i], st) else rows[i]
    decreases |ids|
  {
    if ids != [] {
      CloseAllAt(CloseVersion(rows, ids[0], st), ids[1..], st, i);
      assert ids == [ids[0]] + ids[1..];
    }
  }

  /** What stands at place i afterwards. */
  function FinalRow(slots: seq<Slot>, kind: string, ids: seq<Id>, st: Stamp, i: nat): Row
    requires i < |slots| <= |ids|
  {
    if Unchanged(slots[i], i + 1) then slots[i].prior.value else NewVersion(ids[i], kind, slots[i], i + 1, st)
  }

  function Finals(slots: seq<Slot>, kind: string, ids: seq<Id>, st: Stamp): (f: seq<Row>)
    requires |slots| <= |ids|
    ensures |f| == |slots|
  {
    seq(|slots|, i requires 0 <= i < |slots| => FinalRow(slots, kind, ids, st, i))
  }

  /** Each place supersedes a different live version of this type. */
  predicate PriorsOk(rows: seq<Row>, kind: string, slots: seq<Slot>) {
    && (forall i :: 0 <= i < |slots| && slots[i].prior.Some? ==>
          slots[i].prior.value in rows && IsLive(kind, slots[i].prior.value))
    && (forall i, j :: 0 <= i < j < |slots| && slots[i].prior.Some? && slots[j].prior.Some? ==>
          slots[i].prior.value.id != slots[j].prior.value.id)
  }

  predicate IsPrior(slots: seq<Slot>, r: Row) {
    exists i :: 0 <= i < |slots| && slots[i].prior == Some(r)
  }

  /** The places all overlap the window, and every live overlapping version has one. */
  predicate CoversWindow(rows: seq<Row>, kind: string, slots: seq<Slot>, w: Window) {
    && (forall i :: 0 <= i < |slots| ==> Overlap(w, slots[i].window))
    && (forall r <- rows :: IsLive(kind, r) && Overlap(w, r.window) ==> IsPrior(slots, r))
  }

  /** A changed place supersedes r. */
  predicate IsSuperseded(slots: seq<Slot>, r: Row) {
    exists i :: 0 <= i < |slots| && slots[i].prior == Some(r) && !Unchanged(slots[i], i + 1)
  }

  lemma SameIdSameRow(rows: seq<Row>, a: Row, b: Row)
    requires DistinctIds(rows) && a in rows && b in rows && a.id == b.id
    ensures a == b
  {
  }

  /** A live row afterwards is an old row left alone or a new version of a changed place. */
  lemma LiveAfter(rows: seq<Row>, kind: string, slots: seq<Slot>, ids: seq<Id>, st: Stamp, r: Row)
    requires DistinctIds(rows) && |ids| >= |slots| && PriorsOk(rows, kind, slots)
    requires r.current
    ensures r in Renumber(rows, kind, slots, ids, st) <==>
      || (r in rows && r.id !in ToClose(slots, 0))
      || r in ToInsert(slots, kind, ids, st, 0)
  {
    var closed := CloseAll(rows, ToClose(slots, 0), st);
    if r in closed {
      var i :| 0 <= i < |closed| && closed[i] == r;
      CloseAllAt(rows, ToClose(slots, 0), st, i);
    }
    if r in rows && r.id !in ToClose(slots, 0) {
      var i :| 0 <= i < |rows| && rows[i] == r;
      CloseAllAt(rows, ToClose(slots, 0), st, i);
      assert closed[i] == r;
    }
  }

  /** An old live row is left alone exactly when no changed place supersedes it. */
  lemma ClosedIff(rows: seq<Row>, kind: string, slots: seq<Slot>, r: Row)
    requires DistinctIds(rows) && PriorsOk(rows, kind, slots) && r in rows
    ensures r.id in ToClose(slots, 0) <==> IsSuperseded(slots, r)
  {
    ToCloseIs(slots, 0, r.id);
    if r.id in ToClose(slots, 0) {
      var i :| i >= 0 && ClosesAt(slots, i, r.id);
      SameIdSameRow(rows, r, slots[i].prior.value);
    }
    if IsSuperseded(slots, r) {
      var i :| 0 <= i < |slots| && slots[i].prior == Some(r) && !Unchanged(slots[i], i + 1);
      assert ClosesAt(slots, i, r.id);
    }
  }

  /** In the window, the live rows afterwards are exactly the final rows of the places. */
  lemma RenumberedWindow(rows: seq<Row>, kind: string, slots: seq<Slot>, ids: seq<Id>, st: Stamp, w: Window, r: Row)
    requires DistinctIds(rows) && |ids| >= |slots| && PriorsOk(rows, kind, slots) && CoversWindow(rows, kind, slots, w)
    ensures r in Renumber(rows, kind, slots, ids, st) && IsLive(kind, r) && Overlap(w, r.window)
      <==> r in Finals(slots, kind, ids, st)
  {
    var finals := Finals(slots, kind, ids, st);
    if r in Renumber(rows, kind, slots, ids, st) && IsLive(kind, r) && Overlap(w, r.window) {
      LiveAfter(rows, kind, slots, ids, st, r);
      if r in ToInsert(slots, kind, ids, st, 0) {
        ToInsertIs(slots, kind, ids, st, 0, r);
        var i :| i >= 0 && InsertsAt(slots, kind, ids, st, i, r);
        assert finals[i] == r;
      } else {
        ClosedIff(rows, kind, slots, r);
        var i :| 0 <= i < |slots| && slots[i].prior == Some(r);
        assert finals[i] == r;
      }
    }
    if r in finals {
      var i :| 0 <= i < |slots| && finals[i] == r;
      FinalIsLive(rows, kind, slots, ids, st, w, i);
    }
  }

  lemma FinalIsLive(rows: seq<Row>, kind: string, slots: seq<Slot>, ids: seq<Id>, st: Stamp, w: Window, i: nat)
    requires DistinctIds(rows) && |ids| >= |slots| && PriorsOk(rows, kind, slots) && CoversWindow(rows, kind, slots, w)
    requires i < |slots|
    ensures var r := FinalRow(slots, kind, ids, st, i);
      r in Renumber(rows, kind, slots, ids, st) && IsLive(kind, r) && Overlap(w, r.window)
  {
    var r := FinalRow(slots, kind, ids, st, i);
    LiveAfter(rows, kind, slots, ids, st, r);
    if Unchanged(slots[i], i + 1) {
      ClosedIff(rows, kind, slots, r);
    } else {
      ToInsertIs(slots, kind, ids, st, 0, r);
      assert InsertsAt(slots, kind, ids, st, i, r);
    }
  }

  /** Outside the window the live rows afterwards are the old ones that no place supersedes. */
  lemma OutsideWindow(rows: seq<Row>, kind: string, slots: seq<Slot>, ids: seq<Id>, st: Stamp, w: Window, r: Row)
    requires DistinctIds(rows) && |ids| >= |slots| && PriorsOk(rows, kind, slots) && CoversWindow(rows, kind, slots, w)
    requires IsLive(kind, r) && !Overlap(w, r.window)
    ensures r in Renumber(rows, kind, slots, ids, st) <==> r in rows && !IsPrior(slots, r)
  {
    LiveAfter(rows, kind, slots, ids, st, r);
    ToInsertIs(slots, kind, ids, st, 0, r);
    if r in rows {
      ClosedIff(rows, kind, slots, r);
    }
  }

  /** Every old version is still there, unchanged or only marked superseded. */
  lemma HistoryKept(rows: seq<Row>, kind: string, slots: seq<Slot>, ids: seq<Id>, st: Stamp, i: nat)
    requires |ids| >= |slots| && i < |rows| && PriorsOk(rows, kind, slots) && DistinctIds(rows)
    ensures var after := Renumber(rows, kind, slots, ids, st);
      && i < |after|
      && (after[i] == rows[i] || (IsLive(kind, rows[i]) && after[i] == Closed(rows[i], st)))
  {
    CloseAllAt(rows, ToClose(slots, 0), st, i);
    ClosedIff(rows, kind, slots, rows[i]);
  }

  // ----- Ids, windows and label clashes -----

  lemma {:induction false} InsertedIds(slots: seq<Slot>, kind: string, ids: seq<Id>, st: Stamp, from: nat)
    requires |ids| >= |slots| && forall i, j :: 0 <= i < j < |ids| ==> ids[i] != ids[j]
    ensures DistinctIds(ToInsert(slots, kind, ids, st, from))
    ensures forall r <- ToInsert(slots, kind, ids, st, from) :: exists i :: from <= i < |slots| && r.id == ids[i]
    decreases |slots| - from
  {
    if from < |slots| {
      InsertedIds(slots, kind, ids, st, from + 1);
      var rest := ToInsert(slots, kind, ids, st, from + 1);
      forall j | 0 <= j < |rest| ensures rest[j].id != ids[from] {
        assert rest[j] in rest;
      }
    }
  }

  lemma RenumberKeepsIds(rows: seq<Row>, kind: string, slots: seq<Slot>, ids: seq<Id>, st: Stamp)
    requires DistinctIds(rows) && |ids| >= |slots| && FreshIds(rows, ids)
    ensures DistinctIds(Renumber(rows, kind, slots, ids, st))
  {
    var closed, added := CloseAll(rows, ToClose(slots, 0), st), ToInsert(slots, kind, ids, st, 0);
    InsertedIds(slots, kind, ids, st, 0);
    forall i | 0 <= i < |rows| ensures closed[i].id == rows[i].id {
      CloseAllAt(rows, ToClose(slots, 0), st, i);
    }
    forall i, j | 0 <= i < |closed| && 0 <= j < |added| ensures closed[i].id != added[j].id {
      assert added[j] in added && rows[i] in rows;
    }
  }

  /** The place being saved, if any, clashes with nobody else. */
  predicate SavedFits(rows: seq<Row>, kind: string, slots: seq<Slot>, saved: int) {
    && (forall i :: 0 <= i < |slots| && i != saved ==>
          slots[i].prior.Some? && slots[i] == KeepSlot(slots[i].prior.value))
    && (0 <= saved < |slots| ==>
          slots[saved].window.Valid() &&
          forall r <- rows :: IsLive(kind, r) && slots[saved].prior != Some(r) ==>
            !(Lower(r.caption) == Lower(slots[saved].caption) && Overlap(slots[saved].window, r.window)))
  }

  /** Where a live row of this type comes from: an old row left alone (-1) or a changed place. */
  lemma {:induction false} Source(rows: seq<Row>, kind: string, slots: seq<Slot>, ids: seq<Id>, st: Stamp, r: Row)
    returns (i: int)
    requires DistinctIds(rows) && |ids| >= |slots| && PriorsOk(rows, kind, slots)
    requires r in Renumber(rows, kind, slots, ids, st) && r.current
    ensures -1 <= i < |slots|
    ensures i == -1 ==> r in rows && r.id !in ToClose(slots, 0)
    ensures i >= 0 ==> !Unchanged(slots[i], i + 1) && r == NewVersion(ids[i], kind, slots[i], i + 1, st)
  {
    LiveAfter(rows, kind, slots, ids, st, r);
    if r in ToInsert(slots, kind, ids, st, 0) {
      ToInsertIs(slots, kind, ids, st, 0, r);
      i :| i >= 0 && InsertsAt(slots, kind, ids, st, i, r);
    } else {
      i := -1;
    }
  }

  /** The old live row whose label and window a live row still has; the saved place has none. */
  lemma Origin(rows: seq<Row>, kind: string, slots: seq<Slot>, ids: seq<Id>, st: Stamp, saved: int, r: Row)
      returns (i: int, origin: Row)
    requires DistinctIds(rows) && |ids| >= |slots| && PriorsOk(rows, kind, slots) && SavedFits(rows, kind, slots, saved)
    requires r in Renumber(rows, kind, slots, ids, st) && IsLive(kind, r)
    ensures -1 <= i < |slots|
    ensures i >= 0 ==> r == NewVersion(ids[i], kind, slots[i], i + 1, st)
    ensures i == -1 ==> origin == r && !IsSuperseded(slots, r)
    ensures i >= 0 && i != saved ==> slots[i].prior == Some(origin) && !Unchanged(slots[i], i + 1)
    ensures i == -1 || i != saved ==>
      origin in rows && IsLive(kind, origin) && origin.caption == r.caption && origin.window == r.window
    ensures i >= 0 && i == saved ==> !Unchanged(slots[i], i + 1)
  {
    i := Source(rows, kind, slots, ids, st, r);
    if i == -1 {
      ClosedIff(rows, kind, slots, r);
      origin := r;
    } else if i != saved {
      origin := slots[i].prior.value;
    } else {
      origin := r;
    }
  }

  lemma RenumberKeepsNoClash(rows: seq<Row>, kind: string, slots: seq<Slot>, ids: seq<Id>, st: Stamp, saved: int)
    requires DistinctIds(rows) && |ids| >= |slots| && PriorsOk(rows, kind, slots)
    requires NoClash(rows) && SavedFits(rows, kind, slots, saved)
    ensures NoClash(Renumber(rows, kind, slots, ids, st))
  {
    var after := Renumber(rows, kind, slots, ids, st);
    forall a <- after, b <- after ensures !Clash(a, b) {
      if Clash(a, b) {
        if a.kind != kind {
          var i := Source(rows, kind, slots, ids, st, a);
          var j := Source(rows, kind, slots, ids, st, b);
        } else {
          NoNewClash(rows, kind, slots, ids, st, saved, a, b);
        }
      }
    }
  }

  lemma NoNewClash(rows: seq<Row>, kind: string, slots: seq<Slot>, ids: seq<Id>, st: Stamp, saved: int, a: Row, b: Row)
    requires DistinctIds(rows) && |ids| >= |slots| && PriorsOk(rows, kind, slots)
    requires NoClash(rows) && SavedFits(rows, kind, slots, saved)
    requires a in Renumber(rows, kind, slots, ids, st) && b in Renumber(rows, kind, slots, ids, st)
    requires IsLive(kind, a) && IsLive(kind, b)
    ensures !Clash(a, b)
  {
    var i, p := Origin(rows, kind, slots, ids, st, saved, a);
    var j, q := Origin(rows, kind, slots, ids, st, saved, b);
    if a.id != b.id {
      if i >= 0 && i == saved {
        assert j != saved;
        assert slots[saved].prior != Some(q);
      } else if j >= 0 && j == saved {
        assert slots[saved].prior != Some(p);
      } else {
        assert p.id != q.id by {
          if p.id == q.id { SameIdSameRow(rows, p, q); }
        }
        assert !Clash(p, q);
      }
    }
  }

  lemma RenumberKeepsWindows(rows: seq<Row>, kind: string, slots: seq<Slot>, ids: seq<Id>, st: Stamp, saved: int)
    requires DistinctIds(rows) && |ids| >= |slots| && PriorsOk(rows, kind, slots)
    requires LiveWindowsValid(rows) && SavedFits(rows, kind, slots, saved)
    ensures LiveWindowsValid(Renumber(rows, kind, slots, ids, st))
  {
    forall r <- Renumber(rows, kind, slots, ids, st) | r.current && !r.deleted ensures r.window.Valid() {
      var i := Source(rows, kind, slots, ids, st, r);
    }
  }

  // ----- Counting live versions -----

  lemma CloseVersionNoop(rows: seq<Row>, id: Id, st: Stamp)
    requires forall r <- rows :: r.id != id
    ensures CloseVersion(rows, id, st) == rows
  {
  }

  predicate HasLive(rows: seq<Row>, kind: string, id: Id) {
    exists i :: 0 <= i < |rows| && rows[i].id == id && IsLive(kind, rows[i])
  }

  predicate Distinct(ids: seq<Id>) {
    forall i, j :: 0 <= i < j < |ids| ==> ids[i] != ids[j]
  }

  lemma {:induction false} CloseOneLive(rows: seq<Row>, kind: string, id: Id, st: Stamp)
    requires DistinctIds(rows) && HasLive(rows, kind, id)
    ensures |Live(CloseVersion(rows, id, st), kind)| == |Live(rows, kind)| - 1
  {
    var after := CloseVersion(rows, id, st);
    assert after[1..] == CloseVersion(rows[1..], id, st);
    assert rows == [rows[0]] + rows[1..];
    if rows[0].id == id {
      CloseVersionNoop(rows[1..], id, st);
    } else {
      var i :| 0 <= i < |rows| && rows[i].id == id && IsLive(kind, rows[i]);
      assert rows[1..][i - 1] == rows[i];
      CloseOneLive(rows[1..], kind, id, st);
    }
  }

  lemma {:induction false} CloseManyLive(rows: seq<Row>, kind: string, ids: seq<Id>, st: Stamp)
    requires DistinctIds(rows) && Distinct(ids)
    requires forall i :: 0 <= i < |ids| ==> HasLive(rows, kind, ids[i])
    ensures |Live(CloseAll(rows, ids, st), kind)| == |Live(rows, kind)| - |ids|
    decreases |ids|
  {
    if ids != [] {
      CloseOneLive(rows, kind, ids[0], st);
      var next := CloseVersion(rows, ids[0], st);
      forall k | 0 <= k < |ids[1..]| ensures HasLive(next, kind, ids[1..][k]) {
        assert ids[1..][k] == ids[k + 1];
        var i :| 0 <= i < |rows| && rows[i].id == ids[k + 1] && IsLive(kind, rows[i]);
        assert next[i] == rows[i];
      }
      CloseManyLive(next, kind, ids[1..], st);
    }
  }

  lemma {:induction false} ToCloseDistinct(slots: seq<Slot>, from: nat)
    requires forall i, j :: 0 <= i < j < |slots| && slots[i].prior.Some? && slots[j].prior.Some? ==>
      slots[i].prior.value.id != slots[j].prior.value.id
    ensures Distinct(ToClose(slots, from))
    decreases |slots| - from
  {
    if from < |slots| {
      ToCloseDistinct(slots, from + 1);
      var rest := ToClose(slots, from + 1);
      forall k | 0 <= k < |rest| && slots[from].prior.Some? ensures rest[k] != slots[from].prior.value.id {
        ToCloseIs(slots, from + 1, rest[k]);
      }
    }
  }

  function NewPlaces(slots: seq<Slot>, from: nat): nat
    decreases |slots| - from
  {
    if from >= |slots| then 0 else (if slots[from].prior.None? then 1 else 0) + NewPlaces(slots, from + 1)
  }

  lemma {:induction false} InsertsAgainstCloses(slots: seq<Slot>, kind: string, ids: seq<Id>, st: Stamp, from: nat)
    requires |ids| >= |slots|
    ensures |ToInsert(slots, kind, ids, st, from)| == |ToClose(slots, from)| + NewPlaces(slots, from)
    ensures Live(ToInsert(slots, kind, ids, st, from), kind) == ToInsert(slots, kind, ids, st, from)
    decreases |slots| - from
  {
    if from < |slots| {
      InsertsAgainstCloses(slots, kind, ids, st, from + 1);
      var rest := ToInsert(slots, kind, ids, st, from + 1);
      var v := NewVersion(ids[from], kind, slots[from], from + 1, st);
      assert ([v] + rest)[1..] == rest;
      assert [] + rest == rest;
    }
  }

  /** Renumbering changes the number of live versions only by its places that supersede nothing. */
  lemma LiveCount(rows: seq<Row>, kind: string, slots: seq<Slot>, ids: seq<Id>, st: Stamp)
    requires DistinctIds(rows) && |ids| >= |slots| && PriorsOk(rows, kind, slots)
    ensures |Live(Renumber(rows, kind, slots, ids, st), kind)| == |Live(rows, kind)| + NewPlaces(slots, 0)
  {
    var toClose := ToClose(slots, 0);
    ToCloseDistinct(slots, 0);
    forall k | 0 <= k < |toClose| ensures HasLive(rows, kind, toClose[k]) {
      ToCloseIs(slots, 0, toClose[k]);
      var i :| i >= 0 && ClosesAt(slots, i, toClose[k]);
      assert slots[i].prior.value in rows;
    }
    CloseManyLive(rows, kind, toClose, st);
    InsertsAgainstCloses(slots, kind, ids, st, 0);
    FilterAppend(CloseAll(rows, toClose, st), ToInsert(slots, kind, ids, st, 0), LiveOf(kind));
  }
}
