/**
 Tables whose rows carry text keys within a scope, and the rule "add a row unless one of its keys is
 taken in its scope". The import dedupe rules for contacts, owners and contracts are instances.
*/
module KeyedTables {
  import opened Common

  /** A vendor, or one offering of a vendor. */
  datatype Scope = Vendor(vendor: string) | Offering(vendor: string, offering: string) {
    predicate Known() { vendor != "" && (Offering? ==> offering != "") }
  }

  /** The keys of a row as seen from a scope; none from another scope than its own. */
  type Keying<!T> = (Scope, T) -> set<string>

  /** What a fresh load of the scope's keys returns. */
  function Gather<T>(rows: seq<T>, s: Scope, f: Keying<T>): set<string> {
    if rows == [] then {} else Gather(rows[..|rows| - 1], s, f) + f(s, rows[|rows| - 1])
  }

  predicate Taken<T>(rows: seq<T>, s: Scope, r: T, f: Keying<T>) {
    f(s, r) * Gather(rows, s, f) != {}
  }

  /** A row to add, with the scope it belongs to. */
  datatype Wanted<T> = Wanted(scope: Scope, row: T)

  function Add<T>(rows: seq<T>, w: Wanted<T>, f: Keying<T>): seq<T> {
    if Taken(rows, w.scope, w.row, f) then rows else rows + [w.row]
  }

  /** Adding in order; an input that asks for nothing is skipped. */
  function AddAll<T>(rows: seq<T>, ins: seq<Option<Wanted<T>>>, f: Keying<T>): seq<T>
    decreases |ins|
  {
    if ins == [] then rows else
    AddAll(if ins[0].None? then rows else Add(rows, ins[0].value, f), ins[1..], f)
  }

  lemma {:induction false} AddAllSplit<T>(
      rows: seq<T>, a: seq<Option<Wanted<T>>>, b: seq<Option<Wanted<T>>>, f: Keying<T>)
    ensures AddAll(rows, a + b, f) == AddAll(AddAll(rows, a, f), b, f)
    decreases |a|
  {
    if a == [] {
      assert a + b == b;
    } else {
      assert (a + b)[1..] == a[1..] + b;
      AddAllSplit(if a[0].None? then rows else Add(rows, a[0].value, f), a[1..], b, f);
    }
  }

  lemma {:induction false} GatherIs<T>(rows: seq<T>, s: Scope, f: Keying<T>, k: string)
    ensures k in Gather(rows, s, f) <==> exists i :: 0 <= i < |rows| && k in f(s, rows[i])
  {
    if rows != [] {
      var n := |rows| - 1;
      GatherIs(rows[..n], s, f, k);
      if i :| 0 <= i < n && k in f(s, rows[i]) {
        assert rows[..n][i] == rows[i];
      }
    }
  }

  lemma GatherAdd<T>(rows: seq<T>, r: T, s: Scope, f: Keying<T>)
    ensures Gather(rows + [r], s, f) == Gather(rows, s, f) + f(s, r)
  {
    assert (rows + [r])[..|rows|] == rows;
  }

  lemma GatherGrows<T>(rows: seq<T>, more: seq<T>, s: Scope, f: Keying<T>)
    requires rows <= more
    ensures Gather(rows, s, f) <= Gather(more, s, f)
  {
    forall k | k in Gather(rows, s, f) ensures k in Gather(more, s, f) {
      GatherIs(rows, s, f, k);
      GatherIs(more, s, f, k);
      var i :| 0 <= i < |rows| && k in f(s, rows[i]);
      assert more[i] == rows[i];
    }
  }

  lemma {:induction false} AddAllAppends<T>(rows: seq<T>, ins: seq<Option<Wanted<T>>>, f: Keying<T>)
    ensures rows <= AddAll(rows, ins, f)
    decreases |ins|
  {
    if ins != [] {
      AddAllAppends(if ins[0].None? then rows else Add(rows, ins[0].value, f), ins[1..], f);
    }
  }

  /** Every input that asks for a row brings at least one key. */
  predicate HaveKeys<T>(ins: seq<Option<Wanted<T>>>, f: Keying<T>) {
    forall i :: 0 <= i < |ins| && ins[i].Some? ==> f(ins[i].value.scope, ins[i].value.row) != {}
  }

  predicate AllTaken<T>(rows: seq<T>, ins: seq<Option<Wanted<T>>>, f: Keying<T>) {
    forall i :: 0 <= i < |ins| && ins[i].Some? ==> Taken(rows, ins[i].value.scope, ins[i].value.row, f)
  }

  lemma TakenStays<T>(rows: seq<T>, more: seq<T>, s: Scope, r: T, f: Keying<T>)
    requires rows <= more && Taken(rows, s, r, f)
    ensures Taken(more, s, r, f)
  {
    GatherGrows(rows, more, s, f);
    var k :| k in f(s, r) * Gather(rows, s, f);
    assert k in f(s, r) * Gather(more, s, f);
  }

  lemma AddTakes<T>(rows: seq<T>, w: Wanted<T>, f: Keying<T>)
    requires f(w.scope, w.row) != {}
    ensures Taken(Add(rows, w, f), w.scope, w.row, f)
  {
    if !Taken(rows, w.scope, w.row, f) {
      var after := rows + [w.row];
      assert after[..|after| - 1] == rows;
      var k :| k in f(w.scope, w.row);
      assert k in f(w.scope, w.row) * Gather(after, w.scope, f);
    }
  }

  /** After adding, a key of every wanted row is taken. */
  lemma {:induction false} AddAllTakes<T>(rows: seq<T>, ins: seq<Option<Wanted<T>>>, f: Keying<T>)
    requires HaveKeys(ins, f)
    ensures AllTaken(AddAll(rows, ins, f), ins, f)
    decreases |ins|
  {
    if ins != [] {
      var next := if ins[0].None? then rows else Add(rows, ins[0].value, f);
      AddAllTakes(next, ins[1..], f);
      var after := AddAll(rows, ins, f);
      if ins[0].Some? {
        AddTakes(rows, ins[0].value, f);
        AddAllAppends(next, ins[1..], f);
        TakenStays(next, after, ins[0].value.scope, ins[0].value.row, f);
      }
      forall i | 0 < i < |ins| && ins[i].Some? ensures Taken(after, ins[i].value.scope, ins[i].value.row, f) {
        assert ins[1..][i - 1] == ins[i];
      }
    }
  }

  lemma {:induction false} TakenAddsNothing<T>(rows: seq<T>, ins: seq<Option<Wanted<T>>>, f: Keying<T>)
    requires AllTaken(rows, ins, f)
    ensures AddAll(rows, ins, f) == rows
    decreases |ins|
  {
    if ins != [] {
      assert forall i :: 0 <= i < |ins[1..]| ==> ins[1..][i] == ins[i + 1];
      TakenAddsNothing(rows, ins[1..], f);
    }
  }

  /** Adding the same rows again, or any table grown from the result, adds nothing. */
  lemma AddingAgainAddsNothing<T>(rows: seq<T>, ins: seq<Option<Wanted<T>>>, more: seq<T>, f: Keying<T>)
    requires HaveKeys(ins, f) && AddAll(rows, ins, f) <= more
    ensures AddAll(more, ins, f) == more
  {
    AddAllTakes(rows, ins, f);
    forall i | 0 <= i < |ins| && ins[i].Some? ensures Taken(more, ins[i].value.scope, ins[i].value.row, f) {
      TakenStays(AddAll(rows, ins, f), more, ins[i].value.scope, ins[i].value.row, f);
    }
    TakenAddsNothing(more, ins, f);
  }

  /** From row `start` on, no row shares a key with an earlier one in any scope. */
  ghost predicate NoSharedKeys<T(!new)>(rows: seq<T>, start: nat, f: Keying<T>) {
    forall s: Scope, j: nat, i: nat {:trigger f(s, rows[j]), f(s, rows[i])} ::
      j < i < |rows| && start <= i && Owns(f, s, rows[i]) ==> f(s, rows[j]) * f(s, rows[i]) == {}
  }

  predicate Owns<T>(f: Keying<T>, s: Scope, r: T) {
    f(s, r) != {}
  }

  /** A row has keys in one scope only. */
  ghost predicate OneScope<T(!new)>(w: Wanted<T>, f: Keying<T>) {
    forall s: Scope :: s != w.scope ==> f(s, w.row) == {}
  }

  lemma AddKeepsApart<T(!new)>(rows: seq<T>, start: nat, w: Wanted<T>, f: Keying<T>)
    requires NoSharedKeys(rows, start, f) && OneScope(w, f)
    ensures NoSharedKeys(Add(rows, w, f), start, f)
  {
    var after := Add(rows, w, f);
    forall s: Scope, j: nat, i: nat | j < i < |after| && start <= i && Owns(f, s, after[i])
      ensures f(s, after[j]) * f(s, after[i]) == {}
    {
      if i == |rows| {
        assert s == w.scope;
        forall k | k in f(s, rows[j]) ensures k !in f(s, w.row) {
          GatherIs(rows, s, f, k);
          assert k !in f(s, w.row) * Gather(rows, s, f);
        }
      }
    }
  }

  /** No row that was added shares a key with a row before it. */
  lemma {:induction false} AddAllKeepsApart<T(!new)>(
      rows: seq<T>, start: nat, ins: seq<Option<Wanted<T>>>, f: Keying<T>)
    requires NoSharedKeys(rows, start, f)
    requires forall i :: 0 <= i < |ins| && ins[i].Some? ==> OneScope(ins[i].value, f)
    ensures NoSharedKeys(AddAll(rows, ins, f), start, f)
    decreases |ins|
  {
    if ins != [] {
      if ins[0].Some? {
        AddKeepsApart(rows, start, ins[0].value, f);
      }
      assert forall i :: 0 <= i < |ins[1..]| ==> ins[1..][i] == ins[i + 1];
      AddAllKeepsApart(if ins[0].None? then rows else Add(rows, ins[0].value, f), start, ins[1..], f);
    }
  }
}
