/**
 What the import dedupe guarantees: when exactly a contact is skipped, that no added row duplicates
 an earlier one, and that applying the same rows again writes nothing.
*/
module ImportTheorems {
  import opened Common
  import opened KeyedTables
  import opened ImportDedupe

  // ----- What the keys compare -----

  function TypeText(c: Contact): string {
    Lower(OrElse(c.kind, "business"))
  }

  /** The two share an email, a phone of seven digits or more, or a name and type, ignoring case. */
  predicate Duplicate(a: Contact, b: Contact) {
    || (a.email != "" && b.email != "" && Lower(a.email) == Lower(b.email))
    || (|Digits(a.phone)| >= 7 && Digits(a.phone) == Digits(b.phone))
    || (a.name != "" && b.name != "" && Lower(a.name) == Lower(b.name) && TypeText(a) == TypeText(b))
  }

  /** The digits of a text are its digit characters, in order. */
  lemma {:induction false} DigitsAre(s: string)
    ensures Digits(s) == Filter(s, (c: char) => '0' <= c <= '9')
  {
    if s != "" {
      DigitsAre(s[1..]);
    }
  }

  /** Some text moves over a bar from the end of c to the start of b: c is a|x and b is x|d. */
  predicate Shifted(a: string, b: string, c: string, d: string) {
    a + "|" <= c && b == c[|a| + 1..] + "|" + d
  }

  /** Different names or types that read the same when joined by a bar. */
  predicate Lookalike(a: Contact, b: Contact) {
    && a.name != "" && b.name != ""
    && (Shifted(Lower(a.name), TypeText(a), Lower(b.name), TypeText(b))
        || Shifted(Lower(b.name), TypeText(b), Lower(a.name), TypeText(a)))
  }

  lemma ShiftedJoins(a: string, b: string, c: string, d: string)
    requires Shifted(a, b, c, d)
    ensures a + "|" + b == c + "|" + d
  {
    var x := c[|a| + 1..];
    assert c == a + "|" + x;
    assert a + "|" + (x + "|" + d) == (a + "|" + x) + "|" + d;
  }

  lemma JoinedShifts(a: string, b: string, c: string, d: string)
    requires a + "|" + b == c + "|" + d && |a| < |c|
    ensures Shifted(a, b, c, d)
  {
    var s, t := a + "|" + b, c + "|" + d;
    assert s[..|a| + 1] == a + "|" && t[..|a| + 1] == c[..|a| + 1];
    assert s[|a| + 1..] == b;
    assert t[|a| + 1..] == c[|a| + 1..] + "|" + d;
  }

  /** When two pairs of texts give the same text, joined by a bar. */
  lemma JoinIff(a: string, b: string, c: string, d: string)
    ensures a + "|" + b == c + "|" + d <==> (a == c && b == d) || Shifted(a, b, c, d) || Shifted(c, d, a, b)
  {
    if Shifted(a, b, c, d) {
      ShiftedJoins(a, b, c, d);
    } else if Shifted(c, d, a, b) {
      ShiftedJoins(c, d, a, b);
    } else if a + "|" + b == c + "|" + d {
      if |a| < |c| {
        JoinedShifts(a, b, c, d);
      } else if |c| < |a| {
        JoinedShifts(c, d, a, b);
      } else {
        assert a == (a + "|" + b)[..|a|] && c == (c + "|" + d)[..|c|];
        assert b == (a + "|" + b)[|a| + 1..] && d == (c + "|" + d)[|c| + 1..];
      }
    }
  }

  /** Name keys agree exactly when name and type do, or one pair is the other with a bar shifted. */
  lemma NameKeyIff(a: Contact, b: Contact)
    requires a.name != "" && b.name != ""
    ensures NameKey(a.name, a.kind) == NameKey(b.name, b.kind) <==>
      (Lower(a.name) == Lower(b.name) && TypeText(a) == TypeText(b)) || Lookalike(a, b)
  {
    var x, y := Lower(a.name) + "|" + TypeText(a), Lower(b.name) + "|" + TypeText(b);
    JoinIff(Lower(a.name), TypeText(a), Lower(b.name), TypeText(b));
    KeyOfJoined(a);
    KeyOfJoined(b);
    assert ("name_type:" + x)[10..] == x && ("name_type:" + y)[10..] == y;
  }

  lemma KeyOfJoined(c: Contact)
    ensures NameKey(c.name, c.kind) == "name_type:" + (Lower(c.name) + "|" + TypeText(c))
  {
  }

  lemma KeyKinds(c: Contact)
    ensures EmailKey(c.email)[0] == 'e' && PhoneKey(c.phone)[0] == 'p' && NameKey(c.name, c.kind)[0] == 'n'
  {
  }

  lemma KeyTexts(x: string, y: string)
    ensures EmailKey(x) == EmailKey(y) <==> Lower(x) == Lower(y)
    ensures PhoneKey(x) == PhoneKey(y) <==> Digits(x) == Digits(y)
  {
    assert EmailKey(x)[6..] == Lower(x) && EmailKey(y)[6..] == Lower(y);
    assert PhoneKey(x)[6..] == Digits(x) && PhoneKey(y)[6..] == Digits(y);
  }

  /** Keys of different kinds never meet, so two contacts share a key exactly when they are duplicates or lookalikes. */
  lemma SharedKeysIff(a: Contact, b: Contact)
    ensures RowKeys(a) * RowKeys(b) != {} <==> Duplicate(a, b) || Lookalike(a, b)
  {
    hide EmailKey, PhoneKey, NameKey, Shifted, TypeText;
    KeyTexts(a.email, b.email);
    KeyTexts(a.phone, b.phone);
    KeyKinds(a);
    KeyKinds(b);
    if a.name != "" && b.name != "" {
      NameKeyIff(a, b);
    }
    if k :| k in RowKeys(a) * RowKeys(b) {
    }
    if Duplicate(a, b) || Lookalike(a, b) {
      assert EmailKey(a.email) in RowKeys(a) * RowKeys(b)
        || PhoneKey(a.phone) in RowKeys(a) * RowKeys(b)
        || NameKey(a.name, a.kind) in RowKeys(a) * RowKeys(b);
    }
  }

  /** A contact is skipped exactly when a stored one of its scope is a duplicate or a lookalike. */
  lemma SkippedIff(rows: seq<Contact>, w: Wanted<Contact>)
    requires w.row.scope == w.scope
    ensures Add(rows, w, ContactKeys()) == rows <==>
      exists r <- rows :: r.scope == w.scope && (Duplicate(r, w.row) || Lookalike(r, w.row))
  {
    hide RowKeys, Duplicate, Lookalike;
    var f := ContactKeys();
    if Taken(rows, w.scope, w.row, f) {
      var k :| k in f(w.scope, w.row) * Gather(rows, w.scope, f);
      GatherIs(rows, w.scope, f, k);
      var r :| r in rows && k in f(w.scope, r);
      assert k in RowKeys(r) * RowKeys(w.row);
      SharedKeysIff(r, w.row);
    }
    if r :| r in rows && r.scope == w.scope && (Duplicate(r, w.row) || Lookalike(r, w.row)) {
      SharedKeysIff(r, w.row);
      var k :| k in RowKeys(r) * RowKeys(w.row);
      GatherIs(rows, w.scope, f, k);
      assert k in f(w.scope, r);
      assert k in f(w.scope, w.row) * Gather(rows, w.scope, f);
    }
  }

  // ----- Which contacts can be skipped without being duplicates -----

  predicate Trimmed(s: string) {
    s == "" || (!IsSpace(s[0]) && !IsSpace(s[|s| - 1]))
  }

  /** The joined text of a name and a type or role. */
  function Joined(name: string, text: string): string {
    Lower(name) + "|" + Lower(text)
  }

  /** The text can be split at p into two trimmed parts, neither blank. */
  predicate SplitsAt(text: string, p: int) {
    0 < p < |text| - 1 && text[p] == '|' && !IsSpace(text[p - 1]) && !IsSpace(text[p + 1])
  }

  /** One of the two has a bar of its own at which the joined text splits as well. */
  predicate HasOtherReading(name: string, text: string) {
    exists p :: 0 < p < |Joined(name, text)| && p != |Lower(name)| && SplitsAt(Joined(name, text), p)
  }

  lemma LowerOfLower(s: string, t: string, from: nat, to: nat)
    requires t == Lower(s) && from <= to <= |t|
    ensures Lower(t[from..to]) == t[from..to]
  {
  }

  lemma LowerJoined(name: string, text: string, from: nat, to: nat)
    requires from <= to <= |Joined(name, text)|
    ensures Lower(Joined(name, text)[from..to]) == Joined(name, text)[from..to]
  {
    assert Joined(name, text) == Lower(name + "|" + text);
    LowerOfLower(name + "|" + text, Joined(name, text), from, to);
  }

  lemma SliceEnds(t: string, p: nat, q: nat)
    requires p <= |t| && q <= |t|
    ensures t[..p] == t[0..p] && t[q..] == t[q..|t|]
  {
  }

  lemma PiecesTrimmed(t: string, p: nat)
    requires SplitsAt(t, p) && !IsSpace(t[0]) && !IsSpace(t[|t| - 1])
    ensures t[..p] != "" && Trimmed(t[..p]) && t[p + 1..] != "" && Trimmed(t[p + 1..])
    ensures t[..p] + "|" + t[p + 1..] == t
  {
    var front, back := t[..p], t[p + 1..];
    assert front[0] == t[0] && front[|front| - 1] == t[p - 1];
    assert back[0] == t[p + 1] && back[|back| - 1] == t[|t| - 1];
  }

  lemma JoinedEnds(name: string, text: string)
    requires name != "" && Trimmed(name) && text != "" && Trimmed(text)
    ensures var t := Joined(name, text); !IsSpace(t[0]) && !IsSpace(t[|t| - 1])
  {
    var t := Joined(name, text);
    assert t[0] == Lower(name)[0];
    assert t[|t| - 1] == Lower(text)[|text| - 1];
  }

  /** The other reading of the joined text. */
  lemma OtherReading(name: string, text: string, p: nat)
    requires name != "" && Trimmed(name) && text != "" && Trimmed(text) && SplitsAt(Joined(name, text), p)
    ensures var front, back := Joined(name, text)[..p], Joined(name, text)[p + 1..];
      && front != "" && Trimmed(front) && back != "" && Trimmed(back)
      && Lower(front) == front && Lower(back) == back && Joined(front, back) == Joined(name, text)
  {
    hide Trimmed, Lower, IsSpace;
    var t := Joined(name, text);
    JoinedEnds(name, text);
    PiecesTrimmed(t, p);
    SliceEnds(t, p, p + 1);
    LowerJoined(name, text, 0, p);
    LowerJoined(name, text, p + 1, |t|);
  }

  /** Another pair that joins to the same text splits it somewhere else. */
  lemma ShiftedSplits(other: string, role: string, name: string, text: string)
    requires other != "" && Trimmed(other) && role != "" && Trimmed(role)
    requires Joined(other, role) == Joined(name, text)
      && !(Lower(other) == Lower(name) && Lower(role) == Lower(text))
    ensures |Lower(other)| != |Lower(name)| && SplitsAt(Joined(name, text), |Lower(other)|)
  {
    JoinIff(Lower(other), Lower(role), Lower(name), Lower(text));
    var p := |Lower(other)|;
    assert Joined(other, role)[p - 1] == Lower(other)[|other| - 1];
    assert Joined(other, role)[p + 1] == Lower(role)[0];
  }

  lemma SplitInside(text: string, p: int)
    requires SplitsAt(text, p)
    ensures 0 < p < |text|
  {
  }

  function TypeOf(c: Contact): string {
    OrElse(c.kind, "business")
  }

  /**
   A contact can be skipped without being a duplicate, because of some stored contact, exactly when
   its name or its type has a bar of its own at which name and type can be told apart differently.
  */
  lemma SkippedWithoutDuplicateIff(c: Contact)
    requires c.name != "" && Trimmed(c.name) && Trimmed(c.kind)
    ensures
      (exists d: Contact :: d.scope == c.scope && Trimmed(d.name) && Trimmed(d.kind) && !Duplicate(d, c)
        && Add([d], Wanted(c.scope, c), ContactKeys()) == [d])
      <==> HasOtherReading(c.name, TypeOf(c))
  {
    hide Add, Duplicate, Lookalike, SplitsAt, Joined, Shifted;
    forall d: Contact | d.scope == c.scope && Trimmed(d.name) && Trimmed(d.kind) && !Duplicate(d, c)
                        && Add([d], Wanted(c.scope, c), ContactKeys()) == [d]
      ensures HasOtherReading(c.name, TypeOf(c))
    {
      SkippedIff([d], Wanted(c.scope, c));
      LookalikeSplits(d, c);
      SplitInside(Joined(c.name, TypeOf(c)), |Lower(d.name)|);
    }
    if HasOtherReading(c.name, TypeOf(c)) {
      var t := Joined(c.name, TypeOf(c));
      var p :| 0 < p < |t| && p != |Lower(c.name)| && SplitsAt(t, p);
      OtherIsSkipped(c, p);
    }
  }

  lemma LookalikeSplits(d: Contact, c: Contact)
    requires Trimmed(d.name) && Trimmed(d.kind) && Lookalike(d, c)
    ensures |Lower(d.name)| != |Lower(c.name)| && SplitsAt(Joined(c.name, TypeOf(c)), |Lower(d.name)|)
  {
    JoinIff(Lower(d.name), TypeText(d), Lower(c.name), TypeText(c));
    ShiftedSplits(d.name, TypeOf(d), c.name, TypeOf(c));
  }

  lemma OtherIsSkipped(c: Contact, p: nat)
    requires c.name != "" && Trimmed(c.name) && Trimmed(c.kind)
    requires p != |Lower(c.name)| && SplitsAt(Joined(c.name, TypeOf(c)), p)
    ensures var t := Joined(c.name, TypeOf(c));
      var d := Contact(c.scope, t[..p], t[p + 1..], "", "");
      && d.scope == c.scope && Trimmed(d.name) && Trimmed(d.kind) && !Duplicate(d, c)
      && Add([d], Wanted(c.scope, c), ContactKeys()) == [d]
  {
    hide Add, Trimmed;
    var t := Joined(c.name, TypeOf(c));
    var d := Contact(c.scope, t[..p], t[p + 1..], "", "");
    TypeIsText(c);
    OtherReading(c.name, TypeOf(c), p);
    JoinIff(Lower(d.name), TypeText(d), Lower(c.name), TypeText(c));
    assert |Lower(d.name)| == p;
    assert Lookalike(d, c);
    SkippedIff([d], Wanted(c.scope, c));
    assert [d][0] == d;
  }

  lemma TypeIsText(c: Contact)
    requires Trimmed(c.kind)
    ensures TypeOf(c) != "" && Trimmed(TypeOf(c))
  {
  }

  /** The least such pair. */
  lemma LookalikeExample(s: Scope)
    ensures var stored, wanted := Contact(s, "a|b", "c", "", ""), Contact(s, "a", "b|c", "", "");
      && !Duplicate(stored, wanted)
      && Add([stored], Wanted(s, wanted), ContactKeys()) == [stored]
  {
    var stored, wanted := Contact(s, "a|b", "c", "", ""), Contact(s, "a", "b|c", "", "");
    assert Lower("a|b") == "a|b" && Lower("c") == "c" && Lower("a") == "a" && Lower("b|c") == "b|c";
    assert "a" + "|" == "a|" <= "a|b" && "a|b"[2..] == "b" && "b" + "|" + "c" == "b|c";
    assert Shifted("a", "b|c", "a|b", "c");
    SkippedIff([stored], Wanted(s, wanted));
    assert [stored][0] == stored;
  }

  // ----- Owners, whose key joins principal and role in the same way -----

  function RoleOf(o: Owner): string {
    OrElse(o.role, "business_owner")
  }

  /** The two are the same principal in the same role, ignoring case. */
  predicate DuplicateOwner(a: Owner, b: Owner) {
    Lower(a.principal) == Lower(b.principal) && Lower(RoleOf(a)) == Lower(RoleOf(b))
  }

  predicate LookalikeOwner(a: Owner, b: Owner) {
    || Shifted(Lower(a.principal), Lower(RoleOf(a)), Lower(b.principal), Lower(RoleOf(b)))
    || Shifted(Lower(b.principal), Lower(RoleOf(b)), Lower(a.principal), Lower(RoleOf(a)))
  }

  /** Owner keys agree exactly when principal and role do, or one pair is the other with a bar shifted. */
  lemma OwnerKeyIff(a: Owner, b: Owner)
    ensures OwnerKey(a.principal, a.role) == OwnerKey(b.principal, b.role)
      <==> DuplicateOwner(a, b) || LookalikeOwner(a, b)
  {
    JoinIff(Lower(a.principal), Lower(RoleOf(a)), Lower(b.principal), Lower(RoleOf(b)));
  }

  /** An owner is skipped exactly when a stored one of its scope is a duplicate or a lookalike. */
  lemma OwnerSkippedIff(rows: seq<Owner>, w: Wanted<Owner>)
    requires w.row.scope == w.scope && w.row.principal != ""
    ensures Add(rows, w, OwnerKeys()) == rows <==>
      exists o <- rows :: o.scope == w.scope && o.principal != ""
        && (DuplicateOwner(o, w.row) || LookalikeOwner(o, w.row))
  {
    hide OwnerKey, DuplicateOwner, LookalikeOwner;
    var f := OwnerKeys();
    var key := OwnerKey(w.row.principal, w.row.role);
    assert f(w.scope, w.row) == {key};
    GatherIs(rows, w.scope, f, key);
    forall o <- rows
      ensures key in f(w.scope, o) <==>
        o.scope == w.scope && o.principal != "" && (DuplicateOwner(o, w.row) || LookalikeOwner(o, w.row))
    {
      OwnerKeyIff(o, w.row);
    }
    assert Taken(rows, w.scope, w.row, f) <==> key in Gather(rows, w.scope, f) by {
      assert key in {key};
    }
  }

  /** An owner can be skipped without being a duplicate exactly when its joined text has another reading. */
  lemma OwnerSkippedWithoutDuplicateIff(o: Owner)
    requires o.principal != "" && Trimmed(o.principal) && Trimmed(o.role)
    ensures
      (exists d: Owner :: d.scope == o.scope && Trimmed(d.principal) && Trimmed(d.role) && !DuplicateOwner(d, o)
        && Add([d], Wanted(o.scope, o), OwnerKeys()) == [d])
      <==> HasOtherReading(o.principal, RoleOf(o))
  {
    hide Add, DuplicateOwner, LookalikeOwner, SplitsAt, Joined;
    forall d: Owner | d.scope == o.scope && Trimmed(d.principal) && Trimmed(d.role) && !DuplicateOwner(d, o)
                      && Add([d], Wanted(o.scope, o), OwnerKeys()) == [d]
      ensures HasOtherReading(o.principal, RoleOf(o))
    {
      OwnerSkippedIff([d], Wanted(o.scope, o));
      LookalikeOwnerSplits(d, o);
      SplitInside(Joined(o.principal, RoleOf(o)), |Lower(d.principal)|);
    }
    if HasOtherReading(o.principal, RoleOf(o)) {
      var t := Joined(o.principal, RoleOf(o));
      var p :| 0 < p < |t| && p != |Lower(o.principal)| && SplitsAt(t, p);
      OtherOwnerIsSkipped(o, p);
    }
  }

  lemma LookalikeOwnerSplits(d: Owner, o: Owner)
    requires d.principal != "" && Trimmed(d.principal) && Trimmed(d.role)
    requires !DuplicateOwner(d, o) && LookalikeOwner(d, o)
    ensures |Lower(d.principal)| != |Lower(o.principal)|
      && SplitsAt(Joined(o.principal, RoleOf(o)), |Lower(d.principal)|)
  {
    RoleIsText(d);
    JoinIff(Lower(d.principal), Lower(RoleOf(d)), Lower(o.principal), Lower(RoleOf(o)));
    ShiftedSplits(d.principal, RoleOf(d), o.principal, RoleOf(o));
  }

  lemma OtherOwnerIsSkipped(o: Owner, p: nat)
    requires o.principal != "" && Trimmed(o.principal) && Trimmed(o.role)
    requires p != |Lower(o.principal)| && SplitsAt(Joined(o.principal, RoleOf(o)), p)
    ensures var t := Joined(o.principal, RoleOf(o));
      var d := Owner(o.scope, t[..p], t[p + 1..]);
      && Trimmed(d.principal) && Trimmed(d.role) && !DuplicateOwner(d, o)
      && Add([d], Wanted(o.scope, o), OwnerKeys()) == [d]
  {
    hide Add, Trimmed;
    var t := Joined(o.principal, RoleOf(o));
    var d := Owner(o.scope, t[..p], t[p + 1..]);
    RoleIsText(o);
    OtherReading(o.principal, RoleOf(o), p);
    JoinIff(Lower(d.principal), Lower(RoleOf(d)), Lower(o.principal), Lower(RoleOf(o)));
    assert |Lower(d.principal)| == p;
    assert LookalikeOwner(d, o);
    OwnerSkippedIff([d], Wanted(o.scope, o));
    assert [d][0] == d;
  }

  lemma RoleIsText(o: Owner)
    requires Trimmed(o.role)
    ensures RoleOf(o) != "" && Trimmed(RoleOf(o))
  {
  }

  // ----- No duplicates -----

  lemma ContactsHaveKeys(ins: seq<ContactIn>)
    ensures HaveKeys(Contacts(ins), ContactKeys())
    ensures forall i :: 0 <= i < |ins| && Contacts(ins)[i].Some? ==> OneScope(Contacts(ins)[i].value, ContactKeys())
  {
    forall i | 0 <= i < |ins| && Contacts(ins)[i].Some?
      ensures ContactKeys()(Contacts(ins)[i].value.scope, Contacts(ins)[i].value.row) != {}
    {
      var r := Contacts(ins)[i].value.row;
      assert r.name != "";
      assert NameKey(r.name, r.kind) in RowKeys(r);
    }
  }

  lemma OwnersHaveKeys(ins: seq<OwnerIn>)
    ensures HaveKeys(Owners(ins), OwnerKeys())
  {
    forall i | 0 <= i < |ins| && Owners(ins)[i].Some?
      ensures OwnerKeys()(Owners(ins)[i].value.scope, Owners(ins)[i].value.row) != {}
    {
      var r := Owners(ins)[i].value.row;
      assert OwnerKey(r.principal, r.role) in OwnerKeys()(r.scope, r);
    }
  }

  lemma ContractsHaveKeys(ins: seq<ContractIn>)
    ensures HaveKeys(Contracts(ins), ContractKeys())
  {
    forall i | 0 <= i < |ins| && Contracts(ins)[i].Some?
      ensures ContractKeys()(Contracts(ins)[i].value.scope, Contracts(ins)[i].value.row) != {}
    {
      var r := Contracts(ins)[i].value.row;
      assert Lower(r.number) in ContractKeys()(Vendor(r.vendor), r);
    }
  }

  /** No added contact is a duplicate of one before it in its scope, stored earlier or just added. */
  lemma NoDuplicateContacts(rows: seq<Contact>, ins: seq<ContactIn>, j: nat, i: nat)
    requires var after := AddAll(rows, Contacts(ins), ContactKeys());
      j < i < |after| && |rows| <= i && after[j].scope == after[i].scope
    ensures var after := AddAll(rows, Contacts(ins), ContactKeys()); !Duplicate(after[j], after[i])
  {
    hide RowKeys, Duplicate, Lookalike, Contacts, AddAll;
    var f := ContactKeys();
    var after := AddAll(rows, Contacts(ins), f);
    ContactsHaveKeys(ins);
    AddAllKeepsApart(rows, |rows|, Contacts(ins), f);
    var s := after[i].scope;
    SharedKeysIff(after[j], after[i]);
    assert f(s, after[j]) == RowKeys(after[j]) && f(s, after[i]) == RowKeys(after[i]);
    assert Owns(f, s, after[i]) ==> f(s, after[j]) * f(s, after[i]) == {};
  }

  // ----- Applying again -----

  /** Both stores hold the same rows, the second perhaps more. */
  predicate Grown(a: Store, b: Store) {
    a.contacts <= b.contacts && a.owners <= b.owners && a.contracts <= b.contracts
  }

  /**
   Applying rows that were applied before writes nothing, however many other rows were added since,
   in the same import or another.
  */
  lemma ApplyingAgainWritesNothing(store: Store, rows: AreaRows, later: Store)
    requires Grown(ApplyRows(store, rows), later)
    ensures ApplyRows(later, rows) == later
  {
    hide ContactKeys, OwnerKeys, ContractKeys, Contacts, Owners, Contracts, AddAll;
    ContactsHaveKeys(rows.vendorContacts + rows.offeringContacts);
    OwnersHaveKeys(rows.vendorOwners + rows.offeringOwners);
    ContractsHaveKeys(rows.contracts);
    var contacts := Contacts(rows.vendorContacts + rows.offeringContacts);
    AddingAgainAddsNothing(store.contacts, contacts, later.contacts, ContactKeys());
    AddingAgainAddsNothing(store.owners, Owners(rows.vendorOwners + rows.offeringOwners), later.owners, OwnerKeys());
    AddingAgainAddsNothing(store.contracts, Contracts(rows.contracts), later.contracts, ContractKeys());
  }

  /** Nothing is lost by applying rows. */
  lemma ApplyingOnlyAdds(store: Store, rows: AreaRows)
    ensures Grown(store, ApplyRows(store, rows))
  {
    AddAllAppends(store.contacts, Contacts(rows.vendorContacts + rows.offeringContacts), ContactKeys());
    AddAllAppends(store.owners, Owners(rows.vendorOwners + rows.offeringOwners), OwnerKeys());
    AddAllAppends(store.contracts, Contracts(rows.contracts), ContractKeys());
  }

  function ApplyMany(store: Store, batches: seq<AreaRows>): Store
    decreases |batches|
  {
    if batches == [] then store else ApplyMany(ApplyRows(store, batches[0]), batches[1..])
  }

  lemma {:induction false} ManyOnlyAdd(store: Store, batches: seq<AreaRows>)
    ensures Grown(store, ApplyMany(store, batches))
    decreases |batches|
  {
    if batches != [] {
      ApplyingOnlyAdds(store, batches[0]);
      ManyOnlyAdd(ApplyRows(store, batches[0]), batches[1..]);
    }
  }

  /** A whole import applied a second time writes nothing, from any start. */
  lemma {:induction false} ImportingAgainWritesNothing(store: Store, batches: seq<AreaRows>, later: Store)
    requires Grown(ApplyMany(store, batches), later)
    ensures ApplyMany(later, batches) == later
    decreases |batches|
  {
    hide ApplyRows;
    if batches != [] {
      var next := ApplyRows(store, batches[0]);
      ManyOnlyAdd(next, batches[1..]);
      ApplyingAgainWritesNothing(store, batches[0], later);
      ImportingAgainWritesNothing(next, batches[1..], later);
    }
  }
}
