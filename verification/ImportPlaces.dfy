/**
 Where the staged rows of an import end up: which vendor and offering each belongs to, which stored
 row each added one comes from, and that every row that can be written is there afterwards.
*/
module ImportPlaces {
  import opened Common
  import opened KeyedTables
  import opened ImportDedupe
  import opened ImportTheorems

  // ----- Which offering and vendor -----

  /** The offering of the row's source group, if it has one. */
  predicate GroupHasOffering(t: Targets, place: Place) {
    place.group in t.byGroup && t.byGroup[place.group] != ""
  }

  /** The row's own offering; else its group's; else the primary one; else the only one created; else none. */
  predicate OfferingIs(t: Targets, place: Place, offering: string) {
    && (place.offering != "" ==> offering == place.offering)
    && (place.offering == "" && GroupHasOffering(t, place) ==> offering == t.byGroup[place.group])
    && (place.offering == "" && !GroupHasOffering(t, place) && t.offering != "" ==> offering == t.offering)
    && (place.offering == "" && !GroupHasOffering(t, place) && t.offering == "" && |t.created| == 1 ==>
          offering == t.created[0])
    && (place.offering == "" && !GroupHasOffering(t, place) && t.offering == "" && |t.created| != 1 ==> offering == "")
  }

  /**
   The row's own vendor; else the one settled for the import row; else its offering's, if that is
   known; else none.
  */
  predicate VendorIs(t: Targets, place: Place, offering: string, offerings: map<string, string>, vendor: string) {
    && (place.vendor != "" ==> vendor == place.vendor)
    && (place.vendor == "" && t.vendor != "" ==> vendor == t.vendor)
    && (place.vendor == "" && t.vendor == "" && offering != "" && offering in offerings ==>
          vendor == offerings[offering])
    && (place.vendor == "" && t.vendor == "" && (offering == "" || offering !in offerings) ==> vendor == "")
  }

  lemma OfferingForIs(t: Targets, place: Place, offering: string)
    ensures OfferingFor(t, place) == offering <==> OfferingIs(t, place, offering)
  {
  }

  lemma VendorForIs(t: Targets, place: Place, offering: string, offerings: map<string, string>, vendor: string)
    ensures VendorFor(t, place, offering, offerings) == vendor <==> VendorIs(t, place, offering, offerings, vendor)
  {
  }

  /** The scope of a vendor row or an offering row, with its ids known. */
  predicate ScopeIs(t: Targets, place: Place, ofOffering: bool, offerings: map<string, string>, s: Scope) {
    && s.vendor != "" && s.Offering? == ofOffering
    && (s.Vendor? ==> VendorIs(t, place, "", offerings, s.vendor))
    && (s.Offering? ==>
          s.offering != "" && OfferingIs(t, place, s.offering) && VendorIs(t, place, s.offering, offerings, s.vendor))
  }

  lemma ScopeForIs(t: Targets, place: Place, ofOffering: bool, offerings: map<string, string>, s: Scope)
    ensures s.Known() && ScopeFor(t, place, ofOffering, offerings) == s <==> ScopeIs(t, place, ofOffering, offerings, s)
  {
    hide OfferingFor, VendorFor, OfferingIs, VendorIs;
    if s.Offering? {
      OfferingForIs(t, place, s.offering);
      VendorForIs(t, place, s.offering, offerings, s.vendor);
    } else {
      VendorForIs(t, place, "", offerings, s.vendor);
    }
  }

  // ----- What a staged row asks for -----

  /** The contact that a row stands for: its own name, or its email, or a fixed text; a blank type is "business". */
  predicate ContactFor(t: Targets, offerings: map<string, string>, r: ContactRow, ofOffering: bool, c: Contact) {
    && ScopeIs(t, r.place, ofOffering, offerings, c.scope)
    && (r.name != "" || r.email != "" || r.phone != "")
    && (r.name != "" ==> c.name == r.name)
    && (r.name == "" && r.email != "" ==> c.name == r.email)
    && (r.name == "" && r.email == "" ==> c.name == if ofOffering then "Offering Contact" else "Support Contact")
    && c.kind == (if r.kind == "" then "business" else r.kind)
    && c.email == r.email && c.phone == r.phone
  }

  predicate OwnerFor(t: Targets, offerings: map<string, string>, r: OwnerRow, ofOffering: bool, o: Owner) {
    && ScopeIs(t, r.place, ofOffering, offerings, o.scope)
    && r.principal != "" && o.principal == r.principal
    && o.role == if r.role == "" then "business_owner" else r.role
  }

  predicate ContractFor(t: Targets, offerings: map<string, string>, r: ContractRow, c: Contract) {
    && OfferingIs(t, r.place, c.offering) && VendorIs(t, r.place, c.offering, offerings, c.vendor)
    && c.vendor != "" && r.number != "" && c.number == r.number
    && c.status == (if r.status == "" then "active" else r.status)
    && c.startDate == r.startDate && c.endDate == r.endDate && c.annualValue == r.annualValue
  }

  lemma ContactForIs(t: Targets, offerings: map<string, string>, r: ContactRow, ofOffering: bool, c: Contact)
    ensures ResolveContact(PlacedContact(t, r, ofOffering, offerings)) == Some(Wanted(c.scope, c))
      <==> ContactFor(t, offerings, r, ofOffering, c)
  {
    hide ScopeFor, ScopeIs;
    ScopeForIs(t, r.place, ofOffering, offerings, c.scope);
    ScopeForKind(t, r.place, ofOffering, offerings);
  }

  lemma ScopeForKind(t: Targets, place: Place, ofOffering: bool, offerings: map<string, string>)
    ensures ScopeFor(t, place, ofOffering, offerings).Offering? == ofOffering
    ensures forall s :: ScopeIs(t, place, ofOffering, offerings, s) ==> s.Offering? == ofOffering
  {
  }

  lemma OwnerForIs(t: Targets, offerings: map<string, string>, r: OwnerRow, ofOffering: bool, o: Owner)
    ensures ResolveOwner(PlacedOwner(t, r, ofOffering, offerings)) == Some(Wanted(o.scope, o))
      <==> OwnerFor(t, offerings, r, ofOffering, o)
  {
    hide ScopeFor, ScopeIs;
    ScopeForIs(t, r.place, ofOffering, offerings, o.scope);
  }

  lemma ContractForIs(t: Targets, offerings: map<string, string>, r: ContractRow, c: Contract)
    ensures ResolveContract(PlacedContract(t, r, offerings)) == Some(Wanted(Vendor(c.vendor), c))
      <==> ContractFor(t, offerings, r, c)
  {
    hide OfferingFor, VendorFor, OfferingIs, VendorIs;
    OfferingForIs(t, r.place, c.offering);
    VendorForIs(t, r.place, c.offering, offerings, c.vendor);
  }

  // ----- Where an added row comes from -----

  /** Each row added was asked for by some input. */
  lemma {:induction false} AddedFrom<T>(rows: seq<T>, ins: seq<Option<Wanted<T>>>, f: Keying<T>, i: nat)
    returns (k: nat)
    requires |rows| <= i < |AddAll(rows, ins, f)|
    ensures k < |ins| && ins[k].Some? && ins[k].value.row == AddAll(rows, ins, f)[i]
    decreases |ins|
  {
    var next := if ins[0].None? then rows else Add(rows, ins[0].value, f);
    if i < |next| {
      AddAllAppends(next, ins[1..], f);
      k := 0;
    } else {
      k := AddedFrom(next, ins[1..], f, i);
      k := k + 1;
    }
  }

  function ContactRows(s: StagedRows): seq<ContactRow> { s.vendorContacts + s.offeringContacts }

  function OwnerRows(s: StagedRows): seq<OwnerRow> { s.vendorOwners + s.offeringOwners }

  /** What the row at place k of the contact rows asks for. */
  lemma ContactAsked(t: Targets, s: StagedRows, offerings: map<string, string>, k: nat)
    requires k < |ContactRows(s)|
    ensures var p := Placed(t, s, offerings);
      var ins := Contacts(p.vendorContacts + p.offeringContacts);
      && |ins| == |ContactRows(s)|
      && ins[k] == ResolveContact(PlacedContact(t, ContactRows(s)[k], k >= |s.vendorContacts|, offerings))
  {
  }

  lemma OwnerAsked(t: Targets, s: StagedRows, offerings: map<string, string>, k: nat)
    requires k < |OwnerRows(s)|
    ensures var p := Placed(t, s, offerings);
      var ins := Owners(p.vendorOwners + p.offeringOwners);
      && |ins| == |OwnerRows(s)|
      && ins[k] == ResolveOwner(PlacedOwner(t, OwnerRows(s)[k], k >= |s.vendorOwners|, offerings))
  {
  }

  lemma ContactWantsItself(c: ContactIn)
    ensures var w := ResolveContact(c); w.Some? ==> w.value.row.scope == w.value.scope
  {
  }

  lemma OwnerWantsItself(o: OwnerIn)
    ensures var w := ResolveOwner(o); w.Some? ==> w.value.row.scope == w.value.scope
  {
  }

  lemma ContractWantsItself(c: ContractIn)
    ensures var w := ResolveContract(c); w.Some? ==> w.value.scope == Vendor(w.value.row.vendor)
  {
  }

  /** Every contact that the area rows add is one that a staged contact row stands for. */
  lemma AddedContactIs(store: Store, t: Targets, s: StagedRows, offerings: map<string, string>, i: nat) returns (k: nat)
    requires |store.contacts| <= i < |ApplyRows(store, Placed(t, s, offerings)).contacts|
    ensures k < |ContactRows(s)|
    ensures ContactFor(t, offerings, ContactRows(s)[k], k >= |s.vendorContacts|,
                       ApplyRows(store, Placed(t, s, offerings)).contacts[i])
  {
    hide ContactFor, ResolveContact, PlacedContact, AddAll, ContactKeys, Contacts, Placed, ContactRows;
    var p := Placed(t, s, offerings);
    var ins := Contacts(p.vendorContacts + p.offeringContacts);
    k := AddedFrom(store.contacts, ins, ContactKeys(), i);
    ContactCount(t, s, offerings);
    ContactAsked(t, s, offerings, k);
    ContactWantsItself(PlacedContact(t, ContactRows(s)[k], k >= |s.vendorContacts|, offerings));
    ContactForIs(t, offerings, ContactRows(s)[k], k >= |s.vendorContacts|, ins[k].value.row);
  }

  lemma ContactCount(t: Targets, s: StagedRows, offerings: map<string, string>)
    ensures var p := Placed(t, s, offerings); |Contacts(p.vendorContacts + p.offeringContacts)| == |ContactRows(s)|
  {
  }

  lemma OwnerCount(t: Targets, s: StagedRows, offerings: map<string, string>)
    ensures var p := Placed(t, s, offerings); |Owners(p.vendorOwners + p.offeringOwners)| == |OwnerRows(s)|
  {
  }

  /** Every owner that the area rows add is one that a staged owner row stands for. */
  lemma AddedOwnerIs(store: Store, t: Targets, s: StagedRows, offerings: map<string, string>, i: nat) returns (k: nat)
    requires |store.owners| <= i < |ApplyRows(store, Placed(t, s, offerings)).owners|
    ensures k < |OwnerRows(s)|
    ensures OwnerFor(t, offerings, OwnerRows(s)[k], k >= |s.vendorOwners|,
                     ApplyRows(store, Placed(t, s, offerings)).owners[i])
  {
    hide OwnerFor, ResolveOwner, PlacedOwner, AddAll, OwnerKeys, Owners, Placed, OwnerRows;
    var p := Placed(t, s, offerings);
    var ins := Owners(p.vendorOwners + p.offeringOwners);
    k := AddedFrom(store.owners, ins, OwnerKeys(), i);
    OwnerCount(t, s, offerings);
    OwnerAsked(t, s, offerings, k);
    OwnerWantsItself(PlacedOwner(t, OwnerRows(s)[k], k >= |s.vendorOwners|, offerings));
    OwnerForIs(t, offerings, OwnerRows(s)[k], k >= |s.vendorOwners|, ins[k].value.row);
  }

  /** Every contract that the area rows add is one that a staged contract row stands for. */
  lemma AddedContractIs(store: Store, t: Targets, s: StagedRows, offerings: map<string, string>, i: nat)
    returns (k: nat)
    requires |store.contracts| <= i < |ApplyRows(store, Placed(t, s, offerings)).contracts|
    ensures k < |s.contracts|
    ensures ContractFor(t, offerings, s.contracts[k], ApplyRows(store, Placed(t, s, offerings)).contracts[i])
  {
    hide ContractFor, ResolveContract, PlacedContract, AddAll, ContractKeys;
    var ins := Contracts(Placed(t, s, offerings).contracts);
    k := AddedFrom(store.contracts, ins, ContractKeys(), i);
    ContractWantsItself(PlacedContract(t, s.contracts[k], offerings));
    ContractForIs(t, offerings, s.contracts[k], ins[k].value.row);
  }

  // ----- Every row that can be written is there -----

  predicate ShareKey<T>(f: Keying<T>, s: Scope, a: T, b: T) {
    f(s, a) * f(s, b) != {}
  }

  /** After adding, a wanted row is there, or one that shares a key with it. */
  lemma WantedIsCovered<T>(rows: seq<T>, ins: seq<Option<Wanted<T>>>, f: Keying<T>, k: nat)
    returns (i: nat)
    requires HaveKeys(ins, f) && k < |ins| && ins[k].Some?
    ensures i < |AddAll(rows, ins, f)|
    ensures ShareKey(f, ins[k].value.scope, AddAll(rows, ins, f)[i], ins[k].value.row)
  {
    AddAllTakes(rows, ins, f);
    var after, w := AddAll(rows, ins, f), ins[k].value;
    var key :| key in f(w.scope, w.row) * Gather(after, w.scope, f);
    GatherIs(after, w.scope, f, key);
    i :| 0 <= i < |after| && key in f(w.scope, after[i]);
    assert key in f(w.scope, after[i]) * f(w.scope, w.row);
  }

  /**
   Afterwards, each contact that a staged row stands for is stored, itself or as a duplicate or
   lookalike of its scope.
  */
  lemma ContactIsThere(store: Store, t: Targets, s: StagedRows, offerings: map<string, string>, k: nat, c: Contact)
    requires k < |ContactRows(s)| && ContactFor(t, offerings, ContactRows(s)[k], k >= |s.vendorContacts|, c)
    ensures exists x <- ApplyRows(store, Placed(t, s, offerings)).contacts ::
      x.scope == c.scope && (Duplicate(x, c) || Lookalike(x, c))
  {
    hide ContactFor, ResolveContact, PlacedContact, AddAll, Contacts, Placed, ContactRows, RowKeys;
    var p := Placed(t, s, offerings);
    var ins := Contacts(p.vendorContacts + p.offeringContacts);
    ContactForIs(t, offerings, ContactRows(s)[k], k >= |s.vendorContacts|, c);
    ContactAsked(t, s, offerings, k);
    ContactsHaveKeys(p.vendorContacts + p.offeringContacts);
    var i := WantedIsCovered(store.contacts, ins, ContactKeys(), k);
    var after := AddAll(store.contacts, ins, ContactKeys());
    SharedKeysIff(after[i], c);
    assert after[i] in after;
  }

  /** The same for owners. */
  lemma OwnerIsThere(store: Store, t: Targets, s: StagedRows, offerings: map<string, string>, k: nat, o: Owner)
    requires k < |OwnerRows(s)| && OwnerFor(t, offerings, OwnerRows(s)[k], k >= |s.vendorOwners|, o)
    ensures exists x <- ApplyRows(store, Placed(t, s, offerings)).owners ::
      x.scope == o.scope && (DuplicateOwner(x, o) || LookalikeOwner(x, o))
  {
    hide OwnerFor, ResolveOwner, PlacedOwner, AddAll, Owners, Placed, OwnerRows, OwnerKey;
    var p := Placed(t, s, offerings);
    var ins := Owners(p.vendorOwners + p.offeringOwners);
    OwnerForIs(t, offerings, OwnerRows(s)[k], k >= |s.vendorOwners|, o);
    OwnerAsked(t, s, offerings, k);
    OwnersHaveKeys(p.vendorOwners + p.offeringOwners);
    var i := WantedIsCovered(store.owners, ins, OwnerKeys(), k);
    var after := AddAll(store.owners, ins, OwnerKeys());
    OwnerKeyIff(after[i], o);
    assert after[i] in after;
  }

  /** And for contracts: one of the vendor with the number, ignoring case, is stored. */
  lemma ContractIsThere(store: Store, t: Targets, s: StagedRows, offerings: map<string, string>, k: nat, c: Contract)
    requires k < |s.contracts| && ContractFor(t, offerings, s.contracts[k], c)
    ensures exists x <- ApplyRows(store, Placed(t, s, offerings)).contracts ::
      x.vendor == c.vendor && Lower(x.number) == Lower(c.number)
  {
    hide ContractFor, ResolveContract, PlacedContract, AddAll;
    var ins := Contracts(Placed(t, s, offerings).contracts);
    ContractForIs(t, offerings, s.contracts[k], c);
    ContractsHaveKeys(Placed(t, s, offerings).contracts);
    var i := WantedIsCovered(store.contracts, ins, ContractKeys(), k);
    var after := AddAll(store.contracts, ins, ContractKeys());
    assert after[i] in after;
  }
}
