/**
 The import apply context: cached sets of dedupe keys beside the repository they are read from, and
 the area-row loops that add contacts, owners and contracts unless a key is already there.

 Texts arrive trimmed. Vendor and offering tables of one kind are one table with a scope column.
*/
module ImportDedupe {
  import opened Common
  import opened KeyedTables

  datatype Contact = Contact(scope: Scope, name: string, kind: string, email: string, phone: string)

  datatype Owner = Owner(scope: Scope, principal: string, role: string)

  datatype Contract = Contract(
    vendor: string, offering: string, number: string, status: string,
    startDate: string, endDate: string, annualValue: Option<real>)

  /** `_normalize_phone`: the digits of the text. */
  function Digits(s: string): string {
    if s == "" then "" else (if '0' <= s[0] <= '9' then [s[0]] else "") + Digits(s[1..])
  }

  // ----- Keys -----

  function EmailKey(email: string): string { "email:" + Lower(email) }

  function PhoneKey(phone: string): string { "phone:" + Digits(phone) }

  function NameKey(name: string, kind: string): string {
    "name_type:" + Lower(name) + "|" + Lower(OrElse(kind, "business"))
  }

  /** A phone of fewer than seven digits is no key. */
  function RowKeys(c: Contact): set<string> {
    (if c.email != "" then {EmailKey(c.email)} else {})
    + (if |Digits(c.phone)| >= 7 then {PhoneKey(c.phone)} else {})
    + (if c.name != "" then {NameKey(c.name, c.kind)} else {})
  }

  function ContactKeys(): Keying<Contact> {
    (s: Scope, c: Contact) => if c.scope == s then RowKeys(c) else {}
  }

  function OwnerKey(principal: string, role: string): string {
    Lower(principal) + "|" + Lower(OrElse(role, "business_owner"))
  }

  function OwnerKeys(): Keying<Owner> {
    (s: Scope, o: Owner) => if o.scope == s && o.principal != "" then {OwnerKey(o.principal, o.role)} else {}
  }

  /** Contract numbers are compared within a vendor, whatever the offering. */
  function ContractKeys(): Keying<Contract> {
    (s: Scope, c: Contract) => if s == Vendor(c.vendor) && c.number != "" then {Lower(c.number)} else {}
  }

  // ----- Which vendor and offering a staged row belongs to -----

  /** The ids a staged row gives itself, and its source group. */
  datatype Place = Place(vendor: string, offering: string, group: string)

  /** What the staged row's own apply has settled: its vendor and offering, and the offerings just created. */
  datatype Targets = Targets(vendor: string, offering: string, created: seq<string>, byGroup: map<string, string>)

  /** `resolve_offering_id`: the row's own id, its group's, the primary one, or the only one created. */
  function OfferingFor(t: Targets, place: Place): string {
    if place.offering != "" then place.offering else
    if place.group in t.byGroup && t.byGroup[place.group] != "" then t.byGroup[place.group] else
    if t.offering != "" then t.offering else
    if |t.created| == 1 then t.created[0] else ""
  }

  function VendorOf(offerings: map<string, string>, offering: string): string {
    if offering in offerings then offerings[offering] else ""
  }

  /** `resolve_vendor_id`: the row's own id, the resolved one, or the offering's. */
  function VendorFor(t: Targets, place: Place, offering: string, offerings: map<string, string>): string {
    if place.vendor != "" then place.vendor else
    if t.vendor != "" then t.vendor else
    if offering != "" then VendorOf(offerings, offering) else ""
  }

  /** The scope of a vendor row or of an offering row. */
  function ScopeFor(t: Targets, place: Place, ofOffering: bool, offerings: map<string, string>): Scope {
    if ofOffering then
      var offering := OfferingFor(t, place);
      Offering(VendorFor(t, place, offering, offerings), offering)
    else
      Vendor(VendorFor(t, place, "", offerings))
  }

  datatype ContactRow = ContactRow(place: Place, name: string, kind: string, email: string, phone: string)

  datatype OwnerRow = OwnerRow(place: Place, principal: string, role: string)

  datatype ContractRow = ContractRow(
    place: Place, number: string, status: string, startDate: string, endDate: string, annualValue: Option<real>)

  /** The contact, owner and contract rows staged for one imported row. */
  datatype StagedRows = StagedRows(
    vendorOwners: seq<OwnerRow>, vendorContacts: seq<ContactRow>,
    offeringOwners: seq<OwnerRow>, offeringContacts: seq<ContactRow>, contracts: seq<ContractRow>)

  function PlacedContact(t: Targets, r: ContactRow, ofOffering: bool, offerings: map<string, string>): ContactIn {
    ContactIn(ScopeFor(t, r.place, ofOffering, offerings), r.name, r.kind, r.email, r.phone)
  }

  function PlacedOwner(t: Targets, r: OwnerRow, ofOffering: bool, offerings: map<string, string>): OwnerIn {
    OwnerIn(ScopeFor(t, r.place, ofOffering, offerings), r.principal, r.role)
  }

  function PlacedContract(t: Targets, r: ContractRow, offerings: map<string, string>): ContractIn {
    var offering := OfferingFor(t, r.place);
    var vendor := VendorFor(t, r.place, offering, offerings);
    ContractIn(vendor, offering, r.number, r.status, r.startDate, r.endDate, r.annualValue)
  }

  function PlacedContacts(t: Targets, rows: seq<ContactRow>, ofOffering: bool, offerings: map<string, string>)
    : (r: seq<ContactIn>)
    ensures |r| == |rows|
  {
    seq(|rows|, i requires 0 <= i < |rows| => PlacedContact(t, rows[i], ofOffering, offerings))
  }

  function PlacedOwners(t: Targets, rows: seq<OwnerRow>, ofOffering: bool, offerings: map<string, string>)
    : (r: seq<OwnerIn>)
    ensures |r| == |rows|
  {
    seq(|rows|, i requires 0 <= i < |rows| => PlacedOwner(t, rows[i], ofOffering, offerings))
  }

  function PlacedContracts(t: Targets, rows: seq<ContractRow>, offerings: map<string, string>): (r: seq<ContractIn>)
    ensures |r| == |rows|
  {
    seq(|rows|, i requires 0 <= i < |rows| => PlacedContract(t, rows[i], offerings))
  }

  /** The staged rows with their vendor and offering ids resolved. */
  function Placed(t: Targets, s: StagedRows, offerings: map<string, string>): AreaRows {
    AreaRows(PlacedOwners(t, s.vendorOwners, false, offerings), PlacedContacts(t, s.vendorContacts, false, offerings),
             PlacedOwners(t, s.offeringOwners, true, offerings), PlacedContacts(t, s.offeringContacts, true, offerings),
             PlacedContracts(t, s.contracts, offerings))
  }

  // ----- What a row asks for -----

  datatype ContactIn = ContactIn(scope: Scope, name: string, kind: string, email: string, phone: string)

  datatype OwnerIn = OwnerIn(scope: Scope, principal: string, role: string)

  datatype ContractIn = ContractIn(
    vendor: string, offering: string, number: string, status: string,
    startDate: string, endDate: string, annualValue: Option<real>)

  /** The contact to store; a missing name is replaced by the email or a fixed text. */
  function ResolveContact(c: ContactIn): Option<Wanted<Contact>> {
    if !c.scope.Known() || (c.name == "" && c.email == "" && c.phone == "") then None else
    var name := if c.name != "" then c.name
                else OrElse(c.email, if c.scope.Vendor? then "Support Contact" else "Offering Contact");
    Some(Wanted(c.scope, Contact(c.scope, name, OrElse(c.kind, "business"), c.email, c.phone)))
  }

  function ResolveOwner(o: OwnerIn): Option<Wanted<Owner>> {
    if !o.scope.Known() || o.principal == "" then None else
    Some(Wanted(o.scope, Owner(o.scope, o.principal, OrElse(o.role, "business_owner"))))
  }

  function ResolveContract(c: ContractIn): Option<Wanted<Contract>> {
    if c.vendor == "" || c.number == "" then None else
    Some(Wanted(Vendor(c.vendor), Contract(c.vendor, c.offering, c.number, OrElse(c.status, "active"),
                                           c.startDate, c.endDate, c.annualValue)))
  }

  function Contacts(ins: seq<ContactIn>): (r: seq<Option<Wanted<Contact>>>)
    ensures |r| == |ins|
  {
    seq(|ins|, i requires 0 <= i < |ins| => ResolveContact(ins[i]))
  }

  function Owners(ins: seq<OwnerIn>): (r: seq<Option<Wanted<Owner>>>)
    ensures |r| == |ins|
  {
    seq(|ins|, i requires 0 <= i < |ins| => ResolveOwner(ins[i]))
  }

  function Contracts(ins: seq<ContractIn>): (r: seq<Option<Wanted<Contract>>>)
    ensures |r| == |ins|
  {
    seq(|ins|, i requires 0 <= i < |ins| => ResolveContract(ins[i]))
  }

  /** Contact, owner and contract rows with their vendor and offering ids resolved. */
  datatype AreaRows = AreaRows(
    vendorOwners: seq<OwnerIn>, vendorContacts: seq<ContactIn>,
    offeringOwners: seq<OwnerIn>, offeringContacts: seq<ContactIn>, contracts: seq<ContractIn>)

  datatype Counts = Counts(
    vendorOwner: nat, vendorContact: nat, offeringOwner: nat, offeringContact: nat, contract: nat)

  datatype Store = Store(contacts: seq<Contact>, owners: seq<Owner>, contracts: seq<Contract>)

  function ApplyRows(store: Store, rows: AreaRows): Store {
    Store(AddAll(store.contacts, Contacts(rows.vendorContacts + rows.offeringContacts), ContactKeys()),
          AddAll(store.owners, Owners(rows.vendorOwners + rows.offeringOwners), OwnerKeys()),
          AddAll(store.contracts, Contracts(rows.contracts), ContractKeys()))
  }

  // ----- The repository and the context -----

  class Repository {
    var contacts: seq<Contact>
    var owners: seq<Owner>
    var contracts: seq<Contract>
    var offerings: map<string, string>   // the vendor of each offering

    constructor (contacts: seq<Contact>, owners: seq<Owner>, contracts: seq<Contract>, offerings: map<string, string>)
      ensures this.contacts == contacts && this.owners == owners && this.contracts == contracts
      ensures this.offerings == offerings
    {
      this.contacts, this.owners, this.contracts, this.offerings := contacts, owners, contracts, offerings;
    }

    function Rows(): Store
      reads this
    {
      Store(contacts, owners, contracts)
    }
  }

  class ImportApplyContext {
    const repo: Repository
    var contactKeys: map<Scope, set<string>>
    var ownerKeys: map<Scope, set<string>>
    var contractKeys: map<Scope, set<string>>
    var offeringVendors: map<string, string>

    constructor (repo: Repository)
      ensures this.repo == repo && Coherent()
      ensures contactKeys == map[] && ownerKeys == map[] && contractKeys == map[] && offeringVendors == map[]
    {
      this.repo := repo;
      contactKeys, ownerKeys, contractKeys, offeringVendors := map[], map[], map[], map[];
    }

    /** Every cached key set is what a reload would give now. */
    ghost predicate Coherent()
      reads this, repo
    {
      && (forall s <- contactKeys :: contactKeys[s] == Gather(repo.contacts, s, ContactKeys()))
      && (forall s <- ownerKeys :: ownerKeys[s] == Gather(repo.owners, s, OwnerKeys()))
      && (forall s <- contractKeys :: contractKeys[s] == Gather(repo.contracts, s, ContractKeys()))
      && (forall o <- offeringVendors :: offeringVendors[o] == VendorOf(repo.offerings, o))
    }

    /** `resolve_offering_vendor_id`. */
    method ResolveOfferingVendor(offering: string) returns (vendor: string)
      requires Coherent()
      modifies this`offeringVendors
      ensures Coherent() && vendor == if offering == "" then "" else VendorOf(repo.offerings, offering)
    {
      if offering == "" {
        return "";
      }
      if offering in offeringVendors {
        return offeringVendors[offering];
      }
      vendor := if offering in repo.offerings then repo.offerings[offering] else "";
      offeringVendors := offeringVendors[offering := vendor];
    }

    method ResolveVendor(t: Targets, place: Place, offering: string) returns (vendor: string)
      requires Coherent()
      modifies this`offeringVendors
      ensures Coherent() && vendor == VendorFor(t, place, offering, repo.offerings)
    {
      if place.vendor != "" {
        return place.vendor;
      }
      if t.vendor != "" {
        return t.vendor;
      }
      vendor := ResolveOfferingVendor(offering);
    }

    method ResolveScope(t: Targets, place: Place, ofOffering: bool) returns (s: Scope)
      requires Coherent()
      modifies this`offeringVendors
      ensures Coherent() && s == ScopeFor(t, place, ofOffering, repo.offerings)
    {
      var offering := if ofOffering then OfferingFor(t, place) else "";
      var vendor := ResolveVendor(t, place, offering);
      s := if ofOffering then Offering(vendor, offering) else Vendor(vendor);
    }

    method LoadContactKeys(s: Scope) returns (keys: set<string>)
      requires Coherent()
      modifies this`contactKeys
      ensures Coherent()
      ensures keys == Gather(repo.contacts, s, ContactKeys())
      ensures s in contactKeys
    {
      if s in contactKeys {
        return contactKeys[s];
      }
      keys := {};
      for i := 0 to |repo.contacts|
        invariant keys == Gather(repo.contacts[..i], s, ContactKeys())
      {
        assert repo.contacts[..i + 1][..i] == repo.contacts[..i];
        var c := repo.contacts[i];
        if c.scope == s {
          if c.email != "" {
            keys := keys + {EmailKey(c.email)};
          }
          if |Digits(c.phone)| >= 7 {
            keys := keys + {PhoneKey(c.phone)};
          }
          if c.name != "" {
            keys := keys + {NameKey(c.name, c.kind)};
          }
        }
      }
      assert repo.contacts[..|repo.contacts|] == repo.contacts;
      contactKeys := contactKeys[s := keys];
    }

    method LoadOwnerKeys(s: Scope) returns (keys: set<string>)
      requires Coherent()
      modifies this`ownerKeys
      ensures Coherent()
      ensures keys == Gather(repo.owners, s, OwnerKeys())
      ensures s in ownerKeys
    {
      if s in ownerKeys {
        return ownerKeys[s];
      }
      keys := {};
      for i := 0 to |repo.owners|
        invariant keys == Gather(repo.owners[..i], s, OwnerKeys())
      {
        assert repo.owners[..i + 1][..i] == repo.owners[..i];
        var o := repo.owners[i];
        if o.scope == s && o.principal != "" {
          keys := keys + {OwnerKey(o.principal, o.role)};
        }
      }
      assert repo.owners[..|repo.owners|] == repo.owners;
      ownerKeys := ownerKeys[s := keys];
    }

    method LoadContractKeys(vendor: string) returns (keys: set<string>)
      requires Coherent()
      modifies this`contractKeys
      ensures Coherent()
      ensures keys == Gather(repo.contracts, Vendor(vendor), ContractKeys())
      ensures Vendor(vendor) in contractKeys
    {
      var s := Vendor(vendor);
      if s in contractKeys {
        return contractKeys[s];
      }
      keys := {};
      for i := 0 to |repo.contracts|
        invariant keys == Gather(repo.contracts[..i], s, ContractKeys())
      {
        assert repo.contracts[..i + 1][..i] == repo.contracts[..i];
        var c := repo.contracts[i];
        if c.vendor == vendor && c.number != "" {
          keys := keys + {Lower(c.number)};
        }
      }
      assert repo.contracts[..|repo.contracts|] == repo.contracts;
      contractKeys := contractKeys[s := keys];
    }

    /** The cached decision adds exactly what an uncached one over the stored rows would. */
    method MaybeAddContact(c: ContactIn) returns (added: bool)
      requires Coherent()
      modifies this`contactKeys, repo`contacts
      ensures Coherent()
      ensures var w := ResolveContact(c);
        repo.contacts == if w.None? then old(repo.contacts) else Add(old(repo.contacts), w.value, ContactKeys())
      ensures added <==> repo.contacts != old(repo.contacts)
    {
      hide EmailKey, PhoneKey, NameKey, Digits, Lower, Gather;
      var w := ResolveContact(c);
      if w.None? {
        return false;
      }
      var r := w.value.row;
      var keys := LoadContactKeys(c.scope);
      if r.email != "" && EmailKey(r.email) in keys {
        assert EmailKey(r.email) in RowKeys(r) * keys;
        return false;
      }
      if |Digits(r.phone)| >= 7 && PhoneKey(r.phone) in keys {
        assert PhoneKey(r.phone) in RowKeys(r) * keys;
        return false;
      }
      if r.name != "" && NameKey(r.name, r.kind) in keys {
        assert NameKey(r.name, r.kind) in RowKeys(r) * keys;
        return false;
      }
      assert RowKeys(r) * keys == {};
      ghost var before := repo.contacts;
      repo.contacts := repo.contacts + [r];
      if r.email != "" {
        keys := keys + {EmailKey(r.email)};
      }
      if |Digits(r.phone)| >= 7 {
        keys := keys + {PhoneKey(r.phone)};
      }
      if r.name != "" {
        keys := keys + {NameKey(r.name, r.kind)};
      }
      assert keys == Gather(before, c.scope, ContactKeys()) + RowKeys(r);
      contactKeys := contactKeys[c.scope := keys];
      forall s <- contactKeys ensures contactKeys[s] == Gather(repo.contacts, s, ContactKeys()) {
        GatherAdd(before, r, s, ContactKeys());
      }
      added := true;
    }

    method MaybeAddOwner(o: OwnerIn) returns (added: bool)
      requires Coherent()
      modifies this`ownerKeys, repo`owners
      ensures Coherent()
      ensures var w := ResolveOwner(o);
        repo.owners == if w.None? then old(repo.owners) else Add(old(repo.owners), w.value, OwnerKeys())
      ensures added <==> repo.owners != old(repo.owners)
    {
      hide Gather, OwnerKey;
      var w := ResolveOwner(o);
      if w.None? {
        return false;
      }
      var r := w.value.row;
      var key := OwnerKey(r.principal, r.role);
      var keys := LoadOwnerKeys(o.scope);
      assert OwnerKeys()(o.scope, r) == {key};
      if key in keys {
        assert key in {key} * keys;
        return false;
      }
      ghost var before := repo.owners;
      repo.owners := repo.owners + [r];
      ownerKeys := ownerKeys[o.scope := keys + {key}];
      forall s <- ownerKeys ensures ownerKeys[s] == Gather(repo.owners, s, OwnerKeys()) {
        GatherAdd(before, r, s, OwnerKeys());
      }
      added := true;
    }

    method MaybeCreateContract(c: ContractIn) returns (added: bool)
      requires Coherent()
      modifies this`contractKeys, repo`contracts
      ensures Coherent()
      ensures var w := ResolveContract(c);
        repo.contracts == if w.None? then old(repo.contracts) else Add(old(repo.contracts), w.value, ContractKeys())
      ensures added <==> repo.contracts != old(repo.contracts)
    {
      hide Gather, Lower;
      var w := ResolveContract(c);
      if w.None? {
        return false;
      }
      var r := w.value.row;
      var key := Lower(r.number);
      var keys := LoadContractKeys(c.vendor);
      assert ContractKeys()(Vendor(c.vendor), r) == {key};
      if key in keys {
        assert key in {key} * keys;
        return false;
      }
      ghost var before := repo.contracts;
      repo.contracts := repo.contracts + [r];
      contractKeys := contractKeys[Vendor(c.vendor) := keys + {key}];
      forall s <- contractKeys ensures contractKeys[s] == Gather(repo.contracts, s, ContractKeys()) {
        GatherAdd(before, r, s, ContractKeys());
      }
      added := true;
    }

    // ----- The area-row loops -----

    method ApplyContacts(t: Targets, rows: seq<ContactRow>, ofOffering: bool) returns (count: nat)
      requires Coherent()
      modifies this`contactKeys, this`offeringVendors, repo`contacts
      ensures Coherent()
      ensures repo.contacts
        == AddAll(old(repo.contacts), Contacts(PlacedContacts(t, rows, ofOffering, repo.offerings)), ContactKeys())
      ensures count == |repo.contacts| - |old(repo.contacts)|
    {
      hide AddAll, ContactKeys, ScopeFor, Add, Coherent;
      ghost var ins := Contacts(PlacedContacts(t, rows, ofOffering, repo.offerings));
      NoneAdded(repo.contacts, ins, ContactKeys());
      count := 0;
      for i := 0 to |rows|
        invariant Coherent()
        invariant repo.contacts == AddAll(old(repo.contacts), ins[..i], ContactKeys())
        invariant count == |repo.contacts| - |old(repo.contacts)|
      {
        AddNext(old(repo.contacts), ins, ContactKeys(), i);
        var s := ResolveScope(t, rows[i].place, ofOffering);
        ghost var before := repo.contacts;
        var added := MaybeAddContact(ContactIn(s, rows[i].name, rows[i].kind, rows[i].email, rows[i].phone));
        AddGrows(before, ins[i], ContactKeys());
        if added {
          count := count + 1;
        }
      }
      assert ins[..|rows|] == ins;
    }

    method ApplyOwners(t: Targets, rows: seq<OwnerRow>, ofOffering: bool) returns (count: nat)
      requires Coherent()
      modifies this`ownerKeys, this`offeringVendors, repo`owners
      ensures Coherent()
      ensures repo.owners
        == AddAll(old(repo.owners), Owners(PlacedOwners(t, rows, ofOffering, repo.offerings)), OwnerKeys())
      ensures count == |repo.owners| - |old(repo.owners)|
    {
      hide AddAll, OwnerKeys, ScopeFor, Add, Coherent;
      ghost var ins := Owners(PlacedOwners(t, rows, ofOffering, repo.offerings));
      NoneAdded(repo.owners, ins, OwnerKeys());
      count := 0;
      for i := 0 to |rows|
        invariant Coherent()
        invariant repo.owners == AddAll(old(repo.owners), ins[..i], OwnerKeys())
        invariant count == |repo.owners| - |old(repo.owners)|
      {
        AddNext(old(repo.owners), ins, OwnerKeys(), i);
        var s := ResolveScope(t, rows[i].place, ofOffering);
        ghost var before := repo.owners;
        var added := MaybeAddOwner(OwnerIn(s, rows[i].principal, rows[i].role));
        AddGrows(before, ins[i], OwnerKeys());
        if added {
          count := count + 1;
        }
      }
      assert ins[..|rows|] == ins;
    }

    method ApplyContracts(t: Targets, rows: seq<ContractRow>) returns (count: nat)
      requires Coherent()
      modifies this`contractKeys, this`offeringVendors, repo`contracts
      ensures Coherent()
      ensures repo.contracts
        == AddAll(old(repo.contracts), Contracts(PlacedContracts(t, rows, repo.offerings)), ContractKeys())
      ensures count == |repo.contracts| - |old(repo.contracts)|
    {
      hide AddAll, ContractKeys, VendorFor, OfferingFor, Add, Coherent;
      ghost var ins := Contracts(PlacedContracts(t, rows, repo.offerings));
      NoneAdded(repo.contracts, ins, ContractKeys());
      count := 0;
      for i := 0 to |rows|
        invariant Coherent()
        invariant repo.contracts == AddAll(old(repo.contracts), ins[..i], ContractKeys())
        invariant count == |repo.contracts| - |old(repo.contracts)|
      {
        AddNext(old(repo.contracts), ins, ContractKeys(), i);
        var offering := OfferingFor(t, rows[i].place);
        var vendor := ResolveVendor(t, rows[i].place, offering);
        if rows[i].number != "" {
          ghost var before := repo.contracts;
          var added := MaybeCreateContract(ContractIn(vendor, offering, rows[i].number, rows[i].status,
                                                      rows[i].startDate, rows[i].endDate, rows[i].annualValue));
          AddGrows(before, ins[i], ContractKeys());
          if added {
            count := count + 1;
          }
        }
      }
      assert ins[..|rows|] == ins;
    }

    /** The five loops of `apply_stage_area_rows_for_row`; each count is the rows its area wrote. */
    method ApplyAreaRows(t: Targets, staged: StagedRows) returns (counts: Counts)
      requires Coherent()
      modifies this`contactKeys, this`ownerKeys, this`contractKeys, this`offeringVendors
      modifies repo`contacts, repo`owners, repo`contracts
      ensures Coherent()
      ensures repo.Rows() == ApplyRows(old(repo.Rows()), Placed(t, staged, repo.offerings))
      ensures counts == CountsOf(old(repo.Rows()), Placed(t, staged, repo.offerings))
    {
      hide Gather, AddAll, Contacts, Owners, Contracts, ContactKeys, OwnerKeys, ContractKeys;
      hide PlacedContacts, PlacedOwners, PlacedContracts;
      var vendorOwner := ApplyOwners(t, staged.vendorOwners, false);
      var vendorContact := ApplyContacts(t, staged.vendorContacts, false);
      var offeringOwner := ApplyOwners(t, staged.offeringOwners, true);
      var offeringContact := ApplyContacts(t, staged.offeringContacts, true);
      var contract := ApplyContracts(t, staged.contracts);
      ghost var rows := Placed(t, staged, repo.offerings);
      AreaSplit(rows);
      AddAllSplit(old(repo.owners), Owners(rows.vendorOwners), Owners(rows.offeringOwners), OwnerKeys());
      AddAllSplit(old(repo.contacts), Contacts(rows.vendorContacts), Contacts(rows.offeringContacts), ContactKeys());
      counts := Counts(vendorOwner, vendorContact, offeringOwner, offeringContact, contract);
    }
  }

  /** How many rows each area adds, in the order the areas are applied. */
  function CountsOf(store: Store, rows: AreaRows): Counts {
    var owners := AddAll(store.owners, Owners(rows.vendorOwners), OwnerKeys());
    var contacts := AddAll(store.contacts, Contacts(rows.vendorContacts), ContactKeys());
    var after := ApplyRows(store, rows);
    Counts(Max0(|owners| - |store.owners|), Max0(|contacts| - |store.contacts|),
           Max0(|after.owners| - |owners|), Max0(|after.contacts| - |contacts|),
           Max0(|after.contracts| - |store.contracts|))
  }

  lemma NoneAdded<T>(rows: seq<T>, ins: seq<Option<Wanted<T>>>, f: Keying<T>)
    ensures AddAll(rows, ins[..0], f) == rows
  {
  }

  lemma AddGrows<T>(rows: seq<T>, w: Option<Wanted<T>>, f: Keying<T>)
    ensures w.Some? ==> var after := Add(rows, w.value, f); after == rows || |after| == |rows| + 1
  {
  }

  lemma AreaSplit(rows: AreaRows)
    ensures Owners(rows.vendorOwners + rows.offeringOwners) == Owners(rows.vendorOwners) + Owners(rows.offeringOwners)
    ensures Contacts(rows.vendorContacts + rows.offeringContacts)
      == Contacts(rows.vendorContacts) + Contacts(rows.offeringContacts)
  {
  }

  lemma AddNext<T>(rows: seq<T>, ins: seq<Option<Wanted<T>>>, f: Keying<T>, i: nat)
    requires i < |ins|
    ensures AddAll(rows, ins[..i + 1], f)
      == var before := AddAll(rows, ins[..i], f);
         if ins[i].None? then before else Add(before, ins[i].value, f)
  {
    assert ins[..i + 1] == ins[..i] + [ins[i]];
    AddAllSplit(rows, ins[..i], [ins[i]], f);
  }
}
