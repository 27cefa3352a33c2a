/**
 * The `identify` endpoint: its guard, and `formatIdentifyResponse`, which
 * inserts the primary's email and phone at the front when no member has
 * them.
 */
module ContactController {
  import opened Contacts
  import opened Seqs
  import opened Resolution
  import opened Presenters
  import opened ContactStore

  /** `{ contact: … }`. */
  datatype IdentifyResponse = IdentifyResponse(contact: Identity)

  /** The identity `formatIdentifyResponse` returns for `primary` and `members`. */
  function ResponseFor(primary: Contact, members: seq<Contact>): Identity
  {
    Identity(
      primary.id,
      PrimaryFirst(EmailsOf(members), primary.email),
      PrimaryFirst(PhonesOf(members), primary.phone),
      SecondaryIds(primary.id, members))
  }

  /**
   * The response lists the primary's id; every member's email and the
   * primary's, once each, the primary's first and the rest in the order
   * first seen; the same for phone numbers; and the ids of the secondary
   * members other than the primary.
   */
  lemma ResponseSpec(primary: Contact, members: seq<Contact>)
    ensures var r := ResponseFor(primary, members);
      && r.primaryContactId == primary.id
      && NoDuplicates(r.emails)
      && (forall e :: e in r.emails <==>
            (exists c :: c in members && Given(c.email) && c.email.value == e) || (Given(primary.email) && e == primary.email.value))
      && (Given(primary.email) ==> r.emails[0] == primary.email.value && FirstSeenOrder(r.emails[1..], EmailsOf(members)))
      && NoDuplicates(r.phoneNumbers)
      && (forall p :: p in r.phoneNumbers <==>
            (exists c :: c in members && Given(c.phone) && c.phone.value == p) || (Given(primary.phone) && p == primary.phone.value))
      && (Given(primary.phone) ==> r.phoneNumbers[0] == primary.phone.value && FirstSeenOrder(r.phoneNumbers[1..], PhonesOf(members)))
      && (forall x :: x in r.secondaryContactIds <==>
            exists c :: c in members && c.id == x && c.id != primary.id && c.precedence == Secondary)
  {
    PrimaryFirstListing(EmailsOf(members), primary.email);
    PrimaryFirstListing(PhonesOf(members), primary.phone);
    SecondaryIdsSpec(primary.id, members, []);
  }

  /** `formatIdentifyResponse(primaryContact, allContacts)`. */
  method FormatIdentifyResponse(primary: Contact, members: seq<Contact>) returns (r: IdentifyResponse)
    ensures r.contact == ResponseFor(primary, members)
  {
    var secondaryContactIds := SecondaryIds(primary.id, members);
    var emails := Distinct(EmailsOf(members));
    var phoneNumbers := Distinct(PhonesOf(members));
    emails := PutFirst(emails, primary.email);
    phoneNumbers := PutFirst(phoneNumbers, primary.phone);
    r := IdentifyResponse(Identity(primary.id, emails, phoneNumbers, secondaryContactIds));
  }

  /** `ContactController.js` lines 64-73 (and 75-84): `unshift` a value no member has, otherwise move it to the front. */
  method PutFirst(list: seq<string>, first: Field) returns (r: seq<string>)
    requires NoDuplicates(list)
    ensures Given(first) ==> r == [first.value] + Without(list, first.value)
    ensures !Given(first) ==> r == list
  {
    r := list;
    if Given(first) && first.value !in r {
      WithoutAbsent(r, first.value);
      r := [first.value] + r;
    } else if Given(first) {
      r := MoveToFront(r, first.value);
    }
  }

  /**
   * `identify`: a request with neither identifier is rejected with status
   * 400 before the table is touched; otherwise the contacts are consolidated
   * and presented.
   */
  method Identify(store: Store, email: Field, phone: Field) returns (r: Result<IdentifyResponse>)
    requires store.Valid()
    modifies store
    ensures store.Valid()
    ensures !Given(email) && !Given(phone) ==>
      r == Err(ValidationError) && Status(r.error) == 400 && store.rows == old(store.rows) && store.nextId == old(store.nextId) && store.clock == old(store.clock)
    ensures Given(email) || Given(phone) ==>
      var out := Resolve(old(store.rows), old(store.nextId), old(store.clock), email, phone);
      && r == Ok(IdentifyResponse(ResponseFor(out.primary, out.members)))
      && store.rows == out.rows
      && (old(store.nextId) in store.rows ==> store.nextId == old(store.nextId) + 1 && store.clock == old(store.clock) + 1)
      && (old(store.nextId) !in store.rows ==> store.nextId == old(store.nextId) && store.clock == old(store.clock))
  {
    if !Given(email) && !Given(phone) {
      return Err(ValidationError);
    }
    var primary, members := store.Consolidate(email, phone);
    var response := FormatIdentifyResponse(primary, members);
    r := Ok(response);
  }
}
