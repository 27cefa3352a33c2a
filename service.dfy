/**
 * `ContactService`: the same consolidation behind its own guard, and
 * `formatContactIdentity`, which moves the primary's email and phone to the
 * front only when a member has them.
 */
module ContactService {
  import opened Contacts
  import opened Seqs
  import opened Resolution
  import opened Presenters
  import opened ContactStore

  /** The identity `formatContactIdentity` returns for `primary` and `members`. */
  function IdentityFor(primary: Contact, members: seq<Contact>): Identity
  {
    Identity(
      primary.id,
      MovedFirst(EmailsOf(members), primary.email),
      MovedFirst(PhonesOf(members), primary.phone),
      SecondaryIds(primary.id, members))
  }

  /**
   * The identity lists the primary's id; the members' distinct emails, as
   * many as there are, the primary's first when a member has it and the
   * rest in the order first seen; the same for phone numbers; and the ids of
   * the secondary members other than the primary.
   */
  lemma IdentitySpec(primary: Contact, members: seq<Contact>)
    ensures var r := IdentityFor(primary, members);
      var es, ps := EmailsOf(members), PhonesOf(members);
      && r.primaryContactId == primary.id
      && NoDuplicates(r.emails) && |r.emails| == DistinctCount(es)
      && (forall e :: e in r.emails <==> exists c :: c in members && Given(c.email) && c.email.value == e)
      && (Given(primary.email) && primary.email.value in es ==>
            r.emails[0] == primary.email.value && FirstSeenOrder(r.emails[1..], es))
      && (!(Given(primary.email) && primary.email.value in es) ==> FirstSeenOrder(r.emails, es))
      && NoDuplicates(r.phoneNumbers) && |r.phoneNumbers| == DistinctCount(ps)
      && (forall p :: p in r.phoneNumbers <==> exists c :: c in members && Given(c.phone) && c.phone.value == p)
      && (Given(primary.phone) && primary.phone.value in ps ==>
            r.phoneNumbers[0] == primary.phone.value && FirstSeenOrder(r.phoneNumbers[1..], ps))
      && (!(Given(primary.phone) && primary.phone.value in ps) ==> FirstSeenOrder(r.phoneNumbers, ps))
      && (forall x :: x in r.secondaryContactIds <==>
            exists c :: c in members && c.id == x && c.id != primary.id && c.precedence == Secondary)
  {
    MovedFirstListing(EmailsOf(members), primary.email);
    MovedFirstListing(PhonesOf(members), primary.phone);
    SecondaryIdsSpec(primary.id, members, []);
  }

  /** `formatContactIdentity(primaryContact, allContacts)`. */
  method FormatContactIdentity(primary: Contact, members: seq<Contact>) returns (r: Identity)
    ensures r == IdentityFor(primary, members)
  {
    var secondaryContactIds := SecondaryIds(primary.id, members);
    var allEmails := EmailsOf(members);
    var allPhones := PhonesOf(members);
    var emails := Distinct(allEmails);
    var phoneNumbers := Distinct(allPhones);
    if Given(primary.email) {
      emails := MoveToFront(emails, primary.email.value);
    }
    if Given(primary.phone) {
      phoneNumbers := MoveToFront(phoneNumbers, primary.phone.value);
    }
    r := Identity(primary.id, emails, phoneNumbers, secondaryContactIds);
  }

  /**
   * `getContactIdentity`: neither identifier is a 400 error and leaves the
   * table alone; otherwise the contacts are consolidated and presented.
   */
  method GetContactIdentity(store: Store, email: Field, phone: Field) returns (r: Result<Identity>)
    requires store.Valid()
    modifies store
    ensures store.Valid()
    ensures !Given(email) && !Given(phone) ==>
      r == Err(ValidationError) && Status(r.error) == 400 && store.rows == old(store.rows) && store.nextId == old(store.nextId) && store.clock == old(store.clock)
    ensures Given(email) || Given(phone) ==>
      var out := Resolve(old(store.rows), old(store.nextId), old(store.clock), email, phone);
      && r == Ok(IdentityFor(out.primary, out.members))
      && store.rows == out.rows
      && (old(store.nextId) in store.rows ==> store.nextId == old(store.nextId) + 1 && store.clock == old(store.clock) + 1)
      && (old(store.nextId) !in store.rows ==> store.nextId == old(store.nextId) && store.clock == old(store.clock))
  {
    if !Given(email) && !Given(phone) {
      return Err(ValidationError);
    }
    var primary, members := store.Consolidate(email, phone);
    var identity := FormatContactIdentity(primary, members);
    r := Ok(identity);
  }
}
