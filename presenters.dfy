/**
 * What both presenters share: the identity they return, the values they
 * collect from the members, and the two ways they bring the primary's value
 * to the front.
 */
module Presenters {
  import opened Contacts
  import opened Seqs

  /** `{primaryContactId, emails, phoneNumbers, secondaryContactIds}`. */
  datatype Identity = Identity(
    primaryContactId: nat,
    emails: seq<string>,
    phoneNumbers: seq<string>,
    secondaryContactIds: seq<nat>)

  /** `allContacts.filter(c => c.email).map(c => c.email)`. */
  function EmailsOf(members: seq<Contact>): (es: seq<string>)
    ensures forall e :: e in es <==> exists c :: c in members && Given(c.email) && c.email.value == e
    ensures forall e :: e in es ==> e != ""
  {
    if |members| == 0 then []
    else
      var rest := EmailsOf(members[1..]);
      assert forall c :: c in members <==> c == members[0] || c in members[1..];
      (if Given(members[0].email) then [members[0].email.value] else []) + rest
  }

  /** `allContacts.filter(c => c.phone_number).map(c => c.phone_number)`. */
  function PhonesOf(members: seq<Contact>): (ps: seq<string>)
    ensures forall p :: p in ps <==> exists c :: c in members && Given(c.phone) && c.phone.value == p
    ensures forall p :: p in ps ==> p != ""
  {
    if |members| == 0 then []
    else
      var rest := PhonesOf(members[1..]);
      assert forall c :: c in members <==> c == members[0] || c in members[1..];
      (if Given(members[0].phone) then [members[0].phone.value] else []) + rest
  }

  /** The ids of the members that are secondaries other than the primary, in member order. */
  function SecondaryIds(primaryId: nat, members: seq<Contact>): (ids: seq<nat>)
    ensures |ids| <= |members|
  {
    if |members| == 0 then []
    else
      var c := members[0];
      (if c.id != primaryId && c.precedence == Secondary then [c.id] else []) + SecondaryIds(primaryId, members[1..])
  }

  /**
   * `secondaryContactIds` lists exactly the ids of the secondary members
   * other than the primary, and listing two member lists one after the other
   * lists their ids one after the other: input order is kept.
   */
  lemma {:induction false} SecondaryIdsSpec(primaryId: nat, members: seq<Contact>, more: seq<Contact>)
    ensures forall x :: x in SecondaryIds(primaryId, members) <==>
      exists c :: c in members && c.id == x && c.id != primaryId && c.precedence == Secondary
    ensures SecondaryIds(primaryId, members + more) == SecondaryIds(primaryId, members) + SecondaryIds(primaryId, more)
  {
    if |members| > 0 {
      SecondaryIdsSpec(primaryId, members[1..], more);
      assert (members + more)[1..] == members[1..] + more;
      assert forall c :: c in members <==> c == members[0] || c in members[1..];
    } else {
      assert members + more == more;
    }
  }

  /**
   * The primary's value first, then the other distinct values: what the
   * controller produces, inserting the value when no member has it.
   */
  function PrimaryFirst(values: seq<string>, first: Field): seq<string>
  {
    var d := Distinct(values);
    if Given(first) then [first.value] + Without(d, first.value) else d
  }

  /**
   * The same, except that a value no member has is not inserted: what the
   * service produces.
   */
  function MovedFirst(values: seq<string>, first: Field): seq<string>
  {
    var d := Distinct(values);
    if Given(first) && first.value in d then [first.value] + Without(d, first.value) else d
  }

  /**
   * The controller's listing: no duplicates; exactly the members' values
   * plus the primary's; the primary's value first; the others in the order
   * they are first seen among the members.
   */
  lemma PrimaryFirstListing(values: seq<string>, first: Field)
    ensures var r := PrimaryFirst(values, first);
      && NoDuplicates(r)
      && (forall v :: v in r <==> v in values || (Given(first) && v == first.value))
      && (Given(first) ==> |r| > 0 && r[0] == first.value && FirstSeenOrder(r[1..], values))
      && (!Given(first) ==> FirstSeenOrder(r, values))
      && |r| == DistinctCount(values) + (if Given(first) && first.value !in values then 1 else 0)
  {
    var d := Distinct(values);
    DistinctFirstSeen(values);
    DistinctLength(values);
    if Given(first) {
      var v := first.value;
      WithoutNoDuplicates(d, v);
      WithoutLength(d, v);
      WithoutKeepsOrder(d, v, values);
      var r := PrimaryFirst(values, first);
      assert r[1..] == Without(d, v);
    }
  }

  /**
   * The service's listing: no duplicates; exactly the members' values, so
   * as many as there are distinct ones; the primary's value first when a
   * member has it; the others in the order they are first seen.
   */
  lemma MovedFirstListing(values: seq<string>, first: Field)
    ensures var r := MovedFirst(values, first);
      && NoDuplicates(r)
      && (forall v :: v in r <==> v in values)
      && |r| == DistinctCount(values)
      && (Given(first) && first.value in values ==> r[0] == first.value && FirstSeenOrder(r[1..], values))
      && (!(Given(first) && first.value in values) ==> FirstSeenOrder(r, values))
  {
    var d := Distinct(values);
    DistinctFirstSeen(values);
    DistinctLength(values);
    if Given(first) && first.value in values {
      var v := first.value;
      WithoutNoDuplicates(d, v);
      WithoutLength(d, v);
      WithoutKeepsOrder(d, v, values);
      var r := MovedFirst(values, first);
      assert r[1..] == Without(d, v);
    }
  }

  /**
   * `indexOf`, `splice(index, 1)` and `unshift`: the value at `index > 0` is
   * moved to the front.
   */
  method MoveToFront(list: seq<string>, v: string) returns (r: seq<string>)
    requires NoDuplicates(list)
    ensures v in list ==> r == [v] + Without(list, v)
    ensures v !in list ==> r == list
  {
    r := list;
    var index := IndexOf(r, v);
    if index > 0 {
      RemoveAtIsWithout(r, index);
      r := r[..index] + r[index + 1..];
      r := [v] + r;
    } else if index == 0 {
      RemoveAtIsWithout(r, 0);
      assert r == [v] + r[1..];
    }
  }
}
