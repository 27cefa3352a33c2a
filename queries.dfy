/**
 * The two read queries of the contact model (`findByEmailOrPhone` and
 * `findLinkedContacts`) as functions over the table.
 */
module Queries {
  import opened Contacts

  /**
   * The table as the resolver may assume it: every row is stored under its
   * own id, ids are positive (the SERIAL starts at 1) and below the next
   * SERIAL value, a `linked_id` names a stored row (its foreign key), and
   * `created_at` grows with `id` (both are assigned at insertion), so
   * `ORDER BY created_at` is ascending id. With positive ids, a `linked_id`
   * is truthy exactly when it is not null.
   */
  ghost predicate Table(rows: map<nat, Contact>, bound: nat)
  {
    && (forall k :: k in rows ==> rows[k].id == k && 0 < k < bound)
    && (forall k :: k in rows && rows[k].linkedId.Some? ==> rows[k].linkedId.value in rows)
    && (forall j, k :: j in rows && k in rows && j < k ==> rows[j].createdAt < rows[k].createdAt)
  }

  /** Strictly ascending in `id` and in `created_at`, hence without duplicates. */
  ghost predicate Ascending(s: seq<Contact>)
  {
    forall i, j :: 0 <= i < j < |s| ==> s[i].id < s[j].id && s[i].createdAt < s[j].createdAt
  }

  /** A row of the table, as a query returns it. */
  ghost predicate RowOf(rows: map<nat, Contact>, c: Contact)
  {
    c.id in rows && rows[c.id] == c
  }

  /** The `WHERE` clause of either query. */
  datatype Filter =
    | EmailOrPhone(email: Field, phone: Field)
    | InNetworks(primaryIds: set<nat>)

  predicate Selects(f: Filter, c: Contact)
  {
    && Live(c)
    && match f
       case EmailOrPhone(email, phone) =>
         (Given(email) && c.email == email) || (Given(phone) && c.phone == phone)
       case InNetworks(ps) =>
         c.id in ps || (c.linkedId.Some? && c.linkedId.value in ps)
  }

  /** The selected rows with id below `n`, in ascending id order. */
  function Scan(rows: map<nat, Contact>, n: nat, f: Filter): seq<Contact>
  {
    if n == 0 then []
    else Scan(rows, n - 1, f) + (if n - 1 in rows && Selects(f, rows[n - 1]) then [rows[n - 1]] else [])
  }

  /** `findByEmailOrPhone`: no condition at all means no query and no rows. */
  function FindByEmailOrPhone(rows: map<nat, Contact>, bound: nat, email: Field, phone: Field): (found: seq<Contact>)
    ensures !Given(email) && !Given(phone) ==> found == []
  {
    if !Given(email) && !Given(phone) then []
    else Scan(rows, bound, EmailOrPhone(email, phone))
  }

  /** The `contact_network` CTE: the effective primary id of every live seed row. */
  function NetworkIds(rows: map<nat, Contact>, seedIds: seq<nat>): set<nat>
  {
    set i | i in seedIds && i in rows && Live(rows[i]) :: EffectiveKey(rows[i])
  }

  /** `findLinkedContacts`: every live row that is, or links to, one of those primaries. */
  function FindLinkedContacts(rows: map<nat, Contact>, bound: nat, seedIds: seq<nat>): (linked: seq<Contact>)
    ensures |seedIds| == 0 ==> linked == []
  {
    if |seedIds| == 0 then []
    else Scan(rows, bound, InNetworks(NetworkIds(rows, seedIds)))
  }

  lemma {:induction false} ScanMembers(rows: map<nat, Contact>, n: nat, f: Filter, c: Contact)
    requires forall k :: k in rows ==> rows[k].id == k
    ensures c in Scan(rows, n, f) <==> c.id < n && RowOf(rows, c) && Selects(f, c)
  {
    if n > 0 {
      ScanMembers(rows, n - 1, f, c);
    }
  }

  lemma {:induction false} ScanIdsAscending(rows: map<nat, Contact>, n: nat, f: Filter)
    requires forall k :: k in rows ==> rows[k].id == k
    ensures forall c :: c in Scan(rows, n, f) ==> c.id < n
    ensures forall i, j :: 0 <= i < j < |Scan(rows, n, f)| ==> Scan(rows, n, f)[i].id < Scan(rows, n, f)[j].id
  {
    if n > 0 {
      ScanIdsAscending(rows, n - 1, f);
    }
  }

  lemma ScanAscending(rows: map<nat, Contact>, n: nat, f: Filter)
    requires Table(rows, n)
    ensures Ascending(Scan(rows, n, f))
  {
    var s := Scan(rows, n, f);
    ScanIdsAscending(rows, n, f);
    forall i | 0 <= i < |s|
      ensures RowOf(rows, s[i])
    {
      ScanMembers(rows, n, f, s[i]);
    }
  }

  /**
   * `findByEmailOrPhone` returns exactly the live rows whose email is the
   * given email or whose phone is the given phone, oldest first.
   */
  lemma FoundContacts(rows: map<nat, Contact>, bound: nat, email: Field, phone: Field)
    requires Table(rows, bound)
    ensures var found := FindByEmailOrPhone(rows, bound, email, phone);
      && Ascending(found)
      && forall c :: c in found <==>
           RowOf(rows, c) && Live(c) && ((Given(email) && c.email == email) || (Given(phone) && c.phone == phone))
  {
    if Given(email) || Given(phone) {
      ScanAscending(rows, bound, EmailOrPhone(email, phone));
      forall c {
        ScanMembers(rows, bound, EmailOrPhone(email, phone), c);
      }
    }
  }

  /**
   * `findLinkedContacts` returns exactly the live rows whose id, or whose
   * `linked_id`, is the effective primary id of a live seed, oldest first.
   */
  lemma LinkedContacts(rows: map<nat, Contact>, bound: nat, seedIds: seq<nat>)
    requires Table(rows, bound)
    ensures var linked := FindLinkedContacts(rows, bound, seedIds);
      && Ascending(linked)
      && forall c :: c in linked <==>
           && |seedIds| > 0 && RowOf(rows, c) && Live(c)
           && (c.id in NetworkIds(rows, seedIds)
               || (c.linkedId.Some? && c.linkedId.value in NetworkIds(rows, seedIds)))
  {
    if |seedIds| > 0 {
      var f := InNetworks(NetworkIds(rows, seedIds));
      ScanAscending(rows, bound, f);
      forall c {
        ScanMembers(rows, bound, f, c);
      }
    }
  }

  /**
   * On a stored row the grouping loop's truthiness test and the query's null
   * test give the same key, and that key is a stored row: the row itself or
   * the one its `linked_id` names.
   */
  lemma StoredKey(rows: map<nat, Contact>, bound: nat, c: Contact)
    requires Table(rows, bound) && RowOf(rows, c)
    ensures GroupKey(c) == EffectiveKey(c)
    ensures EffectiveKey(c) in rows && 0 < EffectiveKey(c) < bound
    ensures c.precedence == Secondary && c.linkedId.Some? ==> EffectiveKey(c) == c.linkedId.value
  {
    if c.linkedId.Some? {
      assert c.linkedId.value in rows;
    }
  }

  /**
   * The `contact_network` ids are stored rows, and every live seed that is
   * stored contributes its key; unknown or deleted seeds contribute none.
   */
  lemma NetworkIdsStored(rows: map<nat, Contact>, bound: nat, seedIds: seq<nat>)
    requires Table(rows, bound)
    ensures forall x :: x in NetworkIds(rows, seedIds) ==> x in rows && 0 < x < bound
    ensures forall i :: i in seedIds && i in rows && Live(rows[i]) ==> EffectiveKey(rows[i]) in NetworkIds(rows, seedIds)
    ensures (forall i :: i in seedIds ==> i !in rows || !Live(rows[i])) ==> NetworkIds(rows, seedIds) == {}
  {
    forall x | x in NetworkIds(rows, seedIds)
      ensures x in rows && 0 < x < bound
    {
      var i :| i in seedIds && i in rows && Live(rows[i]) && EffectiveKey(rows[i]) == x;
      StoredKey(rows, bound, rows[i]);
    }
  }

  /** Every linked row is a row of the table. */
  lemma LinkedRows(rows: map<nat, Contact>, bound: nat, seedIds: seq<nat>)
    requires Table(rows, bound)
    ensures forall c :: c in FindLinkedContacts(rows, bound, seedIds) ==> RowOf(rows, c)
  {
    LinkedContacts(rows, bound, seedIds);
  }

  /** Network expansion never loses a seed: every row found by identifier is among the linked rows. */
  lemma SeedsAreLinked(rows: map<nat, Contact>, bound: nat, email: Field, phone: Field)
    requires Table(rows, bound)
    ensures var found := FindByEmailOrPhone(rows, bound, email, phone);
      forall s :: s in found ==> s in FindLinkedContacts(rows, bound, Ids(found))
  {
    var found := FindByEmailOrPhone(rows, bound, email, phone);
    FoundContacts(rows, bound, email, phone);
    LinkedContacts(rows, bound, Ids(found));
    forall s | s in found
      ensures s in FindLinkedContacts(rows, bound, Ids(found))
    {
      var i :| 0 <= i < |found| && found[i] == s;
      assert Ids(found)[i] == s.id;
      assert EffectiveKey(s) in NetworkIds(rows, Ids(found));
    }
  }
}
