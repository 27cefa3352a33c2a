/**
 * What `consolidateContacts` computes, as functions of the table it starts
 * from: the decision it takes on the linked rows, and the table, final
 * primary and member list it commits.
 */
module Resolution {
  import opened Contacts
  import opened Queries
  import opened Networks

  /** The three ways the resolver can settle the primary once some row matched. */
  datatype Branch =
    | Merge    // more than one group key resolves to a linked row
    | Single   // exactly one does
    | Orphans  // none does: the oldest linked row is promoted

  /**
   * The decision taken before the write phase: nothing matched, or the final
   * primary, the member list before re-linking, and whether a new secondary
   * is added.
   */
  datatype Decision =
    | NoMatch
    | Resolved(branch: Branch, primary: Contact, base: seq<Contact>, create: bool)

  /** The committed table, the final primary and `allContacts`. */
  datatype Outcome = Outcome(rows: map<nat, Contact>, primary: Contact, members: seq<Contact>)

  function Decide(rows: map<nat, Contact>, bound: nat, email: Field, phone: Field): (d: Decision)
    requires Table(rows, bound)
    ensures d.NoMatch? <==> FindByEmailOrPhone(rows, bound, email, phone) == []
  {
    var found := FindByEmailOrPhone(rows, bound, email, phone);
    if |found| == 0 then NoMatch
    else
      var linked := FindLinkedContacts(rows, bound, Ids(found));
      var keys := NetworkKeys(linked);
      var primaries := ResolvedPrimaries(linked, keys);
      if |primaries| > 1 then
        Resolved(Merge, Oldest(primaries), Flatten(linked, keys), false)
      else if |primaries| == 1 then
        // `Array.from(networks.values())[0]`: the first group, whichever key it has
        var base := Group(linked, keys[0]);
        Resolved(Single, primaries[0], base, ShouldCreate(base, email, phone))
      else
        LinkedNotEmpty(rows, bound, email, phone);
        // the rows come back in created_at order, so sorting them in place
        // changes nothing and the oldest is the first
        var oldest := linked[0];
        var primary :=
          if oldest.precedence != Primary then oldest.(precedence := Primary, linkedId := None) else oldest;
        var base := linked[0 := primary];
        Resolved(Orphans, primary, base, ShouldCreate(base, email, phone))
  }

  /**
   * The resolver creates a fresh primary exactly when no live row of the
   * table has the given email or the given phone number.
   */
  lemma NoMatchExactly(rows: map<nat, Contact>, bound: nat, email: Field, phone: Field)
    requires Table(rows, bound)
    ensures Decide(rows, bound, email, phone).NoMatch? <==>
      forall k :: k in rows ==> !Selects(EmailOrPhone(email, phone), rows[k])
  {
    var found := FindByEmailOrPhone(rows, bound, email, phone);
    FoundContacts(rows, bound, email, phone);
    if found != [] {
      assert found[0] in found;
      assert found[0].id in rows;
    } else {
      forall k | k in rows
        ensures !Selects(EmailOrPhone(email, phone), rows[k])
      {
        assert rows[k] !in found;
      }
    }
  }

  /** Some row matched, so network expansion returns at least that row. */
  lemma LinkedNotEmpty(rows: map<nat, Contact>, bound: nat, email: Field, phone: Field)
    requires Table(rows, bound)
    requires FindByEmailOrPhone(rows, bound, email, phone) != []
    ensures var found := FindByEmailOrPhone(rows, bound, email, phone);
      FindLinkedContacts(rows, bound, Ids(found)) != []
  {
    var found := FindByEmailOrPhone(rows, bound, email, phone);
    SeedsAreLinked(rows, bound, email, phone);
    assert found[0] in FindLinkedContacts(rows, bound, Ids(found));
  }

  /** Proof helper: `Decide` unfolded for the case of one resolved primary. */
  lemma DecideSingle(rows: map<nat, Contact>, bound: nat, email: Field, phone: Field)
    requires Table(rows, bound)
    requires var found := FindByEmailOrPhone(rows, bound, email, phone);
      var linked := FindLinkedContacts(rows, bound, Ids(found));
      |found| > 0 && |ResolvedPrimaries(linked, NetworkKeys(linked))| == 1
    ensures var found := FindByEmailOrPhone(rows, bound, email, phone);
      var linked := FindLinkedContacts(rows, bound, Ids(found));
      var keys := NetworkKeys(linked);
      var base := Group(linked, keys[0]);
      Decide(rows, bound, email, phone) == Resolved(Single, ResolvedPrimaries(linked, keys)[0], base, ShouldCreate(base, email, phone))
  {
  }

  /** Proof helper: `Decide` unfolded for the case of several resolved primaries. */
  lemma DecideMerge(rows: map<nat, Contact>, bound: nat, email: Field, phone: Field)
    requires Table(rows, bound)
    requires var found := FindByEmailOrPhone(rows, bound, email, phone);
      var linked := FindLinkedContacts(rows, bound, Ids(found));
      |ResolvedPrimaries(linked, NetworkKeys(linked))| > 1
    ensures var found := FindByEmailOrPhone(rows, bound, email, phone);
      var linked := FindLinkedContacts(rows, bound, Ids(found));
      var keys := NetworkKeys(linked);
      Decide(rows, bound, email, phone) == Resolved(Merge, Oldest(ResolvedPrimaries(linked, keys)), Flatten(linked, keys), false)
  {
  }

  /** Proof helper: `Decide` unfolded for the case of no resolved primary. */
  lemma DecideOrphans(rows: map<nat, Contact>, bound: nat, email: Field, phone: Field)
    requires Table(rows, bound)
    requires var found := FindByEmailOrPhone(rows, bound, email, phone);
      var linked := FindLinkedContacts(rows, bound, Ids(found));
      |found| > 0 && |ResolvedPrimaries(linked, NetworkKeys(linked))| == 0
    ensures var found := FindByEmailOrPhone(rows, bound, email, phone);
      var linked := FindLinkedContacts(rows, bound, Ids(found));
      && |linked| > 0
      && var oldest := linked[0];
         var primary := if oldest.precedence != Primary then oldest.(precedence := Primary, linkedId := None) else oldest;
         var base := linked[0 := primary];
         Decide(rows, bound, email, phone) == Resolved(Orphans, primary, base, ShouldCreate(base, email, phone))
  {
    LinkedNotEmpty(rows, bound, email, phone);
  }

  /**
   * Everything the decision names is a stored row: the final primary (as read,
   * unless promoted) and every member of the base list (as read, unless it is
   * the promoted primary).
   */
  lemma DecidedRows(rows: map<nat, Contact>, bound: nat, email: Field, phone: Field)
    requires Table(rows, bound)
    ensures var d := Decide(rows, bound, email, phone);
      d.Resolved? ==>
        && d.primary.id in rows
        && (d.branch != Orphans ==> rows[d.primary.id] == d.primary)
        && (d.branch == Orphans ==> rows[d.primary.id].(precedence := d.primary.precedence, linkedId := d.primary.linkedId) == d.primary)
        && forall c :: c in d.base && c.id != d.primary.id ==> RowOf(rows, c)
  {
    var found := FindByEmailOrPhone(rows, bound, email, phone);
    if |found| > 0 {
      var linked := FindLinkedContacts(rows, bound, Ids(found));
      var keys := NetworkKeys(linked);
      var primaries := ResolvedPrimaries(linked, keys);
      LinkedRows(rows, bound, Ids(found));
      if |primaries| > 1 {
        DecideMerge(rows, bound, email, phone);
        assert Oldest(primaries) in linked;
      } else if |primaries| == 1 {
        DecideSingle(rows, bound, email, phone);
        assert primaries[0] in primaries;
      } else {
        DecideOrphans(rows, bound, email, phone);
        var d := Decide(rows, bound, email, phone);
        assert linked[0] in linked;
        forall c | c in d.base && c.id != d.primary.id
          ensures RowOf(rows, c)
        {
          var i :| 0 <= i < |d.base| && d.base[i] == c;
          assert c == linked[i];
        }
      }
    }
  }

  /** The row `createContact` inserts: empty identifiers are stored as null. */
  function NewContact(id: nat, at: nat, email: Field, phone: Field, linkedId: Option<nat>, precedence: Precedence): Contact
  {
    Contact(id, Normalize(phone), Normalize(email), linkedId, precedence, at, None)
  }

  /** Every member except the one with id `f` made a secondary of `f`. */
  function Relinked(s: seq<Contact>, f: nat): seq<Contact>
  {
    seq(|s|, i requires 0 <= i < |s| => if s[i].id == f then s[i] else Link(s[i], f))
  }

  /** The stored rows with ids in `ids`, except `f`, made secondaries of `f`. */
  function RelinkRows(rows: map<nat, Contact>, f: nat, ids: set<nat>): map<nat, Contact>
  {
    map k | k in rows :: if k != f && k in ids then Link(rows[k], f) else rows[k]
  }

  /**
   * The table once the primary has its final precedence and the new
   * secondary, if any, is inserted: the state the final re-linking starts
   * from. A promoted primary keeps its stored `linked_id`.
   */
  function Staged(rows: map<nat, Contact>, bound: nat, clock: nat, email: Field, phone: Field,
                  primary: Contact, create: bool): (staged: map<nat, Contact>)
    requires primary.id in rows
    ensures staged.Keys == if create then rows.Keys + {bound} else rows.Keys
  {
    var n := NewContact(bound, clock, email, phone, Some(primary.id), Secondary);
    var stored := if create then rows[bound := n] else rows;
    stored[primary.id := stored[primary.id].(precedence := primary.precedence)]
  }

  /** When the primary's stored precedence is already final, staging only inserts the new row. */
  lemma StagedUnchanged(rows: map<nat, Contact>, bound: nat, clock: nat, email: Field, phone: Field,
                        primary: Contact, create: bool)
    requires RowOf(rows, primary) && bound !in rows
    ensures Staged(rows, bound, clock, email, phone, primary, create)
         == if create then rows[bound := NewContact(bound, clock, email, phone, Some(primary.id), Secondary)] else rows
  {
  }

  /** Promoting the primary and then inserting the new row gives the staged table. */
  lemma AddSecondary(rows: map<nat, Contact>, bound: nat, clock: nat, email: Field, phone: Field,
                     primary: Contact, create: bool)
    requires primary.id in rows && bound !in rows
    ensures var promoted := rows[primary.id := rows[primary.id].(precedence := primary.precedence)];
      Staged(rows, bound, clock, email, phone, primary, create)
        == if create then promoted[bound := NewContact(bound, clock, email, phone, Some(primary.id), Secondary)] else promoted
  {
  }

  /**
   * The outcome of `consolidateContacts(email, phone)` on `rows`, with `bound`
   * the next id and `clock` the next `created_at`.
   */
  function Resolve(rows: map<nat, Contact>, bound: nat, clock: nat, email: Field, phone: Field): (out: Outcome)
    requires Table(rows, bound)
    ensures rows.Keys <= out.rows.Keys <= rows.Keys + {bound}
    ensures out.primary.id in out.rows
  {
    match Decide(rows, bound, email, phone)
    case NoMatch =>
      var c := NewContact(bound, clock, email, phone, None, Primary);
      Outcome(rows[bound := c], c, [c])
    case Resolved(_, primary, base, create) =>
      DecidedRows(rows, bound, email, phone);
      var n := NewContact(bound, clock, email, phone, Some(primary.id), Secondary);
      var full := if create then base + [n] else base;
      var staged := Staged(rows, bound, clock, email, phone, primary, create);
      Outcome(RelinkRows(staged, primary.id, IdSet(full)), primary, Relinked(full, primary.id))
  }
}
