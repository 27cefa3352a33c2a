/**
 * What `consolidateContacts` promises about the table it commits and the
 * network it returns, stated over `Resolve` (which `Store.Consolidate` is
 * proved to compute).
 */
module Consolidation {
  import opened Contacts
  import opened Queries
  import opened Networks
  import opened Resolution

  /** The rows matched by identifier, expanded to their networks. */
  function LinkedOf(rows: map<nat, Contact>, bound: nat, email: Field, phone: Field): seq<Contact>
  {
    FindLinkedContacts(rows, bound, Ids(FindByEmailOrPhone(rows, bound, email, phone)))
  }

  /** `primaryContacts`: the linked rows some group key resolves to. */
  function PrimariesOf(rows: map<nat, Contact>, bound: nat, email: Field, phone: Field): seq<Contact>
  {
    var linked := LinkedOf(rows, bound, email, phone);
    ResolvedPrimaries(linked, NetworkKeys(linked))
  }

  /** The member list before the final re-linking: the network plus the new secondary, if any. */
  function FullOf(rows: map<nat, Contact>, bound: nat, clock: nat, email: Field, phone: Field, d: Decision): seq<Contact>
    requires d.Resolved?
  {
    var n := NewContact(bound, clock, email, phone, Some(d.primary.id), Secondary);
    if d.create then d.base + [n] else d.base
  }

  /** Proof helper: `Resolve` unfolded for a resolved decision. */
  lemma ResolvedShape(rows: map<nat, Contact>, bound: nat, clock: nat, email: Field, phone: Field)
    requires Table(rows, bound)
    requires Decide(rows, bound, email, phone).Resolved?
    ensures var d := Decide(rows, bound, email, phone);
      var out := Resolve(rows, bound, clock, email, phone);
      var full := FullOf(rows, bound, clock, email, phone, d);
      && d.primary.id in rows
      && out.primary == d.primary
      && out.members == Relinked(full, d.primary.id)
      && out.rows == RelinkRows(Staged(rows, bound, clock, email, phone, d.primary, d.create), d.primary.id, IdSet(full))
  {
    DecidedRows(rows, bound, email, phone);
  }

  /** The staged table holds every member other than the primary as it was read, and the new row. */
  lemma StagedMembers(rows: map<nat, Contact>, bound: nat, clock: nat, email: Field, phone: Field,
                      primary: Contact, base: seq<Contact>, create: bool)
    requires primary.id in rows && bound !in rows
    requires forall c :: c in base && c.id != primary.id ==> RowOf(rows, c)
    ensures var f := primary.id;
      var n := NewContact(bound, clock, email, phone, Some(f), Secondary);
      var staged := Staged(rows, bound, clock, email, phone, primary, create);
      && staged[f] == rows[f].(precedence := primary.precedence)
      && forall c :: c in (if create then base + [n] else base) && c.id != f ==> RowOf(staged, c)
  {
  }

  /**
   * After consolidation every member other than the final primary is a
   * secondary linked to it, and the table holds exactly what is returned for
   * it; the final primary's row has the returned precedence.
   */
  lemma MembersLinkedToPrimary(rows: map<nat, Contact>, bound: nat, clock: nat, email: Field, phone: Field)
    requires Table(rows, bound)
    ensures var out := Resolve(rows, bound, clock, email, phone);
      var f := out.primary.id;
      && f in out.rows && out.rows[f].precedence == out.primary.precedence
      && forall m :: m in out.members && m.id != f ==> LinkedTo(m, f) && RowOf(out.rows, m)
  {
    var d := Decide(rows, bound, email, phone);
    if d.Resolved? {
      DecidedRows(rows, bound, email, phone);
      ResolvedShape(rows, bound, clock, email, phone);
      assert bound !in rows;
      RelinkedMembers(rows, bound, clock, email, phone, d.primary, d.base, d.create);
    }
  }

  /** Re-linking the staged table makes every member other than the primary its stored secondary. */
  lemma RelinkedMembers(rows: map<nat, Contact>, bound: nat, clock: nat, email: Field, phone: Field,
                        primary: Contact, base: seq<Contact>, create: bool)
    requires primary.id in rows && bound !in rows
    requires forall c :: c in base && c.id != primary.id ==> RowOf(rows, c)
    ensures var f := primary.id;
      var n := NewContact(bound, clock, email, phone, Some(f), Secondary);
      var full := if create then base + [n] else base;
      var out := RelinkRows(Staged(rows, bound, clock, email, phone, primary, create), f, IdSet(full));
      && f in out && out[f].precedence == primary.precedence
      && forall m :: m in Relinked(full, f) && m.id != f ==> LinkedTo(m, f) && RowOf(out, m)
  {
    var f := primary.id;
    var n := NewContact(bound, clock, email, phone, Some(f), Secondary);
    var full := if create then base + [n] else base;
    var staged := Staged(rows, bound, clock, email, phone, primary, create);
    StagedMembers(rows, bound, clock, email, phone, primary, base, create);
    var members := Relinked(full, f);
    forall m | m in members && m.id != f
      ensures LinkedTo(m, f) && RowOf(RelinkRows(staged, f, IdSet(full)), m)
    {
      var i :| 0 <= i < |members| && members[i] == m;
      assert full[i] in full;
      assert RowOf(staged, full[i]);
    }
  }

  /** `Relinked` keeps every member's position and id. */
  lemma RelinkedIds(s: seq<Contact>, f: nat)
    ensures |Relinked(s, f)| == |s|
    ensures forall i :: 0 <= i < |s| ==> Relinked(s, f)[i].id == s[i].id
    ensures IdSet(Relinked(s, f)) == IdSet(s)
  {
    var r := Relinked(s, f);
    forall x | x in IdSet(s) ensures x in IdSet(r) {
      var i :| 0 <= i < |s| && s[i].id == x;
      assert r[i] in r;
    }
    forall x | x in IdSet(r) ensures x in IdSet(s) {
      var i :| 0 <= i < |r| && r[i].id == x;
      assert s[i] in s;
    }
  }

  /**
   * One call inserts at most one row, with the next id: a new primary when
   * nothing matched (returned as primary and sole member), otherwise a new
   * secondary of the final primary appended to the members. No row is
   * deleted.
   */
  lemma AtMostOneRecordCreated(rows: map<nat, Contact>, bound: nat, clock: nat, email: Field, phone: Field)
    requires Table(rows, bound)
    ensures var out := Resolve(rows, bound, clock, email, phone);
      && bound !in rows
      && rows.Keys <= out.rows.Keys <= rows.Keys + {bound}
      && (FindByEmailOrPhone(rows, bound, email, phone) == [] ==>
            && out.primary == NewContact(bound, clock, email, phone, None, Primary)
            && out.members == [out.primary]
            && out.rows == rows[bound := out.primary])
      && (FindByEmailOrPhone(rows, bound, email, phone) != [] && bound in out.rows ==>
            && out.rows[bound] == NewContact(bound, clock, email, phone, Some(out.primary.id), Secondary)
            && |out.members| > 0 && out.members[|out.members| - 1] == out.rows[bound])
  {
    assert bound !in rows;
    var d := Decide(rows, bound, email, phone);
    if d.Resolved? {
      ResolvedShape(rows, bound, clock, email, phone);
      CreatedRow(rows, bound, clock, email, phone, d.primary, d.base, d.create);
    }
  }

  /** Staging and re-linking add the new row, last among the members, and no other. */
  lemma CreatedRow(rows: map<nat, Contact>, bound: nat, clock: nat, email: Field, phone: Field,
                   primary: Contact, base: seq<Contact>, create: bool)
    requires primary.id in rows && bound !in rows
    ensures var f := primary.id;
      var n := NewContact(bound, clock, email, phone, Some(f), Secondary);
      var full := if create then base + [n] else base;
      var out := RelinkRows(Staged(rows, bound, clock, email, phone, primary, create), f, IdSet(full));
      && out.Keys == (if create then rows.Keys + {bound} else rows.Keys)
      && (create ==> out[bound] == n && |Relinked(full, f)| > 0 && Relinked(full, f)[|full| - 1] == n)
  {
    var f := primary.id;
    var n := NewContact(bound, clock, email, phone, Some(f), Secondary);
    var full := if create then base + [n] else base;
    if create {
      assert full[|full| - 1] == n;
      assert Link(n, f) == n;
    }
  }

  /**
   * Rows outside the returned network, other than the final primary's, are
   * left as they were.
   */
  lemma OthersUntouched(rows: map<nat, Contact>, bound: nat, clock: nat, email: Field, phone: Field)
    requires Table(rows, bound)
    ensures var out := Resolve(rows, bound, clock, email, phone);
      forall k :: k in rows && k != out.primary.id && k !in IdSet(out.members) ==> k in out.rows && out.rows[k] == rows[k]
  {
    assert bound !in rows;
    var d := Decide(rows, bound, email, phone);
    if d.Resolved? {
      ResolvedShape(rows, bound, clock, email, phone);
      UntouchedRows(rows, bound, clock, email, phone, d.primary, d.base, d.create);
    }
  }

  /** Staging and re-linking change only the primary's row and the members' rows. */
  lemma UntouchedRows(rows: map<nat, Contact>, bound: nat, clock: nat, email: Field, phone: Field,
                      primary: Contact, base: seq<Contact>, create: bool)
    requires primary.id in rows && bound !in rows
    ensures var f := primary.id;
      var n := NewContact(bound, clock, email, phone, Some(f), Secondary);
      var full := if create then base + [n] else base;
      var out := RelinkRows(Staged(rows, bound, clock, email, phone, primary, create), f, IdSet(full));
      forall k :: k in rows && k != f && k !in IdSet(Relinked(full, f)) ==> k in out && out[k] == rows[k]
  {
    var f := primary.id;
    var n := NewContact(bound, clock, email, phone, Some(f), Secondary);
    var full := if create then base + [n] else base;
    RelinkedIds(full, f);
  }

  /**
   * Merging networks: the final primary is the oldest resolved primary,
   * every other resolved primary is stored as its secondary, nothing is
   * created, and the members are the linked rows, each once.
   */
  lemma MergeKeepsOldestPrimary(rows: map<nat, Contact>, bound: nat, clock: nat, email: Field, phone: Field)
    requires Table(rows, bound)
    requires |PrimariesOf(rows, bound, email, phone)| > 1
    ensures var ps := PrimariesOf(rows, bound, email, phone);
      var linked := LinkedOf(rows, bound, email, phone);
      var out := Resolve(rows, bound, clock, email, phone);
      var f := out.primary.id;
      && out.primary in ps
      && (forall p :: p in ps ==> out.primary.createdAt <= p.createdAt)
      && (forall p :: p in ps && p.id != f ==> p.id in out.rows && out.rows[p.id] == Link(rows[p.id], f))
      && out.rows.Keys == rows.Keys
      && |out.members| == |linked|
      && IdSet(out.members) == IdSet(linked)
  {
    var found := FindByEmailOrPhone(rows, bound, email, phone);
    var linked := LinkedOf(rows, bound, email, phone);
    var ps := PrimariesOf(rows, bound, email, phone);
    DecideMerge(rows, bound, email, phone);
    ResolvedShape(rows, bound, clock, email, phone);
    LinkedRows(rows, bound, Ids(found));
    var f := Oldest(ps).id;
    MergedMembers(linked, f);
    assert bound !in rows;
    MergedRows(rows, bound, clock, email, phone, Oldest(ps), Flatten(linked, NetworkKeys(linked)), linked);
  }

  /** Re-linking every linked row to a stored primary keeps the ids and links each of them. */
  lemma MergedRows(rows: map<nat, Contact>, bound: nat, clock: nat, email: Field, phone: Field,
                   primary: Contact, full: seq<Contact>, linked: seq<Contact>)
    requires RowOf(rows, primary) && bound !in rows
    requires IdSet(full) == IdSet(linked)
    requires forall c :: c in linked ==> RowOf(rows, c)
    ensures var f := primary.id;
      var out := RelinkRows(Staged(rows, bound, clock, email, phone, primary, false), f, IdSet(full));
      && out.Keys == rows.Keys
      && forall p :: p in linked && p.id != f ==> p.id in out && out[p.id] == Link(rows[p.id], f)
  {
    StagedUnchanged(rows, bound, clock, email, phone, primary, false);
    forall p | p in linked && p.id != primary.id
      ensures p.id in IdSet(full)
    {
      assert p.id in IdSet(linked);
    }
  }

  /** Concatenating the groups and re-linking them keeps every linked row, once. */
  lemma MergedMembers(linked: seq<Contact>, f: nat)
    ensures var full := Flatten(linked, NetworkKeys(linked));
      && |Relinked(full, f)| == |linked|
      && IdSet(Relinked(full, f)) == IdSet(linked)
      && IdSet(full) == IdSet(linked)
  {
    var full := Flatten(linked, NetworkKeys(linked));
    FlattenIsPermutation(linked);
    assert |full| == |multiset(full)| == |multiset(linked)| == |linked|;
    RelinkedIds(full, f);
    forall x | x in IdSet(linked) ensures x in IdSet(full) {
      var c :| c in linked && c.id == x;
      assert c in multiset(full);
    }
  }

  /** The oldest linked row comes first, and with no resolved primary it is a secondary. */
  lemma OldestLinkedIsSecondary(rows: map<nat, Contact>, bound: nat, email: Field, phone: Field)
    requires Table(rows, bound)
    requires FindByEmailOrPhone(rows, bound, email, phone) != []
    requires |PrimariesOf(rows, bound, email, phone)| == 0
    ensures var linked := LinkedOf(rows, bound, email, phone);
      && |linked| > 0 && RowOf(rows, linked[0])
      && linked[0].precedence == Secondary
      && forall c :: c in linked ==> linked[0].createdAt <= c.createdAt
  {
    var found := FindByEmailOrPhone(rows, bound, email, phone);
    var linked := LinkedOf(rows, bound, email, phone);
    LinkedNotEmpty(rows, bound, email, phone);
    LinkedContacts(rows, bound, Ids(found));
    var oldest := linked[0];
    if oldest.precedence == Primary {
      PrimaryRowResolves(linked, oldest);
      assert false;
    }
    forall c | c in linked ensures oldest.createdAt <= c.createdAt {
      var i :| 0 <= i < |linked| && linked[i] == c;
      assert i == 0 || linked[0].createdAt < linked[i].createdAt;
    }
  }

  /** A primary among the linked rows is keyed by its own id, so it resolves. */
  lemma PrimaryRowResolves(linked: seq<Contact>, c: Contact)
    requires c in linked && c.precedence == Primary
    ensures |ResolvedPrimaries(linked, NetworkKeys(linked))| > 0
  {
    assert c.id in IdSet(linked);
  }

  /**
   * No group key resolves to a fetched row: the oldest linked row becomes
   * the primary. The returned copy is primary with no link; the stored row
   * becomes primary but keeps its `linked_id`.
   */
  lemma PromotionKeepsStoredLink(rows: map<nat, Contact>, bound: nat, clock: nat, email: Field, phone: Field)
    requires Table(rows, bound)
    requires FindByEmailOrPhone(rows, bound, email, phone) != []
    requires |PrimariesOf(rows, bound, email, phone)| == 0
    ensures var linked := LinkedOf(rows, bound, email, phone);
      var out := Resolve(rows, bound, clock, email, phone);
      var f := out.primary.id;
      && |linked| > 0 && f == linked[0].id
      && out.primary == linked[0].(precedence := Primary, linkedId := None)
      && f in rows && f in out.rows && out.rows[f] == rows[f].(precedence := Primary)
  {
    var linked := LinkedOf(rows, bound, email, phone);
    OldestLinkedIsSecondary(rows, bound, email, phone);
    DecideOrphans(rows, bound, email, phone);
    var d := Decide(rows, bound, email, phone);
    ResolvedShape(rows, bound, clock, email, phone);
    var f := d.primary.id;
    var staged := Staged(rows, bound, clock, email, phone, d.primary, d.create);
    assert staged[f] == rows[f].(precedence := Primary);
  }

  /**
   * Whether a secondary is added. Never when networks are merged;
   * otherwise, against the network the primary was settled from: with both
   * identifiers iff no member has exactly that pair, with one iff no member
   * has that value.
   */
  lemma CreationRule(rows: map<nat, Contact>, bound: nat, clock: nat, email: Field, phone: Field)
    requires Table(rows, bound)
    requires FindByEmailOrPhone(rows, bound, email, phone) != []
    ensures var d := Decide(rows, bound, email, phone);
      var out := Resolve(rows, bound, clock, email, phone);
      var created := bound in out.rows;
      && d.Resolved?
      && (|PrimariesOf(rows, bound, email, phone)| > 1 ==> !created)
      && (|PrimariesOf(rows, bound, email, phone)| <= 1 ==>
            && (Given(email) && Given(phone) ==>
                  (created <==> forall c :: c in d.base ==> !(c.email == email && c.phone == phone)))
            && (Given(email) && !Given(phone) ==> (created <==> forall c :: c in d.base ==> c.email != email))
            && (!Given(email) && Given(phone) ==> (created <==> forall c :: c in d.base ==> c.phone != phone)))
  {
    var d := Decide(rows, bound, email, phone);
    ResolvedShape(rows, bound, clock, email, phone);
    assert bound !in rows;
    var out := Resolve(rows, bound, clock, email, phone);
    assert bound in out.rows <==> d.create;
    if |PrimariesOf(rows, bound, email, phone)| > 1 {
      DecideMerge(rows, bound, email, phone);
    }
  }
}
