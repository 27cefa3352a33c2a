/**
 * The shape the resolver maintains: every live primary has no link, and
 * every live secondary links straight to a live primary, so each network
 * has one primary and no chains. A table of that shape keeps it.
 */
module LinkInvariant {
  import opened Contacts
  import opened Queries
  import opened Networks
  import opened Resolution
  import opened Consolidation

  /** One live row is correctly linked in `rows`. */
  ghost predicate LinkOk(rows: map<nat, Contact>, c: Contact)
  {
    match c.precedence
    case Primary => c.linkedId.None?
    case Secondary =>
      && c.linkedId.Some?
      && c.linkedId.value in rows
      && Live(rows[c.linkedId.value])
      && rows[c.linkedId.value].precedence == Primary
  }

  /** Every live row is correctly linked. */
  ghost predicate WellLinked(rows: map<nat, Contact>)
  {
    forall k :: k in rows && Live(rows[k]) ==> LinkOk(rows, rows[k])
  }

  /** A live primary with no link. */
  ghost predicate LivePrimary(rows: map<nat, Contact>, k: nat)
  {
    k in rows && Live(rows[k]) && rows[k].precedence == Primary && rows[k].linkedId.None?
  }

  /** In a well-linked table the effective primary of every live seed is a live primary. */
  lemma NetworkIdsArePrimaries(rows: map<nat, Contact>, bound: nat, seedIds: seq<nat>)
    requires Table(rows, bound) && WellLinked(rows)
    ensures forall k :: k in NetworkIds(rows, seedIds) ==> LivePrimary(rows, k)
  {
    forall k | k in NetworkIds(rows, seedIds)
      ensures LivePrimary(rows, k)
    {
      var i :| i in seedIds && i in rows && Live(rows[i]) && EffectiveKey(rows[i]) == k;
      assert LinkOk(rows, rows[i]);
    }
  }

  /**
   * In a well-linked table every linked row is keyed by a network id, and a
   * linked primary is itself one.
   */
  lemma LinkedKeys(rows: map<nat, Contact>, bound: nat, seedIds: seq<nat>)
    requires Table(rows, bound) && WellLinked(rows)
    ensures var ns := NetworkIds(rows, seedIds);
      forall c :: c in FindLinkedContacts(rows, bound, seedIds) ==>
        EffectiveKey(c) in ns && (c.precedence == Primary ==> c.id in ns)
  {
    var ns := NetworkIds(rows, seedIds);
    NetworkIdsArePrimaries(rows, bound, seedIds);
    LinkedContacts(rows, bound, seedIds);
    forall c | c in FindLinkedContacts(rows, bound, seedIds)
      ensures EffectiveKey(c) in ns && (c.precedence == Primary ==> c.id in ns)
    {
      assert LinkOk(rows, rows[c.id]);
      if c.precedence == Secondary && c.id in ns {
        assert LivePrimary(rows, c.id);
      }
    }
  }

  /**
   * In a well-linked table every group key resolves to a linked row, and the
   * rows it resolves to are live primaries.
   */
  lemma KeysResolve(rows: map<nat, Contact>, bound: nat, email: Field, phone: Field)
    requires Table(rows, bound) && WellLinked(rows)
    ensures var linked := LinkedOf(rows, bound, email, phone);
      var ps := PrimariesOf(rows, bound, email, phone);
      && (forall k :: k in NetworkKeys(linked) ==> k in IdSet(ps))
      && (forall p :: p in ps ==> RowOf(rows, p) && LivePrimary(rows, p.id))
  {
    var found := FindByEmailOrPhone(rows, bound, email, phone);
    var seedIds := Ids(found);
    var linked := LinkedOf(rows, bound, email, phone);
    var keys := NetworkKeys(linked);
    var ns := NetworkIds(rows, seedIds);
    NetworkIdsArePrimaries(rows, bound, seedIds);
    LinkedKeys(rows, bound, seedIds);
    LinkedContacts(rows, bound, seedIds);
    forall k | k in keys
      ensures k in IdSet(linked)
    {
      var c :| c in linked && EffectiveKey(c) == k;
      assert LivePrimary(rows, k);
      assert rows[k] in linked;
    }
  }

  /**
   * Re-linking a set of rows to a live primary keeps a table well linked,
   * provided every live secondary pointing into the set (other than at the
   * primary) is in the set too.
   */
  lemma RelinkKeepsWellLinked(m: map<nat, Contact>, f: nat, ids: set<nat>)
    requires WellLinked(m) && LivePrimary(m, f)
    requires forall k ::
      (k in m && Live(m[k]) && m[k].precedence == Secondary && m[k].linkedId.Some? &&
       m[k].linkedId.value in ids && m[k].linkedId.value != f) ==> k in ids
    ensures WellLinked(RelinkRows(m, f, ids))
  {
    var out := RelinkRows(m, f, ids);
    forall k | k in out && Live(out[k])
      ensures LinkOk(out, out[k])
    {
      assert LinkOk(m, m[k]);
    }
  }

  /**
   * Consolidating a well-linked table leaves it well linked: one primary per
   * network and no chains.
   */
  lemma ConsolidationKeepsWellLinked(rows: map<nat, Contact>, bound: nat, clock: nat, email: Field, phone: Field)
    requires Table(rows, bound) && WellLinked(rows)
    ensures WellLinked(Resolve(rows, bound, clock, email, phone).rows)
  {
    var d := Decide(rows, bound, email, phone);
    var out := Resolve(rows, bound, clock, email, phone);
    if d.NoMatch? {
      var c := NewContact(bound, clock, email, phone, None, Primary);
      assert out.rows == rows[bound := c];
      forall k | k in out.rows && Live(out.rows[k])
        ensures LinkOk(out.rows, out.rows[k])
      {
        if k != bound {
          assert LinkOk(rows, rows[k]);
        }
      }
    } else {
      ResolvedShape(rows, bound, clock, email, phone);
      var f := d.primary.id;
      var full := FullOf(rows, bound, clock, email, phone, d);
      var staged := Staged(rows, bound, clock, email, phone, d.primary, d.create);
      var found := FindByEmailOrPhone(rows, bound, email, phone);
      var seedIds := Ids(found);
      SettledNetwork(rows, bound, email, phone);
      LinkedKeys(rows, bound, seedIds);
      LinkedClosed(rows, bound, seedIds);
      StagedWellLinked(rows, bound, clock, email, phone, d.primary, d.create);
      StagedClosed(rows, bound, clock, email, phone, d.primary, d.base, d.create,
                   LinkedOf(rows, bound, email, phone), NetworkIds(rows, seedIds));
      RelinkKeepsWellLinked(staged, f, IdSet(full));
    }
  }

  /**
   * In a well-linked table the decision settles on a live primary among the
   * linked rows, and the network it settles from holds every linked row.
   */
  lemma SettledNetwork(rows: map<nat, Contact>, bound: nat, email: Field, phone: Field)
    requires Table(rows, bound) && WellLinked(rows)
    requires Decide(rows, bound, email, phone).Resolved?
    ensures var d := Decide(rows, bound, email, phone);
      var linked := LinkedOf(rows, bound, email, phone);
      && RowOf(rows, d.primary) && LivePrimary(rows, d.primary.id) && d.primary in linked
      && (forall c :: c in linked ==> c.id in IdSet(d.base))
      && (forall c :: c in d.base ==> c in linked)
  {
    var linked := LinkedOf(rows, bound, email, phone);
    var ps := PrimariesOf(rows, bound, email, phone);
    KeysResolve(rows, bound, email, phone);
    LinkedNotEmpty(rows, bound, email, phone);
    SomeKeyResolves(linked);
    if |ps| > 1 {
      DecideMerge(rows, bound, email, phone);
      MergedMembers(linked, Oldest(ps).id);
    } else {
      DecideSingle(rows, bound, email, phone);
      SingleGroupCovers(linked);
    }
  }

  /** When every group key resolves, some key does. */
  lemma SomeKeyResolves(linked: seq<Contact>)
    requires linked != []
    requires forall k :: k in NetworkKeys(linked) ==> k in IdSet(ResolvedPrimaries(linked, NetworkKeys(linked)))
    ensures |ResolvedPrimaries(linked, NetworkKeys(linked))| > 0
  {
    assert EffectiveKey(linked[0]) in NetworkKeys(linked);
  }

  /** When every group key resolves to the one primary, the first group is every linked row. */
  lemma SingleGroupCovers(linked: seq<Contact>)
    requires linked != []
    requires |ResolvedPrimaries(linked, NetworkKeys(linked))| == 1
    requires forall k :: k in NetworkKeys(linked) ==> k in IdSet(ResolvedPrimaries(linked, NetworkKeys(linked)))
    ensures var keys := NetworkKeys(linked);
      |keys| > 0 && forall c :: c in linked ==> c.id in IdSet(Group(linked, keys[0]))
  {
    var keys := NetworkKeys(linked);
    var ps := ResolvedPrimaries(linked, keys);
    var p := ps[0];
    assert ps == [p];
    assert IdSet(ps) == {p.id};
    assert EffectiveKey(linked[0]) in keys;
    assert keys[0] in keys;
    forall c | c in linked
      ensures c.id in IdSet(Group(linked, keys[0]))
    {
      assert EffectiveKey(c) in keys;
      assert c in Group(linked, keys[0]);
    }
  }

  /** The staged table is well linked: the new row links to the live primary. */
  lemma StagedWellLinked(rows: map<nat, Contact>, bound: nat, clock: nat, email: Field, phone: Field,
                         primary: Contact, create: bool)
    requires Table(rows, bound) && WellLinked(rows)
    requires RowOf(rows, primary) && LivePrimary(rows, primary.id)
    ensures var staged := Staged(rows, bound, clock, email, phone, primary, create);
      WellLinked(staged) && LivePrimary(staged, primary.id)
  {
    assert bound !in rows;
    StagedUnchanged(rows, bound, clock, email, phone, primary, create);
    var staged := Staged(rows, bound, clock, email, phone, primary, create);
    forall k | k in staged && Live(staged[k])
      ensures LinkOk(staged, staged[k])
    {
      if k != bound {
        assert LinkOk(rows, rows[k]);
      }
    }
  }

  /** Every live row linked to a network id is among the linked rows. */
  lemma LinkedClosed(rows: map<nat, Contact>, bound: nat, seedIds: seq<nat>)
    requires Table(rows, bound) && |seedIds| > 0
    ensures var linked := FindLinkedContacts(rows, bound, seedIds);
      && (forall c :: c in linked ==> RowOf(rows, c))
      && forall k ::
           (k in rows && Live(rows[k]) && rows[k].linkedId.Some? &&
            rows[k].linkedId.value in NetworkIds(rows, seedIds)) ==> rows[k] in linked
  {
    LinkedContacts(rows, bound, seedIds);
  }

  /**
   * A live staged secondary pointing at a member other than the primary is
   * itself a member, when the members are exactly the linked rows (and the
   * new row), the linked rows are closed under links into the network ids
   * and every linked primary is a network id.
   */
  lemma StagedClosed(rows: map<nat, Contact>, bound: nat, clock: nat, email: Field, phone: Field,
                     primary: Contact, base: seq<Contact>, create: bool, linked: seq<Contact>, ns: set<nat>)
    requires Table(rows, bound) && WellLinked(rows)
    requires RowOf(rows, primary) && LivePrimary(rows, primary.id)
    requires forall c :: c in linked ==> RowOf(rows, c) && c.id in IdSet(base)
    requires forall c :: c in base ==> c in linked
    requires forall c :: c in linked && c.precedence == Primary ==> c.id in ns
    requires forall k :: k in rows && Live(rows[k]) && rows[k].linkedId.Some? && rows[k].linkedId.value in ns
                         ==> rows[k] in linked
    ensures var f := primary.id;
      var staged := Staged(rows, bound, clock, email, phone, primary, create);
      var n := NewContact(bound, clock, email, phone, Some(f), Secondary);
      var ids := IdSet(if create then base + [n] else base);
      forall k ::
        (k in staged && Live(staged[k]) && staged[k].precedence == Secondary && staged[k].linkedId.Some? &&
         staged[k].linkedId.value in ids && staged[k].linkedId.value != f) ==> k in ids
  {
    var f := primary.id;
    var n := NewContact(bound, clock, email, phone, Some(f), Secondary);
    var full := if create then base + [n] else base;
    assert bound !in rows;
    StagedUnchanged(rows, bound, clock, email, phone, primary, create);
    var staged := Staged(rows, bound, clock, email, phone, primary, create);
    forall k | k in staged && Live(staged[k]) && staged[k].precedence == Secondary && staged[k].linkedId.Some? &&
      staged[k].linkedId.value in IdSet(full) && staged[k].linkedId.value != f
      ensures k in IdSet(full)
    {
      var t := staged[k].linkedId.value;
      assert k != bound;
      assert LinkOk(rows, rows[k]);
      var c :| c in full && c.id == t;
      assert c != n;
      assert c in linked;
      assert rows[k] in linked;
      var b :| b in base && b.id == k;
      assert b in full;
    }
  }
}
