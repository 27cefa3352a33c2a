/**
 * Submitting the same identifiers twice. After one call the request's
 * network is settled, so a repeat settles on the same primary and the same
 * contacts; it inserts nothing when some stored row already records the
 * submission, which is the case after any call that inserted one, but not
 * always after a merge.
 */
module Repetition {
  import opened Contacts
  import opened Queries
  import opened Networks
  import opened Resolution
  import opened Consolidation
  import opened LinkInvariant
  import opened Seqs

  /** Every `created_at` in the table is before `clock`. */
  ghost predicate Before(rows: map<nat, Contact>, clock: nat)
  {
    forall k :: k in rows ==> rows[k].createdAt < clock
  }

  /** `b` is `a` with at most its precedence and link changed. */
  predicate SameRecord(a: Contact, b: Contact)
  {
    a.id == b.id && a.email == b.email && a.phone == b.phone && a.createdAt == b.createdAt && a.deletedAt == b.deletedAt
  }

  /** Re-linking keeps the table's shape and every row's identifiers, time and deletion mark. */
  lemma RelinkKeepsTable(m: map<nat, Contact>, bound: nat, f: nat, ids: set<nat>)
    requires Table(m, bound) && f in m
    ensures var r := RelinkRows(m, f, ids);
      && Table(r, bound) && r.Keys == m.Keys
      && forall k :: k in m ==> SameRecord(m[k], r[k])
  {
  }

  /** Staging keeps the table's shape, with the new row under the next id and time. */
  lemma StagedKeepsTable(rows: map<nat, Contact>, bound: nat, clock: nat, email: Field, phone: Field,
                         primary: Contact, create: bool)
    requires Table(rows, bound) && 0 < bound && Before(rows, clock) && primary.id in rows
    ensures var staged := Staged(rows, bound, clock, email, phone, primary, create);
      && Table(staged, if create then bound + 1 else bound)
      && Before(staged, if create then clock + 1 else clock)
      && forall k :: k in rows ==> SameRecord(rows[k], staged[k])
  {
    var f := primary.id;
    assert bound !in rows;
    AddSecondary(rows, bound, clock, email, phone, primary, create);
    var promoted := rows[f := rows[f].(precedence := primary.precedence)];
    PromotionKeepsTable(rows, bound, clock, f, primary.precedence);
    if create {
      InsertKeepsTable(promoted, bound, clock, NewContact(bound, clock, email, phone, Some(f), Secondary));
    }
  }

  /** Changing one row's precedence keeps the table's shape and the row's record. */
  lemma PromotionKeepsTable(rows: map<nat, Contact>, bound: nat, clock: nat, f: nat, p: Precedence)
    requires Table(rows, bound) && Before(rows, clock) && f in rows
    ensures var promoted := rows[f := rows[f].(precedence := p)];
      && Table(promoted, bound) && Before(promoted, clock) && promoted.Keys == rows.Keys
      && forall k :: k in rows ==> SameRecord(rows[k], promoted[k])
  {
  }

  /** Inserting a row with the next id and time, linked (if at all) to a stored row, keeps the table's shape. */
  lemma InsertKeepsTable(rows: map<nat, Contact>, bound: nat, clock: nat, n: Contact)
    requires Table(rows, bound) && 0 < bound && Before(rows, clock)
    requires n.id == bound && n.createdAt == clock && (n.linkedId.Some? ==> n.linkedId.value in rows)
    ensures var inserted := rows[bound := n];
      && Table(inserted, bound + 1) && Before(inserted, clock + 1)
      && forall k :: k in rows ==> inserted[k] == rows[k]
  {
  }

  /**
   * A call keeps the table's constraints: positive ids below the next
   * SERIAL value, links to stored rows, `created_at` growing with `id`; and
   * it keeps every stored row's identifiers, time and deletion mark.
   */
  lemma ResolveKeepsTable(rows: map<nat, Contact>, bound: nat, clock: nat, email: Field, phone: Field)
    requires Table(rows, bound) && 0 < bound && Before(rows, clock)
    ensures var out := Resolve(rows, bound, clock, email, phone);
      && Table(out.rows, if bound in out.rows then bound + 1 else bound)
      && Before(out.rows, if bound in out.rows then clock + 1 else clock)
      && forall k :: k in rows ==> k in out.rows && SameRecord(rows[k], out.rows[k])
  {
    assert bound !in rows;
    var d := Decide(rows, bound, email, phone);
    if d.Resolved? {
      ResolvedShape(rows, bound, clock, email, phone);
      CommittedTable(rows, bound, clock, email, phone, d.primary, d.base, d.create);
    } else {
      var c := NewContact(bound, clock, email, phone, None, Primary);
      assert Resolve(rows, bound, clock, email, phone).rows == rows[bound := c];
      InsertKeepsTable(rows, bound, clock, c);
    }
  }

  /** Staging and re-linking keep the table's constraints; the next id is taken iff a row is created. */
  lemma CommittedTable(rows: map<nat, Contact>, bound: nat, clock: nat, email: Field, phone: Field,
                       primary: Contact, base: seq<Contact>, create: bool)
    requires Table(rows, bound) && 0 < bound && Before(rows, clock) && primary.id in rows
    ensures var f := primary.id;
      var n := NewContact(bound, clock, email, phone, Some(f), Secondary);
      var out := RelinkRows(Staged(rows, bound, clock, email, phone, primary, create), f, IdSet(if create then base + [n] else base));
      && (bound in out <==> create)
      && Table(out, if create then bound + 1 else bound)
      && Before(out, if create then clock + 1 else clock)
      && forall k :: k in rows ==> k in out && SameRecord(rows[k], out[k])
  {
    var f := primary.id;
    var n := NewContact(bound, clock, email, phone, Some(f), Secondary);
    var staged := Staged(rows, bound, clock, email, phone, primary, create);
    assert bound !in rows;
    StagedKeepsTable(rows, bound, clock, email, phone, primary, create);
    RelinkKeepsTable(staged, if create then bound + 1 else bound, f, IdSet(if create then base + [n] else base));
  }

  /** Row `k` is live and is `f` or linked to it: a row `findLinkedContacts` returns for `f`. */
  ghost predicate InNetwork(rows: map<nat, Contact>, f: nat, k: nat)
  {
    k in rows && Selects(InNetworks({f}), rows[k])
  }

  /** Row `k` is live and has the submitted email or phone: a row `findByEmailOrPhone` returns. */
  ghost predicate Matching(rows: map<nat, Contact>, email: Field, phone: Field, k: nat)
  {
    k in rows && Selects(EmailOrPhone(email, phone), rows[k])
  }

  /**
   * The submission's identity is settled in `rows`: `ids` is exactly the
   * network of the live primary `f`, some row matches the submission, and
   * every matching row is in that network.
   */
  ghost predicate Settled(rows: map<nat, Contact>, email: Field, phone: Field, f: nat, ids: set<nat>)
  {
    && LivePrimary(rows, f)
    && ids <= rows.Keys
    && (forall k :: k in rows ==> (InNetwork(rows, f, k) <==> k in ids))
    && (forall k :: Matching(rows, email, phone, k) ==> k in ids)
    && (exists k :: Matching(rows, email, phone, k))
  }

  /**
   * After a call with at least one identifier on a well-linked table, the
   * returned members are exactly the network of the returned primary in
   * the committed table, and every row matching the submission is among
   * them.
   */
  lemma CallSettles(rows: map<nat, Contact>, bound: nat, clock: nat, email: Field, phone: Field)
    requires Table(rows, bound) && 0 < bound && Before(rows, clock) && WellLinked(rows)
    requires Given(email) || Given(phone)
    ensures var out := Resolve(rows, bound, clock, email, phone);
      Settled(out.rows, email, phone, out.primary.id, IdSet(out.members))
  {
    var found := FindByEmailOrPhone(rows, bound, email, phone);
    if found == [] {
      FoundContacts(rows, bound, email, phone);
      AtMostOneRecordCreated(rows, bound, clock, email, phone);
      FreshPrimarySettles(rows, bound, NewContact(bound, clock, email, phone, None, Primary), email, phone);
    } else {
      ResolvedSettles(rows, bound, clock, email, phone);
    }
  }

  /** With nothing matching, the inserted primary is alone in its network and matches the submission. */
  lemma FreshPrimarySettles(rows: map<nat, Contact>, bound: nat, c: Contact, email: Field, phone: Field)
    requires Table(rows, bound) && (Given(email) || Given(phone))
    requires c.id == bound && c.precedence == Primary && c.linkedId.None? && Live(c)
    requires (Given(email) ==> c.email == email) && (Given(phone) ==> c.phone == phone)
    requires forall k :: k in rows ==> !Matching(rows, email, phone, k)
    ensures Settled(rows[bound := c], email, phone, bound, IdSet([c]))
  {
    var out := rows[bound := c];
    assert IdSet([c]) == {bound};
    assert Matching(out, email, phone, bound);
    forall k | Matching(out, email, phone, k)
      ensures k == bound
    {
      if k != bound {
        assert Matching(rows, email, phone, k);
      }
    }
  }

  /** A call that found a match leaves the returned members as the settled network of its primary. */
  lemma ResolvedSettles(rows: map<nat, Contact>, bound: nat, clock: nat, email: Field, phone: Field)
    requires Table(rows, bound) && 0 < bound && Before(rows, clock) && WellLinked(rows)
    requires FindByEmailOrPhone(rows, bound, email, phone) != []
    ensures var out := Resolve(rows, bound, clock, email, phone);
      Settled(out.rows, email, phone, out.primary.id, IdSet(out.members))
  {
    ResolvedNetwork(rows, bound, clock, email, phone);
    ResolvedMatches(rows, bound, clock, email, phone);
  }

  /** After a call that found a match, the returned members are the network of the returned primary. */
  lemma ResolvedNetwork(rows: map<nat, Contact>, bound: nat, clock: nat, email: Field, phone: Field)
    requires Table(rows, bound) && WellLinked(rows)
    requires FindByEmailOrPhone(rows, bound, email, phone) != []
    ensures var out := Resolve(rows, bound, clock, email, phone);
      var f := out.primary.id;
      && LivePrimary(out.rows, f)
      && IdSet(out.members) <= out.rows.Keys
      && forall k :: k in out.rows ==> (InNetwork(out.rows, f, k) <==> k in IdSet(out.members))
  {
    var found := FindByEmailOrPhone(rows, bound, email, phone);
    var d := Decide(rows, bound, email, phone);
    var linked := LinkedOf(rows, bound, email, phone);
    var full := FullOf(rows, bound, clock, email, phone, d);
    assert bound !in rows;
    ResolvedShape(rows, bound, clock, email, phone);
    SettledNetwork(rows, bound, email, phone);
    LinkedContacts(rows, bound, Ids(found));
    LinkedKeys(rows, bound, Ids(found));
    RelinkedIds(full, d.primary.id);
    NetworkRelinked(rows, bound, clock, email, phone, d.primary, d.base, d.create, linked, NetworkIds(rows, Ids(found)));
  }

  /** After a call that found a match, some row matches the submission and every such row is a member. */
  lemma ResolvedMatches(rows: map<nat, Contact>, bound: nat, clock: nat, email: Field, phone: Field)
    requires Table(rows, bound) && 0 < bound && Before(rows, clock) && WellLinked(rows)
    requires FindByEmailOrPhone(rows, bound, email, phone) != []
    ensures var out := Resolve(rows, bound, clock, email, phone);
      && (forall k :: Matching(out.rows, email, phone, k) ==> k in IdSet(out.members))
      && (exists k :: Matching(out.rows, email, phone, k))
  {
    var found := FindByEmailOrPhone(rows, bound, email, phone);
    var d := Decide(rows, bound, email, phone);
    var linked := LinkedOf(rows, bound, email, phone);
    FoundContacts(rows, bound, email, phone);
    ResolvedShape(rows, bound, clock, email, phone);
    SettledNetwork(rows, bound, email, phone);
    SeedsAreLinked(rows, bound, email, phone);
    RelinkedIds(FullOf(rows, bound, clock, email, phone, d), d.primary.id);
    CommittedMatches(rows, bound, clock, email, phone, d.primary, d.base, d.create, found, linked);
  }

  /** The rows matching the submission after the write phase are members, and there is one. */
  lemma CommittedMatches(rows: map<nat, Contact>, bound: nat, clock: nat, email: Field, phone: Field,
                         primary: Contact, base: seq<Contact>, create: bool, found: seq<Contact>, linked: seq<Contact>)
    requires Table(rows, bound) && 0 < bound && Before(rows, clock) && primary.id in rows
    requires found != []
    requires forall c :: c in found <==> RowOf(rows, c) && Selects(EmailOrPhone(email, phone), c)
    requires forall c :: c in found ==> c in linked
    requires forall c :: c in linked ==> c.id in IdSet(base)
    ensures var f := primary.id;
      var n := NewContact(bound, clock, email, phone, Some(f), Secondary);
      var full := if create then base + [n] else base;
      var out := RelinkRows(Staged(rows, bound, clock, email, phone, primary, create), f, IdSet(full));
      && (exists k :: Matching(out, email, phone, k))
      && (forall k :: Matching(out, email, phone, k) ==> k in IdSet(full))
  {
    var f := primary.id;
    var n := NewContact(bound, clock, email, phone, Some(f), Secondary);
    var full := if create then base + [n] else base;
    var out := RelinkRows(Staged(rows, bound, clock, email, phone, primary, create), f, IdSet(full));
    assert bound !in rows;
    CommittedTable(rows, bound, clock, email, phone, primary, base, create);
    CreatedRow(rows, bound, clock, email, phone, primary, base, create);
    assert create ==> full[|full| - 1].id == bound;
    MatchingMembers(rows, out, bound, email, phone, found, linked, base, full);
  }

  /**
   * When every stored row keeps its identifiers and every found row is a
   * member, the rows matching the submission afterwards are members (a new
   * row is one too), and there is one.
   */
  lemma MatchingMembers(rows: map<nat, Contact>, out: map<nat, Contact>, bound: nat, email: Field, phone: Field,
                        found: seq<Contact>, linked: seq<Contact>, base: seq<Contact>, full: seq<Contact>)
    requires Table(rows, bound) && found != []
    requires forall c :: c in found <==> RowOf(rows, c) && Selects(EmailOrPhone(email, phone), c)
    requires forall c :: c in found ==> c in linked
    requires forall c :: c in linked ==> c.id in IdSet(base)
    requires forall c :: c in base ==> c in full
    requires forall k :: k in rows ==> k in out && SameRecord(rows[k], out[k])
    requires forall k :: k in out && k !in rows ==> k in IdSet(full)
    ensures exists k :: Matching(out, email, phone, k)
    ensures forall k :: Matching(out, email, phone, k) ==> k in IdSet(full)
  {
    assert found[0] in found;
    assert Matching(out, email, phone, found[0].id);
    forall k | Matching(out, email, phone, k)
      ensures k in IdSet(full)
    {
      if k in rows {
        assert rows[k] in found;
        var b :| b in base && b.id == k;
        assert b in full;
      }
    }
  }

  /**
   * Staging and re-linking a network that holds every live row of the
   * primary's: afterwards the members are exactly the primary's network.
   */
  lemma NetworkRelinked(rows: map<nat, Contact>, bound: nat, clock: nat, email: Field, phone: Field,
                        primary: Contact, base: seq<Contact>, create: bool, linked: seq<Contact>, ns: set<nat>)
    requires Table(rows, bound) && WellLinked(rows)
    requires RowOf(rows, primary) && LivePrimary(rows, primary.id) && primary in linked && primary.id in ns
    requires forall c :: c in linked ==> RowOf(rows, c) && Live(c) && c.id in IdSet(base)
    requires forall c :: c in base ==> c in linked
    requires forall k :: k in rows && Live(rows[k]) && rows[k].linkedId.Some? && rows[k].linkedId.value in ns
                         ==> rows[k] in linked
    ensures var f := primary.id;
      var n := NewContact(bound, clock, email, phone, Some(f), Secondary);
      var full := if create then base + [n] else base;
      var out := RelinkRows(Staged(rows, bound, clock, email, phone, primary, create), f, IdSet(full));
      && LivePrimary(out, f)
      && IdSet(full) <= out.Keys
      && forall k :: k in out ==> (InNetwork(out, f, k) <==> k in IdSet(full))
  {
    assert bound !in rows;
    StagedUnchanged(rows, bound, clock, email, phone, primary, create);
    MembersInNetwork(rows, bound, clock, email, phone, primary, base, create, linked);
    assert primary.id in IdSet(base);
    OthersOutsideNetwork(rows, bound, clock, email, phone, primary, base, create, linked, ns);
  }

  /** After staging and re-linking, every member is live and is the primary or linked to it. */
  lemma MembersInNetwork(rows: map<nat, Contact>, bound: nat, clock: nat, email: Field, phone: Field,
                         primary: Contact, base: seq<Contact>, create: bool, linked: seq<Contact>)
    requires bound !in rows
    requires RowOf(rows, primary) && LivePrimary(rows, primary.id)
    requires forall c :: c in linked ==> RowOf(rows, c) && Live(c)
    requires forall c :: c in base ==> c in linked
    requires Staged(rows, bound, clock, email, phone, primary, create)
         == if create then rows[bound := NewContact(bound, clock, email, phone, Some(primary.id), Secondary)] else rows
    ensures var f := primary.id;
      var n := NewContact(bound, clock, email, phone, Some(f), Secondary);
      var full := if create then base + [n] else base;
      var out := RelinkRows(Staged(rows, bound, clock, email, phone, primary, create), f, IdSet(full));
      && LivePrimary(out, f)
      && forall k :: k in IdSet(full) ==> k in out && InNetwork(out, f, k)
  {
    var f := primary.id;
    var n := NewContact(bound, clock, email, phone, Some(f), Secondary);
    var full := if create then base + [n] else base;
    var out := RelinkRows(Staged(rows, bound, clock, email, phone, primary, create), f, IdSet(full));
    forall k | k in IdSet(full)
      ensures k in out && InNetwork(out, f, k)
    {
      var c :| c in full && c.id == k;
      if c != n {
        assert c in linked;
      }
    }
  }

  /**
   * After staging and re-linking, a row outside the members is not in the
   * primary's network: every live row linked to it was already a member.
   */
  lemma OthersOutsideNetwork(rows: map<nat, Contact>, bound: nat, clock: nat, email: Field, phone: Field,
                             primary: Contact, base: seq<Contact>, create: bool, linked: seq<Contact>, ns: set<nat>)
    requires bound !in rows && forall k :: k in rows ==> rows[k].id == k
    requires RowOf(rows, primary) && primary.id in IdSet(base) && primary.id in ns
    requires forall c :: c in linked ==> RowOf(rows, c) && c.id in IdSet(base)
    requires forall k :: k in rows && Live(rows[k]) && rows[k].linkedId.Some? && rows[k].linkedId.value in ns
                         ==> rows[k] in linked
    requires Staged(rows, bound, clock, email, phone, primary, create)
         == if create then rows[bound := NewContact(bound, clock, email, phone, Some(primary.id), Secondary)] else rows
    ensures var f := primary.id;
      var n := NewContact(bound, clock, email, phone, Some(f), Secondary);
      var full := if create then base + [n] else base;
      var out := RelinkRows(Staged(rows, bound, clock, email, phone, primary, create), f, IdSet(full));
      forall k :: k in out && InNetwork(out, f, k) ==> k in IdSet(full)
  {
    var f := primary.id;
    var n := NewContact(bound, clock, email, phone, Some(f), Secondary);
    var full := if create then base + [n] else base;
    var out := RelinkRows(Staged(rows, bound, clock, email, phone, primary, create), f, IdSet(full));
    forall k | k in out && InNetwork(out, f, k)
      ensures k in IdSet(full)
    {
      if k in rows && k != f {
        assert rows[k].linkedId == Some(f) ==> rows[k] in linked;
      }
    }
  }

  /**
   * A call on a table where the submission's identity is settled keeps that
   * primary and those members, adding only the row it may insert.
   */
  lemma SettledRepeat(rows: map<nat, Contact>, bound: nat, clock: nat, email: Field, phone: Field, f: nat, ids: set<nat>)
    requires Table(rows, bound) && WellLinked(rows) && Settled(rows, email, phone, f, ids)
    ensures var out := Resolve(rows, bound, clock, email, phone);
      && out.primary.id == f
      && IdSet(out.members) == ids + (if bound in out.rows then {bound} else {})
  {
    var linked := LinkedOf(rows, bound, email, phone);
    SettledLinks(rows, bound, email, phone, f, ids);
    var d := Decide(rows, bound, email, phone);
    SettledNetwork(rows, bound, email, phone);
    ResolvedShape(rows, bound, clock, email, phone);
    SettledPrimary(rows, f, ids, d.primary, linked);
    assert bound !in rows;
    MemberIds(rows, bound, clock, email, phone, d.primary, d.base, d.create, linked);
  }

  /** The only live primary among the linked rows of a settled identity is its own. */
  lemma SettledPrimary(rows: map<nat, Contact>, f: nat, ids: set<nat>, p: Contact, linked: seq<Contact>)
    requires forall k :: k in rows ==> (InNetwork(rows, f, k) <==> k in ids)
    requires IdSet(linked) == ids && p in linked && RowOf(rows, p) && LivePrimary(rows, p.id)
    ensures p.id == f
  {
    assert p.id in IdSet(linked);
    assert InNetwork(rows, f, p.id);
  }

  /** The members' ids are the network's and the new row's, which is in the table iff it was created. */
  lemma MemberIds(rows: map<nat, Contact>, bound: nat, clock: nat, email: Field, phone: Field,
                  primary: Contact, base: seq<Contact>, create: bool, linked: seq<Contact>)
    requires primary.id in rows && bound !in rows
    requires (forall c :: c in linked ==> c.id in IdSet(base)) && (forall c :: c in base ==> c in linked)
    ensures var f := primary.id;
      var n := NewContact(bound, clock, email, phone, Some(f), Secondary);
      var full := if create then base + [n] else base;
      var out := RelinkRows(Staged(rows, bound, clock, email, phone, primary, create), f, IdSet(full));
      && (bound in out <==> create)
      && IdSet(Relinked(full, f)) == IdSet(linked) + (if create then {bound} else {})
  {
    var f := primary.id;
    var n := NewContact(bound, clock, email, phone, Some(f), Secondary);
    var full := if create then base + [n] else base;
    CreatedRow(rows, bound, clock, email, phone, primary, base, create);
    RelinkedIds(full, f);
    assert IdSet(base) == IdSet(linked) by {
      forall k | k in IdSet(base) ensures k in IdSet(linked) {
        var c :| c in base && c.id == k;
        assert c in linked;
      }
    }
    if create {
      assert n in full;
      assert forall c :: c in full ==> c in base || c == n;
    }
  }

  /** When the identity is settled, some row matches and the linked rows are exactly the network. */
  lemma SettledLinks(rows: map<nat, Contact>, bound: nat, email: Field, phone: Field, f: nat, ids: set<nat>)
    requires Table(rows, bound) && WellLinked(rows) && Settled(rows, email, phone, f, ids)
    ensures FindByEmailOrPhone(rows, bound, email, phone) != []
    ensures IdSet(LinkedOf(rows, bound, email, phone)) == ids
  {
    var seedIds := Ids(FindByEmailOrPhone(rows, bound, email, phone));
    SettledSeeds(rows, bound, email, phone, f, ids);
    var linked := LinkedOf(rows, bound, email, phone);
    LinkedContacts(rows, bound, seedIds);
    forall k | k in ids ensures k in IdSet(linked) {
      assert InNetwork(rows, f, k);
      assert rows[k] in linked;
    }
    forall k | k in IdSet(linked) ensures k in ids {
      var c :| c in linked && c.id == k;
      assert InNetwork(rows, f, k);
    }
  }

  /** When the identity is settled, some row matches and every matching row's network is `f`'s. */
  lemma SettledSeeds(rows: map<nat, Contact>, bound: nat, email: Field, phone: Field, f: nat, ids: set<nat>)
    requires Table(rows, bound) && WellLinked(rows) && Settled(rows, email, phone, f, ids)
    ensures var found := FindByEmailOrPhone(rows, bound, email, phone);
      found != [] && NetworkIds(rows, Ids(found)) == {f}
  {
    var found := FindByEmailOrPhone(rows, bound, email, phone);
    var seedIds := Ids(found);
    FoundContacts(rows, bound, email, phone);
    forall i | i in seedIds && i in rows && Live(rows[i])
      ensures EffectiveKey(rows[i]) == f
    {
      var j :| 0 <= j < |found| && seedIds[j] == i;
      assert found[j] in found;
      MatchKey(rows, email, phone, f, ids, i);
    }
    var m :| Matching(rows, email, phone, m);
    assert rows[m] in found;
    var j :| 0 <= j < |found| && found[j] == rows[m];
    assert seedIds[j] == m;
    KeyedSeeds(rows, seedIds, f, m);
  }

  /** Seeds that all have the effective primary `f`, at least one of them live, make a network of `f` alone. */
  lemma KeyedSeeds(rows: map<nat, Contact>, seedIds: seq<nat>, f: nat, m: nat)
    requires forall i :: i in seedIds && i in rows && Live(rows[i]) ==> EffectiveKey(rows[i]) == f
    requires m in seedIds && m in rows && Live(rows[m])
    ensures NetworkIds(rows, seedIds) == {f}
  {
  }

  /** A matching row of a settled identity is keyed by its primary. */
  lemma MatchKey(rows: map<nat, Contact>, email: Field, phone: Field, f: nat, ids: set<nat>, k: nat)
    requires WellLinked(rows) && Settled(rows, email, phone, f, ids)
    requires Matching(rows, email, phone, k) && rows[k].id == k
    ensures Live(rows[k]) && EffectiveKey(rows[k]) == f
  {
    assert InNetwork(rows, f, k);
    assert LinkOk(rows, rows[k]);
  }

  /** Row `c` already records the submission: it holds every identifier that was given. */
  predicate Records(c: Contact, email: Field, phone: Field)
  {
    (Given(email) ==> c.email == email) && (Given(phone) ==> c.phone == phone)
  }

  /**
   * In a well-linked table, a submission that a live stored row already
   * records inserts nothing.
   */
  lemma RecordedNotReinserted(rows: map<nat, Contact>, bound: nat, clock: nat, email: Field, phone: Field, k: nat)
    requires Table(rows, bound) && WellLinked(rows) && (Given(email) || Given(phone))
    requires k in rows && Live(rows[k]) && Records(rows[k], email, phone)
    ensures bound !in Resolve(rows, bound, clock, email, phone).rows
  {
    var found := FindByEmailOrPhone(rows, bound, email, phone);
    FoundContacts(rows, bound, email, phone);
    assert rows[k] in found;
    SeedsAreLinked(rows, bound, email, phone);
    LinkedRows(rows, bound, Ids(found));
    CreationRule(rows, bound, clock, email, phone);
    SettledNetwork(rows, bound, email, phone);
    var d := Decide(rows, bound, email, phone);
    var b :| b in d.base && b.id == k;
    assert b == rows[k];
  }

  /**
   * Submitting the same identifiers again, on the table the first call
   * committed, settles on the same primary and the same contacts; the only
   * possible difference is one inserted row.
   */
  lemma RepeatKeepsIdentity(rows: map<nat, Contact>, bound: nat, clock: nat, email: Field, phone: Field)
    requires Table(rows, bound) && 0 < bound && Before(rows, clock) && WellLinked(rows)
    requires Given(email) || Given(phone)
    ensures var first := Resolve(rows, bound, clock, email, phone);
      Table(first.rows, if bound in first.rows then bound + 1 else bound)
    ensures var first := Resolve(rows, bound, clock, email, phone);
      var created := bound in first.rows;
      var second := Resolve(first.rows, if created then bound + 1 else bound, if created then clock + 1 else clock, email, phone);
      var next := if created then bound + 1 else bound;
      && second.primary.id == first.primary.id
      && IdSet(second.members) == IdSet(first.members) + (if next in second.rows then {next} else {})
  {
    var first := Resolve(rows, bound, clock, email, phone);
    var created := bound in first.rows;
    ResolveKeepsTable(rows, bound, clock, email, phone);
    ConsolidationKeepsWellLinked(rows, bound, clock, email, phone);
    CallSettles(rows, bound, clock, email, phone);
    SettledRepeat(first.rows, if created then bound + 1 else bound, if created then clock + 1 else clock,
                  email, phone, first.primary.id, IdSet(first.members));
  }

  /**
   * A repeat of a call that inserted a row inserts nothing, and returns the
   * same primary and the same contacts.
   */
  lemma RepeatAfterInsert(rows: map<nat, Contact>, bound: nat, clock: nat, email: Field, phone: Field)
    requires Table(rows, bound) && 0 < bound && Before(rows, clock) && WellLinked(rows)
    requires Given(email) || Given(phone)
    requires bound in Resolve(rows, bound, clock, email, phone).rows
    ensures Table(Resolve(rows, bound, clock, email, phone).rows, bound + 1)
    ensures var first := Resolve(rows, bound, clock, email, phone);
      var second := Resolve(first.rows, bound + 1, clock + 1, email, phone);
      && second.rows.Keys == first.rows.Keys
      && second.primary.id == first.primary.id
      && IdSet(second.members) == IdSet(first.members)
  {
    RepeatKeepsIdentity(rows, bound, clock, email, phone);
    RepeatInsertsNothing(rows, bound, clock, email, phone);
  }

  /** The second call finds the row the first inserted, so it takes no new id. */
  lemma RepeatInsertsNothing(rows: map<nat, Contact>, bound: nat, clock: nat, email: Field, phone: Field)
    requires Table(rows, bound) && 0 < bound && Before(rows, clock) && WellLinked(rows)
    requires Given(email) || Given(phone)
    requires bound in Resolve(rows, bound, clock, email, phone).rows
    ensures Table(Resolve(rows, bound, clock, email, phone).rows, bound + 1)
    ensures var first := Resolve(rows, bound, clock, email, phone);
      Resolve(first.rows, bound + 1, clock + 1, email, phone).rows.Keys == first.rows.Keys
  {
    var first := Resolve(rows, bound, clock, email, phone);
    ResolveKeepsTable(rows, bound, clock, email, phone);
    ConsolidationKeepsWellLinked(rows, bound, clock, email, phone);
    InsertedRowRecords(rows, bound, clock, email, phone);
    RecordedNotReinserted(first.rows, bound + 1, clock + 1, email, phone, bound);
    NothingInserted(first.rows, bound + 1, clock + 1, email, phone);
  }

  /** The row a call inserts is live and records the submission. */
  lemma InsertedRowRecords(rows: map<nat, Contact>, bound: nat, clock: nat, email: Field, phone: Field)
    requires Table(rows, bound)
    requires bound in Resolve(rows, bound, clock, email, phone).rows
    ensures var inserted := Resolve(rows, bound, clock, email, phone).rows[bound];
      Live(inserted) && Records(inserted, email, phone)
  {
    AtMostOneRecordCreated(rows, bound, clock, email, phone);
  }

  /** A call that does not take the next id keeps the table's keys. */
  lemma NothingInserted(rows: map<nat, Contact>, bound: nat, clock: nat, email: Field, phone: Field)
    requires Table(rows, bound)
    requires bound !in Resolve(rows, bound, clock, email, phone).rows
    ensures Resolve(rows, bound, clock, email, phone).rows.Keys == rows.Keys
  {
    AtMostOneRecordCreated(rows, bound, clock, email, phone);
  }

  /**
   * A merge does not always settle the submission. Two live primaries, one
   * holding the submitted email and the other the submitted phone: the first
   * call merges them and inserts nothing, and the same submission repeated
   * then inserts a secondary, because no member holds that exact pair.
   */
  lemma RepeatAfterMergeInserts(p1: Contact, p2: Contact, rows: map<nat, Contact>, merged: map<nat, Contact>)
    requires p1 == Contact(1, Some("p1"), Some("e1"), None, Primary, 0, None)
    requires p2 == Contact(2, Some("p2"), Some("e2"), None, Primary, 1, None)
    requires rows == map[1 := p1, 2 := p2] && merged == map[1 := p1, 2 := Link(p2, 1)]
    ensures Table(rows, 3) && WellLinked(rows) && Table(merged, 3)
    ensures Resolve(rows, 3, 2, Some("e1"), Some("p2")).rows == merged
    ensures 3 in Resolve(merged, 3, 2, Some("e1"), Some("p2")).rows
  {
    ExampleMerges(p1, p2, rows);
    ExampleRepeatInserts(p1, Link(p2, 1), merged);
  }

  /** The first call of that example merges the two primaries under the older one. */
  lemma ExampleMerges(p1: Contact, p2: Contact, rows: map<nat, Contact>)
    requires p1 == Contact(1, Some("p1"), Some("e1"), None, Primary, 0, None)
    requires p2 == Contact(2, Some("p2"), Some("e2"), None, Primary, 1, None)
    requires rows == map[1 := p1, 2 := p2]
    ensures Table(rows, 3) && WellLinked(rows)
    ensures Resolve(rows, 3, 2, Some("e1"), Some("p2")).rows == map[1 := p1, 2 := Link(p2, 1)]
  {
    assert LivePrimary(rows, 1) && LivePrimary(rows, 2);
    TwoPrimariesMerge(rows, 3, 2, Some("e1"), Some("p2"), p1, p2);
  }

  /** The repeated call of that example inserts a secondary. */
  lemma ExampleRepeatInserts(p1: Contact, q2: Contact, rows: map<nat, Contact>)
    requires p1 == Contact(1, Some("p1"), Some("e1"), None, Primary, 0, None)
    requires q2 == Contact(2, Some("p2"), Some("e2"), Some(1), Secondary, 1, None)
    requires rows == map[1 := p1, 2 := q2]
    ensures Table(rows, 3) && 3 in Resolve(rows, 3, 2, Some("e1"), Some("p2")).rows
  {
    assert Table(rows, 3) && WellLinked(rows);
    SingleNetworkInserts(rows, 3, 2, Some("e1"), Some("p2"), 1, 1);
  }

  /**
   * Two live primaries that are the whole table, one matching the
   * submission's email and the other its phone: the call keeps the older
   * and makes the newer its secondary, and inserts nothing.
   */
  lemma TwoPrimariesMerge(rows: map<nat, Contact>, bound: nat, clock: nat, email: Field, phone: Field, a: Contact, b: Contact)
    requires Table(rows, bound) && rows.Keys == {a.id, b.id} && RowOf(rows, a) && RowOf(rows, b)
    requires a.id != b.id && a.createdAt < b.createdAt
    requires LivePrimary(rows, a.id) && LivePrimary(rows, b.id)
    requires Selects(EmailOrPhone(email, phone), a) && Selects(EmailOrPhone(email, phone), b)
    ensures Resolve(rows, bound, clock, email, phone).rows == map[a.id := a, b.id := Link(b, a.id)]
  {
    BothResolve(rows, bound, email, phone, a, b);
    DistinctPair(PrimariesOf(rows, bound, email, phone), a, b);
    TwoPrimariesOutcome(rows, bound, clock, email, phone, a, b);
  }

  /** Two matching live primaries each resolve their own network. */
  lemma BothResolve(rows: map<nat, Contact>, bound: nat, email: Field, phone: Field, a: Contact, b: Contact)
    requires Table(rows, bound) && RowOf(rows, a) && RowOf(rows, b)
    requires LivePrimary(rows, a.id) && LivePrimary(rows, b.id)
    requires Selects(EmailOrPhone(email, phone), a) && Selects(EmailOrPhone(email, phone), b)
    ensures var ps := PrimariesOf(rows, bound, email, phone);
      a in ps && b in ps
  {
    var found := FindByEmailOrPhone(rows, bound, email, phone);
    FoundContacts(rows, bound, email, phone);
    SeedsAreLinked(rows, bound, email, phone);
    var linked := LinkedOf(rows, bound, email, phone);
    assert a in linked && b in linked;
    LinkedRows(rows, bound, Ids(found));
    assert forall c, d :: c in linked && d in linked && c.id == d.id ==> c == d;
    ResolvesItself(linked, a);
    ResolvesItself(linked, b);
  }

  /** A linked primary is its own group key, and the only linked row with its id. */
  lemma ResolvesItself(linked: seq<Contact>, p: Contact)
    requires p in linked && p.precedence == Primary
    requires forall c, d :: c in linked && d in linked && c.id == d.id ==> c == d
    ensures p in ResolvedPrimaries(linked, NetworkKeys(linked))
  {
    var keys := NetworkKeys(linked);
    assert p.id in keys;
    assert p.id in IdSet(linked);
    var x :| x in ResolvedPrimaries(linked, keys) && x.id == p.id;
  }

  /** A list holding two different contacts has more than one element. */
  lemma DistinctPair(s: seq<Contact>, a: Contact, b: Contact)
    requires a in s && b in s && a != b
    ensures |s| > 1
  {
  }

  /** The committed table of that merge: the older primary kept, the newer linked to it. */
  lemma TwoPrimariesOutcome(rows: map<nat, Contact>, bound: nat, clock: nat, email: Field, phone: Field, a: Contact, b: Contact)
    requires Table(rows, bound) && rows.Keys == {a.id, b.id} && RowOf(rows, a) && RowOf(rows, b)
    requires a.id != b.id && a.createdAt < b.createdAt && a.precedence == Primary
    requires var ps := PrimariesOf(rows, bound, email, phone);
      |ps| > 1 && a in ps && b in ps
    ensures Resolve(rows, bound, clock, email, phone).rows == map[a.id := a, b.id := Link(b, a.id)]
  {
    var out := Resolve(rows, bound, clock, email, phone);
    var ps := PrimariesOf(rows, bound, email, phone);
    var found := FindByEmailOrPhone(rows, bound, email, phone);
    MergeKeepsOldestPrimary(rows, bound, clock, email, phone);
    LinkedRows(rows, bound, Ids(found));
    assert out.primary.createdAt <= a.createdAt;
    assert out.primary.id in rows.Keys;
    assert out.primary == a;
    assert out.rows.Keys == {a.id, b.id} && out.rows[b.id] == Link(b, a.id);
    ResolvedShape(rows, bound, clock, email, phone);
    assert out.rows[a.id] == a;
    TwoEntries(out.rows, a.id, b.id);
  }

  /** A map with exactly two keys is the display of its two entries. */
  lemma TwoEntries(m: map<nat, Contact>, i: nat, j: nat)
    requires m.Keys == {i, j}
    ensures m == map[i := m[i], j := m[j]]
  {
  }

  /**
   * A table that is one network, where some row matches the submission of
   * both identifiers but no row holds that exact pair: the call inserts a
   * secondary.
   */
  lemma SingleNetworkInserts(rows: map<nat, Contact>, bound: nat, clock: nat, email: Field, phone: Field, f: nat, m: nat)
    requires Table(rows, bound) && WellLinked(rows) && Given(email) && Given(phone)
    requires forall k :: k in rows ==> EffectiveKey(rows[k]) == f
    requires forall k :: k in rows ==> !(rows[k].email == email && rows[k].phone == phone)
    requires m in rows && Selects(EmailOrPhone(email, phone), rows[m])
    ensures bound in Resolve(rows, bound, clock, email, phone).rows
  {
    var found := FindByEmailOrPhone(rows, bound, email, phone);
    FoundContacts(rows, bound, email, phone);
    assert rows[m] in found;
    var linked := LinkedOf(rows, bound, email, phone);
    LinkedRows(rows, bound, Ids(found));
    OneNetwork(linked, f);
    SettledNetwork(rows, bound, email, phone);
    CreationRule(rows, bound, clock, email, phone);
  }

  /** Linked rows that all share one group key resolve at most one primary. */
  lemma OneNetwork(linked: seq<Contact>, f: nat)
    requires forall c :: c in linked ==> EffectiveKey(c) == f
    ensures |ResolvedPrimaries(linked, NetworkKeys(linked))| <= 1
  {
    var ks := KeysOf(linked);
    DistinctLength(ks);
    var values := set k | k in ks;
    assert values <= {f};
    assert values == {} || values == {f};
  }
}
