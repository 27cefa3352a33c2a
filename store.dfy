/**
 * The `Contact` model over its table: the two writes (`createContact`,
 * `updateLinkPrecedence`) and `consolidateContacts`, with the loops the
 * resolver runs over the rows it fetched.
 */
module ContactStore {
  import opened Contacts
  import opened Queries
  import opened Networks
  import opened Resolution

  /**
   * Every fetched copy of record `x` made a secondary of `f`: the rows are
   * shared objects, so writing through one list is seen through the others.
   */
  function RelinkId(s: seq<Contact>, x: nat, f: nat): (r: seq<Contact>)
    ensures |r| == |s|
    ensures forall i :: 0 <= i < |s| ==> r[i] == if s[i].id == x then Link(s[i], f) else s[i]
  {
    seq(|s|, i requires 0 <= i < |s| => if s[i].id == x then Link(s[i], f) else s[i])
  }

  /** `orig` with the members whose ids are in `done`, except `f`, made secondaries of `f`. */
  ghost function RelinkedIn(orig: seq<Contact>, f: nat, done: set<nat>): seq<Contact>
  {
    seq(|orig|, i requires 0 <= i < |orig| => if orig[i].id != f && orig[i].id in done then Link(orig[i], f) else orig[i])
  }

  class Store {
    /** The `contacts` table, by id. */
    var rows: map<nat, Contact>
    /** The next value of the `id` SERIAL. */
    var nextId: nat
    /** The next `created_at`: a clock that never stands still. */
    var clock: nat

    ghost predicate Valid()
      reads this
    {
      && 0 < nextId
      && Table(rows, nextId)
      && forall k :: k in rows ==> rows[k].createdAt < clock
    }

    /** An empty table whose SERIAL starts at 1. */
    constructor()
      ensures Valid()
      ensures rows == map[] && nextId == 1
    {
      rows, nextId, clock := map[], 1, 0;
    }

    /**
     * `createContact`: inserts a row with the next id and the current time,
     * empty identifiers stored as null. A `linked_id` must name a stored row
     * (the column's foreign key).
     */
    method CreateContact(email: Field, phone: Field, linkedId: Option<nat> := None, precedence: Precedence := Primary)
      returns (c: Contact)
      requires Valid()
      requires linkedId.Some? ==> linkedId.value in rows
      modifies this
      ensures Valid()
      ensures c == NewContact(old(nextId), old(clock), email, phone, linkedId, precedence)
      ensures c.id !in old(rows) && rows == old(rows)[c.id := c]
      ensures nextId == old(nextId) + 1 && clock == old(clock) + 1
    {
      c := NewContact(nextId, clock, email, phone, linkedId, precedence);
      rows := rows[nextId := c];
      nextId := nextId + 1;
      clock := clock + 1;
    }

    /**
     * `updateLinkPrecedence`: sets the precedence and, unless `linkedId` is
     * null, the link; an unknown id is the base model's not-found error. A new
     * `linked_id` must name a stored row (the column's foreign key).
     */
    method UpdateLinkPrecedence(id: nat, precedence: Precedence, linkedId: Option<nat> := None)
      returns (r: Result<Contact>)
      requires Valid()
      requires linkedId.Some? ==> linkedId.value in rows
      modifies this
      ensures Valid()
      ensures nextId == old(nextId) && clock == old(clock)
      ensures id !in old(rows) ==> r == Err(NotFound) && rows == old(rows)
      ensures id in old(rows) ==>
        var row := old(rows)[id];
        var updated := row.(precedence := precedence, linkedId := if linkedId.Some? then linkedId else row.linkedId);
        r == Ok(updated) && rows == old(rows)[id := updated]
    {
      if id !in rows {
        return Err(NotFound);
      }
      var row := rows[id];
      var updated := row.(precedence := precedence, linkedId := if linkedId.Some? then linkedId else row.linkedId);
      rows := rows[id := updated];
      r := Ok(updated);
    }

    /**
     * The state of the write phase: the table is `base0` with the rows in
     * `done` linked to `f`, and the member list is `orig` with the same
     * members linked.
     */
    ghost predicate Mirrors(base0: map<nat, Contact>, orig: seq<Contact>, f: nat, done: set<nat>, all: seq<Contact>)
      reads this
    {
      && Valid()
      && f in base0
      && done <= IdSet(orig)
      && (forall c :: c in orig && c.id != f ==> RowOf(base0, c))
      && rows == RelinkRows(base0, f, done)
      && all == RelinkedIn(orig, f, done)
    }

    /** `Contact.js` lines 178-184: every other resolved primary becomes a secondary of `f`. */
    method DemoteOtherPrimaries(primaries: seq<Contact>, f: nat, ghost base0: map<nat, Contact>, ghost orig: seq<Contact>,
                                all0: seq<Contact>, ghost done0: set<nat>)
      returns (all: seq<Contact>, ghost done: set<nat>)
      requires Mirrors(base0, orig, f, done0, all0)
      requires forall p :: p in primaries ==> p.id in IdSet(orig)
      modifies this
      ensures Mirrors(base0, orig, f, done, all)
      ensures done0 <= done
      ensures forall p :: p in primaries && p.id != f ==> p.id in done
      ensures nextId == old(nextId) && clock == old(clock)
    {
      all, done := all0, done0;
      var i := 0;
      while i < |primaries|
        invariant 0 <= i <= |primaries|
        invariant Mirrors(base0, orig, f, done, all)
        invariant done0 <= done
        invariant forall j :: 0 <= j < i && primaries[j].id != f ==> primaries[j].id in done
        invariant nextId == old(nextId) && clock == old(clock)
      {
        var p := primaries[i];
        if p.id != f {
          assert p in primaries;
          all, done := LinkMember(p.id, f, base0, orig, all, done);
        }
        i := i + 1;
      }
    }

    /** `Contact.js` lines 187-193: every member not yet pointing at `f` is linked to it. */
    method RelinkStale(f: nat, ghost base0: map<nat, Contact>, ghost orig: seq<Contact>,
                       all0: seq<Contact>, ghost done0: set<nat>)
      returns (all: seq<Contact>, ghost done: set<nat>)
      requires Mirrors(base0, orig, f, done0, all0)
      modifies this
      ensures Mirrors(base0, orig, f, done, all)
      ensures done0 <= done
      ensures forall c :: c in all ==> c.id == f || c.linkedId == Some(f)
      ensures nextId == old(nextId) && clock == old(clock)
    {
      all, done := all0, done0;
      var i := 0;
      while i < |all|
        invariant 0 <= i <= |all| == |orig|
        invariant Mirrors(base0, orig, f, done, all)
        invariant done0 <= done
        invariant forall j :: 0 <= j < i ==> all[j].id == f || all[j].linkedId == Some(f)
        invariant nextId == old(nextId) && clock == old(clock)
      {
        var contact := all[i];
        if contact.id != f && contact.linkedId != Some(f) {
          all, done := LinkMember(contact.id, f, base0, orig, all, done);
        }
        i := i + 1;
      }
    }

    /** `Contact.js` lines 257-264: the final pass makes every member other than `f` a secondary of `f`. */
    method RepairLinks(f: nat, ghost base0: map<nat, Contact>, ghost orig: seq<Contact>,
                       all0: seq<Contact>, ghost done0: set<nat>)
      returns (all: seq<Contact>, ghost done: set<nat>)
      requires Mirrors(base0, orig, f, done0, all0)
      modifies this
      ensures Mirrors(base0, orig, f, done, all)
      ensures forall c :: c in orig && c.id != f ==> c.id in done
      ensures nextId == old(nextId) && clock == old(clock)
    {
      all, done := all0, done0;
      var i := 0;
      while i < |all|
        invariant 0 <= i <= |all| == |orig|
        invariant Mirrors(base0, orig, f, done, all)
        invariant forall j :: 0 <= j < i && orig[j].id != f ==> orig[j].id in done
        invariant nextId == old(nextId) && clock == old(clock)
      {
        var contact := all[i];
        if contact.id != f && !LinkedTo(contact, f) {
          all, done := LinkMember(contact.id, f, base0, orig, all, done);
        } else if contact.id != f {
          AlreadyLinked(base0, orig, f, done, i);
          done := done + {contact.id};
        }
        i := i + 1;
      }
    }

    /** One `updateLinkPrecedence(x, 'secondary', f)` and the matching update of the fetched copy. */
    method LinkMember(x: nat, f: nat, ghost base0: map<nat, Contact>, ghost orig: seq<Contact>,
                      all0: seq<Contact>, ghost done0: set<nat>)
      returns (all: seq<Contact>, ghost done: set<nat>)
      requires Mirrors(base0, orig, f, done0, all0)
      requires x != f && x in IdSet(orig)
      modifies this
      ensures Mirrors(base0, orig, f, done, all)
      ensures done == done0 + {x}
      ensures all == RelinkId(all0, x, f)
      ensures nextId == old(nextId) && clock == old(clock)
    {
      LinkStep(base0, orig, f, done0, x);
      var r := UpdateLinkPrecedence(x, Secondary, Some(f));
      assert r.Ok?;
      all, done := RelinkId(all0, x, f), done0 + {x};
    }

    /**
     * `consolidateContacts(email, phone)`: the primary of the submitted
     * identity and every contact of its network, after the table has been
     * brought to that shape.
     */
    method Consolidate(email: Field, phone: Field) returns (primary: Contact, members: seq<Contact>)
      requires Valid()
      modifies this
      ensures Valid()
      ensures Outcome(rows, primary, members) == Resolve(old(rows), old(nextId), old(clock), email, phone)
      ensures old(nextId) in rows ==> nextId == old(nextId) + 1 && clock == old(clock) + 1
      ensures old(nextId) !in rows ==> nextId == old(nextId) && clock == old(clock)
    {
      var found := FindByEmailOrPhone(rows, nextId, email, phone);
      if |found| == 0 {
        var c := CreateContact(email, phone, None, Primary);
        return c, [c];
      }
      var all: seq<Contact>;
      var created: bool;
      ghost var base0: map<nat, Contact>, orig: seq<Contact>, done: set<nat>;
      primary, all, created, base0, orig, done := Settle(email, phone, found);
      all, done := RepairLinks(primary.id, base0, orig, all, done);
      FinishRelinking(base0, orig, primary.id, done);
      members := all;
    }

    /**
     * `Contact.js` lines 130-254: fetch the networks, settle the final primary (merging,
     * taking the single one, or promoting the oldest row) and add the new
     * secondary when the submission brings new information.
     */
    method Settle(email: Field, phone: Field, found: seq<Contact>)
      returns (primary: Contact, all: seq<Contact>, created: bool,
               ghost base0: map<nat, Contact>, ghost orig: seq<Contact>, ghost done: set<nat>)
      requires Valid()
      requires found == FindByEmailOrPhone(rows, nextId, email, phone) && |found| > 0
      modifies this
      ensures var d := Decide(old(rows), old(nextId), email, phone);
        && d.Resolved? && d.primary == primary && d.create == created
        && orig == (if created then d.base + [NewContact(old(nextId), old(clock), email, phone, Some(primary.id), Secondary)] else d.base)
        && primary.id in old(rows)
        && base0 == Staged(old(rows), old(nextId), old(clock), email, phone, primary, created)
      ensures Mirrors(base0, orig, primary.id, done, all)
      ensures created ==> nextId == old(nextId) + 1 && clock == old(clock) + 1
      ensures !created ==> nextId == old(nextId) && clock == old(clock)
    {
      ghost var d := Decide(rows, nextId, email, phone);
      var linked := FindLinkedContacts(rows, nextId, Ids(found));
      LinkedRows(rows, nextId, Ids(found));
      forall c | c in linked
        ensures GroupKey(c) == EffectiveKey(c)
      {
        StoredKey(rows, nextId, c);
      }
      var keys, groups := GroupByPrimary(linked);
      var primaries := ResolvedPrimaries(linked, keys);
      if |primaries| > 1 {
        primary, all, base0, orig, done := MergeNetworks(linked, keys, groups, primaries);
        created := false;
        assert d == Resolved(Merge, primary, orig, false);
        StagedUnchanged(base0, nextId, clock, email, phone, primary, false);
      } else {
        primary, all, created, base0, orig, done := SettleOne(email, phone, found, linked, keys, groups, primaries);
      }
    }

    /** `Contact.js` lines 186-254 when at most one group key resolves to a fetched row. */
    method SettleOne(email: Field, phone: Field, ghost found: seq<Contact>, linked: seq<Contact>, keys: seq<nat>,
                     groups: map<nat, seq<Contact>>, primaries: seq<Contact>)
      returns (primary: Contact, all: seq<Contact>, created: bool,
               ghost base0: map<nat, Contact>, ghost orig: seq<Contact>, ghost done: set<nat>)
      requires Valid()
      requires found == FindByEmailOrPhone(rows, nextId, email, phone) && |found| > 0
      requires linked == FindLinkedContacts(rows, nextId, Ids(found))
      requires keys == NetworkKeys(linked)
      requires forall k :: k in keys ==> k in groups && groups[k] == Group(linked, k)
      requires primaries == ResolvedPrimaries(linked, keys) && |primaries| <= 1
      modifies this
      ensures var d := Decide(old(rows), old(nextId), email, phone);
        && d.Resolved? && d.primary == primary && d.create == created
        && orig == (if created then d.base + [NewContact(old(nextId), old(clock), email, phone, Some(primary.id), Secondary)] else d.base)
        && primary.id in old(rows)
        && base0 == Staged(old(rows), old(nextId), old(clock), email, phone, primary, created)
      ensures Mirrors(base0, orig, primary.id, done, all)
      ensures created ==> nextId == old(nextId) + 1 && clock == old(clock) + 1
      ensures !created ==> nextId == old(nextId) && clock == old(clock)
    {
      primary, all := ChoosePrimary(email, phone, found, linked, keys, groups, primaries);
      AddSecondary(old(rows), old(nextId), old(clock), email, phone, primary, ShouldCreate(all, email, phone));
      all, created, base0, orig, done := AddIfNew(email, phone, primary, all);
    }

    /** `Contact.js` lines 186-208 when at most one group key resolves to a fetched row. */
    method ChoosePrimary(email: Field, phone: Field, ghost found: seq<Contact>, linked: seq<Contact>, keys: seq<nat>,
                         groups: map<nat, seq<Contact>>, primaries: seq<Contact>)
      returns (primary: Contact, all: seq<Contact>)
      requires Valid()
      requires found == FindByEmailOrPhone(rows, nextId, email, phone) && |found| > 0
      requires linked == FindLinkedContacts(rows, nextId, Ids(found))
      requires keys == NetworkKeys(linked)
      requires forall k :: k in keys ==> k in groups && groups[k] == Group(linked, k)
      requires primaries == ResolvedPrimaries(linked, keys) && |primaries| <= 1
      modifies this
      ensures var d := Decide(old(rows), old(nextId), email, phone);
        d.Resolved? && d.primary == primary && d.base == all && d.create == ShouldCreate(all, email, phone)
      ensures primary.id in old(rows)
      ensures rows == old(rows)[primary.id := old(rows)[primary.id].(precedence := primary.precedence)]
      ensures forall c :: c in all && c.id != primary.id ==> RowOf(rows, c)
      ensures Valid() && nextId == old(nextId) && clock == old(clock)
    {
      LinkedRows(rows, nextId, Ids(found));
      if |primaries| == 1 {
        primary := primaries[0];
        all := groups[keys[0]];
        SingleDecision(rows, nextId, email, phone);
      } else {
        LinkedNotEmpty(rows, nextId, email, phone);
        primary, all := PromoteOldest(linked);
        DecideOrphans(old(rows), nextId, email, phone);
      }
    }

    /**
     * `Contact.js` lines 213-254 outside a merge: a new secondary of `primary` is inserted
     * when the submission brings new information to the network.
     */
    method AddIfNew(email: Field, phone: Field, primary: Contact, all0: seq<Contact>)
      returns (all: seq<Contact>, created: bool,
               ghost base0: map<nat, Contact>, ghost orig: seq<Contact>, ghost done: set<nat>)
      requires Valid()
      requires primary.id in rows
      requires forall c :: c in all0 && c.id != primary.id ==> RowOf(rows, c)
      modifies this
      ensures created == ShouldCreate(all0, email, phone)
      ensures var n := NewContact(old(nextId), old(clock), email, phone, Some(primary.id), Secondary);
        && orig == (if created then all0 + [n] else all0)
        && base0 == (if created then old(rows)[old(nextId) := n] else old(rows))
      ensures Mirrors(base0, orig, primary.id, done, all)
      ensures created ==> nextId == old(nextId) + 1 && clock == old(clock) + 1
      ensures !created ==> nextId == old(nextId) && clock == old(clock)
    {
      all := all0;
      created := ShouldCreate(all, email, phone);
      if created {
        var c := CreateContact(email, phone, Some(primary.id), Secondary);
        all := all + [c];
      }
      base0, orig, done := rows, all, {};
      StartRelinking(base0, orig, primary.id);
    }

    /**
     * `Contact.js` lines 163-185: the oldest resolved primary stays, the networks are
     * concatenated, the other primaries are demoted and every member not yet
     * pointing at the survivor is linked to it.
     */
    method MergeNetworks(linked: seq<Contact>, keys: seq<nat>, groups: map<nat, seq<Contact>>, primaries: seq<Contact>)
      returns (primary: Contact, all: seq<Contact>,
               ghost base0: map<nat, Contact>, ghost orig: seq<Contact>, ghost done: set<nat>)
      requires Valid()
      requires forall c :: c in linked ==> RowOf(rows, c)
      requires keys == NetworkKeys(linked)
      requires forall k :: k in keys ==> k in groups && groups[k] == Group(linked, k)
      requires primaries == ResolvedPrimaries(linked, keys) && |primaries| > 1
      modifies this
      ensures primary == Oldest(primaries) && orig == Flatten(linked, keys) && base0 == old(rows)
      ensures Mirrors(base0, orig, primary.id, done, all)
      ensures nextId == old(nextId) && clock == old(clock)
    {
      primary := Oldest(primaries);
      all := CollectNetworks(linked, keys, groups);
      base0, orig, done := rows, all, {};
      MergeMembers(linked, primaries);
      FlattenIsPermutation(linked);
      forall c | c in orig && c.id != primary.id
        ensures RowOf(base0, c)
      {
        assert c in multiset(linked);
      }
      StartRelinking(base0, orig, primary.id);
      all, done := DemoteOtherPrimaries(primaries, primary.id, base0, orig, all, done);
      all, done := RelinkStale(primary.id, base0, orig, all, done);
    }

    /**
     * `Contact.js` lines 197-208: no group key resolves to a fetched row, so the oldest
     * row becomes the primary; its stored `linked_id` is left as it was.
     */
    method PromoteOldest(linked: seq<Contact>) returns (primary: Contact, all: seq<Contact>)
      requires Valid()
      requires |linked| > 0 && forall c :: c in linked ==> RowOf(rows, c)
      modifies this
      ensures primary == if linked[0].precedence != Primary then linked[0].(precedence := Primary, linkedId := None) else linked[0]
      ensures all == linked[0 := primary]
      ensures primary.id == linked[0].id && primary.id in old(rows)
      ensures rows == old(rows)[primary.id := old(rows)[primary.id].(precedence := Primary)]
      ensures forall c :: c in all && c.id != primary.id ==> RowOf(rows, c)
      ensures Valid() && nextId == old(nextId) && clock == old(clock)
    {
      assert linked[0] in linked;
      all := linked;
      primary := all[0];
      if primary.precedence != Primary {
        var r := UpdateLinkPrecedence(primary.id, Primary, None);
        assert r.Ok?;
        primary := primary.(precedence := Primary, linkedId := None);
      }
      all := all[0 := primary];
      forall c | c in all && c.id != primary.id
        ensures RowOf(rows, c)
      {
        var i :| 0 <= i < |all| && all[i] == c;
        assert c == linked[i] && linked[i] in linked;
        assert RowOf(old(rows), c);
      }
    }
  }

  /** With one resolved primary, that primary is a stored row and the first group is the base. */
  lemma SingleDecision(rows: map<nat, Contact>, bound: nat, email: Field, phone: Field)
    requires Table(rows, bound)
    requires var found := FindByEmailOrPhone(rows, bound, email, phone);
      var linked := FindLinkedContacts(rows, bound, Ids(found));
      |found| > 0 && |ResolvedPrimaries(linked, NetworkKeys(linked))| == 1
    ensures var found := FindByEmailOrPhone(rows, bound, email, phone);
      var linked := FindLinkedContacts(rows, bound, Ids(found));
      var keys := NetworkKeys(linked);
      var primary := ResolvedPrimaries(linked, keys)[0];
      var base := Group(linked, keys[0]);
      && Decide(rows, bound, email, phone) == Resolved(Single, primary, base, ShouldCreate(base, email, phone))
      && RowOf(rows, primary)
      && rows == rows[primary.id := rows[primary.id].(precedence := primary.precedence)]
      && forall c :: c in base ==> RowOf(rows, c)
  {
    var found := FindByEmailOrPhone(rows, bound, email, phone);
    var linked := FindLinkedContacts(rows, bound, Ids(found));
    var primary := ResolvedPrimaries(linked, NetworkKeys(linked))[0];
    LinkedRows(rows, bound, Ids(found));
    DecideSingle(rows, bound, email, phone);
    assert RowOf(rows, primary);
  }

  /** The demoted primaries are among the merged members. */
  lemma MergeMembers(linked: seq<Contact>, primaries: seq<Contact>)
    requires forall p :: p in primaries ==> p in linked
    ensures forall p :: p in primaries ==> p.id in IdSet(Flatten(linked, NetworkKeys(linked)))
  {
    FlattenIsPermutation(linked);
    forall p | p in primaries
      ensures p.id in IdSet(Flatten(linked, NetworkKeys(linked)))
    {
      assert p in multiset(Flatten(linked, NetworkKeys(linked)));
    }
  }

  /** Writing `f` into member `x`, in the table and in the fetched copies, adds `x` to `done`. */
  lemma LinkStep(base0: map<nat, Contact>, orig: seq<Contact>, f: nat, done: set<nat>, x: nat)
    requires x != f && x in IdSet(orig)
    requires forall c :: c in orig && c.id != f ==> RowOf(base0, c)
    ensures x in base0
    ensures var r := RelinkRows(base0, f, done); r[x := Link(r[x], f)] == RelinkRows(base0, f, done + {x})
    ensures RelinkId(RelinkedIn(orig, f, done), x, f) == RelinkedIn(orig, f, done + {x})
  {
    var c :| c in orig && c.id == x;
    assert RowOf(base0, c);
  }

  /** A member already linked to `f` needs no write: counting it as done changes nothing. */
  lemma AlreadyLinked(base0: map<nat, Contact>, orig: seq<Contact>, f: nat, done: set<nat>, i: nat)
    requires i < |orig| && orig[i].id != f
    requires forall c :: c in orig && c.id != f ==> RowOf(base0, c)
    requires LinkedTo(RelinkedIn(orig, f, done)[i], f)
    ensures RelinkRows(base0, f, done + {orig[i].id}) == RelinkRows(base0, f, done)
    ensures RelinkedIn(orig, f, done + {orig[i].id}) == RelinkedIn(orig, f, done)
  {
    var x := orig[i].id;
    assert RowOf(base0, orig[i]);
    if x !in done {
      assert Link(orig[i], f) == orig[i];
      forall j | 0 <= j < |orig| && orig[j].id == x
        ensures orig[j] == orig[i]
      {
        assert RowOf(base0, orig[j]);
      }
    }
  }

  /** Before the first write nothing is relinked. */
  lemma StartRelinking(base0: map<nat, Contact>, orig: seq<Contact>, f: nat)
    ensures RelinkRows(base0, f, {}) == base0
    ensures RelinkedIn(orig, f, {}) == orig
  {
  }

  /** Once every member other than `f` is done, the table and the list are fully relinked. */
  lemma FinishRelinking(base0: map<nat, Contact>, orig: seq<Contact>, f: nat, done: set<nat>)
    requires done <= IdSet(orig)
    requires forall c :: c in orig && c.id != f ==> c.id in done
    ensures RelinkRows(base0, f, done) == RelinkRows(base0, f, IdSet(orig))
    ensures RelinkedIn(orig, f, done) == Relinked(orig, f)
  {
    forall i | 0 <= i < |orig|
      ensures RelinkedIn(orig, f, done)[i] == Relinked(orig, f)[i]
    {
      assert orig[i] in orig;
    }
  }
}
