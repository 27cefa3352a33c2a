/**
 * Grouping the linked rows into networks and the pure decisions the
 * resolver takes on them: which group keys resolve to a record, which of
 * those is oldest, and whether a submission brings new information.
 */
module Networks {
  import opened Contacts
  import opened Seqs

  /** The group key of each row, in row order. */
  function KeysOf(rows: seq<Contact>): (ks: seq<nat>)
    ensures |ks| == |rows|
    ensures forall i :: 0 <= i < |rows| ==> ks[i] == EffectiveKey(rows[i])
  {
    seq(|rows|, i requires 0 <= i < |rows| => EffectiveKey(rows[i]))
  }

  /** The keys of the `networks` Map, in insertion order. */
  function NetworkKeys(rows: seq<Contact>): (keys: seq<nat>)
    ensures NoDuplicates(keys)
    ensures forall k :: k in keys <==> exists c :: c in rows && EffectiveKey(c) == k
  {
    var keys := Distinct(KeysOf(rows));
    assert forall k :: k in KeysOf(rows) <==> exists c :: c in rows && EffectiveKey(c) == k by {
      forall k | k in KeysOf(rows) ensures exists c :: c in rows && EffectiveKey(c) == k {
        var i :| 0 <= i < |rows| && KeysOf(rows)[i] == k;
        assert rows[i] in rows;
      }
      forall k | exists c :: c in rows && EffectiveKey(c) == k ensures k in KeysOf(rows) {
        var c :| c in rows && EffectiveKey(c) == k;
        var i :| 0 <= i < |rows| && rows[i] == c;
        assert KeysOf(rows)[i] == k;
      }
    }
    keys
  }

  /** The group stored under key `k`: the rows with that key, in row order. */
  function Group(rows: seq<Contact>, k: nat): (g: seq<Contact>)
    ensures forall c :: c in g <==> c in rows && EffectiveKey(c) == k
    ensures |g| <= |rows|
  {
    if |rows| == 0 then []
    else
      var last := rows[|rows| - 1];
      assert rows == rows[..|rows| - 1] + [last];
      Group(rows[..|rows| - 1], k) + (if EffectiveKey(last) == k then [last] else [])
  }

  /** The groups of `keys`, one after the other. */
  function Flatten(rows: seq<Contact>, keys: seq<nat>): (all: seq<Contact>)
    ensures forall c :: c in all ==> c in rows && EffectiveKey(c) in keys
  {
    if |keys| == 0 then []
    else Flatten(rows, keys[..|keys| - 1]) + Group(rows, keys[|keys| - 1])
  }

  /**
   * The loop that builds the `networks` Map: `keys` is its key order and
   * `groups` its contents. It tests `linked_id` for truthiness; on the rows
   * it is given, read from the table, that agrees with the null test the
   * query uses.
   */
  method GroupByPrimary(rows: seq<Contact>) returns (keys: seq<nat>, groups: map<nat, seq<Contact>>)
    requires forall c :: c in rows ==> GroupKey(c) == EffectiveKey(c)
    ensures keys == NetworkKeys(rows)
    ensures forall k :: k in groups <==> k in keys
    ensures forall k :: k in groups ==> groups[k] == Group(rows, k)
  {
    keys, groups := [], map[];
    var i := 0;
    while i < |rows|
      invariant 0 <= i <= |rows|
      invariant Grouped(rows[..i], keys, groups)
    {
      var contact := rows[i];
      assert GroupKey(contact) == EffectiveKey(contact);
      var primaryId: nat;
      if contact.precedence == Primary {
        primaryId := contact.id;
      } else if contact.linkedId.Some? && contact.linkedId.value != 0 {
        primaryId := contact.linkedId.value;
      } else {
        primaryId := contact.id;
      }
      assert primaryId == GroupKey(contact) == EffectiveKey(contact);
      if primaryId !in groups {
        GroupingStepNew(rows, i, keys, groups);
        groups := groups[primaryId := []];
        keys := keys + [primaryId];
      } else {
        GroupingStepSeen(rows, i, keys, groups);
      }
      groups := groups[primaryId := groups[primaryId] + [contact]];
      i := i + 1;
    }
    assert rows[..i] == rows;
  }

  /** `keys` and `groups` are the `networks` Map built from `rows`. */
  ghost predicate Grouped(rows: seq<Contact>, keys: seq<nat>, groups: map<nat, seq<Contact>>)
  {
    && keys == NetworkKeys(rows)
    && (forall k :: k in groups <==> k in keys)
    && GroupsMatch(rows, groups)
  }

  /** Every entry of `groups` is the group of its key. */
  ghost predicate GroupsMatch(rows: seq<Contact>, groups: map<nat, seq<Contact>>)
  {
    forall k :: k in groups ==> groups[k] == Group(rows, k)
  }

  /** An iteration whose key is already in the Map keeps `Grouped`. */
  lemma GroupingStepSeen(rows: seq<Contact>, i: nat, keys: seq<nat>, groups: map<nat, seq<Contact>>)
    requires i < |rows|
    requires Grouped(rows[..i], keys, groups)
    requires EffectiveKey(rows[i]) in groups
    ensures var k := EffectiveKey(rows[i]);
      Grouped(rows[..i + 1], keys, groups[k := groups[k] + [rows[i]]])
  {
    var k := EffectiveKey(rows[i]);
    assert k in keys;
    KeysStep(rows, i);
    assert NetworkKeys(rows[..i + 1]) == keys;
    GroupValues(rows, i, groups);
  }

  /** An iteration whose key is new appends the key and opens its group, keeping `Grouped`. */
  lemma GroupingStepNew(rows: seq<Contact>, i: nat, keys: seq<nat>, groups: map<nat, seq<Contact>>)
    requires i < |rows|
    requires Grouped(rows[..i], keys, groups)
    requires EffectiveKey(rows[i]) !in groups
    ensures var k := EffectiveKey(rows[i]);
      var started := groups[k := []];
      Grouped(rows[..i + 1], keys + [k], started[k := started[k] + [rows[i]]])
  {
    var k := EffectiveKey(rows[i]);
    assert k !in keys;
    KeysStep(rows, i);
    assert NetworkKeys(rows[..i + 1]) == keys + [k];
    GroupOfOtherKey(rows[..i], k);
    GroupValues(rows, i, groups[k := []]);
  }

  /** Appending the next row to its group gives the groups of one more row. */
  lemma GroupValues(rows: seq<Contact>, i: nat, groups: map<nat, seq<Contact>>)
    requires i < |rows|
    requires GroupsMatch(rows[..i], groups)
    requires EffectiveKey(rows[i]) in groups
    ensures var k := EffectiveKey(rows[i]);
      GroupsMatch(rows[..i + 1], groups[k := groups[k] + [rows[i]]])
  {
    var k := EffectiveKey(rows[i]);
    var final := groups[k := groups[k] + [rows[i]]];
    forall j | j in final
      ensures final[j] == Group(rows[..i + 1], j)
    {
      GroupSnoc(rows, i, j);
    }
  }

  /** Taking one more row adds it to its own group only. */
  lemma GroupSnoc(rows: seq<Contact>, i: nat, j: nat)
    requires i < |rows|
    ensures Group(rows[..i + 1], j) == Group(rows[..i], j) + (if EffectiveKey(rows[i]) == j then [rows[i]] else [])
  {
    assert rows[..i + 1][..i] == rows[..i];
  }

  /** Taking one more row adds its key at the end, unless the key is already there. */
  lemma KeysStep(rows: seq<Contact>, i: nat)
    requires i < |rows|
    ensures var k := EffectiveKey(rows[i]);
      var before := NetworkKeys(rows[..i]);
      NetworkKeys(rows[..i + 1]) == if k in before then before else before + [k]
  {
    var pre := rows[..i + 1];
    assert pre[..i] == rows[..i];
    assert KeysOf(pre)[..i] == KeysOf(rows[..i]);
  }

  lemma {:induction false} GroupOfOtherKey(rows: seq<Contact>, k: nat)
    requires forall c :: c in rows ==> EffectiveKey(c) != k
    ensures Group(rows, k) == []
  {
    if |rows| > 0 {
      assert rows[..|rows| - 1] <= rows;
      GroupOfOtherKey(rows[..|rows| - 1], k);
    }
  }

  /** The loop that appends every group, in key order, to `allContactsInNetwork`. */
  method CollectNetworks(ghost rows: seq<Contact>, keys: seq<nat>, groups: map<nat, seq<Contact>>)
    returns (all: seq<Contact>)
    requires forall k :: k in keys ==> k in groups && groups[k] == Group(rows, k)
    ensures all == Flatten(rows, keys)
  {
    all := [];
    var i := 0;
    while i < |keys|
      invariant 0 <= i <= |keys|
      invariant all == Flatten(rows, keys[..i])
    {
      assert keys[..i + 1][..i] == keys[..i];
      all := all + groups[keys[i]];
      i := i + 1;
    }
    assert keys[..i] == keys;
  }

  lemma {:induction false} FlattenOfNoRows(keys: seq<nat>)
    ensures Flatten([], keys) == []
  {
    if |keys| > 0 {
      FlattenOfNoRows(keys[..|keys| - 1]);
    }
  }

  lemma {:induction false} FlattenSnoc(rows: seq<Contact>, c: Contact, keys: seq<nat>)
    requires NoDuplicates(keys)
    ensures multiset(Flatten(rows + [c], keys))
         == multiset(Flatten(rows, keys)) + (if EffectiveKey(c) in keys then multiset{c} else multiset{})
  {
    if |keys| > 0 {
      var ks, k := keys[..|keys| - 1], keys[|keys| - 1];
      assert keys == ks + [k];
      FlattenSnoc(rows, c, ks);
      assert (rows + [c])[..|rows|] == rows;
      assert EffectiveKey(c) in keys <==> EffectiveKey(c) in ks || EffectiveKey(c) == k;
      assert EffectiveKey(c) == k ==> EffectiveKey(c) !in ks;
    }
  }

  lemma {:induction false} FlattenCovers(rows: seq<Contact>, keys: seq<nat>)
    requires NoDuplicates(keys)
    requires forall c :: c in rows ==> EffectiveKey(c) in keys
    ensures multiset(Flatten(rows, keys)) == multiset(rows)
  {
    if |rows| == 0 {
      FlattenOfNoRows(keys);
    } else {
      var rs, c := rows[..|rows| - 1], rows[|rows| - 1];
      assert rows == rs + [c];
      FlattenCovers(rs, keys);
      FlattenSnoc(rs, c, keys);
    }
  }

  /**
   * Concatenating the groups in key order gives back every linked row exactly
   * once: `allContactsInNetwork` is a permutation of `allLinkedContacts`.
   */
  lemma FlattenIsPermutation(rows: seq<Contact>)
    ensures multiset(Flatten(rows, NetworkKeys(rows))) == multiset(rows)
  {
    FlattenCovers(rows, NetworkKeys(rows));
  }

  /** `rows.find(c => c.id === k)`. */
  function FindById(rows: seq<Contact>, k: nat): (r: Option<Contact>)
    ensures r.Some? ==> r.value in rows && r.value.id == k
    ensures r.None? ==> forall c :: c in rows ==> c.id != k
  {
    if |rows| == 0 then None
    else if rows[0].id == k then Some(rows[0])
    else FindById(rows[1..], k)
  }

  /**
   * `primaryContacts`: for each key in order, the linked row whose id is that
   * key, when there is one. Precedence plays no part.
   */
  function ResolvedPrimaries(rows: seq<Contact>, keys: seq<nat>): (ps: seq<Contact>)
    ensures |ps| <= |keys|
    ensures forall p :: p in ps ==> p in rows && p.id in keys
    ensures forall k :: k in keys && k in IdSet(rows) ==> k in IdSet(ps)
  {
    if |keys| == 0 then []
    else
      var ks, k := keys[..|keys| - 1], keys[|keys| - 1];
      var ps := ResolvedPrimaries(rows, ks);
      assert forall j :: j in keys <==> j in ks || j == k;
      match FindById(rows, k)
      case Some(p) => assert p.id in IdSet(ps + [p]); ps + [p]
      case None => ps
  }

  /**
   * `s.sort((a, b) => a.created_at - b.created_at)[0]`: the sort is stable, so
   * among equally old records the first one wins.
   */
  function Oldest(s: seq<Contact>): (c: Contact)
    requires |s| > 0
    ensures c in s
    ensures forall x :: x in s ==> c.createdAt <= x.createdAt
    ensures exists i :: 0 <= i < |s| && s[i] == c && forall j :: 0 <= j < i ==> s[j].createdAt > c.createdAt
  {
    if |s| == 1 then s[0]
    else
      var prefix := s[..|s| - 1];
      var r := Oldest(prefix);
      assert s == prefix + [s[|s| - 1]];
      if s[|s| - 1].createdAt < r.createdAt then s[|s| - 1] else r
  }

  /**
   * Whether a submission is new information for the network `members`: with
   * both identifiers, iff no member has exactly that pair; with one, iff no
   * member has that value; with none, never.
   */
  function ShouldCreate(members: seq<Contact>, email: Field, phone: Field): (create: bool)
    ensures Given(email) && Given(phone) ==>
      (create <==> forall c :: c in members ==> !(c.email == email && c.phone == phone))
    ensures Given(email) && !Given(phone) ==>
      (create <==> forall c :: c in members ==> c.email != email)
    ensures !Given(email) && Given(phone) ==>
      (create <==> forall c :: c in members ==> c.phone != phone)
    ensures !Given(email) && !Given(phone) ==> !create
  {
    var existingEmail := if Given(email) then exists c :: c in members && c.email == email else true;
    var existingPhone := if Given(phone) then exists c :: c in members && c.phone == phone else true;
    if Given(email) && Given(phone) then
      !exists c :: c in members && c.email == email && c.phone == phone
    else if Given(email) && !existingEmail then true
    else if Given(phone) && !existingPhone then true
    else false
  }
}
