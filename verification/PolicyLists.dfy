/** The configured metadata policies as the lists they are kept in, and the
    index plugin that adds to those lists while it reads them. */
module PolicyLists {
  import opened Authorize
  import opened Prelude

  // ---------- adding to a list what other groups have

  /** The list of `g` after the lists of the first `count` groups have been
      added to it; adding a list to itself doubles it. */
  function Appended(table: PolicyTable, g: int, members: seq<int>, count: nat): seq<Policy>
    requires count <= |members|
  {
    if count == 0 then PoliciesOf(table, g)
    else
      var own, m := Appended(table, g, members, count - 1), members[count - 1];
      own + if m == g && g in table then own else PoliciesOf(table, m)
  }

  /** The configuration after that: only a configured group has a list that stays. */
  function Grown(table: PolicyTable, g: int, members: seq<int>): PolicyTable {
    if g in table then table[g := Appended(table, g, members, |members|)] else table
  }

  ghost predicate Held(table: PolicyTable, members: seq<int>, count: nat, p: Policy)
    requires count <= |members|
  {
    exists k :: 0 <= k < count && p in PoliciesOf(table, members[k])
  }

  lemma HeldByOneMore(table: PolicyTable, members: seq<int>, count: nat, p: Policy)
    requires 0 < count <= |members|
    ensures Held(table, members, count, p) <==>
      (Held(table, members, count - 1, p) || p in PoliciesOf(table, members[count - 1]))
  {
  }

  lemma InEither(a: seq<Policy>, b: seq<Policy>, p: Policy)
    ensures p in a + b <==> (p in a || p in b)
  {
  }

  lemma {:induction false} AppendedHolds(table: PolicyTable, g: int, members: seq<int>, count: nat, p: Policy)
    requires count <= |members|
    ensures p in Appended(table, g, members, count) <==> (p in PoliciesOf(table, g) || Held(table, members, count, p))
  {
    if count > 0 {
      AppendedHolds(table, g, members, count - 1, p);
      HeldByOneMore(table, members, count, p);
      var own, m := Appended(table, g, members, count - 1), members[count - 1];
      InEither(own, if m == g && g in table then own else PoliciesOf(table, m), p);
    }
  }

  lemma {:induction false} NothingAppended(table: PolicyTable, g: int, members: seq<int>, count: nat)
    requires count <= |members| && forall k | 0 <= k < count :: PoliciesOf(table, members[k]) == []
    ensures Appended(table, g, members, count) == PoliciesOf(table, g)
  {
    if count > 0 {
      NothingAppended(table, g, members, count - 1);
      var own, none: seq<Policy> := PoliciesOf(table, g), [];
      assert own + none == own;
      assert PoliciesOf(table, members[count - 1]) == none;
    }
  }

  lemma {:induction false} SomethingAppended(table: PolicyTable, g: int, members: seq<int>, count: nat)
    requires count <= |members|
    ensures |Appended(table, g, members, count)| >= |PoliciesOf(table, g)|
    ensures (exists k :: 0 <= k < count && PoliciesOf(table, members[k]) != []) ==>
      |Appended(table, g, members, count)| > |PoliciesOf(table, g)|
  {
    if count > 0 { SomethingAppended(table, g, members, count - 1); }
  }

  /** Indexing leaves the configuration alone if and only if the group has no
      list, or none of its cached subgroups has a policy. */
  lemma GrownIsSameIff(table: PolicyTable, g: int, members: seq<int>)
    ensures Grown(table, g, members) == table <==>
      (g !in table || forall k | 0 <= k < |members| :: PoliciesOf(table, members[k]) == [])
  {
    if g in table {
      if forall k | 0 <= k < |members| :: PoliciesOf(table, members[k]) == [] {
        NothingAppended(table, g, members, |members|);
      } else {
        SomethingAppended(table, g, members, |members|);
        assert |Grown(table, g, members)[g]| > |table[g]|;
      }
    }
  }

  /** The check of a group after an object readable by it has been indexed: it
      now asks for the policies of its subgroups as well. */
  lemma IndexingNarrows(table: PolicyTable, user: Option<EPerson>, g: int, members: seq<int>, o: DSpaceObject)
    ensures MetadataAllows(Grown(table, g, members), user, g, o) <==>
      (MetadataAllows(table, user, g, o) &&
        (g in table ==> forall k | 0 <= k < |members| :: MetadataAllows(table, user, members[k], o)))
  {
    forall p { AppendedHolds(table, g, members, |members|, p); }
    if CheckedMetadata(o).Some? && g in table && MetadataAllows(Grown(table, g, members), user, g, o) {
      forall k, p | 0 <= k < |members| && p in PoliciesOf(table, members[k])
        ensures Satisfied(p, user, CheckedMetadata(o).value)
      {
        assert Held(table, members, |members|, p);
        assert p in Appended(table, g, members, |members|);
      }
    }
  }

  /** No other group's check changes. */
  lemma OthersUnaffected(table: PolicyTable, user: Option<EPerson>, g: int, members: seq<int>, o: DSpaceObject, h: int)
    requires h != g
    ensures MetadataAllows(Grown(table, g, members), user, h, o) <==> MetadataAllows(table, user, h, o)
  {
    assert PoliciesOf(Grown(table, g, members), h) == PoliciesOf(table, h);
  }

  // ---------- the lists

  class PolicyList {
    var policies: seq<Policy>

    constructor (policies: seq<Policy>)
      ensures this.policies == policies
    {
      this.policies := policies;
    }

    method AddAll(other: PolicyList)
      modifies this
      ensures policies == old(policies) + old(other.policies)
    {
      policies := policies + other.policies;
    }
  }

  class PoliciesFactory {
    const lists: map<int, PolicyList>

    ghost predicate Valid() {
      forall g, h | g in lists && h in lists && g != h :: lists[g] != lists[h]
    }

    constructor (lists: map<int, PolicyList>)
      requires forall g, h | g in lists && h in lists && g != h :: lists[g] != lists[h]
      ensures Valid() && this.lists == lists
    {
      this.lists := lists;
    }

    ghost function Table(): PolicyTable
      reads lists.Values
    {
      map g | g in lists :: lists[g].policies
    }

    /** The configured list itself, not a copy; a new one where nothing is configured. */
    method GetPolicies(g: int) returns (list: PolicyList)
      ensures g in lists ==> list == lists[g]
      ensures g !in lists ==> fresh(list) && list.policies == []
    {
      if g in lists { return lists[g]; }
      list := new PolicyList([]);
    }

    method RetrievePoliciesFromGroupAndMembers(g: int, members: seq<int>) returns (list: PolicyList)
      requires Valid()
      modifies lists.Values
      ensures Table() == Grown(old(Table()), g, members)
      ensures list.policies == Appended(old(Table()), g, members, |members|)
    {
      ghost var table := Table();
      list := GetPolicies(g);
      var i := 0;
      while i < |members|
        invariant 0 <= i <= |members|
        invariant g in lists ==> list == lists[g]
        invariant g !in lists ==> fresh(list)
        invariant list.policies == Appended(table, g, members, i)
        invariant forall h | h in lists && h != g :: lists[h].policies == table[h]
        modifies list
      {
        var more := GetPolicies(members[i]);
        list.AddAll(more);
        i := i + 1;
      }
      assert forall h | h in lists :: Table()[h] == Grown(table, g, members)[h];
    }
  }
}
