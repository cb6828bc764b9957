/** The lists a run of the index plugin leaves, with the order in them. */
module PolicyLaws {
  import opened Authorize
  import opened PolicyLists

  /** The configured policies of the groups, one list after the other. */
  function Listed(table: PolicyTable, members: seq<int>): seq<Policy> {
    if members == [] then []
    else
      var m := members[|members| - 1];
      Listed(table, members[..|members| - 1]) + if m in table then table[m] else []
  }

  /** A list of its own, and behind it those of the subgroups in their order. */
  lemma {:induction false} AppendedIs(table: PolicyTable, g: int, members: seq<int>, count: nat)
    requires count <= |members| && g !in members
    ensures Appended(table, g, members, count)
         == (if g in table then table[g] else []) + Listed(table, members[..count])
  {
    var own := if g in table then table[g] else [];
    if count == 0 {
      assert own + [] == own;
    } else {
      AppendedIs(table, g, members, count - 1);
      assert members[count - 1] in members && members[..count][..count - 1] == members[..count - 1];
    }
  }

  /** The list a configured group is left with; a group without one gets none. */
  lemma GrownIs(table: PolicyTable, g: int, members: seq<int>)
    requires g !in members
    ensures Grown(table, g, members).Keys == table.Keys
    ensures forall h | h in table && h != g :: Grown(table, g, members)[h] == table[h]
    ensures g in table ==> Grown(table, g, members)[g] == table[g] + Listed(table, members)
  {
    AppendedIs(table, g, members, |members|);
    assert members[..|members|] == members;
  }

  /** A group behind its own subgroups, as in a cycle, has all it has by then
      added to itself. */
  lemma DoubledBySelf(table: PolicyTable, g: int, members: seq<int>)
    requires g in table && g !in members
    ensures var gathered := table[g] + Listed(table, members);
      Grown(table, g, members + [g]) == table[g := gathered + gathered]
  {
    var all := members + [g];
    SameBefore(table, g, members, all, |members|);
    AppendedIs(table, g, members, |members|);
    assert members[..|members|] == members;
  }

  lemma {:induction false} SameBefore(table: PolicyTable, g: int, members: seq<int>, all: seq<int>, count: nat)
    requires count <= |members| && members <= all
    ensures Appended(table, g, all, count) == Appended(table, g, members, count)
  {
    if count > 0 { SameBefore(table, g, members, all, count - 1); }
  }
}
