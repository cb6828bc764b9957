/** Member lists and their rows, said of single entries. */
module GroupLaws {
  import opened GroupCache
  import opened GroupGraph
  import opened GroupRuns
  import opened GroupTables
  import opened Prelude

  /** `List.remove`: the first occurrence goes and nothing else. */
  lemma {:induction false} RemoveFirstIs(before: seq<int>, x: int, after: seq<int>)
    requires x !in before
    ensures RemoveFirst(before + [x] + after, x) == before + after
  {
    var s := before + [x] + after;
    if before == [] {
      assert s[1..] == after && before + after == after;
    } else {
      assert before[0] in before && s[1..] == before[1..] + [x] + after;
      RemoveFirstIs(before[1..], x, after);
      assert [before[0]] + (before[1..] + after) == before + after;
    }
  }

  /** Rewriting the rows of a group changes the group's and no others. */
  lemma RowsAfterUpdate(rows: seq<Edge>, id: int, members: seq<int>, a: int, b: int)
    ensures (a, b) in DeleteParent(rows, id) + MappingRows(id, members) <==>
      if a == id then b in members else (a, b) in rows
  {
    DeleteParentKeeps(rows, id);
    if a == id && b in members {
      var i :| 0 <= i < |members| && members[i] == b;
      assert MappingRows(id, members)[i] == (a, b);
    }
  }

  /** What an operation makes of the two tables, row by row: an update with new
      subgroups rewrites the group's rows and puts into the cache what is
      reachable; a deletion takes out of both what names the group. */
  lemma StepIs(t: Tables, id: int, children: set<int>, a: int, b: int)
    ensures (a, b) in Step(t, SetSubgroups(id, children)).edges <==>
      if a == id then b in children else (a, b) in t.edges
    ensures (a, b) in Step(t, SetSubgroups(id, children)).cache <==>
      Reaches(Step(t, SetSubgroups(id, children)).edges, a, b)
    ensures (a, b) in Step(t, DeleteGroup(id)).edges <==> (a, b) in t.edges && a != id && b != id
    ensures (a, b) in Step(t, DeleteGroup(id)).cache <==> (a, b) in t.cache && a != id && b != id
    ensures Step(t, KeepSubgroups) == t
  {
    var edges := Step(t, SetSubgroups(id, children)).edges;
    InClosure(edges, a, b);
    if a == id && b in children { assert (id, b) in set c | c in children :: (id, c); }
  }

  /** The rows that stay when a group is deleted stay in their order. */
  lemma {:induction false} DeletionInOrder(before: seq<Edge>, after: seq<Edge>, id: int)
    ensures DeleteEither(before + after, id) == DeleteEither(before, id) + DeleteEither(after, id)
    decreases |after|
  {
    if after == [] {
      assert before + after == before;
    } else {
      var init, last := after[..|after| - 1], after[|after| - 1];
      var all := before + after;
      assert all[..|all| - 1] == before + init && all[|all| - 1] == last;
      DeletionInOrder(before, init, id);
      Assoc(DeleteEither(before, id), DeleteEither(init, id), [last]);
    }
  }
}
