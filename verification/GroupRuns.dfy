/** The group graph and its cache as a state machine: one step for each
    operation that changes the tables, and what every run of them keeps. */
module GroupRuns {
  import opened GroupGraph
  import opened Prelude

  datatype Tables = Tables(edges: set<Edge>, cache: set<Edge>)

  datatype Event =
    | SetSubgroups(id: int, children: set<int>)  // update() of a group whose subgroup list changed
    | KeepSubgroups                              // update() of a group whose subgroup list did not
    | DeleteGroup(id: int)

  ghost function RowsOfOthers(edges: set<Edge>, id: int): set<Edge> {
    set e | e in edges && e.0 != id
  }

  ghost function Under(kept: set<Edge>, id: int, children: set<int>): set<Edge> {
    kept + set c | c in children :: (id, c)
  }

  ghost function Step(t: Tables, event: Event): Tables {
    match event
    case SetSubgroups(id, children) =>
      var edges := Under(RowsOfOthers(t.edges, id), id, children);
      Tables(edges, Closure(edges))
    case KeepSubgroups => t
    case DeleteGroup(id) => Tables(Without(t.edges, id), Without(t.cache, id))
  }

  ghost function Run(t: Tables, events: seq<Event>): Tables {
    if events == [] then t else Step(Run(t, events[..|events| - 1]), events[|events| - 1])
  }

  ghost predicate Exact(t: Tables) {
    t.cache == Closure(t.edges)
  }

  /** What holds at every moment, also while deletions have left the cache stale. */
  ghost predicate Sound(t: Tables) {
    Transitive(t.cache) && Closure(t.edges) <= t.cache
  }

  ghost predicate Mentions(rows: set<Edge>, id: int) {
    exists e :: e in rows && (e.0 == id || e.1 == id)
  }

  lemma StepKeepsSound(t: Tables, event: Event)
    requires Sound(t)
    ensures Sound(Step(t, event))
  {
    match event
    case SetSubgroups(id, children) => ClosureIsLeast(Step(t, event).edges);
    case KeepSubgroups =>
    case DeleteGroup(id) =>
      ClosureWithout(t.edges, id);
      assert Transitive(Without(t.cache, id));
  }

  /** Over every run from a sound state: the cache is transitive and holds the
      whole closure; it is exactly the closure straight after a subgroup
      update; after a deletion it holds no row of the deleted group. */
  lemma {:induction false} RunKeepsSound(t: Tables, events: seq<Event>)
    requires Sound(t)
    ensures Sound(Run(t, events))
    ensures events != [] && events[|events| - 1].SetSubgroups? ==> Exact(Run(t, events))
    ensures events != [] && events[|events| - 1].DeleteGroup? ==>
              !Mentions(Run(t, events).cache + Run(t, events).edges, events[|events| - 1].id)
  {
    if events != [] {
      RunKeepsSound(t, events[..|events| - 1]);
      StepKeepsSound(Run(t, events[..|events| - 1]), events[|events| - 1]);
    }
  }

  ghost predicate Remakes(event: Event, id: int) {
    event.SetSubgroups? && (event.id == id || id in event.children)
  }

  /** A deleted group stays out of both tables until some update names it again. */
  lemma {:induction false} DeletedStaysGone(t: Tables, id: int, later: seq<Event>)
    requires !Mentions(t.cache + t.edges, id)
    requires forall i :: 0 <= i < |later| ==> !Remakes(later[i], id)
    ensures !Mentions(Run(t, later).cache + Run(t, later).edges, id)
  {
    if later != [] {
      var before := Run(t, later[..|later| - 1]);
      DeletedStaysGone(t, id, later[..|later| - 1]);
      var event := later[|later| - 1];
      var after := Step(before, event);
      assert !Remakes(event, id);
      forall e | e in after.edges ensures e.0 != id && e.1 != id {
        if e in before.edges { assert e in before.cache + before.edges; }
      }
      forall e | e in after.cache ensures e.0 != id && e.1 != id {
        if event.SetSubgroups? {
          ReachedNodes(after.edges, e.0, e.1);
        } else {
          assert e in before.cache + before.edges;
        }
      }
    }
  }

  /** From an exact cache, deleting a group leaves it exact when and only when
      the group's direct parents still reach its direct children without it. */
  lemma DeleteExactness(t: Tables, id: int)
    requires Exact(t)
    ensures Exact(Step(t, DeleteGroup(id))) <==> Bridged(t.edges, id)
  {
    ClosureWithout(t.edges, id);
  }

  /** A stale cache: 1 contains 2, 2 contains 3, and 2 is deleted. */
  lemma DeleteLeavesStaleRow()
    ensures var t := Tables({(1, 2), (2, 3)}, Closure({(1, 2), (2, 3)}));
            var after := Step(t, DeleteGroup(2));
            after.edges == {} && (1, 3) in after.cache && !Exact(after)
  {
    var edges: set<Edge> := {(1, 2), (2, 3)};
    EdgeReaches(edges, 1, 2);
    EdgeReaches(edges, 2, 3);
    ReachesTransitive(edges, 1, 2, 3);
    InClosure(edges, 1, 3);
    var none: set<Edge> := {};
    assert Without(edges, 2) == none;
    InClosure(none, 1, 3);
    if Reaches(none, 1, 3) { var c := FirstStep(none, 1, 3); }
  }

  /** Acyclicity over a run: deleting keeps it, and replacing a group's
      subgroups keeps it exactly when no new subgroup is the group itself or
      lies above it among the edges that stay. */
  lemma StepAcyclic(t: Tables, event: Event)
    requires Acyclic(t.edges)
    ensures Acyclic(Step(t, event).edges) <==>
              event.SetSubgroups? ==> NoneAbove(RowsOfOthers(t.edges, event.id), event.id, event.children)
  {
    match event
    case KeepSubgroups =>
    case DeleteGroup(id) => SubgraphAcyclic(Without(t.edges, id), t.edges);
    case SetSubgroups(id, children) =>
      var kept := RowsOfOthers(t.edges, id);
      SubgraphAcyclic(kept, t.edges);
      ChildrenAcyclic(kept, id, children);
  }

  lemma SubgraphAcyclic(smaller: set<Edge>, larger: set<Edge>)
    requires smaller <= larger && Acyclic(larger)
    ensures Acyclic(smaller)
  {
    forall a ensures !Reaches(smaller, a, a) {
      if Reaches(smaller, a, a) { ReachesMonotone(smaller, larger, a, a); }
    }
  }

  /** No new subgroup is the group itself or already contains it. */
  ghost predicate NoneAbove(kept: set<Edge>, id: int, children: set<int>) {
    forall c :: c in children ==> c != id && !Reaches(kept, c, id)
  }

  /** A walk that starts outside a group's new edges either never uses them or
      first arrives at the group. */
  lemma {:induction false} WalkMeetsGroup(kept: set<Edge>, id: int, children: set<int>, path: seq<int>)
    requires Path(Under(kept, id, children), path)
    ensures Reaches(kept, path[0], path[|path| - 1]) || path[0] == id || Reaches(kept, path[0], id)
    decreases |path|
  {
    var last, prev := path[|path| - 1], path[|path| - 2];
    assert (prev, last) in Under(kept, id, children);
    if (prev, last) in kept { EdgeReaches(kept, prev, last); }
    if |path| > 2 {
      WalkMeetsGroup(kept, id, children, path[..|path| - 1]);
      if (prev, last) in kept && Reaches(kept, path[0], prev) {
        ReachesTransitive(kept, path[0], prev, last);
      }
    }
  }

  lemma {:induction false} ChildrenAcyclic(kept: set<Edge>, id: int, children: set<int>)
    requires Acyclic(kept)
    ensures Acyclic(Under(kept, id, children)) <==> NoneAbove(kept, id, children)
    decreases children
  {
    var more := Under(kept, id, children);
    if children == {} {
      assert more == kept;
    } else {
      var c := SomeElement(children);
      var mid := Under(kept, id, children - {c});
      assert more == mid + {(id, c)};
      ChildrenAcyclic(kept, id, children - {c});
      assert NoneAbove(kept, id, children) <==>
        NoneAbove(kept, id, children - {c}) && c != id && !Reaches(kept, c, id) by {
        forall d | d in children ensures d == c || d in children - {c} {}
        assert children == (children - {c}) + {c};
      }
      if Acyclic(mid) {
        AcyclicAfterAdding(mid, id, c);
        if Reaches(kept, c, id) { ReachesMonotone(kept, mid, c, id); }
        if c != id && Reaches(mid, c, id) {
          var path :| Connects(mid, path, c, id);
          WalkMeetsGroup(kept, id, children - {c}, path);
        }
      } else if Acyclic(more) {
        SubgraphAcyclic(mid, more);
      }
    }
  }
}
