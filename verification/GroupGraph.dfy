/** Group graphs: the `group2group` table read as a set of (parent, child)
    edges, and what "is a member, directly or through other groups" means
    for it.  Everything that computes a closure is proved against `Reaches`. */
module GroupGraph {

  type Edge = (int, int)

  /** A chain of at least one parent-to-child step. */
  ghost predicate Path(edges: set<Edge>, p: seq<int>) {
    |p| >= 2 && forall i :: 0 <= i < |p| - 1 ==> (p[i], p[i + 1]) in edges
  }

  ghost predicate Connects(edges: set<Edge>, p: seq<int>, a: int, b: int) {
    Path(edges, p) && p[0] == a && p[|p| - 1] == b
  }

  ghost predicate Reaches(edges: set<Edge>, a: int, b: int) {
    exists p :: Connects(edges, p, a, b)
  }

  ghost predicate Acyclic(edges: set<Edge>) {
    forall a :: !Reaches(edges, a, a)
  }

  ghost function Nodes(edges: set<Edge>): set<int> {
    (set e | e in edges :: e.0) + (set e | e in edges :: e.1)
  }

  /** All groups below `a`. */
  ghost function Descendants(edges: set<Edge>, a: int): set<int> {
    set b | b in Nodes(edges) && Reaches(edges, a, b)
  }

  /** The transitive closure, as the set of rows a cache table must hold. */
  ghost function Closure(edges: set<Edge>): set<Edge> {
    set a, b | a in Nodes(edges) && b in Descendants(edges, a) :: (a, b)
  }

  ghost predicate Transitive(rel: set<Edge>) {
    forall a, b, c :: (a, b) in rel && (b, c) in rel ==> (a, c) in rel
  }

  lemma EdgeReaches(edges: set<Edge>, a: int, b: int)
    requires (a, b) in edges
    ensures Reaches(edges, a, b)
  {
    assert Connects(edges, [a, b], a, b);
  }

  lemma ReachesTransitive(edges: set<Edge>, a: int, b: int, c: int)
    requires Reaches(edges, a, b) && Reaches(edges, b, c)
    ensures Reaches(edges, a, c)
  {
    var p :| Connects(edges, p, a, b);
    var q :| Connects(edges, q, b, c);
    var r := p + q[1..];
    forall i | 0 <= i < |r| - 1 ensures (r[i], r[i + 1]) in edges {
      if i >= |p| - 1 {
        assert r[i] == q[i - |p| + 1] && r[i + 1] == q[i - |p| + 2];
      }
    }
    assert Connects(edges, r, a, c);
  }

  lemma FirstStep(edges: set<Edge>, a: int, b: int) returns (c: int)
    requires Reaches(edges, a, b)
    ensures (a, c) in edges
    ensures c == b || Reaches(edges, c, b)
  {
    var p :| Connects(edges, p, a, b);
    c := p[1];
    if |p| > 2 {
      var q := p[1..];
      forall i | 0 <= i < |q| - 1 ensures (q[i], q[i + 1]) in edges {
        assert (p[i + 1], p[i + 2]) in edges;
      }
      assert Connects(edges, q, c, b);
    }
  }

  lemma LastStep(edges: set<Edge>, a: int, b: int) returns (c: int)
    requires Reaches(edges, a, b)
    ensures (c, b) in edges
    ensures c == a || Reaches(edges, a, c)
  {
    var p :| Connects(edges, p, a, b);
    c := p[|p| - 2];
    if |p| > 2 {
      assert Connects(edges, p[..|p| - 1], a, c);
    }
  }

  lemma ReachesMonotone(smaller: set<Edge>, larger: set<Edge>, a: int, b: int)
    requires smaller <= larger && Reaches(smaller, a, b)
    ensures Reaches(larger, a, b)
  {
    var p :| Connects(smaller, p, a, b);
    assert Connects(larger, p, a, b);
  }

  lemma ReachedNodes(edges: set<Edge>, a: int, b: int)
    requires Reaches(edges, a, b)
    ensures a in Nodes(edges) && b in Nodes(edges)
  {
    var c := FirstStep(edges, a, b);
    var d := LastStep(edges, a, b);
    assert (a, c).0 == a && (d, b).1 == b;
  }

  lemma InDescendants(edges: set<Edge>, a: int, b: int)
    ensures b in Descendants(edges, a) <==> Reaches(edges, a, b)
  {
    if Reaches(edges, a, b) { ReachedNodes(edges, a, b); }
  }

  lemma InClosure(edges: set<Edge>, a: int, b: int)
    ensures (a, b) in Closure(edges) <==> Reaches(edges, a, b)
  {
    if Reaches(edges, a, b) { ReachedNodes(edges, a, b); }
  }

  /** A chain of steps stays inside any transitive relation holding them all. */
  lemma {:induction false} PathInTransitive(edges: set<Edge>, rel: set<Edge>, p: seq<int>)
    requires edges <= rel && Transitive(rel) && Path(edges, p)
    ensures (p[0], p[|p| - 1]) in rel
    decreases |p|
  {
    var a, b, c := p[0], p[|p| - 2], p[|p| - 1];
    assert (b, c) in edges;
    if |p| > 2 {
      PathInTransitive(edges, rel, p[..|p| - 1]);
      assert (a, b) in rel && (b, c) in rel;
    }
  }

  /** `Closure` is the least transitive relation that holds every edge. */
  lemma ClosureIsLeast(edges: set<Edge>)
    ensures edges <= Closure(edges)
    ensures Transitive(Closure(edges))
    ensures forall rel: set<Edge> :: edges <= rel && Transitive(rel) ==> Closure(edges) <= rel
  {
    forall e | e in edges ensures e in Closure(edges) {
      EdgeReaches(edges, e.0, e.1);
      InClosure(edges, e.0, e.1);
    }
    forall a, b, c | (a, b) in Closure(edges) && (b, c) in Closure(edges) ensures (a, c) in Closure(edges) {
      ReachesTransitive(edges, a, b, c);
      InClosure(edges, a, c);
    }
    forall rel: set<Edge> | edges <= rel && Transitive(rel) ensures Closure(edges) <= rel {
      forall a, b | (a, b) in Closure(edges) ensures (a, b) in rel {
        var p :| Connects(edges, p, a, b);
        PathInTransitive(edges, rel, p);
      }
    }
  }

  /** In an acyclic graph every step down leaves strictly fewer groups below. */
  lemma DescendantsShrink(edges: set<Edge>, a: int, b: int)
    requires Acyclic(edges) && Reaches(edges, a, b)
    ensures Descendants(edges, b) < Descendants(edges, a)
  {
    forall c | c in Descendants(edges, b) ensures c in Descendants(edges, a) {
      ReachesTransitive(edges, a, b, c);
    }
    InDescendants(edges, a, b);
    InDescendants(edges, b, b);
  }

  lemma {:induction false} LongPathDetour(edges: set<Edge>, p: int, c: int, path: seq<int>)
    requires Path(edges + {(p, c)}, path)
    ensures Reaches(edges, path[0], path[|path| - 1])
      || ((path[0] == p || Reaches(edges, path[0], p))
           && (c == path[|path| - 1] || Reaches(edges, c, path[|path| - 1])))
    decreases |path|
  {
    var last := path[|path| - 1];
    var prev := path[|path| - 2];
    if |path| == 2 {
      if (prev, last) in edges { EdgeReaches(edges, prev, last); }
    } else {
      LongPathDetour(edges, p, c, path[..|path| - 1]);
      if (prev, last) in edges {
        EdgeReaches(edges, prev, last);
        if Reaches(edges, path[0], prev) {
          ReachesTransitive(edges, path[0], prev, last);
        } else if c != prev {
          ReachesTransitive(edges, c, prev, last);
        }
      } else {
        assert prev == p && last == c;
      }
    }
  }

  /** What `addMember` would have to check: a new edge keeps the graph acyclic
      exactly when the child is not the parent and does not already lie above it. */
  lemma AcyclicAfterAdding(edges: set<Edge>, p: int, c: int)
    requires Acyclic(edges)
    ensures Acyclic(edges + {(p, c)}) <==> c != p && !Reaches(edges, c, p)
  {
    var more := edges + {(p, c)};
    EdgeReaches(more, p, c);
    if c != p && Reaches(edges, c, p) {
      ReachesMonotone(edges, more, c, p);
      ReachesTransitive(more, p, c, p);
    }
    if c != p && !Reaches(edges, c, p) {
      forall a ensures !Reaches(more, a, a) {
        if Reaches(more, a, a) {
          var path :| Connects(more, path, a, a);
          LongPathDetour(edges, p, c, path);
          if a != p && c != a {
            ReachesTransitive(edges, c, a, p);
          }
        }
      }
    }
  }

  /** The guard `addMember` has rejects only the child being the parent itself;
      two calls can still close a cycle. */
  lemma SelfCheckAllowsCycle()
    ensures Acyclic({(1, 2)}) && !Acyclic({(1, 2)} + {(2, 1)})
  {
    var none: set<Edge> := {};
    assert Acyclic(none) by {
      forall a ensures !Reaches(none, a, a) {
        if Reaches(none, a, a) { var c := FirstStep(none, a, a); }
      }
    }
    if Reaches(none, 2, 1) { var c := FirstStep(none, 2, 1); }
    AcyclicAfterAdding(none, 1, 2);
    assert none + {(1, 2)} == {(1, 2)};
    EdgeReaches({(1, 2)}, 1, 2);
    AcyclicAfterAdding({(1, 2)}, 2, 1);
  }

  /** `edges` without every row that names group `d`. */
  ghost function Without(edges: set<Edge>, d: int): set<Edge> {
    set e | e in edges && e.0 != d && e.1 != d
  }

  lemma WithoutAvoids(edges: set<Edge>, d: int, a: int, b: int)
    requires Reaches(Without(edges, d), a, b)
    ensures a != d && b != d && Reaches(edges, a, b)
  {
    var c := FirstStep(Without(edges, d), a, b);
    var e := LastStep(Without(edges, d), a, b);
    ReachesMonotone(Without(edges, d), edges, a, b);
  }

  /** Every direct parent of `d` still reaches every direct child of `d` once
      `d` is gone. */
  ghost predicate Bridged(edges: set<Edge>, d: int) {
    forall p, c :: (p, d) in edges && (d, c) in edges && p != d && c != d ==> Reaches(Without(edges, d), p, c)
  }

  lemma {:induction false} PathAround(edges: set<Edge>, d: int, path: seq<int>)
    requires Bridged(edges, d) && Path(edges, path) && path[0] != d
    ensures path[|path| - 1] != d ==> Reaches(Without(edges, d), path[0], path[|path| - 1])
    ensures path[|path| - 1] == d ==>
              exists p :: (p == path[0] || Reaches(Without(edges, d), path[0], p)) && p != d && (p, d) in edges
    decreases |path|
  {
    var rest := Without(edges, d);
    var a, last, prev := path[0], path[|path| - 1], path[|path| - 2];
    assert (prev, last) in edges;
    if |path| == 2 {
      if last != d { EdgeReaches(rest, prev, last); }
    } else {
      PathAround(edges, d, path[..|path| - 1]);
      if prev == d {
        var p :| (p == a || Reaches(rest, a, p)) && p != d && (p, d) in edges;
        if last != d {
          assert Reaches(rest, p, last);
          if p != a { ReachesTransitive(rest, a, p, last); }
        }
      } else if last != d {
        EdgeReaches(rest, prev, last);
        ReachesTransitive(rest, a, prev, last);
      }
    }
  }

  /** Dropping the rows of `d` from a closure table gives the closure of the
      remaining edges exactly when `d` was bridged. */
  lemma ClosureWithout(edges: set<Edge>, d: int)
    ensures Closure(Without(edges, d)) <= Without(Closure(edges), d)
    ensures Transitive(Without(Closure(edges), d))
    ensures Without(Closure(edges), d) == Closure(Without(edges, d)) <==> Bridged(edges, d)
  {
    var rest := Without(edges, d);
    forall a, b | (a, b) in Closure(rest) ensures (a, b) in Without(Closure(edges), d) {
      WithoutAvoids(edges, d, a, b);
      InClosure(edges, a, b);
    }
    ClosureIsLeast(edges);
    if Bridged(edges, d) {
      forall a, b | (a, b) in Without(Closure(edges), d) ensures (a, b) in Closure(rest) {
        var path :| Connects(edges, path, a, b);
        PathAround(edges, d, path);
        InClosure(rest, a, b);
      }
    }
    if Without(Closure(edges), d) == Closure(rest) {
      forall p, c | (p, d) in edges && (d, c) in edges && p != d && c != d ensures Reaches(rest, p, c) {
        EdgeReaches(edges, p, d);
        EdgeReaches(edges, d, c);
        ReachesTransitive(edges, p, d, c);
        InClosure(edges, p, c);
        InClosure(rest, p, c);
      }
    }
  }
}
