/** `Group` objects, the tables they edit, and the cache table from which
    every membership question is answered. */
module GroupCache {
  import opened GroupGraph
  import opened GroupRuns
  import opened GroupTables
  import opened Prelude

  class Database {
    var epersongroup2eperson: seq<Edge>
    var group2group: seq<Edge>
    var group2groupcache: seq<Edge>

    constructor ()
      ensures epersongroup2eperson == group2group == group2groupcache == []
    {
      epersongroup2eperson, group2group, group2groupcache := [], [], [];
    }

    ghost function Edges(): set<Edge> reads this { RowSet(group2group) }
    ghost function Cache(): set<Edge> reads this { RowSet(group2groupcache) }
    ghost function State(): Tables reads this { Tables(Edges(), Cache()) }
  }

  function RemoveFirst(s: seq<int>, x: int): seq<int> {
    if s == [] then [] else if s[0] == x then s[1..] else [s[0]] + RemoveFirst(s[1..], x)
  }

  /** The map `rethinkGroupCache` builds from the rows and then widens in
      place: all of the edges, and nothing outside their closure. */
  ghost predicate Widening(parents: map<int, set<int>>, edges: set<Edge>) {
    && (forall e :: e in edges ==> e.0 in parents && e.1 in parents[e.0])
    && (forall a, b :: a in parents && b in parents[a] ==> Reaches(edges, a, b))
  }

  /** `getChildren` of `a` returns, with calls nested no deeper than `depth`. */
  ghost predicate Returns(parents: map<int, set<int>>, a: int, depth: nat)
    decreases depth
  {
    depth > 0 && (a in parents ==> forall b | b in parents[a] :: Returns(parents, b, depth - 1))
  }

  lemma {:induction false} ReturnsDeeper(parents: map<int, set<int>>, a: int, depth: nat, more: nat)
    requires Returns(parents, a, depth) && depth <= more
    ensures Returns(parents, a, more)
    decreases depth
  {
    if a in parents {
      forall b | b in parents[a] ensures Returns(parents, b, more - 1) {
        ReturnsDeeper(parents, b, depth - 1, more - 1);
      }
    }
  }

  lemma {:induction false} CycleNeverReturns(parents: map<int, set<int>>, edges: set<Edge>, a: int, depth: nat)
    requires Widening(parents, edges) && Reaches(edges, a, a)
    ensures !Returns(parents, a, depth)
    decreases depth
  {
    if depth > 0 {
      var c := FirstStep(edges, a, a);
      assert (a, c).0 in parents && (a, c).1 in parents[(a, c).0];
      EdgeReaches(edges, a, c);
      if c != a { ReachesTransitive(edges, c, a, c); }
      CycleNeverReturns(parents, edges, c, depth - 1);
    }
  }

  lemma SmallerSet(a: set<int>, b: set<int>)
    requires a < b
    ensures |a| < |b|
  {
    assert b == a + (b - a);
  }

  /** Without a cycle, no more calls are nested than there are groups below. */
  lemma {:induction false} AcyclicReturns(parents: map<int, set<int>>, edges: set<Edge>, a: int)
    requires Widening(parents, edges) && Acyclic(edges)
    ensures Returns(parents, a, |Descendants(edges, a)| + 1)
    decreases |Descendants(edges, a)|
  {
    if a in parents {
      forall b | b in parents[a] ensures Returns(parents, b, |Descendants(edges, a)|) {
        DescendantsShrink(edges, a, b);
        SmallerSet(Descendants(edges, b), Descendants(edges, a));
        AcyclicReturns(parents, edges, b);
        ReturnsDeeper(parents, b, |Descendants(edges, b)| + 1, |Descendants(edges, a)|);
      }
    }
  }

  ghost predicate ReturnsAtAll(parents: map<int, set<int>>, a: int) {
    exists depth: nat :: Returns(parents, a, depth)
  }

  /** `getChildren` returns for every group, at whatever point of a rebuild, if
      and only if there is no cycle. */
  lemma ReturnsIffAcyclic(parents: map<int, set<int>>, edges: set<Edge>)
    requires Widening(parents, edges)
    ensures (forall a :: ReturnsAtAll(parents, a)) <==> Acyclic(edges)
  {
    if Acyclic(edges) {
      forall a ensures ReturnsAtAll(parents, a) { AcyclicReturns(parents, edges, a); }
    } else {
      var a :| Reaches(edges, a, a);
      forall depth: nat ensures !Returns(parents, a, depth) { CycleNeverReturns(parents, edges, a, depth); }
      assert !ReturnsAtAll(parents, a);
    }
  }

  class Group {
    const id: int
    const db: Database
    var epeople: seq<int>
    var groups: seq<int>
    var epeopleChanged: bool
    var groupsChanged: bool
    var isDataLoaded: bool

    ghost predicate Valid()
      reads this
    {
      !isDataLoaded ==> epeople == groups == [] && !epeopleChanged && !groupsChanged
    }

    constructor (id: int, db: Database)
      ensures Valid() && !isDataLoaded && this.id == id && this.db == db
    {
      this.id, this.db := id, db;
      epeople, groups, epeopleChanged, groupsChanged, isDataLoaded := [], [], false, false, false;
    }

    /** What the member lists are once loaded. */
    ghost function LoadedEPeople(): seq<int>
      reads this, db
    {
      if isDataLoaded then epeople else Select(db.epersongroup2eperson, id)
    }

    ghost function LoadedGroups(): seq<int>
      reads this, db
    {
      if isDataLoaded then groups else Select(db.group2group, id)
    }

    method LoadData()
      requires Valid()
      modifies this
      ensures Valid() && isDataLoaded
      ensures epeople == old(LoadedEPeople()) && groups == old(LoadedGroups())
      ensures epeopleChanged == old(epeopleChanged) && groupsChanged == old(groupsChanged)
    {
      if !isDataLoaded {
        var rows := db.epersongroup2eperson;
        for i := 0 to |rows|
          invariant epeople == Select(rows[..i], id) && groups == [] && !isDataLoaded
          invariant epeopleChanged == old(epeopleChanged) && groupsChanged == old(groupsChanged)
        {
          assert rows[..i + 1][..i] == rows[..i];
          if rows[i].0 == id { epeople := epeople + [rows[i].1]; }
        }
        assert rows[..|rows|] == rows;
        rows := db.group2group;
        for i := 0 to |rows|
          invariant groups == Select(rows[..i], id) && epeople == old(LoadedEPeople())
          invariant epeopleChanged == old(epeopleChanged) && groupsChanged == old(groupsChanged)
        {
          assert rows[..i + 1][..i] == rows[..i];
          if rows[i].0 == id { groups := groups + [rows[i].1]; }
        }
        assert rows[..|rows|] == rows;
        isDataLoaded := true;
      }
    }

    method IsEPersonMember(e: int) returns (b: bool)
      requires Valid()
      modifies this
      ensures Valid()
      ensures b <==> id == ANONYMOUS_ID || e in old(LoadedEPeople())
      ensures LoadedEPeople() == old(LoadedEPeople()) && LoadedGroups() == old(LoadedGroups())
      ensures old(isDataLoaded) ==> isDataLoaded
      ensures epeopleChanged == old(epeopleChanged) && groupsChanged == old(groupsChanged)
    {
      if id == ANONYMOUS_ID { return true; }
      LoadData();
      return e in epeople;
    }

    method AddEPerson(e: int)
      requires Valid()
      modifies this
      ensures Valid() && isDataLoaded
      ensures var was := old(LoadedEPeople());
              if id == ANONYMOUS_ID || e in was
              then epeople == was && epeopleChanged == old(epeopleChanged)
              else epeople == was + [e] && epeopleChanged
      ensures groups == old(LoadedGroups()) && groupsChanged == old(groupsChanged)
    {
      LoadData();
      var already := IsEPersonMember(e);
      if already { return; }
      epeople, epeopleChanged := epeople + [e], true;
    }

    method AddGroup(g: Group)
      requires Valid()
      modifies this
      ensures Valid() && isDataLoaded
      ensures var was := old(LoadedGroups());
              if g.id in was || g.id == id
              then groups == was && groupsChanged == old(groupsChanged)
              else groups == was + [g.id] && groupsChanged
      ensures epeople == old(LoadedEPeople()) && epeopleChanged == old(epeopleChanged)
    {
      LoadData();
      if g.id in groups || id == g.id { return; }
      groups, groupsChanged := groups + [g.id], true;
    }

    method RemoveEPerson(e: int)
      requires Valid()
      modifies this
      ensures Valid() && isDataLoaded
      ensures epeople == RemoveFirst(old(LoadedEPeople()), e)
      ensures epeopleChanged <==> old(epeopleChanged) || e in old(LoadedEPeople())
      ensures groups == old(LoadedGroups()) && groupsChanged == old(groupsChanged)
    {
      LoadData();
      RemoveAbsent(epeople, e);
      if e in epeople {
        epeople, epeopleChanged := RemoveFirst(epeople, e), true;
      }
    }

    method RemoveGroup(g: Group)
      requires Valid()
      modifies this
      ensures Valid() && isDataLoaded
      ensures groups == RemoveFirst(old(LoadedGroups()), g.id)
      ensures groupsChanged <==> old(groupsChanged) || g.id in old(LoadedGroups())
      ensures epeople == old(LoadedEPeople()) && epeopleChanged == old(epeopleChanged)
    {
      LoadData();
      RemoveAbsent(groups, g.id);
      if g.id in groups {
        groups, groupsChanged := RemoveFirst(groups, g.id), true;
      }
    }

    /** All groups below `parent`, by recursion over a map that earlier
        iterations of the caller's loop have already widened. */
    method GetChildren(parents: map<int, set<int>>, parent: int, ghost edges: set<Edge>) returns (myChildren: set<int>)
      requires Acyclic(edges) && Widening(parents, edges)
      ensures myChildren == Descendants(edges, parent)
      decreases Descendants(edges, parent)
    {
      myChildren := {};
      if parent !in parents {
        NoRowsNoDescendants(parents, parent, edges);
        return;
      }
      var children := parents[parent];
      var rest := children;
      while rest != {}
        invariant rest <= children
        invariant myChildren <= Descendants(edges, parent)
        invariant forall c :: c in children - rest ==> c in myChildren && Descendants(edges, c) <= myChildren
      {
        var childID := Choose(rest);
        rest := rest - {childID};
        assert Reaches(edges, parent, childID);
        InDescendants(edges, parent, childID);
        DescendantsShrink(edges, parent, childID);
        var below := GetChildren(parents, childID, edges);
        myChildren := myChildren + {childID} + below;
      }
      forall b | b in Descendants(edges, parent) ensures b in myChildren {
        var c := FirstStep(edges, parent, b);
        assert (parent, c).1 in parents[(parent, c).0];
        InDescendants(edges, c, b);
      }
    }

    /** Rebuilds the cache from `group2group`: exactly the transitive closure,
        one row a pair, in whatever order the map is walked. */
    method RethinkGroupCache()
      requires Acyclic(db.Edges())
      modifies db`group2groupcache
      ensures db.Cache() == Closure(db.Edges())
      ensures NoDuplicates(db.group2groupcache)
    {
      ghost var edges := db.Edges();
      var parents := ReadParents();
      var keys := parents.Keys;
      var rest := keys;
      while rest != {}
        invariant rest <= keys == parents.Keys && Widening(parents, edges)
        invariant forall k :: k in keys - rest ==> parents[k] == Descendants(edges, k)
      {
        var k := Choose(rest);
        rest := rest - {k};
        var myChildren := GetChildren(parents, k, edges);
        forall b | b in parents[k] ensures b in myChildren { InDescendants(edges, k, b); }
        parents := parents[k := parents[k] + myChildren];
      }
      db.group2groupcache := [];
      WriteCache(parents);
      forall row: Edge ensures row in db.Cache() <==> row in Closure(edges) {
        var (a, b) := row;
        InClosure(edges, a, b);
        InDescendants(edges, a, b);
        if Reaches(edges, a, b) {
          var c := FirstStep(edges, a, b);
          assert (a, c).0 in parents;
        }
        assert row in db.Cache() <==> a in parents && b in parents[a];
      }
    }

    method ReadParents() returns (parents: map<int, set<int>>)
      ensures Widening(parents, db.Edges())
    {
      parents := map[];
      var rows := db.group2group;
      for i := 0 to |rows|
        invariant forall a, b :: a in parents && b in parents[a] <==> a in parents && (a, b) in rows[..i]
        invariant forall r :: r in rows[..i] ==> r.0 in parents
      {
        var (parentID, childID) := rows[i];
        assert rows[..i + 1] == rows[..i] + [(parentID, childID)];
        if parentID !in parents {
          parents := parents[parentID := {childID}];
        } else {
          parents := parents[parentID := parents[parentID] + {childID}];
        }
      }
      assert rows[..|rows|] == rows;
      forall a, b | a in parents && b in parents[a] ensures Reaches(db.Edges(), a, b) {
        EdgeReaches(db.Edges(), a, b);
      }
      forall e | e in db.Edges() ensures e.0 in parents && e.1 in parents[e.0] {
        var (a, b) := e;
        assert (a, b) in rows[..|rows|];
        assert b in parents[a];
      }
    }

    method WriteCache(parents: map<int, set<int>>)
      requires db.group2groupcache == []
      modifies db`group2groupcache
      ensures forall a, b :: (a, b) in db.Cache() <==> a in parents && b in parents[a]
      ensures NoDuplicates(db.group2groupcache)
    {
      var rest := parents.Keys;
      while rest != {}
        invariant rest <= parents.Keys
        invariant forall a, b :: (a, b) in db.group2groupcache <==> a in parents.Keys - rest && b in parents[a]
        invariant NoDuplicates(db.group2groupcache)
      {
        var k := Choose(rest);
        rest := rest - {k};
        var children := parents[k];
        while children != {}
          invariant children <= parents[k]
          invariant forall a, b :: (a, b) in db.group2groupcache <==>
            a in parents.Keys - rest && b in parents[a] && (a == k ==> b !in children)
          invariant NoDuplicates(db.group2groupcache)
        {
          var child := Choose(children);
          children := children - {child};
          db.group2groupcache := db.group2groupcache + [(k, child)];
        }
      }
    }

    /** The step of the state machine that `Update` is about to take. */
    ghost function UpdateEvent(): Event
      reads this
    {
      if groupsChanged then SetSubgroups(id, set c | c in groups) else KeepSubgroups
    }

    /** Writes changed member lists; a change of subgroups rebuilds the cache.
        The rebuild recurses down the new graph, so it needs that graph to be acyclic. */
    method Update()
      requires Valid()
      requires Acyclic(Step(db.State(), UpdateEvent()).edges)
      modifies this, db
      ensures Valid() && !epeopleChanged && !groupsChanged
      ensures epeople == old(epeople) && groups == old(groups) && isDataLoaded == old(isDataLoaded)
      ensures db.epersongroup2eperson == if old(epeopleChanged)
              then DeleteParent(old(db.epersongroup2eperson), id) + MappingRows(id, epeople)
              else old(db.epersongroup2eperson)
      ensures db.group2group == if old(groupsChanged)
              then DeleteParent(old(db.group2group), id) + MappingRows(id, groups)
              else old(db.group2group)
      ensures if old(groupsChanged)
              then NoDuplicates(db.group2groupcache)
              else db.group2groupcache == old(db.group2groupcache)
      ensures db.State() == Step(old(db.State()), old(UpdateEvent()))
    {
      if epeopleChanged {
        WriteEPeople();
        epeopleChanged := false;
      }
      if groupsChanged {
        WriteSubgroups();
        RewrittenEdges(old(db.group2group), id, groups);
        RethinkGroupCache();
        groupsChanged := false;
      }
    }

    method WriteEPeople()
      modifies db`epersongroup2eperson
      ensures db.epersongroup2eperson == DeleteParent(old(db.epersongroup2eperson), id) + MappingRows(id, epeople)
    {
      db.epersongroup2eperson := DeleteParent(db.epersongroup2eperson, id);
      for i := 0 to |epeople|
        invariant db.epersongroup2eperson
          == DeleteParent(old(db.epersongroup2eperson), id) + MappingRows(id, epeople)[..i]
      {
        db.epersongroup2eperson := db.epersongroup2eperson + [(id, epeople[i])];
      }
      assert MappingRows(id, epeople)[..|epeople|] == MappingRows(id, epeople);
    }

    method WriteSubgroups()
      modifies db`group2group
      ensures db.group2group == DeleteParent(old(db.group2group), id) + MappingRows(id, groups)
    {
      db.group2group := DeleteParent(db.group2group, id);
      for i := 0 to |groups|
        invariant db.group2group == DeleteParent(old(db.group2group), id) + MappingRows(id, groups)[..i]
      {
        db.group2group := db.group2group + [(id, groups[i])];
      }
      assert MappingRows(id, groups)[..|groups|] == MappingRows(id, groups);
    }

    /** Removes every row that names the group.  The cache is not rebuilt. */
    method Delete()
      modifies this, db
      ensures epeople == [] && groups == old(groups)
      ensures db.epersongroup2eperson == DeleteParent(old(db.epersongroup2eperson), id)
      ensures db.group2group == DeleteEither(old(db.group2group), id)
      ensures db.group2groupcache == DeleteEither(old(db.group2groupcache), id)
      ensures db.State() == Step(old(db.State()), DeleteGroup(id))
    {
      db.epersongroup2eperson := DeleteParent(db.epersongroup2eperson, id);
      db.group2groupcache := DeleteEither(db.group2groupcache, id);
      db.group2group := DeleteEither(db.group2group, id);
      epeople := [];
    }
  }

  lemma {:induction false} RemoveAbsent(s: seq<int>, x: int)
    ensures x !in s ==> RemoveFirst(s, x) == s
  {
    if s != [] { RemoveAbsent(s[1..], x); }
  }

  /** Rewriting a group's rows is replacing its outgoing edges. */
  lemma RewrittenEdges(rows: seq<Edge>, id: int, groups: seq<int>)
    ensures RowSet(DeleteParent(rows, id) + MappingRows(id, groups))
         == Under(RowsOfOthers(RowSet(rows), id), id, set c | c in groups)
  {
    DeleteParentKeeps(rows, id);
    forall c | c in groups ensures (id, c) in MappingRows(id, groups) {
      var i :| 0 <= i < |groups| && groups[i] == c;
      assert MappingRows(id, groups)[i] == (id, c);
    }
    var ids := set c | c in groups;
    var left := RowSet(DeleteParent(rows, id) + MappingRows(id, groups));
    var right := Under(RowsOfOthers(RowSet(rows), id), id, ids);
    forall r: Edge | r in left ensures r in right {
      if r in MappingRows(id, groups) {
        var i :| 0 <= i < |groups| && MappingRows(id, groups)[i] == r;
        var c := groups[i];
        assert c in ids && r == (id, c);
      } else {
        assert r in DeleteParent(rows, id);
        assert r in RowsOfOthers(RowSet(rows), id);
      }
    }
    forall r: Edge | r in right ensures r in left {
      if r !in RowsOfOthers(RowSet(rows), id) {
        var c :| c in groups && r == (id, c);
      }
    }
  }

  lemma NoRowsNoDescendants(parents: map<int, set<int>>, parent: int, edges: set<Edge>)
    requires Widening(parents, edges) && parent !in parents
    ensures Descendants(edges, parent) == {}
  {
    forall b ensures !Reaches(edges, parent, b) {
      if Reaches(edges, parent, b) {
        var c := FirstStep(edges, parent, b);
        assert false;
      }
    }
  }
}
