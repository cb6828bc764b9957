/** Who belongs to a group: the answers read off the cache table and the
    answers found by walking the group graph. */
module Membership {
  import opened GroupCache
  import opened GroupGraph
  import opened GroupTables
  import opened Prelude

  /** The parts of a context that membership depends on. */
  datatype Session = Session(currentUser: Option<int>, specialGroups: seq<int>)

  /** `e` is in `g` itself or in some group below it. */
  ghost predicate Holds(edges: set<Edge>, members: set<Edge>, g: int, e: int) {
    exists h :: (h == g || Reaches(edges, g, h)) && (h, e) in members
  }

  /** The ids `allMemberIDs` collects: the rows of `g` and of its cached subgroups. */
  ghost function MemberIDs(members: set<Edge>, cache: set<Edge>, g: int): set<int> {
    set r | r in members && (r.0 == g || (g, r.0) in cache) :: r.1
  }

  /** Special groups count only for the session's own user, or when nobody is logged in. */
  predicate SpecialGroupsApply(session: Session, e: Option<int>) {
    session.currentUser.None? || session.currentUser == e
  }

  /** The groups a user is put in outright. */
  ghost function DirectGroups(session: Session, e: Option<int>, members: set<Edge>): set<int> {
    (set r | r in members && e == Some(r.1) :: r.0)
    + (if SpecialGroupsApply(session, e) then set s | s in session.specialGroups else {})
    + {ANONYMOUS_ID}
  }

  /** The ids `allMemberGroupIDs` collects: one hop up through the cache. */
  ghost function GroupIDs(session: Session, e: Option<int>, members: set<Edge>, cache: set<Edge>): set<int> {
    var direct := DirectGroups(session, e, members);
    direct + set r | r in cache && r.1 in direct :: r.0
  }

  /** `g` is one of the groups in `below`, or contains one of them. */
  ghost predicate Above(edges: set<Edge>, g: int, below: set<int>) {
    g in below || exists b :: b in below && Reaches(edges, g, b)
  }

  /** With nobody passed in while somebody is logged in, the source dereferences null. */
  method AllMemberGroupIDs(session: Session, db: Database, e: Option<int>) returns (groupIDs: set<int>)
    requires e.Some? || session.currentUser.None?
    ensures groupIDs == GroupIDs(session, e, RowSet(db.epersongroup2eperson), db.Cache())
  {
    groupIDs := {};
    var rows := db.epersongroup2eperson;
    if e.Some? {
      for i := 0 to |rows|
        invariant groupIDs == set r | r in rows[..i] && e == Some(r.1) :: r.0
      {
        assert rows[..i + 1] == rows[..i] + [rows[i]];
        if rows[i].1 == e.value { groupIDs := groupIDs + {rows[i].0}; }
      }
      assert rows[..|rows|] == rows;
    }
    if SpecialGroupsApply(session, e) {
      ghost var joined := groupIDs;
      for i := 0 to |session.specialGroups|
        invariant groupIDs == joined + set s | s in session.specialGroups[..i]
      {
        groupIDs := groupIDs + {session.specialGroups[i]};
      }
    }
    groupIDs := groupIDs + {ANONYMOUS_ID};
    var direct := groupIDs;
    assert direct == DirectGroups(session, e, RowSet(rows));
    var cached := db.group2groupcache;
    for i := 0 to |cached|
      invariant groupIDs == direct + set r | r in cached[..i] && r.1 in direct :: r.0
    {
      assert cached[..i + 1] == cached[..i] + [cached[i]];
      if cached[i].1 in direct { groupIDs := groupIDs + {cached[i].0}; }
    }
    assert cached[..|cached|] == cached;
  }

  method IsMember(session: Session, db: Database, e: Option<int>, groupid: int) returns (b: bool)
    requires e.Some? || session.currentUser.None?
    ensures b <==>
              (groupid == ANONYMOUS_ID || groupid in GroupIDs(session, e, RowSet(db.epersongroup2eperson), db.Cache()))
  {
    if groupid == ANONYMOUS_ID { return true; }
    var groupIDs := AllMemberGroupIDs(session, db, e);
    return groupid in groupIDs;
  }

  method AllMemberIDs(db: Database, g: int) returns (epeopleIDs: set<int>)
    ensures epeopleIDs == MemberIDs(RowSet(db.epersongroup2eperson), db.Cache(), g)
  {
    var groupIDs: set<int> := {};
    var cached := db.group2groupcache;
    for i := 0 to |cached|
      invariant groupIDs == set r | r in cached[..i] && r.0 == g :: r.1
    {
      assert cached[..i + 1] == cached[..i] + [cached[i]];
      if cached[i].0 == g { groupIDs := groupIDs + {cached[i].1}; }
    }
    assert cached[..|cached|] == cached;
    assert forall h :: h in groupIDs <==> (g, h) in db.Cache();
    epeopleIDs := {};
    var rows := db.epersongroup2eperson;
    for i := 0 to |rows|
      invariant epeopleIDs == set r | r in rows[..i] && (r.0 == g || r.0 in groupIDs) :: r.1
    {
      assert rows[..i + 1] == rows[..i] + [rows[i]];
      if rows[i].0 == g || rows[i].0 in groupIDs { epeopleIDs := epeopleIDs + {rows[i].1}; }
    }
    assert rows[..|rows|] == rows;
  }

  /** The naive search: the group's own members first, then each subgroup in turn. */
  method IsInGroup(db: Database, group: int, eperson: int) returns (found: bool)
    requires Acyclic(db.Edges())
    ensures found <==> Holds(db.Edges(), RowSet(db.epersongroup2eperson), group, eperson)
    decreases Descendants(db.Edges(), group)
  {
    ghost var edges, members := db.Edges(), RowSet(db.epersongroup2eperson);
    var eps, groups := Select(db.epersongroup2eperson, group), Select(db.group2group, group);
    SelectFinds(db.epersongroup2eperson, group);
    SelectFinds(db.group2group, group);
    for i := 0 to |eps|
      invariant eperson !in eps[..i]
    {
      if eps[i] == eperson {
        assert (group, eperson) in members;
        return true;
      }
    }
    assert (group, eperson) !in members;
    for j := 0 to |groups|
      invariant forall k :: 0 <= k < j ==> !Holds(edges, members, groups[k], eperson)
    {
      assert groups[j] in groups && (group, groups[j]) in edges;
      EdgeReaches(edges, group, groups[j]);
      DescendantsShrink(edges, group, groups[j]);
      var inside := IsInGroup(db, groups[j], eperson);
      if inside {
        HoldsBelow(edges, members, group, groups[j], eperson);
        return true;
      }
    }
    assert forall c :: (group, c) in edges ==> c in groups;
    HoldsCases(edges, members, group, eperson);
    return false;
  }

  ghost predicate NoMembers(edges: set<Edge>, members: set<Edge>, g: int) {
    forall e :: !Holds(edges, members, g, e)
  }

  /** No direct or indirect members, by the same walk. */
  method IsEmpty(db: Database, group: int) returns (empty: bool)
    requires Acyclic(db.Edges())
    ensures empty <==> NoMembers(db.Edges(), RowSet(db.epersongroup2eperson), group)
    decreases Descendants(db.Edges(), group)
  {
    ghost var edges, members := db.Edges(), RowSet(db.epersongroup2eperson);
    var eps, groups := Select(db.epersongroup2eperson, group), Select(db.group2group, group);
    SelectFinds(db.epersongroup2eperson, group);
    SelectFinds(db.group2group, group);
    if |eps| != 0 {
      ghost var e := eps[0];
      assert e in eps;
      assert (group, e) in members;
      assert Holds(edges, members, group, e);
      return false;
    }
    for j := 0 to |groups|
      invariant forall k :: 0 <= k < j ==> NoMembers(edges, members, groups[k])
    {
      assert groups[j] in groups && (group, groups[j]) in edges;
      EdgeReaches(edges, group, groups[j]);
      DescendantsShrink(edges, group, groups[j]);
      var subEmpty := IsEmpty(db, groups[j]);
      if !subEmpty {
        ghost var e :| Holds(edges, members, groups[j], e);
        HoldsBelow(edges, members, group, groups[j], e);
        return false;
      }
    }
    assert forall c :: (group, c) in edges ==> c in groups;
    forall e ensures !Holds(edges, members, group, e) {
      HoldsCases(edges, members, group, e);
    }
    return true;
  }

  lemma HoldsBelow(edges: set<Edge>, members: set<Edge>, g: int, sub: int, e: int)
    requires Reaches(edges, g, sub) && Holds(edges, members, sub, e)
    ensures Holds(edges, members, g, e)
  {
    var h :| (h == sub || Reaches(edges, sub, h)) && (h, e) in members;
    if h != sub { ReachesTransitive(edges, g, sub, h); }
  }

  /** Membership unfolds one level at a time. */
  lemma HoldsCases(edges: set<Edge>, members: set<Edge>, g: int, e: int)
    ensures Holds(edges, members, g, e) <==>
              ((g, e) in members || exists c :: (g, c) in edges && Holds(edges, members, c, e))
  {
    if Holds(edges, members, g, e) && (g, e) !in members {
      var h :| (h == g || Reaches(edges, g, h)) && (h, e) in members;
      var c := FirstStep(edges, g, h);
      assert Holds(edges, members, c, e);
    }
    forall c | (g, c) in edges && Holds(edges, members, c, e) ensures Holds(edges, members, g, e) {
      EdgeReaches(edges, g, c);
      HoldsBelow(edges, members, g, c, e);
    }
  }

  /** The cache answers membership as the walk does. */
  ghost predicate SearchesAgree(edges: set<Edge>, cache: set<Edge>) {
    forall members: set<Edge>, g, e :: e in MemberIDs(members, cache, g) <==> Holds(edges, members, g, e)
  }

  ghost predicate ExactBetweenGroups(edges: set<Edge>, cache: set<Edge>) {
    forall g, h :: g != h ==> ((g, h) in cache <==> Reaches(edges, g, h))
  }

  /** The cached query and the recursive search give the same answer on every
      table of members exactly when the cache is the closure. */
  lemma SearchesAgreeIffExact(edges: set<Edge>, cache: set<Edge>)
    ensures SearchesAgree(edges, cache) <==> ExactBetweenGroups(edges, cache)
  {
    if ExactBetweenGroups(edges, cache) {
      forall members: set<Edge>, g, e ensures e in MemberIDs(members, cache, g) <==> Holds(edges, members, g, e) {
        if Holds(edges, members, g, e) {
          var h :| (h == g || Reaches(edges, g, h)) && (h, e) in members;
          assert (h, e).1 in MemberIDs(members, cache, g);
        }
        if e in MemberIDs(members, cache, g) {
          var r :| r in members && (r.0 == g || (g, r.0) in cache) && r.1 == e;
          assert r == (r.0, e);
        }
      }
    }
    if SearchesAgree(edges, cache) {
      forall g, h | g != h ensures (g, h) in cache <==> Reaches(edges, g, h) {
        var members: set<Edge> := {(h, 1)};
        assert 1 in MemberIDs(members, cache, g) <==> Holds(edges, members, g, 1);
        assert 1 in MemberIDs(members, cache, g) <==> (g, h) in cache by {
          assert (h, 1) in members;
          assert forall r :: r in members ==> r == (h, 1);
        }
        assert Holds(edges, members, g, 1) <==> Reaches(edges, g, h) by {
          assert (h, 1) in members;
        }
      }
    }
  }

  /** A closure table is exact between groups, so every rebuilt cache agrees with the search. */
  lemma ClosureAgrees(edges: set<Edge>)
    ensures SearchesAgree(edges, Closure(edges))
  {
    forall g, h ensures (g, h) in Closure(edges) <==> Reaches(edges, g, h) { InClosure(edges, g, h); }
    SearchesAgreeIffExact(edges, Closure(edges));
  }

  /** One hop through an exact cache is the whole way up, and the groups found
      for a user are those that hold the user or reach a group everybody (0)
      or this session (special groups) is in. */
  lemma GroupIDsClosed(session: Session, e: Option<int>, members: set<Edge>, edges: set<Edge>, g: int)
    ensures g in GroupIDs(session, e, members, Closure(edges))
       <==> Above(edges, g, DirectGroups(session, e, members))
    ensures g in GroupIDs(session, e, members, Closure(edges))
       <==> (|| (e.Some? && Holds(edges, members, g, e.value))
             || Above(edges, g, {ANONYMOUS_ID})
             || (SpecialGroupsApply(session, e) && Above(edges, g, set s | s in session.specialGroups)))
  {
    var direct, cache := DirectGroups(session, e, members), Closure(edges);
    if g in GroupIDs(session, e, members, cache) && g !in direct {
      var r :| r in cache && r.1 in direct && r.0 == g;
      assert r == (g, r.1);
      InClosure(edges, g, r.1);
    }
    forall b | b in direct && Reaches(edges, g, b) ensures g in GroupIDs(session, e, members, cache) {
      InClosure(edges, g, b);
      assert (g, b).0 in set r | r in cache && r.1 in direct :: r.0;
    }
    if e.Some? {
      assert forall h :: (h, e.value) in members ==> (h, e.value).0 in direct;
    }
    var special := set s | s in session.specialGroups;
    if Above(edges, g, direct) {
      var b :| b in direct && (b == g || Reaches(edges, g, b));
      if b == ANONYMOUS_ID {
        assert Above(edges, g, {ANONYMOUS_ID});
      } else if SpecialGroupsApply(session, e) && b in special {
        assert Above(edges, g, special);
      } else {
        var r :| r in members && e == Some(r.1) && r.0 == b;
        assert r == (b, e.value);
      }
    }
    if Above(edges, g, {ANONYMOUS_ID}) { assert ANONYMOUS_ID in direct; }
    if SpecialGroupsApply(session, e) && Above(edges, g, special) {
      var b :| b in special && (b == g || Reaches(edges, g, b));
      assert b in direct;
    }
  }

  /** A cache left stale by a deletion grants memberships the graph does not:
      with 2 gone from 1 > 2 > 3, a member of 3 still counts as a member of 1. */
  lemma StaleCacheOvercounts()
    ensures 7 in MemberIDs({(3, 7)}, {(1, 3)}, 1)
    ensures !Holds({}, {(3, 7)}, 1, 7)
  {
    assert (3, 7).1 in MemberIDs({(3, 7)}, {(1, 3)}, 1);
    HoldsCases({}, {(3, 7)}, 1, 7);
  }
}
