/** Who counts as a member, said of the rows of the tables. */
module MembershipLaws {
  import opened GroupGraph
  import opened Membership
  import opened Prelude

  /** The groups a user is in outright: by a row, or as everyone is in
      Anonymous, or by the session.  A session's special groups are its own
      user's, or anybody's while nobody is logged in. */
  lemma DirectIff(session: Session, e: Option<int>, members: set<Edge>, g: int)
    ensures g in DirectGroups(session, e, members) <==>
      || g == 0
      || (e.Some? && (g, e.value) in members)
      || (g in session.specialGroups && (session.currentUser == None || session.currentUser == e))
  {
    if e.Some? && (g, e.value) in members { assert (g, e.value).0 in DirectGroups(session, e, members); }
    if g in DirectGroups(session, e, members) && g != 0
       && !(g in session.specialGroups && SpecialGroupsApply(session, e)) {
      var r :| r in members && e == Some(r.1) && r.0 == g;
      assert r == (g, e.value);
    }
  }

  /** The rows of the cache lead up one step, and no further. */
  lemma GroupIDsIff(session: Session, e: Option<int>, members: set<Edge>, cache: set<Edge>, g: int)
    ensures g in GroupIDs(session, e, members, cache) <==>
      || g in DirectGroups(session, e, members)
      || exists b :: (g, b) in cache && b in DirectGroups(session, e, members)
  {
    var direct := DirectGroups(session, e, members);
    forall b | (g, b) in cache && b in direct ensures g in GroupIDs(session, e, members, cache) {
      assert (g, b).0 in set r | r in cache && r.1 in direct :: r.0;
    }
    if g in GroupIDs(session, e, members, cache) && g !in direct {
      var r :| r in cache && r.1 in direct && r.0 == g;
      var b := r.1;
      assert (g, b) in cache && b in direct;
    }
  }

  /** Another person gets nothing from the session's special groups. */
  lemma OwnSpecialGroupsOnly(session: Session, other: int, members: set<Edge>, edges: set<Edge>, g: int)
    requires session.currentUser.Some? && session.currentUser != Some(other)
    ensures g in GroupIDs(session, Some(other), members, Closure(edges)) <==>
      Holds(edges, members, g, other) || g == 0 || Reaches(edges, g, 0)
  {
    GroupIDsClosed(session, Some(other), members, edges, g);
    assert Above(edges, g, {ANONYMOUS_ID}) <==> g == 0 || Reaches(edges, g, 0) by {
      assert 0 in {ANONYMOUS_ID};
    }
  }

  lemma MemberIDsIff(members: set<Edge>, cache: set<Edge>, g: int, e: int)
    ensures e in MemberIDs(members, cache, g) <==> (g, e) in members || exists h :: (g, h) in cache && (h, e) in members
  {
    if (g, e) in members { assert (g, e).1 in MemberIDs(members, cache, g); }
    if h :| (g, h) in cache && (h, e) in members { assert (h, e).1 in MemberIDs(members, cache, g); }
    if e in MemberIDs(members, cache, g) {
      var r :| r in members && (r.0 == g || (g, r.0) in cache) && r.1 == e;
      assert r == (r.0, e);
    }
  }
}
