/** The policies an embargo leaves on an object. */
module EmbargoPolicies {
  import opened Prelude

  datatype Kind = BitstreamKind | BundleKind | ItemKind | CollectionKind | CommunityKind

  datatype Action = Read | DefaultItemRead | OtherAction(code: int)

  datatype RpType = Custom | OtherType(name: string)

  datatype Dso = Dso(kind: Kind, id: int)

  /** A row of the policy table, its id aside. */
  datatype Row = Row(
    resource: Dso, action: Action, group: Option<int>, eperson: Option<int>, rpType: Option<RpType>,
    startDate: Option<int>, endDate: Option<int>, name: Option<string>, description: Option<string>)

  type Rows = map<int, Row>

  datatype Embargo = Embargo(date: Option<int>, reason: Option<string>)

  // ---------- single rows

  predicate Matches(r: Row, d: Dso, g: int) {
    r.resource == d && r.group == Some(g) && r.action == Read
  }

  predicate IsCustom(r: Row, d: Dso) {
    r.resource == d && r.rpType == Some(Custom)
  }

  /** What `createOrModifyPolicy` makes of a row already there. */
  function Changed(r: Row, g: int, e: Embargo): Row {
    r.(rpType := Some(Custom), group := Some(g), eperson := None, startDate := e.date,
       endDate := if e.date.Some? then r.endDate else None, name := None, description := e.reason)
  }

  /** A new row is an item's unless the object is a bitstream or a bundle. */
  function NewResource(d: Dso): Dso {
    if d.kind == BitstreamKind || d.kind == BundleKind then d else Dso(ItemKind, d.id)
  }

  function NewRow(d: Dso, g: int, e: Embargo): Row {
    Row(NewResource(d), Read, Some(g), None, Some(Custom), e.date, None, None, e.reason)
  }

  // ---------- the table

  function MatchingIds(rows: Rows, d: Dso, g: int): set<int> {
    set id | id in rows && Matches(rows[id], d, g)
  }

  function CustomIds(rows: Rows, d: Dso): set<int> {
    set id | id in rows && IsCustom(rows[id], d)
  }

  function GrantingIds(rows: Rows, d: Dso, a: Action): set<int> {
    set id | id in rows && rows[id].resource == d && rows[id].action == a
  }

  ghost function AuthorizedGroups(rows: Rows, d: Dso, a: Action): set<int> {
    set id | id in GrantingIds(rows, d, a) && rows[id].group.Some? :: rows[id].group.value
  }

  /** Anonymous alone, if it is authorized: everyone is in it. */
  ghost function Target(authorized: set<int>): set<int> {
    if ANONYMOUS_ID in authorized then {ANONYMOUS_ID} else authorized
  }

  /** One call: some matching row is changed, or a new one is added. */
  ghost predicate Modifies(before: Rows, after: Rows, d: Dso, g: int, e: Embargo) {
    if MatchingIds(before, d, g) == {} then exists id :: id !in before && after == before[id := NewRow(d, g, e)]
    else exists id :: id in MatchingIds(before, d, g) && after == before[id := Changed(before[id], g, e)]
  }

  ghost predicate MatchedOnce(rows: Rows, d: Dso) {
    forall i, j | i in rows && j in rows && i != j && rows[i].group.Some? && Matches(rows[i], d, rows[i].group.value) ::
      !Matches(rows[j], d, rows[i].group.value)
  }

  /** Even with duplicates, only the matching rows of the groups are changed. */
  ghost predicate KeptOrChanged(before: Rows, after: Rows, d: Dso, groups: set<int>, e: Embargo) {
    forall id | id in before :: id in after &&
      (after[id] == before[id]
        || (Touched(before[id], d, groups) && after[id] == Changed(before[id], before[id].group.value, e)))
  }

  lemma KeptOrChangedStep(before: Rows, mid: Rows, after: Rows, d: Dso, done: set<int>, g: int, e: Embargo)
    requires KeptOrChanged(before, mid, d, done, e) && Modifies(mid, after, d, g, e)
    ensures KeptOrChanged(before, after, d, done + {g}, e)
  {
  }

  predicate Touched(r: Row, d: Dso, groups: set<int>) {
    r.group.Some? && r.group.value in groups && Matches(r, d, r.group.value)
  }

  /** The matching rows are changed, and all others are as they were. */
  ghost predicate Kept(before: Rows, after: Rows, d: Dso, groups: set<int>, e: Embargo) {
    forall id | id in before :: id in after &&
      after[id] == if Touched(before[id], d, groups) then Changed(before[id], before[id].group.value, e) else before[id]
  }

  /** The group a new row is for, if it is one this embargo adds. */
  ghost predicate AddedFor(before: Rows, r: Row, d: Dso, g: int, e: Embargo) {
    r == NewRow(d, g, e) && MatchingIds(before, d, g) == {}
  }

  ghost predicate OnlyAdded(before: Rows, after: Rows, d: Dso, groups: set<int>, e: Embargo) {
    forall id | id in after && id !in before :: after[id].group.Some? && after[id].group.value in groups
      && AddedFor(before, after[id], d, after[id].group.value, e)
  }

  ghost predicate Has(before: Rows, after: Rows, r: Row) {
    exists id :: id in after && id !in before && after[id] == r
  }

  ghost predicate AllAdded(before: Rows, after: Rows, d: Dso, groups: set<int>, e: Embargo) {
    forall g | g in groups && MatchingIds(before, d, g) == {} :: Has(before, after, NewRow(d, g, e))
  }

  ghost predicate NoTwins(before: Rows, after: Rows) {
    forall i, j | i in after && j in after && i !in before && j !in before && i != j :: after[i] != after[j]
  }

  /** `after` is `before` with a policy for each of the groups: the matching row
      changed where there is one, and a new row where there is none. */
  ghost predicate Embargoed(before: Rows, after: Rows, d: Dso, groups: set<int>, e: Embargo) {
    && Kept(before, after, d, groups, e)
    && OnlyAdded(before, after, d, groups, e)
    && AllAdded(before, after, d, groups, e)
    && (NewResource(d) == d ==> NoTwins(before, after))
  }

  lemma EmbargoedNone(rows: Rows, d: Dso, e: Embargo)
    ensures Embargoed(rows, rows, d, {}, e)
  {
  }

  /** A row that matches a group not yet dealt with is one that matched before. */
  lemma MatchesBefore(before: Rows, mid: Rows, d: Dso, done: set<int>, g: int, e: Embargo)
    requires Kept(before, mid, d, done, e) && OnlyAdded(before, mid, d, done, e) && g !in done
    ensures MatchingIds(mid, d, g) == MatchingIds(before, d, g)
  {
    forall id: int ensures id in MatchingIds(mid, d, g) <==> id in MatchingIds(before, d, g) {
      if id in before { assert id in mid; }
    }
  }

  lemma EmbargoedByChange(before: Rows, mid: Rows, after: Rows, d: Dso, done: set<int>, g: int, e: Embargo, id: int)
    requires Embargoed(before, mid, d, done, e) && MatchedOnce(before, d) && g !in done
    requires id in before && Matches(before[id], d, g) && mid[id] == before[id]
      && after == mid[id := Changed(before[id], g, e)]
    ensures Embargoed(before, after, d, done + {g}, e)
  {
    assert Kept(before, after, d, done + {g}, e) by {
      forall k | k in before && k != id ensures Touched(before[k], d, done + {g}) <==> Touched(before[k], d, done) {}
    }
    assert id in MatchingIds(before, d, g);
    forall h | h in done + {g} && MatchingIds(before, d, h) == {} ensures Has(before, after, NewRow(d, h, e)) {
      var k :| k in mid && k !in before && mid[k] == NewRow(d, h, e);
      assert after[k] == NewRow(d, h, e);
    }
  }

  lemma EmbargoedByRow(before: Rows, mid: Rows, after: Rows, d: Dso, done: set<int>, g: int, e: Embargo, id: int)
    requires Embargoed(before, mid, d, done, e) && MatchingIds(before, d, g) == {}
    requires id !in mid && after == mid[id := NewRow(d, g, e)]
    requires g in done ==> NewResource(d) != d
    ensures Embargoed(before, after, d, done + {g}, e)
  {
    assert Kept(before, after, d, done + {g}, e) by {
      forall k | k in before ensures Touched(before[k], d, done + {g}) <==> Touched(before[k], d, done) {
        assert k !in MatchingIds(before, d, g);
      }
    }
    forall h | h in done + {g} && MatchingIds(before, d, h) == {} ensures Has(before, after, NewRow(d, h, e)) {
      if h == g {
        assert after[id] == NewRow(d, h, e);
      } else {
        var k :| k in mid && k !in before && mid[k] == NewRow(d, h, e);
        assert after[k] == NewRow(d, h, e);
      }
    }
  }

  lemma ChangingAgain(before: Rows, mid: Rows, d: Dso, done: set<int>, g: int, e: Embargo, id: int)
    requires Embargoed(before, mid, d, done, e) && g in done && id in mid && Matches(mid[id], d, g)
    ensures Changed(mid[id], g, e) == mid[id]
  {
  }

  lemma EmbargoedStep(before: Rows, mid: Rows, after: Rows, d: Dso, done: set<int>, g: int, e: Embargo)
    requires Embargoed(before, mid, d, done, e) && Modifies(mid, after, d, g, e) && MatchedOnce(before, d)
    ensures Embargoed(before, after, d, done + {g}, e)
  {
    if g !in done {
      MatchesBefore(before, mid, d, done, g, e);
      if MatchingIds(mid, d, g) == {} {
        var id :| id !in mid && after == mid[id := NewRow(d, g, e)];
        EmbargoedByRow(before, mid, after, d, done, g, e, id);
      } else {
        var id :| id in MatchingIds(mid, d, g) && after == mid[id := Changed(mid[id], g, e)];
        EmbargoedByChange(before, mid, after, d, done, g, e, id);
      }
    } else {
      assert done + {g} == done;
      EmbargoedAgain(before, mid, after, d, done, g, e);
    }
  }

  lemma EmbargoedAgain(before: Rows, mid: Rows, after: Rows, d: Dso, done: set<int>, g: int, e: Embargo)
    requires Embargoed(before, mid, d, done, e) && Modifies(mid, after, d, g, e) && g in done
    ensures Embargoed(before, after, d, done, e)
  {
    if MatchingIds(mid, d, g) == {} {
      forall id | id in before ensures !Matches(before[id], d, g) {
        assert id !in MatchingIds(mid, d, g);
      }
      assert MatchingIds(before, d, g) == {};
      var made :| made in mid && made !in before && mid[made] == NewRow(d, g, e);
      assert made !in MatchingIds(mid, d, g);
      var id :| id !in mid && after == mid[id := NewRow(d, g, e)];
      EmbargoedByRow(before, mid, after, d, done, g, e, id);
      assert done + {g} == done;
    } else {
      var id :| id in MatchingIds(mid, d, g) && after == mid[id := Changed(mid[id], g, e)];
      ChangingAgain(before, mid, d, done, g, e, id);
      assert after == mid;
    }
  }

  // ---------- what it means for the object

  ghost predicate Grants(r: Row, d: Dso, g: int, e: Embargo) {
    && r.resource == d && r.action == Read && r.group == Some(g) && r.eperson == None && r.rpType == Some(Custom)
    && r.startDate == e.date && r.name == None && r.description == e.reason && (e.date.None? ==> r.endDate == None)
  }

  /** The object's custom policies are one read policy with the embargo's start
      date for each of the groups. */
  ghost predicate OneEach(rows: Rows, d: Dso, groups: set<int>, e: Embargo) {
    && (forall id | id in CustomIds(rows, d) ::
          rows[id].group.Some? && rows[id].group.value in groups && Grants(rows[id], d, rows[id].group.value, e))
    && (forall g | g in groups :: exists id :: id in CustomIds(rows, d) && rows[id].group == Some(g))
    && (forall i, j | i in CustomIds(rows, d) && j in CustomIds(rows, d) && i != j :: rows[i].group != rows[j].group)
  }

  lemma OneEachHolds(before: Rows, after: Rows, d: Dso, groups: set<int>, e: Embargo)
    requires Embargoed(before, after, d, groups, e) && MatchedOnce(before, d) && CustomIds(before, d) == {}
    requires NewResource(d) == d || forall g | g in groups :: MatchingIds(before, d, g) != {}
    ensures OneEach(after, d, groups, e)
  {
    forall id | id in CustomIds(after, d)
      ensures after[id].group.Some? && after[id].group.value in groups && Grants(after[id], d, after[id].group.value, e)
    {
      if id in before { assert id !in CustomIds(before, d); }
    }
    forall g | g in groups ensures exists id :: id in CustomIds(after, d) && after[id].group == Some(g) {
      if MatchingIds(before, d, g) == {} {
        assert Has(before, after, NewRow(d, g, e));
        var id :| id in after && id !in before && after[id] == NewRow(d, g, e);
        assert id in CustomIds(after, d);
      } else {
        var id := SomeElement(MatchingIds(before, d, g));
        assert Touched(before[id], d, groups) && id in CustomIds(after, d);
      }
    }
    forall i, j | i in CustomIds(after, d) && j in CustomIds(after, d) && i != j
      ensures after[i].group != after[j].group
    {
      CustomsDiffer(before, after, d, groups, e, i, j);
    }
  }

  lemma CustomsDiffer(before: Rows, after: Rows, d: Dso, groups: set<int>, e: Embargo, i: int, j: int)
    requires Embargoed(before, after, d, groups, e) && MatchedOnce(before, d) && CustomIds(before, d) == {}
    requires i in CustomIds(after, d) && j in CustomIds(after, d) && i != j
    ensures after[i].group != after[j].group
  {
    if i in before { assert i !in CustomIds(before, d) && Touched(before[i], d, groups); }
    if j in before { assert j !in CustomIds(before, d) && Touched(before[j], d, groups); }
    if i in before && j !in before { assert i in MatchingIds(before, d, before[i].group.value); }
    if j in before && i !in before { assert j in MatchingIds(before, d, before[j].group.value); }
  }

  /** The embargo is right on every item, bitstream and bundle.  On a collection
      or a community it is right if and only if each group already has a read
      policy there: a new row is written as an item's. */
  lemma OneEachIff(before: Rows, after: Rows, d: Dso, groups: set<int>, e: Embargo)
    requires Embargoed(before, after, d, groups, e) && MatchedOnce(before, d) && CustomIds(before, d) == {}
    ensures OneEach(after, d, groups, e) <==>
      (NewResource(d) == d || forall g | g in groups :: MatchingIds(before, d, g) != {})
  {
    if NewResource(d) == d || forall g | g in groups :: MatchingIds(before, d, g) != {} {
      OneEachHolds(before, after, d, groups, e);
    } else {
      var g :| g in groups && MatchingIds(before, d, g) == {};
      forall id | id in CustomIds(after, d) ensures after[id].group != Some(g) {
        if id in before {
          assert id !in CustomIds(before, d) && Touched(before[id], d, groups);
          assert id in MatchingIds(before, d, before[id].group.value);
        }
      }
    }
  }

  /** An embargo on collection 5 that ends up on item 5. */
  lemma CollectionEmbargoMissed() returns (after: Rows)
    ensures Embargoed(map[], after, Dso(CollectionKind, 5), {3}, Embargo(Some(100), None))
    ensures CustomIds(after, Dso(CollectionKind, 5)) == {} && CustomIds(after, Dso(ItemKind, 5)) == {0}
  {
    var d, e := Dso(CollectionKind, 5), Embargo(Some(100), None);
    after := map[0 := NewRow(d, 3, e)];
    assert MatchingIds(map[], d, 3) == {};
    EmbargoedNone(map[], d, e);
    EmbargoedByRow(map[], map[], after, d, {}, 3, e, 0);
    assert {} + {3} == {3};
  }

  function Others(rows: Rows, d: Dso): Rows {
    rows - CustomIds(rows, d)
  }

  /** What is not a custom policy of the object is what was there and did not match. */
  lemma OthersAfter(before: Rows, after: Rows, d: Dso, groups: set<int>, e: Embargo)
    requires Embargoed(before, after, d, groups, e) && CustomIds(before, d) == {} && NewResource(d) == d
    ensures forall id :: id in Others(after, d) <==> id in before && !Touched(before[id], d, groups)
    ensures forall id | id in Others(after, d) :: after[id] == before[id]
  {
    forall id: int ensures id in Others(after, d) <==> id in before && !Touched(before[id], d, groups) {
      if id in before { assert id !in CustomIds(before, d) && id in after; }
    }
  }

  lemma OthersMatchedOnce(before: Rows, mid: Rows, d: Dso, groups: set<int>, e: Embargo)
    requires MatchedOnce(before, d) && CustomIds(before, d) == {} && NewResource(d) == d
    requires Embargoed(before, mid, d, groups, e)
    ensures MatchedOnce(Others(mid, d), d)
  {
    OthersAfter(before, mid, d, groups, e);
  }

  lemma SameAgain(before: Rows, mid: Rows, after: Rows, d: Dso, groups: set<int>, e: Embargo)
    requires MatchedOnce(before, d) && CustomIds(before, d) == {} && NewResource(d) == d
    requires Embargoed(before, mid, d, groups, e) && Embargoed(Others(mid, d), after, d, groups, e)
    ensures Others(after, d) == Others(mid, d)
    ensures OneEach(mid, d, groups, e) && OneEach(after, d, groups, e)
  {
    var rest := Others(mid, d);
    OthersAfter(before, mid, d, groups, e);
    OthersMatchedOnce(before, mid, d, groups, e);
    assert CustomIds(rest, d) == {};
    OthersAfter(rest, after, d, groups, e);
    forall id: int ensures id in Others(after, d) <==> id in rest {
      if id in rest { assert id in before && !Touched(before[id], d, groups); }
    }
    assert Others(after, d).Keys == rest.Keys;
    assert forall id | id in rest :: Others(after, d)[id] == rest[id];
    OneEachHolds(before, mid, d, groups, e);
    OneEachHolds(rest, after, d, groups, e);
  }

  /** One run: what the custom policies of the object become, for the groups
      that may read new items of the collection. */
  ghost predicate AutomaticRun(before: Rows, after: Rows, d: Dso, collection: Dso, e: Embargo) {
    if e.date.None? && d.kind != BitstreamKind then after == before
    else
      var rest, groups := Others(before, d), Target(AuthorizedGroups(before, collection, DefaultItemRead));
      && KeptOrChanged(rest, after, d, groups, e)
      && (MatchedOnce(rest, d) ==> Embargoed(rest, after, d, groups, e))
  }

  /** A run for another object leaves the collection's groups alone. */
  lemma GroupsStay(before: Rows, after: Rows, d: Dso, groups: set<int>, collection: Dso, e: Embargo)
    requires d != collection && Embargoed(Others(before, d), after, d, groups, e)
    ensures AuthorizedGroups(after, collection, DefaultItemRead)
      == AuthorizedGroups(before, collection, DefaultItemRead)
  {
    var rest := Others(before, d);
    forall id: int ensures id in GrantingIds(after, collection, DefaultItemRead) <==>
      id in GrantingIds(before, collection, DefaultItemRead)
    {
      if id in before && id !in CustomIds(before, d) { assert id in rest && id in after; }
    }
    forall id | id in GrantingIds(before, collection, DefaultItemRead) ensures after[id].group == before[id].group {
      assert id !in CustomIds(before, d) && id in rest;
    }
  }

  /** Two runs, one after the other: the second leaves the policies the first
      left, up to the ids and the end dates of the custom ones. */
  lemma SecondRun(first: Rows, mid: Rows, last: Rows, d: Dso, collection: Dso, e: Embargo)
    requires d != collection && NewResource(d) == d && (e.date.Some? || d.kind == BitstreamKind)
    requires MatchedOnce(Others(first, d), d) && AutomaticRun(first, mid, d, collection, e)
      && AutomaticRun(mid, last, d, collection, e)
    ensures Others(last, d) == Others(mid, d)
    ensures var groups := Target(AuthorizedGroups(first, collection, DefaultItemRead));
      OneEach(mid, d, groups, e) && OneEach(last, d, groups, e)
  {
    var rest, groups := Others(first, d), Target(AuthorizedGroups(first, collection, DefaultItemRead));
    assert CustomIds(rest, d) == {};
    GroupsStay(first, mid, d, groups, collection, e);
    OthersMatchedOnce(rest, mid, d, groups, e);
    SameAgain(rest, mid, last, d, groups, e);
  }

  // ---------- the policy table

  class PolicyTable {
    var rows: Rows
    var nextId: int

    ghost predicate Valid()
      reads this
    {
      forall id | id in rows :: id < nextId
    }

    constructor ()
      ensures Valid() && rows == map[]
    {
      rows, nextId := map[], 0;
    }

    /** `createOrModifyPolicy` and the update that writes its result. */
    method CreateOrModify(d: Dso, g: int, e: Embargo)
      requires Valid()
      modifies this
      ensures Valid() && Modifies(old(rows), rows, d, g, e)
    {
      var found := MatchingIds(rows, d, g);
      if found != {} {
        var id := Choose(found);
        rows := rows[id := Changed(rows[id], g, e)];
      } else {
        rows := rows[nextId := NewRow(d, g, e)];
        assert nextId !in old(rows);
        nextId := nextId + 1;
      }
    }

    /** The groups of the rows for one action, in any order, one for each row. */
    method GetAuthorizedGroups(d: Dso, a: Action) returns (groups: seq<int>)
      ensures forall g :: g in groups <==> g in AuthorizedGroups(rows, d, a)
    {
      groups := [];
      var all := GrantingIds(rows, d, a);
      var rest := all;
      while rest != {}
        invariant rest <= all
        invariant forall g :: g in groups <==> exists id :: id in all - rest && rows[id].group == Some(g)
        decreases |rest|
      {
        var id := Choose(rest);
        ghost var seen, before := all - rest, groups;
        if rows[id].group.Some? { groups := groups + [rows[id].group.value]; }
        rest := rest - {id};
        assert all - rest == seen + {id};
      }
    }

    method RemoveCustom(d: Dso)
      requires Valid()
      modifies `rows
      ensures Valid() && rows == Others(old(rows), d)
    {
      rows := rows - CustomIds(rows, d);
    }

    /** `generateAutomaticPolicies`. */
    method GenerateAutomaticPolicies(e: Embargo, d: Dso, collection: Dso)
      requires Valid()
      modifies this
      ensures Valid()
      ensures AutomaticRun(old(rows), rows, d, collection, e)
    {
      if e.date.None? && d.kind != BitstreamKind { return; }
      var authorized := GetAuthorizedGroups(collection, DefaultItemRead);
      RemoveCustom(d);
      ghost var before, groups := rows, AuthorizedGroups(old(rows), collection, DefaultItemRead);
      var anonymous := false;
      var i := 0;
      while i < |authorized|
        invariant 0 <= i <= |authorized|
        invariant anonymous <==> ANONYMOUS_ID in authorized[..i]
      {
        if authorized[i] == ANONYMOUS_ID { anonymous := true; }
        i := i + 1;
      }
      assert authorized[..i] == authorized;
      EmbargoedNone(rows, d, e);
      if anonymous {
        CreateOrModify(d, ANONYMOUS_ID, e);
        if MatchedOnce(before, d) { EmbargoedStep(before, before, rows, d, {}, ANONYMOUS_ID, e); }
        KeptOrChangedStep(before, before, rows, d, {}, ANONYMOUS_ID, e);
        assert {} + {ANONYMOUS_ID} == {ANONYMOUS_ID} == Target(groups);
      } else {
        ghost var done: set<int> := {};
        i := 0;
        while i < |authorized|
          invariant 0 <= i <= |authorized| && Valid()
          invariant forall g :: g in done <==> g in authorized[..i]
          invariant KeptOrChanged(before, rows, d, done, e)
          invariant MatchedOnce(before, d) ==> Embargoed(before, rows, d, done, e)
        {
          ghost var mid := rows;
          CreateOrModify(d, authorized[i], e);
          if MatchedOnce(before, d) { EmbargoedStep(before, mid, rows, d, done, authorized[i], e); }
          KeptOrChangedStep(before, mid, rows, d, done, authorized[i], e);
          done := done + {authorized[i]};
          i := i + 1;
        }
        assert authorized[..i] == authorized;
        assert forall g :: g in done <==> g in groups;
        assert done == groups && ANONYMOUS_ID !in groups;
      }
    }
  }
}
