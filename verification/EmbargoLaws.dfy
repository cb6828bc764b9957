/** What an embargo leaves, said of the rows before and after. */
module EmbargoLaws {
  import opened EmbargoPolicies
  import opened Prelude

  /** Some row lets the group read the new items of the collection. */
  ghost predicate MayReadNewItems(rows: Rows, collection: Dso, g: int) {
    exists id :: id in rows && rows[id].resource == collection && rows[id].action == DefaultItemRead
      && rows[id].group == Some(g)
  }

  /** The groups an embargo is for: Anonymous alone if it may read new items, and
      every group that may if it may not. */
  ghost predicate EmbargoedFor(rows: Rows, collection: Dso, g: int) {
    if MayReadNewItems(rows, collection, 0) then g == 0 else MayReadNewItems(rows, collection, g)
  }

  ghost predicate HasCustom(rows: Rows, d: Dso, g: int) {
    exists id :: id in rows && rows[id].resource == d && rows[id].rpType == Some(Custom) && rows[id].group == Some(g)
  }

  /** No two read policies of the object that are not custom are for one group. */
  ghost predicate ReadOnce(rows: Rows, d: Dso) {
    forall i, j | i in rows && j in rows && i != j && ReadRow(rows[i], d) && ReadRow(rows[j], d) ::
      rows[i].group != rows[j].group
  }

  predicate ReadRow(r: Row, d: Dso) {
    r.resource == d && r.action == Read && r.group.Some? && r.rpType != Some(Custom)
  }

  lemma TargetIff(rows: Rows, collection: Dso, g: int)
    ensures g in Target(AuthorizedGroups(rows, collection, DefaultItemRead)) <==> EmbargoedFor(rows, collection, g)
  {
    forall h: int
      ensures h in AuthorizedGroups(rows, collection, DefaultItemRead) <==> MayReadNewItems(rows, collection, h)
    {
      if MayReadNewItems(rows, collection, h) {
        var id :| id in rows && rows[id].resource == collection && rows[id].action == DefaultItemRead
          && rows[id].group == Some(h);
        assert id in GrantingIds(rows, collection, DefaultItemRead);
      }
    }
  }

  /** Nothing happens without a date, but to a bitstream. */
  lemma NoDateNoChange(before: Rows, after: Rows, d: Dso, collection: Dso, e: Embargo)
    requires AutomaticRun(before, after, d, collection, e) && e.date == None && d.kind != BitstreamKind
    ensures after == before
  {
  }

  /** After a run on an item, a bitstream or a bundle the groups with a custom
      policy there are exactly those the embargo is for, and each such policy
      is for reading from the date on, with the reason. */
  lemma CustomIff(before: Rows, after: Rows, d: Dso, collection: Dso, e: Embargo)
    requires AutomaticRun(before, after, d, collection, e) && (e.date.Some? || d.kind == BitstreamKind)
    requires ReadOnce(before, d) && (d.kind == ItemKind || d.kind == BitstreamKind || d.kind == BundleKind)
    ensures forall g :: HasCustom(after, d, g) <==> EmbargoedFor(before, collection, g)
    ensures forall id | id in after && after[id].resource == d && after[id].rpType == Some(Custom) ::
      && after[id].action == Read && after[id].group.Some? && after[id].eperson == None
      && after[id].startDate == e.date && after[id].description == e.reason && after[id].name == None
      && (e.date == None ==> after[id].endDate == None)
    ensures forall i, j | i in after && j in after && i != j && after[i].resource == d && after[j].resource == d
        && after[i].rpType == Some(Custom) && after[j].rpType == Some(Custom) :: after[i].group != after[j].group
  {
    var rest, groups := Others(before, d), Target(AuthorizedGroups(before, collection, DefaultItemRead));
    assert CustomIds(rest, d) == {};
    assert MatchedOnce(rest, d) by {
      forall i, j | i in rest && j in rest && i != j && rest[i].group.Some? && Matches(rest[i], d, rest[i].group.value)
        ensures !Matches(rest[j], d, rest[i].group.value)
      {
        assert ReadRow(before[i], d);
        if Matches(rest[j], d, rest[i].group.value) { assert ReadRow(before[j], d); }
      }
    }
    OneEachHolds(rest, after, d, groups, e);
    forall g ensures HasCustom(after, d, g) <==> EmbargoedFor(before, collection, g) {
      TargetIff(before, collection, g);
      if HasCustom(after, d, g) {
        var id :| id in after && after[id].resource == d && after[id].rpType == Some(Custom)
          && after[id].group == Some(g);
        assert id in CustomIds(after, d);
      }
      if g in groups {
        var id :| id in CustomIds(after, d) && after[id].group == Some(g);
      }
    }
    forall id | id in after && after[id].resource == d && after[id].rpType == Some(Custom)
      ensures id in CustomIds(after, d) {}
  }

  /** The rows that stay: every row that is neither a custom policy of the object
      nor a read policy there of an embargoed group is as it was, and of the
      policies the object had before, only its custom ones can be gone. */
  lemma RowsThatStay(before: Rows, after: Rows, d: Dso, collection: Dso, e: Embargo, id: int)
    requires AutomaticRun(before, after, d, collection, e) && (e.date.Some? || d.kind == BitstreamKind)
    requires id in before && !(before[id].resource == d && before[id].rpType == Some(Custom))
    ensures id in after
    ensures !(before[id].resource == d && before[id].action == Read && before[id].group.Some?
              && EmbargoedFor(before, collection, before[id].group.value))
      ==> after[id] == before[id]
    ensures after[id].resource == before[id].resource && after[id].action == before[id].action
      && after[id].group == before[id].group && (e.date.Some? ==> after[id].endDate == before[id].endDate)
  {
    assert id in Others(before, d);
    if before[id].group.Some? { TargetIff(before, collection, before[id].group.value); }
  }

  /** On a collection or a community a policy that was not there becomes one of
      the item with its id. */
  lemma NewRowsOfContainers(before: Rows, after: Rows, d: Dso, groups: set<int>, e: Embargo, id: int)
    requires Embargoed(before, after, d, groups, e) && id in after && id !in before
    requires d.kind == CollectionKind || d.kind == CommunityKind
    ensures after[id].resource == Dso(ItemKind, d.id)
  {
  }
}
