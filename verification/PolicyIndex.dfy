/** The index fields that metadata policies are asked in: written only for the
    groups that may read an object, and enough for every question about it. */
module PolicyIndex {
  import opened Authorize
  import opened GroupCache
  import opened GroupGraph
  import opened PolicyLists
  import opened PolicyRuns
  import opened Prelude
  import opened SearchFilter
  import opened SearchSoundness

  /** The fields written so far hold what the item holds in them. */
  ghost predicate Agrees(fields: Metadata, metadata: Metadata) {
    forall f | f in fields :: fields[f] == ValuesOf(metadata, f)
  }

  ghost predicate FieldShown(fields: Metadata, metadata: Metadata, f: string) {
    ValuesOf(fields, f) == ValuesOf(metadata, f)
  }

  /** What the policies of a group and of its cached subgroups ask for is there. */
  ghost predicate ShownFor(w: World, table: PolicyTable, fields: Metadata, metadata: Metadata, g: int) {
    forall m, p | InFamily(w, g, m) && p in PoliciesOf(table, m) :: FieldShown(fields, metadata, p.itemField)
  }

  ghost predicate Covered(w: World, table: PolicyTable, policies: seq<ResourcePolicy>, fields: Metadata,
                          metadata: Metadata) {
    forall rp | rp in policies && rp.action == READ :: ShownFor(w, table, fields, metadata, rp.groupID)
  }

  /** The groups that may read an object. */
  function Readers(policies: seq<ResourcePolicy>): set<int> {
    set rp | rp in policies && rp.action == READ :: rp.groupID
  }

  /** Over a transitive cache no indexing, before or after, changes what the
      fields of a document have to cover. */
  lemma CoveredWhateverIsIndexed(w: World, table: PolicyTable, run: seq<Indexing>,
                                 policies: seq<ResourcePolicy>, fields: Metadata, metadata: Metadata)
    requires Transitive(w.cache) && RunOf(w.cache, run)
    ensures Covered(w, AfterRun(table, run), policies, fields, metadata) <==>
      Covered(w, table, policies, fields, metadata)
  {
    var grown := AfterRun(table, run);
    RunGrows(w.cache, table, run);
    forall g ensures ShownFor(w, grown, fields, metadata, g) <==> ShownFor(w, table, fields, metadata, g) {
      ShownForGrown(w, table, grown, GroupsOf(run), fields, metadata, g);
    }
  }

  lemma ShownForGrown(w: World, table: PolicyTable, grown: PolicyTable, indexed: set<int>,
                      fields: Metadata, metadata: Metadata, g: int)
    requires Transitive(w.cache) && GrownTo(w.cache, table, grown, indexed)
    ensures ShownFor(w, grown, fields, metadata, g) <==> ShownFor(w, table, fields, metadata, g)
  {
    if ShownFor(w, grown, fields, metadata, g) {
      forall m, p | InFamily(w, g, m) && p in PoliciesOf(table, m) ensures FieldShown(fields, metadata, p.itemField) {
        assert p in PoliciesOf(grown, m);
      }
    }
    if ShownFor(w, table, fields, metadata, g) {
      forall m, p | InFamily(w, g, m) && p in PoliciesOf(grown, m) ensures FieldShown(fields, metadata, p.itemField) {
        if p !in PoliciesOf(table, m) {
          var below :| (m, below) in w.cache && p in PoliciesOf(table, below);
          assert InFamily(w, g, below);
        }
      }
    }
  }

  /** What the policies ask for is there, besides what was there before, and nothing else. */
  ghost predicate Written(ps: seq<Policy>, metadata: Metadata, before: Metadata, fields: Metadata) {
    && Agrees(fields, metadata)
    && (forall f | FieldShown(before, metadata, f) :: FieldShown(fields, metadata, f))
    && (forall p | p in ps :: FieldShown(fields, metadata, p.itemField))
    && (forall f | f in before :: f in fields)
    && (forall f | f in fields && f !in before ::
          ValuesOf(metadata, f) != [] && exists p :: p in ps && p.itemField == f)
  }

  /** Values are added one by one, to fields the document does not have yet. */
  method AddFields(ps: seq<Policy>, metadata: Metadata, given: Metadata) returns (fields: Metadata)
    requires Agrees(given, metadata)
    ensures Written(ps, metadata, given, fields)
  {
    fields := given;
    for i := 0 to |ps|
      invariant Agrees(fields, metadata)
      invariant forall f | f in given :: f in fields
      invariant forall f | f in fields && f !in given ::
        ValuesOf(metadata, f) != [] && exists p :: p in ps && p.itemField == f
      invariant forall f | FieldShown(given, metadata, f) :: FieldShown(fields, metadata, f)
      invariant forall k | 0 <= k < i :: FieldShown(fields, metadata, ps[k].itemField)
    {
      if ps[i].itemField !in fields { fields := AddField(ps[i].itemField, metadata, fields); }
    }
  }

  method AddField(field: string, metadata: Metadata, given: Metadata) returns (fields: Metadata)
    requires field !in given
    ensures fields == if ValuesOf(metadata, field) == [] then given else given[field := ValuesOf(metadata, field)]
  {
    var values := ValuesOf(metadata, field);
    fields := given;
    for j := 0 to |values|
      invariant fields == if j == 0 then given else given[field := values[..j]]
    {
      assert values[..j + 1] == (if j == 0 then [] else values[..j]) + [values[j]];
      fields := fields[field := (if field in fields then fields[field] else []) + [values[j]]];
    }
    assert values[..|values|] == values;
  }

  lemma GrownKeeps(table: PolicyTable, g: int, members: seq<int>, h: int, p: Policy)
    requires p in PoliciesOf(table, h)
    ensures p in PoliciesOf(Grown(table, g, members), h)
  {
    AppendedHolds(table, g, members, |members|, p);
  }

  lemma ShownForList(w: World, table: PolicyTable, fields: Metadata, metadata: Metadata, g: int, members: seq<int>)
    requires forall m :: m in members <==> (g, m) in w.cache
    requires forall p | p in Appended(table, g, members, |members|) :: FieldShown(fields, metadata, p.itemField)
    ensures ShownFor(w, table, fields, metadata, g)
  {
    forall m, p | InFamily(w, g, m) && p in PoliciesOf(table, m) ensures FieldShown(fields, metadata, p.itemField) {
      AppendedHolds(table, g, members, |members|, p);
      if m != g {
        var k :| 0 <= k < |members| && members[k] == m;
        assert Held(table, members, |members|, p);
      }
    }
  }

  /** A run from `table` to `now`, through the groups of the READ policies so far. */
  ghost predicate IndexedBy(cache: set<Edge>, table: PolicyTable, now: PolicyTable, groups: set<int>) {
    exists run: seq<Indexing> :: RunOf(cache, run) && GroupsOf(run) == groups && AfterRun(table, run) == now
  }

  lemma OneMoreIndexing(cache: set<Edge>, table: PolicyTable, now: PolicyTable, groups: set<int>, step: Indexing)
    requires IndexedBy(cache, table, now, groups) && ReadFrom(cache, step)
    ensures IndexedBy(cache, table, Grown(now, step.group, step.members), groups + {step.group})
  {
    var run :| RunOf(cache, run) && GroupsOf(run) == groups && AfterRun(table, run) == now;
    var more := run + [step];
    assert more[..|more| - 1] == run && more[|more| - 1] == step;
    assert RunOf(cache, more) by {
      forall i | 0 <= i < |more| ensures ReadFrom(cache, more[i]) {
        if i < |run| { assert more[i] == run[i]; }
      }
    }
    GroupsOfMore(run, step);
    assert AfterRun(table, more) == Grown(now, step.group, step.members);
  }

  lemma OneMoreReader(policies: seq<ResourcePolicy>, i: nat)
    requires i < |policies|
    ensures Readers(policies[..i + 1])
      == Readers(policies[..i]) + if policies[i].action == READ then {policies[i].groupID} else {}
  {
    assert policies[..i + 1] == policies[..i] + [policies[i]];
  }

  /** What one object's indexing covers, and what it leaves behind. */
  lemma CoveredAtTheEnd(w: World, table: PolicyTable, now: PolicyTable, policies: seq<ResourcePolicy>,
                        fields: Metadata, metadata: Metadata)
    requires Transitive(w.cache) && IndexedBy(w.cache, table, now, Readers(policies))
    requires Covered(w, table, policies, fields, metadata)
    ensures Covered(w, now, policies, fields, metadata)
  {
    var run :| RunOf(w.cache, run) && GroupsOf(run) == Readers(policies) && AfterRun(table, run) == now;
    CoveredWhateverIsIndexed(w, table, run, policies, fields, metadata);
  }

  /** Some policy of a group that may read the object, or of one below it, asks in the field. */
  ghost predicate Asked(w: World, table: PolicyTable, policies: seq<ResourcePolicy>, f: string) {
    exists g, m, p ::
      g in Readers(policies) && InFamily(w, g, m) && p in PoliciesOf(table, m) && p.itemField == f
  }

  /** Nothing is written that no such policy asks for. */
  ghost predicate OnlyAsked(w: World, table: PolicyTable, policies: seq<ResourcePolicy>, metadata: Metadata,
                            given: Metadata, fields: Metadata) {
    forall f | f in fields && f !in given :: ValuesOf(metadata, f) != [] && Asked(w, table, policies, f)
  }

  /** What a list has gathered meanwhile was loaded at or below its group. */
  lemma GatheredBelow(w: World, table: PolicyTable, now: PolicyTable, groups: set<int>, g: int, members: seq<int>,
                      p: Policy) returns (m: int)
    requires Transitive(w.cache) && IndexedBy(w.cache, table, now, groups)
    requires forall h :: h in members <==> (g, h) in w.cache
    requires p in Appended(now, g, members, |members|)
    ensures InFamily(w, g, m) && p in PoliciesOf(table, m)
  {
    AppendedHolds(now, g, members, |members|, p);
    var run :| RunOf(w.cache, run) && GroupsOf(run) == groups && AfterRun(table, run) == now;
    RunGrows(w.cache, table, run);
    var h := g;
    if p !in PoliciesOf(now, g) {
      var k :| 0 <= k < |members| && p in PoliciesOf(now, members[k]);
      h := members[k];
    }
    assert InFamily(w, g, h) && AsksAfter(w.cache, table, groups, h, p);
    m := h;
    if p !in PoliciesOf(table, h) {
      m :| (h, m) in w.cache && p in PoliciesOf(table, m);
    }
  }

  lemma StillAsked(w: World, table: PolicyTable, now: PolicyTable, policies: seq<ResourcePolicy>, i: nat,
                   members: seq<int>, metadata: Metadata, given: Metadata, before: Metadata, fields: Metadata)
    requires i < |policies| && policies[i].action == READ && Transitive(w.cache)
    requires IndexedBy(w.cache, table, now, Readers(policies[..i]))
    requires var g := policies[i].groupID; forall h :: h in members <==> (g, h) in w.cache
    requires OnlyAsked(w, table, policies[..i], metadata, given, before)
    requires Written(Appended(now, policies[i].groupID, members, |members|), metadata, before, fields)
    ensures OnlyAsked(w, table, policies[..i + 1], metadata, given, fields)
  {
    var g := policies[i].groupID;
    OneMoreReader(policies, i);
    forall f | f in fields && f !in given
      ensures ValuesOf(metadata, f) != [] && Asked(w, table, policies[..i + 1], f)
    {
      if f in before {
        var h, m, p :| h in Readers(policies[..i]) && InFamily(w, h, m) && p in PoliciesOf(table, m)
          && p.itemField == f;
        assert h in Readers(policies[..i + 1]);
      } else {
        var p :| p in Appended(now, g, members, |members|) && p.itemField == f;
        var m := GatheredBelow(w, table, now, Readers(policies[..i]), g, members, p);
        assert g in Readers(policies[..i + 1]);
      }
    }
  }

  lemma FieldsExactly(w: World, table: PolicyTable, policies: seq<ResourcePolicy>, metadata: Metadata,
                      given: Metadata, fields: Metadata)
    requires OnlyAsked(w, table, policies, metadata, given, fields)
    requires Covered(w, table, policies, fields, metadata)
    requires forall f | f in given :: f in fields
    ensures forall f ::
      f in fields <==> (f in given || (ValuesOf(metadata, f) != [] && Asked(w, table, policies, f)))
  {
    forall f | ValuesOf(metadata, f) != [] && Asked(w, table, policies, f) ensures f in fields {
      var g, m, p :| g in Readers(policies) && InFamily(w, g, m) && p in PoliciesOf(table, m) && p.itemField == f;
      var rp :| rp in policies && rp.action == READ && rp.groupID == g;
      assert ShownFor(w, table, fields, metadata, rp.groupID) && FieldShown(fields, metadata, p.itemField);
    }
  }

  /** After some of the policies, with the lists as they are by then. */
  ghost predicate SoFar(w: World, table: PolicyTable, now: PolicyTable, policies: seq<ResourcePolicy>,
                        metadata: Metadata, given: Metadata, fields: Metadata) {
    && Agrees(fields, metadata) && (forall f | f in given :: f in fields)
    && (Transitive(w.cache) ==> OnlyAsked(w, table, policies, metadata, given, fields))
    && (forall h, p | p in PoliciesOf(table, h) :: p in PoliciesOf(now, h))
    && IndexedBy(w.cache, table, now, Readers(policies))
    && (forall rp | rp in policies && rp.action == READ ::
          rp.groupID != NOBODY && ShownFor(w, table, fields, metadata, rp.groupID))
  }

  lemma NothingYet(w: World, table: PolicyTable, policies: seq<ResourcePolicy>, metadata: Metadata, given: Metadata)
    requires Agrees(given, metadata) && policies == []
    ensures SoFar(w, table, table, policies, metadata, given, given)
  {
    var none: seq<Indexing> := [];
    assert RunOf(w.cache, none) && GroupsOf(none) == Readers(policies) && AfterRun(table, none) == table;
  }

  lemma NextIndexed(w: World, table: PolicyTable, now: PolicyTable, policies: seq<ResourcePolicy>, i: nat,
                    members: seq<int>, metadata: Metadata, given: Metadata, before: Metadata, fields: Metadata)
    requires i < |policies| && policies[i].action == READ && policies[i].groupID != NOBODY
    requires SoFar(w, table, now, policies[..i], metadata, given, before)
    requires var g := policies[i].groupID; forall h :: h in members <==> (g, h) in w.cache
    requires Written(Appended(now, policies[i].groupID, members, |members|), metadata, before, fields)
    ensures SoFar(w, table, Grown(now, policies[i].groupID, members), policies[..i + 1], metadata, given, fields)
  {
    var g := policies[i].groupID;
    OneMoreReader(policies, i);
    forall h, p | p in PoliciesOf(table, h) ensures p in PoliciesOf(Grown(now, g, members), h) {
      GrownKeeps(now, g, members, h, p);
    }
    OneMoreIndexing(w.cache, table, now, Readers(policies[..i]), Indexing(g, members));
    if Transitive(w.cache) { StillAsked(w, table, now, policies, i, members, metadata, given, before, fields); }
    AllShown(w, table, now, policies, i, members, metadata, before, fields);
  }

  lemma AllShown(w: World, table: PolicyTable, now: PolicyTable, policies: seq<ResourcePolicy>, i: nat,
                 members: seq<int>, metadata: Metadata, before: Metadata, fields: Metadata)
    requires i < |policies| && policies[i].groupID != NOBODY
    requires forall h, p | p in PoliciesOf(table, h) :: p in PoliciesOf(now, h)
    requires forall rp | rp in policies[..i] && rp.action == READ ::
      rp.groupID != NOBODY && ShownFor(w, table, before, metadata, rp.groupID)
    requires var g := policies[i].groupID; forall h :: h in members <==> (g, h) in w.cache
    requires Written(Appended(now, policies[i].groupID, members, |members|), metadata, before, fields)
    ensures forall rp | rp in policies[..i + 1] && rp.action == READ ::
      rp.groupID != NOBODY && ShownFor(w, table, fields, metadata, rp.groupID)
  {
    ShownForList(w, now, fields, metadata, policies[i].groupID, members);
    assert policies[..i + 1] == policies[..i] + [policies[i]];
    forall rp | rp in policies[..i + 1] && rp.action == READ
      ensures rp.groupID != NOBODY && ShownFor(w, table, fields, metadata, rp.groupID)
    {
      if rp !in policies[..i] { assert rp == policies[i]; }
    }
  }

  /** `additionalIndex`.  A READ policy that names no group has no list to add
      to: the original fails on it, and the object is not indexed. */
  method AdditionalIndex(policies: seq<ResourcePolicy>, metadata: Metadata, db: Database, factory: PoliciesFactory,
                         given: Metadata)
    returns (ok: bool, fields: Metadata)
    requires factory.Valid() && Agrees(given, metadata)
    modifies factory.lists.Values
    ensures ok <==> NOBODY !in Readers(policies)
    ensures ok ==> Agrees(fields, metadata) && Covered(WorldOf(db), old(factory.Table()), policies, fields, metadata)
    ensures ok ==> IndexedBy(db.Cache(), old(factory.Table()), factory.Table(), Readers(policies))
    ensures ok && Transitive(db.Cache()) ==> Covered(WorldOf(db), factory.Table(), policies, fields, metadata)
    ensures ok && Transitive(db.Cache()) ==> forall f ::
      f in fields <==>
        (f in given || (ValuesOf(metadata, f) != [] && Asked(WorldOf(db), old(factory.Table()), policies, f)))
  {
    ghost var w, table := WorldOf(db), factory.Table();
    fields := given;
    NothingYet(w, table, policies[..0], metadata, given);
    for i := 0 to |policies|
      invariant SoFar(w, table, factory.Table(), policies[..i], metadata, given, fields)
    {
      var g := policies[i].groupID;
      OneMoreReader(policies, i);
      if policies[i].action == READ {
        if g == NOBODY { return false, fields; }
        var members := AllMemberGroups(db, g);
        ghost var before, written := factory.Table(), fields;
        var list := factory.RetrievePoliciesFromGroupAndMembers(g, members);
        fields := AddFields(list.policies, metadata, fields);
        NextIndexed(w, table, before, policies, i, members, metadata, given, written, fields);
      } else {
        NextSkipped(w, table, factory.Table(), policies, i, metadata, given, fields);
      }
    }
    ok := true;
    assert policies[..|policies|] == policies;
    if Transitive(w.cache) {
      CoveredAtTheEnd(w, table, factory.Table(), policies, fields, metadata);
      FieldsExactly(w, table, policies, metadata, given, fields);
    }
  }

  lemma NextSkipped(w: World, table: PolicyTable, now: PolicyTable, policies: seq<ResourcePolicy>, i: nat,
                    metadata: Metadata, given: Metadata, fields: Metadata)
    requires i < |policies| && policies[i].action != READ
    requires SoFar(w, table, now, policies[..i], metadata, given, fields)
    ensures SoFar(w, table, now, policies[..i + 1], metadata, given, fields)
  {
    OneMoreReader(policies, i);
    assert Readers(policies[..i + 1]) == Readers(policies[..i]);
  }

  lemma TokenOfGroup(o: DSpaceObject, g: int)
    requires ReadToken(o, GroupToken(g))
    ensures exists rp :: rp in o.policies && rp.action == READ && rp.groupID == g
  {
    var rp :| rp in o.policies && rp.action == READ && PolicyToken(rp) == GroupToken(g);
    TokensDistinct(g, rp.groupID);
    TokensDistinct(g, rp.epersonID);
  }

  /** The few fields written answer the filter as the whole metadata would, for
      the tokens of any of the READ policies. */
  lemma FilterSeesMetadata(c: Context, w: World, table: PolicyTable, o: DSpaceObject, read: seq<string>,
                           fields: Metadata)
    requires o.Item? && forall token | token in read :: ReadToken(o, token)
    requires Covered(w, table, o.policies, fields, o.metadata)
    ensures FilterAdmits(c, w, Some(table), Document(read, fields)) <==>
      FilterAdmits(c, w, Some(table), Document(read, o.metadata))
  {
    var written, whole := Document(read, fields), Document(read, o.metadata);
    forall g ensures GroupAdmits(c, w, Some(table), g, written) <==> GroupAdmits(c, w, Some(table), g, whole) {
      if GroupToken(g) in read {
        TokenOfGroup(o, g);
        forall p | FamilyPolicy(c, w, table, g, p)
          ensures CriteriaMet(p, c.user.value, written) <==> CriteriaMet(p, c.user.value, whole)
        {
          assert FieldShown(fields, o.metadata, p.itemField);
        }
      }
    }
  }

  lemma InForceIsRead(o: DSpaceObject, read: seq<string>, now: seq<string>)
    requires o.Item? && IndexedAs(o, Document(read, o.metadata)) && IndexedInForce(o, Document(now, o.metadata))
    ensures forall token | token in now :: token in read
    ensures AllInForce(o) ==> forall token | token in read :: token in now
  {
    var written, inForce := Document(read, o.metadata), Document(now, o.metadata);
    forall token | token in now ensures token in read {
      assert token in inForce.read && TokenInForce(o, token) && ReadToken(o, token) && token in written.read;
    }
    forall token | AllInForce(o) && token in read ensures token in now {
      assert token in written.read && ReadToken(o, token) && TokenInForce(o, token) && token in inForce.read;
    }
  }

  lemma SameTokensAdmit(c: Context, w: World, table: PolicyTable, read: seq<string>, now: seq<string>, fields: Metadata)
    requires forall token :: token in read <==> token in now
    ensures FilterAdmits(c, w, Some(table), Document(read, fields)) <==>
      FilterAdmits(c, w, Some(table), Document(now, fields))
  {
    var written, inForce := Document(read, fields), Document(now, fields);
    forall p: Policy, user: EPerson ensures CriteriaMet(p, user, inForce) <==> CriteriaMet(p, user, written) {}
  }

  /** From the index to the decision, with the lists as they are at the time of
      the search: if what was indexed since loading leaves the filter sound,
      `authorize` grants whatever it lets through by the policies in force, asked
      of the fields that were really written; and, with all policies in force,
      whatever it lets through. */
  lemma WrittenDocumentGranted(c: Context, w: World, loaded: PolicyTable, before: seq<Indexing>, since: seq<Indexing>,
                               o: DSpaceObject, read: seq<string>, now: seq<string>, fields: Metadata,
                               sentinelFree: bool)
    requires c.user.Some? && c.user.value.id != NOBODY && Searchable(o, sentinelFree)
    requires Transitive(w.cache) && RunOf(w.cache, before) && RunOf(w.cache, since)
    requires IndexedAs(o, Document(read, o.metadata)) && IndexedInForce(o, Document(now, o.metadata))
    requires Covered(w, AfterRun(loaded, before), o.policies, fields, o.metadata)
    requires SafeAfter(c, w, loaded, GroupsOf(before + since), sentinelFree)
    ensures var table := AfterRun(loaded, before + since);
      && (FilterAdmits(c, w, Some(table), Document(now, fields)) ==> PoliciesGrant(c, w, table, o, READ))
      && ((AllInForce(o) && FilterAdmits(c, w, Some(table), Document(read, fields))) ==>
            PoliciesGrant(c, w, table, o, READ))
  {
    var table := AfterRun(loaded, before + since);
    CoveredWhateverIsIndexed(w, loaded, before, o.policies, fields, o.metadata);
    CoveredWhateverIsIndexed(w, loaded, before + since, o.policies, fields, o.metadata);
    SoundAfterRunIff(c, w, loaded, before + since, sentinelFree);
    InForceIsRead(o, read, now);
    FilterSeesMetadata(c, w, table, o, now, fields);
    if AllInForce(o) { SameTokensAdmit(c, w, table, read, now, fields); }
  }
}
