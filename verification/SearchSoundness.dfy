/** When the search filter shows only what `authorize` grants, and when it
    shows all of it. */
module SearchSoundness {
  import opened Authorize
  import opened Membership
  import opened Prelude
  import opened SearchFilter

  /** An archived item.  `sentinelFree` rules out items that carry the filter's
      own sentinel as a value. */
  ghost predicate Searchable(o: DSpaceObject, sentinelFree: bool) {
    o.Item? && !IgnoresCustom(o) && (sentinelFree ==> forall f :: NO_VALUE !in ValuesOf(o.metadata, f))
  }

  ghost predicate TokenInForce(o: DSpaceObject, token: string) {
    exists rp :: rp in o.policies && rp.action == READ && rp.dateValid && PolicyToken(rp) == token
  }

  /** The document with the tokens of just those policies that are in force. */
  ghost predicate IndexedInForce(o: DSpaceObject, doc: Document) {
    && (forall token :: token in doc.read <==> TokenInForce(o, token))
    && doc.fields == if o.Item? then o.metadata else map[]
  }

  ghost predicate AllInForce(o: DSpaceObject) {
    forall rp :: rp in o.policies && rp.action == READ ==> rp.dateValid
  }

  /** Every searchable item the filter lets through by its policies in force is
      one the policy loop grants READ on. */
  ghost predicate FilterSound(c: Context, w: World, table: PolicyTable, sentinelFree: bool) {
    forall o: DSpaceObject, doc: Document ::
      Searchable(o, sentinelFree) && IndexedInForce(o, doc) && FilterAdmits(c, w, Some(table), doc)
      ==> PoliciesGrant(c, w, table, o, READ)
  }

  /** Some group of the family takes the user in and has no metadata policies. */
  ghost predicate FamilyFree(c: Context, w: World, table: PolicyTable, g: int) {
    exists m :: InFamily(w, g, m) && Qualifies(c, w, m) && PoliciesOf(table, m) == []
  }

  /** One value `v` in one field is enough for all policies of the group. */
  ghost predicate OneValueEnough(table: PolicyTable, user: EPerson, m: int, field: string, v: string) {
    forall q :: q in PoliciesOf(table, m) ==> q.itemField == field && AclValue(q, user, v)
  }

  ghost predicate FamilyHasOneValueGroup(c: Context, w: World, table: PolicyTable, g: int, field: string, v: string) {
    c.user.Some? && exists m ::
      InFamily(w, g, m) && Qualifies(c, w, m) && OneValueEnough(table, c.user.value, m, field, v)
  }

  /** The configuration check: the anonymous family has a policy-free way in,
      and whatever single value the filter accepts for a group is enough for
      every policy of some group of the family at once. */
  ghost predicate ConfigurationSafe(c: Context, w: World, table: PolicyTable, sentinelFree: bool) {
    && c.user.Some?
    && FamilyFree(c, w, table, ANONYMOUS_ID)
    && forall g, p, v ::
         InGroup(c, w, g) && g != NOBODY && FamilyPolicy(c, w, table, g, p) && CriteriaValue(p, c.user.value, v)
         && (sentinelFree ==> v != NO_VALUE)
         ==> FamilyHasOneValueGroup(c, w, table, g, p.itemField, v)
  }

  function ItemWith(g: int, metadata: Metadata): DSpaceObject {
    Item([ResourcePolicy(NOBODY, g, READ, true, false)], metadata, false, false)
  }

  function DocumentOf(g: int, metadata: Metadata): Document {
    Document([GroupToken(g)], metadata)
  }

  lemma ProbeIndexed(g: int, metadata: Metadata)
    requires g != NOBODY
    ensures IndexedInForce(ItemWith(g, metadata), DocumentOf(g, metadata))
  {
    var o := ItemWith(g, metadata);
    assert o.policies[0] in o.policies;
    forall token ensures token in [GroupToken(g)] <==> TokenInForce(o, token) {
      if token == GroupToken(g) { assert PolicyToken(o.policies[0]) == token; }
    }
  }

  lemma ProbeGranted(c: Context, w: World, table: PolicyTable, g: int, metadata: Metadata)
    requires PoliciesGrant(c, w, table, ItemWith(g, metadata), READ)
    ensures exists m :: InFamily(w, g, m) && Qualifies(c, w, m) && AllSatisfied(PoliciesOf(table, m), c.user, metadata)
  {
    var o := ItemWith(g, metadata);
    var rp :| rp in o.policies && rp.action == READ && Grants(c, w, table, o, rp);
    assert rp == o.policies[0];
    var m :| InFamily(w, g, m) && Qualifies(c, w, m) && MetadataAllows(table, c.user, m, o);
  }

  /** An item with just the value `v` in just the field passes a group's
      policies exactly when that value is enough for all of them. */
  lemma SingleValueItem(table: PolicyTable, user: EPerson, m: int, field: string, v: string)
    ensures AllSatisfied(PoliciesOf(table, m), Some(user), map[field := [v]]) <==>
      OneValueEnough(table, user, m, field, v)
  {
    var metadata: Metadata := map[field := [v]];
    forall q: Policy ensures Satisfied(q, Some(user), metadata) <==> q.itemField == field && AclValue(q, user, v) {
      assert ValuesOf(metadata, field) == [v];
    }
  }

  lemma EmptyItem(table: PolicyTable, user: Option<EPerson>, m: int)
    ensures AllSatisfied(PoliciesOf(table, m), user, map[]) <==> PoliciesOf(table, m) == []
  {
    var ps := PoliciesOf(table, m);
    if ps != [] {
      var q := ps[0];
      assert q in ps && !Satisfied(q, user, map[]);
    }
  }

  lemma GrantedThrough(c: Context, w: World, table: PolicyTable, o: DSpaceObject, rp: ResourcePolicy, m: int)
    requires Searchable(o, false) && rp in o.policies && rp.action == READ && rp.dateValid && rp.groupID != NOBODY
    requires InFamily(w, rp.groupID, m) && Qualifies(c, w, m) && MetadataAllows(table, c.user, m, o)
    ensures PoliciesGrant(c, w, table, o, READ)
  {
    InGroupIffFamily(c, w, rp.groupID);
    assert FamilyGrants(c, w, table, rp.groupID, o);
    assert Grants(c, w, table, o, rp);
  }

  lemma PolicyInForceBehind(o: DSpaceObject, g: int) returns (rp: ResourcePolicy)
    requires TokenInForce(o, GroupToken(g))
    ensures rp in o.policies && rp.action == READ && rp.dateValid && rp.groupID == g && g != NOBODY
  {
    rp :| rp in o.policies && rp.action == READ && rp.dateValid && PolicyToken(rp) == GroupToken(g);
    TokensDistinct(rp.groupID, g);
    TokensDistinct(g, rp.epersonID);
  }

  lemma OwnPolicyGranted(c: Context, w: World, table: PolicyTable, o: DSpaceObject)
    requires c.user.Some? && c.user.value.id != NOBODY && Searchable(o, false)
    requires TokenInForce(o, EPersonToken(c.user.value.id))
    ensures PoliciesGrant(c, w, table, o, READ)
  {
    var token := EPersonToken(c.user.value.id);
    var rp :| rp in o.policies && rp.action == READ && rp.dateValid && PolicyToken(rp) == token;
    TokensDistinct(rp.groupID, c.user.value.id);
    TokensDistinct(rp.epersonID, c.user.value.id);
    assert Grants(c, w, table, o, rp);
  }

  lemma GroupAdmissionGranted(c: Context, w: World, table: PolicyTable, sentinelFree: bool, o: DSpaceObject,
                              doc: Document, g: int)
    requires ConfigurationSafe(c, w, table, sentinelFree)
    requires Searchable(o, sentinelFree) && IndexedInForce(o, doc)
    requires InGroup(c, w, g) && GroupAdmits(c, w, Some(table), g, doc)
    ensures PoliciesGrant(c, w, table, o, READ)
  {
    var rp := PolicyInForceBehind(o, g);
    if p :| FamilyPolicy(c, w, table, g, p) && CriteriaMet(p, c.user.value, doc) {
      var v :| v in ValuesOf(doc.fields, p.itemField) && CriteriaValue(p, c.user.value, v);
      assert FamilyHasOneValueGroup(c, w, table, g, p.itemField, v);
      var m :| InFamily(w, g, m) && Qualifies(c, w, m) && OneValueEnough(table, c.user.value, m, p.itemField, v);
      GrantedThrough(c, w, table, o, rp, m);
    } else {
      InGroupIffFamily(c, w, g);
      var m :| InFamily(w, g, m) && Qualifies(c, w, m);
      forall p ensures p !in PoliciesOf(table, m) {
        if p in PoliciesOf(table, m) { assert FamilyPolicy(c, w, table, g, p); }
      }
      GrantedThrough(c, w, table, o, rp, m);
    }
  }

  /** From a safe configuration, item by item: what the filter lets through by
      the policies in force is granted. */
  lemma AdmittedIsGranted(c: Context, w: World, table: PolicyTable, sentinelFree: bool, o: DSpaceObject, doc: Document)
    requires c.user.Some? && c.user.value.id != NOBODY && ConfigurationSafe(c, w, table, sentinelFree)
    requires Searchable(o, sentinelFree) && IndexedInForce(o, doc) && FilterAdmits(c, w, Some(table), doc)
    ensures PoliciesGrant(c, w, table, o, READ)
  {
    if GroupToken(ANONYMOUS_ID) in doc.read {
      var rp := PolicyInForceBehind(o, ANONYMOUS_ID);
      var m :| InFamily(w, ANONYMOUS_ID, m) && Qualifies(c, w, m) && PoliciesOf(table, m) == [];
      GrantedThrough(c, w, table, o, rp, m);
    } else if EPersonToken(c.user.value.id) in doc.read {
      OwnPolicyGranted(c, w, table, o);
    } else {
      var g :| g in GroupIDs(c.Session(), c.Member(), w.members, w.cache) && GroupAdmits(c, w, Some(table), g, doc);
      GroupAdmissionGranted(c, w, table, sentinelFree, o, doc, g);
    }
  }

  lemma SafeImpliesSound(c: Context, w: World, table: PolicyTable, sentinelFree: bool)
    requires c.user.Some? && c.user.value.id != NOBODY
    requires ConfigurationSafe(c, w, table, sentinelFree)
    ensures FilterSound(c, w, table, sentinelFree)
  {
    forall o: DSpaceObject, doc: Document
      | Searchable(o, sentinelFree) && IndexedInForce(o, doc) && FilterAdmits(c, w, Some(table), doc)
      ensures PoliciesGrant(c, w, table, o, READ)
    {
      AdmittedIsGranted(c, w, table, sentinelFree, o, doc);
    }
  }

  lemma SoundImpliesSafe(c: Context, w: World, table: PolicyTable, sentinelFree: bool)
    requires c.user.Some? && FilterSound(c, w, table, sentinelFree)
    ensures ConfigurationSafe(c, w, table, sentinelFree)
  {
    ProbeIndexed(ANONYMOUS_ID, map[]);
    assert Searchable(ItemWith(ANONYMOUS_ID, map[]), sentinelFree);
    assert FilterAdmits(c, w, Some(table), DocumentOf(ANONYMOUS_ID, map[]));
    ProbeGranted(c, w, table, ANONYMOUS_ID, map[]);
    var free :| InFamily(w, ANONYMOUS_ID, free) && Qualifies(c, w, free)
      && AllSatisfied(PoliciesOf(table, free), c.user, map[]);
    EmptyItem(table, c.user, free);
    forall g, p, v | InGroup(c, w, g) && g != NOBODY && FamilyPolicy(c, w, table, g, p)
      && CriteriaValue(p, c.user.value, v)
        && (sentinelFree ==> v != NO_VALUE)
      ensures FamilyHasOneValueGroup(c, w, table, g, p.itemField, v)
    {
      var metadata: Metadata := map[p.itemField := [v]];
      var doc := DocumentOf(g, metadata);
      ProbeIndexed(g, metadata);
      assert Searchable(ItemWith(g, metadata), sentinelFree);
      assert v in ValuesOf(doc.fields, p.itemField);
      assert CriteriaMet(p, c.user.value, doc);
      assert GroupAdmits(c, w, Some(table), g, doc);
      assert FilterAdmits(c, w, Some(table), doc);
      ProbeGranted(c, w, table, g, metadata);
      var m :| InFamily(w, g, m) && Qualifies(c, w, m) && AllSatisfied(PoliciesOf(table, m), c.user, metadata);
      SingleValueItem(table, c.user.value, m, p.itemField, v);
    }
  }

  /** For a logged-in user the filter is sound exactly when the configuration is safe. */
  lemma FilterSoundIff(c: Context, w: World, table: PolicyTable, sentinelFree: bool)
    requires c.user.Some? && c.user.value.id != NOBODY
    ensures FilterSound(c, w, table, sentinelFree) <==> ConfigurationSafe(c, w, table, sentinelFree)
  {
    if ConfigurationSafe(c, w, table, sentinelFree) { SafeImpliesSound(c, w, table, sentinelFree); }
    if FilterSound(c, w, table, sentinelFree) { SoundImpliesSafe(c, w, table, sentinelFree); }
  }

  /** The configuration shipped with the repository gives each group at most
      one policy and Anonymous none: the filter is then sound for every user
      and every group graph, on items that do not carry the sentinel. */
  lemma OnePolicyPerGroupIsSound(c: Context, w: World, table: PolicyTable)
    requires c.user.Some? && c.user.value.id != NOBODY
    requires forall m :: |PoliciesOf(table, m)| <= 1
    requires PoliciesOf(table, ANONYMOUS_ID) == []
    ensures FilterSound(c, w, table, true)
  {
    assert InFamily(w, ANONYMOUS_ID, ANONYMOUS_ID) && Qualifies(c, w, ANONYMOUS_ID);
    forall g, p, v | InGroup(c, w, g) && g != NOBODY && FamilyPolicy(c, w, table, g, p)
      && CriteriaValue(p, c.user.value, v)
        && v != NO_VALUE
      ensures FamilyHasOneValueGroup(c, w, table, g, p.itemField, v)
    {
      var m :| InFamily(w, g, m) && Qualifies(c, w, m) && p in PoliciesOf(table, m);
      assert PoliciesOf(table, m) == [p];
    }
    SafeImpliesSound(c, w, table, true);
  }

  // ---------- where soundness fails

  const Reader := EPerson(9, map["a" := ["x"], "b" := ["y"]])
  const ReaderContext := Context(Some(Reader), [], false)
  const ReaderWorld := World({(5, 9)}, {})

  function Whole(raw: string): Option<string> { Some(raw) }

  lemma XIsNotBlank()
    ensures !IsBlank("x")
  {
    assert !IsWhitespace("x"[0]);
  }

  /** Two policies in one group: the filter asks for either, `authorize` for both. */
  lemma TwoPoliciesUnsound()
    ensures var table: PolicyTable := map[5 := [ExactMatch("f", "a", Whole), ExactMatch("g", "b", Whole)]];
            !FilterSound(ReaderContext, ReaderWorld, table, true)
  {
    var p, q := ExactMatch("f", "a", Whole), ExactMatch("g", "b", Whole);
    var table: PolicyTable := map[5 := [p, q]];
    assert p in PoliciesOf(table, 5) && q in PoliciesOf(table, 5);
    assert InFamily(ReaderWorld, 5, 5) && Qualifies(ReaderContext, ReaderWorld, 5);
    InGroupIffFamily(ReaderContext, ReaderWorld, 5);
    assert FamilyPolicy(ReaderContext, ReaderWorld, table, 5, p);
    assert "x" in ValuesOf(Reader.metadata, "a") && p.extract("x") == Some("x");
    XIsNotBlank();
    assert CriteriaValue(p, Reader, "x");
    FilterSoundIff(ReaderContext, ReaderWorld, table, true);
    assert "x" != NO_VALUE;
    assert forall m :: InFamily(ReaderWorld, 5, m) ==> m == 5;
    assert !OneValueEnough(table, Reader, 5, "f", "x");
    assert !FamilyHasOneValueGroup(ReaderContext, ReaderWorld, table, 5, p.itemField, "x");
  }

  /** A user without the field a policy reads is let through to any item that
      carries the sentinel as a value. */
  lemma SentinelUnsound()
    ensures var table: PolicyTable := map[5 := [ExactMatch("f", "missing", Whole)]];
            !FilterSound(ReaderContext, ReaderWorld, table, false)
  {
    var p := ExactMatch("f", "missing", Whole);
    var table: PolicyTable := map[5 := [p]];
    assert p in PoliciesOf(table, 5);
    assert InFamily(ReaderWorld, 5, 5) && Qualifies(ReaderContext, ReaderWorld, 5);
    InGroupIffFamily(ReaderContext, ReaderWorld, 5);
    assert FamilyPolicy(ReaderContext, ReaderWorld, table, 5, p);
    assert CriteriaValue(p, Reader, NO_VALUE);
    FilterSoundIff(ReaderContext, ReaderWorld, table, false);
    assert forall m :: InFamily(ReaderWorld, 5, m) ==> m == 5;
    assert !OneValueEnough(table, Reader, 5, "f", NO_VALUE);
    assert !FamilyHasOneValueGroup(ReaderContext, ReaderWorld, table, 5, p.itemField, NO_VALUE);
  }

  // ---------- visitors who are not logged in

  /** Nobody's metadata satisfies a policy, but the filter asks visitors only
      for group tokens: sound exactly when every group a visitor is in has a
      policy-free way in. */
  lemma VisitorFilterSoundIff(c: Context, w: World, table: PolicyTable)
    requires c.user.None?
    ensures FilterSound(c, w, table, true) <==>
      forall g :: InGroup(c, w, g) && g != NOBODY ==> FamilyFree(c, w, table, g)
  {
    if FilterSound(c, w, table, true) {
      forall g | InGroup(c, w, g) && g != NOBODY ensures FamilyFree(c, w, table, g) {
        var doc := DocumentOf(g, map[]);
        ProbeIndexed(g, map[]);
        assert GroupAdmits(c, w, Some(table), g, doc);
        assert FilterAdmits(c, w, Some(table), doc);
        assert Searchable(ItemWith(g, map[]), true);
        ProbeGranted(c, w, table, g, map[]);
        var m :| InFamily(w, g, m) && Qualifies(c, w, m) && AllSatisfied(PoliciesOf(table, m), c.user, map[]);
        EmptyItem(table, c.user, m);
      }
    }
    if forall g :: InGroup(c, w, g) && g != NOBODY ==> FamilyFree(c, w, table, g) {
      forall o: DSpaceObject, doc: Document
        | Searchable(o, true) && IndexedInForce(o, doc) && FilterAdmits(c, w, Some(table), doc)
        ensures PoliciesGrant(c, w, table, o, READ)
      {
        var g :| InGroup(c, w, g) && GroupToken(g) in doc.read;
        var rp := PolicyInForceBehind(o, g);
        var m :| InFamily(w, g, m) && Qualifies(c, w, m) && PoliciesOf(table, m) == [];
        GrantedThrough(c, w, table, o, rp, m);
      }
    }
  }

  /** A visitor with a special group that has a policy is shown what `authorize` refuses. */
  lemma VisitorUnsound()
    ensures var c, table := Context(None, [5], false), map[5 := [ExactMatch("f", "a", Whole)]];
            !FilterSound(c, World({}, {}), table, true)
  {
    var c, w := Context(None, [5], false), World({}, {});
    var table: PolicyTable := map[5 := [ExactMatch("f", "a", Whole)]];
    InGroupIffFamily(c, w, 5);
    assert InFamily(w, 5, 5) && Qualifies(c, w, 5);
    assert PoliciesOf(table, 5) != [];
    assert !FamilyFree(c, w, table, 5);
    VisitorFilterSoundIff(c, w, table);
  }

  // ---------- what the filter hides

  /** Each READ policy names a group or a person, not both and not neither. */
  ghost predicate OnePartyEach(o: DSpaceObject) {
    forall rp :: rp in o.policies && rp.action == READ ==> (rp.groupID == NOBODY <==> rp.epersonID != NOBODY)
  }

  /** Every searchable item the policy loop grants READ on gets through the
      filter by its policies in force. */
  ghost predicate FilterComplete(c: Context, w: World, table: PolicyTable) {
    forall o: DSpaceObject, doc: Document ::
      Searchable(o, false) && OnePartyEach(o) && IndexedInForce(o, doc) && PoliciesGrant(c, w, table, o, READ)
      ==> FilterAdmits(c, w, Some(table), doc)
  }

  ghost predicate HasBlankValue(p: Policy, user: EPerson) {
    exists v :: AclValue(p, user, v) && IsBlank(v)
  }

  /** Some policy of the group has no blank value among those it extracts. */
  ghost predicate OpenAt(c: Context, table: PolicyTable, m: int) {
    c.user.Some? && exists p :: p in PoliciesOf(table, m) && !HasBlankValue(p, c.user.value)
  }

  /** In a family with policies, each group that takes the user in has a policy
      none of whose values is blank. */
  ghost predicate ConfigurationOpen(c: Context, w: World, table: PolicyTable) {
    c.user.Some? && forall g, m ::
      g != NOBODY && g != ANONYMOUS_ID && (exists p :: FamilyPolicy(c, w, table, g, p))
      && InFamily(w, g, m) && Qualifies(c, w, m)
      ==> OpenAt(c, table, m)
  }

  lemma OpenImpliesComplete(c: Context, w: World, table: PolicyTable)
    requires ConfigurationOpen(c, w, table)
    ensures FilterComplete(c, w, table)
  {
    forall o: DSpaceObject, doc: Document
      | Searchable(o, false) && OnePartyEach(o) && IndexedInForce(o, doc) && PoliciesGrant(c, w, table, o, READ)
      ensures FilterAdmits(c, w, Some(table), doc)
    {
      var rp :| rp in o.policies && rp.action == READ && Grants(c, w, table, o, rp);
      assert PolicyToken(rp) in doc.read;
      if rp.groupID != NOBODY && rp.groupID != ANONYMOUS_ID {
        var g := rp.groupID;
        var m :| InFamily(w, g, m) && Qualifies(c, w, m) && MetadataAllows(table, c.user, m, o);
        if exists p :: FamilyPolicy(c, w, table, g, p) {
          var p :| p in PoliciesOf(table, m) && !HasBlankValue(p, c.user.value);
          assert FamilyPolicy(c, w, table, g, p) && Satisfied(p, c.user, o.metadata);
          assert CriteriaMet(p, c.user.value, doc);
        }
        assert GroupAdmits(c, w, Some(table), g, doc);
      }
    }
  }

  ghost function BlankValue(p: Policy, user: EPerson): (v: string)
    ensures HasBlankValue(p, user) ==> AclValue(p, user, v) && IsBlank(v)
  {
    if HasBlankValue(p, user) then var v :| AclValue(p, user, v) && IsBlank(v); v else ""
  }

  /** An item that satisfies the policies only through blank values. */
  ghost function BlankItem(ps: seq<Policy>, user: EPerson): Metadata {
    var blanks := seq(|ps|, i requires 0 <= i < |ps| => BlankValue(ps[i], user));
    var fields := set i | 0 <= i < |ps| :: ps[i].itemField;
    map f | f in fields :: blanks
  }

  lemma BlankItemSatisfies(ps: seq<Policy>, user: EPerson)
    requires forall p :: p in ps ==> HasBlankValue(p, user)
    ensures AllSatisfied(ps, Some(user), BlankItem(ps, user))
    ensures forall f, v :: v in ValuesOf(BlankItem(ps, user), f) ==> IsBlank(v)
  {
    var blanks := seq(|ps|, i requires 0 <= i < |ps| => BlankValue(ps[i], user));
    forall p | p in ps ensures Satisfied(p, Some(user), BlankItem(ps, user)) {
      var i :| 0 <= i < |ps| && ps[i] == p;
      assert p.itemField in BlankItem(ps, user) && ValuesOf(BlankItem(ps, user), p.itemField) == blanks;
      assert blanks[i] == BlankValue(p, user) && blanks[i] in blanks;
    }
    forall f, v | v in ValuesOf(BlankItem(ps, user), f) ensures IsBlank(v) {
      var i :| 0 <= i < |blanks| && blanks[i] == v;
      assert ps[i] in ps;
    }
  }

  lemma SentinelIsNotBlank()
    ensures !IsBlank(NO_VALUE)
  {
    assert !IsWhitespace(NO_VALUE[0]);
  }

  /** A document with only blank values meets no criteria. */
  lemma BlanksMeetNothing(user: EPerson, doc: Document, q: Policy)
    requires forall f, v :: v in ValuesOf(doc.fields, f) ==> IsBlank(v)
    ensures !CriteriaMet(q, user, doc)
  {
    SentinelIsNotBlank();
  }

  lemma BlankItemHidden(c: Context, w: World, table: PolicyTable, g: int, metadata: Metadata)
    requires c.user.Some? && g != ANONYMOUS_ID && exists p :: FamilyPolicy(c, w, table, g, p)
    requires forall f, v :: v in ValuesOf(metadata, f) ==> IsBlank(v)
    ensures !FilterAdmits(c, w, Some(table), DocumentOf(g, metadata))
  {
    var doc := DocumentOf(g, metadata);
    TokensDistinct(g, ANONYMOUS_ID);
    TokensDistinct(g, c.user.value.id);
    forall q ensures !CriteriaMet(q, c.user.value, doc) {
      BlanksMeetNothing(c.user.value, doc, q);
    }
    forall h ensures !GroupAdmits(c, w, Some(table), h, doc) {
      TokensDistinct(g, h);
    }
  }

  /** A group that takes the user in and asks only for what blank values give
      grants an item that the filter hides. */
  lemma BlankItemGranted(c: Context, w: World, table: PolicyTable, g: int, m: int, metadata: Metadata)
    requires g != NOBODY && InFamily(w, g, m) && Qualifies(c, w, m)
    requires AllSatisfied(PoliciesOf(table, m), c.user, metadata)
    ensures PoliciesGrant(c, w, table, ItemWith(g, metadata), READ)
  {
    var o := ItemWith(g, metadata);
    var rp := ResourcePolicy(NOBODY, g, READ, true, false);
    assert o.policies == [rp] && rp in o.policies;
    GrantedThrough(c, w, table, o, rp, m);
  }

  lemma ProbeSearchable(g: int, metadata: Metadata)
    requires g != NOBODY
    ensures Searchable(ItemWith(g, metadata), false) && OnePartyEach(ItemWith(g, metadata))
  {
  }

  lemma CompleteImpliesOpenAt(c: Context, w: World, table: PolicyTable, g: int, m: int)
    requires c.user.Some? && FilterComplete(c, w, table)
    requires g != NOBODY && g != ANONYMOUS_ID && (exists p :: FamilyPolicy(c, w, table, g, p))
    requires InFamily(w, g, m) && Qualifies(c, w, m)
    ensures OpenAt(c, table, m)
  {
    var ps, user := PoliciesOf(table, m), c.user.value;
    if !OpenAt(c, table, m) {
      var metadata := BlankItem(ps, user);
      BlankItemSatisfies(ps, user);
      ProbeIndexed(g, metadata);
      ProbeSearchable(g, metadata);
      BlankItemGranted(c, w, table, g, m, metadata);
      BlankItemHidden(c, w, table, g, metadata);
    }
  }

  lemma CompleteImpliesOpen(c: Context, w: World, table: PolicyTable)
    requires c.user.Some? && FilterComplete(c, w, table)
    ensures ConfigurationOpen(c, w, table)
  {
    forall g, m | g != NOBODY && g != ANONYMOUS_ID && (exists p :: FamilyPolicy(c, w, table, g, p))
        && InFamily(w, g, m) && Qualifies(c, w, m)
      ensures OpenAt(c, table, m)
    {
      CompleteImpliesOpenAt(c, w, table, g, m);
    }
  }

  /** For a logged-in user the filter hides nothing exactly when the configuration is open. */
  lemma FilterCompleteIff(c: Context, w: World, table: PolicyTable)
    requires c.user.Some?
    ensures FilterComplete(c, w, table) <==> ConfigurationOpen(c, w, table)
  {
    if ConfigurationOpen(c, w, table) { OpenImpliesComplete(c, w, table); }
    if FilterComplete(c, w, table) { CompleteImpliesOpen(c, w, table); }
  }

  // ---------- policies out of force

  /** Granted through a group of the family of `g` whose policies the item meets
      with nothing but blank values, where the filter asks for others. */
  ghost predicate BlankGrant(c: Context, w: World, table: PolicyTable, o: DSpaceObject, g: int) {
    && o.Item? && c.user.Some? && (exists p :: FamilyPolicy(c, w, table, g, p))
    && exists m ::
         && InFamily(w, g, m) && Qualifies(c, w, m) && AllSatisfied(PoliciesOf(table, m), c.user, o.metadata)
         && forall p, v ::
              p in PoliciesOf(table, m) && v in ValuesOf(o.metadata, p.itemField) && AclValue(p, c.user.value, v)
              ==> IsBlank(v)
  }

  ghost predicate BlankGrantInForce(c: Context, w: World, table: PolicyTable, o: DSpaceObject) {
    exists rp :: rp in o.policies && rp.action == READ && rp.dateValid && rp.groupID != NOBODY
      && BlankGrant(c, w, table, o, rp.groupID)
  }

  lemma BlankGrantGranted(c: Context, w: World, table: PolicyTable, o: DSpaceObject, rp: ResourcePolicy)
    requires Searchable(o, false) && rp in o.policies && rp.action == READ && rp.dateValid && rp.groupID != NOBODY
    requires BlankGrant(c, w, table, o, rp.groupID)
    ensures PoliciesGrant(c, w, table, o, READ)
  {
    var m :| InFamily(w, rp.groupID, m) && Qualifies(c, w, m) && AllSatisfied(PoliciesOf(table, m), c.user, o.metadata);
    GrantedThrough(c, w, table, o, rp, m);
  }

  /** What a group grants the filter lets through, but for blank values. */
  lemma GroupGrantSeen(c: Context, w: World, table: PolicyTable, o: DSpaceObject, doc: Document, rp: ResourcePolicy)
    requires c.user.Some? && Searchable(o, false) && IndexedInForce(o, doc)
    requires rp in o.policies && rp.action == READ && rp.dateValid && rp.groupID != NOBODY && InGroup(c, w, rp.groupID)
    requires FamilyGrants(c, w, table, rp.groupID, o)
    ensures FilterAdmits(c, w, Some(table), doc) || BlankGrant(c, w, table, o, rp.groupID)
  {
    var g := rp.groupID;
    assert PolicyToken(rp) == GroupToken(g) && GroupToken(g) in doc.read;
    var m :| InFamily(w, g, m) && Qualifies(c, w, m) && MetadataAllows(table, c.user, m, o);
    if g != ANONYMOUS_ID && !GroupAdmits(c, w, Some(table), g, doc) {
      forall p, v | p in PoliciesOf(table, m) && v in ValuesOf(o.metadata, p.itemField) && AclValue(p, c.user.value, v)
        ensures IsBlank(v)
      {
        assert FamilyPolicy(c, w, table, g, p);
        if !IsBlank(v) { assert CriteriaMet(p, c.user.value, doc); }
      }
    }
  }

  /** From a safe configuration, whatever policies are out of force: an item is
      granted if and only if the filter would still let it through by the
      policies in force alone, or some group grants it through blank values. */
  lemma GrantedIff(c: Context, w: World, table: PolicyTable, sentinelFree: bool, o: DSpaceObject, now: Document)
    requires c.user.Some? && c.user.value.id != NOBODY && ConfigurationSafe(c, w, table, sentinelFree)
    requires Searchable(o, sentinelFree) && OnePartyEach(o) && IndexedInForce(o, now)
    ensures PoliciesGrant(c, w, table, o, READ) <==>
      (FilterAdmits(c, w, Some(table), now) || BlankGrantInForce(c, w, table, o))
  {
    if FilterAdmits(c, w, Some(table), now) { AdmittedIsGranted(c, w, table, sentinelFree, o, now); }
    if BlankGrantInForce(c, w, table, o) {
      var rp :| rp in o.policies && rp.action == READ && rp.dateValid && rp.groupID != NOBODY
        && BlankGrant(c, w, table, o, rp.groupID);
      BlankGrantGranted(c, w, table, o, rp);
    }
    if PoliciesGrant(c, w, table, o, READ) {
      var rp :| rp in o.policies && rp.action == READ && Grants(c, w, table, o, rp);
      if rp.groupID != NOBODY {
        GroupGrantSeen(c, w, table, o, now, rp);
      } else {
        assert PolicyToken(rp) in now.read;
      }
    }
  }

  /** The tokens written ignore the dates: with all policies in force they are
      those in force, and otherwise the filter lets through at least as much. */
  lemma WrittenAdmitsMore(c: Context, w: World, table: PolicyTable, o: DSpaceObject, written: Document, now: Document)
    requires IndexedAs(o, written) && IndexedInForce(o, now)
    ensures FilterAdmits(c, w, Some(table), now) ==> FilterAdmits(c, w, Some(table), written)
    ensures AllInForce(o) ==> (FilterAdmits(c, w, Some(table), now) <==> FilterAdmits(c, w, Some(table), written))
  {
    forall token | token in now.read ensures token in written.read {
      assert TokenInForce(o, token) && ReadToken(o, token);
    }
    forall token | AllInForce(o) && token in written.read ensures token in now.read {
      assert ReadToken(o, token) && TokenInForce(o, token);
    }
    forall p: Policy, user: EPerson ensures CriteriaMet(p, user, now) <==> CriteriaMet(p, user, written) {}
  }

  /** An item with one READ policy, for Anonymous and out of force, as an
      embargo leaves it: under every configuration it is shown to everybody and
      granted to nobody. */
  lemma OutOfForceShown(c: Context, w: World, table: PolicyTable)
    ensures var o := Item([ResourcePolicy(NOBODY, ANONYMOUS_ID, READ, false, true)], map[], false, false);
      && Searchable(o, true) && IndexedAs(o, DocumentOf(ANONYMOUS_ID, map[]))
      && FilterAdmits(c, w, Some(table), DocumentOf(ANONYMOUS_ID, map[]))
      && !PoliciesGrant(c, w, table, o, READ)
  {
    var rp := ResourcePolicy(NOBODY, ANONYMOUS_ID, READ, false, true);
    var o := Item([rp], map[], false, false);
    assert o.policies[0] == rp;
    forall token ensures token in [GroupToken(ANONYMOUS_ID)] <==> ReadToken(o, token) {
      if token == GroupToken(ANONYMOUS_ID) { assert rp in o.policies && PolicyToken(rp) == token; }
    }
  }

  /** Communities and collections without a metadata service: the filter
      decides exactly as the policy loop does. */
  lemma ContainerFilterExact(c: Context, w: World, o: DSpaceObject, doc: Document)
    requires o.Container? && IndexedInForce(o, doc) && OnePartyEach(o)
    requires forall rp :: rp in o.policies && rp.action == READ ==> rp.epersonID == NOBODY || rp.epersonID > 0
    requires c.user.Some? ==> c.user.value.id > 0
    ensures FilterAdmits(c, w, None, doc) <==> PoliciesGrant(c, w, map[], o, READ)
  {
    if PoliciesGrant(c, w, map[], o, READ) {
      var rp :| rp in o.policies && rp.action == READ && Grants(c, w, map[], o, rp);
      assert PolicyToken(rp) in doc.read;
      if rp.groupID != NOBODY { assert GroupAdmits(c, w, None, rp.groupID, doc); }
    }
    if FilterAdmits(c, w, None, doc) {
      if c.user.Some? && EPersonToken(c.user.value.id) in doc.read {
        var rp :| rp in o.policies && rp.action == READ && rp.dateValid
          && PolicyToken(rp) == EPersonToken(c.user.value.id);
        TokensDistinct(rp.groupID, c.user.value.id);
        TokensDistinct(rp.epersonID, c.user.value.id);
        assert Grants(c, w, map[], o, rp);
      } else {
        var g :| InGroup(c, w, g) && GroupToken(g) in doc.read;
        var rp := PolicyInForceBehind(o, g);
        assert Grants(c, w, map[], o, rp);
      }
    }
  }
}
