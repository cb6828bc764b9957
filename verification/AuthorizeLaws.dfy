/** The access decision spelled out: for each kind of object, in terms of the
    rows, the values and the policies alone. */
module AuthorizeLaws {
  import opened Authorize
  import opened Prelude

  /** The item carries, in the policy's field, a value extracted from the user's. */
  ghost predicate Carries(metadata: Metadata, user: EPerson, p: Policy) {
    && p.itemField in metadata && p.epersonField in user.metadata
    && exists i, j ::
         && 0 <= i < |metadata[p.itemField]| && 0 <= j < |user.metadata[p.epersonField]|
         && p.extract(user.metadata[p.epersonField][j]) == Some(metadata[p.itemField][i])
  }

  ghost predicate CarriesAll(metadata: Metadata, user: Option<EPerson>, table: PolicyTable, g: int) {
    g in table ==> forall p | p in table[g] :: user.Some? && Carries(metadata, user.value, p)
  }

  lemma CarriesIsSatisfied(metadata: Metadata, user: EPerson, p: Policy)
    ensures Carries(metadata, user, p) <==> Satisfied(p, Some(user), metadata)
  {
    var values, raws := ValuesOf(metadata, p.itemField), ValuesOf(user.metadata, p.epersonField);
    if Satisfied(p, Some(user), metadata) {
      var v :| v in values && AclValue(p, user, v);
      var raw :| raw in raws && p.extract(raw) == Some(v);
      var i :| 0 <= i < |values| && values[i] == v;
      var j :| 0 <= j < |raws| && raws[j] == raw;
    }
    if Carries(metadata, user, p) {
      var i, j :| 0 <= i < |values| && 0 <= j < |raws| && p.extract(raws[j]) == Some(values[i]);
      assert raws[j] in raws && AclValue(p, user, values[i]);
    }
  }

  lemma CarriesAllIsSatisfied(metadata: Metadata, user: Option<EPerson>, table: PolicyTable, g: int)
    ensures CarriesAll(metadata, user, table, g) <==> AllSatisfied(PoliciesOf(table, g), user, metadata)
  {
    if user.Some? {
      forall p ensures Carries(metadata, user.value, p) <==> Satisfied(p, user, metadata) {
        CarriesIsSatisfied(metadata, user.value, p);
      }
    }
  }

  /** An item is checked by its own metadata, a bitstream by those of its item,
      and nothing else is checked at all. */
  lemma CheckedBy(table: PolicyTable, user: Option<EPerson>, g: int, policies: seq<ResourcePolicy>, metadata: Metadata,
                  a: bool, b: bool)
    ensures MetadataAllows(table, user, g, Item(policies, metadata, a, b)) <==> CarriesAll(metadata, user, table, g)
    ensures MetadataAllows(table, user, g, Bitstream(policies, a, b, Some(metadata))) <==>
      CarriesAll(metadata, user, table, g)
    ensures MetadataAllows(table, user, g, Bitstream(policies, a, b, None))
    ensures MetadataAllows(table, user, g, Bundle(policies, a)) && MetadataAllows(table, user, g, Container(policies))
  {
    CarriesAllIsSatisfied(metadata, user, table, g);
  }

  /** A bitstream is checked as its item is, whatever policies either has. */
  lemma BitstreamCheckedAsItem(table: PolicyTable, user: Option<EPerson>, g: int, own: seq<ResourcePolicy>,
                               others: seq<ResourcePolicy>, metadata: Metadata, isLogo: bool, installed: bool,
                               inWorkspace: bool, inWorkflow: bool)
    ensures MetadataAllows(table, user, g, Bitstream(own, isLogo, installed, Some(metadata))) <==>
      MetadataAllows(table, user, g, Item(others, metadata, inWorkspace, inWorkflow))
  {
    CheckedBy(table, user, g, own, metadata, isLogo, installed);
    CheckedBy(table, user, g, others, metadata, inWorkspace, inWorkflow);
  }

  // ---------- the decision

  /** The user is in group `m` outright: by the session, as anybody is, or by a row. */
  ghost predicate Inside(c: Context, w: World, m: int) {
    m in c.specialGroups || m == 0 || (c.user.Some? && (m, c.user.value.id) in w.members)
  }

  ghost predicate AtOrBelow(w: World, g: int, m: int) {
    m == g || (g, m) in w.cache
  }

  ghost predicate NamesUser(c: Context, rp: ResourcePolicy) {
    rp.epersonID != -1 && rp.epersonID == if c.user.Some? then c.user.value.id else 0
  }

  /** Through some group of the policy's family that takes the user in. */
  ghost predicate Through(c: Context, w: World, g: int) {
    g != -1 && exists m :: AtOrBelow(w, g, m) && Inside(c, w, m)
  }

  /** The same, where that group's policies are met as well. */
  ghost predicate ThroughMet(c: Context, w: World, table: PolicyTable, g: int, metadata: Metadata) {
    g != -1 && exists m :: AtOrBelow(w, g, m) && Inside(c, w, m) && CarriesAll(metadata, c.user, table, m)
  }

  lemma InGroupThrough(c: Context, w: World, g: int)
    requires g != -1
    ensures InGroup(c, w, g) <==> Through(c, w, g)
  {
    InGroupIffFamily(c, w, g);
    forall m ensures InFamily(w, g, m) && Qualifies(c, w, m) <==> AtOrBelow(w, g, m) && Inside(c, w, m) {}
  }

  /** One policy of an object that is checked by these metadata. */
  lemma CheckedGrants(c: Context, w: World, table: PolicyTable, o: DSpaceObject, rp: ResourcePolicy, metadata: Metadata)
    requires (o.Item? && o.metadata == metadata) || (o.Bitstream? && o.parentItem == Some(metadata))
    requires !(IgnoresCustom(o) && rp.custom)
    ensures Grants(c, w, table, o, rp) <==>
      rp.dateValid && (NamesUser(c, rp) || ThroughMet(c, w, table, rp.groupID, metadata))
  {
    var g := rp.groupID;
    if g != -1 { InGroupThrough(c, w, g); }
    forall m ensures MetadataAllows(table, c.user, m, o) <==> CarriesAll(metadata, c.user, table, m) {
      match o
      case Item(policies, _, a, b) => CheckedBy(table, c.user, m, policies, metadata, a, b);
      case Bitstream(policies, a, b, _) => CheckedBy(table, c.user, m, policies, metadata, a, b);
    }
    forall m ensures InFamily(w, g, m) && Qualifies(c, w, m) <==> AtOrBelow(w, g, m) && Inside(c, w, m) {}
    if ThroughMet(c, w, table, g, metadata) {
      var m :| AtOrBelow(w, g, m) && Inside(c, w, m) && CarriesAll(metadata, c.user, table, m);
      assert InFamily(w, g, m) && Qualifies(c, w, m) && MetadataAllows(table, c.user, m, o);
    }
    if g != -1 && FamilyGrants(c, w, table, g, o) {
      var m :| InFamily(w, g, m) && Qualifies(c, w, m) && MetadataAllows(table, c.user, m, o);
      assert AtOrBelow(w, g, m) && Inside(c, w, m) && CarriesAll(metadata, c.user, table, m);
    }
  }

  /** One policy of an object that is not checked. */
  lemma UncheckedGrants(c: Context, w: World, table: PolicyTable, o: DSpaceObject, rp: ResourcePolicy)
    requires o.Bundle? || o.Container? || (o.Bitstream? && o.parentItem.None?)
    requires !(IgnoresCustom(o) && rp.custom)
    ensures Grants(c, w, table, o, rp) <==> rp.dateValid && (NamesUser(c, rp) || Through(c, w, rp.groupID))
  {
    if rp.groupID != -1 {
      InGroupThrough(c, w, rp.groupID);
      InGroupIffFamily(c, w, rp.groupID);
    }
  }

  /** An item, whole: archived, or by policies that are not custom, some policy
      for the action in force names the user, or a group through which the user
      gets to all the item's values that are asked for. */
  lemma ItemGrantedIff(c: Context, w: World, table: PolicyTable, policies: seq<ResourcePolicy>, metadata: Metadata,
                       inWorkspace: bool, inWorkflow: bool, action: Action)
    ensures PoliciesGrant(c, w, table, Item(policies, metadata, inWorkspace, inWorkflow), action) <==>
      exists rp :: rp in policies && rp.action == action && rp.dateValid
        && (rp.custom ==> !inWorkspace && !inWorkflow)
        && (NamesUser(c, rp) || ThroughMet(c, w, table, rp.groupID, metadata))
  {
    var o := Item(policies, metadata, inWorkspace, inWorkflow);
    forall rp: ResourcePolicy | !(rp.custom && (inWorkspace || inWorkflow)) {
      CheckedGrants(c, w, table, o, rp, metadata);
    }
  }

  /** A bitstream of an item: the same, by the values of its item; custom
      policies count for logos and once some item it is in is installed. */
  lemma BitstreamGrantedIff(c: Context, w: World, table: PolicyTable, policies: seq<ResourcePolicy>, metadata: Metadata,
                            isLogo: bool, installed: bool, action: Action)
    ensures PoliciesGrant(c, w, table, Bitstream(policies, isLogo, installed, Some(metadata)), action) <==>
      exists rp :: rp in policies && rp.action == action && rp.dateValid && (rp.custom ==> isLogo || installed)
        && (NamesUser(c, rp) || ThroughMet(c, w, table, rp.groupID, metadata))
  {
    var o := Bitstream(policies, isLogo, installed, Some(metadata));
    forall rp: ResourcePolicy | !(rp.custom && !isLogo && !installed) { CheckedGrants(c, w, table, o, rp, metadata); }
  }

  /** A bitstream without an item, a bundle, a container: whoever gets to the group. */
  lemma OtherGrantedIff(c: Context, w: World, table: PolicyTable, policies: seq<ResourcePolicy>,
                        isLogo: bool, installed: bool, action: Action)
    ensures PoliciesGrant(c, w, table, Bitstream(policies, isLogo, installed, None), action) <==>
      exists rp :: rp in policies && rp.action == action && rp.dateValid && (rp.custom ==> isLogo || installed)
        && (NamesUser(c, rp) || Through(c, w, rp.groupID))
    ensures PoliciesGrant(c, w, table, Bundle(policies, installed), action) <==>
      exists rp :: rp in policies && rp.action == action && rp.dateValid && (rp.custom ==> installed)
        && (NamesUser(c, rp) || Through(c, w, rp.groupID))
    ensures PoliciesGrant(c, w, table, Container(policies), action) <==>
      exists rp :: rp in policies && rp.action == action && rp.dateValid
        && (NamesUser(c, rp) || Through(c, w, rp.groupID))
  {
    forall o: DSpaceObject, rp: ResourcePolicy
      | (o.Bundle? || o.Container? || (o.Bitstream? && o.parentItem.None?)) && !(IgnoresCustom(o) && rp.custom)
      ensures Grants(c, w, table, o, rp) <==> rp.dateValid && (NamesUser(c, rp) || Through(c, w, rp.groupID))
    {
      UncheckedGrants(c, w, table, o, rp);
    }
  }

  // ---------- administrators

  ghost predicate AdminRow(c: Context, w: World, rp: ResourcePolicy) {
    rp.action == ADMIN && rp.dateValid && (NamesUser(c, rp) || Through(c, w, rp.groupID))
  }

  /** Some object of the chain has a policy that makes the user its administrator. */
  ghost predicate AdminAbove(c: Context, w: World, chain: AdminChain) {
    chain.Under? && ((exists rp :: rp in chain.policies && AdminRow(c, w, rp)) || AdminAbove(c, w, chain.parent))
  }

  lemma {:induction false} AdminAboveIs(c: Context, w: World, chain: AdminChain)
    ensures AdminAbove(c, w, chain) <==> exists rp :: rp in ChainPolicies(chain) && AdminPolicy(c, w, rp)
  {
    forall rp: ResourcePolicy ensures AdminPolicy(c, w, rp) <==> AdminRow(c, w, rp) {
      if rp.groupID != -1 { InGroupThrough(c, w, rp.groupID); }
    }
    if chain.Under? {
      AdminAboveIs(c, w, chain.parent);
      assert forall rp :: rp in ChainPolicies(chain) <==> rp in chain.policies || rp in ChainPolicies(chain.parent);
    }
  }

  /** The whole decision: authorization is off, or a user is a system
      administrator or one of the object or anything above it, or a policy grants. */
  lemma AuthorizedIff(c: Context, w: World, table: PolicyTable, o: DSpaceObject, chain: AdminChain, action: Action)
    ensures Authorized(c, w, table, o, chain, action) <==>
      || c.ignoreAuthorization
      || (c.user.Some? && (Through(c, w, 1) || AdminAbove(c, w, chain)))
      || PoliciesGrant(c, w, table, o, action)
  {
    InGroupThrough(c, w, 1);
    AdminAboveIs(c, w, chain);
  }
}
