/** The access decision: resource policies, the groups they name, and the
    metadata policies that items and bitstreams are checked against as well. */
module Authorize {
  import opened GroupCache
  import opened GroupGraph
  import opened GroupTables
  import opened Membership
  import opened Prelude

  datatype Action = READ | ADMIN | DEFAULT_ITEM_READ | OtherAction(id: int)

  const ADMINISTRATORS_ID := 1
  const NOBODY := -1

  type Metadata = map<string, seq<string>>

  datatype EPerson = EPerson(id: int, metadata: Metadata)

  /** An item field that has to carry one of the values extracted from a field of the user. */
  datatype Policy = ExactMatch(itemField: string, epersonField: string, extract: string -> Option<string>)

  /** Metadata policies by group; a group without an entry has none. */
  type PolicyTable = map<int, seq<Policy>>

  datatype ResourcePolicy = ResourcePolicy(epersonID: int, groupID: int, action: Action, dateValid: bool, custom: bool)

  datatype DSpaceObject =
    | Item(policies: seq<ResourcePolicy>, metadata: Metadata, inWorkspace: bool, inWorkflow: bool)
    | Bitstream(policies: seq<ResourcePolicy>, isLogo: bool, anyItemInstalled: bool, parentItem: Option<Metadata>)
    | Bundle(policies: seq<ResourcePolicy>, anyItemInstalled: bool)
    | Container(policies: seq<ResourcePolicy>)

  /** The object whose administrators count, and the objects above it. */
  datatype AdminChain = Top | Under(policies: seq<ResourcePolicy>, parent: AdminChain)

  datatype Context = Context(user: Option<EPerson>, specialGroups: seq<int>, ignoreAuthorization: bool) {
    function UserID(): int {
      if user.Some? then user.value.id else 0
    }

    function Member(): Option<int> {
      if user.Some? then Some(user.value.id) else None
    }

    function Session(): Session {
      Membership.Session.Session(Member(), specialGroups)
    }
  }

  function ValuesOf(metadata: Metadata, field: string): seq<string> {
    if field in metadata then metadata[field] else []
  }

  function PoliciesOf(table: PolicyTable, group: int): seq<Policy> {
    if group in table then table[group] else []
  }

  /** `value` is what the policy extracts from some metadata value of the user. */
  ghost predicate AclValue(p: Policy, user: EPerson, value: string) {
    exists raw :: raw in ValuesOf(user.metadata, p.epersonField) && p.extract(raw) == Some(value)
  }

  ghost predicate Satisfied(p: Policy, user: Option<EPerson>, metadata: Metadata) {
    user.Some? && exists v :: v in ValuesOf(metadata, p.itemField) && AclValue(p, user.value, v)
  }

  ghost predicate AllSatisfied(ps: seq<Policy>, user: Option<EPerson>, metadata: Metadata) {
    forall p :: p in ps ==> Satisfied(p, user, metadata)
  }

  method PolicyIsAuthorized(p: Policy, user: Option<EPerson>, metadata: Metadata) returns (b: bool)
    ensures b <==> Satisfied(p, user, metadata)
  {
    if user.None? { return false; }
    var itemValues, rawValues := ValuesOf(metadata, p.itemField), ValuesOf(user.value.metadata, p.epersonField);
    for i := 0 to |itemValues|
      invariant forall k :: 0 <= k < i ==> !AclValue(p, user.value, itemValues[k])
    {
      for j := 0 to |rawValues|
        invariant forall k :: 0 <= k < j ==> p.extract(rawValues[k]) != Some(itemValues[i])
      {
        if p.extract(rawValues[j]) == Some(itemValues[i]) {
          ghost var raw := rawValues[j];
          assert raw in rawValues && AclValue(p, user.value, itemValues[i]);
          return true;
        }
      }
      assert !AclValue(p, user.value, itemValues[i]);
    }
    return false;
  }

  /** The metadata a group's policies are checked on, if this kind of object has any. */
  function CheckedMetadata(o: DSpaceObject): Option<Metadata> {
    match o
    case Item(_, metadata, _, _) => Some(metadata)
    case Bitstream(_, _, _, parentItem) => parentItem
    case _ => None
  }

  ghost predicate MetadataAllows(table: PolicyTable, user: Option<EPerson>, group: int, o: DSpaceObject) {
    CheckedMetadata(o).Some? ==> AllSatisfied(PoliciesOf(table, group), user, CheckedMetadata(o).value)
  }

  method MetadataIsAuthorized(table: PolicyTable, user: Option<EPerson>, group: int, o: DSpaceObject) returns (b: bool)
    ensures b <==> MetadataAllows(table, user, group, o)
  {
    if CheckedMetadata(o).None? { return true; }
    var ps := PoliciesOf(table, group);
    for i := 0 to |ps|
      invariant forall k :: 0 <= k < i ==> Satisfied(ps[k], user, CheckedMetadata(o).value)
    {
      var ok := PolicyIsAuthorized(ps[i], user, CheckedMetadata(o).value);
      if !ok { return false; }
    }
    return true;
  }

  /** Custom policies do not count while the object is not in the archive. */
  predicate IgnoresCustom(o: DSpaceObject) {
    match o
    case Item(_, _, inWorkspace, inWorkflow) => inWorkspace || inWorkflow
    case Bitstream(_, isLogo, anyItemInstalled, _) => !isLogo && !anyItemInstalled
    case Bundle(_, anyItemInstalled) => !anyItemInstalled
    case Container(_) => false
  }

  predicate ChecksSubgroups(o: DSpaceObject) {
    o.Item? || o.Bitstream?
  }

  /** The tables as values. */
  datatype World = World(members: set<Edge>, cache: set<Edge>)

  ghost function WorldOf(db: Database): World
    reads db
  {
    World(RowSet(db.epersongroup2eperson), db.Cache())
  }

  /** `Group.isMember`, through the cache. */
  ghost predicate InGroup(c: Context, w: World, g: int) {
    g == ANONYMOUS_ID || g in GroupIDs(c.Session(), c.Member(), w.members, w.cache)
  }

  /** The user is in this very group: a special group, or a direct member. */
  ghost predicate Qualifies(c: Context, w: World, g: int) {
    g in c.specialGroups || g == ANONYMOUS_ID || (c.user.Some? && (g, c.user.value.id) in w.members)
  }

  /** A group and its cached subgroups. */
  ghost predicate InFamily(w: World, g: int, m: int) {
    m == g || (g, m) in w.cache
  }

  /** Some group of the family takes the user in and its metadata policies accept the object. */
  ghost predicate FamilyGrants(c: Context, w: World, table: PolicyTable, g: int, o: DSpaceObject) {
    exists m :: InFamily(w, g, m) && Qualifies(c, w, m) && MetadataAllows(table, c.user, m, o)
  }

  ghost predicate Grants(c: Context, w: World, table: PolicyTable, o: DSpaceObject, rp: ResourcePolicy) {
    && !(IgnoresCustom(o) && rp.custom)
    && rp.dateValid
    && (|| (rp.epersonID != NOBODY && rp.epersonID == c.UserID())
        || (rp.groupID != NOBODY && InGroup(c, w, rp.groupID)
             && (ChecksSubgroups(o) ==> FamilyGrants(c, w, table, rp.groupID, o))))
  }

  /** The policy loop at the end of `authorize`. */
  ghost predicate PoliciesGrant(c: Context, w: World, table: PolicyTable, o: DSpaceObject, action: Action) {
    exists rp :: rp in o.policies && rp.action == action && Grants(c, w, table, o, rp)
  }

  ghost predicate SystemAdmin(c: Context, w: World) {
    c.ignoreAuthorization || (c.user.Some? && InGroup(c, w, ADMINISTRATORS_ID))
  }

  ghost predicate AdminPolicy(c: Context, w: World, rp: ResourcePolicy) {
    && rp.action == ADMIN && rp.dateValid
    && ((rp.epersonID != NOBODY && rp.epersonID == c.UserID()) || (rp.groupID != NOBODY && InGroup(c, w, rp.groupID)))
  }

  /** The policies of an object and of everything above it. */
  function ChainPolicies(chain: AdminChain): seq<ResourcePolicy> {
    match chain
    case Top => []
    case Under(policies, parent) => policies + ChainPolicies(parent)
  }

  method IsSystemAdmin(c: Context, db: Database) returns (b: bool)
    ensures b <==> SystemAdmin(c, WorldOf(db))
  {
    if c.ignoreAuthorization { return true; }
    if c.user.None? { return false; }
    b := IsMember(c.Session(), db, c.Member(), ADMINISTRATORS_ID);
  }

  /** Administrators of an object are those of the system, of the object, or of anything above it. */
  method IsAdmin(c: Context, db: Database, chain: AdminChain) returns (b: bool)
    ensures b <==> (SystemAdmin(c, WorldOf(db))
                    || exists rp :: rp in ChainPolicies(chain) && AdminPolicy(c, WorldOf(db), rp))
    decreases chain
  {
    b := IsSystemAdmin(c, db);
    if b || chain.Top? { return; }
    var policies := chain.policies;
    for i := 0 to |policies|
      invariant forall k :: 0 <= k < i ==> !AdminPolicy(c, WorldOf(db), policies[k])
    {
      var rp := policies[i];
      if rp.action == ADMIN && rp.dateValid {
        if rp.epersonID != NOBODY && rp.epersonID == c.UserID() {
          assert rp in policies && AdminPolicy(c, WorldOf(db), rp);
          return true;
        }
        if rp.groupID != NOBODY {
          var inside := IsMember(c.Session(), db, c.Member(), rp.groupID);
          if inside {
            assert rp in policies && AdminPolicy(c, WorldOf(db), rp);
            return true;
          }
        }
      }
    }
    b := IsAdmin(c, db, chain.parent);
  }

  /** The decision itself. */
  ghost predicate Authorized(c: Context, w: World, table: PolicyTable, o: DSpaceObject, chain: AdminChain,
                             action: Action) {
    || c.ignoreAuthorization
    || (c.user.Some? && (SystemAdmin(c, w) || exists rp :: rp in ChainPolicies(chain) && AdminPolicy(c, w, rp)))
    || PoliciesGrant(c, w, table, o, action)
  }

  method DirectlyIn(c: Context, db: Database, g: int) returns (b: bool)
    ensures b <==> Qualifies(c, WorldOf(db), g)
  {
    if g in c.specialGroups || g == ANONYMOUS_ID { return true; }
    if c.user.None? { return false; }
    var epeople := Select(db.epersongroup2eperson, g);
    SelectFinds(db.epersongroup2eperson, g);
    return c.user.value.id in epeople;
  }

  /** `allMemberGroups`: the cached subgroups, in row order. */
  method AllMemberGroups(db: Database, g: int) returns (subgroups: seq<int>)
    ensures forall m :: m in subgroups <==> (g, m) in db.Cache()
  {
    subgroups := Select(db.group2groupcache, g);
    SelectFinds(db.group2groupcache, g);
  }

  method FamilySearch(c: Context, db: Database, table: PolicyTable, g: int, o: DSpaceObject) returns (b: bool)
    ensures b <==> FamilyGrants(c, WorldOf(db), table, g, o)
  {
    ghost var w := WorldOf(db);
    var groupsToCheck := AllMemberGroups(db, g);
    groupsToCheck := groupsToCheck + [g];
    assert forall m :: m in groupsToCheck <==> InFamily(w, g, m);
    for i := 0 to |groupsToCheck|
      invariant forall k :: 0 <= k < i ==>
        !(Qualifies(c, w, groupsToCheck[k]) && MetadataAllows(table, c.user, groupsToCheck[k], o))
    {
      var m := groupsToCheck[i];
      var direct := DirectlyIn(c, db, m);
      if direct {
        var ok := MetadataIsAuthorized(table, c.user, m, o);
        if ok {
          assert m in groupsToCheck;
          return true;
        }
      }
    }
    return false;
  }

  /** One round of the policy loop. */
  method PolicyGrants(c: Context, db: Database, table: PolicyTable, o: DSpaceObject, rp: ResourcePolicy)
    returns (b: bool)
    ensures b <==> Grants(c, WorldOf(db), table, o, rp)
  {
    if IgnoresCustom(o) && rp.custom { return false; }
    if !rp.dateValid { return false; }
    if rp.epersonID != NOBODY && rp.epersonID == c.UserID() { return true; }
    if rp.groupID == NOBODY { return false; }
    b := IsMember(c.Session(), db, c.Member(), rp.groupID);
    if b && ChecksSubgroups(o) {
      b := FamilySearch(c, db, table, rp.groupID, o);
    }
  }

  method PolicyLoop(c: Context, db: Database, table: PolicyTable, o: DSpaceObject, action: Action) returns (b: bool)
    ensures b <==> PoliciesGrant(c, WorldOf(db), table, o, action)
  {
    var policies := o.policies;
    for i := 0 to |policies|
      invariant forall k :: 0 <= k < i && policies[k].action == action ==>
        !Grants(c, WorldOf(db), table, o, policies[k])
    {
      var rp := policies[i];
      if rp.action == action {
        var granted := PolicyGrants(c, db, table, o, rp);
        if granted {
          assert rp in policies;
          return true;
        }
      }
    }
    return false;
  }

  method AuthorizeAction(c: Context, db: Database, table: PolicyTable, o: DSpaceObject, chain: AdminChain,
                         action: Action)
    returns (b: bool)
    ensures b <==> Authorized(c, WorldOf(db), table, o, chain, action)
  {
    if c.ignoreAuthorization { return true; }
    if c.user.Some? {
      b := IsAdmin(c, db, chain);
      if b { return; }
    }
    b := PolicyLoop(c, db, table, o, action);
  }

  /** Membership through the cache is direct membership somewhere in the family. */
  lemma InGroupIffFamily(c: Context, w: World, g: int)
    ensures InGroup(c, w, g) <==> exists m :: InFamily(w, g, m) && Qualifies(c, w, m)
  {
    var direct := DirectGroups(c.Session(), c.Member(), w.members);
    forall m ensures m in direct <==> Qualifies(c, w, m) {
      if c.user.Some? && (m, c.user.value.id) in w.members {
        assert (m, c.user.value.id).0 in set r | r in w.members && c.Member() == Some(r.1) :: r.0;
      }
    }
    if InGroup(c, w, g) && g !in direct {
      var r :| r in w.cache && r.1 in direct && r.0 == g;
      assert r == (g, r.1);
      assert InFamily(w, g, r.1) && Qualifies(c, w, r.1);
    }
    forall m | InFamily(w, g, m) && Qualifies(c, w, m) ensures InGroup(c, w, g) {
      if m != g { assert (g, m).0 in set r | r in w.cache && r.1 in direct :: r.0; }
    }
    if g in direct { assert InFamily(w, g, g); }
  }

  /** When the metadata policies accept the object for every group, searching
      the family decides as plain membership does: for every cache table, all
      special groups, and users who are not logged in. */
  lemma SearchDecidesAsMembership(c: Context, w: World, table: PolicyTable, g: int, o: DSpaceObject)
    requires forall m :: MetadataAllows(table, c.user, m, o)
    ensures FamilyGrants(c, w, table, g, o) <==> InGroup(c, w, g)
  {
    InGroupIffFamily(c, w, g);
  }

  /** So an item or a bitstream without metadata policies is decided as a
      container with the same policies is. */
  lemma ItemDecidedAsContainer(c: Context, w: World, o: DSpaceObject, action: Action)
    requires ChecksSubgroups(o) && !IgnoresCustom(o)
    ensures PoliciesGrant(c, w, map[], o, action) <==> PoliciesGrant(c, w, map[], Container(o.policies), action)
  {
    forall rp ensures Grants(c, w, map[], o, rp) <==> Grants(c, w, map[], Container(o.policies), rp) {
      SearchDecidesAsMembership(c, w, map[], rp.groupID, o);
    }
  }
}
