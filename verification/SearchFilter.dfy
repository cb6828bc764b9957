/** The READ decision as a search filter: tokens written into the index and a
    disjunction of clauses asked of it, against the decision of `authorize`. */
module SearchFilter {
  import opened Authorize
  import opened Decimal
  import opened GroupCache
  import opened Membership
  import opened Prelude

  const NO_VALUE := "NO-VALUE-FOUND"

  datatype Document = Document(read: seq<string>, fields: Metadata)

  /** field:"v1" OR field:"v2" ... */
  datatype Criteria = Criteria(field: string, values: seq<string>)

  /** (read:token AND criteria) */
  datatype Clause = Clause(token: string, criteria: Option<Criteria>)

  function GroupToken(id: int): string { "g" + ToString(id) }

  function EPersonToken(id: int): string { "e" + ToString(id) }

  /** `Character.isWhitespace`, by the Unicode tables of Java 7: the separators
      but for the non-breaking ones, and some control characters. */
  predicate IsWhitespace(c: char) {
    || '\t' <= c <= '\r' || '\U{001C}' <= c <= ' ' || c == '\U{1680}' || c == '\U{180E}'
    || ('\U{2000}' <= c <= '\U{200A}' && c != '\U{2007}')
    || c == '\U{2028}' || c == '\U{2029}' || c == '\U{205F}' || c == '\U{3000}'
  }

  predicate IsBlank(s: string) {
    forall i :: 0 <= i < |s| ==> IsWhitespace(s[i])
  }

  lemma TokensDistinct(i: int, j: int)
    ensures GroupToken(i) == GroupToken(j) <==> i == j
    ensures EPersonToken(i) == EPersonToken(j) <==> i == j
    ensures GroupToken(i) != EPersonToken(j)
  {
    ToStringInjective(i, j);
    assert GroupToken(i)[1..] == ToString(i) && GroupToken(j)[1..] == ToString(j);
    assert EPersonToken(i)[1..] == ToString(i) && EPersonToken(j)[1..] == ToString(j);
    assert GroupToken(i)[0] != EPersonToken(j)[0];
  }

  // ---------- what is written into the index

  function PolicyToken(rp: ResourcePolicy): string {
    if rp.groupID != NOBODY then GroupToken(rp.groupID) else EPersonToken(rp.epersonID)
  }

  ghost predicate TokenAmong(policies: seq<ResourcePolicy>, token: string) {
    exists rp :: rp in policies && rp.action == READ && PolicyToken(rp) == token
  }

  ghost predicate ReadToken(o: DSpaceObject, token: string) {
    TokenAmong(o.policies, token)
  }

  lemma TokenAmongMore(policies: seq<ResourcePolicy>, i: nat, token: string)
    requires i < |policies|
    ensures TokenAmong(policies[..i + 1], token) <==>
      (TokenAmong(policies[..i], token) || (policies[i].action == READ && PolicyToken(policies[i]) == token))
  {
    var fewer, rp := policies[..i], policies[i];
    assert policies[..i + 1] == fewer + [rp];
    assert forall q :: q in fewer + [rp] <==> q in fewer || q == rp;
  }

  method AdditionalIndex(o: DSpaceObject) returns (doc: Document)
    ensures forall token :: token in doc.read <==> ReadToken(o, token)
    ensures doc.fields == if o.Item? then o.metadata else map[]
  {
    var read := [];
    for i := 0 to |o.policies|
      invariant forall token :: token in read <==> TokenAmong(o.policies[..i], token)
    {
      forall token { TokenAmongMore(o.policies, i, token); }
      if o.policies[i].action == READ {
        read := read + [PolicyToken(o.policies[i])];
      }
    }
    assert o.policies[..|o.policies|] == o.policies;
    doc := Document(read, if o.Item? then o.metadata else map[]);
  }

  /** The document an object is searched by. */
  ghost predicate IndexedAs(o: DSpaceObject, doc: Document) {
    && (forall token :: token in doc.read <==> ReadToken(o, token))
    && doc.fields == if o.Item? then o.metadata else map[]
  }

  // ---------- what is asked of it

  ghost predicate Matches(doc: Document, clause: Clause) {
    && clause.token in doc.read
    && (clause.criteria.Some? ==>
          exists v :: v in clause.criteria.value.values && v in ValuesOf(doc.fields, clause.criteria.value.field))
  }

  ghost predicate Admits(query: seq<Clause>, doc: Document) {
    exists clause :: clause in query && Matches(doc, clause)
  }

  lemma AdmitsConcat(q: seq<Clause>, r: seq<Clause>)
    ensures forall doc :: Admits(q + r, doc) <==> Admits(q, doc) || Admits(r, doc)
  {
    assert forall clause :: clause in q + r <==> clause in q || clause in r;
  }

  lemma AdmitsOne(clause: Clause)
    ensures forall doc :: Admits([clause], doc) <==> Matches(doc, clause)
  {
    assert clause in [clause];
  }

  /** The values a policy asks an item for: those extracted for the user that
      are not blank, or a sentinel when the user has nothing to extract from. */
  ghost predicate CriteriaValue(p: Policy, user: EPerson, v: string) {
    if ValuesOf(user.metadata, p.epersonField) == [] then v == NO_VALUE
    else AclValue(p, user, v) && !IsBlank(v)
  }

  ghost predicate CriteriaMet(p: Policy, user: EPerson, doc: Document) {
    exists v :: v in ValuesOf(doc.fields, p.itemField) && CriteriaValue(p, user, v)
  }

  method SolrQueryCriteria(p: Policy, user: EPerson) returns (criteria: Criteria)
    ensures criteria.field == p.itemField
    ensures forall v :: v in criteria.values <==> CriteriaValue(p, user, v)
  {
    var raws := ValuesOf(user.metadata, p.epersonField);
    if |raws| == 0 { return Criteria(p.itemField, [NO_VALUE]); }
    var values := [];
    for i := 0 to |raws|
      invariant forall v :: v in values <==> exists k :: 0 <= k < i && p.extract(raws[k]) == Some(v) && !IsBlank(v)
    {
      var extracted := p.extract(raws[i]);
      if extracted.Some? && !IsBlank(extracted.value) {
        values := values + [extracted.value];
      }
    }
    forall v ensures v in values <==> CriteriaValue(p, user, v) {
      if CriteriaValue(p, user, v) {
        var raw :| raw in raws && p.extract(raw) == Some(v);
        var k :| 0 <= k < |raws| && raws[k] == raw;
      }
    }
    criteria := Criteria(p.itemField, values);
  }

  /** A policy of some group of the family that takes the user in. */
  ghost predicate FamilyPolicy(c: Context, w: World, table: PolicyTable, g: int, p: Policy) {
    c.user.Some? && exists m :: InFamily(w, g, m) && Qualifies(c, w, m) && p in PoliciesOf(table, m)
  }

  method RetrievePoliciesForGroupAndMembers(c: Context, db: Database, table: PolicyTable, g: int)
    returns (ps: seq<Policy>)
    ensures forall p :: p in ps <==> FamilyPolicy(c, WorldOf(db), table, g, p)
  {
    ps := [];
    if c.user.None? { return; }
    ghost var w := WorldOf(db);
    var groupsToCheck := AllMemberGroups(db, g);
    groupsToCheck := groupsToCheck + [g];
    assert forall m :: m in groupsToCheck <==> InFamily(w, g, m);
    for i := 0 to |groupsToCheck|
      invariant forall p :: p in ps <==>
        exists k :: 0 <= k < i && Qualifies(c, w, groupsToCheck[k]) && p in PoliciesOf(table, groupsToCheck[k])
    {
      var direct := DirectlyIn(c, db, groupsToCheck[i]);
      if direct { ps := ps + PoliciesOf(table, groupsToCheck[i]); }
    }
    forall p ensures p in ps <==> FamilyPolicy(c, w, table, g, p) {
      if FamilyPolicy(c, w, table, g, p) {
        var m :| InFamily(w, g, m) && Qualifies(c, w, m) && p in PoliciesOf(table, m);
        var k :| 0 <= k < |groupsToCheck| && groupsToCheck[k] == m;
      }
    }
  }

  /** What the clauses of one group ask beyond its token. */
  ghost predicate GroupAsks(c: Context, w: World, service: Option<PolicyTable>, g: int, doc: Document) {
    service.Some? && (exists p :: FamilyPolicy(c, w, service.value, g, p)) ==>
      exists p :: FamilyPolicy(c, w, service.value, g, p) && CriteriaMet(p, c.user.value, doc)
  }

  ghost predicate GroupAdmits(c: Context, w: World, service: Option<PolicyTable>, g: int, doc: Document) {
    GroupToken(g) in doc.read && GroupAsks(c, w, service, g, doc)
  }

  /** What the whole filter lets through. */
  ghost predicate FilterAdmits(c: Context, w: World, service: Option<PolicyTable>, doc: Document) {
    || GroupToken(ANONYMOUS_ID) in doc.read
    || (c.user.Some? && EPersonToken(c.user.value.id) in doc.read)
    || exists g :: g in GroupIDs(c.Session(), c.Member(), w.members, w.cache) && GroupAdmits(c, w, service, g, doc)
  }

  method GroupClauses(c: Context, db: Database, service: Option<PolicyTable>, g: int) returns (clauses: seq<Clause>)
    ensures forall doc :: Admits(clauses, doc) <==> GroupAdmits(c, WorldOf(db), service, g, doc)
  {
    ghost var w := WorldOf(db);
    clauses := [];
    var ps: seq<Policy> := [];
    if service.Some? { ps := RetrievePoliciesForGroupAndMembers(c, db, service.value, g); }
    if |ps| == 0 {
      clauses := [Clause(GroupToken(g), None)];
      AdmitsOne(clauses[0]);
      return;
    }
    ghost var first := ps[0];
    assert first in ps;
    for i := 0 to |ps|
      invariant forall doc :: Admits(clauses, doc) <==>
        GroupToken(g) in doc.read && exists k :: 0 <= k < i && CriteriaMet(ps[k], c.user.value, doc)
    {
      var criteria := SolrQueryCriteria(ps[i], c.user.value);
      var clause := Clause(GroupToken(g), Some(criteria));
      AdmitsConcat(clauses, [clause]);
      AdmitsOne(clause);
      clauses := clauses + [clause];
    }
    forall doc ensures Admits(clauses, doc) <==> GroupAdmits(c, w, service, g, doc) {
      if GroupAdmits(c, w, service, g, doc) {
        var p :| p in ps && CriteriaMet(p, c.user.value, doc);
        var k :| 0 <= k < |ps| && ps[k] == p;
      }
    }
  }

  /** Administrators are not filtered; for everybody else the groups are
      visited in whatever order the hash set yields them. */
  method AdditionalSearchParameters(c: Context, db: Database, service: Option<PolicyTable>)
    returns (query: Option<seq<Clause>>)
    ensures query.None? <==> SystemAdmin(c, WorldOf(db))
    ensures query.Some? ==> forall doc :: Admits(query.value, doc) <==> FilterAdmits(c, WorldOf(db), service, doc)
  {
    ghost var w := WorldOf(db);
    var admin := IsSystemAdmin(c, db);
    if admin { return None; }
    var clauses := [Clause(GroupToken(ANONYMOUS_ID), None)];
    AdmitsOne(clauses[0]);
    if c.user.Some? {
      var mine := Clause(EPersonToken(c.user.value.id), None);
      AdmitsConcat(clauses, [mine]);
      AdmitsOne(mine);
      clauses := clauses + [mine];
    }
    ghost var always := clauses;
    var groupIDs := AllMemberGroupIDs(c.Session(), db, c.Member());
    var rest := groupIDs;
    while rest != {}
      invariant rest <= groupIDs
      invariant forall doc :: Admits(clauses, doc) <==>
        Admits(always, doc) || exists g :: g in groupIDs - rest && GroupAdmits(c, w, service, g, doc)
    {
      var g := Choose(rest);
      rest := rest - {g};
      var more := GroupClauses(c, db, service, g);
      AdmitsConcat(clauses, more);
      clauses := clauses + more;
    }
    query := Some(clauses);
  }
}
