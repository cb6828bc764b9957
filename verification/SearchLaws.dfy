/** The search filter whole, said of policies, rows and values alone. */
module SearchLaws {
  import opened Authorize
  import opened AuthorizeLaws
  import opened Decimal
  import opened Membership
  import opened Prelude
  import opened SearchFilter

  // ---------- text

  /** The separators of Unicode 6: spaces, line and paragraph separators. */
  predicate Separator(c: char) {
    || c in {' ', '\U{00A0}', '\U{1680}', '\U{180E}', '\U{202F}', '\U{205F}', '\U{3000}', '\U{2028}', '\U{2029}'}
    || '\U{2000}' <= c <= '\U{200A}'
  }

  predicate NonBreaking(c: char) {
    c in {'\U{00A0}', '\U{2007}', '\U{202F}'}
  }

  /** Tab, line feed, vertical tab, form feed, carriage return, and the
      separators of files, groups, records and units. */
  predicate SpaceControl(c: char) {
    c as int in {9, 10, 11, 12, 13, 28, 29, 30, 31}
  }

  lemma WhitespaceIff(c: char)
    ensures IsWhitespace(c) <==> (Separator(c) && !NonBreaking(c)) || SpaceControl(c)
  {
  }

  // ---------- the query

  /** A query finds a document by one of its clauses: the token, and one of the
      values it names in the field it names. */
  lemma AdmitsIff(query: seq<Clause>, doc: Document)
    ensures Admits(query, doc) <==>
      exists i | 0 <= i < |query| ::
        && query[i].token in doc.read
        && match query[i].criteria
           case None => true
           case Some(asked) =>
             asked.field in doc.fields && exists v :: v in asked.values && v in doc.fields[asked.field]
  {
    forall clause: Clause ensures Matches(doc, clause) <==>
      && clause.token in doc.read
      && match clause.criteria
         case None => true
         case Some(asked) => asked.field in doc.fields && exists v :: v in asked.values && v in doc.fields[asked.field]
    {
    }
    if Admits(query, doc) {
      var clause :| clause in query && Matches(doc, clause);
      var i :| 0 <= i < |query| && query[i] == clause;
    }
  }

  // ---------- the filter

  ghost predicate Blank(s: string) {
    forall i | 0 <= i < |s| :: (Separator(s[i]) && !NonBreaking(s[i])) || SpaceControl(s[i])
  }

  /** The item has, in the policy's field, something the filter asks for: a value
      extracted from the user that is not blank, or the word for no value where
      the user has nothing to extract from. */
  ghost predicate Offers(metadata: Metadata, user: EPerson, p: Policy) {
    p.itemField in metadata && exists i | 0 <= i < |metadata[p.itemField]| ::
      var v := metadata[p.itemField][i];
      if p.epersonField !in user.metadata || user.metadata[p.epersonField] == [] then v == "NO-VALUE-FOUND"
      else !Blank(v) && exists j | 0 <= j < |user.metadata[p.epersonField]| ::
             p.extract(user.metadata[p.epersonField][j]) == Some(v)
  }

  lemma OffersIsMet(metadata: Metadata, user: EPerson, p: Policy, doc: Document)
    requires doc.fields == metadata
    ensures Offers(metadata, user, p) <==> CriteriaMet(p, user, doc)
  {
    forall v ensures Blank(v) <==> IsBlank(v) {
      forall c { WhitespaceIff(c); }
    }
    var values, raws := ValuesOf(metadata, p.itemField), ValuesOf(user.metadata, p.epersonField);
    if Offers(metadata, user, p) {
      var i :| 0 <= i < |values| && (if raws == [] then values[i] == "NO-VALUE-FOUND"
        else !Blank(values[i]) && exists j | 0 <= j < |raws| :: p.extract(raws[j]) == Some(values[i]));
      if raws != [] {
        var j :| 0 <= j < |raws| && p.extract(raws[j]) == Some(values[i]);
        assert raws[j] in raws && AclValue(p, user, values[i]);
      }
      assert values[i] in values && CriteriaValue(p, user, values[i]);
    }
    if CriteriaMet(p, user, doc) {
      var v :| v in values && CriteriaValue(p, user, v);
      var i :| 0 <= i < |values| && values[i] == v;
      if raws != [] {
        var raw :| raw in raws && p.extract(raw) == Some(v);
        var j :| 0 <= j < |raws| && raws[j] == raw;
      }
    }
  }

  /** Some group of the family that takes the user in is configured with it. */
  ghost predicate Configured(c: Context, w: World, table: PolicyTable, g: int, p: Policy) {
    c.user.Some? && exists m :: AtOrBelow(w, g, m) && Inside(c, w, m) && m in table && p in table[m]
  }

  lemma ConfiguredIs(c: Context, w: World, table: PolicyTable, g: int, p: Policy)
    ensures Configured(c, w, table, g, p) <==> FamilyPolicy(c, w, table, g, p)
  {
    if Configured(c, w, table, g, p) {
      var m :| AtOrBelow(w, g, m) && Inside(c, w, m) && m in table && p in table[m];
      assert InFamily(w, g, m) && Qualifies(c, w, m) && p in PoliciesOf(table, m);
    }
    if FamilyPolicy(c, w, table, g, p) {
      var m :| InFamily(w, g, m) && Qualifies(c, w, m) && p in PoliciesOf(table, m);
      assert AtOrBelow(w, g, m) && Inside(c, w, m);
    }
  }

  /** A group with policies configured for its family asks for one of them to be
      offered, and any other for nothing. */
  ghost predicate OneOffered(c: Context, w: World, service: Option<PolicyTable>, g: int, metadata: Metadata) {
    service.None? || (forall p :: !Configured(c, w, service.value, g, p))
    || exists p :: Configured(c, w, service.value, g, p) && Offers(metadata, c.user.value, p)
  }

  lemma OneOfferedIs(c: Context, w: World, service: Option<PolicyTable>, g: int, doc: Document)
    ensures OneOffered(c, w, service, g, doc.fields) <==> GroupAsks(c, w, service, g, doc)
  {
    if service.Some? {
      forall p ensures Configured(c, w, service.value, g, p) <==> FamilyPolicy(c, w, service.value, g, p) {
        ConfiguredIs(c, w, service.value, g, p);
      }
      if c.user.Some? {
        forall p ensures Offers(doc.fields, c.user.value, p) <==> CriteriaMet(p, c.user.value, doc) {
          OffersIsMet(doc.fields, c.user.value, p, doc);
        }
      }
    }
  }

  /** An indexed item is shown exactly for a READ policy that names Anonymous, or
      no group but the user, or a group through which the user gets to it and
      whose configured policies, if there are any, find one offered. */
  lemma ShownIff(c: Context, w: World, service: Option<PolicyTable>, o: DSpaceObject, doc: Document)
    requires o.Item? && IndexedAs(o, doc)
    ensures FilterAdmits(c, w, service, doc) <==>
      exists rp :: rp in o.policies && rp.action == READ && ShowsBy(c, w, service, rp, o.metadata)
  {
    if rp :| rp in o.policies && rp.action == READ && ShowsBy(c, w, service, rp, o.metadata) {
      assert TokenAmong(o.policies, PolicyToken(rp));
      if rp.groupID > 0 || rp.groupID < -1 {
        GroupFound(c, w, rp.groupID);
        OneOfferedIs(c, w, service, rp.groupID, doc);
        assert GroupAdmits(c, w, service, rp.groupID, doc);
      }
    }
    if FilterAdmits(c, w, service, doc) { ShownBy(c, w, service, o, doc); }
  }

  ghost predicate ShowsBy(c: Context, w: World, service: Option<PolicyTable>, rp: ResourcePolicy, metadata: Metadata) {
    if rp.groupID == -1 then c.user.Some? && rp.epersonID == c.user.value.id
    else rp.groupID == 0 || (Through(c, w, rp.groupID) && OneOffered(c, w, service, rp.groupID, metadata))
  }

  lemma GroupFound(c: Context, w: World, g: int)
    requires g != -1 && g != 0
    ensures Through(c, w, g) <==> g in GroupIDs(c.Session(), c.Member(), w.members, w.cache)
  {
    InGroupThrough(c, w, g);
  }

  lemma ShownBy(c: Context, w: World, service: Option<PolicyTable>, o: DSpaceObject, doc: Document)
    requires o.Item? && IndexedAs(o, doc) && FilterAdmits(c, w, service, doc)
    ensures exists rp :: rp in o.policies && rp.action == READ && ShowsBy(c, w, service, rp, o.metadata)
  {
    if GroupToken(0) in doc.read {
      var rp := GroupRow(o, doc, 0);
    } else if c.user.Some? && EPersonToken(c.user.value.id) in doc.read {
      var token := EPersonToken(c.user.value.id);
      var rp :| rp in o.policies && rp.action == READ && PolicyToken(rp) == token;
      TokensDistinct(rp.groupID, c.user.value.id);
      TokensDistinct(rp.epersonID, c.user.value.id);
    } else {
      var g :| g in GroupIDs(c.Session(), c.Member(), w.members, w.cache) && GroupAdmits(c, w, service, g, doc);
      var rp := GroupRow(o, doc, g);
      GroupFound(c, w, g);
      OneOfferedIs(c, w, service, g, doc);
    }
  }

  lemma GroupRow(o: DSpaceObject, doc: Document, g: int) returns (rp: ResourcePolicy)
    requires IndexedAs(o, doc) && GroupToken(g) in doc.read
    ensures rp in o.policies && rp.action == READ && rp.groupID == g && g != -1
  {
    rp :| rp in o.policies && rp.action == READ && PolicyToken(rp) == GroupToken(g);
    TokensDistinct(rp.groupID, g);
    TokensDistinct(g, rp.epersonID);
  }

  /** Nobody is left unfiltered but system administrators, and code that runs
      with authorization turned off. */
  lemma UnfilteredIff(c: Context, w: World)
    ensures SystemAdmin(c, w) <==> c.ignoreAuthorization || (c.user.Some? && Through(c, w, 1))
  {
    InGroupThrough(c, w, 1);
  }

  /** Tokens as they are written. */
  lemma TokensSpelled()
    ensures GroupToken(0) == "g0" && GroupToken(17) == "g17" && EPersonToken(3) == "e3"
  {
    assert Digits(17) == Digits(1) + [Digit(7)] == ['1', '7'];
  }
}
