/** The configuration over runs of indexings: which policies each group has
    gathered from its subgroups, and when the search filter stays sound. */
module PolicyRuns {
  import opened Authorize
  import opened GroupGraph
  import opened PolicyLists
  import opened Prelude
  import opened SearchFilter
  import opened SearchSoundness

  /** An object readable by the group is indexed, with the cached subgroups in this order. */
  datatype Indexing = Indexing(group: int, members: seq<int>)

  ghost predicate ReadFrom(cache: set<Edge>, step: Indexing) {
    forall m :: m in step.members <==> (step.group, m) in cache
  }

  ghost predicate RunOf(cache: set<Edge>, run: seq<Indexing>) {
    forall i | 0 <= i < |run| :: ReadFrom(cache, run[i])
  }

  function AfterRun(table: PolicyTable, run: seq<Indexing>): PolicyTable {
    if run == [] then table
    else
      var last := run[|run| - 1];
      Grown(AfterRun(table, run[..|run| - 1]), last.group, last.members)
  }

  function GroupsOf(run: seq<Indexing>): set<int> {
    set i | 0 <= i < |run| :: run[i].group
  }

  // ---------- what the lists hold after a run

  /** `p` is in the list of `h` once the groups of `indexed` have been indexed:
      it was loaded there, or with a cached subgroup. */
  ghost predicate AsksAfter(cache: set<Edge>, table: PolicyTable, indexed: set<int>, h: int, p: Policy) {
    || p in PoliciesOf(table, h)
    || (h in table && h in indexed && exists m :: (h, m) in cache && p in PoliciesOf(table, m))
  }

  ghost predicate GrownTo(cache: set<Edge>, table: PolicyTable, grown: PolicyTable, indexed: set<int>) {
    && grown.Keys == table.Keys
    && forall h, p :: p in PoliciesOf(grown, h) <==> AsksAfter(cache, table, indexed, h, p)
  }

  lemma GrownHolds(now: PolicyTable, cache: set<Edge>, step: Indexing, p: Policy)
    requires ReadFrom(cache, step) && step.group in now
    ensures p in PoliciesOf(Grown(now, step.group, step.members), step.group) <==>
      (p in PoliciesOf(now, step.group) || exists m :: (step.group, m) in cache && p in PoliciesOf(now, m))
  {
    var members := step.members;
    AppendedHolds(now, step.group, members, |members|, p);
    if m :| (step.group, m) in cache && p in PoliciesOf(now, m) {
      var k :| 0 <= k < |members| && members[k] == m;
      assert Held(now, members, |members|, p);
    }
    if Held(now, members, |members|, p) {
      var k :| 0 <= k < |members| && p in PoliciesOf(now, members[k]);
      assert members[k] in members;
    }
  }

  lemma StepGrows(cache: set<Edge>, table: PolicyTable, now: PolicyTable, indexed: set<int>, step: Indexing)
    requires Transitive(cache) && ReadFrom(cache, step) && GrownTo(cache, table, now, indexed)
    ensures GrownTo(cache, table, Grown(now, step.group, step.members), indexed + {step.group})
  {
    var g, grown := step.group, Grown(now, step.group, step.members);
    forall h, p ensures p in PoliciesOf(grown, h) <==> AsksAfter(cache, table, indexed + {g}, h, p) {
      if h == g && g in table {
        GrownHolds(now, cache, step, p);
        GathersOnce(cache, table, now, indexed, g, p);
      } else {
        assert PoliciesOf(grown, h) == PoliciesOf(now, h);
      }
    }
  }

  /** Through a transitive cache, what the subgroups have gathered meanwhile is nothing new. */
  lemma GathersOnce(cache: set<Edge>, table: PolicyTable, now: PolicyTable, indexed: set<int>, g: int, p: Policy)
    requires Transitive(cache) && GrownTo(cache, table, now, indexed)
    ensures (p in PoliciesOf(now, g) || exists m :: (g, m) in cache && p in PoliciesOf(now, m)) <==>
      (p in PoliciesOf(table, g) || exists m :: (g, m) in cache && p in PoliciesOf(table, m))
  {
    if m :| (g, m) in cache && p in PoliciesOf(now, m) && p !in PoliciesOf(table, m) {
      var below :| (m, below) in cache && p in PoliciesOf(table, below);
      assert (g, below) in cache;
    }
    if m :| (g, m) in cache && p in PoliciesOf(table, m) {
      assert p in PoliciesOf(now, m);
    }
  }

  lemma {:induction false} RunGrows(cache: set<Edge>, table: PolicyTable, run: seq<Indexing>)
    requires Transitive(cache) && RunOf(cache, run)
    ensures GrownTo(cache, table, AfterRun(table, run), GroupsOf(run))
  {
    if run != [] {
      var init, last := run[..|run| - 1], run[|run| - 1];
      RunGrows(cache, table, init);
      StepGrows(cache, table, AfterRun(table, init), GroupsOf(init), last);
      GroupsOfMore(init, last);
      assert init + [last] == run;
    }
  }

  lemma GroupsOfMore(run: seq<Indexing>, step: Indexing)
    ensures GroupsOf(run + [step]) == GroupsOf(run) + {step.group}
  {
    var more := run + [step];
    forall g | g in GroupsOf(run) + {step.group} ensures g in GroupsOf(more) {
      if g == step.group {
        assert more[|run|].group == g;
      } else {
        var i :| 0 <= i < |run| && run[i].group == g;
        assert more[i].group == g;
      }
    }
  }

  lemma {:induction false} AfterBoth(table: PolicyTable, first: seq<Indexing>, second: seq<Indexing>)
    ensures AfterRun(table, first + second) == AfterRun(AfterRun(table, first), second)
  {
    if second == [] {
      assert first + second == first;
    } else {
      var init := second[..|second| - 1];
      assert (first + second)[..|first + second| - 1] == first + init;
      AfterBoth(table, first, init);
    }
  }

  // ---------- soundness after a run

  ghost predicate FreeAfter(c: Context, w: World, table: PolicyTable, indexed: set<int>, g: int) {
    exists m :: InFamily(w, g, m) && Qualifies(c, w, m) && forall p :: !AsksAfter(w.cache, table, indexed, m, p)
  }

  ghost predicate FamilyAsksAfter(c: Context, w: World, table: PolicyTable, indexed: set<int>, g: int, p: Policy) {
    exists m :: InFamily(w, g, m) && Qualifies(c, w, m) && AsksAfter(w.cache, table, indexed, m, p)
  }

  ghost predicate OneValueAfter(c: Context, w: World, table: PolicyTable, indexed: set<int>, g: int, field: string,
                                v: string) {
    c.user.Some? && exists m ::
      && InFamily(w, g, m) && Qualifies(c, w, m)
      && forall q :: AsksAfter(w.cache, table, indexed, m, q) ==> q.itemField == field && AclValue(q, c.user.value, v)
  }

  /** The configuration check on the table as it was loaded, with each indexed
      group asking for the policies of its cached subgroups too. */
  ghost predicate SafeAfter(c: Context, w: World, table: PolicyTable, indexed: set<int>, sentinelFree: bool) {
    && c.user.Some?
    && FreeAfter(c, w, table, indexed, ANONYMOUS_ID)
    && forall g, p, v ::
         InGroup(c, w, g) && g != NOBODY && FamilyAsksAfter(c, w, table, indexed, g, p)
         && CriteriaValue(p, c.user.value, v) && (sentinelFree ==> v != NO_VALUE)
         ==> OneValueAfter(c, w, table, indexed, g, p.itemField, v)
  }

  lemma NoneAsked(ps: seq<Policy>)
    ensures ps == [] <==> forall p :: p !in ps
  {
    if ps != [] { assert ps[0] in ps; }
  }

  lemma FreeIsFreeAfter(c: Context, w: World, table: PolicyTable, grown: PolicyTable, indexed: set<int>, g: int)
    requires GrownTo(w.cache, table, grown, indexed)
    ensures FamilyFree(c, w, grown, g) <==> FreeAfter(c, w, table, indexed, g)
  {
    forall m ensures PoliciesOf(grown, m) == [] <==> forall p :: !AsksAfter(w.cache, table, indexed, m, p) {
      NoneAsked(PoliciesOf(grown, m));
    }
  }

  lemma OneValueIsAfter(c: Context, w: World, table: PolicyTable, grown: PolicyTable, indexed: set<int>, g: int,
                        field: string, v: string)
    requires GrownTo(w.cache, table, grown, indexed) && c.user.Some?
    ensures FamilyHasOneValueGroup(c, w, grown, g, field, v) <==> OneValueAfter(c, w, table, indexed, g, field, v)
  {
    forall m ensures OneValueEnough(grown, c.user.value, m, field, v) <==>
      forall q :: AsksAfter(w.cache, table, indexed, m, q) ==> q.itemField == field && AclValue(q, c.user.value, v) {}
  }

  lemma SafeIsSafeAfter(c: Context, w: World, table: PolicyTable, grown: PolicyTable, indexed: set<int>,
                        sentinelFree: bool)
    requires GrownTo(w.cache, table, grown, indexed)
    ensures ConfigurationSafe(c, w, grown, sentinelFree) <==> SafeAfter(c, w, table, indexed, sentinelFree)
  {
    if c.user.Some? {
      FreeIsFreeAfter(c, w, table, grown, indexed, ANONYMOUS_ID);
      forall g, p ensures FamilyPolicy(c, w, grown, g, p) <==> FamilyAsksAfter(c, w, table, indexed, g, p) {}
      forall g, f, v ensures FamilyHasOneValueGroup(c, w, grown, g, f, v) <==>
        OneValueAfter(c, w, table, indexed, g, f, v)
      {
        OneValueIsAfter(c, w, table, grown, indexed, g, f, v);
      }
    }
  }

  /** The filter after a run of indexings, exactly, in terms of the table as it was loaded. */
  lemma SoundAfterRunIff(c: Context, w: World, table: PolicyTable, run: seq<Indexing>, sentinelFree: bool)
    requires c.user.Some? && c.user.value.id != NOBODY
    requires Transitive(w.cache) && RunOf(w.cache, run)
    ensures FilterSound(c, w, AfterRun(table, run), sentinelFree) <==>
      SafeAfter(c, w, table, GroupsOf(run), sentinelFree)
  {
    RunGrows(w.cache, table, run);
    FilterSoundIff(c, w, AfterRun(table, run), sentinelFree);
    SafeIsSafeAfter(c, w, table, AfterRun(table, run), GroupsOf(run), sentinelFree);
  }

  // ---------- soundness after every run

  /** The more has been indexed, the less is safe; groups without a list do not matter. */
  lemma SafeAfterFewer(c: Context, w: World, table: PolicyTable, fewer: set<int>, more: set<int>, sentinelFree: bool)
    requires fewer * table.Keys <= more && SafeAfter(c, w, table, more, sentinelFree)
    ensures SafeAfter(c, w, table, fewer, sentinelFree)
  {
    forall h, p | AsksAfter(w.cache, table, fewer, h, p) ensures AsksAfter(w.cache, table, more, h, p) {
      if p !in PoliciesOf(table, h) { assert h in fewer * table.Keys; }
    }
    forall g, p, v | InGroup(c, w, g) && g != NOBODY && FamilyAsksAfter(c, w, table, fewer, g, p)
        && CriteriaValue(p, c.user.value, v) && (sentinelFree ==> v != NO_VALUE)
      ensures OneValueAfter(c, w, table, fewer, g, p.itemField, v)
    {
      assert FamilyAsksAfter(c, w, table, more, g, p);
      assert OneValueAfter(c, w, table, more, g, p.itemField, v);
    }
  }

  lemma {:induction false} Ordered(s: set<int>) returns (list: seq<int>)
    ensures forall x :: x in list <==> x in s
    decreases |s|
  {
    if s == {} { return []; }
    var x := SomeElement(s);
    var rest := Ordered(s - {x});
    list := rest + [x];
    forall y ensures y in list <==> y in s { assert y in list <==> (y in rest || y == x); }
  }

  lemma SomeIndexing(cache: set<Edge>, g: int) returns (step: Indexing)
    ensures step.group == g && ReadFrom(cache, step)
  {
    var below := set r | r in cache && r.0 == g :: r.1;
    var members := Ordered(below);
    step := Indexing(g, members);
    forall m ensures m in members <==> (g, m) in cache {
      if (g, m) in cache { assert (g, m).1 in below; }
    }
  }

  /** Any groups can be indexed, one after the other. */
  lemma {:induction false} SomeRun(cache: set<Edge>, groups: set<int>) returns (run: seq<Indexing>)
    ensures RunOf(cache, run) && GroupsOf(run) == groups
    decreases |groups|
  {
    if groups == {} { return []; }
    var g := SomeElement(groups);
    var rest := SomeRun(cache, groups - {g});
    var step := SomeIndexing(cache, g);
    run := rest + [step];
    GroupsOfMore(rest, step);
  }

  ghost predicate SoundAfterEveryRun(c: Context, w: World, table: PolicyTable, sentinelFree: bool) {
    forall run: seq<Indexing> | RunOf(w.cache, run) :: FilterSound(c, w, AfterRun(table, run), sentinelFree)
  }

  /** The filter stays sound whatever is indexed if and only if it is sound
      with every configured group asking for all policies of its family. */
  lemma SoundAfterEveryRunIff(c: Context, w: World, table: PolicyTable, sentinelFree: bool)
    requires c.user.Some? && c.user.value.id != NOBODY && Transitive(w.cache)
    ensures SoundAfterEveryRun(c, w, table, sentinelFree) <==> SafeAfter(c, w, table, table.Keys, sentinelFree)
  {
    if SafeAfter(c, w, table, table.Keys, sentinelFree) {
      forall run: seq<Indexing> | RunOf(w.cache, run) ensures FilterSound(c, w, AfterRun(table, run), sentinelFree) {
        SafeAfterFewer(c, w, table, GroupsOf(run), table.Keys, sentinelFree);
        SoundAfterRunIff(c, w, table, run, sentinelFree);
      }
    }
    if SoundAfterEveryRun(c, w, table, sentinelFree) {
      var run := SomeRun(w.cache, table.Keys);
      SoundAfterRunIff(c, w, table, run, sentinelFree);
    }
  }

  /** No configured group has a subgroup with policies. */
  ghost predicate Flat(cache: set<Edge>, table: PolicyTable) {
    forall h, m | h in table && (h, m) in cache :: PoliciesOf(table, m) == []
  }

  /** At most one policy for each group, none for Anonymous, and no configured
      group above another: sound for every user, whatever is indexed. */
  lemma FlatStaysSound(c: Context, w: World, table: PolicyTable)
    requires c.user.Some? && c.user.value.id != NOBODY && Transitive(w.cache)
    requires (forall m :: |PoliciesOf(table, m)| <= 1) && PoliciesOf(table, ANONYMOUS_ID) == []
    requires Flat(w.cache, table)
    ensures SoundAfterEveryRun(c, w, table, true)
  {
    OnePolicyPerGroupIsSound(c, w, table);
    FilterSoundIff(c, w, table, true);
    forall h, p ensures AsksAfter(w.cache, table, table.Keys, h, p) <==> AsksAfter(w.cache, table, {}, h, p) {}
    assert GrownTo(w.cache, table, table, table.Keys);
    SafeIsSafeAfter(c, w, table, table, table.Keys, true);
    SoundAfterEveryRunIff(c, w, table, true);
  }

  // ---------- where it does not stay sound

  const First := ExactMatch("f", "a", Whole)
  const Second := ExactMatch("g", "b", Whole)
  const Loaded: PolicyTable := map[5 := [First], 6 := [Second]]
  const NestedWorld := World({(5, 9)}, {(5, 6)})

  /** One policy in each of two groups, one inside the other: sound as loaded,
      and not any more once an item the outer group may read has been indexed. */
  lemma IndexingBreaksSoundness()
    ensures FilterSound(ReaderContext, NestedWorld, Loaded, true)
    ensures !FilterSound(ReaderContext, NestedWorld, Grown(Loaded, 5, [6]), true)
  {
    var c, w, grown := ReaderContext, NestedWorld, Grown(Loaded, 5, [6]);
    OnePolicyPerGroupIsSound(c, w, Loaded);
    assert Appended(Loaded, 5, [6], 0) == [First];
    assert Appended(Loaded, 5, [6], 1) == [First, Second];
    assert PoliciesOf(grown, 5) == [First, Second];
    assert First in PoliciesOf(grown, 5) && Second in PoliciesOf(grown, 5);
    assert InFamily(w, 5, 5) && Qualifies(c, w, 5);
    InGroupIffFamily(c, w, 5);
    assert FamilyPolicy(c, w, grown, 5, First);
    assert "x" in ValuesOf(Reader.metadata, "a") && First.extract("x") == Some("x");
    XIsNotBlank();
    assert CriteriaValue(First, Reader, "x");
    FilterSoundIff(c, w, grown, true);
    assert "x" != NO_VALUE;
    assert forall m :: InFamily(w, 5, m) && Qualifies(c, w, m) ==> m == 5;
    assert !OneValueEnough(grown, Reader, 5, "f", "x");
    assert !FamilyHasOneValueGroup(c, w, grown, 5, First.itemField, "x");
  }
}
