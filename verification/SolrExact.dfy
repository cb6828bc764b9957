/** When an update gets the index right, from whatever index it starts. */
module SolrExact {
  import opened Prelude
  import opened SolrIndex

  // ---------- an incremental update

  predicate Commits(visits: seq<Visit>) {
    exists i | 0 <= i < |visits| :: visits[i].AutoCommit?
  }

  predicate IsVisitOf(v: Visit, id: int) {
    v.VisitItem? && v.id == id
  }

  /** Up to the first commit queries see what was visible, and then what was live. */
  function SeenAfter(ix: Index, visits: seq<Visit>): Docs {
    if Commits(visits) then ix.live else ix.visible
  }

  /** Some visit of the item finds, by the documents there were at the start,
      that it has to be indexed. */
  predicate Refreshed(item: Item, id: int, ix: Index, visits: seq<Visit>) {
    exists i | 0 <= i < |visits| ::
      IsVisitOf(visits[i], id) && RequiresIndexing(SeenAfter(ix, visits[..i]), item.handle, item.lastModified)
  }

  lemma CommitsLast(visits: seq<Visit>)
    requires visits != []
    ensures Commits(visits) <==> (Commits(visits[..|visits| - 1]) || visits[|visits| - 1].AutoCommit?)
  {
    var init := visits[..|visits| - 1];
    if i :| 0 <= i < |visits| && visits[i].AutoCommit? && i < |init| { assert init[i] == visits[i]; }
    if i :| 0 <= i < |init| && init[i].AutoCommit? { assert visits[i] == init[i]; }
  }

  lemma RefreshedLast(item: Item, id: int, ix: Index, visits: seq<Visit>)
    requires visits != []
    ensures var init := visits[..|visits| - 1];
      Refreshed(item, id, ix, visits) <==>
        (Refreshed(item, id, ix, init)
         || (IsVisitOf(visits[|visits| - 1], id)
              && RequiresIndexing(SeenAfter(ix, init), item.handle, item.lastModified)))
  {
    var init := visits[..|visits| - 1];
    forall i | 0 <= i < |init| ensures init[..i] == visits[..i] && init[i] == visits[i] {}
    if Refreshed(item, id, ix, init) {
      var i :| 0 <= i < |init| && IsVisitOf(init[i], id)
        && RequiresIndexing(SeenAfter(ix, init[..i]), item.handle, item.lastModified);
      assert IsVisitOf(visits[i], id);
    }
    if Refreshed(item, id, ix, visits) {
      var i :| 0 <= i < |visits| && IsVisitOf(visits[i], id)
        && RequiresIndexing(SeenAfter(ix, visits[..i]), item.handle, item.lastModified);
      if i < |init| { assert IsVisitOf(init[i], id); }
    }
  }

  predicate SameDoc(k: Key, a: Docs, b: Docs) {
    (k in a <==> k in b) && (k in a ==> a[k] == b[k])
  }

  lemma {:induction false} StaysOwned(items: map<int, Item>, containers: map<Key, Container>, ix: Index,
                                      visits: seq<Visit>, force: bool)
    requires Distinct(items, containers) && Owned(items, ix.live)
    ensures var after := VisitAll(items, ix, visits, force);
      && Owned(items, after.live)
      && if Commits(visits) then Owned(items, after.visible) else after.visible == ix.visible
    decreases |visits|
  {
    if visits != [] {
      var init, last := visits[..|visits| - 1], visits[|visits| - 1];
      StaysOwned(items, containers, ix, init, force);
      CommitsLast(visits);
      if last.VisitItem? && last.id in items {
        IndexItemOwned(items, containers, VisitAll(items, ix, init, force), last.id, force, last.now);
      }
    }
  }

  /** Owned documents agree on what has to be indexed where they hold the same document. */
  lemma SameDocSameNeed(a: Docs, b: Docs, id: int, item: Item)
    requires Owns(a, id, item) && Owns(b, id, item) && SameDoc(ItemKey(id), a, b)
    ensures RequiresIndexing(a, item.handle, item.lastModified) <==> RequiresIndexing(b, item.handle, item.lastModified)
  {
    OwnedMatching(a, id, item);
    OwnedMatching(b, id, item);
  }

  /** A refreshed item's document is the item's; an item that is not refreshed
      keeps the document it had. */
  lemma {:induction false} ItemAfter(items: map<int, Item>, containers: map<Key, Container>, ix: Index,
                                     visits: seq<Visit>, id: int)
    requires Distinct(items, containers) && Owned(items, ix.live) && id in items && Indexable(items[id])
    ensures var after := VisitAll(items, ix, visits, false);
      if Refreshed(items[id], id, ix, visits) then ShowsItem(after.live, id, items[id])
      else (SameDoc(ItemKey(id), ix.live, after.live)
            && (Commits(visits) ==> SameDoc(ItemKey(id), ix.live, after.visible)))
    decreases |visits|
  {
    if visits != [] {
      var init, last := visits[..|visits| - 1], visits[|visits| - 1];
      var ix1 := VisitAll(items, ix, init, false);
      ItemAfter(items, containers, ix, init, id);
      CommitsLast(visits);
      RefreshedLast(items[id], id, ix, visits);
      StaysOwned(items, containers, ix, init, false);
      if last.VisitItem? && last.id in items {
        IndexItemEffect(items, ix1, last.id, false, last.now);
        if last.id == id && !Refreshed(items[id], id, ix, init) && Commits(init) {
          SameDocSameNeed(ix.live, ix1.visible, id, items[id]);
        }
      }
    }
  }

  /** Nothing but the visited items' documents changes, and those not to be indexed are gone. */
  lemma {:induction false} OthersAfter(items: map<int, Item>, containers: map<Key, Container>, ix: Index,
                                       visits: seq<Visit>, force: bool, k: Key)
    requires Distinct(items, containers) && Owned(items, ix.live)
    ensures var after := VisitAll(items, ix, visits, force).live;
      var visited := k.kind == ItemKind && k.id in items && Visits(visits, k.id);
      && (!visited ==> SameDoc(k, ix.live, after))
      && (visited && !Indexable(items[k.id]) ==> k !in after)
    decreases |visits|
  {
    if visits != [] {
      var init, last := visits[..|visits| - 1], visits[|visits| - 1];
      OthersAfter(items, containers, ix, init, force, k);
      StaysOwned(items, containers, ix, init, force);
      VisitsLast(visits, k.id);
      if last.VisitItem? && last.id in items {
        IndexItemEffect(items, VisitAll(items, ix, init, force), last.id, force, last.now);
      }
    }
  }

  /** Without the freshness half of soundness, whatever the order of the visits
      and whatever is committed in between: an incremental update gets the
      documents right if and only if each item to be indexed has the right
      document already or looks out of date at one of its visits. */
  lemma UpdateIsRightIff(items: map<int, Item>, containers: map<Key, Container>, ix: Index, visits: seq<Visit>)
    requires Distinct(items, containers) && Owned(items, ix.live) && Covers(items, visits)
    ensures Reflects(items, visits, ix.live, VisitAll(items, ix, visits, false).live) <==>
      forall id | id in items && Indexable(items[id]) ::
        ShowsItem(ix.live, id, items[id]) || Refreshed(items[id], id, ix, visits)
  {
    var after := VisitAll(items, ix, visits, false).live;
    forall id | id in items && Indexable(items[id])
      ensures ShowsItem(after, id, items[id]) <==>
        (ShowsItem(ix.live, id, items[id]) || Refreshed(items[id], id, ix, visits))
    {
      ItemAfter(items, containers, ix, visits, id);
    }
    forall k: Key { OthersAfter(items, containers, ix, visits, false, k); }
    forall id | id in items && !Indexable(items[id]) ensures ItemKey(id) !in after {
      OthersAfter(items, containers, ix, visits, false, ItemKey(id));
    }
  }

  /** A change within the very millisecond of the last indexing is missed. */
  lemma EqualStampIsMissed() returns (items: map<int, Item>, ix: Index)
    ensures Distinct(items, map[]) && Owned(items, ix.live) && ix.visible == ix.live
    ensures 7 in items && Indexable(items[7]) && ItemKey(7) in ix.live
      && ix.live[ItemKey(7)].lastIndexed == items[7].lastModified
    ensures !ShowsItem(UpdateIndex(items, map[], ix, [VisitItem(7, 101)], [], false).visible, 7, items[7])
    ensures ShowsItem(UpdateIndex(items, map[], ix, [VisitItem(7, 101)], [], true).visible, 7, items[7])
  {
    var docs: Docs := map[ItemKey(7) := Doc(Some("1/7"), 100, "old")];
    items, ix := map[7 := Item(Some("1/7"), true, false, 100, "new")], Index(docs, docs);
    OwnedMatching(docs, 7, items[7]);
    assert [VisitItem(7, 101)][..0] == [];
    IndexItemEffect(items, ix, 7, true, 101);
  }

  // ---------- a forced update

  predicate InRepository(items: map<int, Item>, containers: map<Key, Container>, k: Key) {
    k in containers || (k.kind == ItemKind && k.id in items)
  }

  /** The documents there should be. */
  predicate Wanted(items: map<int, Item>, containers: map<Key, Container>, k: Key) {
    k in containers || (k.kind == ItemKind && k.id in items && Indexable(items[k.id]))
  }

  /** The document is found by the handle of some item that is indexed: it goes when the item is. */
  predicate FoundByItem(items: map<int, Item>, visits: seq<Visit>, handle: Option<string>) {
    exists id | id in items :: Indexable(items[id]) && Visits(visits, id) && handle == Some(Queried(items[id].handle))
  }

  /** A forced update gets every visited item right, from any index at all. */
  lemma {:induction false} ForcedItem(items: map<int, Item>, containers: map<Key, Container>, ix: Index,
                                      visits: seq<Visit>, id: int)
    requires Distinct(items, containers) && id in items && Visits(visits, id)
    ensures var after := VisitAll(items, ix, visits, true).live;
      if Indexable(items[id]) then ShowsItem(after, id, items[id]) else ItemKey(id) !in after
    decreases |visits|
  {
    VisitsLast(visits, id);
    if Visits(visits[..|visits| - 1], id) { ForcedItem(items, containers, ix, visits[..|visits| - 1], id); }
  }

  lemma FoundByLast(items: map<int, Item>, visits: seq<Visit>, handle: Option<string>)
    requires visits != []
    ensures var last := visits[|visits| - 1];
      FoundByItem(items, visits, handle) <==>
        (FoundByItem(items, visits[..|visits| - 1], handle)
         || (last.VisitItem? && last.id in items && Indexable(items[last.id])
              && handle == Some(Queried(items[last.id].handle))))
  {
    forall id: int { VisitsLast(visits, id); }
  }

  /** What is no item's document stays, unchanged, unless an item's handle finds it. */
  lemma {:induction false} StrayAfter(items: map<int, Item>, ix: Index, visits: seq<Visit>, k: Key)
    requires !(k.kind == ItemKind && k.id in items)
    ensures var after := VisitAll(items, ix, visits, true).live;
      && (k in after <==> (k in ix.live && !FoundByItem(items, visits, ix.live[k].handle)))
      && (k in after ==> after[k] == ix.live[k])
    decreases |visits|
  {
    if visits != [] {
      StrayAfter(items, ix, visits[..|visits| - 1], k);
      if k in ix.live { FoundByLast(items, visits, ix.live[k].handle); }
    }
  }

  predicate Ordered(order: seq<(Key, int)>, k: Key) {
    exists i | 0 <= i < |order| :: order[i].0 == k
  }

  lemma {:induction false} ContainerKeys(containers: map<Key, Container>, ix: Index, order: seq<(Key, int)>, k: Key)
    ensures var after := IndexContainers(containers, ix, order).live;
      && (k in after <==> (k in ix.live || (k in containers && Ordered(order, k))))
      && (k !in containers ==> SameDoc(k, ix.live, after))
    decreases |order|
  {
    if order != [] {
      var init := order[..|order| - 1];
      ContainerKeys(containers, ix, init, k);
      if i :| 0 <= i < |order| && order[i].0 == k && i < |init| { assert init[i].0 == k; }
      if i :| 0 <= i < |init| && init[i].0 == k { assert order[i].0 == k; }
    }
  }

  /** `createIndex` is a forced update and wipes nothing.  From any index it
      leaves exactly the documents there should be if and only if each document
      there was belongs to the repository or is found by the handle of an item. */
  lemma CreateIndexIsExactIff(items: map<int, Item>, containers: map<Key, Container>, ix: Index,
                              visits: seq<Visit>, order: seq<(Key, int)>)
    requires Distinct(items, containers) && Covers(items, visits) && forall k | k in containers :: Ordered(order, k)
    ensures var after := UpdateIndex(items, containers, ix, visits, order, true).visible;
      (forall k :: k in after <==> Wanted(items, containers, k)) <==>
      (forall k | k in ix.live :: InRepository(items, containers, k) || FoundByItem(items, visits, ix.live[k].handle))
  {
    var after := UpdateIndex(items, containers, ix, visits, order, true).visible;
    forall k
      ensures k in after <==>
        (Wanted(items, containers, k)
         || (k in ix.live && !InRepository(items, containers, k) && !FoundByItem(items, visits, ix.live[k].handle)))
    {
      KeyAfter(items, containers, ix, visits, order, k);
    }
  }

  lemma KeyAfter(items: map<int, Item>, containers: map<Key, Container>, ix: Index,
                 visits: seq<Visit>, order: seq<(Key, int)>, k: Key)
    requires Distinct(items, containers) && Covers(items, visits) && forall c | c in containers :: Ordered(order, c)
    ensures k in UpdateIndex(items, containers, ix, visits, order, true).visible <==>
      (Wanted(items, containers, k)
       || (k in ix.live && !InRepository(items, containers, k) && !FoundByItem(items, visits, ix.live[k].handle)))
  {
    ContainerKeys(containers, VisitAll(items, ix, visits, true), order, k);
    if k.kind == ItemKind && k.id in items {
      ForcedItem(items, containers, ix, visits, k.id);
      assert k == ItemKey(k.id);
    } else {
      StrayAfter(items, ix, visits, k);
    }
  }

  /** From a sound index, where only its own item's handle finds a document:
      exactly the documents there should be, if and only if there is no stray. */
  lemma CreateIndexOfSound(items: map<int, Item>, containers: map<Key, Container>, ix: Index,
                           visits: seq<Visit>, order: seq<(Key, int)>)
    requires Sound(items, containers, ix) && Covers(items, visits) && forall k | k in containers :: Ordered(order, k)
    ensures var after := UpdateIndex(items, containers, ix, visits, order, true).visible;
      (forall k :: k in after <==> Wanted(items, containers, k)) <==>
        forall k | k in ix.live :: InRepository(items, containers, k)
  {
    CreateIndexIsExactIff(items, containers, ix, visits, order);
    forall k | k in ix.live && FoundByItem(items, visits, ix.live[k].handle)
      ensures InRepository(items, containers, k)
    {
      var id :| id in items && Indexable(items[id]) && Visits(visits, id)
        && ix.live[k].handle == Some(Queried(items[id].handle));
      assert Owns(ix.live, id, items[id]);
    }
  }

  /** An item is indexed and leaves the repository: its document outlives the rebuilding. */
  lemma StrayStays()
    ensures var docs: Docs := map[ItemKey(7) := Doc(Some("1/7"), 100, "text")];
      Sound(map[], map[], Index(docs, docs))
        && ItemKey(7) in UpdateIndex(map[], map[], Index(docs, docs), [], [], true).visible
  {
    var docs: Docs := map[ItemKey(7) := Doc(Some("1/7"), 100, "text")];
    KeyAfter(map[], map[], Index(docs, docs), [], [], ItemKey(7));
  }
}
