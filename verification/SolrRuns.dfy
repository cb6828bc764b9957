/** The repository and its index over time. */
module SolrRuns {
  import opened Prelude
  import opened SolrIndex

  datatype World = World(items: map<int, Item>, containers: map<Key, Container>, index: Index)

  const Empty := World(map[], map[], Index(map[], map[]))

  datatype Event =
    | PutItem(id: int, item: Item)            // created, or changed
    | DropItem(id: int)
    | PutContainer(key: Key, container: Container)
    | DropContainer(key: Key)
    | IndexOne(id: int, force: bool, now: int)
    | IndexContainerNow(key: Key, now: int)
    | UnIndex(key: Key)
    | UnIndexHandle(handle: Option<string>)
    | CommitNow
    | Update(visits: seq<Visit>, order: seq<(Key, int)>, force: bool)

  ghost function Step(w: World, e: Event): World {
    match e
    case PutItem(id, item) => w.(items := w.items[id := item])
    case DropItem(id) => w.(items := w.items - {id})
    case PutContainer(k, c) => w.(containers := w.containers[k := c])
    case DropContainer(k) => w.(containers := w.containers - {k})
    case IndexOne(id, force, now) => w.(index := VisitOne(w.items, w.index, VisitItem(id, now), force))
    case IndexContainerNow(k, now) => w.(index := IndexContainers(w.containers, w.index, [(k, now)]))
    case UnIndex(k) => w.(index := w.index.(live := w.index.live - {k}))
    case UnIndexHandle(handle) =>
      w.(index := w.index.(live := w.index.live - Matching(w.index.live, Queried(handle))))
    case CommitNow => w.(index := Commit(w.index))
    case Update(visits, order, force) => w.(index := UpdateIndex(w.items, w.containers, w.index, visits, order, force))
  }

  ghost predicate LaterThanAll(docs: Docs, stamp: int) {
    forall k | k in docs :: docs[k].lastIndexed < stamp
  }

  /** What the repository promises: handles are not shared nor used again, a
      change is stamped later than anything was indexed, and only documents of
      objects that are gone are deleted by their id or handle. */
  ghost predicate Allowed(w: World, e: Event) {
    match e
    case PutItem(id, item) =>
      && Distinct(w.items[id := item], w.containers)
      && (Indexable(item) ==> Owns(w.index.live, id, item))
      && ((id in w.items && w.items[id] == item)
          || (LaterThanAll(w.index.visible, item.lastModified) && LaterThanAll(w.index.live, item.lastModified)))
    case PutContainer(k, c) => Distinct(w.items, w.containers[k := c])
    case UnIndex(k) => !(k.kind == ItemKind && k.id in w.items)
    case UnIndexHandle(handle) =>
      forall k | k in Matching(w.index.live, Queried(handle)) :: !(k.kind == ItemKind && k.id in w.items)
    case _ => true
  }

  ghost function Run(events: seq<Event>): World {
    if events == [] then Empty else Step(Run(events[..|events| - 1]), events[|events| - 1])
  }

  ghost predicate AllAllowed(events: seq<Event>) {
    forall i | 0 <= i < |events| :: Allowed(Run(events[..i]), events[i])
  }

  ghost predicate SoundWorld(w: World) {
    Sound(w.items, w.containers, w.index)
  }

  lemma PutKeepsSound(w: World, id: int, item: Item)
    requires SoundWorld(w) && Allowed(w, PutItem(id, item))
    ensures SoundWorld(Step(w, PutItem(id, item)))
  {
    var items := w.items[id := item];
    forall seen: Docs | (seen == w.index.visible || seen == w.index.live) ensures Current(items, seen, w.index.live) {
      assert Current(w.items, seen, w.index.live);
      if LaterThanAll(seen, item.lastModified) {
        var found := Matching(seen, Queried(item.handle));
        if found != {} {
          var k := SomeElement(found);
          assert seen[k].lastIndexed < item.lastModified;
        }
        assert RequiresIndexing(seen, item.handle, item.lastModified);
      }
    }
  }

  lemma {:induction false} ContainersKeepSound(w: World, order: seq<(Key, int)>)
    requires SoundWorld(w)
    ensures Sound(w.items, w.containers, IndexContainers(w.containers, w.index, order))
    decreases |order|
  {
    if order != [] {
      var init := order[..|order| - 1];
      ContainersKeepSound(w, init);
      var ix1 := IndexContainers(w.containers, w.index, init);
      var after := IndexContainers(w.containers, w.index, order);
      OwnedCurrent(w.items, ix1.live, after.live);
    }
  }

  lemma StepKeepsSound(w: World, e: Event)
    requires SoundWorld(w) && Allowed(w, e)
    ensures SoundWorld(Step(w, e))
  {
    match e
    case PutItem(id, item) => PutKeepsSound(w, id, item);
    case IndexOne(id, force, now) => VisitKeepsSound(w.items, w.containers, w.index, VisitItem(id, now), force);
    case IndexContainerNow(k, now) => ContainersKeepSound(w, [(k, now)]);
    case UnIndex(k) =>
      var after := w.index.live - {k};
      assert Owned(w.items, after);
      OwnedCurrent(w.items, w.index.live, after);
    case UnIndexHandle(handle) =>
      var after := w.index.live - Matching(w.index.live, Queried(handle));
      assert Owned(w.items, after);
      OwnedCurrent(w.items, w.index.live, after);
    case Update(visits, order, force) =>
      VisitsReflect(w.items, w.containers, w.index, visits, force);
      ContainersKeepSound(w.(index := VisitAll(w.items, w.index, visits, force)), order);
    case _ =>
  }

  lemma {:induction false} RunIsSound(events: seq<Event>)
    requires AllAllowed(events)
    ensures SoundWorld(Run(events))
    decreases |events|
  {
    if events != [] {
      var init := events[..|events| - 1];
      forall i | 0 <= i < |init| ensures Allowed(Run(init[..i]), init[i]) {
        assert init[..i] == events[..i];
      }
      RunIsSound(init);
      StepKeepsSound(Run(init), events[|events| - 1]);
    }
  }

  lemma {:induction false} ContainersKeepItem(items: map<int, Item>, containers: map<Key, Container>, ix: Index,
                                              order: seq<(Key, int)>, id: int)
    requires Distinct(items, containers) && id in items
    requires if Indexable(items[id]) then ShowsItem(ix.live, id, items[id]) else ItemKey(id) !in ix.live
    ensures var after := IndexContainers(containers, ix, order).live;
      if Indexable(items[id]) then ShowsItem(after, id, items[id]) else ItemKey(id) !in after
    decreases |order|
  {
    if order != [] { ContainersKeepItem(items, containers, ix, order[..|order| - 1], id); }
  }

  /** One document for each item that is to be indexed, saying what the item
      says and found by its handle alone, and none for any other item. */
  ghost predicate Right(items: map<int, Item>, docs: Docs) {
    && (forall id | id in items ::
          if Indexable(items[id]) then ShowsItem(docs, id, items[id]) else ItemKey(id) !in docs)
    && Owned(items, docs)
  }

  lemma UpdateIsRight(w: World, visits: seq<Visit>, order: seq<(Key, int)>, force: bool)
    requires SoundWorld(w) && Covers(w.items, visits)
    ensures Right(w.items, UpdateIndex(w.items, w.containers, w.index, visits, order, force).visible)
  {
    VisitsReflect(w.items, w.containers, w.index, visits, force);
    var ix := VisitAll(w.items, w.index, visits, force);
    ContainersKeepSound(w.(index := ix), order);
    forall id | id in w.items
      ensures var after := IndexContainers(w.containers, ix, order).live;
        if Indexable(w.items[id]) then ShowsItem(after, id, w.items[id]) else ItemKey(id) !in after
    {
      ContainersKeepItem(w.items, w.containers, ix, order, id);
    }
  }

  /** After any history, an incremental update in any order gets every item
      right, and leaves the documents a forced update would leave. */
  lemma UpdateAfterAnyHistory(events: seq<Event>, visits: seq<Visit>, forced: seq<Visit>, order: seq<(Key, int)>)
    requires AllAllowed(events)
    requires Covers(Run(events).items, visits) && Covers(Run(events).items, forced)
    ensures var w := Run(events);
      var updated := UpdateIndex(w.items, w.containers, w.index, visits, order, false).visible;
      && Right(w.items, updated)
      && SameEntries(updated, UpdateIndex(w.items, w.containers, w.index, forced, order, true).visible)
  {
    var w := Run(events);
    RunIsSound(events);
    IncrementalEqualsFull(w.items, w.containers, w.index, visits, forced, order);
    UpdateIsRight(w, visits, order, false);
  }
}
