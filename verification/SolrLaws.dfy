/** What is in the index, said of the fields of the item. */
module SolrLaws {
  import opened Prelude
  import opened SolrIndex
  import opened SolrRuns

  /** Queries for the item's handle find a document, and none indexed before
      the item was last changed. */
  ghost predicate FoundFresh(seen: Docs, item: Item) {
    var word := if item.handle.Some? then item.handle.value else "null";
    && (exists k | k in seen :: seen[k].handle == Some(word))
    && (forall k | k in seen && seen[k].handle == Some(word) :: seen[k].lastIndexed >= item.lastModified)
  }

  /** One visit of an item: without it there is no document for an item that
      is neither archived nor withdrawn; for any other the one document of its
      handle is the item's, unless a fresh one was found. */
  lemma VisitIff(ix: Index, id: int, item: Item, force: bool, now: int)
    ensures var after := IndexItem(ix, id, item, force, now);
      var word := if item.handle.Some? then item.handle.value else "null";
      && after.visible == ix.visible
      && (!item.archived && !item.withdrawn ==> after.live == ix.live - {Key(ItemKind, id)})
      && ((item.archived || item.withdrawn) && !force && FoundFresh(ix.visible, item) ==> after.live == ix.live)
      && ((item.archived || item.withdrawn) && (force || !FoundFresh(ix.visible, item)) ==>
            && Key(ItemKind, id) in after.live
            && after.live[Key(ItemKind, id)] == Doc(item.handle, now, item.content)
            && forall k: Key | k != Key(ItemKind, id) ::
                 && (k in after.live <==> (k in ix.live && ix.live[k].handle != Some(word)))
                 && (k in after.live ==> after.live[k] == ix.live[k]))
  {
    var found := Matching(ix.visible, Queried(item.handle));
    if found != {} {
      var k := SomeElement(found);
      assert k in ix.visible && ix.visible[k].handle == Some(Queried(item.handle));
    }
    if AnyOlder(ix.visible, found, item.lastModified) {
      var k :| k in found && k in ix.visible && ix.visible[k].lastIndexed < item.lastModified;
      assert !FoundFresh(ix.visible, item);
    }
    if k :| k in ix.visible && ix.visible[k].handle == Some(Queried(item.handle)) { assert k in found; }
  }

  /** After any history and any update that comes to every item: an item has a
      document if and only if it is archived or withdrawn, which says what the
      item says now, and no other document has its handle. */
  lemma ShownIff(events: seq<Event>, visits: seq<Visit>, order: seq<(Key, int)>, force: bool, id: int)
    requires AllAllowed(events) && id in Run(events).items
    requires forall other | other in Run(events).items ::
      exists i | 0 <= i < |visits| :: visits[i].VisitItem? && visits[i].id == other
    ensures var w := Run(events);
      var item, docs := w.items[id], UpdateIndex(w.items, w.containers, w.index, visits, order, force).visible;
      && (Key(ItemKind, id) in docs <==> item.archived || item.withdrawn)
      && (Key(ItemKind, id) in docs ==>
            docs[Key(ItemKind, id)].handle == item.handle && docs[Key(ItemKind, id)].content == item.content)
      && ((item.archived || item.withdrawn) && item.handle.Some? ==>
            forall k | k in docs && docs[k].handle == item.handle :: k == Key(ItemKind, id))
  {
    RunIsSound(events);
    forall other | other in Run(events).items ensures Visits(visits, other) {}
    UpdateIsRight(Run(events), visits, order, force);
  }

  /** A withdrawn item is indexed as an archived one is, and an item still in
      the workspace is taken out. */
  lemma WithdrawnIsShown(content: string)
    ensures var withdrawn := Item(Some("1/7"), false, true, 100, content);
      UpdateIndex(map[7 := withdrawn], map[], Index(map[], map[]), [VisitItem(7, 101)], [], true).visible
      == map[Key(ItemKind, 7) := Doc(Some("1/7"), 101, content)]
    ensures var unfinished := Item(Some("1/7"), false, false, 100, content);
      UpdateIndex(map[7 := unfinished], map[], Index(map[], map[Key(ItemKind, 7) := Doc(Some("1/7"), 99, content)]),
                  [VisitItem(7, 101)], [], false).visible
      == map[]
  {
    var visits := [VisitItem(7, 101)];
    assert visits[..0] == [];
    var withdrawn := Item(Some("1/7"), false, true, 100, content);
    var ix := Index(map[], map[]);
    assert VisitAll(map[7 := withdrawn], ix, visits[..0], true) == ix;
    assert VisitAll(map[7 := withdrawn], ix, visits, true) == IndexItem(ix, 7, withdrawn, true, 101);
    var unfinished := Item(Some("1/7"), false, false, 100, content);
    var stale := Index(map[], map[Key(ItemKind, 7) := Doc(Some("1/7"), 99, content)]);
    assert VisitAll(map[7 := unfinished], stale, visits[..0], false) == stale;
    assert VisitAll(map[7 := unfinished], stale, visits, false) == IndexItem(stale, 7, unfinished, false, 101);
  }

  /** What the repository does leaves the index alone, and an update the repository. */
  lemma RepositoryStepIs(w: World, id: int, item: Item, k: Key, c: Container, visits: seq<Visit>,
                         order: seq<(Key, int)>, force: bool)
    ensures Step(w, PutItem(id, item)) == World(w.items[id := item], w.containers, w.index)
    ensures Step(w, DropItem(id)) == World(w.items - {id}, w.containers, w.index)
    ensures Step(w, PutContainer(k, c)) == World(w.items, w.containers[k := c], w.index)
    ensures Step(w, DropContainer(k)) == World(w.items, w.containers - {k}, w.index)
    ensures Step(w, Update(visits, order, force))
         == World(w.items, w.containers, UpdateIndex(w.items, w.containers, w.index, visits, order, force))
  {
  }

  /** What the single operations of a history do to the documents. */
  lemma StepIs(w: World, id: int, force: bool, now: int, k: Key, handle: Option<string>)
    ensures id in w.items ==>
      Step(w, IndexOne(id, force, now)) == w.(index := IndexItem(w.index, id, w.items[id], force, now))
    ensures id !in w.items ==> Step(w, IndexOne(id, force, now)) == w
    ensures k in w.containers ==>
      Step(w, IndexContainerNow(k, now)).index.live
      == w.index.live[k := Doc(w.containers[k].handle, now, w.containers[k].content)]
    ensures Step(w, UnIndex(k)).index == Index(w.index.visible, w.index.live - {k})
    ensures Step(w, CommitNow).index == Index(w.index.live, w.index.live)
    ensures forall key ::
      key in Step(w, UnIndexHandle(handle)).index.live <==>
        key in w.index.live && w.index.live[key].handle != Some(if handle.Some? then handle.value else "null")
  {
    var order := [(k, now)];
    assert order[..|order| - 1] == [];
    assert IndexContainers(w.containers, w.index, order[..|order| - 1]) == w.index;
  }

  // ---------- what a history may hold

  /** Indexing, committing, updating and dropping are allowed at any time, and so
      is deleting the document of what is gone. */
  lemma AllowedAnyTime(w: World, id: int, k: Key, handle: Option<string>, force: bool, now: int, visits: seq<Visit>,
                       order: seq<(Key, int)>)
    ensures Allowed(w, IndexOne(id, force, now)) && Allowed(w, IndexContainerNow(k, now)) && Allowed(w, CommitNow)
    ensures Allowed(w, Update(visits, order, force)) && Allowed(w, DropItem(id)) && Allowed(w, DropContainer(k))
    ensures Allowed(w, UnIndex(k)) <==> k.kind != ItemKind || k.id !in w.items
    ensures Allowed(w, UnIndexHandle(handle)) <==>
      forall key | key in w.index.live && key.kind == ItemKind && key.id in w.items ::
        w.index.live[key].handle != Some(if handle.Some? then handle.value else "null")
  {
  }

  /** An item may be changed with a later stamp, archived, withdrawn and brought
      back, as long as it keeps its handle. */
  lemma ChangeAllowed(w: World, id: int, item: Item)
    requires SoundWorld(w) && id in w.items && (w.items[id].archived || w.items[id].withdrawn)
    requires item.handle == w.items[id].handle
    requires forall k | k in w.index.visible :: w.index.visible[k].lastIndexed < item.lastModified
    requires forall k | k in w.index.live :: w.index.live[k].lastIndexed < item.lastModified
    ensures Allowed(w, PutItem(id, item))
  {
  }

  /** A new item may come with a handle that nothing has. */
  lemma NewItemAllowed(w: World, id: int, item: Item, handle: string)
    requires SoundWorld(w) && id !in w.items && item.handle == Some(handle) && handle != "null"
    requires forall other | other in w.items :: w.items[other].handle != Some(handle)
    requires forall k | k in w.containers :: w.containers[k].handle != Some(handle)
    requires forall k | k in w.index.live :: w.index.live[k].handle != Some(handle)
    requires forall k | k in w.index.visible :: w.index.visible[k].lastIndexed < item.lastModified
    requires forall k | k in w.index.live :: w.index.live[k].lastIndexed < item.lastModified
    ensures Allowed(w, PutItem(id, item))
  {
  }
}
