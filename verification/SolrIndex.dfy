/** The discovery index beside the repository it describes: which documents
    an incremental update leaves, and when that is what a forced one leaves. */
module SolrIndex {
  import opened Prelude

  datatype Kind = ItemKind | CollectionKind | CommunityKind

  /** The unique id of a document: the type and the id of its object. */
  datatype Key = Key(kind: Kind, id: int)

  datatype Item = Item(handle: Option<string>, archived: bool, withdrawn: bool, lastModified: int, content: string)

  datatype Container = Container(handle: Option<string>, content: string)

  datatype Doc = Doc(handle: Option<string>, lastIndexed: int, content: string)

  type Docs = map<Key, Doc>

  /** Queries see what has been committed; writes go to the live documents. */
  datatype Index = Index(visible: Docs, live: Docs)

  function ItemKey(id: int): Key { Key(ItemKind, id) }

  predicate Indexable(item: Item) { item.archived || item.withdrawn }

  // ---------- single operations

  /** A missing handle is queried for by the word "null". */
  function Queried(handle: Option<string>): string {
    match handle case None => "null" case Some(text) => text
  }

  function Matching(docs: Docs, text: string): set<Key> {
    set k | k in docs && docs[k].handle == Some(text)
  }

  predicate AnyOlder(docs: Docs, keys: set<Key>, stamp: int) {
    exists k | k in keys :: k in docs && docs[k].lastIndexed < stamp
  }

  predicate RequiresIndexing(visible: Docs, handle: Option<string>, lastModified: int) {
    var found := Matching(visible, Queried(handle));
    found == {} || AnyOlder(visible, found, lastModified)
  }

  function IndexItem(ix: Index, id: int, item: Item, force: bool, now: int): Index {
    if Indexable(item) then
      if force || RequiresIndexing(ix.visible, item.handle, item.lastModified) then
        var kept := ix.live - Matching(ix.live, Queried(item.handle));
        ix.(live := kept[ItemKey(id) := Doc(item.handle, now, item.content)])
      else ix
    else ix.(live := ix.live - {ItemKey(id)})
  }

  function IndexContainer(ix: Index, k: Key, c: Container, now: int): Index {
    ix.(live := ix.live[k := Doc(c.handle, now, c.content)])
  }

  function Commit(ix: Index): Index {
    ix.(visible := ix.live)
  }

  // ---------- updating the whole index

  /** Items are visited in the order the threads get to them, and the server
      may commit at any time. */
  datatype Visit = VisitItem(id: int, now: int) | AutoCommit

  function VisitOne(items: map<int, Item>, ix: Index, v: Visit, force: bool): Index {
    match v
    case VisitItem(id, now) => if id in items then IndexItem(ix, id, items[id], force, now) else ix
    case AutoCommit => Commit(ix)
  }

  function VisitAll(items: map<int, Item>, ix: Index, visits: seq<Visit>, force: bool): Index {
    if visits == [] then ix
    else VisitOne(items, VisitAll(items, ix, visits[..|visits| - 1], force), visits[|visits| - 1], force)
  }

  predicate Visits(visits: seq<Visit>, id: int) {
    exists i | 0 <= i < |visits| :: visits[i].VisitItem? && visits[i].id == id
  }

  /** The containers that follow, each with the time it is indexed at. */
  function IndexContainers(containers: map<Key, Container>, ix: Index, order: seq<(Key, int)>): Index {
    if order == [] then ix
    else
      var ix1, last := IndexContainers(containers, ix, order[..|order| - 1]), order[|order| - 1];
      if last.0 in containers then IndexContainer(ix1, last.0, containers[last.0], last.1) else ix1
  }

  function UpdateIndex(items: map<int, Item>, containers: map<Key, Container>, ix: Index,
                       visits: seq<Visit>, order: seq<(Key, int)>, force: bool): Index {
    Commit(IndexContainers(containers, VisitAll(items, ix, visits, force), order))
  }

  // ---------- what holds between the repository and the index

  /** What a document says, apart from when it was indexed. */
  datatype Entry = Entry(handle: Option<string>, content: string)

  function EntryOf(d: Doc): Entry { Entry(d.handle, d.content) }

  predicate Shows(docs: Docs, k: Key, e: Entry) {
    k in docs && EntryOf(docs[k]) == e
  }

  predicate ShowsItem(docs: Docs, id: int, item: Item) {
    Shows(docs, ItemKey(id), Entry(item.handle, item.content))
  }

  /** Handles are not shared: one item's, queried for, finds that item only. */
  ghost predicate Distinct(items: map<int, Item>, containers: map<Key, Container>) {
    && (forall i, j | i in items && j in items && Indexable(items[i]) && Indexable(items[j]) && i != j ::
          items[i].handle != Some(Queried(items[j].handle)))
    && (forall k, j | k in containers && j in items && Indexable(items[j]) ::
          containers[k].handle != Some(Queried(items[j].handle)))
    && (forall k | k in containers :: k.kind != ItemKind)
  }

  ghost predicate Owns(docs: Docs, id: int, item: Item) {
    forall k | k in docs && docs[k].handle == Some(Queried(item.handle)) :: k == ItemKey(id)
  }

  ghost predicate Owned(items: map<int, Item>, docs: Docs) {
    forall id | id in items && Indexable(items[id]) :: Owns(docs, id, items[id])
  }

  /** What looks up to date in `seen` is up to date in `docs`. */
  ghost predicate Current(items: map<int, Item>, seen: Docs, docs: Docs) {
    forall id | id in items && Indexable(items[id]) ::
      RequiresIndexing(seen, items[id].handle, items[id].lastModified) || ShowsItem(docs, id, items[id])
  }

  ghost predicate Sound(items: map<int, Item>, containers: map<Key, Container>, ix: Index) {
    && Distinct(items, containers) && Owned(items, ix.live)
    && Current(items, ix.visible, ix.live) && Current(items, ix.live, ix.live)
  }

  lemma OwnedMatching(docs: Docs, id: int, item: Item)
    requires Owns(docs, id, item)
    ensures Matching(docs, Queried(item.handle)) <= {ItemKey(id)}
    ensures RequiresIndexing(docs, item.handle, item.lastModified) <==>
      !(ItemKey(id) in docs && docs[ItemKey(id)].handle == Some(Queried(item.handle))
        && docs[ItemKey(id)].lastIndexed >= item.lastModified)
  {
    var found := Matching(docs, Queried(item.handle));
    if ItemKey(id) in found { assert found == {ItemKey(id)}; } else { assert found == {}; }
  }

  /** One visit: the visited item's document becomes the item's, and no other changes. */
  lemma IndexItemEffect(items: map<int, Item>, ix: Index, id: int, force: bool, now: int)
    requires id in items && (Indexable(items[id]) ==> Owns(ix.live, id, items[id]))
    ensures var after := IndexItem(ix, id, items[id], force, now).live;
      && (forall k | k != ItemKey(id) :: (k in after <==> k in ix.live) && (k in after ==> after[k] == ix.live[k]))
      && (!Indexable(items[id]) ==> ItemKey(id) !in after)
      && (Indexable(items[id]) && (force || RequiresIndexing(ix.visible, items[id].handle, items[id].lastModified))
          ==> ShowsItem(after, id, items[id]))
  {
    if Indexable(items[id]) { OwnedMatching(ix.live, id, items[id]); }
  }

  lemma IndexItemOwned(items: map<int, Item>, containers: map<Key, Container>, ix: Index, id: int, force: bool,
                       now: int)
    requires id in items && Distinct(items, containers) && Owned(items, ix.live)
    ensures Owned(items, IndexItem(ix, id, items[id], force, now).live)
  {
    IndexItemEffect(items, ix, id, force, now);
  }

  lemma IndexItemCurrent(items: map<int, Item>, ix: Index, seen: Docs, id: int, force: bool, now: int)
    requires id in items && Owned(items, ix.live)
    requires Current(items, ix.visible, ix.live) && Current(items, seen, ix.live)
    ensures Current(items, seen, IndexItem(ix, id, items[id], force, now).live)
  {
    IndexItemEffect(items, ix, id, force, now);
  }

  lemma OwnedCurrent(items: map<int, Item>, before: Docs, after: Docs)
    requires Owned(items, before) && Owned(items, after) && Current(items, before, before)
    requires forall id | id in items && Indexable(items[id]) ::
      ShowsItem(after, id, items[id])
        || (ItemKey(id) in after ==> ItemKey(id) in before && after[ItemKey(id)] == before[ItemKey(id)])
    ensures Current(items, after, after)
  {
    forall id | id in items && Indexable(items[id])
      ensures RequiresIndexing(after, items[id].handle, items[id].lastModified) || ShowsItem(after, id, items[id])
    {
      OwnedMatching(before, id, items[id]);
      OwnedMatching(after, id, items[id]);
    }
  }

  lemma VisitKeepsSound(items: map<int, Item>, containers: map<Key, Container>, ix: Index, v: Visit, force: bool)
    requires Sound(items, containers, ix)
    ensures Sound(items, containers, VisitOne(items, ix, v, force))
  {
    if v.VisitItem? && v.id in items {
      IndexItemEffect(items, ix, v.id, force, v.now);
      IndexItemOwned(items, containers, ix, v.id, force, v.now);
      IndexItemCurrent(items, ix, ix.visible, v.id, force, v.now);
      IndexItemCurrent(items, ix, ix.live, v.id, force, v.now);
      OwnedCurrent(items, ix.live, VisitOne(items, ix, v, force).live);
    }
  }

  // ---------- updates

  /** The documents of the visited items are the items', or gone if they are
      not to be indexed; all others say what they said. */
  ghost predicate Reflects(items: map<int, Item>, visits: seq<Visit>, before: Docs, after: Docs) {
    && (forall id | id in items && Visits(visits, id) ::
          if Indexable(items[id]) then ShowsItem(after, id, items[id]) else ItemKey(id) !in after)
    && (forall k: Key | !(k.kind == ItemKind && k.id in items && Visits(visits, k.id)) ::
          (k in after <==> k in before) && (k in before ==> EntryOf(after[k]) == EntryOf(before[k])))
  }

  lemma VisitsLast(visits: seq<Visit>, id: int)
    requires visits != []
    ensures var last := visits[|visits| - 1];
      Visits(visits, id) <==> (Visits(visits[..|visits| - 1], id) || (last.VisitItem? && last.id == id))
  {
    var init := visits[..|visits| - 1];
    if Visits(visits, id) {
      var i :| 0 <= i < |visits| && visits[i].VisitItem? && visits[i].id == id;
      if i < |init| { assert init[i] == visits[i]; }
    }
    if Visits(init, id) {
      var i :| 0 <= i < |init| && init[i].VisitItem? && init[i].id == id;
      assert visits[i] == init[i];
    }
  }

  /** Whatever the order of the visits, and whatever is committed in between. */
  lemma {:induction false} VisitsReflect(items: map<int, Item>, containers: map<Key, Container>, ix: Index,
                                         visits: seq<Visit>, force: bool)
    requires Sound(items, containers, ix)
    ensures Sound(items, containers, VisitAll(items, ix, visits, force))
    ensures Reflects(items, visits, ix.live, VisitAll(items, ix, visits, force).live)
    decreases |visits|
  {
    if visits != [] {
      var init, last := visits[..|visits| - 1], visits[|visits| - 1];
      var ix1 := VisitAll(items, ix, init, force);
      VisitsReflect(items, containers, ix, init, force);
      VisitKeepsSound(items, containers, ix1, last, force);
      forall id: int { VisitsLast(visits, id); }
      if last.VisitItem? && last.id in items { IndexItemEffect(items, ix1, last.id, force, last.now); }
    }
  }

  ghost predicate Covers(items: map<int, Item>, visits: seq<Visit>) {
    forall id | id in items :: Visits(visits, id)
  }

  ghost predicate SameEntries(a: Docs, b: Docs) {
    forall k :: (k in a <==> k in b) && (k in a ==> EntryOf(a[k]) == EntryOf(b[k]))
  }

  lemma {:induction false} ContainersSame(containers: map<Key, Container>, a: Index, b: Index, order: seq<(Key, int)>)
    requires SameEntries(a.live, b.live)
    ensures SameEntries(IndexContainers(containers, a, order).live, IndexContainers(containers, b, order).live)
    decreases |order|
  {
    if order != [] { ContainersSame(containers, a, b, order[..|order| - 1]); }
  }

  /** Incremental equals full: from a sound state, however the items are
      visited and whenever the server commits, an update leaves the documents
      a forced update leaves, up to the time they were indexed. */
  lemma IncrementalEqualsFull(items: map<int, Item>, containers: map<Key, Container>, ix: Index,
                              visits: seq<Visit>, forced: seq<Visit>, order: seq<(Key, int)>)
    requires Sound(items, containers, ix) && Covers(items, visits) && Covers(items, forced)
    ensures SameEntries(UpdateIndex(items, containers, ix, visits, order, false).visible,
                        UpdateIndex(items, containers, ix, forced, order, true).visible)
  {
    VisitsReflect(items, containers, ix, visits, false);
    VisitsReflect(items, containers, ix, forced, true);
    ContainersSame(containers, VisitAll(items, ix, visits, false), VisitAll(items, ix, forced, true), order);
  }
}
