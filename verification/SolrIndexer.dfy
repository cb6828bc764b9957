/** The service that writes the index. */
module SolrIndexer {
  import opened Prelude
  import opened SolrIndex

  lemma OneMore(docs: Docs, keys: set<Key>, k: Key, stamp: int)
    requires k in docs
    ensures AnyOlder(docs, keys + {k}, stamp) <==> (AnyOlder(docs, keys, stamp) || docs[k].lastIndexed < stamp)
  {
    if docs[k].lastIndexed < stamp { assert k in keys + {k}; }
  }

  class SearchService {
    var visible: Docs
    var live: Docs

    ghost function State(): Index
      reads this
    {
      Index(visible, live)
    }

    constructor ()
      ensures State() == Index(map[], map[])
    {
      visible, live := map[], map[];
    }

    /** `requiresIndexing`: looks at every document the handle finds. */
    method NeedsIndexing(handle: Option<string>, lastModified: int) returns (needed: bool)
      ensures needed == RequiresIndexing(visible, handle, lastModified)
    {
      var reindexItem, inIndex := false, false;
      var results := Matching(visible, Queried(handle));
      var rest := results;
      ghost var seen: set<Key> := {};
      while rest != {}
        invariant seen + rest == results
        invariant inIndex <==> seen != {}
        invariant reindexItem <==> AnyOlder(visible, seen, lastModified)
        decreases |rest|
      {
        var k := Choose(rest);
        inIndex := true;
        if visible[k].lastIndexed < lastModified { reindexItem := true; }
        OneMore(visible, seen, k, lastModified);
        rest, seen := rest - {k}, seen + {k};
      }
      assert seen == results;
      needed := reindexItem || !inIndex;
    }

    method UnIndexHandle(handle: Option<string>)
      modifies `live
      ensures live == old(live) - Matching(old(live), Queried(handle))
    {
      live := live - Matching(live, Queried(handle));
    }

    method UnIndexContent(k: Key)
      modifies `live
      ensures live == old(live) - {k}
    {
      live := live - {k};
    }

    /** `buildDocument`, and its write. */
    method BuildDocument(k: Key, handle: Option<string>, content: string, now: int)
      modifies `live
      ensures live == old(live)[k := Doc(handle, now, content)]
    {
      live := live[k := Doc(handle, now, content)];
    }

    method IndexItemContent(id: int, item: Item, force: bool, now: int)
      modifies `live
      ensures State() == IndexItem(old(State()), id, item, force, now)
    {
      if item.archived || item.withdrawn {
        var needed := NeedsIndexing(item.handle, item.lastModified);
        if needed || force {
          UnIndexHandle(item.handle);
          BuildDocument(ItemKey(id), item.handle, item.content, now);
        }
      } else {
        UnIndexContent(ItemKey(id));
      }
    }

    method CommitIndex()
      modifies `visible
      ensures State() == Commit(old(State()))
    {
      visible := live;
    }

    /** `updateIndex`: the items in the order they are visited, then the
        collections and communities, then a commit. */
    method Update(items: map<int, Item>, containers: map<Key, Container>, visits: seq<Visit>, order: seq<(Key, int)>,
                  force: bool)
      modifies this
      ensures State() == UpdateIndex(items, containers, old(State()), visits, order, force)
    {
      var i := 0;
      while i < |visits|
        invariant 0 <= i <= |visits|
        invariant State() == VisitAll(items, old(State()), visits[..i], force)
      {
        assert visits[..i + 1][..i] == visits[..i];
        match visits[i] {
          case VisitItem(id, now) => if id in items { IndexItemContent(id, items[id], force, now); }
          case AutoCommit => CommitIndex();
        }
        i := i + 1;
      }
      assert visits[..i] == visits;
      ghost var ix := State();
      i := 0;
      while i < |order|
        invariant 0 <= i <= |order|
        invariant State() == IndexContainers(containers, ix, order[..i])
      {
        assert order[..i + 1][..i] == order[..i];
        var (k, now) := order[i];
        if k in containers { BuildDocument(k, containers[k].handle, containers[k].content, now); }
        i := i + 1;
      }
      assert order[..i] == order;
      CommitIndex();
    }
  }
}
