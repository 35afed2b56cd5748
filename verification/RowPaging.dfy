/** Rebuilding a merged row from the ids in its key (src/transform/library_interleave.rs). */
module RowPaging {
  import opened Prelude
  import opened Models
  import opened Interleaving
  import opened RowKeys
  import opened RowMerge
  import opened RowProperties
  import A = ApplyTransforms

  /** What Plex and the configuration say about one collection. */
  datatype Collection = Inaccessible | Page(children: MediaContainer, excludeWatched: bool)

  function Unwatched(): MetaData -> bool {
    (item: MetaData) => !item.IsWatched()
  }

  /** The items a collection contributes: `retain` on the exposed list, then whatever list is exposed. */
  function Listed(c: Collection): seq<MetaData>
    requires c.Page?
  {
    var page := c.children;
    A.Children(if c.excludeWatched then A.WithChildren(page, Filter(Unwatched(), A.Children(page))) else page)
  }

  lemma {:induction false} FilterIsSubsequence(keep: MetaData -> bool, items: seq<MetaData>)
    ensures Subsequence(Filter(keep, items), items)
  {
    if items != [] {
      var rest := Filter(keep, items[1..]);
      FilterIsSubsequence(keep, items[1..]);
      assert ([items[0]] + rest)[1..] == rest && [] + rest == rest;
    }
  }

  lemma {:induction false} FilterCounts(keep: MetaData -> bool, items: seq<MetaData>, x: MetaData)
    ensures multiset(Filter(keep, items))[x] == if keep(x) then multiset(items)[x] else 0
  {
    if items != [] {
      FilterCounts(keep, items[1..], x);
      assert items == [items[0]] + items[1..];
    }
  }

  /** A collection in one list contributes its items in order, without the watched ones when these are
      excluded. */
  lemma ListedExactly(page: MediaContainer, excludeWatched: bool)
    requires A.TotalChildren(page) == |A.Children(page)|
    ensures Subsequence(Listed(Page(page, excludeWatched)), A.Children(page))
    ensures forall x :: multiset(Listed(Page(page, excludeWatched)))[x] ==
              if excludeWatched && x.IsWatched() then 0 else multiset(A.Children(page))[x]
  {
    SubsequenceReflexive(A.Children(page));
    FilterIsSubsequence(Unwatched(), A.Children(page));
    forall x ensures multiset(Filter(Unwatched(), A.Children(page)))[x] ==
                       if x.IsWatched() then 0 else multiset(A.Children(page))[x]
    {
      FilterCounts(Unwatched(), A.Children(page), x);
    }
  }

  /** The lists of the collections that can be read, in order. */
  function Pages(ids: seq<nat>, fetch: nat -> Collection): seq<seq<MetaData>> {
    if ids == [] then []
    else (if fetch(ids[0]).Page? then [Listed(fetch(ids[0]))] else []) + Pages(ids[1..], fetch)
  }

  /** `as i32`. */
  function WrapI32(n: int): int {
    (n + 0x8000_0000) % 0x1_0000_0000 - 0x8000_0000
  }

  lemma WrapTwice(a: int, b: int)
    ensures WrapI32(WrapI32(a) + WrapI32(b)) == WrapI32(a + b)
  {
    var m := 0x1_0000_0000;
    var (p, q) := ((a + 0x8000_0000) / m, (b + 0x8000_0000) / m);
    assert WrapI32(a) == a - p * m && WrapI32(b) == b - q * m;
    ShiftOut(a + b + 0x8000_0000, p + q);
  }

  lemma ShiftOut(x: int, k: int)
    ensures (x - k * 0x1_0000_0000) % 0x1_0000_0000 == x % 0x1_0000_0000
  {
  }

  lemma {:induction false} PagesAppend(ids: seq<nat>, id: nat, fetch: nat -> Collection)
    ensures Pages(ids + [id], fetch) == Pages(ids, fetch) + if fetch(id).Page? then [Listed(fetch(id))] else []
  {
    if ids == [] {
      assert ids + [id] == [id] && [id][1..] == [];
    } else {
      assert (ids + [id])[1..] == ids[1..] + [id];
      PagesAppend(ids[1..], id, fetch);
    }
  }

  lemma NextPage(ids: seq<nat>, i: nat, fetch: nat -> Collection)
    requires i < |ids|
    ensures InterleaveAll([], Pages(ids[..i + 1], fetch)) ==
              var shown := InterleaveAll([], Pages(ids[..i], fetch));
              if fetch(ids[i]).Page? then Interleave(shown, Listed(fetch(ids[i]))) else shown
  {
    assert ids[..i + 1] == ids[..i] + [ids[i]];
    PagesAppend(ids[..i], ids[i], fetch);
    if fetch(ids[i]).Page? {
      InterleaveAllSnoc([], Pages(ids[..i], fetch), Listed(fetch(ids[i])));
    } else {
      assert Pages(ids[..i + 1], fetch) == Pages(ids[..i], fetch);
    }
  }

  /** The first collection that lists anything starts the row. */
  method ShowAlso(children: seq<MetaData>, listed: seq<MetaData>) returns (r: seq<MetaData>)
    ensures r == Interleave(children, listed)
  {
    if children != [] {
      r := Interleave(children, listed);
    } else {
      r := children + listed;
      assert r == Interleave([], listed);
    }
  }

  /** `LibraryInterleaveTransform::transform_mediacontainer`: collections that cannot be read are
      skipped, the others interleaved, and the total counts every item shown. */
  method InterleaveLibrary(c: MediaContainer, ids: seq<nat>, fetch: nat -> Collection, interleave: bool)
    returns (r: MediaContainer)
    ensures r == if !interleave then c else
                 var items := InterleaveAll([], Pages(ids, fetch));
                 c.(metadata := items, totalSize := Some(WrapI32(|items|)))
  {
    if !interleave {
      return c;
    }
    var children: seq<MetaData> := [];
    var totalSize := 0;
    for i := 0 to |ids|
      invariant children == InterleaveAll([], Pages(ids[..i], fetch))
      invariant totalSize == WrapI32(|children|)
    {
      NextPage(ids, i, fetch);
      var collection := fetch(ids[i]);
      if collection.Inaccessible? {
        continue;
      }
      var page := collection.children;
      if collection.excludeWatched {
        page := A.WithChildren(page, Filter(Unwatched(), A.Children(page)));
      }
      var listed := A.Children(page);
      WrapTwice(|children|, |listed|);
      totalSize := WrapI32(totalSize + WrapI32(|listed|));
      children := ShowAlso(children, listed);
    }
    assert ids[..|ids|] == ids;
    r := c.(totalSize := Some(totalSize), metadata := children);
  }

  /** Every collection shows in the row what it lists when asked for it. */
  ghost predicate Agree(hubs: seq<MetaData>, ids: seq<nat>, fetch: nat -> Collection) {
    |hubs| == |ids| && forall i | 0 <= i < |ids| :: fetch(ids[i]).Page? && Listed(fetch(ids[i])) == hubs[i].Children()
  }

  lemma {:induction false} PagesAreLists(hubs: seq<MetaData>, ids: seq<nat>, fetch: nat -> Collection)
    requires Agree(hubs, ids, fetch)
    ensures Pages(ids, fetch) == Lists(hubs)
  {
    if ids != [] {
      PagesAreLists(hubs[1..], ids[1..], fetch);
    }
  }

  ghost predicate NameIds(hubs: seq<MetaData>, ids: seq<nat>) {
    |hubs| == |ids| && forall i | 0 <= i < |ids| :: hubs[i].key.Some? && NamesCollection(hubs[i].key.value, ids[i])
  }

  /** The key of a merged row, prefixed and routed, gives back the collections' ids in order. */
  lemma MergedKeyNamesIds(row: MetaData, hubs: seq<MetaData>, ids: seq<nat>, style: Option<string>)
    requires hubs != [] && AllJoin(row, hubs) && NameIds([row] + hubs, ids) && AreU32(ids)
    requires style.Some? ==> style.value != "" && '/' !in style.value
    ensures FoldRow(row, hubs).key == Some(CollectionKey(PrintIds(ids)))
    requires row.IsHub()
    ensures var path := RouteIds(HubKeyed(FoldRow(row, hubs), style).key.value);
            path.Some? && ParseIds(path.value) == ids
  {
    FoldRowKeepsIdentity(row, hubs);
    assert ([row] + hubs)[0] == row;
    forall i | 0 <= i < |hubs| ensures NamesCollection(Keys(hubs)[i], ids[1..][i]) {
      assert ([row] + hubs)[i + 1] == hubs[i];
    }
    FoldPrintsIds(row.key.value, [ids[0]], Keys(hubs), ids[1..]);
    assert [ids[0]] + ids[1..] == ids;
    RouteFindsIds(ids, style);
  }

  /** Following a merged row rebuilds it: the page has the row's items in the row's order. It fails
      exactly when the row started with nothing to show while a later collection has items. */
  lemma PageRebuildsRow(row: MetaData, hubs: seq<MetaData>, ids: seq<nat>, fetch: nat -> Collection)
    requires AllJoin(row, hubs) && Agree([row] + hubs, ids, fetch)
    ensures InterleaveAll([], Pages(ids, fetch)) == FoldRow(row, hubs).Children()
       <==> (row.Children() == [] ==> forall h | h in hubs :: h.Children() == [])
  {
    PagesAreLists([row] + hubs, ids, fetch);
    assert ([row] + hubs)[1..] == hubs;
    assert Lists([row] + hubs) == [row.Children()] + Lists(hubs);
    assert ([row.Children()] + Lists(hubs))[1..] == Lists(hubs);
    assert InterleaveAll([], Lists([row] + hubs)) == InterleaveAll(row.Children(), Lists(hubs));
    FoldRowChildren(row, hubs);
    if row.Children() == [] {
      InterleaveAllMultiset([], Lists(hubs));
      ItemsOfLists(hubs);
      NoItems(hubs);
      var all := InterleaveAll([], Lists(hubs));
      assert multiset(all) == Items(hubs);
      assert all == [] <==> multiset(all) == multiset{};
    }
  }

  /** From the hubs of the home screen to the page behind a row, without loss. */
  lemma MergedRowIsRebuilt(row: MetaData, hubs: seq<MetaData>, ids: seq<nat>, fetch: nat -> Collection,
                           style: Option<string>)
    requires hubs != [] && AllJoin(row, hubs) && NameIds([row] + hubs, ids) && AreU32(ids)
    requires Agree([row] + hubs, ids, fetch) && row.Children() != []
    requires row.IsHub() && (style.Some? ==> style.value != "" && '/' !in style.value)
    ensures HubKeyed(FoldRow(row, hubs), style).key.Some?
    ensures var path := RouteIds(HubKeyed(FoldRow(row, hubs), style).key.value);
            path.Some? && InterleaveAll([], Pages(ParseIds(path.value), fetch)) == FoldRow(row, hubs).Children()
  {
    MergedKeyNamesIds(row, hubs, ids, style);
    PageRebuildsRow(row, hubs, ids, fetch);
  }
}
