/** The parts of Plex's metadata that the modelled code reads or writes. */
module Models {
  import opened Prelude
  import opened Text

  type I64 = x: int | -0x8000_0000_0000_0000 <= x <= 0x7FFF_FFFF_FFFF_FFFF

  datatype Media = Media(
    id: I64,
    videoResolution: Option<string>,
    width: Option<I64>,
    height: Option<I64>,
    bitrate: Option<I64>,
    parts: seq<I64>)

  /** An item, a hub or a directory: the source uses one struct for all of them. */
  datatype MetaData = MetaData(
    kind: string,
    title: string,
    key: Option<string>,
    size: Option<int>,
    context: Option<string>,
    hubIdentifier: Option<string>,
    leafCount: Option<int>,
    viewCount: Option<int>,
    viewedLeafCount: Option<int>,
    media: seq<Media>,
    metadata: seq<MetaData>,
    directory: seq<MetaData>,
    video: seq<MetaData>)
  {
    predicate IsHub() {
      hubIdentifier.Some?
    }

    predicate IsCollectionHub() {
      IsHub() && context.Some? && StartsWith(context.value, "hub.custom.collection")
    }

    predicate IsWatched() {
      || (leafCount.None? && viewCount.Some? && viewCount.value > 0)
      || (viewedLeafCount.Some? && leafCount.GetOr(0) == viewedLeafCount.value)
    }

    /** The first child list that is not empty. */
    function Children(): seq<MetaData> {
      if metadata != [] then metadata else if directory != [] then directory else video
    }

    /** Overwrites the first child list that is not empty; with three empty lists
        only the size changes and `value` is lost. */
    function SetChildren(value: seq<MetaData>): MetaData {
      var resized := this.(size := Some(Min(|value|, 0x7FFF_FFFF)));
      if metadata != [] then resized.(metadata := value)
      else if directory != [] then resized.(directory := value)
      else if video != [] then resized.(video := value)
      else resized
    }
  }

  /** A film or an episode is watched once it has been viewed, a show when as many episodes have been as it
      has; a show that does not say how many it has counts as having none. */
  lemma WatchedExactly(item: MetaData)
    ensures item.IsWatched() <==>
              || (item.leafCount.None? && exists n :: item.viewCount == Some(n) && n > 0)
              || (exists n ::
                    item.viewedLeafCount == Some(n) && (item.leafCount == Some(n) || (item.leafCount.None? && n == 0)))
  {
    if item.leafCount.None? && item.viewCount.Some? && item.viewCount.value > 0 {
      assert item.viewCount == Some(item.viewCount.value);
    }
    if item.viewedLeafCount.Some? && item.leafCount.GetOr(0) == item.viewedLeafCount.value {
      assert item.viewedLeafCount == Some(item.viewedLeafCount.value);
    }
  }

  /** A hub of a collection has an identifier and the context of one. */
  lemma CollectionHubExactly(item: MetaData)
    ensures item.IsCollectionHub() <==>
              && item.hubIdentifier.Some?
              && exists rest :: item.context == Some("hub.custom.collection" + rest)
  {
    var prefix := "hub.custom.collection";
    if item.context.Some? && prefix <= item.context.value {
      assert item.context.value == prefix + item.context.value[|prefix|..];
    }
  }

  /** The children are the first list that is not empty, of items, directories and videos in this order,
      and it is this one that is overwritten; the size counts what was to be stored, up to the i32 maximum. */
  lemma ChildrenExactly(item: MetaData, value: seq<MetaData>)
    ensures var r := item.SetChildren(value);
            var resized := item.(size := Some(if |value| <= 0x7FFF_FFFF then |value| else 0x7FFF_FFFF));
            && (item.metadata != [] ==> item.Children() == item.metadata && r == resized.(metadata := value))
            && (item.metadata == [] && item.directory != [] ==>
                  item.Children() == item.directory && r == resized.(directory := value))
            && (item.metadata == item.directory == [] ==> item.Children() == item.video)
            && (item.metadata == item.directory == [] && item.video != [] ==> r == resized.(video := value))
            && (item.metadata == item.directory == item.video == [] ==> r == resized)
  {
  }

  /** A non-empty list is read back exactly when there was a non-empty list to overwrite. */
  lemma SetChildrenStores(item: MetaData, value: seq<MetaData>)
    requires value != []
    ensures item.SetChildren(value).Children() == value <==> item.Children() != []
    ensures item.Children() == [] ==> item.SetChildren(value).Children() == []
  {
  }

  datatype MediaContainer = MediaContainer(
    size: Option<int>,
    totalSize: Option<int>,
    metadata: seq<MetaData>,
    hub: seq<MetaData>,
    video: seq<MetaData>,
    directory: seq<MetaData>)
}
