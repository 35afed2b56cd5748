/** Filtering of metadata trees by account policy (src/transform/resolution_policy.rs). */
module PolicyTransform {
  import opened Prelude
  import opened Text
  import opened Models
  import opened ResolutionPolicies

  // ----- the recursive filter, as a function -----

  predicate IsPlayable(item: MetaData) {
    item.kind in ["movie", "episode", "clip", "track"]
  }

  predicate HasChildLists(item: MetaData) {
    item.metadata != [] || item.directory != [] || item.video != []
  }

  /** Whether a filtered child stays in its parent's list. */
  predicate Survives(child: MetaData) {
    var structural := child.media == [] && HasChildLists(child);
    !IsPlayable(child) || child.media != [] || structural
  }

  function Filtered(item: MetaData, policy: ResolutionPolicy): MetaData
    decreases item, 0
  {
    item.(media := Filter(AllowedBy(policy), item.media),
          metadata := Pruned(item.metadata, policy),
          directory := Pruned(item.directory, policy),
          video := Pruned(item.video, policy))
  }

  /** Every child filtered. */
  function FilteredAll(children: seq<MetaData>, policy: ResolutionPolicy): seq<MetaData>
    decreases children, 1
  {
    if children == [] then []
    else [Filtered(children[0], policy)] + FilteredAll(children[1..], policy)
  }

  /** Every child filtered, and those that have nothing left removed. */
  function Pruned(children: seq<MetaData>, policy: ResolutionPolicy): seq<MetaData>
    decreases children, 2
  {
    Filter(Survives, FilteredAll(children, policy))
  }

  lemma PrunedCons(children: seq<MetaData>, policy: ResolutionPolicy)
    requires children != []
    ensures var first := Filtered(children[0], policy);
            Pruned(children, policy) == (if Survives(first) then [first] else []) + Pruned(children[1..], policy)
  {
    assert FilteredAll(children, policy)[1..] == FilteredAll(children[1..], policy);
  }

  lemma {:induction false} FilteredAllPointwise(children: seq<MetaData>, policy: ResolutionPolicy)
    ensures |FilteredAll(children, policy)| == |children|
    ensures forall i | 0 <= i < |children| :: FilteredAll(children, policy)[i] == Filtered(children[i], policy)
  {
    if children != [] {
      FilteredAllPointwise(children[1..], policy);
    }
  }

  function Cleared(item: MetaData): MetaData
    decreases item, 0
  {
    item.(media := [],
          metadata := ClearedAll(item.metadata),
          directory := ClearedAll(item.directory),
          video := ClearedAll(item.video))
  }

  function ClearedAll(children: seq<MetaData>): (r: seq<MetaData>)
    ensures |r| == |children|
    ensures forall i | 0 <= i < |r| :: r[i] == Cleared(children[i])
    decreases children, 1
  {
    if children == [] then [] else [Cleared(children[0])] + ClearedAll(children[1..])
  }

  // ----- the source's loops -----

  method FilterMediaRecursive(item: MetaData, policy: ResolutionPolicy) returns (r: MetaData)
    ensures r == Filtered(item, policy)
    decreases item, 0
  {
    var media := RetainMedia(item.media, policy);
    var metadata := PruneChildren(item.metadata, policy);
    var directory := PruneChildren(item.directory, policy);
    var video := PruneChildren(item.video, policy);
    r := item.(media := media, metadata := metadata, directory := directory, video := video);
  }

  method RetainMedia(media: seq<Media>, policy: ResolutionPolicy) returns (kept: seq<Media>)
    ensures kept == Filter(AllowedBy(policy), media)
  {
    kept := [];
    for i := 0 to |media|
      invariant kept == Filter(AllowedBy(policy), media[..i])
    {
      if MediaAllowed(media[i], policy) {
        kept := kept + [media[i]];
      }
      assert media[..i + 1] == media[..i] + [media[i]];
      FilterConcat(AllowedBy(policy), media[..i], [media[i]]);
    }
    assert media[..|media|] == media;
  }

  method PruneChildren(children: seq<MetaData>, policy: ResolutionPolicy) returns (kept: seq<MetaData>)
    ensures kept == Pruned(children, policy)
    decreases children, 2
  {
    var current := FilterEach(children, policy);
    kept := [];
    for i := 0 to |current|
      invariant kept == Filter(Survives, current[..i])
    {
      if Survives(current[i]) {
        kept := kept + [current[i]];
      }
      assert current[..i + 1] == current[..i] + [current[i]];
      FilterConcat(Survives, current[..i], [current[i]]);
    }
    assert current[..|current|] == current;
  }

  /** The `iter_mut` half of `prune_children`. */
  method FilterEach(children: seq<MetaData>, policy: ResolutionPolicy) returns (current: seq<MetaData>)
    ensures current == FilteredAll(children, policy)
    decreases children, 1
  {
    current := children;
    for i := 0 to |children|
      invariant |current| == |children|
      invariant forall k | 0 <= k < i :: current[k] == Filtered(children[k], policy)
      invariant forall k | i <= k < |children| :: current[k] == children[k]
    {
      var child := FilterMediaRecursive(children[i], policy);
      current := current[i := child];
    }
    FilteredAllPointwise(children, policy);
  }

  method ClearMediaRecursive(item: MetaData) returns (r: MetaData)
    ensures r == Cleared(item)
    decreases item, 0
  {
    var metadata := ClearChildren(item.metadata);
    var directory := ClearChildren(item.directory);
    var video := ClearChildren(item.video);
    r := item.(media := [], metadata := metadata, directory := directory, video := video);
  }

  method ClearChildren(children: seq<MetaData>) returns (r: seq<MetaData>)
    ensures r == ClearedAll(children)
    decreases children, 1
  {
    r := children;
    for i := 0 to |children|
      invariant |r| == |children|
      invariant forall k | 0 <= k < i :: r[k] == Cleared(children[k])
      invariant forall k | i <= k < |children| :: r[k] == children[k]
    {
      var child := ClearMediaRecursive(children[i]);
      r := r[i := child];
    }
  }

  // ----- every version of a tree, in the order the source counts them -----

  function Versions(item: MetaData): seq<Media>
    decreases item, 0
  {
    item.media + VersionsAll(item.metadata) + VersionsAll(item.directory) + VersionsAll(item.video)
  }

  function VersionsAll(children: seq<MetaData>): seq<Media>
    decreases children, 1
  {
    if children == [] then [] else Versions(children[0]) + VersionsAll(children[1..])
  }

  /** Filtering a tree filters its versions: nothing permitted is lost with a pruned node,
      nothing prohibited survives, and the order stays. */
  lemma {:induction false} FilteredExact(item: MetaData, policy: ResolutionPolicy)
    ensures Versions(Filtered(item, policy)) == Filter(AllowedBy(policy), Versions(item))
    decreases item, 0
  {
    var keep := AllowedBy(policy);
    PrunedExact(item.metadata, policy);
    PrunedExact(item.directory, policy);
    PrunedExact(item.video, policy);
    FilterConcat(keep, item.media, VersionsAll(item.metadata));
    FilterConcat(keep, item.media + VersionsAll(item.metadata), VersionsAll(item.directory));
    FilterConcat(keep, item.media + VersionsAll(item.metadata) + VersionsAll(item.directory), VersionsAll(item.video));
  }

  lemma {:induction false} PrunedExact(children: seq<MetaData>, policy: ResolutionPolicy)
    ensures VersionsAll(Pruned(children, policy)) == Filter(AllowedBy(policy), VersionsAll(children))
    decreases children, 1
  {
    if children != [] {
      FilteredExact(children[0], policy);
      PrunedExact(children[1..], policy);
      FilterConcat(AllowedBy(policy), Versions(children[0]), VersionsAll(children[1..]));
      PrunedCons(children, policy);
      var first := Filtered(children[0], policy);
      var rest := Pruned(children[1..], policy);
      if Survives(first) {
        assert ([first] + rest)[1..] == rest;
      } else {
        assert Versions(first) == [] && [] + rest == rest;
      }
    }
  }

  function CountMedia(item: MetaData): nat
    decreases item, 0
  {
    |item.media| + CountAll(item.metadata) + CountAll(item.directory) + CountAll(item.video)
  }

  function CountAll(children: seq<MetaData>): nat
    decreases children, 1
  {
    if children == [] then 0 else CountMedia(children[0]) + CountAll(children[1..])
  }

  lemma {:induction false} CountIsLength(item: MetaData)
    ensures CountMedia(item) == |Versions(item)|
    decreases item, 0
  {
    CountAllIsLength(item.metadata);
    CountAllIsLength(item.directory);
    CountAllIsLength(item.video);
  }

  lemma {:induction false} CountAllIsLength(children: seq<MetaData>)
    ensures CountAll(children) == |VersionsAll(children)|
    decreases children, 1
  {
    if children != [] {
      CountIsLength(children[0]);
      CountAllIsLength(children[1..]);
    }
  }

  /** The before/after counts the source compares differ exactly when a prohibited version was removed. */
  lemma CountTellsRemoval(item: MetaData, policy: ResolutionPolicy)
    ensures CountMedia(Filtered(item, policy)) <= CountMedia(item)
    ensures CountMedia(Filtered(item, policy)) == CountMedia(item) <==>
            forall m | m in Versions(item) :: MediaAllowed(m, policy)
  {
    FilteredExact(item, policy);
    CountIsLength(item);
    CountIsLength(Filtered(item, policy));
    FilterLength(AllowedBy(policy), Versions(item));
  }

  lemma {:induction false} FilterLength<T>(keep: T -> bool, s: seq<T>)
    ensures |Filter(keep, s)| <= |s|
    ensures |Filter(keep, s)| == |s| <==> forall x | x in s :: keep(x)
  {
    if s != [] {
      FilterLength(keep, s[1..]);
      assert s == [s[0]] + s[1..];
    }
  }

  // ----- which nodes stay -----

  /** A child stays unless its kind is one to play, no version of it is permitted, and each of its child
      lists is empty once filtered. */
  function Stays(policy: ResolutionPolicy): MetaData -> bool {
    (c: MetaData) =>
      !(&& c.kind in {"movie", "episode", "clip", "track"}
        && (forall m | m in c.media :: !MediaAllowed(m, policy))
        && Filtered(c, policy).metadata == [] && Filtered(c, policy).directory == [] && Filtered(c, policy).video == [])
  }

  lemma NoneKept(media: seq<Media>, policy: ResolutionPolicy)
    ensures Filter(AllowedBy(policy), media) == [] <==> forall m | m in media :: !MediaAllowed(m, policy)
  {
    var kept := Filter(AllowedBy(policy), media);
    FilterKeeps(AllowedBy(policy), media);
    if kept != [] {
      assert kept[0] in kept;
    }
  }

  lemma SurvivesExactly(c: MetaData)
    ensures Survives(c) <==>
              !(c.kind in {"movie", "episode", "clip", "track"} && c.media == []
                && c.metadata == [] && c.directory == [] && c.video == [])
  {
  }

  lemma SurvivesIfStays(c: MetaData, policy: ResolutionPolicy)
    ensures Survives(Filtered(c, policy)) <==> Stays(policy)(c)
  {
    NoneKept(c.media, policy);
    SurvivesExactly(Filtered(c, policy));
  }

  lemma {:induction false} PrunedStays(children: seq<MetaData>, policy: ResolutionPolicy)
    ensures Pruned(children, policy) == FilteredAll(Filter(Stays(policy), children), policy)
  {
    if children != [] {
      var rest := Filter(Stays(policy), children[1..]);
      PrunedCons(children, policy);
      SurvivesIfStays(children[0], policy);
      PrunedStays(children[1..], policy);
      assert ([children[0]] + rest)[1..] == rest && [] + rest == rest;
    }
  }

  /** The filtered lists hold, in order, exactly the children that stay, each of them filtered; a show or
      a season, say, is never missing. */
  lemma FilteredKeepsNodes(item: MetaData, policy: ResolutionPolicy)
    ensures var r := Filtered(item, policy);
            && r.metadata == FilteredAll(Filter(Stays(policy), item.metadata), policy)
            && r.directory == FilteredAll(Filter(Stays(policy), item.directory), policy)
            && r.video == FilteredAll(Filter(Stays(policy), item.video), policy)
            && r == item.(media := r.media, metadata := r.metadata, directory := r.directory, video := r.video)
  {
    PrunedStays(item.metadata, policy);
    PrunedStays(item.directory, policy);
    PrunedStays(item.video, policy);
  }

  /** Below the root, a playable node without children has a version to play. */
  ghost predicate NoDeadLeaves(item: MetaData)
    decreases item, 0
  {
    LivingChildren(item.metadata) && LivingChildren(item.directory) && LivingChildren(item.video)
  }

  ghost predicate LivingChildren(children: seq<MetaData>)
    decreases children, 1
  {
    forall c | c in children ::
      && (c.kind in {"movie", "episode", "clip", "track"} && c.metadata == [] && c.directory == [] && c.video == [] ==>
            c.media != [])
      && NoDeadLeaves(c)
  }

  lemma {:induction false} FilteredHasNoDeadLeaves(item: MetaData, policy: ResolutionPolicy)
    ensures NoDeadLeaves(Filtered(item, policy))
    decreases item, 0
  {
    PrunedLives(item.metadata, policy);
    PrunedLives(item.directory, policy);
    PrunedLives(item.video, policy);
  }

  lemma {:induction false} PrunedLives(children: seq<MetaData>, policy: ResolutionPolicy)
    ensures LivingChildren(Pruned(children, policy))
    decreases children, 1
  {
    if children != [] {
      PrunedCons(children, policy);
      FilteredHasNoDeadLeaves(children[0], policy);
      PrunedLives(children[1..], policy);
    }
  }

  /** Filtering by one policy and then another gives the tree that the stricter one gives. */
  lemma {:induction false} FilteredCompose(item: MetaData, a: ResolutionPolicy, b: ResolutionPolicy)
    ensures Filtered(Filtered(item, a), b) == Filtered(item, Stricter(a, b))
    decreases item, 0
  {
    forall m ensures MediaAllowed(m, Stricter(a, b)) <==> MediaAllowed(m, a) && MediaAllowed(m, b) {
      AllowedByBoth(m, a, b);
    }
    FilterFilter(AllowedBy(a), AllowedBy(b), AllowedBy(Stricter(a, b)), item.media);
    PrunedCompose(item.metadata, a, b);
    PrunedCompose(item.directory, a, b);
    PrunedCompose(item.video, a, b);
  }

  lemma EmptyStaysEmpty(item: MetaData, policy: ResolutionPolicy)
    requires item.media == [] && !HasChildLists(item)
    ensures Filtered(item, policy) == item
  {
    assert FilteredAll([], policy) == [];
  }

  lemma {:induction false} PrunedCompose(children: seq<MetaData>, a: ResolutionPolicy, b: ResolutionPolicy)
    ensures Pruned(Pruned(children, a), b) == Pruned(children, Stricter(a, b))
    decreases children, 1
  {
    if children != [] {
      FilteredCompose(children[0], a, b);
      PrunedCompose(children[1..], a, b);
      PrunedCons(children, a);
      PrunedCons(children, Stricter(a, b));
      var first := Filtered(children[0], a);
      var rest := Pruned(children[1..], a);
      if Survives(first) {
        assert ([first] + rest)[1..] == rest;
        PrunedCons([first] + rest, b);
      } else {
        EmptyStaysEmpty(first, b);
        assert [] + rest == rest && !Survives(Filtered(first, b));
        assert [] + Pruned(children[1..], Stricter(a, b)) == Pruned(children[1..], Stricter(a, b));
      }
    }
  }

  lemma FilteredIdempotent(item: MetaData, policy: ResolutionPolicy)
    ensures Filtered(Filtered(item, policy), policy) == Filtered(item, policy)
  {
    FilteredCompose(item, policy, policy);
  }

  /** Failing closed leaves nothing to play anywhere. */
  lemma {:induction false} ClearedHasNoVersions(item: MetaData)
    ensures Versions(Cleared(item)) == []
    decreases item, 0
  {
    ClearedAllHaveNoVersions(item.metadata);
    ClearedAllHaveNoVersions(item.directory);
    ClearedAllHaveNoVersions(item.video);
  }

  lemma {:induction false} ClearedAllHaveNoVersions(children: seq<MetaData>)
    ensures VersionsAll(ClearedAll(children)) == []
    decreases children, 1
  {
    if children != [] {
      ClearedHasNoVersions(children[0]);
      ClearedAllHaveNoVersions(children[1..]);
      assert ClearedAll(children)[1..] == ClearedAll(children[1..]);
    }
  }

  // ----- the two transforms, item by item -----

  /** What the request knows about the account: a policy, or a failed lookup and how to fail. */
  datatype Access = Resolved(policy: ResolutionPolicy) | Failed(failClosed: bool)

  /** `ResolutionPolicyTransform::filter_metadata`. */
  predicate KeepItem(access: Access, item: MetaData) {
    match access
    case Failed(failClosed) => !(failClosed && item.media != [])
    case Resolved(policy) =>
      policy.IsUnrestricted() || item.media == [] || exists i | 0 <= i < |item.media| :: MediaAllowed(item.media[i], policy)
  }

  /** `ResolutionPolicyTransform::transform_metadata`. */
  function TransformItem(access: Access, item: MetaData): MetaData {
    match access
    case Failed(failClosed) => if failClosed then Cleared(item) else item
    case Resolved(policy) => if policy.IsUnrestricted() then item else Filtered(item, policy)
  }

  /** `CollectionVisibilityTransform::is_hidden`. */
  predicate IsHidden(item: MetaData, policy: ResolutionPolicy) {
    && (item.IsCollectionHub() || item.kind == "collection")
    && Trim(item.title) in policy.hiddenCollections
  }

  predicate VisibleItem(access: Access, item: MetaData) {
    access.Failed? || !IsHidden(item, access.policy)
  }

  /** An item is dropped if and only if it has versions and either none of them is permitted, or the account
      is unknown and the policy fails closed. */
  lemma DroppedExactly(access: Access, item: MetaData)
    ensures !KeepItem(access, item) <==>
              && item.media != []
              && match access
                 case Failed(failClosed) => failClosed
                 case Resolved(policy) => policy.limit != Unlimited && forall m | m in item.media :: !MediaAllowed(m, policy)
  {
    if access.Resolved? && access.policy.limit != Unlimited {
      assert (exists i | 0 <= i < |item.media| :: MediaAllowed(item.media[i], access.policy)) <==>
          exists m :: m in item.media && MediaAllowed(m, access.policy) by {
        if m :| m in item.media && MediaAllowed(m, access.policy) {
          var i :| 0 <= i < |item.media| && item.media[i] == m;
        }
      }
    }
  }

  /** One that is kept is filtered for a restricted account, cleared when failing closed, and otherwise
      left as it is. */
  lemma ChangedExactly(access: Access, item: MetaData)
    ensures TransformItem(access, item) ==
              if access.Resolved? && access.policy.limit != Unlimited then Filtered(item, access.policy)
              else if access.Failed? && access.failClosed then Cleared(item)
              else item
  {
  }

  /** Clearing takes the versions away and no node. */
  lemma ClearedKeepsNodes(item: MetaData)
    ensures var r := Cleared(item);
            && |r.metadata| == |item.metadata| && |r.directory| == |item.directory| && |r.video| == |item.video|
            && (forall i | 0 <= i < |r.metadata| :: r.metadata[i] == Cleared(item.metadata[i]))
            && (forall i | 0 <= i < |r.directory| :: r.directory[i] == Cleared(item.directory[i]))
            && (forall i | 0 <= i < |r.video| :: r.video[i] == Cleared(item.video[i]))
            && r == item.(media := [], metadata := r.metadata, directory := r.directory, video := r.video)
  {
  }

  /** An item is hidden if and only if the account's policy is known, the item is a collection or the hub of
      one, and its title, without white space around it, is one of the hidden ones. */
  lemma HiddenExactly(access: Access, item: MetaData)
    ensures !VisibleItem(access, item) <==>
              && access.Resolved?
              && Trim(item.title) in access.policy.hiddenCollections
              && (|| item.kind == "collection"
                  || (item.hubIdentifier.Some? && item.context.Some? && "hub.custom.collection" <= item.context.value))
  {
  }

  /** What may be left of an item for an account: nothing at all when failing closed. */
  ghost predicate Compliant(access: Access, item: MetaData) {
    match access
    case Failed(failClosed) => failClosed ==> Versions(item) == []
    case Resolved(policy) => forall m | m in Versions(item) :: MediaAllowed(m, policy)
  }

  lemma TransformedComplies(access: Access, item: MetaData)
    ensures Compliant(access, TransformItem(access, item))
  {
    ClearedHasNoVersions(item);
    if access.Resolved? {
      FilteredExact(item, access.policy);
      FilterKeeps(AllowedBy(access.policy), Versions(item));
    }
  }
}
