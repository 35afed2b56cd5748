/** The loop that runs transforms over a container (`TransformBuilder::apply_to`, src/transform/mod.rs),
    and what the policy transform achieves through it. */
module ApplyTransforms {
  import opened Prelude
  import opened Models
  import opened ResolutionPolicies
  import opened PolicyTransform

  datatype Transform = Transform(
    keep: MetaData -> bool,                 // filter_metadata
    change: MetaData -> MetaData,           // transform_metadata
    whole: MediaContainer -> MediaContainer) // transform_mediacontainer

  // ----- the specification -----

  /** The child list the container exposes: the first that is not empty. */
  function Children(c: MediaContainer): seq<MetaData> {
    if c.metadata != [] then c.metadata
    else if c.hub != [] then c.hub
    else if c.video != [] then c.video
    else c.directory
  }

  /** The container with its exposed list replaced. */
  function WithChildren(c: MediaContainer, items: seq<MetaData>): MediaContainer {
    if c.metadata != [] then c.(metadata := items)
    else if c.hub != [] then c.(hub := items)
    else if c.video != [] then c.(video := items)
    else if c.directory != [] then c.(directory := items)
    else c.(metadata := items)
  }

  function TotalChildren(c: MediaContainer): nat {
    |c.metadata| + |c.hub| + |c.video| + |c.directory|
  }

  /** Keep, then change. */
  function Surviving(t: Transform, items: seq<MetaData>): seq<MetaData> {
    if items == [] then []
    else (if t.keep(items[0]) then [t.change(items[0])] else []) + Surviving(t, items[1..])
  }

  /** One transform over the items: the exposed list is filtered and changed, and only when
      nothing of it is left does the next list get its turn. */
  function ApplyItems(t: Transform, c: MediaContainer): MediaContainer
    decreases TotalChildren(c)
  {
    var items := Children(c);
    if items == [] then c
    else
      var left := Surviving(t, items);
      if left == [] then ApplyItems(t, WithChildren(c, [])) else WithChildren(c, left)
  }

  function ApplyAll(ts: seq<Transform>, c: MediaContainer): MediaContainer {
    if ts == [] then c else ApplyAll(ts[1..], ts[0].whole(ApplyItems(ts[0], c)))
  }

  function Resized(c: MediaContainer): MediaContainer {
    if c.size.Some? then c.(size := Some(Min(|Children(c)|, 0x7FFF_FFFF_FFFF_FFFF))) else c
  }

  /** The exposed list is the first that is not empty, of items, hubs, videos and directories in this
      order; storing a list there changes nothing else, and with no list to replace the items are set. */
  lemma ExposedExactly(c: MediaContainer, items: seq<MetaData>)
    ensures c.metadata != [] ==> Children(c) == c.metadata && WithChildren(c, items) == c.(metadata := items)
    ensures c.metadata == [] && c.hub != [] ==> Children(c) == c.hub && WithChildren(c, items) == c.(hub := items)
    ensures c.metadata == c.hub == [] && c.video != [] ==>
              Children(c) == c.video && WithChildren(c, items) == c.(video := items)
    ensures c.metadata == c.hub == c.video == [] && c.directory != [] ==>
              Children(c) == c.directory && WithChildren(c, items) == c.(directory := items)
    ensures c.metadata == c.hub == c.video == c.directory == [] ==>
              Children(c) == [] && WithChildren(c, items) == c.(metadata := items)
  {
  }

  /** A container that had a size afterwards counts the items it exposes, as far as 64 bits go; one that
      had none still has none. */
  lemma SizeCounts(ts: seq<Transform>, c: MediaContainer)
    ensures var (shown, r) := (ApplyAll(ts, c), Resized(ApplyAll(ts, c)));
            && Children(r) == Children(shown)
            && (shown.size.None? ==> r.size.None?)
            && (shown.size.Some? ==>
                  r.size == Some(if |Children(r)| <= 0x7FFF_FFFF_FFFF_FFFF then |Children(r)| else 0x7FFF_FFFF_FFFF_FFFF))
            && r == shown.(size := r.size)
  {
  }

  lemma {:induction false} ApplyAllSnoc(ts: seq<Transform>, t: Transform, c: MediaContainer)
    ensures ApplyAll(ts + [t], c) == t.whole(ApplyItems(t, ApplyAll(ts, c)))
  {
    if ts == [] {
      assert (ts + [t])[1..] == [] && ApplyAll([], t.whole(ApplyItems(t, c))) == t.whole(ApplyItems(t, c));
    } else {
      assert (ts + [t])[1..] == ts[1..] + [t];
      ApplyAllSnoc(ts[1..], t, ts[0].whole(ApplyItems(ts[0], c)));
    }
  }

  /** What the loop still has to do when the first `index` exposed items are done. */
  ghost function Outstanding(t: Transform, c: MediaContainer, index: nat): MediaContainer
    requires index <= |Children(c)|
  {
    var items := Children(c);
    var left := items[..index] + Surviving(t, items[index..]);
    if items == [] then c
    else if left == [] then ApplyItems(t, WithChildren(c, []))
    else WithChildren(c, left)
  }

  lemma OutstandingAtStart(t: Transform, c: MediaContainer)
    ensures Outstanding(t, c, 0) == ApplyItems(t, c)
  {
    assert Children(c)[0..] == Children(c);
    assert Children(c)[..0] + Surviving(t, Children(c)) == Surviving(t, Children(c));
  }

  lemma OutstandingAtEnd(t: Transform, c: MediaContainer)
    ensures Outstanding(t, c, |Children(c)|) == c
  {
    var items := Children(c);
    assert items[|items|..] == [];
    assert items[..|items|] + [] == items;
  }

  lemma OutstandingKeep(t: Transform, c: MediaContainer, index: nat)
    requires index < |Children(c)| && t.keep(Children(c)[index])
    ensures var next := WithChildren(c, Children(c)[index := t.change(Children(c)[index])]);
            index + 1 <= |Children(next)| && Outstanding(t, next, index + 1) == Outstanding(t, c, index)
  {
    var items := Children(c);
    var changed := items[index := t.change(items[index])];
    assert Children(WithChildren(c, changed)) == changed;
    assert items[index..] == [items[index]] + items[index + 1..];
    assert changed[..index + 1] + Surviving(t, changed[index + 1..]) == items[..index] + Surviving(t, items[index..]);
  }

  lemma OutstandingRemove(t: Transform, c: MediaContainer, index: nat)
    requires index < |Children(c)| && !t.keep(Children(c)[index])
    ensures var next := WithChildren(c, Children(c)[..index] + Children(c)[index + 1..]);
            index <= |Children(next)| && Outstanding(t, next, index) == Outstanding(t, c, index)
  {
    var items := Children(c);
    var shorter := items[..index] + items[index + 1..];
    assert items[index..] == [items[index]] + items[index + 1..];
    assert Surviving(t, items[index..]) == Surviving(t, items[index + 1..]);
    if shorter == [] {
      assert items[index + 1..] == [] && items[..index] == [];
      OutstandingAtStart(t, WithChildren(c, shorter));
    } else {
      assert shorter[..index] == items[..index] && shorter[index..] == items[index + 1..];
    }
  }

  // ----- the loop -----

  /** The container the transforms work on in place. */
  class ContainerCell {
    var size: Option<int>
    var totalSize: Option<int>
    var metadata: seq<MetaData>
    var hub: seq<MetaData>
    var video: seq<MetaData>
    var directory: seq<MetaData>

    function Value(): MediaContainer
      reads this
    {
      MediaContainer(size, totalSize, metadata, hub, video, directory)
    }

    constructor (c: MediaContainer)
      ensures Value() == c
    {
      size, totalSize, metadata, hub, video, directory := c.size, c.totalSize, c.metadata, c.hub, c.video, c.directory;
    }

    /** `children_mut().remove(index)`. */
    method RemoveChild(index: nat)
      requires index < |Children(Value())|
      modifies this
      ensures Value() == WithChildren(old(Value()), old(Children(Value()))[..index] + old(Children(Value()))[index + 1..])
    {
      if metadata != [] {
        metadata := metadata[..index] + metadata[index + 1..];
      } else if hub != [] {
        hub := hub[..index] + hub[index + 1..];
      } else if video != [] {
        video := video[..index] + video[index + 1..];
      } else {
        directory := directory[..index] + directory[index + 1..];
      }
    }

    /** Assignment through `children_mut()[index]`. */
    method UpdateChild(index: nat, item: MetaData)
      requires index < |Children(Value())|
      modifies this
      ensures Value() == WithChildren(old(Value()), old(Children(Value()))[index := item])
    {
      if metadata != [] {
        metadata := metadata[index := item];
      } else if hub != [] {
        hub := hub[index := item];
      } else if video != [] {
        video := video[index := item];
      } else {
        directory := directory[index := item];
      }
    }

    method Assign(c: MediaContainer)
      modifies this
      ensures Value() == c
    {
      size, totalSize, metadata, hub, video, directory := c.size, c.totalSize, c.metadata, c.hub, c.video, c.directory;
    }

    /** The inner `while` of `apply_to`. It stops because every round either advances the index
        or removes an item, and the lists it may move on to are part of the measure. */
    method RunItems(t: Transform)
      modifies this
      ensures Value() == ApplyItems(t, old(Value()))
    {
      var index := 0;
      OutstandingAtStart(t, Value());
      while index < |Children(Value())|
        invariant index <= |Children(Value())|
        invariant Outstanding(t, Value(), index) == ApplyItems(t, old(Value()))
        decreases TotalChildren(Value()) - index
      {
        ghost var before := Value();
        var item := Children(Value())[index];
        if !t.keep(item) {
          OutstandingRemove(t, before, index);
          RemoveChild(index);
        } else {
          OutstandingKeep(t, before, index);
          UpdateChild(index, t.change(item));
          index := index + 1;
        }
      }
      OutstandingAtEnd(t, Value());
    }

    /** `apply_to`. */
    method ApplyTo(ts: seq<Transform>)
      modifies this
      ensures Value() == Resized(ApplyAll(ts, old(Value())))
    {
      for i := 0 to |ts|
        invariant Value() == ApplyAll(ts[..i], old(Value()))
      {
        RunItems(ts[i]);
        Assign(ts[i].whole(Value()));
        assert ts[..i + 1] == ts[..i] + [ts[i]];
        ApplyAllSnoc(ts[..i], ts[i], old(Value()));
      }
      assert ts[..|ts|] == ts;
      if size.Some? {
        size := Some(Min(|Children(Value())|, 0x7FFF_FFFF_FFFF_FFFF));
      }
    }
  }

  // ----- the policy transform through the loop -----

  function PolicyPass(access: Access): Transform {
    Transform(item => KeepItem(access, item), item => TransformItem(access, item), c => c)
  }

  function VisibilityPass(access: Access): Transform {
    Transform(item => VisibleItem(access, item), item => item, c => c)
  }

  function AllItems(c: MediaContainer): seq<MetaData> {
    c.metadata + c.hub + c.video + c.directory
  }

  ghost predicate AllComply(access: Access, items: seq<MetaData>) {
    forall item | item in items :: Compliant(access, item)
  }

  /** The items of the lists the loop does not get to. */
  ghost function Unreached(t: Transform, c: MediaContainer): seq<MetaData>
    decreases TotalChildren(c)
  {
    if Children(c) == [] then []
    else if exists i | 0 <= i < |Children(c)| :: t.keep(Children(c)[i]) then AllItems(WithChildren(c, []))
    else Unreached(t, WithChildren(c, []))
  }

  lemma {:induction false} SurvivingEmpty(t: Transform, items: seq<MetaData>)
    ensures Surviving(t, items) == [] <==> forall i | 0 <= i < |items| :: !t.keep(items[i])
  {
    if items != [] {
      SurvivingEmpty(t, items[1..]);
    }
  }

  lemma {:induction false} SurvivingComply(access: Access, items: seq<MetaData>)
    ensures AllComply(access, Surviving(PolicyPass(access), items))
  {
    if items != [] {
      SurvivingComply(access, items[1..]);
      TransformedComplies(access, items[0]);
    }
  }

  /** After the policy transform the container complies at every depth of every list, exactly
      when the lists it did not reach complied beforehand. */
  lemma {:induction false} PolicyPassComplies(access: Access, c: MediaContainer)
    ensures AllComply(access, AllItems(ApplyItems(PolicyPass(access), c))) <==>
            AllComply(access, Unreached(PolicyPass(access), c))
    decreases TotalChildren(c)
  {
    var t := PolicyPass(access);
    var items := Children(c);
    if items != [] {
      SurvivingEmpty(t, items);
      SurvivingComply(access, items);
      if Surviving(t, items) == [] {
        PolicyPassComplies(access, WithChildren(c, []));
      } else {
        SameOthers(c, Surviving(t, items));
      }
    }
  }

  lemma SameOthers(c: MediaContainer, left: seq<MetaData>)
    requires Children(c) != []
    ensures forall x :: x in AllItems(WithChildren(c, left)) <==> x in left || x in AllItems(WithChildren(c, []))
  {
  }

  /** With one populated list everything is reached. */
  lemma SingleListComplies(access: Access, c: MediaContainer)
    requires TotalChildren(c) == |Children(c)|
    ensures AllComply(access, AllItems(ApplyItems(PolicyPass(access), c)))
  {
    PolicyPassComplies(access, c);
  }

  /** Two populated lists: the second is not filtered when the first keeps an item. */
  lemma SecondListEscapes()
    ensures var folder := MetaData("show", "", None, None, None, None, None, None, None, [], [], [], []);
            var film := folder.(kind := "movie", media := [Media(1, None, Some(3840), Some(2160), None, [])]);
            var access := Resolved(ResolutionPolicy(P1080, None, []));
            var c := MediaContainer(None, None, [folder], [film], [], []);
            ApplyItems(PolicyPass(access), c).hub == [film] && !KeepItem(access, film)
  {
  }

  /** The versions shown are exactly the permitted ones of the items that were kept. */
  lemma {:induction false} SurvivingExact(policy: ResolutionPolicy, items: seq<MetaData>)
    ensures var t := PolicyPass(Resolved(policy));
            VersionsAll(Surviving(t, items)) == Filter(AllowedBy(policy), VersionsAll(Filter(t.keep, items)))
  {
    if items != [] {
      var t := PolicyPass(Resolved(policy));
      var kept := Filter(t.keep, items[1..]);
      SurvivingExact(policy, items[1..]);
      if t.keep(items[0]) {
        assert ([items[0]] + kept)[1..] == kept;
        assert ([t.change(items[0])] + Surviving(t, items[1..]))[1..] == Surviving(t, items[1..]);
        TransformExact(policy, items[0]);
        FilterConcat(AllowedBy(policy), Versions(items[0]), VersionsAll(kept));
      } else {
        assert [] + kept == kept && [] + Surviving(t, items[1..]) == Surviving(t, items[1..]);
      }
    }
  }

  lemma TransformExact(policy: ResolutionPolicy, item: MetaData)
    ensures Versions(TransformItem(Resolved(policy), item)) == Filter(AllowedBy(policy), Versions(item))
  {
    if policy.IsUnrestricted() {
      FilterAll(AllowedBy(policy), Versions(item));
    } else {
      FilteredExact(item, policy);
    }
  }

  /** A response filtered for one policy and then another is the response for the stricter one. */
  lemma {:induction false} PassesCompose(a: ResolutionPolicy, b: ResolutionPolicy, items: seq<MetaData>)
    ensures Surviving(PolicyPass(Resolved(b)), Surviving(PolicyPass(Resolved(a)), items)) ==
            Surviving(PolicyPass(Resolved(Stricter(a, b))), items)
  {
    if items != [] {
      var first := items[0];
      var rest := Surviving(PolicyPass(Resolved(a)), items[1..]);
      PassesCompose(a, b, items[1..]);
      ItemsCompose(a, b, first);
      if KeepItem(Resolved(a), first) {
        assert ([TransformItem(Resolved(a), first)] + rest)[1..] == rest;
      } else {
        assert [] + rest == rest;
      }
    }
  }

  lemma ItemsCompose(a: ResolutionPolicy, b: ResolutionPolicy, item: MetaData)
    ensures var once := TransformItem(Resolved(a), item);
            && (KeepItem(Resolved(a), item) && KeepItem(Resolved(b), once) <==> KeepItem(Resolved(Stricter(a, b)), item))
            && TransformItem(Resolved(b), once) == TransformItem(Resolved(Stricter(a, b)), item)
  {
    FilteredCompose(item, a, b);
    FilterKeeps(AllowedBy(a), item.media);
    forall m ensures MediaAllowed(m, Stricter(a, b)) <==> MediaAllowed(m, a) && MediaAllowed(m, b) {
      AllowedByBoth(m, a, b);
    }
    var once := TransformItem(Resolved(a), item);
    KeepByMembership(a, item);
    KeepByMembership(b, once);
    KeepByMembership(Stricter(a, b), item);
    assert forall m :: m in once.media <==> m in item.media && MediaAllowed(m, a);
    if once.media == [] && item.media != [] {
      assert item.media[0] in item.media;
    }
  }

  lemma KeepByMembership(policy: ResolutionPolicy, item: MetaData)
    ensures KeepItem(Resolved(policy), item) <==>
            policy.IsUnrestricted() || item.media == [] || exists m :: m in item.media && MediaAllowed(m, policy)
  {
    if m :| m in item.media && MediaAllowed(m, policy) {
      var i :| 0 <= i < |item.media| && item.media[i] == m;
    }
  }
}
