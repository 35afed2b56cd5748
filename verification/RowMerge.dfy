/** Merging hubs of one title into one row (src/transform/hub_interleave.rs) and rebuilding a
    merged row page by page (src/transform/library_interleave.rs). */
module RowMerge {
  import opened Prelude
  import opened Models
  import opened Interleaving
  import opened RowKeys
  import A = ApplyTransforms

  // ----- one row -----

  /** `hub` is merged into `row` when `row` is the first row of its title. */
  predicate Joins(row: MetaData, hub: MetaData) {
    hub.IsCollectionHub() && hub.title == row.title && row.key.Some? && hub.key.Some?
  }

  function MergeInto(row: MetaData, hub: MetaData): MetaData
    requires row.key.Some? && hub.key.Some?
  {
    row.(key := Some(MergeChildrenKeys(row.key.value, hub.key.value)))
       .SetChildren(Interleave(row.Children(), hub.Children()))
  }

  ghost predicate AllJoin(row: MetaData, hubs: seq<MetaData>) {
    forall i | 0 <= i < |hubs| :: Joins(row, hubs[i])
  }

  function FoldRow(row: MetaData, hubs: seq<MetaData>): MetaData
    requires AllJoin(row, hubs)
    decreases hubs
  {
    if hubs == [] then row
    else
      assert AllJoin(MergeInto(row, hubs[0]), hubs[1..]);
      FoldRow(MergeInto(row, hubs[0]), hubs[1..])
  }

  // ----- the loop -----

  function Position(rows: seq<MetaData>, title: string): Option<nat>
    ensures var r := Position(rows, title); r.Some? ==> r.value < |rows| && rows[r.value].title == title
  {
    if rows == [] then None
    else if rows[0].title == title then Some(0)
    else
      match Position(rows[1..], title)
      case Some(i) => Some(i + 1)
      case None => None
  }

  /** One iteration of the hub loop, for a hub with items. */
  function AddHub(rows: seq<MetaData>, hub: MetaData): seq<MetaData> {
    var p := Position(rows, hub.title);
    if p.Some? && Joins(rows[p.value], hub) then rows[p.value := MergeInto(rows[p.value], hub)]
    else rows + [hub]
  }

  /** Hubs that are empty, or of unknown size, are dropped. */
  function HasSize(): MetaData -> bool {
    (hub: MetaData) => hub.size.GetOr(0) != 0
  }

  function AddHubs(rows: seq<MetaData>, hubs: seq<MetaData>): seq<MetaData>
    decreases hubs
  {
    if hubs == [] then rows else AddHubs(AddHub(rows, hubs[0]), hubs[1..])
  }

  /** `HubInterleaveTransform::transform_mediacontainer`. */
  function MergeHubs(c: MediaContainer, interleave: bool): MediaContainer {
    if !interleave then c else SetContainerChildren(c, AddHubs([], Filter(HasSize(), A.Children(c))))
  }

  /** `MediaContainer::set_children_mut`: without any children there is no list to overwrite. */
  function SetContainerChildren(c: MediaContainer, items: seq<MetaData>): MediaContainer {
    (if A.Children(c) == [] then c else A.WithChildren(c, items)).(size := Some(|items|))
  }

  /** A hub is dropped when its size is zero or unknown. */
  lemma SizeExactly(hub: MetaData)
    ensures !HasSize()(hub) <==> hub.size.None? || hub.size == Some(0)
  {
  }

  /** Switched off, merging changes nothing; with no hub at all only the size does. */
  lemma MergingCanBeOff(c: MediaContainer)
    ensures MergeHubs(c, false) == c
    ensures A.Children(c) == [] ==> MergeHubs(c, true) == c.(size := Some(0))
  {
  }

  lemma {:induction false} AddHubsSnoc(rows: seq<MetaData>, hubs: seq<MetaData>, hub: MetaData)
    ensures AddHubs(rows, hubs + [hub]) == AddHub(AddHubs(rows, hubs), hub)
    decreases hubs
  {
    if hubs == [] {
      assert AddHubs(AddHub(rows, hub), (hubs + [hub])[1..]) == AddHub(rows, hub);
    } else {
      assert (hubs + [hub])[1..] == hubs[1..] + [hub];
      AddHubsSnoc(AddHub(rows, hubs[0]), hubs[1..], hub);
    }
  }

  /** The loop over the hubs. */
  method InterleaveHubs(hubs: seq<MetaData>) returns (rows: seq<MetaData>)
    ensures rows == AddHubs([], Filter(HasSize(), hubs))
  {
    rows := [];
    for i := 0 to |hubs|
      invariant rows == AddHubs([], Filter(HasSize(), hubs[..i]))
    {
      var hub := hubs[i];
      assert hubs[..i + 1] == hubs[..i] + [hub];
      FilterConcat(HasSize(), hubs[..i], [hub]);
      assert Filter(HasSize(), [hub]) == if HasSize()(hub) then [hub] else [];
      assert Filter(HasSize(), hubs[..i]) + [] == Filter(HasSize(), hubs[..i]);
      if hub.size.GetOr(0) == 0 {
        continue;
      }
      AddHubsSnoc([], Filter(HasSize(), hubs[..i]), hub);
      if !hub.IsCollectionHub() {
        rows := rows + [hub];
        continue;
      }
      var p := Position(rows, hub.title);
      if p.None? || rows[p.value].key.None? || hub.key.None? {
        rows := rows + [hub];
        continue;
      }
      var row := rows[p.value].(key := Some(MergeChildrenKeys(rows[p.value].key.value, hub.key.value)));
      row := row.SetChildren(Interleave(row.Children(), hub.Children()));
      rows := rows[p.value := row];
    }
    assert hubs[..|hubs|] == hubs;
  }

  method TransformHubs(c: MediaContainer, interleave: bool) returns (r: MediaContainer)
    ensures r == MergeHubs(c, interleave)
  {
    if !interleave {
      return c;
    }
    var rows := InterleaveHubs(A.Children(c));
    r := SetContainerChildren(c, rows);
  }

  // ----- what the loop computes: rows group hubs by title -----

  function JoinsRow(row: MetaData): MetaData -> bool {
    hub => Joins(row, hub)
  }

  function StaysOut(row: MetaData): MetaData -> bool {
    hub => !Joins(row, hub)
  }

  lemma JoinersJoin(row: MetaData, hubs: seq<MetaData>)
    ensures AllJoin(row, Filter(JoinsRow(row), hubs))
    ensures |Filter(StaysOut(row), hubs)| <= |hubs|
  {
    FilterKeeps(JoinsRow(row), hubs);
    FilterKeeps(StaysOut(row), hubs);
    forall i | 0 <= i < |Filter(JoinsRow(row), hubs)| ensures Joins(row, Filter(JoinsRow(row), hubs)[i]) {
      assert Filter(JoinsRow(row), hubs)[i] in Filter(JoinsRow(row), hubs);
    }
  }

  /** The hubs that a row led by `leader` absorbs; a title already seen has its row elsewhere. */
  function Joiners(leader: MetaData, hubs: seq<MetaData>, seen: set<string>): seq<MetaData> {
    if leader.title in seen then [] else Filter(JoinsRow(leader), hubs)
  }

  function Others(leader: MetaData, hubs: seq<MetaData>, seen: set<string>): (r: seq<MetaData>)
    ensures |r| <= |hubs|
  {
    JoinersJoin(leader, hubs);
    if leader.title in seen then hubs else Filter(StaysOut(leader), hubs)
  }

  /** The rows by definition: the first hub leads a row and takes in every later hub that joins
      it; what is left over is grouped the same way. */
  function Groups(hubs: seq<MetaData>, seen: set<string>): seq<MetaData>
    decreases |hubs|
  {
    if hubs == [] then []
    else
      JoinersJoin(hubs[0], hubs[1..]);
      [FoldRow(hubs[0], Joiners(hubs[0], hubs[1..], seen))]
      + Groups(Others(hubs[0], hubs[1..], seen), seen + {hubs[0].title})
  }

  /** The loop with the rows to the left hidden behind their titles. */
  function AddHubSeen(seen: set<string>, rows: seq<MetaData>, hub: MetaData): seq<MetaData> {
    if hub.title in seen then rows + [hub] else AddHub(rows, hub)
  }

  function AddHubsSeen(seen: set<string>, rows: seq<MetaData>, hubs: seq<MetaData>): seq<MetaData>
    decreases hubs
  {
    if hubs == [] then rows else AddHubsSeen(seen, AddHubSeen(seen, rows, hubs[0]), hubs[1..])
  }

  lemma {:induction false} NothingSeen(rows: seq<MetaData>, hubs: seq<MetaData>)
    ensures AddHubsSeen({}, rows, hubs) == AddHubs(rows, hubs)
    decreases hubs
  {
    if hubs != [] {
      NothingSeen(AddHub(rows, hubs[0]), hubs[1..]);
    }
  }

  lemma AddPastFirst(seen: set<string>, row: MetaData, rows: seq<MetaData>, hub: MetaData)
    ensures AddHubSeen(seen, [row] + rows, hub) ==
              if row.title !in seen && Joins(row, hub) then [MergeInto(row, hub)] + rows
              else [row] + AddHubSeen(seen + {row.title}, rows, hub)
  {
    var all := [row] + rows;
    assert all[1..] == rows;
    if hub.title !in seen && hub.title != row.title {
      var p := Position(rows, hub.title);
      if p.Some? && Joins(rows[p.value], hub) {
        assert all[p.value + 1] == rows[p.value];
        assert all[p.value + 1 := MergeInto(rows[p.value], hub)] == [row] + rows[p.value := MergeInto(rows[p.value], hub)];
      } else {
        assert all + [hub] == [row] + (rows + [hub]);
      }
    } else {
      assert all + [hub] == [row] + (rows + [hub]);
      assert all[0 := MergeIntoIfKeyed(row, hub)] == [MergeIntoIfKeyed(row, hub)] + rows;
    }
  }

  function MergeIntoIfKeyed(row: MetaData, hub: MetaData): MetaData {
    if row.key.Some? && hub.key.Some? then MergeInto(row, hub) else row
  }

  lemma {:induction false} SameJoiners(row: MetaData, next: MetaData, hubs: seq<MetaData>)
    requires row.title == next.title && row.key.Some? && next.key.Some?
    ensures Filter(JoinsRow(row), hubs) == Filter(JoinsRow(next), hubs)
    ensures Filter(StaysOut(row), hubs) == Filter(StaysOut(next), hubs)
  {
    if hubs != [] {
      SameJoiners(row, next, hubs[1..]);
    }
  }

  lemma JoinersStep(row: MetaData, hubs: seq<MetaData>, seen: set<string>)
    requires hubs != []
    ensures var joins := row.title !in seen && Joins(row, hubs[0]);
            && Joiners(row, hubs, seen) == (if joins then [hubs[0]] else []) + Joiners(row, hubs[1..], seen)
            && Others(row, hubs, seen) == (if joins then [] else [hubs[0]]) + Others(row, hubs[1..], seen)
  {
    assert hubs == [hubs[0]] + hubs[1..];
  }

  lemma MergeChangesNoJoiner(row: MetaData, hub: MetaData, hubs: seq<MetaData>, seen: set<string>)
    requires Joins(row, hub)
    ensures Joiners(MergeInto(row, hub), hubs, seen) == Joiners(row, hubs, seen)
    ensures Others(MergeInto(row, hub), hubs, seen) == Others(row, hubs, seen)
  {
    SameJoiners(row, MergeInto(row, hub), hubs);
  }

  /** The first row ends as the fold of its joiners; the rest of the loop never looks at it. */
  lemma {:induction false} FirstRowApart(seen: set<string>, row: MetaData, rows: seq<MetaData>, hubs: seq<MetaData>)
    ensures AllJoin(row, Joiners(row, hubs, seen))
    ensures AddHubsSeen(seen, [row] + rows, hubs)
         == [FoldRow(row, Joiners(row, hubs, seen))] + AddHubsSeen(seen + {row.title}, rows, Others(row, hubs, seen))
    decreases hubs
  {
    JoinersJoin(row, hubs);
    if hubs != [] {
      var hub := hubs[0];
      AddPastFirst(seen, row, rows, hub);
      JoinersStep(row, hubs, seen);
      if row.title !in seen && Joins(row, hub) {
        var next, joiners := MergeInto(row, hub), Joiners(row, hubs[1..], seen);
        FirstRowApart(seen, next, rows, hubs[1..]);
        MergeChangesNoJoiner(row, hub, hubs[1..], seen);
        FoldRowStep(row, hub, joiners);
        assert Others(row, hubs, seen) == Others(row, hubs[1..], seen);
        assert AddHubsSeen(seen, [row] + rows, hubs) == AddHubsSeen(seen, [next] + rows, hubs[1..]);
      } else {
        FirstRowApart(seen, row, AddHubSeen(seen + {row.title}, rows, hub), hubs[1..]);
        assert Joiners(row, hubs, seen) == Joiners(row, hubs[1..], seen);
        assert Others(row, hubs, seen)[0] == hub && Others(row, hubs, seen)[1..] == Others(row, hubs[1..], seen);
      }
    }
  }

  lemma FoldRowStep(row: MetaData, hub: MetaData, hubs: seq<MetaData>)
    requires Joins(row, hub) && AllJoin(row, [hub] + hubs) && AllJoin(MergeInto(row, hub), hubs)
    ensures FoldRow(row, [hub] + hubs) == FoldRow(MergeInto(row, hub), hubs)
  {
    assert ([hub] + hubs)[1..] == hubs;
  }

  lemma {:induction false} LoopGroupsSeen(hubs: seq<MetaData>, seen: set<string>)
    ensures AddHubsSeen(seen, [], hubs) == Groups(hubs, seen)
    decreases |hubs|
  {
    if hubs != [] {
      FirstRowApart(seen, hubs[0], [], hubs[1..]);
      assert AddHubSeen(seen, [], hubs[0]) == [hubs[0]] + [];
      LoopGroupsSeen(Others(hubs[0], hubs[1..], seen), seen + {hubs[0].title});
    }
  }

  /** The loop builds exactly the groups. */
  lemma LoopGroups(hubs: seq<MetaData>)
    ensures AddHubs([], hubs) == Groups(hubs, {})
  {
    NothingSeen([], hubs);
    LoopGroupsSeen(hubs, {});
  }
}
