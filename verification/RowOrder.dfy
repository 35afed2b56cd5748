/** In which order merged rows and their items are shown (src/transform/hub_interleave.rs). */
module RowOrder {
  import opened Prelude
  import opened Models
  import opened Interleaving
  import opened RowMerge
  import opened RowProperties

  // ----- rows -----

  function Titles(rows: seq<MetaData>): (r: seq<string>)
    ensures |r| == |rows| && forall i | 0 <= i < |rows| :: r[i] == rows[i].title
  {
    if rows == [] then [] else [rows[0].title] + Titles(rows[1..])
  }

  /** The hubs that do not join the leader of their title among the hubs before them, in order. */
  function Leading(hubs: seq<MetaData>): seq<MetaData> {
    if hubs == [] then []
    else
      var (before, hub) := (hubs[..|hubs| - 1], hubs[|hubs| - 1]);
      Leading(before) + if JoinsLeader(before, hub) then [] else [hub]
  }

  lemma {:induction false} TitlesSnoc(rows: seq<MetaData>, row: MetaData)
    ensures Titles(rows + [row]) == Titles(rows) + [row.title]
  {
    if rows != [] {
      TitlesSnoc(rows[1..], row);
      assert (rows + [row])[1..] == rows[1..] + [row];
    }
  }

  lemma {:induction false} LeaderSnoc(hubs: seq<MetaData>, hub: MetaData, title: string)
    ensures Leader(hubs + [hub], title) ==
              if Leader(hubs, title).Some? then Leader(hubs, title)
              else if hub.title == title then Some(hub) else None
  {
    var all := hubs + [hub];
    if hubs == [] {
      assert all[1..] == [];
    } else {
      assert all[1..] == hubs[1..] + [hub];
      LeaderSnoc(hubs[1..], hub, title);
    }
  }

  lemma {:induction false} LeaderReplaced(rows: seq<MetaData>, row: MetaData, title: string)
    requires Position(rows, row.title).Some?
    ensures Leader(rows[Position(rows, row.title).value := row], title)
         == if title == row.title then Some(row) else Leader(rows, title)
  {
    var p := Position(rows, row.title).value;
    if p > 0 {
      LeaderReplaced(rows[1..], row, title);
      assert rows[p := row][1..] == rows[1..][p - 1 := row];
    } else {
      assert rows[p := row][1..] == rows[1..];
    }
  }

  /** The first row of a title lets in what the first hub of the title does. */
  predicate LedAlike(row: Option<MetaData>, hub: Option<MetaData>) {
    && (row.Some? <==> hub.Some?)
    && (row.Some? ==> row.value.title == hub.value.title && (row.value.key.Some? <==> hub.value.key.Some?))
  }

  lemma {:induction false} RowsLedAlike(hubs: seq<MetaData>, title: string)
    ensures LedAlike(Leader(AddHubs([], hubs), title), Leader(hubs, title))
  {
    if hubs != [] {
      var (before, hub) := (hubs[..|hubs| - 1], hubs[|hubs| - 1]);
      var rows := AddHubs([], before);
      var p := Position(rows, hub.title);
      assert hubs == before + [hub];
      AddHubsSnoc([], before, hub);
      LeaderSnoc(before, hub, title);
      RowsLedAlike(before, title);
      if p.Some? && Joins(rows[p.value], hub) {
        LeaderReplaced(rows, MergeInto(rows[p.value], hub), title);
      } else {
        LeaderSnoc(rows, hub, title);
      }
    }
  }

  lemma {:induction false} RowsLed(hubs: seq<MetaData>)
    ensures Titles(AddHubs([], hubs)) == Titles(Leading(hubs))
  {
    if hubs != [] {
      var (before, hub) := (hubs[..|hubs| - 1], hubs[|hubs| - 1]);
      var rows := AddHubs([], before);
      assert hubs == before + [hub];
      AddHubsSnoc([], before, hub);
      RowsLed(before);
      RowsLedAlike(before, hub.title);
      if JoinsLeader(before, hub) {
        assert Leading(hubs) == Leading(before);
        assert Titles(AddHub(rows, hub)) == Titles(rows);
      } else {
        TitlesSnoc(rows, hub);
        TitlesSnoc(Leading(before), hub);
      }
    }
  }

  ghost predicate AllKeyed(hubs: seq<MetaData>) {
    forall h | h in hubs :: h.key.Some?
  }

  ghost predicate CollectionTitlesNew(hubs: seq<MetaData>, seen: set<string>) {
    forall h | h in hubs && h.IsCollectionHub() :: h.title !in seen
  }

  ghost predicate CollectionTitlesDistinct(rows: seq<MetaData>) {
    forall i, j | 0 <= i < j < |rows| && rows[i].IsCollectionHub() && rows[j].IsCollectionHub() ::
      rows[i].title != rows[j].title
  }

  lemma {:induction false} GroupsDistinct(hubs: seq<MetaData>, seen: set<string>)
    requires AllKeyed(hubs) && CollectionTitlesNew(hubs, seen)
    ensures CollectionTitlesDistinct(Groups(hubs, seen)) && CollectionTitlesNew(Groups(hubs, seen), seen)
    decreases |hubs|
  {
    if hubs != [] {
      var f, others, next := hubs[0], Others(hubs[0], hubs[1..], seen), seen + {hubs[0].title};
      JoinersJoin(f, hubs[1..]);
      FoldRowKeepsIdentity(f, Joiners(f, hubs[1..], seen));
      OthersHaveNewTitles(hubs, seen);
      GroupsDistinct(others, next);
      assert f in hubs;
      NewTitleInFront(FoldRow(f, Joiners(f, hubs[1..], seen)), Groups(others, next), seen);
    }
  }

  /** Once the first row has taken its joiners in, no collection hub is left with its title. */
  lemma OthersHaveNewTitles(hubs: seq<MetaData>, seen: set<string>)
    requires hubs != [] && AllKeyed(hubs) && CollectionTitlesNew(hubs, seen)
    ensures var others := Others(hubs[0], hubs[1..], seen);
            AllKeyed(others) && CollectionTitlesNew(others, seen + {hubs[0].title})
  {
    var others := Others(hubs[0], hubs[1..], seen);
    assert hubs[0] in hubs;
    forall h | h in others ensures h in hubs && (h.IsCollectionHub() ==> h.title !in seen + {hubs[0].title}) {
      OthersAreHubs(hubs, seen, h);
      FilterKeeps(StaysOut(hubs[0]), hubs[1..]);
    }
  }

  lemma NewTitleInFront(row: MetaData, rows: seq<MetaData>, seen: set<string>)
    requires CollectionTitlesDistinct(rows) && CollectionTitlesNew(rows, seen + {row.title})
    requires row.IsCollectionHub() ==> row.title !in seen
    ensures CollectionTitlesDistinct([row] + rows) && CollectionTitlesNew([row] + rows, seen)
  {
    var all := [row] + rows;
    forall i, j | 0 <= i < j < |all| && all[i].IsCollectionHub() && all[j].IsCollectionHub()
      ensures all[i].title != all[j].title
    {
      assert all[j] == rows[j - 1] && all[j] in rows;
      if i > 0 {
        assert all[i] == rows[i - 1];
      }
    }
  }

  // ----- items -----

  /** A row of the hub's title shows the hub's items in the hub's order. */
  predicate Shows(row: MetaData, hub: MetaData) {
    row.title == hub.title && Subsequence(hub.Children(), row.Children())
  }

  ghost predicate IsShown(rows: seq<MetaData>, hub: MetaData) {
    exists i :: 0 <= i < |rows| && Shows(rows[i], hub)
  }

  lemma FoldRowShows(row: MetaData, hubs: seq<MetaData>)
    requires AllJoin(row, hubs)
    requires row.Children() == [] ==> forall h | h in hubs :: h.Children() == []
    ensures Shows(FoldRow(row, hubs), row)
    ensures forall h | h in hubs :: Shows(FoldRow(row, hubs), h)
  {
    FoldRowKeepsIdentity(row, hubs);
    FoldRowChildren(row, hubs);
    InterleaveAllKeepsOrder(row.Children(), Lists(hubs));
    forall h | h in hubs ensures Shows(FoldRow(row, hubs), h) {
      var i :| 0 <= i < |hubs| && hubs[i] == h;
      assert Lists(hubs)[i] in Lists(hubs);
    }
  }

  lemma {:induction false} GroupsShow(hubs: seq<MetaData>, seen: set<string>)
    requires LeadersHaveItems(hubs, seen)
    ensures forall h | h in hubs :: IsShown(Groups(hubs, seen), h)
    decreases |hubs|
  {
    if hubs != [] {
      var others, next := Others(hubs[0], hubs[1..], seen), seen + {hubs[0].title};
      LeadersHaveItemsStep(hubs, seen);
      JoinersJoin(hubs[0], hubs[1..]);
      var joiners := Joiners(hubs[0], hubs[1..], seen);
      FoldRowShows(hubs[0], joiners);
      GroupsShow(others, next);
      forall h | h in hubs ensures IsShown(Groups(hubs, seen), h) {
        InOneGroup(hubs, seen, h);
        ShownFurtherOn(FoldRow(hubs[0], joiners), Groups(others, next), h);
      }
    }
  }

  lemma ShownFurtherOn(row: MetaData, rows: seq<MetaData>, hub: MetaData)
    ensures Shows(row, hub) || IsShown(rows, hub) ==> IsShown([row] + rows, hub)
  {
    var all := [row] + rows;
    if Shows(row, hub) {
      assert Shows(all[0], hub);
    } else if IsShown(rows, hub) {
      var i :| 0 <= i < |rows| && Shows(rows[i], hub);
      assert Shows(all[i + 1], hub);
    }
  }

  lemma InOneGroup(hubs: seq<MetaData>, seen: set<string>, h: MetaData)
    requires hubs != [] && h in hubs
    ensures h == hubs[0] || h in Joiners(hubs[0], hubs[1..], seen) || h in Others(hubs[0], hubs[1..], seen)
  {
    FilterKeeps(StaysOut(hubs[0]), hubs[1..]);
    FilterKeeps(JoinsRow(hubs[0]), hubs[1..]);
    assert hubs == [hubs[0]] + hubs[1..];
  }

  lemma JoinerShown(leader: MetaData, joiners: seq<MetaData>, h: MetaData)
    requires AllJoin(leader, joiners) && (h == leader || h in joiners)
    ensures Shows(FoldRow(leader, joiners), h) <==> leader.Children() != [] || h.Children() == []
  {
    FoldRowKeepsIdentity(leader, joiners);
    FoldRowChildren(leader, joiners);
    if leader.Children() != [] {
      FoldRowShows(leader, joiners);
    } else if h in joiners {
      assert Joins(leader, h);
    }
  }

  lemma LeaderOfRest(row: MetaData, rows: seq<MetaData>, title: string)
    ensures Leader([row] + rows, title) == if row.title == title then Some(row) else Leader(rows, title)
  {
    assert ([row] + rows)[1..] == rows;
  }

  /** A hub that joins a row is shown in it, unless the row's leader has no items. */
  lemma {:induction false} JoinersShown(hubs: seq<MetaData>, seen: set<string>, h: MetaData)
    requires h in hubs && h.title !in seen && JoinsLeader(hubs, h)
    ensures var row := Leader(Groups(hubs, seen), h.title);
            && row.Some?
            && (Shows(row.value, h) <==> Leader(hubs, h.title).value.Children() != [] || h.Children() == [])
    decreases |hubs|
  {
    var others, next := Others(hubs[0], hubs[1..], seen), seen + {hubs[0].title};
    JoinersJoin(hubs[0], hubs[1..]);
    var joiners := Joiners(hubs[0], hubs[1..], seen);
    FoldRowKeepsIdentity(hubs[0], joiners);
    OthersAreHubs(hubs, seen, h);
    LeaderOfRest(FoldRow(hubs[0], joiners), Groups(others, next), h.title);
    if h.title == hubs[0].title {
      InOneGroup(hubs, seen, h);
      JoinerShown(hubs[0], joiners, h);
    } else {
      LeaderPastFirst(hubs, seen, h.title);
      JoinersShown(others, next, h);
    }
  }

  /** The first row of the hub's title shows the hub's items. */
  predicate ShownInRow(rows: seq<MetaData>, hub: MetaData) {
    var row := Leader(rows, hub.title);
    row.Some? && Shows(row.value, hub)
  }

  /** Rows stand in the order of the hubs that lead them: those that do not join the leader of their
      title among the hubs before them; no title has two collection rows. */
  lemma MergingKeepsOrder(hubs: seq<MetaData>)
    ensures Titles(AddHubs([], hubs)) == Titles(Leading(hubs))
    ensures AllKeyed(hubs) ==> CollectionTitlesDistinct(AddHubs([], hubs))
  {
    RowsLed(hubs);
    LoopGroups(hubs);
    if AllKeyed(hubs) {
      GroupsDistinct(hubs, {});
    }
  }

  /** Every hub that joins a row is shown in it with its items in their order exactly when no hub with
      items joins a row that leads with none; then every hub is shown in some row of its title. */
  lemma MergingShowsHubs(hubs: seq<MetaData>)
    ensures (forall h | h in hubs && JoinsLeader(hubs, h) :: ShownInRow(AddHubs([], hubs), h)) <==>
              LeadersHaveItems(hubs, {})
    ensures LeadersHaveItems(hubs, {}) ==> forall h | h in hubs :: IsShown(AddHubs([], hubs), h)
  {
    LoopGroups(hubs);
    forall h | h in hubs && JoinsLeader(hubs, h)
      ensures ShownInRow(AddHubs([], hubs), h) <==>
                Leader(hubs, h.title).value.Children() != [] || h.Children() == []
    {
      JoinersShown(hubs, {}, h);
    }
    if LeadersHaveItems(hubs, {}) {
      GroupsShow(hubs, {});
    }
  }
}
