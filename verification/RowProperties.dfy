/** What merging hubs into rows keeps, loses and makes readable again. */
module RowProperties {
  import opened Prelude
  import opened Text
  import opened Models
  import opened Interleaving
  import opened RowKeys
  import opened RowMerge
  import A = ApplyTransforms

  // ----- one row -----

  function Lists(hubs: seq<MetaData>): (r: seq<seq<MetaData>>)
    ensures |r| == |hubs| && forall i | 0 <= i < |hubs| :: r[i] == hubs[i].Children()
  {
    if hubs == [] then [] else [hubs[0].Children()] + Lists(hubs[1..])
  }

  function Keys(hubs: seq<MetaData>): (r: seq<string>)
    requires forall i | 0 <= i < |hubs| :: hubs[i].key.Some?
    ensures |r| == |hubs| && forall i | 0 <= i < |hubs| :: r[i] == hubs[i].key.value
  {
    if hubs == [] then [] else [hubs[0].key.value] + Keys(hubs[1..])
  }

  /** A row shows its lists interleaved, unless it started with nothing to show. */
  lemma {:induction false} FoldRowChildren(row: MetaData, hubs: seq<MetaData>)
    requires AllJoin(row, hubs)
    ensures FoldRow(row, hubs).Children() ==
              if row.Children() == [] then [] else InterleaveAll(row.Children(), Lists(hubs))
    decreases hubs
  {
    if hubs != [] {
      var next := MergeInto(row, hubs[0]);
      assert AllJoin(next, hubs[1..]);
      FoldRowChildren(next, hubs[1..]);
      if row.Children() != [] {
        SetChildrenStores(row, Interleave(row.Children(), hubs[0].Children()));
        assert next.Children() == Interleave(row.Children(), hubs[0].Children());
      }
      assert Lists(hubs)[1..] == Lists(hubs[1..]);
    }
  }

  /** Merging changes a row's key, size and items, and nothing that identifies it. */
  lemma {:induction false} FoldRowKeepsIdentity(row: MetaData, hubs: seq<MetaData>)
    requires AllJoin(row, hubs)
    ensures var r := FoldRow(row, hubs);
            && r.kind == row.kind && r.title == row.title && r.context == row.context
            && r.hubIdentifier == row.hubIdentifier && r.media == row.media
            && r.key.Some? == row.key.Some?
    ensures hubs != [] ==> FoldRow(row, hubs).key == Some(FoldKeys(row.key.value, Keys(hubs)))
    decreases hubs
  {
    if hubs != [] {
      var next := MergeInto(row, hubs[0]);
      assert AllJoin(next, hubs[1..]);
      FoldRowKeepsIdentity(next, hubs[1..]);
      assert Keys(hubs)[1..] == Keys(hubs[1..]);
    }
  }

  /** The size of a merged row counts its items, as far as 32 bits go. */
  lemma {:induction false} MergedSizeCounts(row: MetaData, hubs: seq<MetaData>)
    requires AllJoin(row, hubs) && hubs != [] && row.Children() != []
    ensures FoldRow(row, hubs).size == Some(Min(|FoldRow(row, hubs).Children()|, 0x7FFF_FFFF))
    decreases hubs
  {
    var next := MergeInto(row, hubs[0]);
    assert AllJoin(next, hubs[1..]);
    SetChildrenStores(row, Interleave(row.Children(), hubs[0].Children()));
    if |hubs| == 1 {
      assert FoldRow(row, hubs) == FoldRow(next, []);
    } else {
      MergedSizeCounts(next, hubs[1..]);
    }
  }

  // ----- conservation -----

  function Items(rows: seq<MetaData>): multiset<MetaData> {
    if rows == [] then multiset{} else multiset(rows[0].Children()) + Items(rows[1..])
  }

  lemma {:induction false} ItemsOfLists(hubs: seq<MetaData>)
    ensures Contents(Lists(hubs)) == Items(hubs)
  {
    if hubs != [] {
      ItemsOfLists(hubs[1..]);
      assert Lists(hubs)[1..] == Lists(hubs[1..]);
    }
  }

  lemma ItemsFirst(hub: MetaData, hubs: seq<MetaData>)
    ensures Items([hub] + hubs) == multiset(hub.Children()) + Items(hubs)
  {
    assert ([hub] + hubs)[1..] == hubs;
  }

  lemma SplitStep(row: MetaData, hubs: seq<MetaData>)
    requires hubs != []
    ensures var (ins, outs) := (Filter(JoinsRow(row), hubs[1..]), Filter(StaysOut(row), hubs[1..]));
            if Joins(row, hubs[0])
            then Filter(JoinsRow(row), hubs) == [hubs[0]] + ins && Filter(StaysOut(row), hubs) == outs
            else Filter(JoinsRow(row), hubs) == ins && Filter(StaysOut(row), hubs) == [hubs[0]] + outs
  {
    assert [] + Filter(JoinsRow(row), hubs[1..]) == Filter(JoinsRow(row), hubs[1..]);
    assert [] + Filter(StaysOut(row), hubs[1..]) == Filter(StaysOut(row), hubs[1..]);
  }

  lemma {:induction false} PartitionItems(row: MetaData, hubs: seq<MetaData>)
    ensures Items(Filter(JoinsRow(row), hubs)) + Items(Filter(StaysOut(row), hubs)) == Items(hubs)
  {
    if hubs != [] {
      PartitionItems(row, hubs[1..]);
      SplitStep(row, hubs);
      ItemsFirst(hubs[0], Filter(JoinsRow(row), hubs[1..]));
      ItemsFirst(hubs[0], Filter(StaysOut(row), hubs[1..]));
    }
  }

  /** The items of hubs that join a row with nothing in it. */
  function Lost(hubs: seq<MetaData>, seen: set<string>): multiset<MetaData>
    decreases |hubs|
  {
    if hubs == [] then multiset{}
    else
      (if hubs[0].Children() == [] then Items(Joiners(hubs[0], hubs[1..], seen)) else multiset{})
      + Lost(Others(hubs[0], hubs[1..], seen), seen + {hubs[0].title})
  }

  lemma RowConserves(leader: MetaData, hubs: seq<MetaData>, seen: set<string>)
    ensures AllJoin(leader, Joiners(leader, hubs, seen))
    ensures multiset(FoldRow(leader, Joiners(leader, hubs, seen)).Children())
          + (if leader.Children() == [] then Items(Joiners(leader, hubs, seen)) else multiset{})
          + Items(Others(leader, hubs, seen))
         == multiset(leader.Children()) + Items(hubs)
  {
    JoinersJoin(leader, hubs);
    var joiners := Joiners(leader, hubs, seen);
    PartitionItems(leader, hubs);
    FoldRowChildren(leader, joiners);
    InterleaveAllMultiset(leader.Children(), Lists(joiners));
    ItemsOfLists(joiners);
  }

  lemma {:induction false} GroupsConserve(hubs: seq<MetaData>, seen: set<string>)
    ensures Items(Groups(hubs, seen)) + Lost(hubs, seen) == Items(hubs)
    decreases |hubs|
  {
    if hubs != [] {
      RowConserves(hubs[0], hubs[1..], seen);
      var others, next := Others(hubs[0], hubs[1..], seen), seen + {hubs[0].title};
      GroupsConserve(others, next);
      var row := FoldRow(hubs[0], Joiners(hubs[0], hubs[1..], seen));
      assert ([row] + Groups(others, next))[1..] == Groups(others, next);
    }
  }

  function Leader(hubs: seq<MetaData>, title: string): Option<MetaData> {
    var p := Position(hubs, title);
    if p.Some? then Some(hubs[p.value]) else None
  }

  /** The hub that leads the row of `hub`'s title lets it in. */
  predicate JoinsLeader(hubs: seq<MetaData>, hub: MetaData) {
    var leader := Leader(hubs, hub.title);
    leader.Some? && Joins(leader.value, hub)
  }

  /** No hub with items joins a row whose leader has none. */
  ghost predicate LeadersHaveItems(hubs: seq<MetaData>, seen: set<string>) {
    forall h | h in hubs && h.title !in seen && JoinsLeader(hubs, h) && h.Children() != [] ::
      Leader(hubs, h.title).value.Children() != []
  }

  lemma {:induction false} NoItems(hubs: seq<MetaData>)
    ensures Items(hubs) == multiset{} <==> forall h | h in hubs :: h.Children() == []
  {
    if hubs != [] {
      NoItems(hubs[1..]);
      assert hubs == [hubs[0]] + hubs[1..];
      assert hubs[0].Children() != [] ==> hubs[0].Children()[0] in Items(hubs);
    }
  }

  lemma {:induction false} LeaderAmongOthers(row: MetaData, hubs: seq<MetaData>, title: string)
    requires title != row.title
    ensures Leader(Filter(StaysOut(row), hubs), title) == Leader(hubs, title)
  {
    if hubs != [] {
      LeaderAmongOthers(row, hubs[1..], title);
      SplitStep(row, hubs);
    }
  }

  lemma LeaderPastFirst(hubs: seq<MetaData>, seen: set<string>, title: string)
    requires hubs != [] && title != hubs[0].title
    ensures Leader(hubs, title) == Leader(Others(hubs[0], hubs[1..], seen), title)
  {
    LeaderAmongOthers(hubs[0], hubs[1..], title);
  }

  lemma OthersAreHubs(hubs: seq<MetaData>, seen: set<string>, h: MetaData)
    requires hubs != []
    ensures h in Others(hubs[0], hubs[1..], seen) ==> h in hubs
    ensures h in hubs && h.title != hubs[0].title ==> h in Others(hubs[0], hubs[1..], seen)
    ensures h in Joiners(hubs[0], hubs[1..], seen) <==>
              hubs[0].title !in seen && h in hubs[1..] && Joins(hubs[0], h)
  {
    FilterKeeps(StaysOut(hubs[0]), hubs[1..]);
    FilterKeeps(JoinsRow(hubs[0]), hubs[1..]);
    assert hubs == [hubs[0]] + hubs[1..];
  }

  /** The condition, split into the first group and the rest. */
  lemma LeadersHaveItemsStep(hubs: seq<MetaData>, seen: set<string>)
    requires hubs != []
    ensures LeadersHaveItems(hubs, seen) <==>
              && (hubs[0].Children() == [] ==> forall h | h in Joiners(hubs[0], hubs[1..], seen) :: h.Children() == [])
              && LeadersHaveItems(Others(hubs[0], hubs[1..], seen), seen + {hubs[0].title})
  {
    var f, others, next := hubs[0], Others(hubs[0], hubs[1..], seen), seen + {hubs[0].title};
    assert hubs == [f] + hubs[1..];
    if LeadersHaveItems(hubs, seen) {
      forall h | h in Joiners(f, hubs[1..], seen) && f.Children() == [] ensures h.Children() == [] {
        OthersAreHubs(hubs, seen, h);
        assert h in hubs && JoinsLeader(hubs, h);
      }
      forall h | h in others && h.title !in next && JoinsLeader(others, h) && h.Children() != []
        ensures Leader(others, h.title).value.Children() != []
      {
        OthersAreHubs(hubs, seen, h);
        LeaderPastFirst(hubs, seen, h.title);
        assert h in hubs && JoinsLeader(hubs, h);
      }
    }
    if (f.Children() == [] ==> forall h | h in Joiners(f, hubs[1..], seen) :: h.Children() == [])
      && LeadersHaveItems(others, next)
    {
      forall h | h in hubs && h.title !in seen && JoinsLeader(hubs, h) && h.Children() != []
        ensures Leader(hubs, h.title).value.Children() != []
      {
        OthersAreHubs(hubs, seen, h);
        if h.title != f.title {
          LeaderPastFirst(hubs, seen, h.title);
          assert JoinsLeader(others, h);
        } else if h != f {
          assert h in Joiners(f, hubs[1..], seen);
        }
      }
    }
  }

  lemma {:induction false} NothingLost(hubs: seq<MetaData>, seen: set<string>)
    ensures Lost(hubs, seen) == multiset{} <==> LeadersHaveItems(hubs, seen)
    decreases |hubs|
  {
    if hubs != [] {
      LeadersHaveItemsStep(hubs, seen);
      NoItems(Joiners(hubs[0], hubs[1..], seen));
      NothingLost(Others(hubs[0], hubs[1..], seen), seen + {hubs[0].title});
    }
  }

  /** Merging conserves the items exactly when no hub with items joins a row that leads with none;
      nothing is ever added or duplicated. */
  lemma MergingConservesItems(hubs: seq<MetaData>)
    ensures Items(AddHubs([], hubs)) <= Items(hubs)
    ensures Items(AddHubs([], hubs)) == Items(hubs) <==> LeadersHaveItems(hubs, {})
  {
    LoopGroups(hubs);
    GroupsConserve(hubs, {});
    NothingLost(hubs, {});
    assert Items(Groups(hubs, {})) == Items(hubs) ==> Lost(hubs, {}) == multiset{};
  }

  // ----- built-in hubs -----

  function IsBuiltIn(): MetaData -> bool {
    (hub: MetaData) => !hub.IsCollectionHub()
  }

  lemma {:induction false} RemoveAllKeeps(s: string, pattern: string, c: char)
    requires pattern != "" && c !in pattern
    ensures multiset(RemoveAll(s, pattern))[c] == multiset(s)[c]
  {
    if s == "" {
    } else if pattern <= s {
      RemoveAllKeeps(s[|pattern|..], pattern, c);
      assert s == pattern + s[|pattern|..];
      assert c !in multiset(pattern);
    } else {
      RemoveAllKeeps(s[1..], pattern, c);
      assert s == [s[0]] + s[1..];
    }
  }

  lemma StripKeepsCommas(key: string)
    ensures multiset(StripKey(key))[','] == multiset(key)[',']
  {
    var hubless := RemoveAll(key, HUB_COLLECTIONS);
    RemoveAllKeeps(key, HUB_COLLECTIONS, ',');
    RemoveAllKeeps(hubless, COLLECTIONS, ',');
    RemoveAllKeeps(RemoveAll(hubless, COLLECTIONS), CHILDREN, ',');
  }

  lemma {:induction false} FoldedRowDiffers(row: MetaData, hubs: seq<MetaData>)
    requires AllJoin(row, hubs)
    ensures FoldRow(row, hubs) == row <==> hubs == []
    ensures FoldRow(row, hubs).IsCollectionHub() == row.IsCollectionHub()
  {
    if hubs != [] {
      FoldRowKeepsIdentity(row, hubs);
      FoldedKeyDiffers(row.key.value, Keys(hubs));
    }
  }

  lemma {:induction false} FoldedKeyHasCommas(first: string, others: seq<string>)
    ensures multiset(FoldKeys(first, others))[','] >= multiset(first)[','] + |others|
    decreases others
  {
    if others != [] {
      var next := MergeChildrenKeys(first, others[0]);
      MergeAddsComma(first, others[0]);
      FoldedKeyHasCommas(next, others[1..]);
    }
  }

  lemma CommaBetween(before: string, left: string, right: string, after: string)
    ensures multiset(before + (left + "," + right) + after)[','] > multiset(left)[',']
  {
    assert multiset(before + (left + "," + right) + after)
        == multiset(before) + (multiset(left) + multiset{','} + multiset(right)) + multiset(after);
  }

  /** A merged key has more commas than the key it replaces, so merging is never invisible. */
  lemma MergeAddsComma(left: string, right: string)
    ensures multiset(MergeChildrenKeys(left, right))[','] > multiset(left)[',']
  {
    StripKeepsCommas(left);
    CommaBetween(COLLECTIONS, StripKey(left), StripKey(right), CHILDREN);
  }

  lemma FoldedKeyDiffers(first: string, others: seq<string>)
    requires others != []
    ensures FoldKeys(first, others) != first
  {
    FoldedKeyHasCommas(first, others);
  }

  /** No collection hub shares its title with a keyed built-in hub that leads the title. */
  ghost predicate NoneJoinsBuiltIn(hubs: seq<MetaData>, seen: set<string>) {
    forall h | h in hubs && h.title !in seen && JoinsLeader(hubs, h) :: Leader(hubs, h.title).value.IsCollectionHub()
  }

  lemma NoneJoinsBuiltInStep(hubs: seq<MetaData>, seen: set<string>)
    requires hubs != []
    ensures NoneJoinsBuiltIn(hubs, seen) <==>
              && (hubs[0].IsCollectionHub() || Joiners(hubs[0], hubs[1..], seen) == [])
              && NoneJoinsBuiltIn(Others(hubs[0], hubs[1..], seen), seen + {hubs[0].title})
  {
    var f, others, next := hubs[0], Others(hubs[0], hubs[1..], seen), seen + {hubs[0].title};
    var joiners := Joiners(f, hubs[1..], seen);
    assert hubs == [f] + hubs[1..];
    if NoneJoinsBuiltIn(hubs, seen) {
      if joiners != [] {
        OthersAreHubs(hubs, seen, joiners[0]);
        assert joiners[0] in hubs && JoinsLeader(hubs, joiners[0]);
      }
      forall h | h in others && h.title !in next && JoinsLeader(others, h)
        ensures Leader(others, h.title).value.IsCollectionHub()
      {
        OthersAreHubs(hubs, seen, h);
        LeaderPastFirst(hubs, seen, h.title);
        assert h in hubs && JoinsLeader(hubs, h);
      }
    }
    if (f.IsCollectionHub() || joiners == []) && NoneJoinsBuiltIn(others, next) {
      forall h | h in hubs && h.title !in seen && JoinsLeader(hubs, h)
        ensures Leader(hubs, h.title).value.IsCollectionHub()
      {
        OthersAreHubs(hubs, seen, h);
        if h.title != f.title {
          LeaderPastFirst(hubs, seen, h.title);
          assert JoinsLeader(others, h);
        } else if h != f {
          assert h in joiners;
        }
      }
    }
  }

  lemma BuiltInsStayOut(row: MetaData, hubs: seq<MetaData>, seen: set<string>)
    ensures Filter(IsBuiltIn(), Others(row, hubs, seen)) == Filter(IsBuiltIn(), hubs)
  {
    FilterFilter(StaysOut(row), IsBuiltIn(), IsBuiltIn(), hubs);
  }

  lemma LeadingBuiltIn(hubs: seq<MetaData>, seen: set<string>, rows: seq<MetaData>)
    requires hubs != [] && AllJoin(hubs[0], Joiners(hubs[0], hubs[1..], seen))
    ensures var row := FoldRow(hubs[0], Joiners(hubs[0], hubs[1..], seen));
            Filter(IsBuiltIn(), [row] + rows) == Filter(IsBuiltIn(), hubs) <==>
              && (hubs[0].IsCollectionHub() || Joiners(hubs[0], hubs[1..], seen) == [])
              && Filter(IsBuiltIn(), rows) == Filter(IsBuiltIn(), Others(hubs[0], hubs[1..], seen))
  {
    var joiners := Joiners(hubs[0], hubs[1..], seen);
    FoldedRowDiffers(hubs[0], joiners);
    BuiltInsStayOut(hubs[0], hubs[1..], seen);
    HeadsAgree(hubs[0], FoldRow(hubs[0], joiners), rows, hubs[1..]);
    assert [hubs[0]] + hubs[1..] == hubs;
  }

  lemma {:induction false} GroupsKeepBuiltIns(hubs: seq<MetaData>, seen: set<string>)
    ensures Filter(IsBuiltIn(), Groups(hubs, seen)) == Filter(IsBuiltIn(), hubs) <==> NoneJoinsBuiltIn(hubs, seen)
    decreases |hubs|
  {
    if hubs != [] {
      var others, next := Others(hubs[0], hubs[1..], seen), seen + {hubs[0].title};
      JoinersJoin(hubs[0], hubs[1..]);
      NoneJoinsBuiltInStep(hubs, seen);
      GroupsKeepBuiltIns(others, next);
      LeadingBuiltIn(hubs, seen, Groups(others, next));
    }
  }

  lemma HeadsAgree(f: MetaData, row: MetaData, rows: seq<MetaData>, hubs: seq<MetaData>)
    requires row.IsCollectionHub() == f.IsCollectionHub()
    ensures Filter(IsBuiltIn(), [row] + rows) == Filter(IsBuiltIn(), [f] + hubs) <==>
              (f.IsCollectionHub() || row == f) && Filter(IsBuiltIn(), rows) == Filter(IsBuiltIn(), hubs)
  {
    FilterFirst(row, rows);
    FilterFirst(f, hubs);
    var (a, b) := (Filter(IsBuiltIn(), rows), Filter(IsBuiltIn(), hubs));
    assert ([row] + a)[1..] == a && ([f] + b)[1..] == b;
    assert [] + a == a && [] + b == b;
  }

  lemma FilterFirst(hub: MetaData, hubs: seq<MetaData>)
    ensures Filter(IsBuiltIn(), [hub] + hubs)
         == (if hub.IsCollectionHub() then [] else [hub]) + Filter(IsBuiltIn(), hubs)
  {
    assert ([hub] + hubs)[1..] == hubs;
  }

  /** Built-in hubs stay as they are, in order, exactly when none of them has the title, and stands
      before the first, of a collection hub. */
  lemma MergingKeepsBuiltIns(hubs: seq<MetaData>)
    ensures Filter(IsBuiltIn(), AddHubs([], hubs)) == Filter(IsBuiltIn(), hubs) <==> NoneJoinsBuiltIn(hubs, {})
  {
    LoopGroups(hubs);
    GroupsKeepBuiltIns(hubs, {});
  }

  /** So a built-in hub does take in a collection hub of its title, if it comes first. */
  lemma BuiltInAbsorbs(builtIn: MetaData, collection: MetaData)
    requires !builtIn.IsCollectionHub() && collection.IsCollectionHub()
    requires builtIn.title == collection.title && builtIn.key.Some? && collection.key.Some?
    ensures AddHubs([], [builtIn, collection]) == [MergeInto(builtIn, collection)]
    ensures AddHubs([], [collection, builtIn]) == [collection, builtIn]
  {
    assert [builtIn, collection] == [builtIn] + [collection] && [collection, builtIn] == [collection] + [builtIn];
    AddHubsSnoc([], [builtIn], collection);
    AddHubsSnoc([], [collection], builtIn);
    assert AddHubs([], [builtIn]) == AddHubs([builtIn], []) == [builtIn];
    assert AddHubs([], [collection]) == AddHubs([collection], []) == [collection];
  }

  // ----- the container -----

  /** The container shows the groups and counts them, unless no hub has a size. */
  lemma MergedContainerShowsGroups(c: MediaContainer)
    requires Filter(HasSize(), A.Children(c)) != []
    ensures var groups := Groups(Filter(HasSize(), A.Children(c)), {});
            && A.Children(MergeHubs(c, true)) == groups
            && MergeHubs(c, true).size == Some(|groups|)
  {
    LoopGroups(Filter(HasSize(), A.Children(c)));
    assert A.Children(c) != [];
  }

  lemma {:induction false} ItemsOfKept(hubs: seq<MetaData>)
    ensures Items(Filter(HasSize(), hubs)) <= Items(hubs)
    ensures Items(Filter(HasSize(), hubs)) == Items(hubs) <==>
              forall h | h in hubs && !HasSize()(h) :: h.Children() == []
  {
    if hubs != [] {
      var kept := Filter(HasSize(), hubs[1..]);
      ItemsOfKept(hubs[1..]);
      assert hubs == [hubs[0]] + hubs[1..];
      ItemsFirst(hubs[0], hubs[1..]);
      if HasSize()(hubs[0]) {
        ItemsFirst(hubs[0], kept);
        SameSum(multiset(hubs[0].Children()), Items(kept), Items(hubs[1..]));
      } else {
        assert [] + kept == kept;
        MoreItems(multiset(hubs[0].Children()), Items(kept), Items(hubs[1..]));
        assert hubs[0].Children() != [] ==> hubs[0].Children()[0] in multiset(hubs[0].Children());
      }
    }
  }

  lemma SameSum(a: multiset<MetaData>, b: multiset<MetaData>, c: multiset<MetaData>)
    ensures a + b == a + c <==> b == c
  {
    if a + b == a + c {
      assert b == (a + b) - a && c == (a + c) - a;
    }
  }

  lemma MoreItems(a: multiset<MetaData>, b: multiset<MetaData>, c: multiset<MetaData>)
    requires b <= c
    ensures b == a + c <==> a == multiset{} && b == c
  {
    if b == a + c {
      assert |b| <= |c| by {
        assert c == b + (c - b);
      }
      assert |a + c| == |a| + |c|;
    }
  }

  /** The items of the container are all still shown exactly when no hub without a size has items and
      no hub with items joins a row led by one without. */
  lemma ContainerConservesItems(c: MediaContainer)
    ensures var (hubs, kept) := (A.Children(c), Filter(HasSize(), A.Children(c)));
            && (Items(AddHubs([], kept)) == Items(hubs) <==>
                  (forall h | h in hubs && !HasSize()(h) :: h.Children() == []) && LeadersHaveItems(kept, {}))
            && (kept != [] ==> A.Children(MergeHubs(c, true)) == AddHubs([], kept))
  {
    var (hubs, kept) := (A.Children(c), Filter(HasSize(), A.Children(c)));
    ItemsOfKept(hubs);
    MergingConservesItems(kept);
    if kept != [] {
      MergedContainerShowsGroups(c);
      LoopGroups(kept);
    }
  }

  // ----- where items are lost -----

  const FILM := MetaData("movie", "Film", None, None, None, None, None, None, None, [], [], [], [])
  const EMPTY_ROW := MetaData("movie", "New", Some("/library/collections/1/children"), Some(1),
    Some("hub.custom.collection.1"), Some("custom.collection.1"), None, None, None, [], [], [], [])
  const FULL_ROW := EMPTY_ROW.(key := Some("/library/collections/2/children"), metadata := [FILM])

  /** Two collection hubs of one title: the first has a size and no items, and the film of the
      second is shown nowhere. */
  lemma FilmIsLost()
    ensures Items([EMPTY_ROW, FULL_ROW]) == multiset{FILM}
    ensures Items(AddHubs([], [EMPTY_ROW, FULL_ROW])) == multiset{}
    ensures Filter(HasSize(), [EMPTY_ROW, FULL_ROW]) == [EMPTY_ROW, FULL_ROW]
  {
    LostAsSecond(EMPTY_ROW, FULL_ROW);
    FilterAll(HasSize(), [EMPTY_ROW, FULL_ROW]);
    assert [EMPTY_ROW, FULL_ROW] == [EMPTY_ROW] + ([FULL_ROW] + []);
    ItemsFirst(FULL_ROW, []);
    ItemsFirst(EMPTY_ROW, [FULL_ROW] + []);
  }

  lemma LostAsSecond(row: MetaData, hub: MetaData)
    requires Joins(row, hub) && row.Children() == []
    ensures Items(AddHubs([], [row, hub])) == multiset{}
  {
    assert [row, hub] == [row] + [hub];
    AddHubsSnoc([], [row], hub);
    assert AddHubs([], [row]) == AddHubs([row], []) == [row];
    assert AddHub([row], hub) == [MergeInto(row, hub)];
    NoItems([MergeInto(row, hub)]);
  }
}
