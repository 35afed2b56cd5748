/** Size accounting and eviction of the disk cache (src/disk_cache.rs). Each method runs on its own:
    the steps of concurrent commits are in CommitProtocol. */
module DiskCache {
  import opened Prelude
  import opened Sorting
  import opened Disk
  import opened RecordCodec

  function CleanThreshold(max: nat): nat {
    Min(max * 85, U64_MAX) / 100
  }

  /** The target is 85% of the maximum, rounded down, and never more than that even when the
      multiplication saturates. */
  lemma ThresholdIsAtMost85Percent(max: nat)
    requires max <= U64_MAX
    ensures 100 * CleanThreshold(max) <= 85 * max
    ensures max * 85 <= U64_MAX ==> 85 * max < 100 * (CleanThreshold(max) + 1)
    ensures max * 85 > U64_MAX ==> CleanThreshold(max) == 0xFFFF_FFFF_FFFF_FFFF / 100
    ensures max > 0 ==> CleanThreshold(max) < max
  {
  }

  /** A row of the directory scan. */
  datatype Entry = Entry(mtime: nat, path: Path, len: nat)

  predicate Older(a: Entry, b: Entry) {
    a.mtime <= b.mtime
  }

  /** A directory listing names every file once, in no particular order. */
  ghost predicate Lists(listing: seq<FileName>, files: map<Path, seq<Byte>>, temps: set<TmpName>) {
    && (forall i, j | 0 <= i < j < |listing| :: listing[i] != listing[j])
    && (forall p :: Final(p) in listing <==> p in files)
    && (forall t :: Temp(t) in listing <==> t in temps)
  }

  /** The cache files among the first `n` listed names. */
  ghost function Seen(files: map<Path, seq<Byte>>, listing: seq<FileName>, n: nat): map<Path, seq<Byte>>
    requires n <= |listing|
  {
    map p | p in files && Final(p) in listing[..n] :: files[p]
  }

  lemma SeenNext(files: map<Path, seq<Byte>>, listing: seq<FileName>, n: nat)
    requires n < |listing| && listing[n] !in listing[..n]
    requires listing[n].Final? ==> listing[n].path in files
    ensures Seen(files, listing, n + 1) ==
            if listing[n].Final? then Seen(files, listing, n)[listing[n].path := files[listing[n].path]]
            else Seen(files, listing, n)
    ensures Total(Seen(files, listing, n + 1)) ==
            Total(Seen(files, listing, n)) + if listing[n].Final? then |files[listing[n].path]| else 0
  {
    assert listing[..n + 1] == listing[..n] + [listing[n]];
    if listing[n].Final? {
      TotalUpdate(Seen(files, listing, n), listing[n].path, files[listing[n].path]);
    }
  }

  /** The temporary files once those among the `seen` names are deleted where possible. */
  ghost function Remaining(temps: set<TmpName>, seen: seq<FileName>, stuck: set<FileName>): set<TmpName> {
    set t | t in temps && (Temp(t) in stuck || Temp(t) !in seen)
  }

  lemma RemainingSnoc(temps: set<TmpName>, seen: seq<FileName>, name: FileName, stuck: set<FileName>)
    ensures Remaining(temps, seen + [name], stuck) ==
            Remaining(temps, seen, stuck) - if name.Temp? && name !in stuck then {name.tmp} else {}
  {
  }

  lemma AllSeen(files: map<Path, seq<Byte>>, temps: set<TmpName>, listing: seq<FileName>, stuck: set<FileName>)
    requires Lists(listing, files, temps)
    ensures listing[..|listing|] == listing && Seen(files, listing, |listing|) == files
    ensures Remaining(temps, listing, stuck) == set t | t in temps && Temp(t) in stuck
  {
    assert listing[..|listing|] == listing;
  }

  /** The deletable ones among the first `tried` entries. */
  function Victims(entries: seq<Entry>, tried: nat, stuck: set<FileName>): set<Path>
    requires tried <= |entries|
  {
    if tried == 0 then {}
    else Victims(entries, tried - 1, stuck) +
         if Final(entries[tried - 1].path) in stuck then {} else {entries[tried - 1].path}
  }

  lemma {:induction false} VictimsAre(entries: seq<Entry>, tried: nat, stuck: set<FileName>, p: Path)
    requires tried <= |entries|
    ensures p in Victims(entries, tried, stuck) <==>
            exists i :: 0 <= i < tried && entries[i].path == p && Final(p) !in stuck
  {
    if tried > 0 {
      VictimsAre(entries, tried - 1, stuck, p);
    }
  }

  /** Row `e` says the truth about its file. */
  ghost predicate TrueRow(e: Entry, files: map<Path, seq<Byte>>, mtimes: map<Path, nat>) {
    e.path in files && e.path in mtimes && e.mtime == mtimes[e.path] && e.len == |files[e.path]|
  }

  ghost predicate HasRow(entries: seq<Entry>, path: Path) {
    exists i :: 0 <= i < |entries| && entries[i].path == path
  }

  ghost predicate DistinctRows(entries: seq<Entry>) {
    forall i, j | 0 <= i < j < |entries| :: entries[i].path != entries[j].path
  }

  /** One true row for every file. */
  ghost predicate Rows(entries: seq<Entry>, files: map<Path, seq<Byte>>, mtimes: map<Path, nat>) {
    && (forall i | 0 <= i < |entries| :: TrueRow(entries[i], files, mtimes))
    && DistinctRows(entries)
    && (forall p | p in files :: HasRow(entries, p))
  }

  lemma RowsExtend(entries: seq<Entry>, files: map<Path, seq<Byte>>, mtimes: map<Path, nat>, path: Path, content: seq<Byte>)
    requires Rows(entries, files, mtimes) && path !in files && path in mtimes
    ensures Rows(entries + [Entry(mtimes[path], path, |content|)], files[path := content], mtimes)
  {
    var more := entries + [Entry(mtimes[path], path, |content|)];
    forall p | p in files[path := content] ensures HasRow(more, p) {
      if p == path {
        assert more[|entries|].path == p;
      } else {
        assert HasRow(entries, p);
        var i :| 0 <= i < |entries| && entries[i].path == p;
        assert more[i].path == p;
      }
    }
  }

  lemma RowsNext(entries: seq<Entry>, files: map<Path, seq<Byte>>, mtimes: map<Path, nat>, listing: seq<FileName>, n: nat)
    requires n < |listing| && listing[n] !in listing[..n]
    requires listing[n].Final? && listing[n].path in files && listing[n].path in mtimes
    requires Rows(entries, Seen(files, listing, n), mtimes)
    ensures var path := listing[n].path;
            Rows(entries + [Entry(mtimes[path], path, |files[path]|)], Seen(files, listing, n + 1), mtimes)
  {
    SeenNext(files, listing, n);
    RowsExtend(entries, Seen(files, listing, n), mtimes, listing[n].path, files[listing[n].path]);
  }

  /** The first `n` listed names are in the rows and in the total. */
  ghost predicate Scanned(entries: seq<Entry>, total: nat, files: map<Path, seq<Byte>>, mtimes: map<Path, nat>,
                          listing: seq<FileName>, n: nat)
    requires n <= |listing|
  {
    total == Total(Seen(files, listing, n)) && Rows(entries, Seen(files, listing, n), mtimes)
  }

  lemma ScanNext(entries: seq<Entry>, total: nat, files: map<Path, seq<Byte>>, temps: set<TmpName>, mtimes: map<Path, nat>,
                 listing: seq<FileName>, n: nat)
    requires Lists(listing, files, temps) && files.Keys <= mtimes.Keys && n < |listing|
    requires Scanned(entries, total, files, mtimes, listing, n)
    ensures listing[n].Final? ==>
              var path := listing[n].path;
              && path in files
              && Scanned(entries + [Entry(mtimes[path], path, |files[path]|)], total + |files[path]|, files, mtimes, listing,
                   n + 1)
    ensures listing[n].Temp? ==> Scanned(entries, total, files, mtimes, listing, n + 1)
  {
    assert listing[n] in listing;
    SeenNext(files, listing, n);
    if listing[n].Final? {
      RowsNext(entries, files, mtimes, listing, n);
    }
  }

  lemma MapMinus(m: map<Path, seq<Byte>>, a: set<Path>, b: set<Path>)
    ensures m - a - b == m - (a + b)
  {
  }

  /** The file whose turn it is has not been deleted yet. */
  lemma NextRowIsLeft(entries: seq<Entry>, files: map<Path, seq<Byte>>, mtimes: map<Path, nat>, tried: nat,
                      stuck: set<FileName>)
    requires Rows(entries, files, mtimes) && tried < |entries|
    ensures TrueRow(entries[tried], files - Victims(entries, tried, stuck), mtimes)
  {
    assert TrueRow(entries[tried], files, mtimes);
    VictimsAre(entries, tried, stuck, entries[tried].path);
  }

  /** Row `k` is still true when its turn comes: the deletable rows before it are gone. */
  ghost predicate TrueInTurn(entries: seq<Entry>, k: nat, files: map<Path, seq<Byte>>, mtimes: map<Path, nat>,
                             stuck: set<FileName>)
  {
    k < |entries| ==> TrueRow(entries[k], files - Victims(entries, k, stuck), mtimes)
  }

  ghost predicate Evictable(entries: seq<Entry>, files: map<Path, seq<Byte>>, mtimes: map<Path, nat>, stuck: set<FileName>) {
    forall k: nat :: TrueInTurn(entries, k, files, mtimes, stuck)
  }

  lemma RowsAreEvictable(entries: seq<Entry>, files: map<Path, seq<Byte>>, mtimes: map<Path, nat>, stuck: set<FileName>)
    requires Rows(entries, files, mtimes)
    ensures Evictable(entries, files, mtimes, stuck)
  {
    forall k: nat ensures TrueInTurn(entries, k, files, mtimes, stuck) {
      if k < |entries| {
        NextRowIsLeft(entries, files, mtimes, k, stuck);
      }
    }
  }

  class Cache {
    /** Cache files and temporary files share the directory. */
    var files: map<Path, seq<Byte>>
    var temps: set<TmpName>
    var mtimes: map<Path, nat>
    var tracked: nat
    /** The files whose deletion fails. */
    const stuck: set<FileName>

    /** Every file has an age, and all of them together fit a `u64`. */
    ghost predicate Valid()
      reads this
    {
      files.Keys <= mtimes.Keys && Total(files) <= U64_MAX
    }

    ghost predicate Exact()
      reads this
    {
      tracked == Total(files)
    }

    /** `remove_file` on a cache file. */
    method DeleteFile(path: Path) returns (ok: bool)
      modifies this`files
      ensures ok == (path in old(files) && Final(path) !in stuck)
      ensures files == old(files) - if Final(path) in stuck then {} else {path}
    {
      ok := path in files && Final(path) !in stuck;
      if ok {
        files := files - {path};
      }
    }

    /** `remove_file` on a temporary file. */
    method DeleteTemp(tmp: TmpName)
      modifies this`temps
      ensures temps == old(temps) - if Temp(tmp) in stuck then {} else {tmp}
    {
      if tmp in temps && Temp(tmp) !in stuck {
        temps := temps - {tmp};
      }
    }

    /** One entry of the scan of `init`. */
    method CountOrDelete(name: FileName, before: nat) returns (total: nat)
      requires name.Final? ==> name.path in files
      modifies this`temps
      ensures temps == if name.Temp? && name !in stuck then old(temps) - {name.tmp} else old(temps)
      ensures total == if name.Temp? then before else SaturatingAdd(before, |files[name.path]|)
    {
      total := before;
      if name.Temp? {
        DeleteTemp(name.tmp);
      } else {
        total := SaturatingAdd(total, |files[name.path]|);
      }
    }

    /** `init`: temporary files are removed where possible, and the rest is counted. */
    method Init(listing: seq<FileName>)
      requires Valid() && Lists(listing, files, temps)
      modifies this`temps, this`tracked
      ensures Exact()
      ensures temps == set t | t in old(temps) && Temp(t) in stuck
    {
      var total := 0;
      for i := 0 to |listing|
        invariant temps == Remaining(old(temps), listing[..i], stuck)
        invariant total == Min(Total(Seen(files, listing, i)), U64_MAX)
      {
        assert listing[..i + 1] == listing[..i] + [listing[i]];
        assert listing[i] in listing;
        RemainingSnoc(old(temps), listing[..i], listing[i], stuck);
        SeenNext(files, listing, i);
        total := CountOrDelete(listing[i], total);
      }
      AllSeen(files, old(temps), listing, stuck);
      tracked := total;
    }

    /** `remove`. */
    method Remove(path: Path)
      requires Valid()
      modifies this`files, this`tracked
      ensures Valid() && (old(Exact()) ==> Exact())
      ensures files == old(files) - if Final(path) in stuck then {} else {path}
    {
      if path !in files {
        assert files == files - {} == files - {path};
        return;
      }
      var len := |files[path]|;
      TotalRemove(files, path);
      var ok := DeleteFile(path);
      if ok {
        tracked := SaturatingSub(tracked, len);
      } else {
        assert old(files) - {} == old(files);
      }
    }

    /** `clear_all` resets the counter whatever it managed to delete: the counter is right
        afterwards exactly when every file that cannot be deleted was empty beforehand. */
    method ClearAll(listing: seq<FileName>)
      requires Valid() && Lists(listing, files, temps)
      modifies this`files, this`temps, this`tracked
      ensures forall p :: p in files <==> p in old(files) && Final(p) in stuck
      ensures forall p | p in files :: files[p] == old(files)[p]
      ensures forall t :: t in temps <==> t in old(temps) && Temp(t) in stuck
      ensures Exact() <==> forall p | p in old(files) && Final(p) in stuck :: old(files)[p] == []
    {
      for i := 0 to |listing|
        invariant forall p :: p in files <==> p in old(files) && (Final(p) in stuck || Final(p) !in listing[..i])
        invariant forall p | p in files :: files[p] == old(files)[p]
        invariant forall t :: t in temps <==> t in old(temps) && (Temp(t) in stuck || Temp(t) !in listing[..i])
      {
        assert listing[..i + 1] == listing[..i] + [listing[i]] && listing[i] !in listing[..i];
        if listing[i].Final? {
          var _ := DeleteFile(listing[i].path);
        } else {
          DeleteTemp(listing[i].tmp);
        }
      }
      assert listing[..|listing|] == listing;
      TotalZero(files);
      tracked := 0;
    }

    /** The scan of `ensure_capacity`: a row for every cache file, and their total size. */
    method Scan(listing: seq<FileName>) returns (entries: seq<Entry>, total: nat)
      requires Valid() && Lists(listing, files, temps)
      ensures total == Total(files) && Rows(entries, files, mtimes)
    {
      entries, total := [], 0;
      for i := 0 to |listing|
        invariant Scanned(entries, total, files, mtimes, listing, i)
      {
        var name := listing[i];
        ScanNext(entries, total, files, temps, mtimes, listing, i);
        if name.Final? {
          total := total + |files[name.path]|;
          entries := entries + [Entry(mtimes[name.path], name.path, |files[name.path]|)];
        }
      }
      AllSeen(files, temps, listing, stuck);
    }

    /** `ensure_capacity`. Below the maximum nothing happens. Otherwise files go in order of age,
        the counter stays exact, the loop stops below the target or after the last file, and it
        does not stop late: before the last attempt the cache was still at or above the target. */
    method EnsureCapacity(max: nat, listing: seq<FileName>) returns (entries: seq<Entry>, tried: nat)
      requires Valid() && Lists(listing, files, temps)
      modifies this`files, this`tracked
      ensures old(tracked) < max ==> files == old(files) && tracked == old(tracked)
      ensures old(tracked) >= max ==> Exact() && Rows(entries, old(files), mtimes) && Sorted(Older, entries)
      ensures old(tracked) >= max ==> EvictedTo(CleanThreshold(max), entries, tried, old(files))
    {
      entries, tried := [], 0;
      if tracked < max {
        return;
      }
      var scanned, total := Scan(listing);
      tracked := total;
      entries := Sort(Older, scanned);
      SortedRows(scanned, files, mtimes);
      RowsAreEvictable(entries, files, mtimes, stuck);
      if total < CleanThreshold(max) {
        assert files - Victims(entries, 0, stuck) == files;
        return;
      }
      tried := EvictOldest(CleanThreshold(max), entries);
    }

    /** The state after `tried` deletion attempts in the order of `entries`, and why they ended. */
    ghost predicate EvictedTo(target: nat, entries: seq<Entry>, tried: nat, before: map<Path, seq<Byte>>)
      reads this
    {
      && tried <= |entries|
      && files == before - Victims(entries, tried, stuck)
      && (tracked < target || tried == |entries|)
      && (tried > 0 ==> Total(before - Victims(entries, tried - 1, stuck)) >= target)
    }

    /** The loop of `ensure_capacity`. */
    method EvictOldest(target: nat, entries: seq<Entry>) returns (tried: nat)
      requires Valid() && Exact() && Evictable(entries, files, mtimes, stuck)
      modifies this`files, this`tracked
      ensures Exact() && EvictedTo(target, entries, tried, old(files))
    {
      tried := 0;
      ghost var previous := files;
      assert files - Victims(entries, 0, stuck) == files;
      while tried < |entries|
        invariant tried <= |entries| && Valid() && Exact()
        invariant files == old(files) - Victims(entries, tried, stuck)
        invariant tried > 0 ==> previous == old(files) - Victims(entries, tried - 1, stuck) && Total(previous) >= target
        decreases |entries| - tried
      {
        if tracked < target {
          break;
        }
        previous := files;
        assert TrueInTurn(entries, tried, old(files), mtimes, stuck);
        Evict(entries[tried]);
        MapMinus(old(files), Victims(entries, tried, stuck),
          if Final(entries[tried].path) in stuck then {} else {entries[tried].path});
        tried := tried + 1;
      }
    }

    /** One round of the eviction loop. */
    method Evict(e: Entry)
      requires Valid() && Exact() && TrueRow(e, files, mtimes)
      modifies this`files, this`tracked
      ensures Valid() && Exact()
      ensures files == old(files) - if Final(e.path) in stuck then {} else {e.path}
    {
      TotalRemove(files, e.path);
      var ok := DeleteFile(e.path);
      if ok {
        tracked := SaturatingSub(tracked, e.len);
      } else {
        assert old(files) - {} == old(files);
      }
    }
  }

  /** Sorting by age keeps the rows and puts every older file first. */
  lemma SortedRows(entries: seq<Entry>, files: map<Path, seq<Byte>>, mtimes: map<Path, nat>)
    requires Rows(entries, files, mtimes)
    ensures Rows(Sort(Older, entries), files, mtimes) && Sorted(Older, Sort(Older, entries))
  {
    var sorted := Sort(Older, entries);
    SortOrders(Older, entries);
    forall i | 0 <= i < |sorted| ensures TrueRow(sorted[i], files, mtimes) {
      assert sorted[i] in multiset(entries);
    }
    DistinctWhateverOrder(entries, sorted);
    forall p | p in files ensures HasRow(sorted, p) {
      assert HasRow(entries, p);
      var i :| 0 <= i < |entries| && entries[i].path == p;
      assert entries[i] in multiset(sorted);
    }
  }

  lemma DistinctWhateverOrder(entries: seq<Entry>, sorted: seq<Entry>)
    requires DistinctRows(entries) && multiset(sorted) == multiset(entries)
    ensures DistinctRows(sorted)
  {
    forall i, j | 0 <= i < j < |sorted| ensures sorted[i].path != sorted[j].path {
      AppearsOnce(entries, sorted[i]);
      if sorted[i] == sorted[j] {
        AppearsTwice(sorted, i, j);
      }
      assert sorted[i] in multiset(entries) && sorted[j] in multiset(entries);
    }
  }

  lemma AppearsTwice(s: seq<Entry>, j: nat, k: nat)
    requires j < k < |s| && s[j] == s[k]
    ensures multiset(s)[s[j]] >= 2
  {
    assert s == s[..j] + [s[j]] + s[j + 1..k] + [s[k]] + s[k + 1..];
  }

  lemma {:induction false} AppearsOnce(s: seq<Entry>, e: Entry)
    requires DistinctRows(s)
    ensures multiset(s)[e] <= 1
  {
    if s != [] {
      var n := |s| - 1;
      AppearsOnce(s[..n], e);
      assert s == s[..n] + [s[n]];
      assert s[n] in multiset(s[..n]) <==> s[n] in s[..n];
    }
  }

  /** What was evicted is no newer than anything deletable that was kept. */
  lemma OldestGoFirst(entries: seq<Entry>, tried: nat, files: map<Path, seq<Byte>>, mtimes: map<Path, nat>,
                      stuck: set<FileName>, gone: Path, kept: Path)
    requires Rows(entries, files, mtimes) && Sorted(Older, entries) && tried <= |entries|
    requires gone in mtimes && kept in mtimes && gone in Victims(entries, tried, stuck)
    requires kept in files - Victims(entries, tried, stuck) && Final(kept) !in stuck
    ensures mtimes[gone] <= mtimes[kept]
  {
    VictimsAre(entries, tried, stuck, gone);
    VictimsAre(entries, tried, stuck, kept);
    var i :| 0 <= i < tried && entries[i].path == gone;
    assert HasRow(entries, kept);
    var j :| 0 <= j < |entries| && entries[j].path == kept;
    assert j >= tried;
    assert Older(entries[i], entries[j]);
  }

  /** When every deletion succeeds, sparing the last evicted file would have left too much. */
  lemma EvictionIsMinimal(entries: seq<Entry>, tried: nat, files: map<Path, seq<Byte>>, mtimes: map<Path, nat>, target: nat)
    requires Rows(entries, files, mtimes) && 0 < tried <= |entries|
    requires Total(files - Victims(entries, tried - 1, {})) >= target
    ensures Total(files - Victims(entries, tried, {})) + entries[tried - 1].len >= target
  {
    var last := entries[tried - 1];
    NextRowIsLeft(entries, files, mtimes, tried - 1, {});
    TotalRemove(files - Victims(entries, tried - 1, {}), last.path);
    MapMinus(files, Victims(entries, tried - 1, {}), {last.path});
  }
}
