/** File names of the cache directory and the bytes its files hold (src/disk_cache.rs). */
module Disk {
  import opened Text
  import opened RecordCodec

  /** A final path: the digest of the cache key. */
  datatype Path = Path(digest: string)

  /** The temporary name `commit_record` derives from a final one. */
  datatype TmpName = TmpName(path: Path, pid: nat, counter: nat)

  datatype FileName = Final(path: Path) | Temp(tmp: TmpName)

  // ----- names -----

  function Print(name: FileName): string {
    match name
    case Final(path) => path.digest
    case Temp(tmp) => tmp.path.digest + ".tmp." + Decimal(tmp.pid) + "." + Decimal(tmp.counter)
  }

  /** `is_temp_file`. */
  predicate IsTempFile(name: string) {
    || (|name| >= 4 && name[|name| - 4..] == ".tmp")
    || exists i | 0 <= i <= |name| :: ".tmp." <= name[i..]
  }

  /** Whatever stands before, a name is temporary if and only if it ends in `.tmp` or has `.tmp.` in it. */
  lemma TemporaryExactly(name: string)
    ensures IsTempFile(name) <==>
              (exists before :: name == before + ".tmp") || exists before, after :: name == before + (".tmp." + after)
  {
    if |name| >= 4 && name[|name| - 4..] == ".tmp" {
      assert name == name[..|name| - 4] + ".tmp";
    }
    if i :| 0 <= i <= |name| && ".tmp." <= name[i..] {
      assert name == name[..i] + (".tmp." + name[i + 5..]);
    }
    if before, after :| name == before + (".tmp." + after) {
      assert name[|before|..] == ".tmp." + after;
    }
    if before :| name == before + ".tmp" {
      assert name[|before|..] == ".tmp";
    }
  }

  /** Digests are hexadecimal. */
  ghost predicate DotFree(name: FileName) {
    '.' !in (if name.Final? then name.path else name.tmp.path).digest
  }

  lemma OccurrenceShows(s: string, pattern: string, i: nat)
    requires pattern != "" && i <= |s| && pattern <= s[i..]
    ensures pattern[0] in s
  {
    assert s[i..][0] == s[i];
  }

  /** The scan tells temporary files from cache files by their names alone. */
  lemma NamesTellTemporaryFiles(name: FileName)
    requires DotFree(name)
    ensures IsTempFile(Print(name)) <==> name.Temp?
  {
    var text := Print(name);
    if name.Temp? {
      var n := |name.tmp.path.digest|;
      assert text[n..] == ".tmp." + Decimal(name.tmp.pid) + "." + Decimal(name.tmp.counter);
      assert ".tmp." <= text[n..];
    } else {
      var n := if |text| >= 4 then |text| - 4 else 0;
      if |text| >= 4 && text[n..] == ".tmp" {
        OccurrenceShows(text, ".tmp", n);
      }
      if i :| 0 <= i <= |text| && ".tmp." <= text[i..] {
        OccurrenceShows(text, ".tmp.", i);
      }
    }
  }

  lemma SplitFour(first: string, second: string, third: string, fourth: string, sep: char)
    requires sep !in first && sep !in second && sep !in third && sep !in fourth
    ensures Split(first + [sep] + (second + [sep] + (third + [sep] + fourth)), sep) == [first, second, third, fourth]
  {
    SplitOne(fourth, sep);
    SplitPrefix(third, sep, fourth);
    SplitPrefix(second, sep, third + [sep] + fourth);
    SplitPrefix(first, sep, second + [sep] + (third + [sep] + fourth));
  }

  lemma TempNameParts(tmp: TmpName)
    requires DotFree(Temp(tmp))
    ensures Split(Print(Temp(tmp)), '.') == [tmp.path.digest, "tmp", Decimal(tmp.pid), Decimal(tmp.counter)]
  {
    var (p, c) := (Decimal(tmp.pid), Decimal(tmp.counter));
    assert '.' !in p && '.' !in c;
    SplitFour(tmp.path.digest, "tmp", p, c, '.');
    assert Print(Temp(tmp)) == tmp.path.digest + ['.'] + ("tmp" + ['.'] + (p + ['.'] + c));
  }

  /** Different files have different names: writers never share a temporary file. */
  lemma NamesAreDistinct(a: FileName, b: FileName)
    requires DotFree(a) && DotFree(b) && Print(a) == Print(b)
    ensures a == b
  {
    NamesTellTemporaryFiles(a);
    NamesTellTemporaryFiles(b);
    if a.Temp? {
      TempNameParts(a.tmp);
      TempNameParts(b.tmp);
      var parts := Split(Print(a), '.');
      assert parts[0] == a.tmp.path.digest == b.tmp.path.digest;
      assert parts[2] == Decimal(a.tmp.pid) == Decimal(b.tmp.pid);
      assert parts[3] == Decimal(a.tmp.counter) == Decimal(b.tmp.counter);
    }
  }

  // ----- bytes -----

  ghost function Total<K(!new)>(m: map<K, seq<Byte>>): nat {
    if m == map[] then 0
    else
      var k :| k in m;
      |m[k]| + Total(m - {k})
  }

  lemma {:induction false} TotalRemove<K(!new)>(m: map<K, seq<Byte>>, k: K)
    requires k in m
    ensures Total(m) == |m[k]| + Total(m - {k})
  {
    var first :| first in m && Total(m) == |m[first]| + Total(m - {first});
    if first != k {
      TotalRemove(m - {first}, k);
      TotalRemove(m - {k}, first);
      assert m - {first} - {k} == m - {k} - {first};
    }
  }

  lemma TotalUpdate<K(!new)>(m: map<K, seq<Byte>>, k: K, v: seq<Byte>)
    ensures Total(m[k := v]) == |v| + Total(m) - if k in m then |m[k]| else 0
    ensures k in m ==> |m[k]| <= Total(m)
  {
    TotalRemove(m[k := v], k);
    assert m[k := v] - {k} == m - {k};
    if k in m {
      TotalRemove(m, k);
    } else {
      assert m - {k} == m;
    }
  }

  lemma {:induction false} TotalSubset<K(!new)>(m: map<K, seq<Byte>>, gone: set<K>)
    ensures Total(m - gone) <= Total(m)
  {
    if gone == {} {
      assert m - gone == m;
    } else {
      var k :| k in gone;
      TotalDrop(m, k);
      TotalSubset(m - {k}, gone - {k});
      assert m - {k} - (gone - {k}) == m - gone;
    }
  }

  /** There are no bytes exactly when every file is empty. */
  lemma {:induction false} TotalZero<K(!new)>(m: map<K, seq<Byte>>)
    ensures Total(m) == 0 <==> forall k | k in m :: m[k] == []
  {
    if m != map[] {
      var k :| k in m && Total(m) == |m[k]| + Total(m - {k});
      TotalZero(m - {k});
      forall j | j in m && j != k ensures j in m - {k} && m[j] == (m - {k})[j] {
      }
    }
  }

  lemma TotalDrop<K(!new)>(m: map<K, seq<Byte>>, k: K)
    ensures Total(m - {k}) <= Total(m)
  {
    if k in m {
      TotalRemove(m, k);
    } else {
      assert m - {k} == m;
    }
  }
}
