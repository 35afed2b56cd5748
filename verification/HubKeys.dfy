/** The cache key and the upstream path of a hub request (`cache_key_for_request` and
    `canonical_fetch_path`, src/routes.rs). */
module HubKeys {
  import opened Prelude
  import opened Text
  import opened Sorting
  import opened Queries

  /** A parameter as the source spells it, and in lower case. */
  datatype Name = Name(original: string, lower: string)

  /** A parameter under its own name or the lower-cased one. */
  function Pick(q: Query, name: Name): Option<string> {
    OrElse(Get(q, name.original), Get(q, name.lower))
  }

  /** Spellings that tell parameters apart, and from their values. */
  ghost predicate Distinguishable(names: seq<Name>) {
    && (forall a, b | a in names && b in names :: TellApart(a, b))
    && (forall a | a in names :: '=' !in a.lower && '&' !in a.lower)
  }

  predicate TellApart(a: Name, b: Name) {
    a.lower != b.original && (a.lower == b.lower || a.original == b.original ==> a == b)
  }

  // ----- lists of ids -----

  function Trimmed(parts: seq<string>): seq<string> {
    if parts == [] then [] else (if Trim(parts[0]) == "" then [] else [Trim(parts[0])]) + Trimmed(parts[1..])
  }

  function IdList(value: string): seq<string> {
    Trimmed(Split(value, ','))
  }

  function Alphabetic(): (string, string) -> bool {
    (a: string, b: string) => StringLeq(a, b)
  }

  lemma AlphabeticIsTotal()
    ensures TotalPreorder(Alphabetic()) && Antisymmetric(Alphabetic())
  {
    forall a: string, b: string
      ensures Alphabetic()(a, b) || Alphabetic()(b, a)
      ensures Alphabetic()(a, b) && Alphabetic()(b, a) ==> a == b
    {
      StringLeqTotal(a, b);
    }
    forall a: string, b: string, c: string | Alphabetic()(a, b) && Alphabetic()(b, c) ensures Alphabetic()(a, c) {
      StringLeqTransitive(a, b, c);
    }
  }

  /** A comma-separated list is trimmed and sorted; a single value is taken as it is. */
  function CanonicalValue(value: string): string {
    if ',' in value then Join(Sort(Alphabetic(), IdList(value)), ",") else value
  }

  lemma {:induction false} TrimmedAreIds(parts: seq<string>)
    requires forall p | p in parts :: ',' !in p
    ensures forall id | id in Trimmed(parts) :: id != "" && ',' !in id
  {
    if parts != [] {
      TrimKeepsOut(parts[0], ',');
      TrimmedAreIds(parts[1..]);
    }
  }

  /** Joining lists of ids loses nothing. */
  lemma JoinInjective(a: seq<string>, b: seq<string>)
    requires forall id | id in a :: id != "" && ',' !in id
    requires forall id | id in b :: id != "" && ',' !in id
    requires Join(a, ",") == Join(b, ",")
    ensures a == b
  {
    JoinNonEmpty(a);
    JoinNonEmpty(b);
    if a != [] && b != [] {
      SplitJoin(a, ',');
      SplitJoin(b, ',');
    }
  }

  lemma JoinNonEmpty(a: seq<string>)
    requires forall id | id in a :: id != ""
    ensures Join(a, ",") == "" <==> a == []
  {
    if a != [] {
      assert a[0] in a;
    }
  }

  /** Two lists count as the same exactly when they hold the same ids, in any order and with any
      spacing. */
  lemma ListsAgree(v: string, v': string)
    requires ',' in v && ',' in v'
    ensures CanonicalValue(v) == CanonicalValue(v') <==> multiset(IdList(v)) == multiset(IdList(v'))
  {
    AlphabeticIsTotal();
    SortEqual(Alphabetic(), IdList(v), IdList(v'));
    SortOrders(Alphabetic(), IdList(v));
    SortOrders(Alphabetic(), IdList(v'));
    TrimmedAreIds(Split(v, ','));
    TrimmedAreIds(Split(v', ','));
    var (a, b) := (Sort(Alphabetic(), IdList(v)), Sort(Alphabetic(), IdList(v')));
    forall id | id in a ensures id != "" && ',' !in id {
      assert id in multiset(a) && id in IdList(v);
    }
    forall id | id in b ensures id != "" && ',' !in id {
      assert id in multiset(b) && id in IdList(v');
    }
    if Join(a, ",") == Join(b, ",") {
      JoinInjective(a, b);
    }
  }

  // ----- keys -----

  type Part = (Name, string)

  /** The parameter of one name, if the query has it. */
  function Collected(q: Query, name: Name): seq<Part> {
    match Pick(q, name)
    case Some(value) => [(name, CanonicalValue(value))]
    case None => []
  }

  function PartsOf(q: Query, names: seq<Name>): seq<Part> {
    if names == [] then [] else Collected(q, names[0]) + PartsOf(q, names[1..])
  }

  function ByName(): (Part, Part) -> bool {
    (a: Part, b: Part) => StringLeq(a.0.original, b.0.original)
  }

  /** The parameters that shape the payload, in the order of their names. */
  function Parts(q: Query, names: seq<Name>): seq<Part> {
    Sort(ByName(), PartsOf(q, names))
  }

  function PrintedPart(p: Part, lower: bool): string {
    (if lower then p.0.lower else p.0.original) + "=" + p.1
  }

  function Printed(parts: seq<Part>, lower: bool): (r: seq<string>)
    ensures |r| == |parts|
    ensures forall i | 0 <= i < |parts| :: r[i] == PrintedPart(parts[i], lower)
  {
    if parts == [] then [] else [PrintedPart(parts[0], lower)] + Printed(parts[1..], lower)
  }

  /** `cache_key_for_request`. */
  function CacheKey(path: string, q: Query, names: seq<Name>): string {
    var parts := Parts(q, names);
    if parts == [] then path else path + "?" + Join(Printed(parts, true), "&")
  }

  /** `canonical_fetch_path`, for the key of the same request. */
  function FetchPath(key: string, q: Query, names: seq<Name>): string {
    Split(key, '?')[0] + "?" + Join(Printed(Parts(q, names), false) + ["includeGuids=1", "count=50"], "&")
  }

  lemma {:induction false} JoinTwo(parts: seq<string>, a: string, b: string)
    ensures Join(parts + [a, b], "&") == (if parts == [] then "" else Join(parts, "&") + "&") + (a + "&" + b)
  {
    if parts == [] {
      assert [] + [a, b] == [a, b] && [a, b][1..] == [b];
    } else if |parts| == 1 {
      assert (parts + [a, b])[1..] == [a, b] && [a, b][1..] == [b];
      assert Join(parts + [a, b], "&") == parts[0] + "&" + Join([a, b], "&");
      assert parts[0] + "&" + (a + "&" + b) == (parts[0] + "&") + (a + "&" + b);
    } else {
      assert (parts + [a, b])[1..] == parts[1..] + [a, b];
      JoinTwo(parts[1..], a, b);
      assert Join(parts, "&") == parts[0] + "&" + Join(parts[1..], "&");
      assert parts[0] + "&" + ((Join(parts[1..], "&") + "&") + (a + "&" + b))
          == (parts[0] + "&" + Join(parts[1..], "&") + "&") + (a + "&" + b);
    }
  }

  /** Plex is asked for the path with the parameters of the key, in the same order and as they are spelled,
      and always for guids and fifty items. */
  lemma FetchAsks(key: string, q: Query, names: seq<Name>)
    ensures var printed := Printed(Parts(q, names), false);
            FetchPath(key, q, names) ==
              Split(key, '?')[0] + "?"
              + ((if printed == [] then "" else Join(printed, "&") + "&") + ("includeGuids=1" + "&" + "count=50"))
  {
    JoinTwo(Printed(Parts(q, names), false), "includeGuids=1", "count=50");
  }

  lemma {:induction false} PartsAppend(q: Query, names: seq<Name>, name: Name)
    ensures PartsOf(q, names + [name]) == PartsOf(q, names) + Collected(q, name)
  {
    if names == [] {
      assert names + [name] == [name] && [name][1..] == [];
    } else {
      assert (names + [name])[1..] == names[1..] + [name];
      PartsAppend(q, names[1..], name);
    }
  }

  /** The loop that collects the parameters. */
  method CollectParts(q: Query, names: seq<Name>) returns (parts: seq<Part>)
    ensures parts == PartsOf(q, names)
  {
    parts := [];
    for i := 0 to |names|
      invariant parts == PartsOf(q, names[..i])
    {
      var value := Pick(q, names[i]);
      assert names[..i + 1] == names[..i] + [names[i]];
      PartsAppend(q, names[..i], names[i]);
      if value.Some? {
        parts := parts + [(names[i], CanonicalValue(value.value))];
      } else {
        assert parts + [] == parts;
      }
    }
    assert names[..|names|] == names;
  }

  // ----- the key determines the fetch -----

  /** Values free of the delimiter between pairs. */
  ghost predicate DelimiterFree(q: Query, names: seq<Name>) {
    forall name | name in names && Pick(q, name).Some? :: '&' !in Pick(q, name).value
  }

  ghost predicate WellFormed(parts: seq<Part>, names: seq<Name>) {
    forall p | p in parts :: p.0 in names && '&' !in p.1
  }

  lemma CanonicalKeepsOut(value: string, c: char)
    requires c !in value && c != ','
    ensures c !in CanonicalValue(value)
  {
    if ',' in value {
      AlphabeticIsTotal();
      var ids := IdList(value);
      SplitKeepsOut(value, ',', c);
      TrimmedKeepOut(Split(value, ','), c);
      SortOrders(Alphabetic(), ids);
      forall id | id in Sort(Alphabetic(), ids) ensures c !in id {
        assert id in multiset(Sort(Alphabetic(), ids));
      }
      JoinKeepsOut(Sort(Alphabetic(), ids), ",", c);
    }
  }

  lemma {:induction false} SplitKeepsOut(s: string, sep: char, c: char)
    requires c !in s
    ensures forall p | p in Split(s, sep) :: c !in p
  {
    if s != "" {
      SplitKeepsOut(s[1..], sep, c);
      assert s[0] in s;
      assert Split(s[1..], sep)[0] in Split(s[1..], sep);
    }
  }

  lemma {:induction false} TrimmedKeepOut(parts: seq<string>, c: char)
    requires forall p | p in parts :: c !in p
    ensures forall p | p in Trimmed(parts) :: c !in p
  {
    if parts != [] {
      TrimKeepsOut(parts[0], c);
      TrimmedKeepOut(parts[1..], c);
    }
  }

  lemma {:induction false} PartsOfAreWellFormed(q: Query, names: seq<Name>)
    requires DelimiterFree(q, names)
    ensures WellFormed(PartsOf(q, names), names)
  {
    if names != [] {
      PartsOfAreWellFormed(q, names[1..]);
      if Pick(q, names[0]).Some? {
        CanonicalKeepsOut(Pick(q, names[0]).value, '&');
      }
    }
  }

  lemma PartsAreWellFormed(q: Query, names: seq<Name>)
    requires DelimiterFree(q, names)
    ensures WellFormed(Parts(q, names), names)
  {
    PartsOfAreWellFormed(q, names);
    ByNameIsTotal();
    SortOrders(ByName(), PartsOf(q, names));
    forall p | p in Parts(q, names) ensures p in PartsOf(q, names) {
      assert p in multiset(Parts(q, names));
    }
  }

  lemma ByNameIsTotal()
    ensures TotalPreorder(ByName())
  {
    forall a: Part, b: Part ensures ByName()(a, b) || ByName()(b, a) {
      StringLeqTotal(a.0.original, b.0.original);
    }
    forall a: Part, b: Part, c: Part | ByName()(a, b) && ByName()(b, c) ensures ByName()(a, c) {
      StringLeqTransitive(a.0.original, b.0.original, c.0.original);
    }
  }

  /** Text before the first delimiter, and after it. */
  lemma FirstDelimiter(a: string, b: string, a': string, b': string, c: char)
    requires c !in a && c !in a' && a + [c] + b == a' + [c] + b'
    ensures a == a' && b == b'
  {
    SplitPrefix(a, c, b);
    SplitPrefix(a', c, b');
    assert ([a] + Split(b, c))[0] == ([a'] + Split(b', c))[0];
    assert (a + [c] + b)[|a| + 1..] == b && (a' + [c] + b')[|a'| + 1..] == b';
  }

  lemma PrintedInjective(parts: seq<Part>, parts': seq<Part>, names: seq<Name>)
    requires Distinguishable(names) && WellFormed(parts, names) && WellFormed(parts', names)
    requires Printed(parts, true) == Printed(parts', true)
    ensures parts == parts'
  {
    assert |parts| == |parts'|;
    forall i | 0 <= i < |parts| ensures parts[i] == parts'[i] {
      var (p, p') := (parts[i], parts'[i]);
      assert p in parts && p' in parts';
      assert Printed(parts, true)[i] == Printed(parts', true)[i];
      FirstDelimiter(p.0.lower, p.1, p'.0.lower, p'.1, '=');
      assert TellApart(p.0, p'.0);
    }
  }

  lemma PrintedAreAtoms(parts: seq<Part>, names: seq<Name>)
    requires Distinguishable(names) && WellFormed(parts, names)
    ensures forall s | s in Printed(parts, true) :: '&' !in s
  {
    forall i | 0 <= i < |parts| ensures '&' !in Printed(parts, true)[i] {
      assert parts[i] in parts;
    }
  }

  /** A key has a question mark when there are parameters to print. */
  lemma KeyMarks(path: string, q: Query, names: seq<Name>)
    requires '?' !in path
    ensures '?' in CacheKey(path, q, names) <==> Parts(q, names) != []
  {
    if Parts(q, names) != [] {
      assert CacheKey(path, q, names)[|path|] == '?';
    }
  }

  /** Equal keys, equal paths and equal parameters. */
  lemma KeyDeterminesParts(path: string, q: Query, path': string, q': Query, names: seq<Name>)
    requires Distinguishable(names) && '?' !in path && '?' !in path'
    requires DelimiterFree(q, names) && DelimiterFree(q', names)
    requires CacheKey(path, q, names) == CacheKey(path', q', names)
    ensures path == path' && Parts(q, names) == Parts(q', names)
  {
    PartsAreWellFormed(q, names);
    PartsAreWellFormed(q', names);
    var (a, b) := (Parts(q, names), Parts(q', names));
    KeyMarks(path, q, names);
    KeyMarks(path', q', names);
    if a != [] && b != [] {
      FirstDelimiter(path, Join(Printed(a, true), "&"), path', Join(Printed(b, true), "&"), '?');
      PrintedAreAtoms(a, names);
      PrintedAreAtoms(b, names);
      SplitJoin(Printed(a, true), '&');
      SplitJoin(Printed(b, true), '&');
      PrintedInjective(a, b, names);
    }
  }

  /** Requests that share a cached payload would fetch the same payload. */
  lemma KeyDeterminesFetch(path: string, q: Query, path': string, q': Query, names: seq<Name>)
    requires Distinguishable(names) && '?' !in path && '?' !in path'
    requires DelimiterFree(q, names) && DelimiterFree(q', names)
    requires CacheKey(path, q, names) == CacheKey(path', q', names)
    ensures FetchPath(CacheKey(path, q, names), q, names) == FetchPath(CacheKey(path', q', names), q', names)
  {
    KeyDeterminesParts(path, q, path', q', names);
  }

  /** The fetch goes to the path of the request. */
  lemma FetchKeepsPath(path: string, q: Query, names: seq<Name>)
    requires '?' !in path
    ensures Split(CacheKey(path, q, names), '?')[0] == path
  {
    if Parts(q, names) == [] {
      SplitOne(path, '?');
    } else {
      SplitPrefix(path, '?', Join(Printed(Parts(q, names), true), "&"));
    }
  }

  // ----- what does not split an entry -----

  predicate SameChoice(v: Option<string>, v': Option<string>) {
    v.Some? == v'.Some? && (v.Some? ==> CanonicalValue(v.value) == CanonicalValue(v'.value))
  }

  ghost predicate SameSelection(q: Query, q': Query, names: seq<Name>) {
    forall name | name in names :: SameChoice(Pick(q, name), Pick(q', name))
  }

  lemma {:induction false} SamePartsOf(q: Query, q': Query, names: seq<Name>)
    requires SameSelection(q, q', names)
    ensures PartsOf(q, names) == PartsOf(q', names)
  {
    if names != [] {
      SamePartsOf(q, q', names[1..]);
      assert SameChoice(Pick(q, names[0]), Pick(q', names[0]));
    }
  }

  predicate SharesEntry(path: string, q: Query, q': Query, names: seq<Name>) {
    && CacheKey(path, q, names) == CacheKey(path, q', names)
    && FetchPath(CacheKey(path, q, names), q, names) == FetchPath(CacheKey(path, q', names), q', names)
  }

  /** Reordering or respacing a list of ids changes neither the key nor the fetch. */
  lemma ListOrderSharesEntry(path: string, q: Query, name: Name, v: string, v': string, names: seq<Name>)
    requires Distinguishable(names) && name in names
    requires Get(q, name.original) == Some(v) && ',' in v && ',' in v'
    requires multiset(IdList(v)) == multiset(IdList(v'))
    ensures SharesEntry(path, q, Put(q, name.original, v'), names)
  {
    var q' := Put(q, name.original, v');
    forall other | other in names ensures SameChoice(Pick(q, other), Pick(q', other)) {
      assert TellApart(other, name);
      ListOrderKeepsChoice(q, name, v, v', other);
    }
    SamePartsOf(q, q', names);
  }

  lemma ListOrderKeepsChoice(q: Query, name: Name, v: string, v': string, other: Name)
    requires TellApart(other, name)
    requires Get(q, name.original) == Some(v) && ',' in v && ',' in v'
    requires multiset(IdList(v)) == multiset(IdList(v'))
    ensures SameChoice(Pick(q, other), Pick(Put(q, name.original, v'), other))
  {
    if other == name {
      ListsAgree(v, v');
    } else {
      assert Pick(Put(q, name.original, v'), other) == Pick(q, other);
    }
  }

  /** Nor does spelling a parameter in lower case. */
  lemma LowerNameSharesEntry(path: string, q: Query, name: Name, v: string, names: seq<Name>)
    requires Distinguishable(names) && name in names && Get(q, name.original) == Some(v)
    ensures SharesEntry(path, q, Put(q - {name.original}, name.lower, v), names)
  {
    var q' := Put(q - {name.original}, name.lower, v);
    forall other | other in names ensures SameChoice(Pick(q, other), Pick(q', other)) {
      assert TellApart(other, name) && TellApart(name, other);
      if other != name {
        assert Pick(q', other) == Pick(q, other);
      }
    }
    SamePartsOf(q, q', names);
  }

  // ----- the parameters of a hub request -----

  function Named(original: string): Name {
    Name(original, ToAsciiLower(original))
  }

  const CONTENT := "contentDirectoryID"
  const PINNED := "pinnedContentDirectoryID"
  const START := "X-Plex-Container-Start"
  const SIZE := "X-Plex-Container-Size"

  function FourNames(a: string, b: string, c: string, d: string): seq<Name> {
    [Named(a), Named(b), Named(c), Named(d)]
  }

  ghost predicate IsPlain(s: string) {
    '=' !in s && '&' !in s
  }

  ghost predicate HasCapital(s: string, i: nat) {
    i < |s| && 'A' <= s[i] <= 'Z'
  }

  lemma LowerIsPlain(s: string)
    requires IsPlain(s)
    ensures IsPlain(ToAsciiLower(s))
  {
    forall c | c in ToAsciiLower(s) ensures c != '=' && c != '&' {
      var i :| 0 <= i < |s| && ToAsciiLower(s)[i] == c;
      assert s[i] in s;
    }
  }

  /** Names of different lengths, each with a capital, can be told apart. */
  lemma LengthsTellApart(a: string, i: nat, b: string, j: nat)
    requires HasCapital(a, i) && HasCapital(b, j) && (a == b || |a| != |b|)
    ensures TellApart(Named(a), Named(b))
  {
    assert |ToAsciiLower(a)| == |a| && |ToAsciiLower(b)| == |b|;
    assert !HasCapital(ToAsciiLower(a), i);
  }

  lemma NamesArePlain()
    ensures IsPlain(CONTENT) && IsPlain(START) && IsPlain(SIZE)
  {
  }

  lemma PinnedIsPlain()
    ensures IsPlain(PINNED)
  {
  }

  lemma NamesHaveCapitals()
    ensures HasCapital(CONTENT, 7) && |CONTENT| == 18
    ensures HasCapital(PINNED, 6) && |PINNED| == 24
    ensures HasCapital(START, 0) && |START| == 22
    ensures HasCapital(SIZE, 0) && |SIZE| == 21
  {
  }

  lemma FourDistinguishable(a: string, b: string, c: string, d: string, i: nat, j: nat, k: nat, l: nat)
    requires HasCapital(a, i) && HasCapital(b, j) && HasCapital(c, k) && HasCapital(d, l)
    requires |a| != |b| && |a| != |c| && |a| != |d| && |b| != |c| && |b| != |d| && |c| != |d|
    requires IsPlain(a) && IsPlain(b) && IsPlain(c) && IsPlain(d)
    ensures Distinguishable(FourNames(a, b, c, d))
  {
    var names := FourNames(a, b, c, d);
    forall x, y | x in names && y in names ensures TellApart(x, y) {
      var p := if x.original == a then i else if x.original == b then j else if x.original == c then k else l;
      var q := if y.original == a then i else if y.original == b then j else if y.original == c then k else l;
      LengthsTellApart(x.original, p, y.original, q);
    }
    forall x | x in names ensures '=' !in x.lower && '&' !in x.lower {
      LowerIsPlain(x.original);
    }
  }

  /** The four parameters can be told apart, so everything above applies to them. */
  lemma HubNamesAreDistinguishable(a: string, b: string, c: string, d: string)
    requires a == "contentDirectoryID" && b == "pinnedContentDirectoryID"
    requires c == "X-Plex-Container-Start" && d == "X-Plex-Container-Size"
    ensures Distinguishable(FourNames(a, b, c, d))
  {
    NamesArePlain();
    PinnedIsPlain();
    NamesHaveCapitals();
    FourDistinguishable(a, b, c, d, 7, 6, 0, 0);
  }
}
