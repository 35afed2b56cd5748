/** Hub requests whose cache keys agree although they ask Plex for different things: exactly when it
    happens (`cache_key_for_request` and `canonical_fetch_path`, src/routes.rs). Equal keys have equal
    paths, so one path is enough. */
module HubCollisions {
  import opened Text
  import opened Sorting
  import opened Queries
  import opened HubKeys
  import opened HubReadings

  // ----- different readings fetch different things -----

  ghost predicate SameLengths(names: seq<Name>) {
    forall n | n in names :: |n.lower| == |n.original|
  }

  /** Two words of one length that differ, differ somewhere. */
  lemma DifferSomewhere(a: string, b: string) returns (k: nat)
    requires |a| == |b| && a != b
    ensures k < |a| && a[k] != b[k]
  {
    k :| k < |a| && a[k] != b[k];
  }

  lemma PrefixAt(w: string, s: string, i: nat)
    ensures |w| <= |s| && s[..|w|] == w && i < |w| ==> s[i] == w[i]
  {
  }

  /** A value cannot end inside, or reach across, a mark that the two spellings print differently:
      `rest` and `rest'` are the two printings of what follows a name. */
  lemma NoLongerValue(v: string, x: Name, more: string, more': string, w: string, rest: string, rest': string)
    requires |x.lower| == |x.original| && x.lower != x.original && '&' !in x.lower
    requires rest == v + ("&" + x.lower + "=") + more && rest' == v + ("&" + x.original + "=") + more'
    requires |w| <= |rest| && |w| <= |rest'| && rest[..|w|] == w && rest'[..|w|] == w
    requires |w| < |rest| ==> rest[|w|] == '&'
    ensures |w| <= |v|
  {
    var k := DifferSomewhere(x.lower, x.original);
    var at := |v| + 1 + k;
    assert rest[at] == x.lower[k] && rest'[at] == x.original[k];
    assert forall i | |v| < i <= at :: rest[i] == x.lower[i - |v| - 1];
    PrefixAt(w, rest, at);
    PrefixAt(w, rest', at);
  }

  lemma ValueInFront(parts: seq<Part>, lower: bool)
    requires parts != []
    ensures var (w, rest) := (parts[0].1, FirstRest(parts, lower));
            |w| <= |rest| && rest[..|w|] == w && (|w| < |rest| ==> rest[|w|] == '&')
  {
  }

  lemma ShorterValueFails(parts: seq<Part>, other: seq<Part>, names: seq<Name>)
    requires Distinguishable(names) && SameLengths(names) && parts != [] && other != []
    requires forall p | p in parts :: p.0 in names
    requires FirstRest(parts, true) == FirstRest(other, true) && FirstRest(parts, false) == FirstRest(other, false)
    ensures |parts[0].1| >= |other[0].1|
  {
    ValueInFront(other, true);
    ValueInFront(other, false);
    if |parts| >= 2 {
      FirstRestParts(parts, true);
      FirstRestParts(parts, false);
      assert parts[1] in parts && TellApart(parts[1].0, parts[1].0);
      NoLongerValue(parts[0].1, parts[1].0, FirstRest(parts[1..], true), FirstRest(parts[1..], false),
        other[0].1, FirstRest(other, true), FirstRest(other, false));
    }
  }

  /** Printed both ways, the parameters can be read in one way only. */
  lemma {:induction false} BothPrintsDetermine(parts: seq<Part>, other: seq<Part>, names: seq<Name>)
    requires Distinguishable(names) && Distinct(names) && SameLengths(names)
    requires Listing(parts, names) && Listing(other, names)
    requires TextOf(parts, true) == TextOf(other, true) && TextOf(parts, false) == TextOf(other, false)
    ensures parts == other
    decreases |parts|
  {
    if parts == [] || other == [] {
      if parts != [] {
        TextUnfolds(parts, true);
      }
      if other != [] {
        TextUnfolds(other, true);
      }
    } else {
      SameFirstName(parts, other, names);
      TextUnfolds(parts, false);
      TextUnfolds(other, false);
      SameRest(parts[0].0.original + "=", FirstRest(parts, false), FirstRest(other, false));
      ListedNames(parts, names);
      ListedNames(other, names);
      ShorterValueFails(parts, other, names);
      ShorterValueFails(other, parts, names);
      ValueInFront(parts, true);
      ValueInFront(other, true);
      assert parts[0].1 == other[0].1;
      RestsDetermine(parts, other, names);
      assert parts == [parts[0]] + parts[1..] && other == [other[0]] + other[1..];
    }
  }

  lemma SameRest(front: string, rest: string, rest': string)
    requires front + rest == front + rest'
    ensures rest == rest'
  {
    assert (front + rest)[|front|..] == rest && (front + rest')[|front|..] == rest';
  }

  lemma {:induction false} RestsDetermine(parts: seq<Part>, other: seq<Part>, names: seq<Name>)
    requires Distinguishable(names) && Distinct(names) && SameLengths(names)
    requires Listing(parts, names) && Listing(other, names) && parts != [] && other != [] && parts[0] == other[0]
    requires FirstRest(parts, true) == FirstRest(other, true) && FirstRest(parts, false) == FirstRest(other, false)
    ensures parts[1..] == other[1..]
    decreases |parts|, 0
  {
    if |parts| >= 2 && |other| >= 2 {
      var later := After(parts[0].0, names);
      ListingUnfolds(parts, names);
      ListingUnfolds(other, names);
      SameRest(parts[0].1, "&" + TextOf(parts[1..], true), "&" + TextOf(other[1..], true));
      SameRest("&", TextOf(parts[1..], true), TextOf(other[1..], true));
      SameRest(parts[0].1, "&" + TextOf(parts[1..], false), "&" + TextOf(other[1..], false));
      SameRest("&", TextOf(parts[1..], false), TextOf(other[1..], false));
      BothPrintsDetermine(parts[1..], other[1..], later);
    }
  }

  // ----- requests that share a key and not the fetch -----

  lemma FetchText(parts: seq<Part>)
    requires parts != []
    ensures Join(Printed(parts, false) + ["includeGuids=1", "count=50"], "&")
         == TextOf(parts, false) + "&" + "includeGuids=1" + "&" + "count=50"
  {
    var printed := Printed(parts, false);
    assert printed + ["includeGuids=1", "count=50"] == printed + ["includeGuids=1"] + ["count=50"];
    JoinAppend(printed, "includeGuids=1", "&");
    JoinAppend(printed + ["includeGuids=1"], "count=50", "&");
  }

  lemma {:induction false} TextLengths(parts: seq<Part>, names: seq<Name>)
    requires SameLengths(names) && forall p | p in parts :: p.0 in names
    ensures |TextOf(parts, true)| == |TextOf(parts, false)|
  {
    if parts != [] {
      assert parts[0] in parts && forall p | p in parts[1..] :: p in parts;
      TextLengths(parts[1..], names);
      TextUnfolds(parts, true);
      TextUnfolds(parts, false);
    }
  }

  lemma SameFetchText(parts: seq<Part>, other: seq<Part>)
    requires parts != [] && other != [] && |TextOf(parts, false)| == |TextOf(other, false)|
    requires Join(Printed(parts, false) + ["includeGuids=1", "count=50"], "&")
          == Join(Printed(other, false) + ["includeGuids=1", "count=50"], "&")
    ensures TextOf(parts, false) == TextOf(other, false)
  {
    FetchText(parts);
    FetchText(other);
    var tail := "&" + "includeGuids=1" + "&" + "count=50";
    CutAt(TextOf(parts, false), TextOf(other, false), tail);
  }

  lemma CutAt(a: string, b: string, tail: string)
    requires |a| == |b|
    ensures a + tail == b + tail ==> a == b
    ensures a + "&" + "includeGuids=1" + "&" + "count=50" == a + ("&" + "includeGuids=1" + "&" + "count=50")
    ensures b + "&" + "includeGuids=1" + "&" + "count=50" == b + ("&" + "includeGuids=1" + "&" + "count=50")
  {
    assert (a + tail)[..|a|] == a && (b + tail)[..|b|] == b;
  }

  /** What the lemmas below ask of the parameter names. */
  ghost predicate Usable(names: seq<Name>) {
    Distinguishable(names) && Distinct(names) && SameLengths(names)
  }

  lemma OrderedIsUsable(names: seq<Name>)
    requires Usable(names)
    ensures Usable(Sort(NameOrder(), names))
  {
    SortMembers(NameOrder(), names);
    SortDistinct(names);
  }

  lemma PartsAreListed(q: Query, names: seq<Name>)
    ensures Listing(Parts(q, names), Sort(NameOrder(), names))
  {
    PartsFollowNames(q, names);
    CollectsListing(q, Sort(NameOrder(), names));
  }

  /** Two requests for one path with one key. */
  predicate SameKey(path: string, q: Query, q': Query, names: seq<Name>) {
    CacheKey(path, q, names) == CacheKey(path, q', names)
  }

  predicate SameFetch(path: string, q: Query, q': Query, names: seq<Name>) {
    FetchPath(CacheKey(path, q, names), q, names) == FetchPath(CacheKey(path, q', names), q', names)
  }

  lemma SameKeySameText(path: string, q: Query, q': Query, names: seq<Name>)
    requires '?' !in path
    ensures SameKey(path, q, q', names) <==>
              && (Parts(q, names) == [] <==> Parts(q', names) == [])
              && TextOf(Parts(q, names), true) == TextOf(Parts(q', names), true)
  {
    var (a, b) := (Parts(q, names), Parts(q', names));
    KeyMarks(path, q, names);
    KeyMarks(path, q', names);
    if a != [] && b != [] {
      if SameKey(path, q, q', names) {
        SameRest(path + "?", TextOf(a, true), TextOf(b, true));
      }
    }
  }

  /** With one key, the fetches agree exactly when the parameters do. */
  lemma FetchTellsParts(path: string, q: Query, q': Query, names: seq<Name>)
    requires '?' !in path && Usable(names) && SameKey(path, q, q', names)
    ensures SameFetch(path, q, q', names) <==> Parts(q, names) == Parts(q', names)
  {
    var (a, b) := (Parts(q, names), Parts(q', names));
    var ordered := Sort(NameOrder(), names);
    OrderedIsUsable(names);
    PartsAreListed(q, names);
    PartsAreListed(q', names);
    SameKeySameText(path, q, q', names);
    FetchKeepsPath(path, q, names);
    FetchKeepsPath(path, q', names);
    if SameFetch(path, q, q', names) && a != [] {
      ListedNames(a, ordered);
      ListedNames(b, ordered);
      TextLengths(a, ordered);
      TextLengths(b, ordered);
      SameRest(path + "?", Join(Printed(a, false) + ["includeGuids=1", "count=50"], "&"),
        Join(Printed(b, false) + ["includeGuids=1", "count=50"], "&"));
      SameFetchText(a, b);
      BothPrintsDetermine(a, b, ordered);
    }
  }

  predicate CollidesWith(path: string, q: Query, q': Query, names: seq<Name>) {
    SameKey(path, q, q', names) && !SameFetch(path, q, q', names)
  }

  ghost predicate Collides(path: string, q: Query, names: seq<Name>) {
    exists q' :: CollidesWith(path, q, q', names)
  }

  lemma CollisionMarks(path: string, q: Query, q': Query, names: seq<Name>)
    requires '?' !in path && Usable(names) && CollidesWith(path, q, q', names)
    ensures MarksLater(Parts(q, names), Sort(NameOrder(), names))
  {
    OrderedIsUsable(names);
    PartsAreListed(q, names);
    PartsAreListed(q', names);
    SameKeySameText(path, q, q', names);
    FetchTellsParts(path, q, q', names);
    OtherReadingMarks(Parts(q, names), Parts(q', names), Sort(NameOrder(), names));
  }

  /** The other readings of a request's parameters that some request asks for. */
  ghost predicate CanBeReread(parts: seq<Part>, names: seq<Name>) {
    parts != [] && exists r ::
      r in Readings(parts[0].0, FirstRest(parts, true), After(parts[0].0, names)) && r != parts && Canonical(r)
  }

  lemma RereadCollides(path: string, q: Query, r: seq<Part>, names: seq<Name>)
    requires '?' !in path && Usable(names) && Parts(q, names) != [] && r != Parts(q, names) && Canonical(r)
    requires r in Readings(Parts(q, names)[0].0, FirstRest(Parts(q, names), true),
                    After(Parts(q, names)[0].0, Sort(NameOrder(), names)))
    ensures CollidesWith(path, q, Asking(r), names)
  {
    var parts, ordered := Parts(q, names), Sort(NameOrder(), names);
    OrderedIsUsable(names);
    PartsAreListed(q, names);
    ListingUnfolds(parts, ordered);
    ReadingsRead(parts[0].0, FirstRest(parts, true), After(parts[0].0, ordered), r);
    assert r == [r[0]] + r[1..];
    ListingFolds(r[0], r[1..], ordered);
    TextUnfolds(parts, true);
    TextUnfolds(r, true);
    AskedFor(r, names);
    SameKeySameText(path, q, Asking(r), names);
    FetchTellsParts(path, q, Asking(r), names);
  }

  lemma CollisionRereads(path: string, q: Query, q': Query, names: seq<Name>)
    requires '?' !in path && Usable(names) && CollidesWith(path, q, q', names)
    ensures CanBeReread(Parts(q, names), Sort(NameOrder(), names))
  {
    var parts, other, ordered := Parts(q, names), Parts(q', names), Sort(NameOrder(), names);
    OrderedIsUsable(names);
    PartsAreListed(q, names);
    PartsAreListed(q', names);
    SameKeySameText(path, q, q', names);
    FetchTellsParts(path, q, q', names);
    PartsFollowNames(q', names);
    CollectsCanonical(q', ordered);
    SameFirstName(parts, other, ordered);
    ListingUnfolds(other, ordered);
    ListingUnfolds(parts, ordered);
    ReadIsReading(parts[0].0, FirstRest(parts, true), After(parts[0].0, ordered), other);
  }

  /** A request shares its key with one that fetches something else exactly when its parameters can
      be read in another way that is in canonical form. */
  lemma CollidesExactly(path: string, q: Query, names: seq<Name>)
    requires '?' !in path && Usable(names)
    ensures Collides(path, q, names) <==> CanBeReread(Parts(q, names), Sort(NameOrder(), names))
  {
    var parts, ordered := Parts(q, names), Sort(NameOrder(), names);
    if q' :| CollidesWith(path, q, q', names) {
      CollisionRereads(path, q, q', names);
    }
    if CanBeReread(parts, ordered) {
      var r :| r in Readings(parts[0].0, FirstRest(parts, true), After(parts[0].0, ordered)) && r != parts && Canonical(r);
      RereadCollides(path, q, r, names);
    }
  }

  lemma MarkedCollides(path: string, q: Query, names: seq<Name>) returns (q': Query)
    requires '?' !in path && Usable(names)
    requires MarksLater(Parts(q, names), Sort(NameOrder(), names)) && ',' !in TextOf(Parts(q, names), true)
    ensures CollidesWith(path, q, q', names)
  {
    OrderedIsUsable(names);
    PartsAreListed(q, names);
    var other := MarkedHasOtherReading(Parts(q, names), Sort(NameOrder(), names));
    q' := Asking(other);
    AskedFor(other, names);
    assert other != [] by {
      TextUnfolds(Parts(q, names), true);
    }
    SameKeySameText(path, q, q', names);
    FetchTellsParts(path, q, q', names);
  }

  /** This takes a delimiter followed by the name of a later parameter; and without lists of ids it
      takes no more. */
  lemma CollidesWhenMarked(path: string, q: Query, names: seq<Name>)
    requires '?' !in path && Usable(names)
    ensures Collides(path, q, names) ==> MarksLater(Parts(q, names), Sort(NameOrder(), names))
    ensures ',' !in TextOf(Parts(q, names), true) ==>
              (Collides(path, q, names) <==> MarksLater(Parts(q, names), Sort(NameOrder(), names)))
  {
    if q' :| CollidesWith(path, q, q', names) {
      CollisionMarks(path, q, q', names);
    }
    if MarksLater(Parts(q, names), Sort(NameOrder(), names)) && ',' !in TextOf(Parts(q, names), true) {
      var q' := MarkedCollides(path, q, names);
    }
  }

  // ----- the parameters of a hub request -----

  lemma {:induction false} InOrder(a: Name, b: Name, names: seq<Name>)
    requires Sorted(NameOrder(), names) && a in names && b in names
    requires StringLeq(a.original, b.original) && a.original != b.original
    ensures b in After(a, names)
  {
    if names[0] == b {
      var i :| 0 <= i < |names| && names[i] == a;
      assert NameOrder()(names[0], names[i]);
      StringLeqTotal(a.original, b.original);
    } else if names[0] != a {
      InOrder(a, b, names[1..]);
    }
  }

  /** Two parameters, and one whose value carries the delimiter and the second name: whatever the
      values, one key and two fetches. */
  lemma SmuggledParameterCollides(path: string, names: seq<Name>, a: Name, v: string, b: Name, w: string)
    requires '?' !in path && Usable(names) && a in names && b in names
    requires StringLeq(a.original, b.original) && a.original != b.original
    requires ',' !in v && ',' !in b.lower && ',' !in w
    ensures CollidesWith(path, Asking([(a, v), (b, w)]), Asking([(a, v + Mark(b) + w)]), names)
  {
    var one: seq<Part>, two: seq<Part> := [(a, v + Mark(b) + w)], [(a, v), (b, w)];
    var ordered := Sort(NameOrder(), names);
    OrderedIsUsable(names);
    SortMembers(NameOrder(), names);
    NameOrderIsTotal();
    SortOrders(NameOrder(), names);
    InOrder(a, b, ordered);
    TwoReadings(a, v, b, w, ordered);
    AskedFor(one, names);
    AskedFor(two, names);
    SameKeySameText(path, Asking(two), Asking(one), names);
    FetchTellsParts(path, Asking(two), Asking(one), names);
  }

  lemma FourAreDistinct(a: string, b: string, c: string, d: string)
    requires |a| != |b| && |a| != |c| && |a| != |d| && |b| != |c| && |b| != |d| && |c| != |d|
    ensures Distinct(FourNames(a, b, c, d)) && SameLengths(FourNames(a, b, c, d))
  {
    var (w, x, y, z) := (Named(a), Named(b), Named(c), Named(d));
    assert [z][1..] == [] && Distinct([z]);
    assert [y, z][1..] == [z] && Distinct([y, z]);
    assert [x, y, z][1..] == [y, z] && Distinct([x, y, z]);
    assert [w, x, y, z][1..] == [x, y, z] && Distinct([w, x, y, z]);
  }

  lemma HubNamesAreUsable(a: string, b: string, c: string, d: string)
    requires a == CONTENT && b == PINNED && c == START && d == SIZE
    ensures Usable(FourNames(a, b, c, d))
  {
    NamesHaveCapitals();
    FourAreDistinct(a, b, c, d);
    HubNamesAreDistinguishable(a, b, c, d);
  }

  lemma LowerKeepsOutCommas(s: string)
    requires ',' !in s
    ensures ',' !in ToAsciiLower(s)
  {
    forall c | c in ToAsciiLower(s) ensures c != ',' {
      var i :| 0 <= i < |s| && ToAsciiLower(s)[i] == c;
      assert s[i] in s;
    }
  }

  lemma PinnedHasNoComma()
    ensures ',' !in PINNED
  {
  }

  lemma ContentBeforePinned()
    ensures StringLeq(CONTENT, PINNED) && CONTENT != PINNED
  {
    assert CONTENT[0] == 'c' && PINNED[0] == 'p';
  }

  lemma FirstTwo(a: string, b: string, c: string, d: string)
    ensures Named(a) in FourNames(a, b, c, d) && Named(b) in FourNames(a, b, c, d)
  {
    assert FourNames(a, b, c, d)[0] == Named(a) && FourNames(a, b, c, d)[1] == Named(b);
  }

  /** So it is for the directory parameters of a hub request. */
  lemma HubRequestsCollide(path: string, v: string, w: string, a: string, b: string, c: string, d: string)
    requires a == CONTENT && b == PINNED && c == START && d == SIZE
    requires '?' !in path && ',' !in v && ',' !in w
    ensures CollidesWith(path, Asking([(Named(a), v), (Named(b), w)]), Asking([(Named(a), v + Mark(Named(b)) + w)]),
              FourNames(a, b, c, d))
  {
    HubNamesAreUsable(a, b, c, d);
    PinnedHasNoComma();
    ContentBeforePinned();
    LowerKeepsOutCommas(b);
    FirstTwo(a, b, c, d);
    SmuggledParameterCollides(path, FourNames(a, b, c, d), Named(a), v, Named(b), w);
  }
}
