/** The text of a hub cache key read back: lists of parameters, the requests that ask for them, and the
    ways one text can be read (`cache_key_for_request`, src/routes.rs). */
module HubReadings {
  import opened Prelude
  import opened Text
  import opened Sorting
  import opened Queries
  import opened HubKeys

  // ----- parameters in the order of their names -----

  function NameOrder(): (Name, Name) -> bool {
    (a: Name, b: Name) => StringLeq(a.original, b.original)
  }

  lemma NameOrderIsTotal()
    ensures TotalPreorder(NameOrder())
  {
    forall a: Name, b: Name ensures NameOrder()(a, b) || NameOrder()(b, a) {
      StringLeqTotal(a.original, b.original);
    }
    forall a: Name, b: Name, c: Name | NameOrder()(a, b) && NameOrder()(b, c) ensures NameOrder()(a, c) {
      StringLeqTransitive(a.original, b.original, c.original);
    }
  }

  /** A name no later than all of `names` has its part in front. */
  lemma {:induction false} InsertInFront(q: Query, part: Part, names: seq<Name>)
    requires forall n | n in names :: NameOrder()(part.0, n)
    ensures Insert(ByName(), part, PartsOf(q, names)) == [part] + PartsOf(q, names)
  {
    if names != [] {
      InsertInFront(q, part, names[1..]);
      assert names[0] in names;
      assert Pick(q, names[0]).None? ==> PartsOf(q, names) == [] + PartsOf(q, names[1..]) == PartsOf(q, names[1..]);
    }
  }

  lemma PartsCons(q: Query, name: Name, names: seq<Name>)
    ensures PartsOf(q, [name] + names) == Collected(q, name) + PartsOf(q, names)
  {
    assert ([name] + names)[1..] == names;
  }

  /** A part is inserted behind one with an earlier name. */
  lemma InsertBehind(part: Part, first: seq<Part>, rest: seq<Part>)
    requires |first| <= 1 && forall p | p in first :: !ByName()(part, p)
    ensures Insert(ByName(), part, first + rest) == first + Insert(ByName(), part, rest)
  {
    if first == [] {
      assert first + rest == rest;
    } else {
      assert first[0] in first && (first + rest)[1..] == rest && first == [first[0]];
    }
  }

  /** Parts inserted in front, if there are any. */
  function InsertAll(parts: seq<Part>, into: seq<Part>): seq<Part>
    requires |parts| <= 1
  {
    if parts == [] then into else Insert(ByName(), parts[0], into)
  }

  lemma {:induction false} InsertCommutes(q: Query, name: Name, names: seq<Name>)
    requires Sorted(NameOrder(), names)
    ensures PartsOf(q, Insert(NameOrder(), name, names)) == InsertAll(Collected(q, name), PartsOf(q, names))
  {
    NameOrderIsTotal();
    if names == [] || NameOrder()(name, names[0]) {
      PartsCons(q, name, names);
      forall n | n in names ensures NameOrder()(name, n) {
        var i :| 0 <= i < |names| && names[i] == n;
        assert i == 0 || NameOrder()(names[0], names[i]);
      }
      if Collected(q, name) != [] {
        InsertInFront(q, Collected(q, name)[0], names);
      }
    } else {
      InsertCommutes(q, name, names[1..]);
      PartsCons(q, names[0], Insert(NameOrder(), name, names[1..]));
      if Collected(q, name) != [] {
        InsertBehind(Collected(q, name)[0], Collected(q, names[0]), PartsOf(q, names[1..]));
      }
    }
  }

  /** Sorting what was collected is collecting in the order of the names. */
  lemma {:induction false} PartsFollowNames(q: Query, names: seq<Name>)
    ensures Parts(q, names) == PartsOf(q, Sort(NameOrder(), names))
  {
    if names != [] {
      PartsFollowNames(q, names[1..]);
      NameOrderIsTotal();
      SortOrders(NameOrder(), names[1..]);
      InsertCommutes(q, names[0], Sort(NameOrder(), names[1..]));
      if Pick(q, names[0]).None? {
        assert [] + PartsOf(q, names[1..]) == PartsOf(q, names[1..]);
      }
    }
  }

  predicate Distinct(names: seq<Name>) {
    names == [] || (names[0] !in names[1..] && Distinct(names[1..]))
  }

  lemma {:induction false} InsertDistinct(name: Name, names: seq<Name>)
    requires Distinct(names) && name !in names
    ensures Distinct(Insert(NameOrder(), name, names))
  {
    if names == [] || NameOrder()(name, names[0]) {
      assert ([name] + names)[1..] == names;
    } else {
      InsertDistinct(name, names[1..]);
      InsertMembers(NameOrder(), name, names[1..]);
      assert ([names[0]] + Insert(NameOrder(), name, names[1..]))[1..] == Insert(NameOrder(), name, names[1..]);
    }
  }

  lemma {:induction false} SortDistinct(names: seq<Name>)
    requires Distinct(names)
    ensures Distinct(Sort(NameOrder(), names))
  {
    if names != [] {
      SortDistinct(names[1..]);
      SortMembers(NameOrder(), names[1..]);
      InsertDistinct(names[0], Sort(NameOrder(), names[1..]));
    }
  }

  // ----- lists of parts -----

  /** The parts carry some of the names, in their order. */
  predicate Listing(parts: seq<Part>, names: seq<Name>)
    decreases names
  {
    parts == [] ||
    (names != [] && ((parts[0].0 == names[0] && Listing(parts[1..], names[1..])) || Listing(parts, names[1..])))
  }

  lemma {:induction false} CollectsListing(q: Query, names: seq<Name>)
    ensures Listing(PartsOf(q, names), names)
  {
    if names != [] {
      CollectsListing(q, names[1..]);
      if Pick(q, names[0]).Some? {
        assert PartsOf(q, names)[1..] == PartsOf(q, names[1..]);
      } else {
        assert PartsOf(q, names) == PartsOf(q, names[1..]);
      }
    }
  }

  /** The names after a given one. */
  function After(name: Name, names: seq<Name>): (r: seq<Name>)
    ensures name in names ==> |r| < |names|
  {
    if names == [] then [] else if names[0] == name then names[1..] else After(name, names[1..])
  }

  lemma {:induction false} ListingUnfolds(parts: seq<Part>, names: seq<Name>)
    requires parts != [] && Distinct(names) && Listing(parts, names)
    ensures parts[0].0 in names && Listing(parts[1..], After(parts[0].0, names))
    ensures |After(parts[0].0, names)| < |names| && Distinct(After(parts[0].0, names))
    ensures forall n | n in After(parts[0].0, names) :: n in names
    decreases names
  {
    if !(parts[0].0 == names[0] && Listing(parts[1..], names[1..])) {
      ListingUnfolds(parts, names[1..]);
      assert parts[0].0 in names[1..];
    }
  }

  lemma {:induction false} ListingFolds(part: Part, parts: seq<Part>, names: seq<Name>)
    requires part.0 in names && Listing(parts, After(part.0, names))
    ensures Listing([part] + parts, names)
    decreases names
  {
    assert ([part] + parts)[1..] == parts;
    if names[0] != part.0 {
      ListingFolds(part, parts, names[1..]);
    }
  }

  /** What `parts` say about a name. */
  function ValueOf(parts: seq<Part>, name: Name): Option<string> {
    if parts == [] then None else if parts[0].0 == name then Some(parts[0].1) else ValueOf(parts[1..], name)
  }

  lemma {:induction false} OnlyListedNames(parts: seq<Part>, names: seq<Name>, name: Name)
    requires Listing(parts, names) && name !in names
    ensures ValueOf(parts, name) == None
    decreases names
  {
    if parts != [] {
      assert names[0] in names;
      if parts[0].0 == names[0] && Listing(parts[1..], names[1..]) {
        OnlyListedNames(parts[1..], names[1..], name);
      } else {
        OnlyListedNames(parts, names[1..], name);
      }
    }
  }

  /** Values that are already in canonical form; those without a comma are. */
  ghost predicate Canonical(parts: seq<Part>) {
    forall p | p in parts :: CanonicalValue(p.1) == p.1
  }

  ghost predicate CommaFree(parts: seq<Part>) {
    forall p | p in parts :: ',' !in p.1
  }

  lemma {:induction false} TrimmedStay(ids: seq<string>)
    requires forall id | id in ids :: id != "" && Trim(id) == id
    ensures Trimmed(ids) == ids
  {
    if ids != [] {
      assert ids[0] in ids && forall id | id in ids[1..] :: id in ids;
      TrimmedStay(ids[1..]);
    }
  }

  lemma {:induction false} TrimmedAreTrim(parts: seq<string>)
    ensures forall id | id in Trimmed(parts) :: Trim(id) == id
  {
    if parts != [] {
      TrimOnce(parts[0]);
      TrimmedAreTrim(parts[1..]);
    }
  }

  /** Canonical values are left alone. */
  lemma CanonicalOnce(value: string)
    ensures CanonicalValue(CanonicalValue(value)) == CanonicalValue(value)
  {
    var ids := Sort(Alphabetic(), IdList(value));
    if ',' in value && ',' in Join(ids, ",") {
      AlphabeticIsTotal();
      SortMembers(Alphabetic(), IdList(value));
      SortOrders(Alphabetic(), IdList(value));
      TrimmedAreIds(Split(value, ','));
      TrimmedAreTrim(Split(value, ','));
      SplitJoin(ids, ',');
      TrimmedStay(ids);
      SortOrders(Alphabetic(), ids);
      SortedUnique(Alphabetic(), Sort(Alphabetic(), ids), ids);
    }
  }

  lemma {:induction false} CollectsCanonical(q: Query, names: seq<Name>)
    ensures Canonical(PartsOf(q, names))
  {
    if names != [] {
      CollectsCanonical(q, names[1..]);
      if Pick(q, names[0]).Some? {
        CanonicalOnce(Pick(q, names[0]).value);
      }
    }
  }

  ghost predicate Says(q: Query, parts: seq<Part>, names: seq<Name>) {
    forall n | n in names :: Pick(q, n) == ValueOf(parts, n)
  }

  lemma SaysLess(q: Query, parts: seq<Part>, names: seq<Name>)
    requires names != [] && Distinct(names) && Says(q, parts, names) && parts != [] && parts[0].0 == names[0]
    ensures Says(q, parts[1..], names[1..])
  {
    forall n | n in names[1..] ensures Pick(q, n) == ValueOf(parts[1..], n) {
      assert n in names && n != names[0];
    }
  }

  /** A query that says what the parts say has these parts. */
  lemma {:induction false} CollectsWhatIsSaid(q: Query, parts: seq<Part>, names: seq<Name>)
    requires Distinct(names) && Listing(parts, names) && Canonical(parts) && Says(q, parts, names)
    ensures PartsOf(q, names) == parts
    decreases names
  {
    if names != [] {
      assert names[0] in names;
      if parts != [] && parts[0].0 == names[0] {
        ListingUnfolds(parts, names);
        SaysLess(q, parts, names);
        forall p | p in parts[1..] ensures CanonicalValue(p.1) == p.1 {
          assert p in parts;
        }
        CollectsWhatIsSaid(q, parts[1..], names[1..]);
        assert parts[0] in parts;
        assert PartsOf(q, names) == [parts[0]] + parts[1..];
      } else {
        OnlyListedNames(parts, names[1..], names[0]);
        forall n | n in names[1..] ensures Pick(q, n) == ValueOf(parts, n) {
          assert n in names;
        }
        CollectsWhatIsSaid(q, parts, names[1..]);
      }
    }
  }

  /** The request with the given parts. */
  function Asking(parts: seq<Part>): Query {
    if parts == [] then map[] else Asking(parts[1..])[parts[0].0.original := [parts[0].1]]
  }

  lemma {:induction false} AskingSays(parts: seq<Part>, names: seq<Name>, n: Name)
    requires Distinguishable(names) && n in names && forall p | p in parts :: p.0 in names
    ensures Get(Asking(parts), n.original) == ValueOf(parts, n)
    ensures Get(Asking(parts), n.lower) == None
  {
    if parts != [] {
      assert parts[0] in parts && forall p | p in parts[1..] :: p in parts;
      AskingSays(parts[1..], names, n);
      assert TellApart(n, parts[0].0);
    }
  }

  lemma {:induction false} ListedNames(parts: seq<Part>, names: seq<Name>)
    requires Listing(parts, names)
    ensures forall p | p in parts :: p.0 in names
    decreases names
  {
    if parts != [] {
      if parts[0].0 == names[0] && Listing(parts[1..], names[1..]) {
        ListedNames(parts[1..], names[1..]);
        assert parts == [parts[0]] + parts[1..];
      } else {
        ListedNames(parts, names[1..]);
      }
    }
  }

  /** Every list of canonical parts is asked for by some request. */
  lemma AskedFor(parts: seq<Part>, names: seq<Name>)
    requires Distinguishable(names) && Distinct(names) && Canonical(parts)
    requires Listing(parts, Sort(NameOrder(), names))
    ensures Parts(Asking(parts), names) == parts
  {
    var ordered := Sort(NameOrder(), names);
    SortMembers(NameOrder(), names);
    SortDistinct(names);
    ListedNames(parts, ordered);
    PartsFollowNames(Asking(parts), names);
    forall n | n in ordered ensures Pick(Asking(parts), n) == ValueOf(parts, n) {
      AskingSays(parts, names, n);
    }
    CollectsWhatIsSaid(Asking(parts), parts, ordered);
  }

  // ----- the text of a list of parts -----

  function TextOf(parts: seq<Part>, lower: bool): string {
    Join(Printed(parts, lower), "&")
  }

  /** What follows the first name and its equals sign. */
  function FirstRest(parts: seq<Part>, lower: bool): string
    requires parts != []
  {
    parts[0].1 + if |parts| == 1 then "" else "&" + TextOf(parts[1..], lower)
  }

  function Spelling(name: Name, lower: bool): string {
    if lower then name.lower else name.original
  }

  lemma TextUnfolds(parts: seq<Part>, lower: bool)
    requires parts != []
    ensures TextOf(parts, lower) == Spelling(parts[0].0, lower) + "=" + FirstRest(parts, lower)
  {
    var printed := Printed(parts, lower);
    assert printed[0] == PrintedPart(parts[0], lower) && printed[1..] == Printed(parts[1..], lower);
    if |parts| == 1 {
      assert printed == [printed[0]] && FirstRest(parts, lower) == parts[0].1;
    }
  }

  lemma SameFirstName(parts: seq<Part>, other: seq<Part>, names: seq<Name>)
    requires Distinguishable(names) && Distinct(names) && Listing(parts, names) && Listing(other, names)
    requires parts != [] && other != [] && TextOf(parts, true) == TextOf(other, true)
    ensures parts[0].0 == other[0].0 && FirstRest(parts, true) == FirstRest(other, true)
  {
    ListingUnfolds(parts, names);
    ListingUnfolds(other, names);
    TextUnfolds(parts, true);
    TextUnfolds(other, true);
    FirstDelimiter(parts[0].0.lower, FirstRest(parts, true), other[0].0.lower, FirstRest(other, true), '=');
    assert TellApart(parts[0].0, other[0].0);
  }

  // ----- when a key can be read in two ways -----

  predicate OccursAt(s: string, t: string, i: nat) {
    i <= |s| && t <= s[i..]
  }

  ghost predicate Occurs(s: string, t: string) {
    exists i: nat :: OccursAt(s, t, i)
  }

  function Mark(name: Name): string {
    "&" + name.lower + "="
  }

  /** A delimiter followed by the name of a later parameter occurs in the text. */
  ghost predicate MarksLater(parts: seq<Part>, names: seq<Name>) {
    parts != [] && exists x :: x in After(parts[0].0, names) && Occurs(TextOf(parts, true), Mark(x))
  }

  lemma OccursInside(before: string, t: string, after: string)
    ensures Occurs(before + t + after, t)
  {
    var s := before + t + after;
    assert s[|before|..] == t + after;
    assert OccursAt(s, t, |before|);
  }

  /** A second parameter marks itself. */
  lemma SecondMarks(parts: seq<Part>, names: seq<Name>)
    requires |parts| >= 2 && Distinct(names) && Listing(parts, names)
    ensures MarksLater(parts, names)
  {
    ListingUnfolds(parts, names);
    ListingUnfolds(parts[1..], After(parts[0].0, names));
    SecondText(parts, true);
    OccursInside(parts[0].0.lower + "=" + parts[0].1, Mark(parts[1].0), FirstRest(parts[1..], true));
    assert parts[1].0 in After(parts[0].0, names);
  }

  /** The text up to the second name, the second name, and the rest. */
  lemma SecondText(parts: seq<Part>, lower: bool)
    requires |parts| >= 2
    ensures TextOf(parts, lower) ==
              (Spelling(parts[0].0, lower) + "=" + parts[0].1)
              + ("&" + Spelling(parts[1].0, lower) + "=") + FirstRest(parts[1..], lower)
  {
    TextUnfolds(parts, lower);
    TextUnfolds(parts[1..], lower);
    Reassociate(Spelling(parts[0].0, lower), parts[0].1, Spelling(parts[1].0, lower), FirstRest(parts[1..], lower));
  }

  lemma Reassociate(a: string, v: string, b: string, rest: string)
    ensures a + "=" + (v + ("&" + (b + "=" + rest))) == (a + "=" + v) + ("&" + b + "=") + rest
  {
  }

  lemma OtherReadingMarks(parts: seq<Part>, other: seq<Part>, names: seq<Name>)
    requires Distinguishable(names) && Distinct(names) && Listing(parts, names) && Listing(other, names)
    requires parts != other && TextOf(parts, true) == TextOf(other, true)
    ensures MarksLater(parts, names)
  {
    if parts == [] {
      TextUnfolds(other, true);
    } else if other == [] {
      TextUnfolds(parts, true);
    } else {
      SingleReading(parts, other, names);
      SameFirstName(parts, other, names);
      if |parts| >= 2 {
        SecondMarks(parts, names);
      } else {
        SecondMarks(other, names);
      }
    }
  }

  lemma SingleReading(parts: seq<Part>, other: seq<Part>, names: seq<Name>)
    requires Distinguishable(names) && Distinct(names) && Listing(parts, names) && Listing(other, names)
    requires parts != [] && other != [] && TextOf(parts, true) == TextOf(other, true)
    ensures |parts| == |other| == 1 ==> parts == other
  {
    SameFirstName(parts, other, names);
    if |parts| == |other| == 1 {
      assert parts[0].1 == FirstRest(parts, true) == FirstRest(other, true) == other[0].1;
    }
  }

  lemma CutAtMark(rest: string, x: Name, i: nat)
    requires OccursAt(rest, Mark(x), i)
    ensures i + |Mark(x)| <= |rest|
    ensures rest == rest[..i] + Mark(x) + rest[i + |Mark(x)|..]
  {
    assert rest[i..][..|Mark(x)|] == Mark(x);
  }

  /** Where a mark stands, the text splits into a first value and a later parameter. */
  lemma SplitAtMark(first: Name, rest: string, x: Name) returns (a: string, b: string)
    requires '&' !in first.lower && Occurs(first.lower + "=" + rest, Mark(x))
    ensures rest == a + Mark(x) + b
  {
    var s := first.lower + "=" + rest;
    var i: nat :| OccursAt(s, Mark(x), i);
    var n := |first.lower| + 1;
    assert s[i] == s[i..][0] == '&';
    assert forall j | 0 <= j < |first.lower| :: s[j] == first.lower[j];
    assert s[|first.lower|] == '=' && i >= n;
    assert s[i..] == rest[i - n..];
    CutAtMark(rest, x, i - n);
    a, b := rest[..i - n], rest[i - n + |Mark(x)|..];
  }

  /** The whole rest as one value, or split at a mark: both read the same. */
  lemma TwoReadings(first: Name, a: string, x: Name, b: string, names: seq<Name>)
    requires Distinct(names) && first in names && x in After(first, names)
    ensures var (one, two) := ([(first, a + Mark(x) + b)], [(first, a), (x, b)]);
            && Listing(one, names) && Listing(two, names) && one != two
            && TextOf(one, true) == TextOf(two, true) == first.lower + "=" + (a + Mark(x) + b)
  {
    var one: seq<Part>, two: seq<Part> := [(first, a + Mark(x) + b)], [(first, a), (x, b)];
    assert one == [one[0]] + [] && two == [two[0]] + ([two[1]] + []);
    ListingFolds(one[0], [], names);
    ListingFolds(two[1], [], After(first, names));
    ListingFolds(two[0], [two[1]] + [], names);
    TextUnfolds(one, true);
    TextUnfolds(two, true);
    assert two[1..] == [two[1]];
    TextUnfolds([two[1]], true);
    assert FirstRest(two, true) == a + ("&" + (x.lower + "=" + (b + "")));
    assert FirstRest(two, true) == FirstRest(one, true) == a + Mark(x) + b;
  }

  ghost predicate HasOtherReading(parts: seq<Part>, names: seq<Name>) {
    exists other :: OtherReading(parts, other, names)
  }

  predicate OtherReading(parts: seq<Part>, other: seq<Part>, names: seq<Name>) {
    Listing(other, names) && other != parts && TextOf(other, true) == TextOf(parts, true)
  }

  lemma MarkedHasOtherReading(parts: seq<Part>, names: seq<Name>) returns (other: seq<Part>)
    requires Distinguishable(names) && Distinct(names) && Listing(parts, names) && MarksLater(parts, names)
    ensures OtherReading(parts, other, names)
    ensures ',' !in TextOf(parts, true) ==> CommaFree(other)
  {
    var first := parts[0].0;
    var x :| x in After(first, names) && Occurs(TextOf(parts, true), Mark(x));
    ListingUnfolds(parts, names);
    TextUnfolds(parts, true);
    var a, b := SplitAtMark(first, FirstRest(parts, true), x);
    TwoReadings(first, a, x, b, names);
    other := if parts == [(first, a), (x, b)] then [(first, a + Mark(x) + b)] else [(first, a), (x, b)];
  }

  /** The parameters behind a key can be read in another way exactly when a delimiter followed by
      the name of a later parameter occurs in it. */
  lemma KeyIsSharedExactly(parts: seq<Part>, names: seq<Name>)
    requires Distinguishable(names) && Distinct(names) && Listing(parts, names)
    ensures HasOtherReading(parts, names) <==> MarksLater(parts, names)
  {
    if other :| OtherReading(parts, other, names) {
      OtherReadingMarks(parts, other, names);
    }
    if MarksLater(parts, names) {
      var other := MarkedHasOtherReading(parts, names);
    }
  }

  lemma FirstRestParts(parts: seq<Part>, lower: bool)
    requires |parts| >= 2
    ensures FirstRest(parts, lower) ==
              parts[0].1 + ("&" + Spelling(parts[1].0, lower) + "=") + FirstRest(parts[1..], lower)
  {
    TextUnfolds(parts[1..], lower);
    var (v, x, rest) := (parts[0].1, Spelling(parts[1].0, lower), FirstRest(parts[1..], lower));
    assert v + ("&" + (x + "=" + rest)) == v + ("&" + x + "=") + rest;
  }

  // ----- every reading of a text -----

  /** All the ways to read what follows a first name: as its value, or up to a mark of a later name
      and on from there. */
  function Readings(first: Name, rest: string, later: seq<Name>): set<seq<Part>>
    decreases |later|
  {
    {[(first, rest)]} +
    set x, i, r | x in later && 0 <= i <= |rest| && OccursAt(rest, Mark(x), i)
                  && r in Readings(x, rest[i + |Mark(x)|..], After(x, later)) :: [(first, rest[..i])] + r
  }

  lemma {:induction false} ReadingsRead(first: Name, rest: string, later: seq<Name>, r: seq<Part>)
    requires Distinct(later) && r in Readings(first, rest, later)
    ensures r != [] && r[0].0 == first && FirstRest(r, true) == rest && Listing(r[1..], later)
    decreases |later|
  {
    if r == [(first, rest)] {
      assert r[1..] == [] && rest + "" == rest;
    } else {
      var x, i, s :| x in later && 0 <= i <= |rest| && OccursAt(rest, Mark(x), i)
                     && s in Readings(x, rest[i + |Mark(x)|..], After(x, later)) && r == [(first, rest[..i])] + s;
      AfterDistinct(x, later);
      ReadingsRead(x, rest[i + |Mark(x)|..], After(x, later), s);
      assert r[1..] == s && s == [s[0]] + s[1..];
      ListingFolds(s[0], s[1..], later);
      CutAtMark(rest, x, i);
      FirstRestParts(r, true);
    }
  }

  lemma {:induction false} AfterDistinct(x: Name, names: seq<Name>)
    requires Distinct(names)
    ensures Distinct(After(x, names))
  {
    if names != [] && names[0] != x {
      AfterDistinct(x, names[1..]);
    }
  }

  lemma {:induction false} ReadIsReading(first: Name, rest: string, later: seq<Name>, r: seq<Part>)
    requires Distinct(later) && r != [] && r[0].0 == first && FirstRest(r, true) == rest && Listing(r[1..], later)
    ensures r in Readings(first, rest, later)
    decreases |later|
  {
    if |r| == 1 {
      assert r == [r[0]] && r[0].1 + "" == r[0].1;
    } else {
      var s, i := r[1..], |r[0].1|;
      var x := s[0].0;
      ListingUnfolds(s, later);
      FirstRestParts(r, true);
      assert rest == r[0].1 + Mark(x) + FirstRest(s, true);
      assert rest[i..] == Mark(x) + FirstRest(s, true) && OccursAt(rest, Mark(x), i);
      assert rest[i + |Mark(x)|..] == FirstRest(s, true) && rest[..i] == r[0].1;
      ReadIsReading(x, FirstRest(s, true), After(x, later), s);
      assert r == [(first, rest[..i])] + s;
    }
  }
}
