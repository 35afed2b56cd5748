/** The keys under which library listings are cached (src/routes.rs). A query is its list of decoded
    name-value pairs; printing a key and hashing a token are taken to be injective. */
module LibraryKeys {
  import opened Prelude
  import opened Text
  import opened Sorting

  type Pair = (string, string)

  datatype Request = Request(path: string, tokenHeader: Option<string>, pairs: seq<Pair>)

  // ----- what does not matter -----

  predicate IsFieldShaping(lower: string) {
    lower == "includefields" || lower == "excludefields" || lower == "includegeolocation"
  }

  /** `is_library_key_noise`. */
  predicate IsKeyNoise(name: string) {
    var lower := ToAsciiLower(name);
    if lower == "x-plex-container-start" || lower == "x-plex-container-size" then false
    else StartsWith(lower, "x-plex-") || IsFieldShaping(lower)
  }

  /** `is_library_fetch_shaping`. */
  predicate IsFetchShaping(name: string) {
    IsFieldShaping(ToAsciiLower(name))
  }

  function Significant(): Pair -> bool {
    (p: Pair) => !IsKeyNoise(p.0)
  }

  function FetchKept(): Pair -> bool {
    (p: Pair) => !IsFetchShaping(p.0)
  }

  /** What is dropped from the fetch never counts in the key. */
  lemma ShapingIsNoise(name: string)
    requires IsFetchShaping(name)
    ensures IsKeyNoise(name)
  {
    var lower := ToAsciiLower(name);
    assert lower[0] != 'x';
  }

  // ----- canonical paths -----

  predicate PairLeq(a: Pair, b: Pair) {
    if a.0 == b.0 then StringLeq(a.1, b.1) else StringLeq(a.0, b.0)
  }

  function PairOrder(): (Pair, Pair) -> bool {
    (a: Pair, b: Pair) => PairLeq(a, b)
  }

  lemma PairOrderIsTotal()
    ensures TotalPreorder(PairOrder()) && Antisymmetric(PairOrder())
  {
    forall a: Pair, b: Pair
      ensures PairOrder()(a, b) || PairOrder()(b, a)
      ensures PairOrder()(a, b) && PairOrder()(b, a) ==> a == b
    {
      StringLeqTotal(a.0, b.0);
      StringLeqTotal(a.1, b.1);
    }
    forall a: Pair, b: Pair, c: Pair | PairOrder()(a, b) && PairOrder()(b, c) ensures PairOrder()(a, c) {
      PairTransitive(a, b, c);
    }
  }

  lemma PairTransitive(a: Pair, b: Pair, c: Pair)
    requires PairLeq(a, b) && PairLeq(b, c)
    ensures PairLeq(a, c)
  {
    if a.0 == b.0 == c.0 {
      StringLeqTransitive(a.1, b.1, c.1);
    } else if a.0 != b.0 && b.0 != c.0 {
      StringLeqTransitive(a.0, b.0, c.0);
      StringLeqTotal(a.0, b.0);
    }
  }

  function LowerNames(pairs: seq<Pair>): seq<Pair> {
    if pairs == [] then [] else [(ToAsciiLower(pairs[0].0), pairs[0].1)] + LowerNames(pairs[1..])
  }

  function Relevant(pairs: seq<Pair>): seq<Pair> {
    LowerNames(Filter(Significant(), pairs))
  }

  datatype Canonical = Canonical(path: string, pairs: seq<Pair>)

  /** `canonical_library_path`. */
  function CanonicalPath(path: string, pairs: seq<Pair>): Canonical {
    Canonical(path, Sort(PairOrder(), Relevant(pairs)))
  }

  /** Two requests share a canonical path exactly when their paths and their multisets of
      lower-cased significant pairs agree. */
  lemma SameCanonicalPath(path: string, pairs: seq<Pair>, path': string, pairs': seq<Pair>)
    ensures CanonicalPath(path, pairs) == CanonicalPath(path', pairs') <==>
              path == path' && multiset(Relevant(pairs)) == multiset(Relevant(pairs'))
  {
    PairOrderIsTotal();
    SortEqual(PairOrder(), Relevant(pairs), Relevant(pairs'));
  }

  lemma {:induction false} LowerNamesConcat(a: seq<Pair>, b: seq<Pair>)
    ensures LowerNames(a + b) == LowerNames(a) + LowerNames(b)
  {
    if a == [] {
      assert a + b == b;
    } else {
      assert (a + b)[1..] == a[1..] + b;
      LowerNamesConcat(a[1..], b);
    }
  }

  lemma RelevantConcat(a: seq<Pair>, b: seq<Pair>)
    ensures Relevant(a + b) == Relevant(a) + Relevant(b)
  {
    FilterConcat(Significant(), a, b);
    LowerNamesConcat(Filter(Significant(), a), Filter(Significant(), b));
  }

  lemma RelevantOne(p: Pair)
    ensures Relevant([p]) == if IsKeyNoise(p.0) then [] else [(ToAsciiLower(p.0), p.1)]
  {
    assert Filter(Significant(), [p]) == if IsKeyNoise(p.0) then [] else [p];
    assert [p][1..] == [] && LowerNames([p]) == [(ToAsciiLower(p.0), p.1)] + LowerNames([]);
  }

  /** One more parameter, anywhere, leaves the entry the same if and only if its name, in any case, is one
      of the three that shape fields, or starts with `x-plex-` and is none of the two that choose a page. */
  lemma NoiseNeverSplits(path: string, a: seq<Pair>, p: Pair, b: seq<Pair>)
    ensures var lower := ToAsciiLower(p.0);
            CanonicalPath(path, a + [p] + b) == CanonicalPath(path, a + b) <==>
              || lower in {"includefields", "excludefields", "includegeolocation"}
              || ("x-plex-" <= lower && lower !in {"x-plex-container-start", "x-plex-container-size"})
  {
    NoiseByName(p.0);
    SplitsUnlessNoise(path, a, p, b);
  }

  lemma SplitsUnlessNoise(path: string, a: seq<Pair>, p: Pair, b: seq<Pair>)
    ensures CanonicalPath(path, a + [p] + b) == CanonicalPath(path, a + b) <==> IsKeyNoise(p.0)
  {
    SameCanonicalPath(path, a + [p] + b, path, a + b);
    RelevantAround(a, p, b);
    RelevantOne(p);
    var without := multiset(Relevant(a + b));
    assert |multiset(Relevant([p])) + without| == |Relevant([p])| + |without|;
  }

  /** Two requests that differ in the value of one parameter share a canonical path if and only if the
      parameter's name, in any case, is one of the three that shape fields, or starts with `x-plex-`
      and is none of the two that choose a page. */
  lemma ValuesSplitExactly(path: string, a: seq<Pair>, name: string, value: string, value': string, b: seq<Pair>)
    requires value != value'
    ensures var lower := ToAsciiLower(name);
            CanonicalPath(path, a + [(name, value)] + b) == CanonicalPath(path, a + [(name, value')] + b) <==>
              || lower in {"includefields", "excludefields", "includegeolocation"}
              || ("x-plex-" <= lower && lower !in {"x-plex-container-start", "x-plex-container-size"})
  {
    NoiseByName(name);
    ValuesSplitUnlessNoise(path, a, name, value, value', b);
  }

  lemma NoiseByName(name: string)
    ensures var lower := ToAsciiLower(name);
            IsKeyNoise(name) <==>
              || lower in {"includefields", "excludefields", "includegeolocation"}
              || ("x-plex-" <= lower && lower !in {"x-plex-container-start", "x-plex-container-size"})
  {
    PagingIsNotShaping();
  }

  lemma ValuesSplitUnlessNoise(path: string, a: seq<Pair>, name: string, value: string, value': string, b: seq<Pair>)
    requires value != value'
    ensures CanonicalPath(path, a + [(name, value)] + b) == CanonicalPath(path, a + [(name, value')] + b) <==>
              IsKeyNoise(name)
  {
    var lower := ToAsciiLower(name);
    SameCanonicalPath(path, a + [(name, value)] + b, path, a + [(name, value')] + b);
    RelevantAround(a, (name, value), b);
    RelevantAround(a, (name, value'), b);
    RelevantOne((name, value));
    RelevantOne((name, value'));
    OneMore(Relevant(a + b), (lower, value), (lower, value'));
  }

  lemma OneMore(rest: seq<Pair>, p: Pair, q: Pair)
    requires p != q
    ensures multiset([p]) + multiset(rest) != multiset([q]) + multiset(rest)
  {
    assert (multiset([p]) + multiset(rest))[p] == 1 + multiset(rest)[p];
    assert (multiset([q]) + multiset(rest))[p] == multiset(rest)[p];
  }

  lemma PagingIsNotShaping()
    ensures "x-plex-container-start" !in {"includefields", "excludefields", "includegeolocation"}
    ensures "x-plex-container-size" !in {"includefields", "excludefields", "includegeolocation"}
  {
    assert "x-plex-container-start"[0] == 'x' && "x-plex-container-size"[0] == 'x';
    assert "includefields"[0] == 'i' && "excludefields"[0] == 'e' && "includegeolocation"[0] == 'i';
  }

  /** The order of the parameters never splits an entry. */
  lemma OrderNeverSplits(path: string, pairs: seq<Pair>, pairs': seq<Pair>)
    requires multiset(pairs) == multiset(pairs')
    ensures CanonicalPath(path, pairs) == CanonicalPath(path, pairs')
  {
    RelevantPermutes(pairs, pairs');
    SameCanonicalPath(path, pairs, path, pairs');
  }

  lemma TakeOut(s: seq<Pair>, p: Pair) returns (rest: seq<Pair>)
    requires p in s
    ensures multiset(s) == multiset{p} + multiset(rest)
    ensures multiset(Relevant(s)) == multiset(Relevant([p])) + multiset(Relevant(rest))
  {
    var i :| 0 <= i < |s| && s[i] == p;
    var a, b := s[..i], s[i + 1..];
    rest := a + b;
    assert s == a + [p] + b;
    RelevantAround(a, p, b);
  }

  lemma RelevantAround(a: seq<Pair>, p: Pair, b: seq<Pair>)
    ensures multiset(Relevant(a + [p] + b)) == multiset(Relevant([p])) + multiset(Relevant(a + b))
  {
    RelevantConcat(a + [p], b);
    RelevantConcat(a, [p]);
    RelevantConcat(a, b);
  }

  lemma {:induction false} RelevantPermutes(a: seq<Pair>, b: seq<Pair>)
    requires multiset(a) == multiset(b)
    ensures multiset(Relevant(a)) == multiset(Relevant(b))
    decreases |a|
  {
    if a == [] {
      assert |multiset(b)| == 0;
    } else {
      assert a[0] in multiset(b);
      var rest := TakeOut(b, a[0]);
      assert a == [a[0]] + a[1..];
      RelevantConcat([a[0]], a[1..]);
      assert multiset(a[1..]) == multiset(a) - multiset{a[0]};
      assert multiset(rest) == multiset(b) - multiset{a[0]};
      RelevantPermutes(a[1..], rest);
    }
  }

  /** Nor does the case of a name. */
  lemma LowerCaseNeverSplits(path: string, a: seq<Pair>, name: string, value: string, b: seq<Pair>)
    ensures CanonicalPath(path, a + [(name, value)] + b) == CanonicalPath(path, a + [(ToAsciiLower(name), value)] + b)
  {
    LowerIdempotent(name);
    RelevantOne((name, value));
    RelevantOne((ToAsciiLower(name), value));
    RelevantConcat(a + [(name, value)], b);
    RelevantConcat(a, [(name, value)]);
    RelevantConcat(a + [(ToAsciiLower(name), value)], b);
    RelevantConcat(a, [(ToAsciiLower(name), value)]);
  }

  // ----- normalising the fetch -----

  /** `normalize_library_fetch`. */
  function Normalized(r: Request): Request {
    r.(pairs := Filter(FetchKept(), r.pairs))
  }

  /** Of the parameters exactly the three that shape fields are dropped, under any spelling. */
  lemma NormalizedExactly(r: Request)
    ensures var r' := Normalized(r);
            && r'.path == r.path && r'.tokenHeader == r.tokenHeader
            && forall p :: multiset(r'.pairs)[p] ==
                 if ToAsciiLower(p.0) in {"includefields", "excludefields", "includegeolocation"} then 0
                 else multiset(r.pairs)[p]
  {
    forall p: Pair
      ensures multiset(Filter(FetchKept(), r.pairs))[p] == if FetchKept()(p) then multiset(r.pairs)[p] else 0
    {
      FilterCounts(FetchKept(), r.pairs, p);
    }
  }

  lemma {:induction false} FilterCounts(keep: Pair -> bool, s: seq<Pair>, p: Pair)
    ensures multiset(Filter(keep, s))[p] == if keep(p) then multiset(s)[p] else 0
  {
    if s != [] {
      FilterCounts(keep, s[1..], p);
      assert s == [s[0]] + s[1..];
    }
  }

  /** Normalising twice changes nothing more. */
  lemma NormalizedOnce(r: Request)
    ensures Normalized(Normalized(r)) == Normalized(r)
  {
    FilterFilter(FetchKept(), FetchKept(), FetchKept(), r.pairs);
  }

  /** The lookup before and the store after normalising agree on the canonical path. */
  lemma NormalizedKeepsCanonical(r: Request)
    ensures CanonicalPath(r.path, Normalized(r).pairs) == CanonicalPath(r.path, r.pairs)
  {
    forall p: Pair ensures Significant()(p) <==> FetchKept()(p) && Significant()(p) {
      if IsFetchShaping(p.0) {
        ShapingIsNoise(p.0);
      }
    }
    FilterFilter(FetchKept(), Significant(), Significant(), r.pairs);
  }

  // ----- tokens -----

  predicate IsTokenName(name: string) {
    ToAsciiLower(name) == "x-plex-token"
  }

  function NamesToken(): Pair -> bool {
    (p: Pair) => IsTokenName(p.0)
  }

  /** The first value under each spelling, as a multimap keeps them. */
  function FirstValues(pairs: seq<Pair>, seen: set<string>): seq<string> {
    if pairs == [] then []
    else (if pairs[0].0 in seen then [] else [pairs[0].1]) + FirstValues(pairs[1..], seen + {pairs[0].0})
  }

  function QueryTokens(r: Request): seq<string> {
    FirstValues(Filter(NamesToken(), r.pairs), {})
  }

  /** `request_token` may return `t`: the header wins; among several spellings in the query the
      multimap's arbitrary iteration order decides. */
  predicate MayRead(r: Request, t: Option<string>) {
    if r.tokenHeader.Some? then t == r.tokenHeader
    else if QueryTokens(r) == [] then t.None?
    else t.Some? && t.value in QueryTokens(r)
  }

  /** The first value under exactly this name. */
  function ValueOf(pairs: seq<Pair>, name: string): Option<string> {
    if pairs == [] then None else if pairs[0].0 == name then Some(pairs[0].1) else ValueOf(pairs[1..], name)
  }

  ghost predicate IsSpelled(pairs: seq<Pair>, seen: set<string>, name: string, token: string) {
    ToAsciiLower(name) == "x-plex-token" && name !in seen && ValueOf(pairs, name) == Some(token)
  }

  lemma {:induction false} FirstValuesExactly(pairs: seq<Pair>, seen: set<string>, token: string)
    ensures token in FirstValues(Filter(NamesToken(), pairs), seen) <==> exists name :: IsSpelled(pairs, seen, name, token)
  {
    if pairs != [] {
      var kept := Filter(NamesToken(), pairs[1..]);
      if IsTokenName(pairs[0].0) {
        assert ([pairs[0]] + kept)[1..] == kept;
        FirstValuesExactly(pairs[1..], seen + {pairs[0].0}, token);
        SpelledFirst(pairs, seen, token);
      } else {
        assert [] + kept == kept;
        FirstValuesExactly(pairs[1..], seen, token);
        SpelledLater(pairs, seen, token);
      }
    }
  }

  lemma SpelledLater(pairs: seq<Pair>, seen: set<string>, token: string)
    requires pairs != [] && !IsTokenName(pairs[0].0)
    ensures forall name :: IsSpelled(pairs, seen, name, token) <==> IsSpelled(pairs[1..], seen, name, token)
  {
  }

  lemma SpelledFirst(pairs: seq<Pair>, seen: set<string>, token: string)
    requires pairs != [] && IsTokenName(pairs[0].0)
    ensures (exists name :: IsSpelled(pairs, seen, name, token)) <==>
              || (pairs[0].0 !in seen && pairs[0].1 == token)
              || exists name :: IsSpelled(pairs[1..], seen + {pairs[0].0}, name, token)
  {
    assert forall name | name != pairs[0].0 ::
        IsSpelled(pairs, seen, name, token) <==> IsSpelled(pairs[1..], seen + {pairs[0].0}, name, token);
    assert IsSpelled(pairs, seen, pairs[0].0, token) <==> pairs[0].0 !in seen && pairs[0].1 == token;
  }

  /** The token read is the header's, or else the first value under one of the spellings of its name that
      the query has; there is none only without either. */
  lemma ReadsExactly(r: Request, token: string)
    ensures MayRead(r, Some(token)) <==>
              if r.tokenHeader.Some? then r.tokenHeader.value == token
              else exists name :: ToAsciiLower(name) == "x-plex-token" && ValueOf(r.pairs, name) == Some(token)
    ensures MayRead(r, None) <==>
              r.tokenHeader.None? && forall p | p in r.pairs :: ToAsciiLower(p.0) != "x-plex-token"
  {
    FirstValuesExactly(r.pairs, {}, token);
    assert forall name :: IsSpelled(r.pairs, {}, name, token) <==>
        ToAsciiLower(name) == "x-plex-token" && ValueOf(r.pairs, name) == Some(token);
    NoTokens(r.pairs);
  }

  lemma NoTokens(pairs: seq<Pair>)
    ensures FirstValues(Filter(NamesToken(), pairs), {}) == [] <==>
              forall p | p in pairs :: ToAsciiLower(p.0) != "x-plex-token"
  {
    var kept := Filter(NamesToken(), pairs);
    FilterKeeps(NamesToken(), pairs);
    assert kept != [] ==> kept[0] in kept;
    assert kept != [] ==> FirstValues(kept, {}) == [kept[0].1] + FirstValues(kept[1..], {} + {kept[0].0});
  }

  /** A token in the header, or one value under all spellings. */
  predicate Unambiguous(r: Request) {
    r.tokenHeader.Some? || forall i | 0 <= i < |QueryTokens(r)| :: QueryTokens(r)[i] == QueryTokens(r)[0]
  }

  lemma NormalizedKeepsTokens(r: Request)
    ensures QueryTokens(Normalized(r)) == QueryTokens(r)
  {
    forall p: Pair ensures NamesToken()(p) <==> FetchKept()(p) && NamesToken()(p) {
      if IsTokenName(p.0) {
        assert ToAsciiLower(p.0)[0] == 'x';
      }
    }
    FilterFilter(FetchKept(), NamesToken(), NamesToken(), r.pairs);
  }

  datatype LibraryKey = LibraryKey(scope: Option<string>, canonical: Canonical)

  /** `library_cache_key` may return `key`. */
  predicate MayKey(r: Request, key: LibraryKey) {
    MayRead(r, key.scope) && key.canonical == CanonicalPath(r.path, r.pairs)
  }

  ghost predicate KeysAgree(r: Request) {
    forall k, k' | MayKey(r, k) && MayKey(Normalized(r), k') :: k == k'
  }

  /** The entry stored for a request is the one that was looked up, whatever order the multimap
      iterates in, exactly when the request carries one token. */
  lemma LookupAndStoreAgree(r: Request)
    ensures KeysAgree(r) <==> Unambiguous(r)
  {
    NormalizedKeepsCanonical(r);
    NormalizedKeepsTokens(r);
    var tokens, canonical := QueryTokens(r), CanonicalPath(r.path, r.pairs);
    if KeysAgree(r) && r.tokenHeader.None? {
      forall i | 0 <= i < |tokens| ensures tokens[i] == tokens[0] {
        assert MayKey(r, LibraryKey(Some(tokens[i]), canonical));
        assert MayKey(Normalized(r), LibraryKey(Some(tokens[0]), canonical));
      }
    }
  }

  /** Any two spellings with different values split the two keys. */
  lemma TwoSpellingsSplit(path: string, name: string, a: string, name': string, b: string)
    requires IsTokenName(name) && IsTokenName(name') && name != name' && a != b
    ensures QueryTokens(Request(path, None, [(name, a), (name', b)])) == [a, b]
    ensures !KeysAgree(Request(path, None, [(name, a), (name', b)]))
  {
    var p: Pair, q: Pair := (name, a), (name', b);
    assert [p, q][1..] == [q] && [q][1..] == [];
    FilterAll(NamesToken(), [p, q]);
    assert FirstValues([q], {} + {name}) == [b] + FirstValues([], {} + {name} + {name'});
    assert FirstValues([p, q], {}) == [a] + FirstValues([q], {} + {name});
    var r := Request(path, None, [p, q]);
    assert QueryTokens(r) == [a, b] && QueryTokens(r)[1] != QueryTokens(r)[0];
    LookupAndStoreAgree(r);
  }

  const TOKEN := "x-plex-token"

  /** There are such spellings: the lower-case one, and the one with a capital. */
  lemma TwoSpellings()
    ensures IsTokenName(TOKEN) && IsTokenName("X" + TOKEN[1..]) && "X" + TOKEN[1..] != TOKEN
  {
    assert NoCapitals(TOKEN);
    CapitalIsLowered(TOKEN);
  }

  lemma CapitalIsLowered(name: string)
    requires NoCapitals(name) && name != "" && name[0] == 'x'
    ensures ToAsciiLower(name) == name == ToAsciiLower("X" + name[1..]) && "X" + name[1..] != name
  {
    LowerIsFixed(name);
    LowerIsFixed(name[1..]);
    assert ("X" + name[1..])[1..] == name[1..];
    assert ['x'] + name[1..] == name;
  }

  ghost predicate NoCapitals(s: string) {
    forall i | 0 <= i < |s| :: !('A' <= s[i] <= 'Z')
  }

  lemma LowerIsFixed(s: string)
    requires NoCapitals(s)
    ensures ToAsciiLower(s) == s
  {
  }

  /** The token of an unambiguous request. */
  function Token(r: Request): (t: Option<string>)
    requires Unambiguous(r)
    ensures MayRead(r, t)
    ensures forall t' :: MayRead(r, t') ==> t' == t
  {
    if r.tokenHeader.Some? then r.tokenHeader
    else if QueryTokens(r) == [] then None
    else Some(QueryTokens(r)[0])
  }

  function Key(r: Request): (key: LibraryKey)
    requires Unambiguous(r)
    ensures MayKey(r, key)
  {
    LibraryKey(Token(r), CanonicalPath(r.path, r.pairs))
  }
}
