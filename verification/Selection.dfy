/** Choosing a media version (src/playback_selection.rs and `best_allowed_media` in
    src/resolution_policy.rs). */
module Selection {
  import opened Prelude
  import opened Text
  import opened Sorting
  import opened Models
  import opened ResolutionPolicies

  const U128_MAX: nat := 0xFFFF_FFFF_FFFF_FFFF_FFFF_FFFF_FFFF_FFFF

  /** `usize` is 64 bits wide. */
  function ParseIndex(value: string): Option<nat> {
    ParseUnsigned(value, U64_MAX)
  }

  /** `requested_media_index`. */
  function RequestedMediaIndex(value: Option<string>): Option<nat> {
    if value == None || value == Some("-1") then Some(0) else ParseIndex(value.value)
  }

  /** `u128::try_from` on both factors, then `checked_mul`. */
  function Area(width: I64, height: I64): Option<nat> {
    if width < 0 || height < 0 || width * height > U128_MAX then None else Some(width * height)
  }

  function Density(media: Media): Option<nat> {
    if media.width.None? || media.height.None? then None else Area(media.width.value, media.height.value)
  }

  /** The multiplication never overflows: a density is unknown only for missing or negative sizes. */
  lemma AreaNeverOverflows(width: I64, height: I64)
    ensures Area(width, height) == if width >= 0 && height >= 0 then Some(width * height) else None
  {
    if width >= 0 && height >= 0 {
      calc {
        width * height;
      <= { MulMonotone(width, 0x7FFF_FFFF_FFFF_FFFF, height); }
        0x7FFF_FFFF_FFFF_FFFF * height;
      <=
        0x7FFF_FFFF_FFFF_FFFF * 0x7FFF_FFFF_FFFF_FFFF;
      }
    }
  }

  lemma MulMonotone(a: nat, b: nat, c: nat)
    requires a <= b
    ensures a * c <= b * c
  {
  }

  function Distance(a: int, b: int): nat {
    if a < b then b - a else a - b
  }

  /** The density of a version is its area, known if both sides are and neither is negative. */
  lemma DensityIsArea(media: Media)
    ensures Density(media).Some? <==>
              exists w, h :: media.width == Some(w) && media.height == Some(h) && 0 <= w && 0 <= h
    ensures Density(media).Some? ==> Density(media).value == media.width.value * media.height.value
  {
    if media.width.Some? && media.height.Some? {
      AreaNeverOverflows(media.width.value, media.height.value);
    }
  }

  lemma DistanceIsGap(a: int, gap: nat)
    ensures Distance(a, a + gap) == gap == Distance(a + gap, a)
  {
  }

  /** A request that leaves the version open counts as asking for the first one; anything but a number is
      none. */
  lemma RequestedIndexExactly(value: Option<string>, i: nat)
    requires i <= U64_MAX
    ensures RequestedMediaIndex(None) == Some(0) == RequestedMediaIndex(Some("-1"))
    ensures RequestedMediaIndex(Some(Decimal(i))) == Some(i)
    ensures value.Some? && value != Some("-1") && RequestedMediaIndex(value).Some? ==>
              ParseUnsigned(value.value, U64_MAX) == RequestedMediaIndex(value)
  {
    ParseDecimal(i, U64_MAX);
    assert IsDigit(Decimal(i)[0]);
  }

  // ----- best fit -----

  /** The key `best_fit_index` minimises. */
  function FitKey(media: Media, screen: nat): (nat, nat, int) {
    match Density(media)
    case Some(d) => (0, Distance(d, screen), U128_MAX - d)
    case None => (1, U128_MAX, U128_MAX)
  }

  predicate KeyLeq(a: (nat, nat, int), b: (nat, nat, int)) {
    a.0 < b.0 || (a.0 == b.0 && (a.1 < b.1 || (a.1 == b.1 && a.2 <= b.2)))
  }

  function FitLeq(screen: nat): (Media, Media) -> bool {
    (a, b) => KeyLeq(FitKey(a, screen), FitKey(b, screen))
  }

  function BestFitIndex(media: seq<Media>, screen: (I64, I64)): Option<nat> {
    var area := Area(screen.0, screen.1);
    if area.None? || media == [] then None else Some(FirstMin(FitLeq(area.value), media))
  }

  /** `a` suits a screen of the given area at least as well as `b`: known sizes before unknown
      ones, then closeness, then resolution. */
  predicate FitsAsWell(a: Media, b: Media, screen: nat) {
    match (Density(a), Density(b))
    case (Some(da), Some(db)) =>
      Distance(da, screen) < Distance(db, screen) || (Distance(da, screen) == Distance(db, screen) && da >= db)
    case (None, Some(_)) => false
    case (_, None) => true
  }

  /** `best_fit_index` finds the first of the best versions, whenever there is a version and the
      screen has a sensible size. */
  lemma BestFitIsFirstBest(media: seq<Media>, screen: (I64, I64))
    ensures var r := BestFitIndex(media, screen);
            && (r.Some? <==> media != [] && screen.0 >= 0 && screen.1 >= 0)
            && (r.Some? ==>
                  var area := screen.0 * screen.1;
                  && r.value < |media|
                  && (forall j | 0 <= j < |media| :: FitsAsWell(media[r.value], media[j], area))
                  && (forall j | 0 <= j < r.value :: !FitsAsWell(media[j], media[r.value], area)))
  {
    AreaNeverOverflows(screen.0, screen.1);
    var r := BestFitIndex(media, screen);
    if r.Some? {
      var area := screen.0 * screen.1;
      forall a, b ensures FitLeq(area)(a, b) <==> FitsAsWell(a, b, area) {
      }
    }
  }

  // ----- fallback -----

  predicate EqIgnoreCase(a: string, b: string) {
    ToAsciiLower(a) == ToAsciiLower(b)
  }

  predicate Eligible(media: seq<Media>, selected: nat, resolution: string, policy: Option<ResolutionPolicy>, i: nat) {
    && i < |media| && i != selected
    && media[i].videoResolution.Some? && !EqIgnoreCase(media[i].videoResolution.value, resolution)
    && (policy.Some? ==> MediaAllowed(media[i], policy.value))
  }

  /** Unknown sizes count as zero. */
  function DensityAt(media: seq<Media>, i: nat): nat {
    if i < |media| then Density(media[i]).GetOr(0) else 0
  }

  lemma DensityAtExactly(media: seq<Media>, i: nat)
    requires i < |media|
    ensures var m := media[i];
            if m.width.Some? && m.height.Some? && 0 <= m.width.value && 0 <= m.height.value
            then DensityAt(media, i) == m.width.value * m.height.value
            else DensityAt(media, i) == 0
  {
    DensityIsArea(media[i]);
  }

  function DenserFirst(media: seq<Media>): (nat, nat) -> bool {
    (i: nat, j: nat) => DensityAt(media, i) >= DensityAt(media, j)
  }

  /** The indexes below `n` that pass, ascending. */
  function IndexesBelow(passes: nat -> bool, n: nat): seq<nat> {
    if n == 0 then [] else IndexesBelow(passes, n - 1) + if passes(n - 1) then [n - 1] else []
  }

  lemma {:induction false} IndexesAscend(passes: nat -> bool, n: nat)
    ensures forall i: nat :: i in IndexesBelow(passes, n) <==> i < n && passes(i)
    ensures forall a, b | 0 <= a < b < |IndexesBelow(passes, n)| :: IndexesBelow(passes, n)[a] < IndexesBelow(passes, n)[b]
  {
    if n > 0 {
      IndexesAscend(passes, n - 1);
      var s := IndexesBelow(passes, n - 1);
      forall a | 0 <= a < |s| ensures s[a] < n - 1 {
        assert s[a] in s;
      }
    }
  }

  function EligibleIn(media: seq<Media>, selected: nat, resolution: string, policy: Option<ResolutionPolicy>): nat -> bool {
    (i: nat) => Eligible(media, selected, resolution, policy, i)
  }

  function FallbackOrder(media: seq<Media>, selected: nat, resolution: string, policy: Option<ResolutionPolicy>): seq<nat> {
    Sort(DenserFirst(media), IndexesBelow(EligibleIn(media, selected, resolution, policy), |media|))
  }

  /** `fallback_indexes`: collect, then `sort_by_key` with the reversed density. */
  method FallbackIndexes(media: seq<Media>, selected: nat, resolution: string, policy: Option<ResolutionPolicy>)
    returns (candidates: seq<nat>)
    ensures candidates == FallbackOrder(media, selected, resolution, policy)
  {
    candidates := [];
    for i := 0 to |media|
      invariant candidates == IndexesBelow(EligibleIn(media, selected, resolution, policy), i)
    {
      if Eligible(media, selected, resolution, policy, i) {
        candidates := candidates + [i];
      }
    }
    candidates := Sort(DenserFirst(media), candidates);
  }

  /** Two labels agree if they differ in the case of ASCII letters alone. */
  lemma EqualUpToCase(a: string, b: string)
    ensures EqIgnoreCase(a, b) <==> |a| == |b| && forall i | 0 <= i < |a| :: SameLetter(a[i], b[i])
  {
    if EqIgnoreCase(a, b) {
      forall i | 0 <= i < |a| ensures SameLetter(a[i], b[i]) {
        assert ToAsciiLower(a)[i] == ToAsciiLower(b)[i];
      }
    }
  }

  predicate SameLetter(c: char, d: char) {
    || c == d
    || ('A' <= c <= 'Z' && d as int == c as int + 32)
    || ('A' <= d <= 'Z' && c as int == d as int + 32)
  }

  ghost predicate Ranked(media: seq<Media>, indexes: seq<nat>) {
    forall a, b | 0 <= a < b < |indexes| ::
      || DensityAt(media, indexes[a]) > DensityAt(media, indexes[b])
      || (DensityAt(media, indexes[a]) == DensityAt(media, indexes[b]) && indexes[a] < indexes[b])
  }

  lemma SortRanks(media: seq<Media>, indexes: seq<nat>)
    requires forall a, b | 0 <= a < b < |indexes| :: indexes[a] < indexes[b]
    ensures Ranked(media, Sort(DenserFirst(media), indexes))
    ensures forall i: nat :: i in Sort(DenserFirst(media), indexes) <==> i in indexes
  {
    var sorted := Sort(DenserFirst(media), indexes);
    DenserFirstIsTotal(media);
    SortMembers(DenserFirst(media), indexes);
    SortOrders(DenserFirst(media), indexes);
    SortStable(DenserFirst(media), (i: nat, j: nat) => i < j, indexes);
  }

  lemma DenserFirstIsTotal(media: seq<Media>)
    ensures TotalPreorder(DenserFirst(media))
  {
  }

  /** The fallbacks are the eligible versions and no others, densest first, ties in Plex's order. */
  lemma FallbacksAreRanked(media: seq<Media>, selected: nat, resolution: string, policy: Option<ResolutionPolicy>)
    ensures Ranked(media, FallbackOrder(media, selected, resolution, policy))
    ensures forall i: nat :: i in FallbackOrder(media, selected, resolution, policy) <==>
              Eligible(media, selected, resolution, policy, i)
    ensures forall i: nat :: i in FallbackOrder(media, selected, resolution, policy) <==>
              && i < |media| && i != selected && media[i].videoResolution.Some?
              && ToAsciiLower(media[i].videoResolution.value) != ToAsciiLower(resolution)
              && (policy.Some? ==> MediaAllowed(media[i], policy.value))
  {
    var eligible := EligibleIn(media, selected, resolution, policy);
    IndexesAscend(eligible, |media|);
    SortRanks(media, IndexesBelow(eligible, |media|));
    forall i: nat ensures i in FallbackOrder(media, selected, resolution, policy) <==> i < |media| && eligible(i) {
    }
  }

  // ----- the best permitted version -----

  /** `i64` arithmetic wraps in release builds. */
  function Wrap(n: int): I64 {
    if -0x8000_0000_0000_0000 <= n <= 0x7FFF_FFFF_FFFF_FFFF then n
    else (n + 0x8000_0000_0000_0000) % 0x1_0000_0000_0000_0000 - 0x8000_0000_0000_0000
  }

  /** The key for a picture of the given area, on a screen of the given area. */
  function AreaKey(picture: int, screen: Option<int>): I64 {
    var density: int := Wrap(picture);
    match screen
    case Some(area) =>
      var gap: int := Wrap(density - Wrap(area));
      if gap < 0 then Wrap(-gap) else gap
    case None => Wrap(-density)
  }

  function PreferenceKey(media: Media, screen: Option<(I64, I64)>): I64 {
    AreaKey(media.width.GetOr(0) * media.height.GetOr(0),
            if screen.Some? then Some(screen.value.0 * screen.value.1) else None)
  }

  function PreferLeq(screen: Option<(I64, I64)>): (Media, Media) -> bool {
    (a, b) => PreferenceKey(a, screen) <= PreferenceKey(b, screen)
  }

  function AllowedMedia(media: seq<Media>, policy: ResolutionPolicy): seq<Media> {
    Filter(AllowedBy(policy), media)
  }

  function BestAllowedMedia(media: seq<Media>, policy: ResolutionPolicy, screen: Option<(I64, I64)>): Option<Media> {
    var candidates := AllowedMedia(media, policy);
    if candidates == [] then None else Some(candidates[FirstMin(PreferLeq(screen), candidates)])
  }

  /** A permitted version is found exactly when there is one. */
  lemma BestAllowedExists(media: seq<Media>, policy: ResolutionPolicy, screen: Option<(I64, I64)>)
    ensures var r := BestAllowedMedia(media, policy, screen);
            && (r.Some? <==> exists m :: m in media && MediaAllowed(m, policy))
            && (r.Some? ==> r.value in media && MediaAllowed(r.value, policy))
  {
    FilterKeeps(AllowedBy(policy), media);
    var candidates := AllowedMedia(media, policy);
    if candidates != [] {
      assert candidates[0] in media && MediaAllowed(candidates[0], policy);
      assert candidates[FirstMin(PreferLeq(screen), candidates)] in candidates;
    }
  }
}
