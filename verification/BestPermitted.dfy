/** What `best_allowed_media` chooses (src/resolution_policy.rs), measured against closeness to the
    screen and against the choice its comment announces. */
module BestPermitted {
  import opened Prelude
  import opened Text
  import opened Sorting
  import opened Models
  import opened ResolutionPolicies
  import opened Selection

  const I64_MAX := 0x7FFF_FFFF_FFFF_FFFF

  function PictureArea(media: Media): int {
    media.width.GetOr(0) * media.height.GetOr(0)
  }

  function ScreenArea(screen: Option<(I64, I64)>): Option<int> {
    if screen.Some? then Some(screen.value.0 * screen.value.1) else None
  }

  /** What the key is meant to be: the distance to the screen, or else the largest picture first. */
  function Gap(picture: int, screen: Option<int>): int {
    match screen
    case Some(area) => Distance(picture, area)
    case None => -picture
  }

  // ----- when the wrapping key is the intended one -----

  lemma WrapIsIdentity(n: int)
    ensures Wrap(n) == n <==> -0x8000_0000_0000_0000 <= n <= I64_MAX
  {
  }

  lemma WrapShifts(n: int) returns (k: int)
    ensures Wrap(n) == n + k * 0x1_0000_0000_0000_0000
  {
    if -0x8000_0000_0000_0000 <= n <= I64_MAX {
      k := 0;
    } else {
      k := 0 - (n + 0x8000_0000_0000_0000) / 0x1_0000_0000_0000_0000;
    }
  }

  lemma WrapDifference(a: int, b: int)
    ensures Wrap(Wrap(a) - Wrap(b)) == Wrap(a - b)
  {
    var p := WrapShifts(a);
    var q := WrapShifts(b);
    WrapShifted(a - b, p - q);
  }

  lemma WrapShifted(n: int, k: int)
    ensures Wrap(n + k * 0x1_0000_0000_0000_0000) == Wrap(n)
  {
    var i := WrapShifts(n);
    var j := WrapShifts(n + k * 0x1_0000_0000_0000_0000);
    var (x, y) := (Wrap(n), Wrap(n + k * 0x1_0000_0000_0000_0000));
    assert y - x == (k + j - i) * 0x1_0000_0000_0000_0000;
  }

  /** With a screen the key is the distance exactly when the distance fits an `i64`. */
  lemma KeyIsDistance(picture: int, area: int)
    ensures AreaKey(picture, Some(area)) == Distance(picture, area) <==> Distance(picture, area) <= I64_MAX
  {
    WrapDifference(picture, area);
    WrapIsIdentity(picture - area);
  }

  /** Without one it favours the largest picture exactly when the area can be negated in an `i64`. */
  lemma KeyIsSize(picture: int)
    ensures AreaKey(picture, None) == -picture <==> -I64_MAX <= picture <= 0x8000_0000_0000_0000
  {
    WrapDifference(0, picture);
    WrapIsIdentity(-picture);
  }

  /** The exact range in which a version's key means what it should. */
  predicate Measurable(media: Media, screen: Option<(I64, I64)>) {
    var picture := PictureArea(media);
    match ScreenArea(screen)
    case Some(area) => Distance(picture, area) <= I64_MAX
    case None => -I64_MAX <= picture <= 0x8000_0000_0000_0000
  }

  /** A version's key is its gap exactly when the version is measurable. */
  lemma KeyIsGap(media: Media, screen: Option<(I64, I64)>)
    ensures PreferenceKey(media, screen) == Gap(PictureArea(media), ScreenArea(screen)) <==> Measurable(media, screen)
  {
    var picture := PictureArea(media);
    match ScreenArea(screen) {
      case Some(area) => KeyIsDistance(picture, area);
      case None => KeyIsSize(picture);
    }
  }

  // ----- the choice is the closest -----

  predicate Permitted(media: seq<Media>, policy: ResolutionPolicy, i: nat) {
    i < |media| && MediaAllowed(media[i], policy)
  }

  ghost predicate AllMeasurable(media: seq<Media>, policy: ResolutionPolicy, screen: Option<(I64, I64)>) {
    forall i: nat | Permitted(media, policy, i) :: Measurable(media[i], screen)
  }

  /** `i` comes before `j` in the order of `measure`, ties going to the earlier version. */
  predicate Before(measure: Media -> int, media: seq<Media>, i: nat, j: nat)
    requires i < |media| && j < |media|
  {
    measure(media[i]) < measure(media[j]) || (measure(media[i]) == measure(media[j]) && i <= j)
  }

  ghost predicate IsFirst(measure: Media -> int, media: seq<Media>, policy: ResolutionPolicy, i: nat) {
    Permitted(media, policy, i) && forall j: nat | Permitted(media, policy, j) :: Before(measure, media, i, j)
  }

  function KeyTo(screen: Option<(I64, I64)>): Media -> int {
    (m: Media) => PreferenceKey(m, screen)
  }

  function GapTo(screen: Option<(I64, I64)>): Media -> int {
    (m: Media) => Gap(PictureArea(m), ScreenArea(screen))
  }

  lemma LeastAmong(candidates: seq<Media>, screen: Option<(I64, I64)>)
    requires candidates != []
    ensures var k := FirstMin(PreferLeq(screen), candidates);
            && (forall c | c in candidates :: PreferenceKey(candidates[k], screen) <= PreferenceKey(c, screen))
            && (forall c | c in candidates[..k] :: PreferenceKey(candidates[k], screen) < PreferenceKey(c, screen))
  {
  }

  lemma ChosenAt(media: seq<Media>, policy: ResolutionPolicy, screen: Option<(I64, I64)>) returns (i: nat)
    requires AllowedMedia(media, policy) != []
    ensures var (candidates, k) := (AllowedMedia(media, policy), FirstMin(PreferLeq(screen), AllowedMedia(media, policy)));
            i < |media| && media[i] == candidates[k] && AllowedMedia(media[..i], policy) == candidates[..k]
  {
    i := PositionInSource(AllowedBy(policy), media, FirstMin(PreferLeq(screen), AllowedMedia(media, policy)));
  }

  /** The choice is the first permitted version with the least key. */
  lemma BestAllowedHasLeastKey(media: seq<Media>, policy: ResolutionPolicy, screen: Option<(I64, I64)>) returns (i: nat)
    requires BestAllowedMedia(media, policy, screen).Some?
    ensures IsFirst(KeyTo(screen), media, policy, i) && media[i] == BestAllowedMedia(media, policy, screen).value
  {
    var candidates := AllowedMedia(media, policy);
    LeastAmong(candidates, screen);
    i := ChosenAt(media, policy, screen);
    FilterKeeps(AllowedBy(policy), media);
    FilterKeeps(AllowedBy(policy), media[..i]);
    assert media[i] in candidates;
    forall j: nat | Permitted(media, policy, j) ensures Before(KeyTo(screen), media, i, j) {
      assert media[j] in candidates;
      assert j < i ==> media[j] in media[..i];
    }
  }

  /** As long as every permitted version is measurable, the choice is the earliest of the permitted
      versions closest to the screen, or of the largest ones when there is no screen. */
  lemma BestAllowedIsFirstClosest(media: seq<Media>, policy: ResolutionPolicy, screen: Option<(I64, I64)>) returns (i: nat)
    requires BestAllowedMedia(media, policy, screen).Some?
    ensures i < |media| && media[i] == BestAllowedMedia(media, policy, screen).value
    ensures IsFirst(KeyTo(screen), media, policy, i)
    ensures AllMeasurable(media, policy, screen) ==> IsFirst(GapTo(screen), media, policy, i)
  {
    i := BestAllowedHasLeastKey(media, policy, screen);
    if AllMeasurable(media, policy, screen) {
      KeyIsGap(media[i], screen);
      forall j: nat | Permitted(media, policy, j) ensures Before(GapTo(screen), media, i, j) {
        KeyIsGap(media[j], screen);
        assert Before(KeyTo(screen), media, i, j);
      }
    }
  }

  /** A measurable version's key comes before that of version `j`. */
  ghost predicate IsBeaten(media: seq<Media>, policy: ResolutionPolicy, screen: (I64, I64), j: nat)
    requires j < |media|
  {
    exists k: nat ::
      Permitted(media, policy, k) && Measurable(media[k], Some(screen)) && Before(KeyTo(Some(screen)), media, k, j)
  }

  lemma MeasurableIsClosest(media: seq<Media>, policy: ResolutionPolicy, screen: (I64, I64), i: nat)
    requires IsFirst(KeyTo(Some(screen)), media, policy, i) && Measurable(media[i], Some(screen))
    ensures IsFirst(GapTo(Some(screen)), media, policy, i)
    ensures forall j: nat | Permitted(media, policy, j) :: IsBeaten(media, policy, screen, j)
  {
    KeyIsGap(media[i], Some(screen));
    forall j: nat | Permitted(media, policy, j)
      ensures Before(GapTo(Some(screen)), media, i, j) && IsBeaten(media, policy, screen, j)
    {
      KeyIsGap(media[j], Some(screen));
      assert Before(KeyTo(Some(screen)), media, i, j);
    }
  }

  /** With a screen to which some permitted version is measurable, the choice is the earliest of the
      closest versions if and only if it is measurable itself, that is, if and only if the key of
      every unmeasurable version comes after that of a measurable one. */
  lemma ChoiceIsClosestExactly(media: seq<Media>, policy: ResolutionPolicy, screen: (I64, I64), some: nat)
    returns (i: nat)
    requires Permitted(media, policy, some) && Measurable(media[some], Some(screen))
    ensures i < |media| && BestAllowedMedia(media, policy, Some(screen)) == Some(media[i])
    ensures IsFirst(KeyTo(Some(screen)), media, policy, i)
    ensures IsFirst(GapTo(Some(screen)), media, policy, i) <==> Measurable(media[i], Some(screen))
    ensures Measurable(media[i], Some(screen)) <==>
              forall j: nat | Permitted(media, policy, j) && !Measurable(media[j], Some(screen)) ::
                IsBeaten(media, policy, screen, j)
  {
    BestAllowedExists(media, policy, Some(screen));
    assert media[some] in media;
    i := BestAllowedHasLeastKey(media, policy, Some(screen));
    if Measurable(media[i], Some(screen)) {
      MeasurableIsClosest(media, policy, screen, i);
    } else {
      assert !Before(GapTo(Some(screen)), media, i, some);
      forall k: nat | Permitted(media, policy, k) && Measurable(media[k], Some(screen))
        ensures !Before(KeyTo(Some(screen)), media, k, i)
      {
        assert Before(KeyTo(Some(screen)), media, i, k);
      }
    }
  }

  /** An area as 64 bits tell it: the number congruent to it from -(2^63 - 1) to 2^63. */
  function Residue(picture: int): int {
    var r := picture % 0x1_0000_0000_0000_0000;
    if r <= 0x8000_0000_0000_0000 then r else r - 0x1_0000_0000_0000_0000
  }

  lemma KeyIsResidue(picture: int)
    ensures AreaKey(picture, None) == -Residue(picture)
    ensures Residue(picture) == picture <==> -I64_MAX <= picture <= 0x8000_0000_0000_0000
  {
    WrapDifference(0, picture);
    var k := -(picture / 0x1_0000_0000_0000_0000) - (if Residue(picture) < 0 then 1 else 0);
    WrapShifted(-Residue(picture), k);
    WrapIsIdentity(-Residue(picture));
  }

  /** Version `l` looks larger than version `j`, or as large and comes first. */
  predicate LooksLarger(media: seq<Media>, l: nat, j: nat)
    requires l < |media| && j < |media|
  {
    var (a, b) := (Residue(PictureArea(media[l])), Residue(PictureArea(media[j])));
    a > b || (a == b && l <= j)
  }

  /** Without a screen the largest permitted version is chosen if and only if it still looks the largest
      in 64 bits; and if it fits them itself, only versions that do not can outdo it. */
  lemma LargestIsChosenExactly(media: seq<Media>, policy: ResolutionPolicy, l: nat)
    requires IsFirst(GapTo(None), media, policy, l)
    ensures BestAllowedMedia(media, policy, None) == Some(media[l]) <==>
              forall j: nat | Permitted(media, policy, j) :: LooksLarger(media, l, j)
    ensures Measurable(media[l], None) ==>
              (BestAllowedMedia(media, policy, None) == Some(media[l]) <==>
                 forall j: nat | Permitted(media, policy, j) && !Measurable(media[j], None) :: LooksLarger(media, l, j))
  {
    BestAllowedExists(media, policy, None);
    assert media[l] in media;
    var i := BestAllowedHasLeastKey(media, policy, None);
    forall j: nat | Permitted(media, policy, j)
      ensures Before(KeyTo(None), media, l, j) <==> LooksLarger(media, l, j)
      ensures Measurable(media[l], None) && Measurable(media[j], None) ==> LooksLarger(media, l, j)
    {
      KeyIsResidue(PictureArea(media[l]));
      KeyIsResidue(PictureArea(media[j]));
      assert Before(GapTo(None), media, l, j);
    }
    assert Before(KeyTo(None), media, i, l) && Before(GapTo(None), media, l, i);
    if media[i] == media[l] {
      assert forall j: nat | Permitted(media, policy, j) :: Before(KeyTo(None), media, i, j);
    }
  }

  // ----- the choice the comment announces -----

  predicate Fitting(media: seq<Media>, policy: ResolutionPolicy, area: int, i: nat) {
    Permitted(media, policy, i) && PictureArea(media[i]) <= area
  }

  /** The first of the largest permitted versions that fit the screen. */
  ghost predicate IsLargestFitting(media: seq<Media>, policy: ResolutionPolicy, area: int, k: nat) {
    && Fitting(media, policy, area, k)
    && forall j: nat | Fitting(media, policy, area, j) ::
         PictureArea(media[j]) < PictureArea(media[k]) || (PictureArea(media[j]) == PictureArea(media[k]) && k <= j)
  }

  /** No permitted version above the screen is as close to it as version `k`; of two equally close
      ones the earlier counts as closer. */
  ghost predicate NothingAboveAsClose(media: seq<Media>, policy: ResolutionPolicy, screen: (I64, I64), k: nat)
    requires k < |media|
  {
    forall j: nat | Permitted(media, policy, j) && PictureArea(media[j]) > screen.0 * screen.1 ::
      Before(GapTo(Some(screen)), media, k, j)
  }

  /** The choice is the largest permitted version that fits the screen exactly when no permitted
      version above the screen is as close. */
  lemma BestAllowedIsLargestFitting(media: seq<Media>, policy: ResolutionPolicy, screen: (I64, I64), k: nat)
    requires AllMeasurable(media, policy, Some(screen))
    requires IsLargestFitting(media, policy, screen.0 * screen.1, k)
    ensures BestAllowedMedia(media, policy, Some(screen)) == Some(media[k]) <==>
              NothingAboveAsClose(media, policy, screen, k)
  {
    var area := screen.0 * screen.1;
    BestAllowedExists(media, policy, Some(screen));
    assert media[k] in media;
    var i := BestAllowedIsFirstClosest(media, policy, Some(screen));
    if NothingAboveAsClose(media, policy, screen, k) {
      assert IsFirst(GapTo(Some(screen)), media, policy, k);
      assert Before(GapTo(Some(screen)), media, i, k) && Before(GapTo(Some(screen)), media, k, i);
    }
    if media[i] == media[k] {
      assert Fitting(media, policy, area, i);
      forall j: nat | Permitted(media, policy, j) && PictureArea(media[j]) > area
        ensures Before(GapTo(Some(screen)), media, k, j)
      {
        assert Before(GapTo(Some(screen)), media, i, j);
      }
    }
  }

  /** When nothing permitted fits the screen, something larger is chosen all the same. */
  lemma NothingFitsStillChooses(media: seq<Media>, policy: ResolutionPolicy, screen: (I64, I64))
    requires forall i: nat :: !Fitting(media, policy, screen.0 * screen.1, i)
    ensures var r := BestAllowedMedia(media, policy, Some(screen));
            && (r.Some? <==> exists i: nat :: Permitted(media, policy, i))
            && (r.Some? ==> PictureArea(r.value) > screen.0 * screen.1)
  {
    BestAllowedExists(media, policy, Some(screen));
    if i: nat :| Permitted(media, policy, i) {
      assert media[i] in media;
    }
    if BestAllowedMedia(media, policy, Some(screen)).Some? {
      var i := BestAllowedHasLeastKey(media, policy, Some(screen));
      assert !Fitting(media, policy, screen.0 * screen.1, i);
    }
  }

  const UP_TO_4K := ResolutionPolicy(P2160, None, [])
  const FULL_HD := (1920, 1080)
  const FITS := Media(1, None, Some(1280), Some(720), None, [])
  const TOO_LARGE := Media(2, None, Some(1930), Some(1090), None, [])

  /** What the choice between two permitted versions comes down to. */
  lemma OfTwo(a: Media, b: Media, policy: ResolutionPolicy, screen: (I64, I64))
    requires MediaAllowed(a, policy) && MediaAllowed(b, policy)
    ensures BestAllowedMedia([a, b], policy, Some(screen)) ==
              Some(if PreferenceKey(a, Some(screen)) <= PreferenceKey(b, Some(screen)) then a else b)
  {
    var media := [a, b];
    BestAllowedExists(media, policy, Some(screen));
    assert Permitted(media, policy, 0) && Permitted(media, policy, 1) && media[0] in media;
    var i := BestAllowedHasLeastKey(media, policy, Some(screen));
    assert Before(KeyTo(Some(screen)), media, i, 0) && Before(KeyTo(Some(screen)), media, i, 1);
  }

  /** A version larger than the screen is chosen although a smaller one fits. */
  lemma LargerThanScreenIsChosen()
    ensures BestAllowedMedia([FITS, TOO_LARGE], UP_TO_4K, Some(FULL_HD)) == Some(TOO_LARGE)
    ensures PictureArea(FITS) <= 1920 * 1080 < PictureArea(TOO_LARGE) && MediaAllowed(FITS, UP_TO_4K)
  {
    OfTwo(FITS, TOO_LARGE, UP_TO_4K, FULL_HD);
    KeyIsDistance(1280 * 720, 1920 * 1080);
    KeyIsDistance(1930 * 1090, 1920 * 1080);
  }

  const IMMENSE := Media(3, Some("4k"), Some(0x1_0000_0000), Some(0x1_0000_0000), None, [])
  const FOUR_K := Media(4, None, Some(3840), Some(2160), None, [])

  /** An area of 2^64 wraps to nothing, and a version is chosen that is not the closest. */
  lemma WrappingChoosesAnother()
    ensures BestAllowedMedia([IMMENSE, FOUR_K], UP_TO_4K, Some(FULL_HD)) == Some(IMMENSE)
    ensures GapTo(Some(FULL_HD))(IMMENSE) > GapTo(Some(FULL_HD))(FOUR_K) && MediaAllowed(FOUR_K, UP_TO_4K)
  {
    ImmenseIsPermitted();
    OfTwo(IMMENSE, FOUR_K, UP_TO_4K, FULL_HD);
    KeyIsDistance(3840 * 2160, 1920 * 1080);
    assert AreaKey(0x1_0000_0000 * 0x1_0000_0000, Some(1920 * 1080)) == 1920 * 1080;
  }

  lemma ImmenseIsPermitted()
    ensures MediaAllowed(IMMENSE, UP_TO_4K)
  {
    TrimId("4k");
    assert Map(LowerLimitChar, "4k") == "4k";
  }

  /** Where the `k`-th kept element came from. */
  lemma {:induction false} PositionInSource<T>(keep: T -> bool, s: seq<T>, k: nat) returns (i: nat)
    requires k < |Filter(keep, s)|
    ensures i < |s| && s[i] == Filter(keep, s)[k] && Filter(keep, s[..i]) == Filter(keep, s)[..k]
  {
    if keep(s[0]) && k == 0 {
      i := 0;
    } else {
      var skipped := if keep(s[0]) then 1 else 0;
      var rest := PositionInSource(keep, s[1..], k - skipped);
      i := rest + 1;
      assert s[..i] == [s[0]] + s[1..][..rest];
      FilterConcat(keep, [s[0]], s[1..][..rest]);
    }
  }
}
