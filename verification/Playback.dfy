/** The handlers a playback request passes on its way to Plex, in their wired order (src/routes.rs).
    Each rewrites the query map of the request; the main result is that together they leave a
    version within the account's policy selected. */
module Playback {
  import opened Prelude
  import opened Text
  import opened Queries
  import opened Models
  import opened ResolutionPolicies
  import opened Selection

  // ----- what the handlers consult -----

  function AsI64(value: Option<string>): Option<int> {
    if value.Some? then ParseI64(value.value) else None
  }

  /** The answer of the metadata request for the item being played: the versions of its first entry. */
  datatype Lookup = Failed | NoEntry | Found(media: seq<Media>)

  /** What the security middleware left for the request. Should it have left nothing, the first handler
      looks the account's policy up for itself; PlaybackRequests proves that this never happens while
      the policy is on. */
  datatype Security =
    | Resolved(policy: ResolutionPolicy)
    | Unavailable(failClosed: bool)
    | Missing(account: Option<ResolutionPolicy>)

  datatype Env = Env(
    uriParses: bool,
    policyEnabled: bool,
    failClosed: bool,
    security: Security,
    screen: Option<(I64, I64)>,
    skipOptional: bool,
    autoSelect: bool,
    forceMaximum: bool,
    directPlayFor: Option<seq<string>>,
    fallbackFor: Option<string>,
    enforceLookup: Lookup,
    selectLookup: Lookup,
    forceLookup: Lookup,
    fallbackLookup: Lookup,
    rewriteBufferSize: string -> string,
    rewriteProfileExtra: string -> string,
    transcoding: Option<bool>,     // the decision Plex would take; None when asking fails
    directPlay: DirectPlayAnswer)

  datatype DirectPlayAnswer = Playable | NotPlayable | BadRequest | OtherStatus

  datatype Outcome = Continue | Reject(status: nat) | Error

  // ----- the policy handler -----

  function Requested(q: Query): Option<nat> {
    var value := Get(q, "mediaIndex");
    if value.Some? && value.value != "-1" then ParseIndex(value.value) else None
  }

  function CurrentBitrate(q: Query): Option<int> {
    AsI64(OrElse(Get(q, "maxVideoBitrate"), Get(q, "videoBitrate")))
  }

  function CapBitrate(q: Query, cap: I64, uriParses: bool): Query {
    var current := CurrentBitrate(q);
    if current.Some? && current.value <= cap then q
    else Replaced(q, Put(q - {"videoBitrate", "maxVideoBitrate"}, "maxVideoBitrate", SignedDecimal(cap)), uriParses)
  }

  function Position(media: seq<Media>, id: I64): Option<nat> {
    if media == [] then None
    else if media[0].id == id then Some(0)
    else
      match Position(media[1..], id)
      case Some(i) => Some(i + 1)
      case None => None
  }

  /** Leave a permitted choice alone; otherwise pin the best permitted version, or refuse. */
  function PinIndex(q: Query, media: seq<Media>, policy: ResolutionPolicy, env: Env): (Outcome, Query) {
    var requested := Requested(q);
    if requested.Some? && requested.value < |media| && MediaAllowed(media[requested.value], policy) then (Continue, q)
    else
      match BestAllowedMedia(media, policy, env.screen)
      case None => (Reject(403), q)
      case Some(best) =>
        match Position(media, best.id)
        case None => (Continue, q)
        case Some(i) => (Continue, Replaced(q, Put(q, "mediaIndex", Decimal(i)), env.uriParses))
  }

  function EnforceWith(q: Query, policy: ResolutionPolicy, env: Env): (Outcome, Query) {
    if policy.IsUnrestricted() && policy.maxBitrate.None? then (Continue, q)
    else
      var capped := if policy.maxBitrate.Some? then CapBitrate(q, policy.maxBitrate.value, env.uriParses) else q;
      if policy.IsUnrestricted() || Get(capped, "path").None? then (Continue, capped)
      else
        match env.enforceLookup
        case Failed => (if env.failClosed then Reject(503) else Continue, capped)
        case NoEntry => (if env.failClosed then Reject(502) else Continue, capped)
        case Found(media) => if media == [] then (Continue, capped) else PinIndex(capped, media, policy, env)
  }

  /** `enforce_resolution_policy`. */
  function Enforce(q: Query, env: Env): (Outcome, Query) {
    if !env.policyEnabled then (Continue, q)
    else
      match env.security
      case Resolved(policy) => EnforceWith(q, policy, env)
      case Unavailable(failClosed) => (if failClosed then Reject(503) else Continue, q)
      case Missing(account) => if account.Some? then EnforceWith(q, account.value, env) else (Error, q)
  }

  // ----- the optional handlers -----

  function RequestedBitrate(q: Query): Option<int> {
    AsI64(OrElse(Get(q, "videoBitrate"), Get(q, "maxVideoBitrate")))
  }

  function AskFor(q: Query, index: nat): Query {
    var picked := Put(q, "mediaIndex", Decimal(index));
    Put(if RequestedBitrate(q).None? then Put(picked, "directPlay", "1") else picked, "subtitles", "auto")
  }

  /** `auto_select_version`. */
  function AutoSelect(q: Query, env: Env): Query {
    var index := Get(q, "mediaIndex");
    if env.skipOptional || (index.Some? && index.value != "-1") || env.screen.None? then q
    else if Get(q, "path").None? then Replaced(q, q, env.uriParses)
    else if !env.selectLookup.Found? || |env.selectLookup.media| <= 1 then q
    else
      match BestFitIndex(env.selectLookup.media, env.screen.value)
      case None => Replaced(q, q, env.uriParses)
      case Some(i) => Replaced(q, AskFor(q, i), env.uriParses)
  }

  function Rewrite(q: Query, name: string, f: string -> string): Query {
    match Get(q, name)
    case Some(value) => Put(q, name, f(value))
    case None => q - {name}
  }

  function AskOriginal(q: Query): Query {
    Put(Put(Put(Put(q - {"maxVideoBitrate", "videoBitrate"},
      "autoAdjustQuality", "0"), "directStream", "1"), "directPlay", "1"), "videoQuality", "100")
  }

  function Rewritten(q: Query, env: Env): Query {
    Rewrite(Rewrite(q, "mediaBufferSize", env.rewriteBufferSize), "X-Plex-Client-Profile-Extra", env.rewriteProfileExtra)
  }

  function PreferDirect(q: Query, resolutions: seq<string>, resolution: Option<string>): Query {
    if exists r | r in resolutions :: resolution.Some? && EqIgnoreCase(resolution.value, r)
    then Put(q, "directPlay", "1") - {"videoResolution"} else q
  }

  /** `force_maximum_quality`. */
  function ForceMaximum(q: Query, env: Env): Query {
    if env.skipOptional || (Get(q, "maxVideoBitrate").None? && Get(q, "videoBitrate").None?) then q
    else
      var rewritten := Rewritten(AskOriginal(q), env);
      if env.directPlayFor.None? || Get(q, "path").None? then Replaced(q, rewritten, env.uriParses)
      else
        var index := Requested(q).GetOr(0);
        if !env.forceLookup.Found? || index >= |env.forceLookup.media| then q
        else
          var resolution := env.forceLookup.media[index].videoResolution;
          Replaced(q, PreferDirect(rewritten, env.directPlayFor.value, resolution), env.uriParses)
  }

  /** The policy the fallback handler filters by: what the security middleware left for the request. */
  function KnownPolicy(env: Env): Option<ResolutionPolicy> {
    if env.security.Resolved? then Some(env.security.policy) else None
  }

  /** Nothing to choose from when the identity is unavailable and the policy fails closed. */
  function FallbackCandidates(media: seq<Media>, selected: nat, resolution: string, env: Env): seq<nat> {
    if env.policyEnabled && env.security == Unavailable(true) then []
    else FallbackOrder(media, selected, resolution, KnownPolicy(env))
  }

  function SwitchTo(q: Query, index: nat): Query {
    var picked := Put(Put(q, "mediaIndex", Decimal(index)), "directStream", "1");
    Put(if RequestedBitrate(q).None? then Put(picked, "directPlay", "1") else picked, "subtitles", "auto")
  }

  /** `video_transcode_fallback`. */
  function TranscodeFallback(q: Query, env: Env): (Outcome, Query) {
    var index := RequestedMediaIndex(Get(q, "mediaIndex"));
    if env.skipOptional || index.None? || env.fallbackFor.None? || Get(q, "path").None? then (Continue, q)
    else if !env.fallbackLookup.Found? || index.value >= |env.fallbackLookup.media| then (Continue, q)
    else
      var media := env.fallbackLookup.media;
      var resolution := media[index.value].videoResolution;
      if resolution.None? || !EqIgnoreCase(resolution.value, env.fallbackFor.value) || |media| <= 1 then (Continue, q)
      else if env.transcoding.None? then (Error, q)
      else if !env.transcoding.value then (Continue, q)
      else
        var candidates := FallbackCandidates(media, index.value, env.fallbackFor.value, env);
        if candidates == [] then (Continue, Replaced(q, q, env.uriParses))
        else (Continue, Replaced(q, SwitchTo(q, candidates[0]), env.uriParses))
  }

  /** `direct_stream_fallback`. */
  function DirectStreamFallback(q: Query, env: Env): (Outcome, Query) {
    if env.skipOptional || Get(q, "directPlay").GetOr("1") != "1" then (Continue, q)
    else
      match env.directPlay
      case Playable => (Continue, q)
      case OtherStatus => (Error, q)
      case _ => (Continue, Added(Added(q, "directPlay", "0", env.uriParses), "directStream", "1", env.uriParses))
  }

  /** It turns direct play off, and direct streaming on, exactly when direct play was left on and Plex
      answers that it does not work, or with status 400; any other failure is passed on, and nothing
      else changes. */
  lemma FallsBackToDirectStream(q: Query, env: Env)
    ensures var (outcome, r) := DirectStreamFallback(q, env);
            var asked := !env.skipOptional && (Get(q, "directPlay").None? || Get(q, "directPlay") == Some("1"));
            && outcome == (if asked && env.directPlay.OtherStatus? then Error else Continue)
            && if asked && env.uriParses && env.directPlay in {NotPlayable, BadRequest} then
                 && Get(r, "directPlay") == Some("0") && Get(r, "directStream") == Some("1")
                 && SameBut(q, r, {"directPlay", "directStream"})
               else r == q
  {
    assert "directPlay"[6] != "directStream"[6];
  }

  // ----- the pipeline of a decision request -----

  function AfterSelection(q: Query, env: Env): Query {
    var selected := if env.autoSelect then AutoSelect(q, env) else q;
    if env.forceMaximum then ForceMaximum(selected, env) else selected
  }

  function Decide(q: Query, env: Env): (Outcome, Query) {
    var (verdict, enforced) := Enforce(q, env);
    if verdict != Continue then (verdict, enforced)
    else
      var (afterFallback, fallen) := TranscodeFallback(AfterSelection(enforced, env), env);
      if afterFallback != Continue then (afterFallback, fallen) else DirectStreamFallback(fallen, env)
  }

  // ----- staying within policy -----

  /** The selected version exists and the policy permits it. */
  predicate WithinPolicy(q: Query, media: seq<Media>, policy: ResolutionPolicy) {
    var index := Requested(q);
    index.Some? && index.value < |media| && MediaAllowed(media[index.value], policy)
  }

  ghost predicate DistinctIds(media: seq<Media>) {
    forall i, j | 0 <= i < j < |media| :: media[i].id != media[j].id
  }

  /** A request the policy handler has something to say about: a restricted account playing an
      item whose versions can be loaded. Every later lookup may fail or find the same versions. */
  ghost predicate Restricted(q: Query, env: Env, media: seq<Media>, policy: ResolutionPolicy) {
    && env.policyEnabled && env.uriParses && !policy.IsUnrestricted()
    && (env.security == Resolved(policy) || env.security == Missing(Some(policy)))
    && Get(q, "path").Some?
    && env.enforceLookup == Found(media) && 0 < |media| <= U64_MAX && DistinctIds(media)
    && (forall l | l in {env.selectLookup, env.forceLookup, env.fallbackLookup} :: l.Found? ==> l.media == media)
  }

  lemma {:induction false} PositionFinds(media: seq<Media>, m: Media)
    requires m in media
    ensures var r := Position(media, m.id);
            r.Some? && r.value < |media| && media[r.value].id == m.id
  {
    if media[0].id != m.id {
      PositionFinds(media[1..], m);
    }
  }

  lemma PickedIndexIsRequested(q: Query, i: nat)
    requires i <= U64_MAX && Get(q, "mediaIndex") == Some(Decimal(i))
    ensures Requested(q) == Some(i) && RequestedMediaIndex(Get(q, "mediaIndex")) == Some(i)
  {
    ParseDecimal(i, U64_MAX);
    assert IsDigit(Decimal(i)[0]);
  }

  lemma CapKeepsChoice(q: Query, cap: I64, uriParses: bool)
    ensures Get(CapBitrate(q, cap, uriParses), "mediaIndex") == Get(q, "mediaIndex")
    ensures Get(CapBitrate(q, cap, uriParses), "path") == Get(q, "path")
  {
  }

  /** The version a request leaves the policy handler with: a permitted choice of its own, or the
      best permitted one. */
  function Pinned(q: Query, media: seq<Media>, policy: ResolutionPolicy, screen: Option<(I64, I64)>): nat {
    if WithinPolicy(q, media, policy) then Requested(q).value
    else
      match BestAllowedMedia(media, policy, screen)
      case Some(best) => Position(media, best.id).GetOr(0)
      case None => 0
  }

  lemma PinSelects(q: Query, media: seq<Media>, policy: ResolutionPolicy, env: Env)
    requires env.uriParses && |media| <= U64_MAX && DistinctIds(media)
    ensures var (verdict, r) := PinIndex(q, media, policy, env);
            && Get(r, "path") == Get(q, "path")
            && (verdict == Continue ==>
                  WithinPolicy(r, media, policy) && Requested(r) == Some(Pinned(q, media, policy, env.screen)))
            && (verdict != Continue ==> verdict == Reject(403) && forall m | m in media :: !MediaAllowed(m, policy))
            && (WithinPolicy(q, media, policy) ==> verdict == Continue && r == q)
  {
    BestAllowedExists(media, policy, env.screen);
    if !WithinPolicy(q, media, policy) && BestAllowedMedia(media, policy, env.screen).Some? {
      var best := BestAllowedMedia(media, policy, env.screen).value;
      PositionFinds(media, best);
      var i := Position(media, best.id).value;
      assert media[i] == best by {
        var k :| 0 <= k < |media| && media[k] == best;
      }
      var picked := Put(q, "mediaIndex", Decimal(i));
      FirstsKeepGet(picked, "mediaIndex");
      FirstsKeepGet(picked, "path");
      PickedIndexIsRequested(Firsts(picked), i);
    }
  }

  /** The policy handler either refuses, when nothing is permitted, or leaves a permitted version
      selected; a permitted explicit choice is kept. */
  lemma EnforceSelects(q: Query, env: Env, media: seq<Media>, policy: ResolutionPolicy)
    requires Restricted(q, env, media, policy)
    ensures var (verdict, r) := Enforce(q, env);
            && (verdict == Continue ==> WithinPolicy(r, media, policy) && Get(r, "path") == Get(q, "path")
                                        && Requested(r) == Some(Pinned(q, media, policy, env.screen)))
            && (verdict != Continue ==> verdict == Reject(403) && forall m | m in media :: !MediaAllowed(m, policy))
            && (WithinPolicy(q, media, policy) ==> verdict == Continue && Get(r, "mediaIndex") == Get(q, "mediaIndex"))
  {
    var capped := if policy.maxBitrate.Some? then CapBitrate(q, policy.maxBitrate.value, true) else q;
    if policy.maxBitrate.Some? {
      CapKeepsChoice(q, policy.maxBitrate.value, true);
    }
    assert Enforce(q, env) == EnforceWith(q, policy, env) == PinIndex(capped, media, policy, env);
    PinSelects(capped, media, policy, env);
  }

  lemma RewriteKeepsOthers(q: Query, name: string, f: string -> string, other: string)
    requires name != other
    ensures Get(Rewrite(q, name, f), other) == Get(q, other)
  {
  }

  /** The parameters quality forcing leaves as `AskOriginal` set them. */
  const SETTLED := {"mediaIndex", "path", "maxVideoBitrate", "videoBitrate", "directPlay", "directStream"}

  lemma RewrittenKeepsSettled(q: Query, env: Env, name: string)
    requires name in SETTLED
    ensures Get(Rewritten(q, env), name) == Get(q, name)
  {
    assert name != "mediaBufferSize" && name != "X-Plex-Client-Profile-Extra";
    RewriteKeepsOthers(q, "mediaBufferSize", env.rewriteBufferSize, name);
    RewriteKeepsOthers(Rewrite(q, "mediaBufferSize", env.rewriteBufferSize),
      "X-Plex-Client-Profile-Extra", env.rewriteProfileExtra, name);
  }

  lemma PreferDirectKeeps(q: Query, resolutions: seq<string>, resolution: Option<string>, name: string)
    requires name != "videoResolution" && Get(q, "directPlay") == Some("1")
    ensures Get(PreferDirect(q, resolutions, resolution), name) == Get(q, name)
  {
  }

  /** Quality forcing goes through. */
  predicate Forces(q: Query, env: Env) {
    && env.uriParses && !env.skipOptional
    && (Get(q, "maxVideoBitrate").Some? || Get(q, "videoBitrate").Some?)
    && (env.directPlayFor.None? || Get(q, "path").None?
        || (env.forceLookup.Found? && Requested(q).GetOr(0) < |env.forceLookup.media|))
  }

  lemma ForcedLookup(q: Query, env: Env, name: string)
    requires name in SETTLED
    ensures Get(ForceMaximum(q, env), name) == if Forces(q, env) then Get(AskOriginal(q), name) else Get(q, name)
  {
    var rewritten := Rewritten(AskOriginal(q), env);
    RewrittenKeepsSettled(AskOriginal(q), env, name);
    FirstsKeepGet(rewritten, name);
    if Forces(q, env) && env.directPlayFor.Some? && Get(q, "path").Some? {
      var resolution := env.forceLookup.media[Requested(q).GetOr(0)].videoResolution;
      assert name != "videoResolution";
      AskOriginalLookups(q);
      RewrittenKeepsSettled(AskOriginal(q), env, "directPlay");
      PreferDirectKeeps(rewritten, env.directPlayFor.value, resolution, name);
      FirstsKeepGet(PreferDirect(rewritten, env.directPlayFor.value, resolution), name);
    }
  }

  /** With an explicit choice in place, selection and quality forcing do not touch it. */
  lemma SelectionKeepsChoice(q: Query, env: Env)
    requires Get(q, "mediaIndex").Some? && Get(q, "mediaIndex") != Some("-1")
    ensures Get(AfterSelection(q, env), "mediaIndex") == Get(q, "mediaIndex")
    ensures Get(AfterSelection(q, env), "path") == Get(q, "path")
  {
    ForcedLookup(q, env, "mediaIndex");
    ForcedLookup(q, env, "path");
  }

  lemma DirectStreamKeepsChoice(q: Query, env: Env)
    ensures Get(DirectStreamFallback(q, env).1, "mediaIndex") == Get(q, "mediaIndex")
  {
  }

  /** The transcode fallback is going to switch versions. */
  predicate FallsBack(q: Query, env: Env) {
    && !env.skipOptional && env.fallbackFor.Some? && Get(q, "path").Some? && env.fallbackLookup.Found?
    && env.transcoding == Some(true) && |env.fallbackLookup.media| > 1
    && var media := env.fallbackLookup.media;
       var index := RequestedMediaIndex(Get(q, "mediaIndex"));
       && index.Some? && index.value < |media|
       && media[index.value].videoResolution.Some?
       && EqIgnoreCase(media[index.value].videoResolution.value, env.fallbackFor.value)
       && FallbackCandidates(media, index.value, env.fallbackFor.value, env) != []
  }

  /** The version it would switch to. */
  function FallbackTarget(q: Query, env: Env): nat
    requires FallsBack(q, env)
  {
    FallbackCandidates(env.fallbackLookup.media, RequestedMediaIndex(Get(q, "mediaIndex")).value,
      env.fallbackFor.value, env)[0]
  }

  /** Nothing a handler downstream looks up is different, but for the given names. */
  ghost predicate SameBut(q: Query, r: Query, names: set<string>) {
    forall name | name !in names :: Get(r, name) == Get(q, name)
  }

  /** The first of the two bitrate parameters that is there is a number. */
  predicate AsksBitrate(q: Query) {
    if Get(q, "videoBitrate").Some? then ParseI64(Get(q, "videoBitrate").value).Some?
    else Get(q, "maxVideoBitrate").Some? && ParseI64(Get(q, "maxVideoBitrate").value).Some?
  }

  lemma SwitchedLookups(q: Query, index: nat)
    requires index <= U64_MAX
    ensures var r := Firsts(SwitchTo(q, index));
            && Requested(r) == Some(index)
            && SameBut(q, r, {"mediaIndex", "directStream", "directPlay", "subtitles"})
  {
    var r := Firsts(SwitchTo(q, index));
    assert Get(r, "mediaIndex") == Some(Decimal(index));
    PickedIndexIsRequested(r, index);
  }

  lemma SwitchedValues(q: Query, index: nat)
    ensures var r := Firsts(SwitchTo(q, index));
            && Get(r, "directPlay") == (if AsksBitrate(q) then Get(q, "directPlay") else Some("1"))
            && Get(r, "directStream") == Some("1") && Get(r, "subtitles") == Some("auto")
  {
  }

  lemma FallbackResult(q: Query, env: Env)
    requires env.uriParses
    ensures var r := TranscodeFallback(q, env).1;
            if FallsBack(q, env) then r == Firsts(SwitchTo(q, FallbackTarget(q, env))) else r == q || r == Firsts(q)
  {
  }

  /** No eligible version is denser than `i`, and none as dense comes before it. */
  ghost predicate Densest(media: seq<Media>, selected: nat, resolution: string, policy: Option<ResolutionPolicy>, i: nat) {
    && Eligible(media, selected, resolution, policy, i)
    && forall j: nat :: Eligible(media, selected, resolution, policy, j) && j != i ==>
         DensityAt(media, i) > DensityAt(media, j) || (DensityAt(media, i) == DensityAt(media, j) && i < j)
  }

  lemma FirstRankedIsDensest(media: seq<Media>, selected: nat, resolution: string, policy: Option<ResolutionPolicy>)
    requires FallbackOrder(media, selected, resolution, policy) != []
    ensures Densest(media, selected, resolution, policy, FallbackOrder(media, selected, resolution, policy)[0])
  {
    var order := FallbackOrder(media, selected, resolution, policy);
    FallbacksAreRanked(media, selected, resolution, policy);
    assert order[0] in order;
    forall j: nat | Eligible(media, selected, resolution, policy, j) && j != order[0]
      ensures || DensityAt(media, order[0]) > DensityAt(media, j)
              || (DensityAt(media, order[0]) == DensityAt(media, j) && order[0] < j)
    {
      assert j in order;
      var k :| 0 <= k < |order| && order[k] == j;
    }
  }

  /** The version switched to is the densest one, and no other is. */
  lemma TargetIsDensest(q: Query, env: Env, media: seq<Media>, pinned: nat)
    requires FallsBack(q, env) && env.fallbackLookup == Found(media)
    requires RequestedMediaIndex(Get(q, "mediaIndex")) == Some(pinned)
    ensures Densest(media, pinned, env.fallbackFor.value, KnownPolicy(env), FallbackTarget(q, env))
    ensures forall i: nat | Densest(media, pinned, env.fallbackFor.value, KnownPolicy(env), i) :: i == FallbackTarget(q, env)
  {
    FirstRankedIsDensest(media, pinned, env.fallbackFor.value, KnownPolicy(env));
  }

  /** The fallback handler watches for the label of the pinned version, and Plex would transcode it. */
  predicate FallbackDue(env: Env, media: seq<Media>, pinned: nat) {
    && !env.skipOptional && env.fallbackFor.Some? && env.fallbackLookup == Found(media) && env.transcoding == Some(true)
    && !(env.policyEnabled && env.security == Unavailable(true))
    && pinned < |media| && media[pinned].videoResolution.Some?
    && EqIgnoreCase(media[pinned].videoResolution.value, env.fallbackFor.value)
  }

  ghost predicate ProhibitedDensest(media: seq<Media>, pinned: nat, resolution: string, known: Option<ResolutionPolicy>,
                                    policy: ResolutionPolicy, i: nat)
  {
    Densest(media, pinned, resolution, known, i) && !MediaAllowed(media[i], policy)
  }

  /** The fallback is due, and the densest version with another label, as far as the policy the
      handler knows goes, is prohibited. */
  ghost predicate Escapes(env: Env, media: seq<Media>, policy: ResolutionPolicy, pinned: nat) {
    FallbackDue(env, media, pinned) &&
    exists i: nat :: ProhibitedDensest(media, pinned, env.fallbackFor.value, KnownPolicy(env), policy, i)
  }

  /** A handler that knows the policy never switches to a prohibited version. */
  lemma KnownPolicyNeverEscapes(env: Env, media: seq<Media>, policy: ResolutionPolicy, pinned: nat)
    requires env.security == Resolved(policy) || env.fallbackFor.None?
    ensures !Escapes(env, media, policy, pinned)
  {
  }

  lemma DueFallsBack(q: Query, env: Env, media: seq<Media>, i: nat)
    requires Requested(q).Some? && FallbackDue(env, media, Requested(q).value) && Get(q, "path").Some?
    requires Eligible(media, Requested(q).value, env.fallbackFor.value, KnownPolicy(env), i)
    ensures FallsBack(q, env)
  {
    FallbacksAreRanked(media, Requested(q).value, env.fallbackFor.value, KnownPolicy(env));
    assert i in FallbackCandidates(media, Requested(q).value, env.fallbackFor.value, env);
  }

  lemma FallingBackIsDue(q: Query, env: Env, media: seq<Media>)
    requires Requested(q).Some? && FallsBack(q, env) && env.fallbackLookup == Found(media)
    ensures FallbackDue(env, media, Requested(q).value) && Get(q, "path").Some?
    ensures RequestedMediaIndex(Get(q, "mediaIndex")) == Requested(q)
  {
  }

  lemma EscapesAtTarget(q: Query, env: Env, media: seq<Media>, policy: ResolutionPolicy)
    requires Requested(q).Some? && Get(q, "path").Some? && (env.fallbackLookup.Found? ==> env.fallbackLookup.media == media)
    ensures FallsBack(q, env) ==> FallbackTarget(q, env) < |media|
    ensures Escapes(env, media, policy, Requested(q).value) <==>
              FallsBack(q, env) && !MediaAllowed(media[FallbackTarget(q, env)], policy)
  {
    var pinned := Requested(q).value;
    if FallsBack(q, env) {
      FallingBackIsDue(q, env, media);
      TargetIsDensest(q, env, media, pinned);
      var target := FallbackTarget(q, env);
      if !MediaAllowed(media[target], policy) {
        assert ProhibitedDensest(media, pinned, env.fallbackFor.value, KnownPolicy(env), policy, target);
      }
    }
    if Escapes(env, media, policy, pinned) {
      var i: nat :| ProhibitedDensest(media, pinned, env.fallbackFor.value, KnownPolicy(env), policy, i);
      DueFallsBack(q, env, media, i);
    }
  }

  /** The transcode fallback leaves a permitted selection within policy unless it is due and the
      densest version to switch to, as far as it knows, is prohibited; and only then. */
  lemma FallbackStaysWithin(q: Query, env: Env, media: seq<Media>, policy: ResolutionPolicy)
    requires WithinPolicy(q, media, policy) && |media| <= U64_MAX && env.uriParses && Get(q, "path").Some?
    requires env.fallbackLookup.Found? ==> env.fallbackLookup.media == media
    ensures WithinPolicy(TranscodeFallback(q, env).1, media, policy) <==> !Escapes(env, media, policy, Requested(q).value)
  {
    FallbackResult(q, env);
    FirstsKeepGet(q, "mediaIndex");
    EscapesAtTarget(q, env, media, policy);
    if FallsBack(q, env) {
      SwitchedLookups(q, FallbackTarget(q, env));
    }
  }

  /** The handlers alone: whichever are enabled and whatever Plex answers, a restricted account that
      gets through has a permitted version selected, unless no policy was left for the request, the
      pinned version is one to fall back from, and the densest other version is prohibited; and
      only then. */
  lemma PipelineStaysWithinPolicy(q: Query, env: Env, media: seq<Media>, policy: ResolutionPolicy)
    requires Restricted(q, env, media, policy)
    ensures var (verdict, r) := Decide(q, env);
            verdict == Continue ==>
              (WithinPolicy(r, media, policy) <==>
                 !(env.security.Missing? && Escapes(env, media, policy, Pinned(q, media, policy, env.screen))))
  {
    EnforceSelects(q, env, media, policy);
    var (verdict, enforced) := Enforce(q, env);
    if verdict == Continue {
      SelectionKeepsChoice(enforced, env);
      var chosen := AfterSelection(enforced, env);
      FallbackStaysWithin(chosen, env, media, policy);
      DirectStreamKeepsChoice(TranscodeFallback(chosen, env).1, env);
      if env.security == Resolved(policy) {
        KnownPolicyNeverEscapes(env, media, policy, Pinned(q, media, policy, env.screen));
      }
    }
  }

  /** The start and subtitle routes have the policy handler, selection and quality forcing alone. */
  lemma StartStaysWithinPolicy(q: Query, env: Env, media: seq<Media>, policy: ResolutionPolicy)
    requires Restricted(q, env, media, policy)
    ensures var (verdict, enforced) := Enforce(q, env);
            verdict == Continue ==> WithinPolicy(AfterSelection(enforced, env), media, policy)
  {
    EnforceSelects(q, env, media, policy);
    if Enforce(q, env).0 == Continue {
      SelectionKeepsChoice(Enforce(q, env).1, env);
    }
  }

  // ----- what the optional handlers are for -----

  /** The client left the choice open, and there is something to choose from. */
  predicate Selects(q: Query, env: Env) {
    && env.uriParses && !env.skipOptional
    && (Get(q, "mediaIndex").None? || Get(q, "mediaIndex") == Some("-1"))
    && env.screen.Some? && env.screen.value.0 >= 0 && env.screen.value.1 >= 0
    && Get(q, "path").Some? && env.selectLookup.Found? && |env.selectLookup.media| > 1
  }

  lemma AskedLookups(q: Query, index: nat)
    requires index <= U64_MAX
    ensures var r := Firsts(AskFor(q, index));
            && Requested(r) == Some(index)
            && SameBut(q, r, {"mediaIndex", "directPlay", "subtitles"})
            && Get(r, "directPlay") == (if AsksBitrate(q) then Get(q, "directPlay") else Some("1"))
            && Get(r, "subtitles") == Some("auto")
  {
    var r := Firsts(AskFor(q, index));
    assert Get(r, "mediaIndex") == Some(Decimal(index));
    PickedIndexIsRequested(r, index);
  }

  lemma AutoSelectResult(q: Query, env: Env)
    ensures var r := AutoSelect(q, env);
            if Selects(q, env) then
              var best := BestFitIndex(env.selectLookup.media, env.screen.value);
              best.Some? && best.value < |env.selectLookup.media| && r == Firsts(AskFor(q, best.value))
            else r == q || r == Firsts(q)
  {
    if env.screen.Some? && env.selectLookup.Found? {
      BestFitIsFirstBest(env.selectLookup.media, env.screen.value);
    }
  }

  /** Automatic selection asks for the version that fits the screen best, exactly when the client
      left the choice open; it asks for direct play unless a bitrate was requested, and for automatic
      subtitles. */
  lemma AutoSelectPicksBestFit(q: Query, env: Env)
    requires env.selectLookup.Found? ==> |env.selectLookup.media| <= U64_MAX
    ensures var r := AutoSelect(q, env);
            if Selects(q, env) then
              && Requested(r).Some?
              && Requested(r) == BestFitIndex(env.selectLookup.media, env.screen.value)
              && SameBut(q, r, {"mediaIndex", "directPlay", "subtitles"})
              && Get(r, "directPlay") == (if AsksBitrate(q) then Get(q, "directPlay") else Some("1"))
              && Get(r, "subtitles") == Some("auto")
            else SameBut(q, r, {})
  {
    AutoSelectResult(q, env);
    if Selects(q, env) {
      AskedLookups(q, BestFitIndex(env.selectLookup.media, env.screen.value).value);
    }
  }

  /** The fallback switches to the densest eligible version, asking for direct play unless a bitrate was
      requested, or leaves everything as it is. */
  lemma FallbackSwitchesToDensest(q: Query, env: Env)
    requires env.uriParses && (env.fallbackLookup.Found? ==> |env.fallbackLookup.media| <= U64_MAX)
    ensures var r := TranscodeFallback(q, env).1;
            if FallsBack(q, env) then
              && Requested(r).Some?
              && Densest(env.fallbackLookup.media, RequestedMediaIndex(Get(q, "mediaIndex")).value, env.fallbackFor.value,
                   KnownPolicy(env), Requested(r).value)
              && SameBut(q, r, {"mediaIndex", "directStream", "directPlay", "subtitles"})
              && Get(r, "directPlay") == (if AsksBitrate(q) then Get(q, "directPlay") else Some("1"))
              && Get(r, "directStream") == Some("1") && Get(r, "subtitles") == Some("auto")
            else SameBut(q, r, {})
  {
    FallbackResult(q, env);
    if FallsBack(q, env) {
      var media, selected := env.fallbackLookup.media, RequestedMediaIndex(Get(q, "mediaIndex")).value;
      FirstRankedIsDensest(media, selected, env.fallbackFor.value, KnownPolicy(env));
      SwitchedLookups(q, FallbackTarget(q, env));
      SwitchedValues(q, FallbackTarget(q, env));
    }
  }

  lemma AskOriginalLookups(q: Query)
    ensures var r := AskOriginal(q);
            && Get(r, "maxVideoBitrate").None? && Get(r, "videoBitrate").None?
            && Get(r, "directPlay") == Some("1") == Get(r, "directStream")
            && Get(r, "mediaIndex") == Get(q, "mediaIndex") && Get(r, "path") == Get(q, "path")
  {
  }

  lemma NotForcedIsUnchanged(q: Query, env: Env)
    requires !Forces(q, env)
    ensures ForceMaximum(q, env) == q
  {
  }

  /** When quality forcing goes through, no bitrate is left and the original is asked for; when it
      does not, nothing changes. The selected version is the same either way. */
  lemma ForceMaximumAsksForOriginal(q: Query, env: Env)
    ensures !Forces(q, env) ==> ForceMaximum(q, env) == q
    ensures Forces(q, env) ==>
              var r := ForceMaximum(q, env);
              && Get(r, "maxVideoBitrate").None? && Get(r, "videoBitrate").None?
              && Get(r, "directPlay") == Some("1") == Get(r, "directStream")
              && Get(r, "mediaIndex") == Get(q, "mediaIndex") && Get(r, "path") == Get(q, "path")
  {
    if Forces(q, env) {
      AskOriginalLookups(q);
      forall name | name in SETTLED ensures Get(ForceMaximum(q, env), name) == Get(AskOriginal(q), name) {
        ForcedLookup(q, env, name);
      }
    } else {
      NotForcedIsUnchanged(q, env);
    }
  }

  // ----- why the fallback needs the middleware -----

  const SMALL := Media(1, Some("1080"), Some(1920), Some(1080), None, [])
  const LARGE := Media(2, Some("4k"), Some(3840), Some(2160), None, [])
  const UP_TO_1080 := ResolutionPolicy(P1080, None, [])

  /** A request for which nothing was left. */
  const UNGUARDED := Env(true, true, true, Missing(Some(UP_TO_1080)), None, false, false, false, None, Some("1080"),
    Found([SMALL, LARGE]), Failed, Failed, Found([SMALL, LARGE]), x => x, x => x, Some(true), NotPlayable)

  const PLAY_FIRST: Query := map["path" := ["/library/metadata/7"], "mediaIndex" := ["0"]]

  lemma PlayFirstAsksForTheFirst()
    ensures Requested(PLAY_FIRST) == Some(0) == RequestedMediaIndex(Get(PLAY_FIRST, "mediaIndex"))
  {
    assert Get(PLAY_FIRST, "mediaIndex") == Some("0") && "0" == Decimal(0);
    PickedIndexIsRequested(PLAY_FIRST, 0);
  }

  lemma PlayFirstIsRestricted()
    ensures Restricted(PLAY_FIRST, UNGUARDED, [SMALL, LARGE], UP_TO_1080)
  {
  }

  lemma PlayFirstIsVetted()
    ensures Enforce(PLAY_FIRST, UNGUARDED) == (Continue, PLAY_FIRST)
  {
    PlayFirstAsksForTheFirst();
    SmallIsPermitted();
    assert PinIndex(PLAY_FIRST, [SMALL, LARGE], UP_TO_1080, UNGUARDED) == (Continue, PLAY_FIRST);
    assert EnforceWith(PLAY_FIRST, UP_TO_1080, UNGUARDED) == PinIndex(PLAY_FIRST, [SMALL, LARGE], UP_TO_1080, UNGUARDED);
  }

  lemma OnlyTheLargeOneIsLeft()
    ensures Densest([SMALL, LARGE], 0, "1080", None, 1)
  {
    assert ToAsciiLower("4k")[0] != ToAsciiLower("1080")[0];
  }

  lemma ThenTheFallbackSwitches()
    ensures Escapes(UNGUARDED, [SMALL, LARGE], UP_TO_1080, 0)
    ensures TranscodeFallback(PLAY_FIRST, UNGUARDED).0 == Continue
  {
    OnlyTheLargeOneIsLeft();
    LargeIsProhibited();
    assert KnownPolicy(UNGUARDED) == None && UNGUARDED.fallbackFor == Some("1080");
    assert ProhibitedDensest([SMALL, LARGE], 0, UNGUARDED.fallbackFor.value, KnownPolicy(UNGUARDED), UP_TO_1080, 1);
  }

  /** The handlers would let it through with the 4K version: the policy handler vets the request, and
      the fallback handler, which looks nothing up for itself, moves it. */
  lemma FallbackNeedsSecurityState()
    ensures Restricted(PLAY_FIRST, UNGUARDED, [SMALL, LARGE], UP_TO_1080)
    ensures Decide(PLAY_FIRST, UNGUARDED).0 == Continue
    ensures !WithinPolicy(Decide(PLAY_FIRST, UNGUARDED).1, [SMALL, LARGE], UP_TO_1080)
  {
    PlayFirstIsRestricted();
    PlayFirstIsVetted();
    PlayFirstAsksForTheFirst();
    SmallIsPermitted();
    ThenTheFallbackSwitches();
    assert AfterSelection(PLAY_FIRST, UNGUARDED) == PLAY_FIRST;
    PipelineStaysWithinPolicy(PLAY_FIRST, UNGUARDED, [SMALL, LARGE], UP_TO_1080);
  }

  lemma SmallIsPermitted()
    ensures MediaAllowed(SMALL, UP_TO_1080)
  {
    LabelOfFullHd();
  }

  lemma LargeIsProhibited()
    ensures !MediaAllowed(LARGE, UP_TO_1080)
  {
    AllowedNeedsEverySource(LARGE, UP_TO_1080);
  }

  lemma SelectionNeedsAnUri(q: Query, env: Env)
    requires !env.uriParses
    ensures AutoSelect(q, env) == q && ForceMaximum(q, env) == q
  {
  }

  lemma FallbackNeedsAnUri(q: Query, env: Env)
    requires !env.uriParses
    ensures TranscodeFallback(q, env).1 == q && DirectStreamFallback(q, env).1 == q
  {
  }

  /** With a request URI that does not parse, no handler changes the query: the choice stays as
      the client made it. */
  lemma UnparsableUriIsNotRewritten(q: Query, env: Env)
    requires !env.uriParses
    ensures Decide(q, env).1 == q
  {
    assert Enforce(q, env).1 == q;
    SelectionNeedsAnUri(q, env);
    FallbackNeedsAnUri(q, env);
  }

  // ----- the bitrate cap -----

  lemma PinKeepsBitrate(q: Query, media: seq<Media>, policy: ResolutionPolicy, env: Env)
    ensures CurrentBitrate(PinIndex(q, media, policy, env).1) == CurrentBitrate(q)
  {
    var r := PinIndex(q, media, policy, env).1;
    assert Get(r, "maxVideoBitrate") == Get(q, "maxVideoBitrate");
    assert Get(r, "videoBitrate") == Get(q, "videoBitrate");
  }

  lemma CapLowersBitrate(q: Query, cap: I64)
    ensures CurrentBitrate(CapBitrate(q, cap, true)) == Some(Min(CurrentBitrate(q).GetOr(cap), cap))
  {
    ParseSignedDecimal(cap);
    var stripped := Put(q - {"videoBitrate", "maxVideoBitrate"}, "maxVideoBitrate", SignedDecimal(cap));
    FirstsKeepGet(stripped, "maxVideoBitrate");
    assert Get(stripped, "maxVideoBitrate") == Some(SignedDecimal(cap));
  }

  lemma EnforceEnds(q: Query, policy: ResolutionPolicy, env: Env)
    requires policy.maxBitrate.Some? && env.uriParses
    ensures var (capped, r) := (CapBitrate(q, policy.maxBitrate.value, true), EnforceWith(q, policy, env).1);
            || r == capped
            || (env.enforceLookup.Found? && r == PinIndex(capped, env.enforceLookup.media, policy, env).1)
  {
  }

  /** After the policy handler, the requested bitrate is the smaller of the old one and the cap,
      whatever else the handler decides. */
  lemma BitrateIsCapped(q: Query, policy: ResolutionPolicy, env: Env)
    requires policy.maxBitrate.Some? && env.uriParses
    ensures CurrentBitrate(EnforceWith(q, policy, env).1)
         == Some(Min(CurrentBitrate(q).GetOr(policy.maxBitrate.value), policy.maxBitrate.value))
  {
    var capped := CapBitrate(q, policy.maxBitrate.value, true);
    CapLowersBitrate(q, policy.maxBitrate.value);
    EnforceEnds(q, policy, env);
    if env.enforceLookup.Found? {
      PinKeepsBitrate(capped, env.enforceLookup.media, policy, env);
    }
  }
}
