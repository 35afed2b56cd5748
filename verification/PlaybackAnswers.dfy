/** What each playback handler answers and changes (src/routes.rs), parameter by parameter. */
module PlaybackAnswers {
  import opened Prelude
  import opened Text
  import opened Queries
  import opened Models
  import opened ResolutionPolicies
  import opened Selection
  import opened Playback

  // ----- the policy handler -----

  /** How it answers for an account whose policy it knows: a restricted one is refused when its item cannot
      be loaded and the policy fails closed, and when no version of the item is permitted. */
  lemma KnownPolicyVerdict(q: Query, policy: ResolutionPolicy, env: Env)
    ensures EnforceWith(q, policy, env).0 ==
              if policy.limit == Unlimited || Get(q, "path").None? || env.enforceLookup == Found([]) then Continue
              else if env.enforceLookup == Failed then (if env.failClosed then Reject(503) else Continue)
              else if env.enforceLookup == NoEntry then (if env.failClosed then Reject(502) else Continue)
              else if exists m | m in env.enforceLookup.media :: MediaAllowed(m, policy) then Continue
              else Reject(403)
  {
    if policy.maxBitrate.Some? {
      CapKeepsChoice(q, policy.maxBitrate.value, env.uriParses);
    }
    if env.enforceLookup.Found? {
      PinAnswers(q, policy, env);
    }
  }

  lemma PinAnswers(q: Query, policy: ResolutionPolicy, env: Env)
    requires env.enforceLookup.Found?
    ensures var capped := if policy.maxBitrate.Some? then CapBitrate(q, policy.maxBitrate.value, env.uriParses) else q;
            PinIndex(capped, env.enforceLookup.media, policy, env).0 ==
              if exists m | m in env.enforceLookup.media :: MediaAllowed(m, policy) then Continue else Reject(403)
  {
    var media := env.enforceLookup.media;
    BestAllowedExists(media, policy, env.screen);
    var best := BestAllowedMedia(media, policy, env.screen);
    if best.Some? {
      PositionFinds(media, best.value);
    }
  }

  /** Without the policy it lets everything through; an account that cannot be identified is refused if and
      only if the policy fails closed. */
  lemma PolicyVerdict(q: Query, env: Env)
    ensures !env.policyEnabled ==> Enforce(q, env) == (Continue, q)
    ensures env.policyEnabled ==>
              match env.security
              case Unavailable(failClosed) => Enforce(q, env) == (if failClosed then Reject(503) else Continue, q)
              case Missing(None) => Enforce(q, env) == (Error, q)
              case Missing(Some(policy)) => Enforce(q, env) == EnforceWith(q, policy, env)
              case Resolved(policy) => Enforce(q, env) == EnforceWith(q, policy, env)
  {
  }

  /** The bitrate that a request asks for, under the first of the two names. */
  function AskedBitrate(q: Query, first: string, second: string): Option<int> {
    if Get(q, first).Some? then ParseI64(Get(q, first).value)
    else if Get(q, second).Some? then ParseI64(Get(q, second).value)
    else None
  }

  /** A bitrate above the cap, or none that can be read, is replaced by the cap under one name. */
  lemma CapsExactly(q: Query, cap: I64)
    ensures var (r, asked) := (CapBitrate(q, cap, true), AskedBitrate(q, "maxVideoBitrate", "videoBitrate"));
            if asked.Some? && asked.value <= cap then r == q
            else
              && Get(r, "maxVideoBitrate") == Some(SignedDecimal(cap)) && Get(r, "videoBitrate").None?
              && SameBut(q, r, {"maxVideoBitrate", "videoBitrate"})
  {
    assert CurrentBitrate(q) == AskedBitrate(q, "maxVideoBitrate", "videoBitrate");
    assert "maxVideoBitrate"[0] != "videoBitrate"[0];
  }

  /** It changes the version and the bitrate, and the version only when it pins one. */
  lemma PolicyTouchesOnly(q: Query, policy: ResolutionPolicy, env: Env)
    ensures SameBut(q, EnforceWith(q, policy, env).1, {"mediaIndex", "maxVideoBitrate", "videoBitrate"})
    ensures policy.maxBitrate.None? ==> SameBut(q, EnforceWith(q, policy, env).1, {"mediaIndex"})
    ensures policy.limit == Unlimited && policy.maxBitrate.None? ==> EnforceWith(q, policy, env).1 == q
  {
    HandlerEnds(q, policy, env);
    if policy.maxBitrate.Some? {
      CapTouchesOnly(q, policy, env);
    }
    if env.enforceLookup.Found? {
      PinTouchesOnly(Capped(q, policy, env), policy, env);
    }
  }

  function Capped(q: Query, policy: ResolutionPolicy, env: Env): Query {
    if policy.maxBitrate.Some? then CapBitrate(q, policy.maxBitrate.value, env.uriParses) else q
  }

  lemma HandlerEnds(q: Query, policy: ResolutionPolicy, env: Env)
    ensures var r := EnforceWith(q, policy, env).1;
            || r == Capped(q, policy, env)
            || (policy.limit != Unlimited && env.enforceLookup.Found?
                && r == PinIndex(Capped(q, policy, env), env.enforceLookup.media, policy, env).1)
  {
  }

  lemma CapTouchesOnly(q: Query, policy: ResolutionPolicy, env: Env)
    requires policy.maxBitrate.Some?
    ensures SameBut(q, CapBitrate(q, policy.maxBitrate.value, env.uriParses), {"maxVideoBitrate", "videoBitrate"})
  {
  }

  lemma PinTouchesOnly(q: Query, policy: ResolutionPolicy, env: Env)
    requires env.enforceLookup.Found?
    ensures SameBut(q, PinIndex(q, env.enforceLookup.media, policy, env).1, {"mediaIndex"})
  {
  }

  // ----- quality forcing -----

  /** A value is rewritten where there is one. */
  function Edited(value: Option<string>, f: string -> string): Option<string> {
    if value.Some? then Some(f(value.value)) else None
  }

  /** The version that is played has one of the resolutions to be played directly. */
  ghost predicate PlaysDirectly(q: Query, env: Env) {
    && env.directPlayFor.Some? && Get(q, "path").Some? && env.forceLookup.Found?
    && Requested(q).GetOr(0) < |env.forceLookup.media|
    && env.forceLookup.media[Requested(q).GetOr(0)].videoResolution.Some?
    && exists r | r in env.directPlayFor.value ::
         EqIgnoreCase(env.forceLookup.media[Requested(q).GetOr(0)].videoResolution.value, r)
  }

  const FORCED := {"maxVideoBitrate", "videoBitrate", "autoAdjustQuality", "directStream", "directPlay", "videoQuality",
                   "mediaBufferSize", "X-Plex-Client-Profile-Extra", "videoResolution"}

  lemma AsksOriginal(q: Query)
    ensures var r := AskOriginal(q);
            && Get(r, "maxVideoBitrate").None? && Get(r, "videoBitrate").None?
            && Get(r, "autoAdjustQuality") == Some("0") && Get(r, "directStream") == Some("1")
            && Get(r, "directPlay") == Some("1") && Get(r, "videoQuality") == Some("100")
            && SameBut(q, r, {"maxVideoBitrate", "videoBitrate", "autoAdjustQuality", "directStream", "directPlay",
                              "videoQuality"})
  {
  }

  lemma RewritesBoth(q: Query, env: Env)
    ensures var r := Rewritten(q, env);
            && Get(r, "mediaBufferSize") == Edited(Get(q, "mediaBufferSize"), env.rewriteBufferSize)
            && Get(r, "X-Plex-Client-Profile-Extra") == Edited(Get(q, "X-Plex-Client-Profile-Extra"), env.rewriteProfileExtra)
            && SameBut(q, r, {"mediaBufferSize", "X-Plex-Client-Profile-Extra"})
  {
    assert "mediaBufferSize"[0] != "X-Plex-Client-Profile-Extra"[0];
  }

  lemma FirstsKeepAll(q: Query)
    ensures SameBut(q, Firsts(q), {})
  {
  }

  lemma PrefersDirect(q: Query, resolutions: seq<string>, resolution: Option<string>)
    requires Get(q, "directPlay") == Some("1")
    ensures var (r, listed) := (PreferDirect(q, resolutions, resolution),
                                resolution.Some? && exists x | x in resolutions :: EqIgnoreCase(resolution.value, x));
            && SameBut(q, r, {"videoResolution"})
            && Get(r, "videoResolution") == (if listed then None else Get(q, "videoResolution"))
  {
  }

  /** The two bitrates are gone, the original is asked for in full quality, and both rewritten parameters
      are; but for the resolution, every other parameter is as it was. */
  ghost predicate IsForced(q: Query, r: Query, env: Env) {
    && Get(r, "maxVideoBitrate").None? && Get(r, "videoBitrate").None?
    && Get(r, "autoAdjustQuality") == Some("0") && Get(r, "directStream") == Some("1")
    && Get(r, "directPlay") == Some("1") && Get(r, "videoQuality") == Some("100")
    && Get(r, "mediaBufferSize") == Edited(Get(q, "mediaBufferSize"), env.rewriteBufferSize)
    && Get(r, "X-Plex-Client-Profile-Extra") == Edited(Get(q, "X-Plex-Client-Profile-Extra"), env.rewriteProfileExtra)
    && SameBut(q, r, FORCED)
  }

  lemma OriginalIsForced(q: Query, env: Env)
    ensures var r := Rewritten(AskOriginal(q), env);
            IsForced(q, r, env) && Get(r, "videoResolution") == Get(q, "videoResolution")
  {
    AsksOriginal(q);
    RewritesBoth(AskOriginal(q), env);
    NamesDiffer();
  }

  lemma StaysForced(q: Query, r: Query, r': Query, env: Env)
    requires IsForced(q, r, env) && SameBut(r, r', {"videoResolution"})
    ensures IsForced(q, r', env)
  {
    NamesDiffer();
  }

  lemma ForcesPlayed(q: Query, env: Env, resolutions: seq<string>, resolution: Option<string>)
    ensures var r := Firsts(PreferDirect(Rewritten(AskOriginal(q), env), resolutions, resolution));
            && IsForced(q, r, env)
            && Get(r, "videoResolution") ==
                 if resolution.Some? && exists x | x in resolutions :: EqIgnoreCase(resolution.value, x) then None
                 else Get(q, "videoResolution")
  {
    var rewritten := Rewritten(AskOriginal(q), env);
    var preferred := PreferDirect(rewritten, resolutions, resolution);
    OriginalIsForced(q, env);
    PrefersDirect(rewritten, resolutions, resolution);
    FirstsKeepAll(preferred);
    StaysForced(q, rewritten, Firsts(preferred), env);
  }

  lemma ForcedQuery(q: Query, env: Env)
    requires Forces(q, env)
    ensures var rewritten := Rewritten(AskOriginal(q), env);
            ForceMaximum(q, env) == Firsts(
              if env.directPlayFor.None? || Get(q, "path").None? then rewritten
              else PreferDirect(rewritten, env.directPlayFor.value,
                     env.forceLookup.media[Requested(q).GetOr(0)].videoResolution))
  {
  }

  /** When it goes through, the query is forced in this sense, and the resolution is dropped exactly for a
      version to be played directly. */
  lemma ForcesExactly(q: Query, env: Env)
    requires Forces(q, env)
    ensures var r := ForceMaximum(q, env);
            && IsForced(q, r, env)
            && Get(r, "videoResolution") == (if PlaysDirectly(q, env) then None else Get(q, "videoResolution"))
  {
    var rewritten := Rewritten(AskOriginal(q), env);
    ForcedQuery(q, env);
    if env.directPlayFor.None? || Get(q, "path").None? {
      OriginalIsForced(q, env);
      FirstsKeepAll(rewritten);
      StaysForced(q, rewritten, Firsts(rewritten), env);
    } else {
      ForcesPlayed(q, env, env.directPlayFor.value, env.forceLookup.media[Requested(q).GetOr(0)].videoResolution);
    }
  }

  lemma NamesDiffer()
    ensures "mediaBufferSize" !in REST && "X-Plex-Client-Profile-Extra" !in REST
    ensures "videoResolution" !in {"maxVideoBitrate", "videoBitrate", "autoAdjustQuality", "directStream", "directPlay",
                                   "videoQuality"}
  {
    assert "videoResolution"[5] == 'R' && "videoQuality"[5] == 'Q' && "videoBitrate"[5] == 'B';
  }

  /** The forced parameters that are not rewritten. */
  const REST := {"maxVideoBitrate", "videoBitrate", "autoAdjustQuality", "directStream", "directPlay", "videoQuality",
                 "videoResolution"}

  // ----- the transcode fallback -----

  /** The version played has the label to fall back from, and there is another one. */
  predicate MayFallBack(q: Query, env: Env) {
    && !env.skipOptional && env.fallbackFor.Some? && Get(q, "path").Some? && env.fallbackLookup.Found?
    && |env.fallbackLookup.media| > 1
    && var index := RequestedMediaIndex(Get(q, "mediaIndex"));
       && index.Some? && index.value < |env.fallbackLookup.media|
       && var name := env.fallbackLookup.media[index.value].videoResolution;
          name.Some? && EqIgnoreCase(name.value, env.fallbackFor.value)
  }

  /** It fails exactly when Plex has to be asked what it would do, and does not answer. */
  lemma FallbackVerdict(q: Query, env: Env)
    ensures TranscodeFallback(q, env).0 == if MayFallBack(q, env) && env.transcoding.None? then Error else Continue
  {
  }

  // ----- the pipeline -----

  /** The two optional handlers run if they are switched on, version selection first. */
  lemma SelectionIsWired(q: Query, env: Env)
    ensures AfterSelection(q, env) ==
              match (env.autoSelect, env.forceMaximum)
              case (true, true) => ForceMaximum(AutoSelect(q, env), env)
              case (true, false) => AutoSelect(q, env)
              case (false, true) => ForceMaximum(q, env)
              case (false, false) => q
  {
  }

  /** The handlers after the policy handler never refuse, and do not run if it does; the first of them that
      fails ends the request. */
  lemma DecisionVerdict(q: Query, env: Env)
    ensures var (verdict, enforced) := Enforce(q, env);
            var selected := AfterSelection(enforced, env);
            Decide(q, env).0 ==
              if verdict != Continue then verdict
              else if MayFallBack(selected, env) && env.transcoding.None? then Error
              else DirectStreamFallback(TranscodeFallback(selected, env).1, env).0
    ensures DirectStreamFallback(q, env).0 != Continue ==> DirectStreamFallback(q, env).0 == Error
  {
    FallbackVerdict(AfterSelection(Enforce(q, env).1, env), env);
  }
}
