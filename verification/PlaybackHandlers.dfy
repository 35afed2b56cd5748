/** The playback handlers as they run: each one edits the request in place (src/routes.rs).
    Their contracts tie the edits to the functions of `Playback`. */
module PlaybackHandlers {
  import opened Prelude
  import opened Text
  import opened Queries
  import opened Models
  import opened ResolutionPolicies
  import opened Selection
  import opened Playback

  class Request {
    var query: Query

    constructor (query: Query)
      ensures this.query == query
    {
      this.query := query;
    }

    /** `replace_query`: clear the URL's pairs, then append what iterating over `queries` yields. */
    method ReplaceQuery(queries: Query, env: Env)
      modifies this
      ensures query == Replaced(old(query), queries, env.uriParses)
    {
      if !env.uriParses {
        return;
      }
      var pairs: Query := map[];
      var names := queries.Keys;
      while names != {}
        invariant names <= queries.Keys
        invariant pairs == Firsts(map n | n in queries && n !in names :: queries[n])
        decreases |names|
      {
        var name :| name in names;
        names := names - {name};
        if queries[name] != [] {
          pairs := pairs[name := [queries[name][0]]];
        }
      }
      assert (map n | n in queries && n !in names :: queries[n]) == queries;
      query := pairs;
    }

    /** `enforce_resolution_policy`, from the bitrate cap on. */
    method EnforcePolicy(policy: ResolutionPolicy, env: Env) returns (outcome: Outcome)
      modifies this
      ensures (outcome, query) == EnforceWith(old(query), policy, env)
    {
      if policy.IsUnrestricted() && policy.maxBitrate.None? {
        return Continue;
      }
      if policy.maxBitrate.Some? {
        CapVideoBitrate(policy.maxBitrate.value, env);
      }
      if policy.IsUnrestricted() || Get(query, "path").None? {
        return Continue;
      }
      match env.enforceLookup {
        case Failed =>
          return if env.failClosed then Reject(503) else Continue;
        case NoEntry =>
          return if env.failClosed then Reject(502) else Continue;
        case Found(media) =>
          if media == [] {
            return Continue;
          }
          outcome := PinPermittedVersion(media, policy, env);
      }
    }

    method CapVideoBitrate(cap: I64, env: Env)
      modifies this
      ensures query == CapBitrate(old(query), cap, env.uriParses)
    {
      var queries := query;
      var value := Get(queries, "maxVideoBitrate");
      if value.None? {
        value := Get(queries, "videoBitrate");
      }
      var current := AsI64(value);
      var effective := if current.Some? then Min(current.value, cap) else cap;
      if current.None? || current.value > effective {
        queries := queries - {"videoBitrate"} - {"maxVideoBitrate"};
        queries := queries["maxVideoBitrate" := [SignedDecimal(effective)]];
        assert queries == Put(query - {"videoBitrate", "maxVideoBitrate"}, "maxVideoBitrate", SignedDecimal(cap));
        ReplaceQuery(queries, env);
      }
    }

    method PinPermittedVersion(media: seq<Media>, policy: ResolutionPolicy, env: Env) returns (outcome: Outcome)
      modifies this
      ensures (outcome, query) == PinIndex(old(query), media, policy, env)
    {
      var requested := Requested(query);
      if requested.Some? && requested.value < |media| && MediaAllowed(media[requested.value], policy) {
        return Continue;
      }
      var best := BestAllowedMedia(media, policy, env.screen);
      if best.None? {
        return Reject(403);
      }
      var index := Position(media, best.value.id);
      if index.Some? {
        var queries := query - {"mediaIndex"};
        queries := queries["mediaIndex" := [Decimal(index.value)]];
        assert queries == Put(query, "mediaIndex", Decimal(index.value));
        ReplaceQuery(queries, env);
      }
      return Continue;
    }

    /** `enforce_resolution_policy`. */
    method EnforceResolutionPolicy(env: Env) returns (outcome: Outcome)
      modifies this
      ensures (outcome, query) == Enforce(old(query), env)
    {
      if !env.policyEnabled {
        return Continue;
      }
      match env.security {
        case Resolved(policy) =>
          outcome := EnforcePolicy(policy, env);
        case Unavailable(failClosed) =>
          return if failClosed then Reject(503) else Continue;
        case Missing(account) =>
          if account.None? {
            return Error;
          }
          outcome := EnforcePolicy(account.value, env);
      }
    }

    /** `auto_select_version`. */
    method AutoSelectVersion(env: Env)
      modifies this
      ensures query == AutoSelect(old(query), env)
    {
      if env.skipOptional {
        return;
      }
      var queries := query;
      var mediaIndex := Get(queries, "mediaIndex");
      if (mediaIndex.Some? && mediaIndex.value != "-1") || env.screen.None? {
        return;
      }
      if Get(queries, "path").Some? {
        if !env.selectLookup.Found? || |env.selectLookup.media| <= 1 {
          return;
        }
        var bitrate := Get(queries, "videoBitrate");
        if bitrate.None? {
          bitrate := Get(queries, "maxVideoBitrate");
        }
        var index := BestFitIndex(env.selectLookup.media, env.screen.value);
        if index.Some? {
          queries := queries["mediaIndex" := [Decimal(index.value)]];
          if AsI64(bitrate).None? {
            queries := queries["directPlay" := ["1"]];
          }
          queries := queries["subtitles" := ["auto"]];
        }
      }
      ReplaceQuery(queries, env);
    }

    /** `force_maximum_quality`. */
    method ForceMaximumQuality(env: Env)
      modifies this
      ensures query == ForceMaximum(old(query), env)
    {
      var queries := query;
      if env.skipOptional || (Get(queries, "maxVideoBitrate").None? && Get(queries, "videoBitrate").None?) {
        return;
      }
      queries := queries - {"maxVideoBitrate", "videoBitrate"};
      queries := queries["autoAdjustQuality" := ["0"]]["directStream" := ["1"]];
      queries := queries["directPlay" := ["1"]]["videoQuality" := ["100"]];
      assert queries == AskOriginal(query);
      queries := Rewrite(queries, "mediaBufferSize", env.rewriteBufferSize);
      queries := Rewrite(queries, "X-Plex-Client-Profile-Extra", env.rewriteProfileExtra);
      if env.directPlayFor.Some? && Get(query, "path").Some? {
        var index := Requested(query).GetOr(0);
        if !env.forceLookup.Found? || index >= |env.forceLookup.media| {
          return;
        }
        queries := PreferDirectPlay(queries, env.directPlayFor.value, env.forceLookup.media[index].videoResolution);
      }
      ReplaceQuery(queries, env);
    }

    /** The loop over the configured resolutions. */
    method PreferDirectPlay(queries: Query, resolutions: seq<string>, resolution: Option<string>) returns (r: Query)
      ensures r == PreferDirect(queries, resolutions, resolution)
    {
      r := queries;
      for i := 0 to |resolutions|
        invariant r == PreferDirect(queries, resolutions[..i], resolution)
      {
        assert resolutions[..i + 1] == resolutions[..i] + [resolutions[i]];
        if resolution.Some? && EqIgnoreCase(resolution.value, resolutions[i]) {
          r := r["directPlay" := ["1"]] - {"videoResolution"};
        }
      }
      assert resolutions[..|resolutions|] == resolutions;
    }

    /** `video_transcode_fallback`. */
    method VideoTranscodeFallback(env: Env) returns (outcome: Outcome)
      modifies this
      ensures (outcome, query) == TranscodeFallback(old(query), env)
    {
      outcome := Continue;
      if env.skipOptional {
        return;
      }
      var queries, originalQueries := query, query;
      var index := RequestedMediaIndex(Get(query, "mediaIndex"));
      if index.None? || env.fallbackFor.None? || Get(query, "path").None? || !env.fallbackLookup.Found? {
        return;
      }
      var media := env.fallbackLookup.media;
      if index.value >= |media| {
        return;
      }
      var resolution := media[index.value].videoResolution;
      if resolution.None? || !EqIgnoreCase(resolution.value, env.fallbackFor.value) || |media| <= 1 {
        return;
      }
      if env.transcoding.None? {
        return Error;
      }
      if !env.transcoding.value {
        return;
      }
      var candidates := FallbackCandidates(media, index.value, env.fallbackFor.value, env);
      if candidates == [] {
        ReplaceQuery(originalQueries, env);
        return;
      }
      var bitrate := Get(queries, "videoBitrate");
      if bitrate.None? {
        bitrate := Get(queries, "maxVideoBitrate");
      }
      queries := queries["mediaIndex" := [Decimal(candidates[0])]]["directStream" := ["1"]];
      if AsI64(bitrate).None? {
        queries := queries["directPlay" := ["1"]];
      }
      queries := queries["subtitles" := ["auto"]];
      ReplaceQuery(queries, env);
    }

    /** `add_query_param_salvo`. */
    method AddQueryParam(name: string, value: string, env: Env)
      modifies this
      ensures query == Added(old(query), name, value, env.uriParses)
    {
      if env.uriParses {
        query := query[name := [value]];
      }
    }

    /** `direct_stream_fallback`. */
    method FallBackToDirectStream(env: Env) returns (outcome: Outcome)
      modifies this
      ensures (outcome, query) == DirectStreamFallback(old(query), env)
    {
      outcome := Continue;
      if env.skipOptional || Get(query, "directPlay").GetOr("1") != "1" {
        return;
      }
      match env.directPlay {
        case Playable =>
        case OtherStatus =>
          outcome := Error;
        case _ =>
          AddQueryParam("directPlay", "0", env);
          AddQueryParam("directStream", "1", env);
      }
    }

    /** The handlers of a decision request, in their wired order. A restricted account that gets
        through has a permitted version selected. */
    method Decision(env: Env) returns (outcome: Outcome)
      modifies this
      ensures (outcome, query) == Decide(old(query), env)
      ensures forall media, policy | Restricted(old(query), env, media, policy) && env.security == Resolved(policy) ::
                outcome == Continue ==> WithinPolicy(query, media, policy)
    {
      forall media, policy | Restricted(query, env, media, policy) && env.security == Resolved(policy)
        ensures Decide(query, env).0 == Continue ==> WithinPolicy(Decide(query, env).1, media, policy)
      {
        PipelineStaysWithinPolicy(query, env, media, policy);
      }
      outcome := EnforceResolutionPolicy(env);
      if outcome != Continue {
        return;
      }
      if env.autoSelect {
        AutoSelectVersion(env);
      }
      if env.forceMaximum {
        ForceMaximumQuality(env);
      }
      outcome := VideoTranscodeFallback(env);
      if outcome != Continue {
        return;
      }
      outcome := FallBackToDirectStream(env);
    }
  }
}
