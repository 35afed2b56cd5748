/** Playback requests as they come in: the security middleware (src/auth/context.rs) reads one policy
    snapshot, the handlers (src/routes.rs) a later one, and reloads may have come between. */
module PlaybackRequests {
  import opened Prelude
  import opened Text
  import opened Queries
  import opened Models
  import opened ResolutionPolicies
  import opened PolicyStores
  import opened Playback

  // ----- the middleware -----

  predicate RequiresSecurityContext(path: string) {
    || StartsWith(path, "/library/") || StartsWith(path, "/hubs/") || path == "/hubs"
    || StartsWith(path, "/playQueues") || StartsWith(path, "/video/")
  }

  function PolicyOf(snapshot: PolicySnapshot, user: UserIdentity): ResolutionPolicy {
    ResolvePolicy(snapshot.entries, snapshot.defaultLimit, snapshot.hiddenCollections, user)
  }

  /** `SecurityContextMiddleware`; `identity` is none if resolving it fails. When it leaves nothing,
      `account` is what the policy handler finds. */
  function LeftFor(
    snapshot: PolicySnapshot, path: string, identity: Option<UserIdentity>, account: Option<ResolutionPolicy>)
    : Security
  {
    if !snapshot.enabled || !RequiresSecurityContext(path) then Missing(account)
    else
      match identity
      case Some(user) => Resolved(PolicyOf(snapshot, user))
      case None => Unavailable(snapshot.failClosed)
  }

  // ----- a request among reloads -----

  /** The process started with `startup`; the middleware sees the first `i` reload requests answered,
      the handlers the first `j`. */
  datatype Moments = Moments(startup: Config, reloads: seq<Option<Config>>, i: nat, j: nat)
  {
    ghost predicate InOrder() {
      i <= j <= |reloads|
    }

    function Seen(n: nat): PolicySnapshot
      requires n <= |reloads|
    {
      AfterRequests(startup, FromConfig(startup, 1), reloads[..n])
    }
  }

  datatype Arrival = Arrival(path: string, query: Query, identity: Option<UserIdentity>, late: Option<UserIdentity>)

  /** What the handlers consult. */
  function Consulted(env: Env, m: Moments, a: Arrival): Env
    requires m.InOrder()
  {
    var account := if a.late.Some? then Some(PolicyOf(m.Seen(m.j), a.late.value)) else None;
    env.(
      policyEnabled := m.Seen(m.j).enabled,
      failClosed := m.Seen(m.j).failClosed,
      security := LeftFor(m.Seen(m.i), a.path, a.identity, account))
  }

  /** The routes that choose a version. */
  predicate IsPlaybackPath(path: string) {
    var prefix := "/video/:/transcode/universal/";
    StartsWith(path, prefix)
    && (path[|prefix|..] in {"decision", "subtitles"} || StartsWith(path[|prefix|..], "start"))
  }

  lemma PlaybackPaths(rest: string)
    ensures IsPlaybackPath("/video/:/transcode/universal/" + rest) <==>
              rest == "decision" || rest == "subtitles" || "start" <= rest
  {
    var path := "/video/:/transcode/universal/" + rest;
    assert path[|"/video/:/transcode/universal/"|..] == rest;
  }

  lemma PlaybackPathIsProtected(path: string)
    requires IsPlaybackPath(path)
    ensures RequiresSecurityContext(path)
  {
    assert path[..7] == "/video/";
  }

  /** Over every history of reload requests, the handlers find a security state exactly while the policy is
      on and on the paths that the middleware protects; it is the one of the moment the request came in. */
  lemma StateIsLeftExactly(env: Env, m: Moments, a: Arrival)
    requires m.InOrder()
    ensures Consulted(env, m, a).policyEnabled == m.startup.enabled
    ensures Consulted(env, m, a).security.Missing? <==>
              !(&& m.startup.enabled
                && (|| "/library/" <= a.path || "/hubs/" <= a.path || a.path == "/hubs" || "/playQueues" <= a.path
                    || "/video/" <= a.path))
    ensures Consulted(env, m, a).security.Missing? ==>
              Consulted(env, m, a).security.account ==
                if a.late.Some? then Some(PolicyOf(m.Seen(m.j), a.late.value)) else None
    ensures !Consulted(env, m, a).security.Missing? ==>
              Consulted(env, m, a).security ==
                if a.identity.Some? then Resolved(PolicyOf(m.Seen(m.i), a.identity.value))
                else Unavailable(m.Seen(m.i).failClosed)
  {
    RequestsAreReloads(m.startup, FromConfig(m.startup, 1), m.reloads[..m.i]);
    RequestsAreReloads(m.startup, FromConfig(m.startup, 1), m.reloads[..m.j]);
  }

  /** The item can be loaded; every later lookup may fail or find the same versions. */
  ghost predicate Loads(q: Query, env: Env, media: seq<Media>) {
    && env.uriParses && Get(q, "path").Some?
    && env.enforceLookup == Found(media) && 0 < |media| <= U64_MAX && DistinctIds(media)
    && (forall l | l in {env.selectLookup, env.forceLookup, env.fallbackLookup} :: l.Found? ==> l.media == media)
  }

  /** The handlers of a start or subtitle request. */
  function Start(q: Query, env: Env): (Outcome, Query) {
    var (verdict, enforced) := Enforce(q, env);
    (verdict, if verdict == Continue then AfterSelection(enforced, env) else enforced)
  }

  /** It is refused as the policy handler says, or goes on to the optional handlers. */
  lemma StartAnswers(q: Query, env: Env)
    ensures Start(q, env) ==
              if Enforce(q, env).0.Continue? then (Continue, AfterSelection(Enforce(q, env).1, env)) else Enforce(q, env)
  {
  }

  /** Whatever reloads come before or during a playback request, whichever handlers are enabled and
      whatever Plex answers: a restricted account that gets through has a version selected that is
      permitted by the policy in force when the request came in, and is refused only if there is none. */
  lemma PlaybackStaysWithinPolicy(env: Env, m: Moments, a: Arrival, media: seq<Media>)
    requires m.InOrder() && m.startup.enabled && IsPlaybackPath(a.path) && a.identity.Some?
    requires !PolicyOf(m.Seen(m.i), a.identity.value).IsUnrestricted() && Loads(a.query, env, media)
    ensures var (policy, consulted) := (PolicyOf(m.Seen(m.i), a.identity.value), Consulted(env, m, a));
            forall r | r in {Decide(a.query, consulted), Start(a.query, consulted)} ::
              && (r.0 == Continue ==> WithinPolicy(r.1, media, policy))
              && (r.0.Reject? ==> forall v | v in media :: !MediaAllowed(v, policy))
  {
    var (policy, consulted) := (PolicyOf(m.Seen(m.i), a.identity.value), Consulted(env, m, a));
    StateIsLeftExactly(env, m, a);
    PlaybackPathIsProtected(a.path);
    assert Restricted(a.query, consulted, media, policy);
    EnforceSelects(a.query, consulted, media, policy);
    PipelineStaysWithinPolicy(a.query, consulted, media, policy);
    StartStaysWithinPolicy(a.query, consulted, media, policy);
    OnlyThePolicyRefuses(a.query, consulted);
  }

  lemma OnlyThePolicyRefuses(q: Query, env: Env)
    ensures Decide(q, env).0.Reject? ==> Decide(q, env) == Enforce(q, env)
  {
  }

  /** While the policy fails closed, a playback request by an account that cannot be identified, or of
      a restricted account whose item cannot be loaded, gets nowhere. */
  lemma FailsClosed(env: Env, m: Moments, a: Arrival)
    requires m.InOrder() && m.startup.enabled && IsPlaybackPath(a.path)
    ensures a.identity.None? && m.Seen(m.i).failClosed ==> Decide(a.query, Consulted(env, m, a)) == (Reject(503), a.query)
    ensures a.identity.Some? && !PolicyOf(m.Seen(m.i), a.identity.value).IsUnrestricted() && Get(a.query, "path").Some?
            && !env.enforceLookup.Found? && m.Seen(m.j).failClosed ==>
              Decide(a.query, Consulted(env, m, a)).0 == Reject(if env.enforceLookup.Failed? then 503 else 502)
  {
    StateIsLeftExactly(env, m, a);
    PlaybackPathIsProtected(a.path);
    if a.identity.Some? {
      var policy := PolicyOf(m.Seen(m.i), a.identity.value);
      if policy.maxBitrate.Some? {
        CapKeepsChoice(a.query, policy.maxBitrate.value, env.uriParses);
      }
    }
  }
}
