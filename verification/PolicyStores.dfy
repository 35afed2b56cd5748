/** The reloadable policy snapshot (src/policy_store.rs) and the access it gives an account. */
module PolicyStores {
  import opened Prelude
  import opened Models
  import opened ResolutionPolicies
  import opened PolicyTransform

  /** The configuration values the store copies. */
  datatype Config = Config(
    enabled: bool,
    entries: seq<PolicyEntry>,
    defaultLimit: ResolutionLimit,
    failClosed: bool,
    hiddenCollections: Option<seq<string>>)

  datatype PolicySnapshot = PolicySnapshot(
    enabled: bool,
    entries: seq<PolicyEntry>,
    defaultLimit: ResolutionLimit,
    failClosed: bool,
    hiddenCollections: seq<string>,
    generation: nat)

  function FromConfig(config: Config, generation: nat): PolicySnapshot {
    PolicySnapshot(config.enabled, config.entries, config.defaultLimit, config.failClosed,
      config.hiddenCollections.GetOr([]), generation)
  }

  /** What a reload turns the snapshot into. */
  function Next(snapshot: PolicySnapshot, config: Config): PolicySnapshot {
    FromConfig(config, snapshot.generation + 1)
  }

  /** The snapshot after the reloads in `configs`. */
  function AfterReloads(start: PolicySnapshot, configs: seq<Config>): PolicySnapshot
    decreases configs
  {
    if configs == [] then start else AfterReloads(Next(start, configs[0]), configs[1..])
  }

  lemma {:induction false} GenerationsCount(start: PolicySnapshot, configs: seq<Config>)
    ensures AfterReloads(start, configs).generation == start.generation + |configs|
    decreases configs
  {
    if configs != [] {
      GenerationsCount(Next(start, configs[0]), configs[1..]);
    }
  }

  lemma {:induction false} LastReloadWins(start: PolicySnapshot, configs: seq<Config>)
    requires configs != []
    ensures AfterReloads(start, configs) == FromConfig(configs[|configs| - 1], start.generation + |configs|)
    decreases configs
  {
    if |configs| == 1 {
      assert AfterReloads(Next(start, configs[0]), configs[1..]) == Next(start, configs[0]);
    } else {
      LastReloadWins(Next(start, configs[0]), configs[1..]);
    }
  }

  /** Over any history of reloads, the snapshots seen at two moments are the same exactly when their
      generations are: a generation names one snapshot, of the configuration loaded last. */
  lemma GenerationTellsSnapshot(start: PolicySnapshot, configs: seq<Config>, i: nat, j: nat)
    requires i <= j <= |configs|
    ensures AfterReloads(start, configs[..i]) == AfterReloads(start, configs[..j]) <==>
              AfterReloads(start, configs[..i]).generation == AfterReloads(start, configs[..j]).generation
    ensures i < j ==> AfterReloads(start, configs[..i]).generation < AfterReloads(start, configs[..j]).generation
    ensures j > 0 ==> AfterReloads(start, configs[..j]) == FromConfig(configs[j - 1], start.generation + j)
  {
    GenerationsCount(start, configs[..i]);
    GenerationsCount(start, configs[..j]);
    if j > 0 {
      LastReloadWins(start, configs[..j]);
    }
  }

  // ----- reload requests -----

  /** `next` is the configuration read anew, or none if it does not parse or is not valid. */
  datatype ReloadAnswer = BadRequest | Conflict | Reloaded(snapshot: PolicySnapshot)

  /** `policy_reload`, for an administrator: switching the policy on or off needs a restart. */
  function AnswerReload(startup: Config, current: PolicySnapshot, next: Option<Config>): ReloadAnswer {
    match next
    case None => BadRequest
    case Some(config) => if config.enabled != startup.enabled then Conflict else Reloaded(Next(current, config))
  }

  function AfterRequest(startup: Config, current: PolicySnapshot, next: Option<Config>): PolicySnapshot {
    var answer := AnswerReload(startup, current, next);
    if answer.Reloaded? then answer.snapshot else current
  }

  /** The snapshot after a history of reload requests, accepted or not. */
  function AfterRequests(startup: Config, current: PolicySnapshot, requests: seq<Option<Config>>): PolicySnapshot
    decreases requests
  {
    if requests == [] then current
    else AfterRequests(startup, AfterRequest(startup, current, requests[0]), requests[1..])
  }

  function Accepted(startup: Config, requests: seq<Option<Config>>): seq<Config> {
    if requests == [] then []
    else
      (if requests[0].Some? && requests[0].value.enabled == startup.enabled then [requests[0].value] else [])
      + Accepted(startup, requests[1..])
  }

  /** The history is that of the requests accepted, and these never switch the policy on or off. */
  lemma {:induction false} RequestsAreReloads(startup: Config, current: PolicySnapshot, requests: seq<Option<Config>>)
    requires current.enabled == startup.enabled
    ensures AfterRequests(startup, current, requests) == AfterReloads(current, Accepted(startup, requests))
    ensures AfterRequests(startup, current, requests).enabled == startup.enabled
    decreases requests
  {
    if requests != [] {
      RequestsAreReloads(startup, AfterRequest(startup, current, requests[0]), requests[1..]);
      var rest := Accepted(startup, requests[1..]);
      if AnswerReload(startup, current, requests[0]).Reloaded? {
        assert ([requests[0].value] + rest)[1..] == rest;
      } else {
        assert [] + rest == rest;
      }
    }
  }

  /** What each request is answered, and that a refusal leaves the snapshot alone. */
  lemma AnswersExactly(startup: Config, current: PolicySnapshot, config: Config)
    ensures AnswerReload(startup, current, None) == BadRequest
    ensures AnswerReload(startup, current, Some(config)) ==
              if config.enabled == startup.enabled then Reloaded(FromConfig(config, current.generation + 1)) else Conflict
    ensures AfterRequest(startup, current, None) == current
    ensures AfterRequest(startup, current, Some(config)) ==
              if config.enabled == startup.enabled then FromConfig(config, current.generation + 1) else current
  {
  }

  // ----- what a snapshot says -----

  /** `ResolutionPolicyTransform::current_policy`; no identity means that resolving it failed. */
  function AccessOf(snapshot: PolicySnapshot, identity: Option<UserIdentity>): Access {
    if !snapshot.enabled then Resolved(ResolutionPolicy(Unlimited, None, []))
    else
      match identity
      case Some(user) =>
        Resolved(ResolvePolicy(snapshot.entries, snapshot.defaultLimit, snapshot.hiddenCollections, user))
      case None => Failed(snapshot.failClosed)
  }

  /** While the policy is off every item is shown as it is; while it is on, an account is given the policy of
      its own entry, and one that cannot be identified is treated as the snapshot says. */
  lemma AccessExactly(snapshot: PolicySnapshot, identity: Option<UserIdentity>, item: MetaData)
    ensures var access := AccessOf(snapshot, identity);
            && (!snapshot.enabled ==>
                  KeepItem(access, item) && TransformItem(access, item) == item && VisibleItem(access, item))
            && (snapshot.enabled && identity.None? ==> access == Failed(snapshot.failClosed))
            && (snapshot.enabled && identity.Some? ==>
                  access == Resolved(ResolvePolicy(snapshot.entries, snapshot.defaultLimit, snapshot.hiddenCollections,
                                                   identity.value)))
  {
  }

  class PolicyStore {
    var current: PolicySnapshot

    constructor (config: Config)
      ensures current == FromConfig(config, 1)
    {
      current := FromConfig(config, 1);
    }

    /** The next snapshot replaces the current one whole. */
    method Reload(config: Config) returns (next: PolicySnapshot)
      modifies this
      ensures current == next == Next(old(current), config)
    {
      next := FromConfig(config, current.generation + 1);
      current := next;
    }

    /** `policy_reload`. */
    method RequestReload(startup: Config, next: Option<Config>) returns (answer: ReloadAnswer)
      modifies this
      ensures answer == AnswerReload(startup, old(current), next)
      ensures current == AfterRequest(startup, old(current), next)
    {
      if next.None? {
        return BadRequest;
      }
      if next.value.enabled != startup.enabled {
        return Conflict;
      }
      var snapshot := Reload(next.value);
      answer := Reloaded(snapshot);
    }
  }
}
