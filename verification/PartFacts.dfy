/** Facts about media parts and the decision on direct part requests (src/plex_client.rs and the
    stream handler of src/routes.rs). */
module PartFacts {
  import opened Prelude
  import opened Models
  import opened ResolutionPolicies
  import opened PolicyStores

  datatype PartMediaClassification = PartMediaClassification(resolution: Option<ResolutionLimit>, bitrate: Option<I64>)

  type Facts = map<I64, PartMediaClassification>

  function FactOf(media: Media): PartMediaClassification {
    PartMediaClassification(Classify(media), media.bitrate)
  }

  /** `part_classification_allowed`. */
  predicate FactAllowed(fact: PartMediaClassification, policy: ResolutionPolicy) {
    if !policy.IsUnrestricted() && (fact.resolution.None? || !fact.resolution.value.AtMost(policy.limit)) then false
    else if policy.maxBitrate.Some? then fact.bitrate.Some? && fact.bitrate.value <= policy.maxBitrate.value
    else true
  }

  predicate WithinCap(media: Media, policy: ResolutionPolicy) {
    policy.maxBitrate.Some? ==> media.bitrate.Some? && media.bitrate.value <= policy.maxBitrate.value
  }

  /** A stored fact decides what the version itself would: its resolution, and its bitrate if capped. */
  lemma FactDecidesLikeMedia(media: Media, policy: ResolutionPolicy)
    ensures FactAllowed(FactOf(media), policy) <==> MediaAllowed(media, policy) && WithinCap(media, policy)
  {
  }

  // ----- recording -----

  function RecordParts(facts: Facts, parts: seq<I64>, fact: PartMediaClassification): Facts
    decreases parts
  {
    if parts == [] then facts else RecordParts(facts[parts[0] := fact], parts[1..], fact)
  }

  function Recorded(facts: Facts, media: seq<Media>): Facts
    decreases media
  {
    if media == [] then facts else Recorded(RecordParts(facts, media[0].parts, FactOf(media[0])), media[1..])
  }

  class PartCache {
    var facts: Facts

    constructor ()
      ensures facts == map[]
    {
      facts := map[];
    }

    /** `cache_part_classification`. */
    method CachePartClassification(media: seq<Media>)
      modifies this
      ensures facts == Recorded(old(facts), media)
    {
      for i := 0 to |media|
        invariant Recorded(facts, media[i..]) == Recorded(old(facts), media)
      {
        ghost var before := facts;
        var classification := FactOf(media[i]);
        var parts := media[i].parts;
        for j := 0 to |parts|
          invariant RecordParts(facts, parts[j..], classification) == RecordParts(before, parts, classification)
        {
          assert parts[j..][1..] == parts[j + 1..];
          facts := facts[parts[j] := classification];
        }
        assert parts[|parts|..] == [];
        assert media[i..][1..] == media[i + 1..];
      }
      assert media[|media|..] == [];
    }
  }

  // ----- runs -----

  datatype Event =
    | Record(media: seq<Media>)   // an item's versions, seen on behalf of any account
    | Reload(config: Config)
    | Evict(part: I64)

  datatype State = State(facts: Facts, snapshot: PolicySnapshot)

  function Step(s: State, e: Event): State {
    match e
    case Record(media) => s.(facts := Recorded(s.facts, media))
    case Reload(config) => s.(snapshot := Next(s.snapshot, config))
    case Evict(part) => s.(facts := s.facts - {part})
  }

  function After(s: State, events: seq<Event>): State
    decreases events
  {
    if events == [] then s else After(Step(s, events[0]), events[1..])
  }

  datatype Delivery = Proxy | Redirect

  datatype Decision = Deliver(delivery: Delivery) | Forbidden | Unavailable

  /** `stream_delivery`: what is restricted stays behind the proxy. */
  function StreamDelivery(restricted: bool, redirects: bool): Delivery {
    if restricted || !redirects then Proxy else Redirect
  }

  /** Who asks: an account, or one that could not be identified, by the security middleware or, where
      that did not run, by the handler itself. */
  datatype Caller = Identified(user: UserIdentity) | Unidentified(byMiddleware: bool)

  function Identity(caller: Caller): Option<UserIdentity> {
    if caller.Identified? then Some(caller.user) else None
  }

  /** Without an identity the policy's setting decides, unless the handler itself had to look. */
  function WithoutIdentity(failClosed: bool, caller: Caller, redirects: bool): Decision {
    if failClosed || caller == Unidentified(false) then Unavailable else Deliver(StreamDelivery(false, redirects))
  }

  /** The stream handler, for a request for a part. */
  function Decide(s: State, part: I64, caller: Caller, redirects: bool): Decision {
    match AccessOf(s.snapshot, Identity(caller))
    case Failed(failClosed) => WithoutIdentity(failClosed, caller, redirects)
    case Resolved(policy) =>
      if policy.IsUnrestricted() && policy.maxBitrate.None? then Deliver(StreamDelivery(false, redirects))
      else if part in s.facts && FactAllowed(s.facts[part], policy) then Deliver(StreamDelivery(true, redirects))
      else Forbidden
  }

  // ----- the last owner -----

  /** The last version in the list that has the part. */
  function OwnerIn(media: seq<Media>, part: I64): Option<Media> {
    if media == [] then None
    else
      var later := OwnerIn(media[1..], part);
      if later.Some? then later else if part in media[0].parts then Some(media[0]) else None
  }

  /** The version recorded last for the part, unless it has been evicted since. */
  function LastOwner(events: seq<Event>, part: I64, before: Option<Media>): Option<Media>
    decreases events
  {
    if events == [] then before
    else
      LastOwner(events[1..], part,
        match events[0]
        case Record(media) => if OwnerIn(media, part).Some? then OwnerIn(media, part) else before
        case Reload(_) => before
        case Evict(p) => if p == part then None else before)
  }

  /** The configuration loaded last. */
  function LastSnapshot(events: seq<Event>, before: PolicySnapshot): PolicySnapshot
    decreases events
  {
    if events == [] then before
    else LastSnapshot(events[1..], if events[0].Reload? then Next(before, events[0].config) else before)
  }

  /** The decision evaluated afresh on a version. */
  function DecideAfresh(owner: Option<Media>, snapshot: PolicySnapshot, caller: Caller, redirects: bool): Decision {
    match AccessOf(snapshot, Identity(caller))
    case Failed(failClosed) => WithoutIdentity(failClosed, caller, redirects)
    case Resolved(policy) =>
      if policy.IsUnrestricted() && policy.maxBitrate.None? then Deliver(StreamDelivery(false, redirects))
      else if owner.Some? && MediaAllowed(owner.value, policy) && WithinCap(owner.value, policy)
      then Deliver(StreamDelivery(true, redirects))
      else Forbidden
  }

  predicate Describes(facts: Facts, part: I64, owner: Option<Media>) {
    (part in facts <==> owner.Some?) && (owner.Some? ==> facts[part] == FactOf(owner.value))
  }

  lemma {:induction false} RecordsParts(facts: Facts, parts: seq<I64>, fact: PartMediaClassification, part: I64)
    ensures var r := RecordParts(facts, parts, fact);
            && (part in r <==> part in facts || part in parts)
            && (part in parts ==> r[part] == fact)
            && (part !in parts && part in facts ==> r[part] == facts[part])
    decreases parts
  {
    if parts != [] {
      RecordsParts(facts[parts[0] := fact], parts[1..], fact, part);
      assert parts == [parts[0]] + parts[1..];
    }
  }

  lemma {:induction false} RecordedDescribes(facts: Facts, media: seq<Media>, part: I64, before: Option<Media>)
    requires Describes(facts, part, before)
    ensures Describes(Recorded(facts, media), part, if OwnerIn(media, part).Some? then OwnerIn(media, part) else before)
    decreases media
  {
    if media != [] {
      RecordsParts(facts, media[0].parts, FactOf(media[0]), part);
      RecordedDescribes(RecordParts(facts, media[0].parts, FactOf(media[0])), media[1..], part,
        if part in media[0].parts then Some(media[0]) else before);
    }
  }

  lemma {:induction false} FactsDescribeLastOwner(s: State, events: seq<Event>, part: I64, before: Option<Media>)
    requires Describes(s.facts, part, before)
    ensures Describes(After(s, events).facts, part, LastOwner(events, part, before))
    ensures After(s, events).snapshot == LastSnapshot(events, s.snapshot)
    decreases events
  {
    if events != [] {
      if events[0].Record? {
        RecordedDescribes(s.facts, events[0].media, part, before);
      }
      var owner :=
        match events[0]
        case Record(media) => if OwnerIn(media, part).Some? then OwnerIn(media, part) else before
        case Reload(_) => before
        case Evict(p) => if p == part then None else before;
      FactsDescribeLastOwner(Step(s, events[0]), events[1..], part, owner);
    }
  }

  /** Over every run of recordings by any account, reloads and evictions, the decision on a part is
      the one the current policy gives on the version recorded last for it. */
  lemma DecisionIsFresh(config: Config, events: seq<Event>, part: I64, caller: Caller, redirects: bool)
    ensures Decide(After(State(map[], FromConfig(config, 1)), events), part, caller, redirects)
         == DecideAfresh(LastOwner(events, part, None), LastSnapshot(events, FromConfig(config, 1)), caller, redirects)
  {
    var initial := State(map[], FromConfig(config, 1));
    FactsDescribeLastOwner(initial, events, part, None);
    var owner := LastOwner(events, part, None);
    var access := AccessOf(LastSnapshot(events, FromConfig(config, 1)), Identity(caller));
    if owner.Some? && access.Resolved? {
      FactDecidesLikeMedia(owner.value, access.policy);
    }
  }

  /** What that is: without the policy everything is delivered; an account that cannot be identified is
      refused when the policy fails closed or the handler itself had to look it up; a restricted one is
      given a part only if its version is permitted and has a bitrate within the cap. Only what is not
      restricted is ever redirected to Plex. */
  lemma DecidesExactly(owner: Option<Media>, snapshot: PolicySnapshot, caller: Caller, redirects: bool)
    ensures var free := Deliver(if redirects then Redirect else Proxy);
            DecideAfresh(owner, snapshot, caller, redirects) ==
              if !snapshot.enabled then free
              else
                match caller
                case Unidentified(byMiddleware) => if snapshot.failClosed || !byMiddleware then Unavailable else free
                case Identified(user) =>
                  var p := ResolvePolicy(snapshot.entries, snapshot.defaultLimit, snapshot.hiddenCollections, user);
                  if p.limit == Unlimited && p.maxBitrate == None then free
                  else if owner.Some? && MediaAllowed(owner.value, p) && IsWithin(owner.value.bitrate, p.maxBitrate)
                  then Deliver(Proxy) else Forbidden
  {
  }

  /** There is no cap, or the bitrate is known and not above it. */
  predicate IsWithin(bitrate: Option<I64>, cap: Option<I64>) {
    cap == None || (bitrate != None && bitrate.value <= cap.value)
  }
}
