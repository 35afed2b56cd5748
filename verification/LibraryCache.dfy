/** The cached library route (`library_cache_lookup`, `library_cache_store` and the policy transform
    behind them, src/routes.rs), and its refinement of the route without a cache. */
module LibraryCache {
  import opened Prelude
  import opened Text
  import opened Models
  import opened ResolutionPolicies
  import opened PolicyTransform
  import opened PolicyStores
  import opened LibraryKeys
  import A = ApplyTransforms

  /** A response body: what it parses as, if anything. */
  datatype Payload = Empty | Parsed(container: MediaContainer) | Unparsable(text: string)

  datatype Answer = Answer(status: nat, payload: Payload)

  /** Plex, taken to depend on the token and the significant parameters alone. */
  type Upstream = LibraryKey -> Answer

  datatype Response = Shown(container: MediaContainer) | PassedOn(answer: Answer) | BadGateway

  predicate IsSuccess(status: nat) {
    200 <= status <= 299
  }

  // ----- without a cache -----

  /** `apply_policy_transforms` on a body. */
  function Transformed(payload: Payload, access: Access): Result<MediaContainer, Response> {
    match payload
    case Parsed(c) => Ok(A.Resized(A.ApplyAll([A.PolicyPass(access), A.VisibilityPass(access)], c)))
    case _ => Err(BadGateway)
  }

  /** `transform_policy_response` on the proxied answer. */
  function Live(answer: Answer, access: Access): Response {
    if answer.status != 200 then PassedOn(answer)
    else
      match Transformed(answer.payload, access)
      case Ok(c) => Shown(c)
      case Err(response) => response
  }

  /** The entry a request names when its token is read as `token`. */
  function KeyFor(r: Request, token: Option<string>): LibraryKey {
    LibraryKey(token, CanonicalPath(r.path, r.pairs))
  }

  function Uncached(upstream: Upstream, r: Request, token: Option<string>, access: Access): Response {
    Live(upstream(KeyFor(r, token)), access)
  }

  // ----- with the cache -----

  predicate IsCachedRoute(r: Request) {
    StartsWith(r.path, "/library/sections/")
  }

  /** The token read from the request three times: by the lookup, by Plex, and by the store. */
  datatype Tokens = Tokens(lookup: Option<string>, fetch: Option<string>, store: Option<string>)

  /** Each reading is one the request allows; the last two see the normalised request. */
  predicate MayReadAll(r: Request, t: Tokens) {
    MayRead(r, t.lookup) && MayRead(Normalized(r), t.fetch) && MayRead(Normalized(r), t.store)
  }

  datatype State = State(cache: map<LibraryKey, Payload>, snapshot: PolicySnapshot)

  datatype Event =
    | Serve(request: Request, tokens: Tokens, identity: Option<UserIdentity>, stored: bool)
    | Reload(config: Config)
    | Lose(key: LibraryKey)                    // eviction, expiry, a damaged record
    | Damage(key: LibraryKey, text: string)    // a stored body that no longer parses

  function CacheAfterMiss(cache: map<LibraryKey, Payload>, key: LibraryKey, answer: Answer, stored: bool)
    : map<LibraryKey, Payload>
  {
    if IsSuccess(answer.status) && answer.payload != Empty && stored then cache[key := answer.payload] else cache
  }

  function ServeStep(upstream: Upstream, s: State, r: Request, t: Tokens, identity: Option<UserIdentity>, stored: bool)
    : (State, Response)
  {
    var key, access := KeyFor(r, t.lookup), AccessOf(s.snapshot, identity);
    if !IsCachedRoute(r) then (s, Uncached(upstream, r, t.fetch, access))
    else if key in s.cache && Transformed(s.cache[key], access).Ok? then
      (s, Shown(Transformed(s.cache[key], access).value))
    else
      var answer := upstream(KeyFor(r, t.fetch));
      (s.(cache := CacheAfterMiss(s.cache - {key}, KeyFor(r, t.store), answer, stored)), Live(answer, access))
  }

  function Step(upstream: Upstream, s: State, e: Event): (State, seq<Response>) {
    match e
    case Serve(r, tokens, identity, stored) =>
      var (s', response) := ServeStep(upstream, s, r, tokens, identity, stored);
      (s', [response])
    case Reload(config) => (s.(snapshot := Next(s.snapshot, config)), [])
    case Lose(key) => (s.(cache := s.cache - {key}), [])
    case Damage(key, text) => (if key in s.cache then s.(cache := s.cache[key := Unparsable(text)]) else s, [])
  }

  function Run(upstream: Upstream, s: State, events: seq<Event>): seq<Response>
    decreases events
  {
    if events == [] then []
    else
      var (s', responses) := Step(upstream, s, events[0]);
      responses + Run(upstream, s', events[1..])
  }

  /** What the route without a cache answers: the current policy's view of the upstream payload. */
  function Expected(upstream: Upstream, snapshot: PolicySnapshot, events: seq<Event>): seq<Response>
    decreases events
  {
    if events == [] then []
    else
      match events[0]
      case Serve(r, tokens, identity, _) =>
        [Uncached(upstream, r, tokens.fetch, AccessOf(snapshot, identity))] + Expected(upstream, snapshot, events[1..])
      case Reload(config) => Expected(upstream, Next(snapshot, config), events[1..])
      case _ => Expected(upstream, snapshot, events[1..])
  }

  /** Requests that carry one token, read as it is. */
  predicate OneToken(e: Event) {
    e.Serve? ==> Unambiguous(e.request) && MayReadAll(e.request, e.tokens)
  }

  predicate AllOneToken(events: seq<Event>) {
    forall i | 0 <= i < |events| :: OneToken(events[i])
  }

  // ----- refinement -----

  /** What a cached request is answered. */
  predicate PlainFor(upstream: Upstream, r: Request)
    requires Unambiguous(r)
  {
    IsSuccess(upstream(Key(r)).status) && upstream(Key(r)).payload.Parsed? ==> upstream(Key(r)).status == 200
  }

  /** Plex answers the cached route's requests for a readable listing with 200, not with another
      success status. */
  ghost predicate Plain(upstream: Upstream) {
    forall r | Unambiguous(r) && IsCachedRoute(r) :: PlainFor(upstream, r)
  }

  predicate SoundEntry(upstream: Upstream, key: LibraryKey, payload: Payload) {
    payload.Parsed? ==> upstream(key) == Answer(200, payload)
  }

  /** Entries are raw upstream payloads, or do not parse. */
  ghost predicate Sound(upstream: Upstream, cache: map<LibraryKey, Payload>) {
    forall key | key in cache :: SoundEntry(upstream, key, cache[key])
  }

  lemma OneKey(r: Request, t: Tokens)
    requires Unambiguous(r) && MayReadAll(r, t)
    ensures KeyFor(r, t.lookup) == KeyFor(r, t.fetch) == KeyFor(r, t.store) == Key(r)
  {
    NormalizedKeepsTokens(r);
  }

  lemma StepRefines(upstream: Upstream, s: State, e: Event)
    requires Plain(upstream) && Sound(upstream, s.cache) && OneToken(e)
    ensures var (s', responses) := Step(upstream, s, e);
            && Sound(upstream, s'.cache)
            && (e.Serve? ==> responses == [Uncached(upstream, e.request, e.tokens.fetch, AccessOf(s.snapshot, e.identity))]
                             && s'.snapshot == s.snapshot)
            && (!e.Serve? ==> responses == [])
  {
    if e.Serve? && IsCachedRoute(e.request) {
      OneKey(e.request, e.tokens);
      var key := Key(e.request);
      assert PlainFor(upstream, e.request);
      if key in s.cache {
        assert SoundEntry(upstream, key, s.cache[key]);
      }
    }
  }

  lemma {:induction false} RunRefines(upstream: Upstream, s: State, events: seq<Event>)
    requires Plain(upstream) && Sound(upstream, s.cache) && AllOneToken(events)
    ensures Run(upstream, s, events) == Expected(upstream, s.snapshot, events)
    decreases events
  {
    if events != [] {
      var (s', responses) := Step(upstream, s, events[0]);
      StepRefines(upstream, s, events[0]);
      RunRefines(upstream, s', events[1..]);
    }
  }

  /** A readable listing with another success status is passed on as it is the first time, and from
      the cache transformed the second time. */
  lemma OtherSuccessIsServedTwoWays(upstream: Upstream, s: State, r: Request, t: Tokens, identity: Option<UserIdentity>)
    requires Unambiguous(r) && MayReadAll(r, t) && IsCachedRoute(r) && Key(r) !in s.cache && !PlainFor(upstream, r)
    ensures var (serve, access) := (Serve(r, t, identity, true), AccessOf(s.snapshot, identity));
            && Run(upstream, s, [serve, serve])
               == [PassedOn(upstream(Key(r))), Shown(Transformed(upstream(Key(r)).payload, access).value)]
            && Expected(upstream, s.snapshot, [serve, serve]) == [PassedOn(upstream(Key(r))), PassedOn(upstream(Key(r)))]
  {
    OneKey(r, t);
    var serve := Serve(r, t, identity, true);
    var (s', first) := Step(upstream, s, serve);
    var (s'', second) := Step(upstream, s', serve);
    TwoEvents(upstream, s, serve, serve);
  }

  lemma TwoEvents(upstream: Upstream, s: State, a: Event, b: Event)
    ensures var s' := Step(upstream, s, a).0;
            Run(upstream, s, [a, b]) == Step(upstream, s, a).1 + Step(upstream, s', b).1
    ensures a.Serve? && b.Serve? ==>
              Expected(upstream, s.snapshot, [a, b]) ==
                [Uncached(upstream, a.request, a.tokens.fetch, AccessOf(s.snapshot, a.identity)),
                 Uncached(upstream, b.request, b.tokens.fetch, AccessOf(s.snapshot, b.identity))]
  {
    var s' := Step(upstream, s, a).0;
    assert [a, b][1..] == [b] && [b][1..] == [];
    assert Run(upstream, s', [b]) == Step(upstream, s', b).1 + Run(upstream, Step(upstream, s', b).0, []);
    if a.Serve? && b.Serve? {
      assert Expected(upstream, s.snapshot, [b]) ==
        [Uncached(upstream, b.request, b.tokens.fetch, AccessOf(s.snapshot, b.identity))]
        + Expected(upstream, s.snapshot, []);
    }
  }

  ghost predicate Refines(upstream: Upstream, snapshot: PolicySnapshot, events: seq<Event>) {
    AllOneToken(events) ==> Run(upstream, State(map[], snapshot), events) == Expected(upstream, snapshot, events)
  }

  /** Over every run of one-token requests, policy reloads, lost and damaged entries and failed
      writes, the cached route answers what the route without a cache would answer under the policy
      of the moment, if and only if Plex answers readable listings with 200 or no success. */
  lemma CacheRefinesRoute(upstream: Upstream, snapshot: PolicySnapshot)
    ensures (forall events :: Refines(upstream, snapshot, events)) <==> Plain(upstream)
  {
    if Plain(upstream) {
      forall events ensures Refines(upstream, snapshot, events) {
        if AllOneToken(events) {
          RunRefines(upstream, State(map[], snapshot), events);
        }
      }
    } else {
      var r :| Unambiguous(r) && IsCachedRoute(r) && !PlainFor(upstream, r);
      var events := AskedTwice(upstream, snapshot, r);
    }
  }

  lemma AskedTwice(upstream: Upstream, snapshot: PolicySnapshot, r: Request) returns (events: seq<Event>)
    requires Unambiguous(r) && IsCachedRoute(r) && !PlainFor(upstream, r)
    ensures !Refines(upstream, snapshot, events)
  {
    var t := Tokens(Token(r), Token(r), Token(r));
    NormalizedKeepsTokens(r);
    OtherSuccessIsServedTwoWays(upstream, State(map[], snapshot), r, t, None);
    events := [Serve(r, t, None, true), Serve(r, t, None, true)];
  }

  // ----- what is cached -----

  /** A listing of a section that is not cached is fetched, and its answer stored if and only if it is a
      success with a body and the write goes through; anything else is never cached. */
  lemma StoredExactly(upstream: Upstream, s: State, r: Request, t: Tokens, identity: Option<UserIdentity>, stored: bool)
    requires KeyFor(r, t.lookup) !in s.cache
    ensures var answer := upstream(KeyFor(r, t.fetch));
            ServeStep(upstream, s, r, t, identity, stored).0 ==
              if "/library/sections/" <= r.path && 200 <= answer.status <= 299 && answer.payload != Empty && stored
              then s.(cache := s.cache[KeyFor(r, t.store) := answer.payload])
              else s
  {
    assert s.cache - {KeyFor(r, t.lookup)} == s.cache;
  }

  /** An entry that can be shown is, and stays; one that cannot is dropped before the fetch. */
  lemma EntryServesOrGoes(upstream: Upstream, s: State, r: Request, t: Tokens, identity: Option<UserIdentity>, stored: bool)
    requires "/library/sections/" <= r.path && KeyFor(r, t.lookup) in s.cache
    ensures s.cache[KeyFor(r, t.lookup)].Parsed? ==> ServeStep(upstream, s, r, t, identity, stored).0 == s
    ensures !s.cache[KeyFor(r, t.lookup)].Parsed? ==>
              ServeStep(upstream, s, r, t, identity, stored) ==
                ServeStep(upstream, s.(cache := s.cache - {KeyFor(r, t.lookup)}), r, t, identity, stored)
  {
    assert s.cache - {KeyFor(r, t.lookup)} - {KeyFor(r, t.lookup)} == s.cache - {KeyFor(r, t.lookup)};
  }

  /** A lost entry is gone, a damaged one is there and cannot be shown, and others stay. */
  lemma FaultsHitOne(upstream: Upstream, s: State, key: LibraryKey, text: string)
    ensures Step(upstream, s, Lose(key)) == (s.(cache := s.cache - {key}), [])
    ensures var t := Step(upstream, s, Damage(key, text)).0;
            && t.snapshot == s.snapshot && t.cache.Keys == s.cache.Keys
            && forall k | k in s.cache :: t.cache[k] == if k == key then Unparsable(text) else s.cache[k]
  {
  }

  // ----- requests with two tokens -----

  /** A request with two tokens, answered for one and stored under the other, puts one account's
      listing where a request of the other account finds it. */
  lemma TwoTokensMisfile(upstream: Upstream, s: State, r: Request, t: Tokens, other: Request, identity: Option<UserIdentity>)
    requires MayReadAll(r, t) && IsCachedRoute(r) && KeyFor(r, t.lookup) !in s.cache
    requires Unambiguous(other) && Key(other) == KeyFor(r, t.store)
    requires upstream(KeyFor(r, t.fetch)).status == 200 && upstream(KeyFor(r, t.fetch)).payload.Parsed?
    ensures var again := Tokens(Token(other), Token(other), Token(other));
            var run := Run(upstream, s, [Serve(r, t, identity, true), Serve(other, again, identity, true)]);
            |run| == 2 && run[1] == Live(upstream(KeyFor(r, t.fetch)), AccessOf(s.snapshot, identity))
  {
    var again := Tokens(Token(other), Token(other), Token(other));
    var a, b := Serve(r, t, identity, true), Serve(other, again, identity, true);
    TwoEvents(upstream, s, a, b);
  }

  // ----- what is shown -----

  lemma {:induction false} SurvivorsWereThere(access: Access, items: seq<MetaData>)
    ensures forall x | x in A.Surviving(A.VisibilityPass(access), items) :: x in items
  {
    if items != [] {
      SurvivorsWereThere(access, items[1..]);
    }
  }

  lemma {:induction false} HidingOnlyRemoves(access: Access, c: MediaContainer)
    ensures forall x | x in A.AllItems(A.ApplyItems(A.VisibilityPass(access), c)) :: x in A.AllItems(c)
    decreases A.TotalChildren(c)
  {
    var t, items := A.VisibilityPass(access), A.Children(c);
    if items != [] {
      SurvivorsWereThere(access, items);
      if A.Surviving(t, items) == [] {
        HidingOnlyRemoves(access, A.WithChildren(c, []));
      }
    }
  }

  /** Everything a transformed listing shows complies with the account's access, at every depth,
      when the payload keeps its items in one list. */
  lemma ShownListingComplies(c: MediaContainer, access: Access)
    requires A.TotalChildren(c) == |A.Children(c)|
    ensures A.AllComply(access, A.AllItems(Transformed(Parsed(c), access).value))
  {
    var filtered := A.ApplyItems(A.PolicyPass(access), c);
    A.SingleListComplies(access, c);
    HidingOnlyRemoves(access, filtered);
    var shown := A.ApplyItems(A.VisibilityPass(access), filtered);
    TwoPasses(access, c);
    assert A.AllItems(A.Resized(shown)) == A.AllItems(shown);
  }

  lemma TwoPasses(access: Access, c: MediaContainer)
    ensures A.ApplyAll([A.PolicyPass(access), A.VisibilityPass(access)], c)
         == A.ApplyItems(A.VisibilityPass(access), A.ApplyItems(A.PolicyPass(access), c))
  {
    var (p, v) := (A.PolicyPass(access), A.VisibilityPass(access));
    var filtered := A.ApplyItems(p, c);
    assert [p, v][1..] == [v] && [v][1..] == [];
    assert A.ApplyAll([v], filtered) == A.ApplyAll([], A.ApplyItems(v, filtered));
    assert A.ApplyAll([p, v], c) == A.ApplyAll([v], filtered);
  }

  // ----- the route as it runs -----

  class LibraryRoute {
    var cache: map<LibraryKey, Payload>
    const policy: PolicyStore
    const upstream: Upstream

    constructor (policy: PolicyStore, upstream: Upstream)
      ensures this.policy == policy && this.upstream == upstream && cache == map[]
    {
      this.policy := policy;
      this.upstream := upstream;
      cache := map[];
    }

    ghost function Current(): State
      reads this, policy
    {
      State(cache, policy.current)
    }

    /** Lookup, fetch, store and transform. The fetch drops the field-shaping parameters, and the
        store builds its key from what is left. */
    method Handle(r: Request, t: Tokens, identity: Option<UserIdentity>, stored: bool) returns (response: Response)
      requires MayReadAll(r, t)
      modifies this
      ensures (Current(), response) == ServeStep(upstream, old(Current()), r, t, identity, stored)
      ensures Unambiguous(r) && Plain(upstream) && Sound(upstream, old(cache)) ==>
                && Sound(upstream, cache)
                && response == Uncached(upstream, r, Token(r), AccessOf(policy.current, identity))
    {
      ghost var event := Serve(r, t, identity, stored);
      if Unambiguous(r) && Plain(upstream) && Sound(upstream, cache) {
        StepRefines(upstream, Current(), event);
        OneKey(r, t);
      }
      var access := AccessOf(policy.current, identity);
      if !IsCachedRoute(r) {
        response := Live(upstream(KeyFor(r, t.fetch)), access);
        return;
      }
      var key := KeyFor(r, t.lookup);
      if key in cache {
        var hit := Transformed(cache[key], access);
        if hit.Ok? {
          response := Shown(hit.value);
          return;
        }
        cache := cache - {key};
      }
      assert cache == old(cache) - {key};
      var fetch := Normalized(r);
      NormalizedKeepsCanonical(r);
      var answer := upstream(KeyFor(fetch, t.fetch));
      if IsSuccess(answer.status) && answer.payload != Empty && stored {
        cache := cache[KeyFor(fetch, t.store) := answer.payload];
      }
      response := Live(answer, access);
    }
  }
}
