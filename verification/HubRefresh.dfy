/** The background refresh of hub payloads (src/hub_cache.rs) as a state machine: any number of
    refresh tasks and warmer passes, interleaved at every access to the shared tables. */
module HubRefresh {
  import opened Prelude

  datatype Key = Key(text: string)

  /** Seconds on a monotone clock. */
  type Time = nat

  const REFRESH_MIN_INTERVAL: Time := 60

  datatype Pc =
    | Checking                // look at the last attempt (refresh tasks only)
    | Claiming
    | Recording               // write the last attempt (refresh tasks only)
    | Asking                  // send the request to Plex
    | Fetching(epoch: nat)    // wait for its answer; there had been `epoch` playback changes when it was sent
    | Storing(payload: Payload)
    | Stamping
    | Releasing

  /** A refresh task has one key to do, a warmer pass a list of them; a request that found nothing
      cached fetches for itself, without a claim. */
  datatype Kind = Refresh | Warmer | Request

  /** `mark` and `blind` are history: how many attempts had been made when a refresh checked, and how
      many of them the table had forgotten. */
  datatype Task = Task(kind: Kind, todo: seq<Key>, pc: Pc, mark: nat, blind: nat)

  /** A payload, with the number of playback changes there had been when its fetch began. */
  datatype Payload = Payload(body: nat, epoch: nat)

  datatype Attempt = Attempt(key: Key, time: Time)

  /** The last three fields are history: the playback changes so far, every attempt made, and how long
      that list was when the table last forgot a key. */
  datatype State = State(
    now: Time,
    tasks: map<nat, Task>,
    inflight: set<Key>,
    attempts: map<Key, Time>,
    ages: map<Key, Time>,
    payloads: map<Key, Payload>,
    changes: nat,
    log: seq<Attempt>,
    forgotten: map<Key, nat>)

  datatype Fetch = Fetched(body: nat) | FetchFailed

  datatype Event =
    | Spawn(id: nat, key: Key)        // spawn_hub_refresh
    | Warm(id: nat, keys: seq<Key>)   // warm_hubs_for_token
    | Ask(id: nat, key: Key)          // a request that found nothing cached
    | Drop(id: nat)                   // such a request goes away
    | Move(id: nat, fetch: Fetch)     // the next step of a task; a fetch may end either way
    | Tick(seconds: nat)
    | MarkAllStale
    | ForgetAttempt(key: Key)         // capacity eviction, from each table
    | ForgetAge(key: Key)
    | ForgetPayload(key: Key)

  // ----- steps -----

  function Lookup(m: map<Key, Time>, key: Key): Option<Time> {
    if key in m then Some(m[key]) else None
  }

  /** `duration_since` does not go below zero. */
  function Elapsed(now: Time, since: Time): nat {
    SaturatingSub(now, since)
  }

  /** `is_older_than`. */
  predicate IsOlderThan(fetchedAt: Option<Time>, maxAge: Time, now: Time) {
    fetchedAt.None? || Elapsed(now, fetchedAt.value) >= maxAge
  }

  /** The task is through with its current key. */
  function Next(t: Task): Task
    requires t.todo != []
  {
    t.(todo := t.todo[1..], pc := Claiming)
  }

  function Forgotten(s: State, key: Key): nat {
    if key in s.forgotten then s.forgotten[key] else 0
  }

  /** Where a step takes the task that makes it. */
  function TaskAfter(s: State, t: Task, fetch: Fetch): Task
    requires t.todo != []
  {
    match t.pc
    case Checking =>
      var last := Lookup(s.attempts, t.todo[0]);
      if last.Some? && Elapsed(s.now, last.value) < REFRESH_MIN_INTERVAL then Next(t)
      else t.(pc := Claiming, mark := |s.log|, blind := Forgotten(s, t.todo[0]))
    case Claiming =>
      if t.todo[0] in s.inflight then Next(t) else t.(pc := if t.kind == Warmer then Asking else Recording)
    case Recording => t.(pc := Asking)
    case Asking => t.(pc := Fetching(s.changes))
    case Fetching(epoch) =>
      if fetch.Fetched? then t.(pc := Storing(Payload(fetch.body, epoch)))
      else if t.kind == Request then Next(t) else t.(pc := Releasing)
    case Storing(_) => t.(pc := Stamping)
    case Stamping => if t.kind == Request then Next(t) else t.(pc := Releasing)
    case Releasing => Next(t)
  }

  /** A step, with its effect on the shared tables. Claiming inserts into the set in any case, and
      succeeds if the key was new. */
  function MoveTask(s: State, id: nat, fetch: Fetch): State
    requires id in s.tasks && s.tasks[id].todo != []
  {
    var (t, key) := (s.tasks[id], s.tasks[id].todo[0]);
    State(
      s.now,
      s.tasks[id := TaskAfter(s, t, fetch)],
      if t.pc.Claiming? then s.inflight + {key} else if t.pc.Releasing? then s.inflight - {key} else s.inflight,
      if t.pc.Recording? then s.attempts[key := s.now] else s.attempts,
      if t.pc.Stamping? then s.ages[key := s.now] else s.ages,
      if t.pc.Storing? then s.payloads[key := t.pc.payload] else s.payloads,
      s.changes,
      if t.pc.Recording? then s.log + [Attempt(key, s.now)] else s.log,
      s.forgotten)
  }

  predicate Enabled(s: State, e: Event) {
    match e
    case Spawn(id, _) => id !in s.tasks
    case Warm(id, _) => id !in s.tasks
    case Ask(id, _) => id !in s.tasks
    case Drop(id) => id in s.tasks && s.tasks[id].kind == Request
    case Move(id, _) => id in s.tasks && s.tasks[id].todo != []
    case _ => true
  }

  function Begin(s: State, id: nat, kind: Kind, todo: seq<Key>, pc: Pc): State {
    s.(tasks := s.tasks[id := Task(kind, todo, pc, 0, 0)])
  }

  function Step(s: State, e: Event): State
    requires Enabled(s, e)
  {
    match e
    case Spawn(id, key) => Begin(s, id, Refresh, [key], Checking)
    case Warm(id, keys) => Begin(s, id, Warmer, keys, Claiming)
    case Ask(id, key) => Begin(s, id, Request, [key], Asking)
    case Drop(id) => s.(tasks := s.tasks[id := s.tasks[id].(todo := [])])
    case Move(id, fetch) => MoveTask(s, id, fetch)
    case Tick(seconds) => s.(now := s.now + seconds)
    case MarkAllStale => s.(ages := map[], changes := s.changes + 1)
    case ForgetAttempt(key) => s.(attempts := s.attempts - {key}, forgotten := s.forgotten[key := |s.log|])
    case ForgetAge(key) => s.(ages := s.ages - {key})
    case ForgetPayload(key) => s.(payloads := s.payloads - {key})
  }

  predicate IsRun(s: State, events: seq<Event>)
    decreases events
  {
    events == [] || (Enabled(s, events[0]) && IsRun(Step(s, events[0]), events[1..]))
  }

  function After(s: State, events: seq<Event>): State
    requires IsRun(s, events)
    decreases events
  {
    if events == [] then s else After(Step(s, events[0]), events[1..])
  }

  const INITIAL := State(0, map[], {}, map[], map[], map[], 0, [], map[])

  // ----- single flight -----

  predicate Between(pc: Pc) {
    pc.Recording? || pc.Asking? || pc.Fetching? || pc.Storing? || pc.Stamping? || pc.Releasing?
  }

  /** The task is between claiming and releasing the key. */
  predicate Holds(t: Task, key: Key) {
    t.kind != Request && t.todo != [] && t.todo[0] == key && Between(t.pc)
  }

  predicate HoldsIn(s: State, id: nat, key: Key) {
    id in s.tasks && Holds(s.tasks[id], key)
  }

  ghost predicate IsHeld(s: State, key: Key) {
    exists id :: HoldsIn(s, id, key)
  }

  ghost predicate OneHolder(s: State) {
    forall id, id', key | HoldsIn(s, id, key) && HoldsIn(s, id', key) :: id == id'
  }

  ghost predicate ClaimsAreHeld(s: State) {
    forall key :: key in s.inflight <==> IsHeld(s, key)
  }

  /** A request fetches, stores and stamps, and does nothing else. */
  predicate OnlyFetches(s: State, id: nat) {
    id in s.tasks && s.tasks[id].kind == Request && s.tasks[id].todo != [] ==>
      var pc := s.tasks[id].pc;
      pc.Asking? || pc.Fetching? || pc.Storing? || pc.Stamping?
  }

  /** It has one key to do. */
  predicate OneKey(s: State, id: nat) {
    id in s.tasks && s.tasks[id].kind != Warmer ==> |s.tasks[id].todo| <= 1
  }

  ghost predicate RequestsOnlyFetch(s: State) {
    forall id :: OnlyFetches(s, id) && OneKey(s, id)
  }

  ghost predicate Inv(s: State) {
    OneHolder(s) && ClaimsAreHeld(s) && RequestsOnlyFetch(s)
  }

  lemma HoldersAfter(s: State, s': State, id: nat)
    requires forall other | other != id ::
               (other in s'.tasks <==> other in s.tasks) && (other in s.tasks ==> s'.tasks[other] == s.tasks[other])
    ensures forall other, key | other != id :: HoldsIn(s', other, key) <==> HoldsIn(s, other, key)
  {
  }

  lemma ClaimKeepsInv(s: State, id: nat, fetch: Fetch)
    requires Inv(s) && Enabled(s, Move(id, fetch)) && s.tasks[id].pc.Claiming?
    ensures OneHolder(MoveTask(s, id, fetch)) && ClaimsAreHeld(MoveTask(s, id, fetch))
  {
    var s' := MoveTask(s, id, fetch);
    var key := s.tasks[id].todo[0];
    assert OnlyFetches(s, id);
    HoldersAfter(s, s', id);
    assert forall k :: !HoldsIn(s, id, k);
    forall k ensures k in s'.inflight <==> IsHeld(s', k) {
      if IsHeld(s, k) {
        var h :| HoldsIn(s, h, k);
        assert HoldsIn(s', h, k);
      }
      if k == key && key !in s.inflight {
        assert HoldsIn(s', id, k);
      }
    }
    if key !in s.inflight {
      assert !IsHeld(s, key);
    }
  }

  lemma ReleaseKeepsInv(s: State, id: nat, fetch: Fetch)
    requires Inv(s) && Enabled(s, Move(id, fetch)) && s.tasks[id].pc.Releasing?
    ensures OneHolder(MoveTask(s, id, fetch)) && ClaimsAreHeld(MoveTask(s, id, fetch))
  {
    var s' := MoveTask(s, id, fetch);
    var key := s.tasks[id].todo[0];
    assert OnlyFetches(s, id);
    HoldersAfter(s, s', id);
    assert HoldsIn(s, id, key);
    assert forall k :: !HoldsIn(s', id, k);
    forall k ensures k in s'.inflight <==> IsHeld(s', k) {
      if IsHeld(s, k) && k != key {
        var h :| HoldsIn(s, h, k);
        assert HoldsIn(s', h, k);
      }
    }
  }

  /** Steps that neither claim nor release leave the holders alone. */
  lemma SameHolders(s: State, s': State)
    requires Inv(s) && s'.inflight == s.inflight
    requires forall id, key :: HoldsIn(s', id, key) <==> HoldsIn(s, id, key)
    ensures OneHolder(s') && ClaimsAreHeld(s')
  {
    forall k ensures k in s'.inflight <==> IsHeld(s', k) {
      if h :| HoldsIn(s, h, k) {
        assert HoldsIn(s', h, k);
      }
    }
  }

  lemma OtherMoveHoldsAlike(s: State, id: nat, fetch: Fetch)
    requires Enabled(s, Move(id, fetch)) && !s.tasks[id].pc.Claiming? && !s.tasks[id].pc.Releasing?
    requires OnlyFetches(s, id)
    ensures forall key :: HoldsIn(MoveTask(s, id, fetch), id, key) <==> HoldsIn(s, id, key)
    ensures MoveTask(s, id, fetch).inflight == s.inflight
  {
  }

  lemma OtherMoveKeepsInv(s: State, id: nat, fetch: Fetch)
    requires Inv(s) && Enabled(s, Move(id, fetch))
    requires !s.tasks[id].pc.Claiming? && !s.tasks[id].pc.Releasing?
    ensures OneHolder(MoveTask(s, id, fetch)) && ClaimsAreHeld(MoveTask(s, id, fetch))
  {
    var s' := MoveTask(s, id, fetch);
    HoldersAfter(s, s', id);
    assert OnlyFetches(s, id);
    OtherMoveHoldsAlike(s, id, fetch);
    SameHolders(s, s');
  }

  lemma MoveKeepsRequests(s: State, id: nat, fetch: Fetch)
    requires RequestsOnlyFetch(s) && Enabled(s, Move(id, fetch))
    ensures RequestsOnlyFetch(MoveTask(s, id, fetch))
  {
    var s' := MoveTask(s, id, fetch);
    forall other ensures OnlyFetches(s', other) && OneKey(s', other) {
      assert OnlyFetches(s, other) && OneKey(s, other);
    }
  }

  lemma StepKeepsInv(s: State, e: Event)
    requires Inv(s) && Enabled(s, e)
    ensures Inv(Step(s, e))
  {
    var s' := Step(s, e);
    if e.Move? {
      MoveKeepsRequests(s, e.id, e.fetch);
      if s.tasks[e.id].pc.Claiming? {
        ClaimKeepsInv(s, e.id, e.fetch);
      } else if s.tasks[e.id].pc.Releasing? {
        ReleaseKeepsInv(s, e.id, e.fetch);
      } else {
        OtherMoveKeepsInv(s, e.id, e.fetch);
      }
    } else {
      SameHolders(s, s');
      forall other ensures OnlyFetches(s', other) && OneKey(s', other) {
        assert OnlyFetches(s, other) && OneKey(s, other);
      }
    }
  }

  lemma {:induction false} RunKeepsInv(s: State, events: seq<Event>)
    requires Inv(s) && IsRun(s, events)
    ensures Inv(After(s, events))
    decreases events
  {
    if events != [] {
      StepKeepsInv(s, events[0]);
      RunKeepsInv(Step(s, events[0]), events[1..]);
    }
  }

  /** In every reachable state at most one task is between claiming and releasing a key, and the
      in-flight set is exactly the keys so held. */
  lemma SingleFlight(events: seq<Event>)
    requires IsRun(INITIAL, events)
    ensures var s := After(INITIAL, events);
            && (forall id, id', key | HoldsIn(s, id, key) && HoldsIn(s, id', key) :: id == id')
            && (forall key :: key in s.inflight <==> exists id :: HoldsIn(s, id, key))
  {
    RunKeepsInv(INITIAL, events);
    var s := After(INITIAL, events);
    forall key ensures key in s.inflight <==> exists id :: HoldsIn(s, id, key) {
      assert key in s.inflight <==> IsHeld(s, key);
    }
  }

  /** A key leaves the in-flight set only when its holder releases it; in particular a failed claim
      releases nothing. */
  lemma OnlyHoldersRelease(s: State, e: Event, key: Key)
    requires Inv(s) && Enabled(s, e)
    requires key in s.inflight && key !in Step(s, e).inflight
    ensures e.Move? && HoldsIn(s, e.id, key) && s.tasks[e.id].pc.Releasing?
    ensures forall id :: HoldsIn(s, id, key) ==> id == e.id
  {
    assert OnlyFetches(s, e.id);
    assert HoldsIn(s, e.id, key);
  }

  // ----- stale data beats no data -----

  /** The task is about to write the payload or the age of the key. */
  predicate Writing(t: Task, key: Key) {
    t.todo != [] && t.todo[0] == key && (t.pc.Storing? || t.pc.Stamping?)
  }

  ghost predicate NobodyWrites(s: State, key: Key) {
    forall id | id in s.tasks :: !Writing(s.tasks[id], key)
  }

  /** Nothing but failing fetches happens to the key. */
  predicate OnlyFails(s: State, e: Event, key: Key) {
    match e
    case Move(id, fetch) =>
      id in s.tasks && s.tasks[id].todo != [] && s.tasks[id].todo[0] == key && s.tasks[id].pc.Fetching? ==>
        fetch.FetchFailed?
    case MarkAllStale => false
    case ForgetAge(k) => k != key
    case ForgetPayload(k) => k != key
    case _ => true
  }

  predicate OnlyFailures(s: State, events: seq<Event>, key: Key)
    requires IsRun(s, events)
    decreases events
  {
    events == [] || (OnlyFails(s, events[0], key) && OnlyFailures(Step(s, events[0]), events[1..], key))
  }

  predicate SameEntry(s: State, s': State, key: Key) {
    && (key in s.payloads <==> key in s'.payloads) && (key in s.payloads ==> s.payloads[key] == s'.payloads[key])
    && (key in s.ages <==> key in s'.ages) && (key in s.ages ==> s.ages[key] == s'.ages[key])
  }

  lemma FailingMoveWritesNothing(s: State, id: nat, fetch: Fetch, key: Key)
    requires Enabled(s, Move(id, fetch)) && !Writing(s.tasks[id], key)
    ensures SameEntry(s, MoveTask(s, id, fetch), key)
  {
  }

  lemma FailingMoveLeadsToNoWrite(s: State, id: nat, fetch: Fetch, key: Key)
    requires Enabled(s, Move(id, fetch)) && !Writing(s.tasks[id], key) && OnlyFails(s, Move(id, fetch), key)
    ensures !Writing(MoveTask(s, id, fetch).tasks[id], key)
  {
  }

  lemma FailingMoveKeepsEntry(s: State, id: nat, fetch: Fetch, key: Key)
    requires NobodyWrites(s, key) && Enabled(s, Move(id, fetch)) && OnlyFails(s, Move(id, fetch), key)
    ensures NobodyWrites(MoveTask(s, id, fetch), key) && SameEntry(s, MoveTask(s, id, fetch), key)
  {
    assert !Writing(s.tasks[id], key);
    FailingMoveWritesNothing(s, id, fetch, key);
    FailingMoveLeadsToNoWrite(s, id, fetch, key);
  }

  lemma FailingStepKeepsEntry(s: State, e: Event, key: Key)
    requires NobodyWrites(s, key) && Enabled(s, e) && OnlyFails(s, e, key)
    ensures NobodyWrites(Step(s, e), key) && SameEntry(s, Step(s, e), key)
  {
    if e.Move? {
      FailingMoveKeepsEntry(s, e.id, e.fetch, key);
    }
  }

  /** However many fetches of a key fail, by refreshes, the warmer or requests, its payload and its
      age stay as they were. */
  lemma {:induction false} FailedFetchesKeepEntry(s: State, events: seq<Event>, key: Key)
    requires NobodyWrites(s, key) && IsRun(s, events) && OnlyFailures(s, events, key)
    ensures SameEntry(s, After(s, events), key)
    decreases events
  {
    if events != [] {
      FailingStepKeepsEntry(s, events[0], key);
      FailedFetchesKeepEntry(Step(s, events[0]), events[1..], key);
    }
  }

  /** A payload once cached is there to serve, whatever becomes stale, until it is evicted. */
  lemma {:induction false} PayloadsStay(s: State, events: seq<Event>, key: Key)
    requires IsRun(s, events) && key in s.payloads
    requires forall i | 0 <= i < |events| :: events[i] != ForgetPayload(key)
    ensures key in After(s, events).payloads
    decreases events
  {
    if events != [] {
      PayloadsStay(Step(s, events[0]), events[1..], key);
    }
  }

  // ----- putting runs together -----

  lemma OneEvent(s: State, e: Event, rest: seq<Event>, s': State)
    requires Enabled(s, e) && Step(s, e) == s' && IsRun(s', rest)
    ensures IsRun(s, [e] + rest) && After(s, [e] + rest) == After(s', rest)
  {
    assert ([e] + rest)[1..] == rest;
  }
}
