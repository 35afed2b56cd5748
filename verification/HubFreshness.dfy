/** What the age of a hub payload says after a playback change (`mark_all_hubs_stale`, `track_fetched`
    and `is_stale`, src/hub_cache.rs). */
module HubFreshness {
  import opened HubRefresh

  /** The task writes an age for the key next. */
  predicate Stamps(s: State, e: Event, key: Key) {
    e.Move? && e.id in s.tasks && s.tasks[e.id].todo != [] && s.tasks[e.id].todo[0] == key && s.tasks[e.id].pc.Stamping?
  }

  predicate NeverStamps(s: State, events: seq<Event>, key: Key)
    requires IsRun(s, events)
    decreases events
  {
    events != [] ==> !Stamps(s, events[0], key) && NeverStamps(Step(s, events[0]), events[1..], key)
  }

  lemma {:induction false} AgelessUntilStamped(s: State, events: seq<Event>, key: Key)
    requires IsRun(s, events) && NeverStamps(s, events, key) && key !in s.ages
    ensures key !in After(s, events).ages
    decreases events
  {
    if events != [] {
      AgelessUntilStamped(Step(s, events[0]), events[1..], key);
    }
  }

  /** After a playback change every payload counts as stale, for any maximum age, until an age is
      recorded for it; and unless it is evicted it is there to serve all the while. */
  lemma StaleUntilStamped(s: State, events: seq<Event>, key: Key, maxAge: Time)
    requires IsRun(Step(s, MarkAllStale), events) && NeverStamps(Step(s, MarkAllStale), events, key)
    ensures var t := After(Step(s, MarkAllStale), events);
            && !IsFresh(t, key, maxAge)
            && (key in s.payloads && (forall i | 0 <= i < |events| :: events[i] != ForgetPayload(key)) ==> key in t.payloads)
  {
    AgelessUntilStamped(Step(s, MarkAllStale), events, key);
    if key in s.payloads && (forall i | 0 <= i < |events| :: events[i] != ForgetPayload(key)) {
      PayloadsStay(Step(s, MarkAllStale), events, key);
    }
  }

  // ----- what a fresh entry holds -----

  /** `is_stale` says no. */
  predicate IsFresh(s: State, key: Key, maxAge: Time) {
    !IsOlderThan(Lookup(s.ages, key), maxAge, s.now)
  }

  /** The payload that counts as fresh was asked for since the change number `epoch`. */
  predicate FreshIsNew(s: State, key: Key, maxAge: Time, epoch: nat) {
    IsFresh(s, key, maxAge) && key in s.payloads ==> epoch <= s.payloads[key].epoch
  }

  predicate FetchingIn(s: State, id: nat, key: Key) {
    id in s.tasks && s.tasks[id].todo != [] && s.tasks[id].todo[0] == key && s.tasks[id].pc.Fetching?
  }

  predicate StoringIn(s: State, id: nat, key: Key) {
    id in s.tasks && s.tasks[id].todo != [] && s.tasks[id].todo[0] == key && s.tasks[id].pc.Storing?
  }

  predicate StampingIn(s: State, id: nat, key: Key) {
    id in s.tasks && s.tasks[id].todo != [] && s.tasks[id].todo[0] == key && s.tasks[id].pc.Stamping?
  }

  /** A fetch of the key is under way, or has ended and is about to be stored, or a payload that is there
      is about to be stamped; by a refresh, the warmer or a request. */
  ghost predicate Pending(s: State, key: Key) {
    || (exists id :: FetchingIn(s, id, key))
    || (exists id :: StoringIn(s, id, key))
    || (key in s.payloads && exists id :: StampingIn(s, id, key))
  }

  // ----- without pending writes -----

  /** What is being fetched was asked for since the change. */
  predicate FetchesNew(s: State, id: nat, key: Key, epoch: nat) {
    FetchingIn(s, id, key) ==> epoch <= s.tasks[id].pc.epoch
  }

  /** What is about to be stored was. */
  predicate StoresNew(s: State, id: nat, key: Key, epoch: nat) {
    StoringIn(s, id, key) ==> epoch <= s.tasks[id].pc.payload.epoch
  }

  /** What is there was. */
  predicate HoldsNew(s: State, key: Key, epoch: nat) {
    key in s.payloads ==> epoch <= s.payloads[key].epoch
  }

  predicate StampsNew(s: State, id: nat, key: Key, epoch: nat) {
    StampingIn(s, id, key) ==> HoldsNew(s, key, epoch)
  }

  ghost predicate OnlyNew(s: State, key: Key, epoch: nat) {
    && epoch <= s.changes
    && (forall id :: FetchesNew(s, id, key, epoch))
    && (forall id :: StoresNew(s, id, key, epoch))
    && (forall id :: StampsNew(s, id, key, epoch))
    && (key in s.ages ==> HoldsNew(s, key, epoch))
  }

  lemma StepKeepsOnlyNew(s: State, e: Event, key: Key, epoch: nat)
    requires OnlyNew(s, key, epoch) && Enabled(s, e)
    ensures OnlyNew(Step(s, e), key, epoch)
  {
    var s' := Step(s, e);
    if e.Move? {
      assert FetchesNew(s, e.id, key, epoch) && StoresNew(s, e.id, key, epoch) && StampsNew(s, e.id, key, epoch);
    }
    forall id ensures FetchesNew(s', id, key, epoch) && StoresNew(s', id, key, epoch) && StampsNew(s', id, key, epoch) {
      assert FetchesNew(s, id, key, epoch) && StoresNew(s, id, key, epoch) && StampsNew(s, id, key, epoch);
    }
  }

  lemma {:induction false} RunKeepsOnlyNew(s: State, events: seq<Event>, key: Key, epoch: nat)
    requires OnlyNew(s, key, epoch) && IsRun(s, events)
    ensures OnlyNew(After(s, events), key, epoch)
    decreases events
  {
    if events != [] {
      StepKeepsOnlyNew(s, events[0], key, epoch);
      RunKeepsOnlyNew(Step(s, events[0]), events[1..], key, epoch);
    }
  }

  // ----- epochs -----

  predicate StoredEarlier(s: State, key: Key) {
    key in s.payloads ==> s.payloads[key].epoch <= s.changes
  }

  predicate FetchedEarlier(s: State, id: nat) {
    id in s.tasks ==>
      && (s.tasks[id].pc.Fetching? ==> s.tasks[id].pc.epoch <= s.changes)
      && (s.tasks[id].pc.Storing? ==> s.tasks[id].pc.payload.epoch <= s.changes)
  }

  /** Nothing is from the future. */
  ghost predicate Dated(s: State) {
    (forall key :: StoredEarlier(s, key)) && (forall id :: FetchedEarlier(s, id))
  }

  lemma StepKeepsDated(s: State, e: Event)
    requires Dated(s) && Enabled(s, e)
    ensures Dated(Step(s, e))
  {
    var s' := Step(s, e);
    if e.Move? {
      assert FetchedEarlier(s, e.id);
    }
    forall key ensures StoredEarlier(s', key) {
      assert StoredEarlier(s, key);
    }
    forall id ensures FetchedEarlier(s', id) {
      assert FetchedEarlier(s, id);
    }
  }

  lemma {:induction false} RunKeepsDated(s: State, events: seq<Event>)
    requires Dated(s) && IsRun(s, events)
    ensures Dated(After(s, events))
    decreases events
  {
    if events != [] {
      StepKeepsDated(s, events[0]);
      RunKeepsDated(Step(s, events[0]), events[1..]);
    }
  }

  // ----- with pending writes -----

  lemma StoringLooksFresh(t: State, id: nat, key: Key, maxAge: Time, epoch: nat) returns (events: seq<Event>)
    requires StoringIn(t, id, key) && t.tasks[id].pc.payload.epoch < epoch && maxAge > 0
    ensures IsRun(t, events) && !FreshIsNew(After(t, events), key, maxAge, epoch)
  {
    var stored := Step(t, Move(id, FetchFailed));
    OneEvent(stored, Move(id, FetchFailed), [], Step(stored, Move(id, FetchFailed)));
    OneEvent(t, Move(id, FetchFailed), [Move(id, FetchFailed)] + [], stored);
    events := [Move(id, FetchFailed)] + ([Move(id, FetchFailed)] + []);
  }

  lemma PendingLooksFresh(s: State, key: Key, maxAge: Time) returns (events: seq<Event>)
    requires Dated(s) && Pending(s, key) && maxAge > 0
    ensures IsRun(Step(s, MarkAllStale), events)
    ensures !FreshIsNew(After(Step(s, MarkAllStale), events), key, maxAge, s.changes + 1)
  {
    var t := Step(s, MarkAllStale);
    if id :| FetchingIn(s, id, key) {
      assert FetchedEarlier(s, id);
      var rest := StoringLooksFresh(Step(t, Move(id, Fetched(0))), id, key, maxAge, s.changes + 1);
      OneEvent(t, Move(id, Fetched(0)), rest, Step(t, Move(id, Fetched(0))));
      events := [Move(id, Fetched(0))] + rest;
    } else if id :| StoringIn(s, id, key) {
      assert FetchedEarlier(s, id);
      events := StoringLooksFresh(t, id, key, maxAge, s.changes + 1);
    } else {
      var id :| StampingIn(s, id, key);
      assert StoredEarlier(s, key);
      OneEvent(t, Move(id, FetchFailed), [], Step(t, Move(id, FetchFailed)));
      events := [Move(id, FetchFailed)] + [];
    }
  }

  ghost predicate StaysNew(s: State, key: Key, maxAge: Time, events: seq<Event>) {
    IsRun(Step(s, MarkAllStale), events) ==>
      FreshIsNew(After(Step(s, MarkAllStale), events), key, maxAge, s.changes + 1)
  }

  /** In every reachable state, whatever happens after a playback change, an entry that counts as
      fresh holds a payload asked for since the change, if and only if no fetch, store or stamp of the
      key was pending at the change. */
  lemma FreshAfterChangeIsNew(before: seq<Event>, key: Key, maxAge: Time)
    requires IsRun(INITIAL, before) && maxAge > 0
    ensures var s := After(INITIAL, before);
            (forall events :: StaysNew(s, key, maxAge, events)) <==> !Pending(s, key)
  {
    var s := After(INITIAL, before);
    RunKeepsDated(INITIAL, before);
    if Pending(s, key) {
      var events := PendingLooksFresh(s, key, maxAge);
      assert !StaysNew(s, key, maxAge, events);
    } else {
      var t := Step(s, MarkAllStale);
      OnlyNewAfterChange(s, key);
      forall events ensures StaysNew(s, key, maxAge, events) {
        if IsRun(t, events) {
          RunKeepsOnlyNew(t, events, key, s.changes + 1);
        }
      }
    }
  }

  lemma OnlyNewAfterChange(s: State, key: Key)
    requires !Pending(s, key)
    ensures OnlyNew(Step(s, MarkAllStale), key, s.changes + 1)
  {
    var (t, epoch) := (Step(s, MarkAllStale), s.changes + 1);
    forall id ensures FetchesNew(t, id, key, epoch) && StoresNew(t, id, key, epoch) && StampsNew(t, id, key, epoch) {
      assert FetchingIn(t, id, key) <==> FetchingIn(s, id, key);
      assert StoringIn(t, id, key) <==> StoringIn(s, id, key);
      assert StampingIn(t, id, key) <==> StampingIn(s, id, key);
    }
  }

  // ----- a late stamp -----

  const MOVE := Move(0, FetchFailed)

  /** A refresh fetches, the playback changes, and only then are the payload and its age written. */
  function LateStamp(key: Key, body: nat): seq<Event> {
    [Spawn(0, key), MOVE, MOVE, MOVE, MOVE, Move(0, Fetched(body)), MarkAllStale, MOVE, MOVE]
  }

  /** The first states of the run. */
  function Starting(key: Key, pc: Pc): State {
    INITIAL.(tasks := map[0 := Task(Refresh, [key], pc, 0, 0)])
  }

  /** The later ones. */
  function Fetches(key: Key, pc: Pc, changes: nat): State {
    State(
      0, map[0 := Task(Refresh, [key], pc, 0, 0)], {key}, map[key := 0], map[], map[], changes, [Attempt(key, 0)], map[])
  }

  lemma WritesLate(key: Key, payload: Payload) returns (end: State)
    ensures IsRun(Fetches(key, Storing(payload), 0), [MarkAllStale] + ([MOVE] + ([MOVE] + [])))
    ensures After(Fetches(key, Storing(payload), 0), [MarkAllStale] + ([MOVE] + ([MOVE] + []))) == end
    ensures end == Fetches(key, Releasing, 1).(payloads := map[key := payload], ages := map[key := 0])
  {
    end := Fetches(key, Releasing, 1).(payloads := map[key := payload], ages := map[key := 0]);
    var changed := Fetches(key, Storing(payload), 1);
    var stored := Fetches(key, Stamping, 1).(payloads := map[key := payload]);
    OneEvent(stored, MOVE, [], end);
    OneEvent(changed, MOVE, [MOVE] + [], stored);
    OneEvent(Fetches(key, Storing(payload), 0), MarkAllStale, [MOVE] + ([MOVE] + []), changed);
  }

  lemma FetchesFirst(key: Key, body: nat, rest: seq<Event>)
    requires IsRun(Fetches(key, Storing(Payload(body, 0)), 0), rest)
    ensures IsRun(Starting(key, Claiming), [MOVE] + ([MOVE] + ([MOVE] + ([Move(0, Fetched(body))] + rest))))
    ensures After(Starting(key, Claiming), [MOVE] + ([MOVE] + ([MOVE] + ([Move(0, Fetched(body))] + rest))))
         == After(Fetches(key, Storing(Payload(body, 0)), 0), rest)
  {
    var fetching := Fetches(key, Fetching(0), 0);
    var asking := Fetches(key, Asking, 0);
    var recording := Starting(key, Recording).(inflight := {key});
    OneEvent(fetching, Move(0, Fetched(body)), rest, Fetches(key, Storing(Payload(body, 0)), 0));
    OneEvent(asking, MOVE, [Move(0, Fetched(body))] + rest, fetching);
    OneEvent(recording, MOVE, [MOVE] + ([Move(0, Fetched(body))] + rest), asking);
    OneEvent(Starting(key, Claiming), MOVE, [MOVE] + ([MOVE] + ([Move(0, Fetched(body))] + rest)), recording);
  }

  lemma LateStampInSteps(key: Key, body: nat)
    ensures LateStamp(key, body) ==
              var rest := [MarkAllStale] + ([MOVE] + ([MOVE] + []));
              [Spawn(0, key)] + ([MOVE] + ([MOVE] + ([MOVE] + ([MOVE] + ([Move(0, Fetched(body))] + rest)))))
  {
  }

  /** The payload from before the change counts as fresh, for any maximum age. */
  lemma LateStampLooksFresh(key: Key, body: nat, maxAge: Time)
    requires maxAge > 0
    ensures IsRun(INITIAL, LateStamp(key, body))
    ensures var s := After(INITIAL, LateStamp(key, body));
            s.changes == 1 && s.payloads == map[key := Payload(body, 0)] && IsFresh(s, key, maxAge)
  {
    var rest := [MarkAllStale] + ([MOVE] + ([MOVE] + []));
    var claims := [MOVE] + ([MOVE] + ([MOVE] + ([Move(0, Fetched(body))] + rest)));
    var end := WritesLate(key, Payload(body, 0));
    FetchesFirst(key, body, rest);
    OneEvent(Starting(key, Checking), MOVE, claims, Starting(key, Claiming));
    OneEvent(INITIAL, Spawn(0, key), [MOVE] + claims, Starting(key, Checking));
    LateStampInSteps(key, body);
  }
}
