/** Single refreshes, warmer passes and requests from beginning to end (src/hub_cache.rs and the hub
    handler of src/routes.rs), whatever other tasks there are. */
module HubRuns {
  import opened HubRefresh

  // ----- runs, put together -----

  predicate Comes(s: State, events: seq<Event>, s': State) {
    IsRun(s, events) && After(s, events) == s'
  }

  lemma {:induction false} Joins(a: State, x: seq<Event>, b: State, y: seq<Event>, c: State)
    requires Comes(a, x, b) && Comes(b, y, c)
    ensures Comes(a, x + y, c)
    decreases x
  {
    if x == [] {
      assert x + y == y;
    } else {
      assert (x + y)[1..] == x[1..] + y;
      Joins(Step(a, x[0]), x[1..], b, y, c);
    }
  }

  lemma Two(a: State, e: Event, b: State, e': Event, c: State)
    requires Enabled(a, e) && Step(a, e) == b && Enabled(b, e') && Step(b, e') == c
    ensures Comes(a, [e, e'], c)
  {
    OneEvent(b, e', [], c);
    OneEvent(a, e, [e'] + [], b);
    assert [e, e'] == [e] + ([e'] + []);
  }

  lemma One(a: State, e: Event, b: State)
    requires Enabled(a, e) && Step(a, e) == b
    ensures Comes(a, [e], b)
  {
    OneEvent(a, e, [], b);
    assert [e] == [e] + [];
  }

  // ----- states on the way -----

  function Busy(s: State, id: nat, t: Task): State {
    s.(tasks := s.tasks[id := t])
  }

  function Claimed(s: State, key: Key): State {
    s.(inflight := s.inflight + {key})
  }

  function Attempted(s: State, key: Key): State {
    s.(attempts := s.attempts[key := s.now], log := s.log + [Attempt(key, s.now)])
  }

  function Stored(s: State, key: Key, payload: Payload): State {
    s.(payloads := s.payloads[key := payload])
  }

  function Stamped(s: State, key: Key): State {
    s.(ages := s.ages[key := s.now])
  }

  /** A task that is through. */
  function Through(t: Task): Task {
    t.(todo := [], pc := Claiming)
  }

  /** The next step of a task, at the end of a fetch a failure. */
  function Goes(id: nat): Event {
    Move(id, FetchFailed)
  }

  // ----- pieces -----

  lemma AsksAndIsAnswered(s: State, id: nat, t: Task, body: nat)
    requires t.todo != [] && t.pc == Asking
    ensures Comes(Busy(s, id, t), [Goes(id), Move(id, Fetched(body))],
              Busy(s, id, t.(pc := Storing(Payload(body, s.changes)))))
  {
    Two(Busy(s, id, t), Goes(id), Busy(s, id, t.(pc := Fetching(s.changes))),
      Move(id, Fetched(body)), Busy(s, id, t.(pc := Storing(Payload(body, s.changes)))));
  }

  lemma IsSent(s: State, id: nat, t: Task)
    requires t.todo != [] && t.pc == Asking
    ensures Step(Busy(s, id, t), Goes(id)) == Busy(s, id, t.(pc := Fetching(s.changes)))
  {
  }

  lemma IsNotAnswered(s: State, id: nat, t: Task)
    requires |t.todo| == 1
    ensures Step(Busy(s, id, t.(pc := Fetching(s.changes))), Goes(id))
         == Busy(s, id, if t.kind == Request then Through(t) else t.(pc := Releasing))
  {
    assert t.todo[1..] == [];
  }

  lemma AsksInVain(s: State, id: nat, t: Task)
    requires |t.todo| == 1 && t.pc == Asking
    ensures Comes(Busy(s, id, t), [Goes(id), Goes(id)],
              Busy(s, id, if t.kind == Request then Through(t) else t.(pc := Releasing)))
  {
    IsSent(s, id, t);
    IsNotAnswered(s, id, t);
    Two(Busy(s, id, t), Goes(id), Busy(s, id, t.(pc := Fetching(s.changes))),
      Goes(id), Busy(s, id, if t.kind == Request then Through(t) else t.(pc := Releasing)));
  }

  lemma IsStored(s: State, id: nat, t: Task, payload: Payload)
    requires t.todo != [] && t.pc == Storing(payload)
    ensures Step(Busy(s, id, t), Goes(id)) == Busy(Stored(s, t.todo[0], payload), id, t.(pc := Stamping))
  {
  }

  lemma IsStamped(s: State, id: nat, t: Task)
    requires |t.todo| == 1 && t.pc == Stamping
    ensures Step(Busy(s, id, t), Goes(id))
         == Busy(Stamped(s, t.todo[0]), id, if t.kind == Request then Through(t) else t.(pc := Releasing))
  {
    assert t.todo[1..] == [];
  }

  lemma StoresAndStamps(s: State, id: nat, t: Task, payload: Payload)
    requires |t.todo| == 1 && t.pc == Storing(payload)
    ensures Comes(Busy(s, id, t), [Goes(id), Goes(id)],
              Busy(Stamped(Stored(s, t.todo[0], payload), t.todo[0]), id,
                if t.kind == Request then Through(t) else t.(pc := Releasing)))
  {
    IsStored(s, id, t, payload);
    IsStamped(Stored(s, t.todo[0], payload), id, t.(pc := Stamping));
    Two(Busy(s, id, t), Goes(id), Busy(Stored(s, t.todo[0], payload), id, t.(pc := Stamping)),
      Goes(id), Busy(Stamped(Stored(s, t.todo[0], payload), t.todo[0]), id,
                  if t.kind == Request then Through(t) else t.(pc := Releasing)));
  }

  /** From asking to the stamp. */
  function Answer(id: nat, body: nat): seq<Event> {
    [Goes(id), Move(id, Fetched(body))] + [Goes(id), Goes(id)]
  }

  lemma IsAnswered(s: State, id: nat, t: Task, body: nat)
    requires |t.todo| == 1 && t.pc == Asking
    ensures Comes(Busy(s, id, t), Answer(id, body),
              Busy(Stamped(Stored(s, t.todo[0], Payload(body, s.changes)), t.todo[0]), id,
                if t.kind == Request then Through(t) else t.(pc := Releasing)))
  {
    var (payload, key) := (Payload(body, s.changes), t.todo[0]);
    AsksAndIsAnswered(s, id, t, body);
    StoresAndStamps(s, id, t.(pc := Storing(payload)), payload);
    Joins(Busy(s, id, t), [Goes(id), Move(id, Fetched(body))], Busy(s, id, t.(pc := Storing(payload))),
      [Goes(id), Goes(id)], Busy(Stamped(Stored(s, key, payload), key), id,
                              if t.kind == Request then Through(t) else t.(pc := Releasing)));
  }

  lemma Releases(s: State, id: nat, t: Task)
    requires |t.todo| == 1 && t.pc == Releasing && t.todo[0] !in s.inflight
    ensures Comes(Busy(Claimed(s, t.todo[0]), id, t), [Goes(id)], Busy(s, id, Through(t)))
  {
    assert t.todo[1..] == [];
    assert s.inflight + {t.todo[0]} - {t.todo[0]} == s.inflight;
    One(Busy(Claimed(s, t.todo[0]), id, t), Goes(id), Busy(s, id, Through(t)));
  }

  // ----- refreshes -----

  /** The last attempt in the table is a minute old. */
  predicate IsDue(s: State, key: Key) {
    key in s.attempts ==> s.attempts[key] + 60 <= s.now
  }

  function Refreshing(s: State, key: Key, pc: Pc): Task {
    Task(Refresh, [key], pc, |s.log|, Forgotten(s, key))
  }

  lemma ChecksWell(s: State, id: nat, key: Key)
    requires id !in s.tasks && IsDue(s, key)
    ensures Comes(s, [Spawn(id, key), Goes(id)], Busy(s, id, Refreshing(s, key, Claiming)))
  {
    Two(s, Spawn(id, key), Busy(s, id, Task(Refresh, [key], Checking, 0, 0)),
      Goes(id), Busy(s, id, Refreshing(s, key, Claiming)));
  }

  lemma ClaimsAndRecords(s: State, id: nat, key: Key, t: Task)
    requires key !in s.inflight && t.kind == Refresh && t.todo == [key] && t.pc == Claiming
    ensures Comes(Busy(s, id, t), [Goes(id), Goes(id)], Busy(Claimed(Attempted(s, key), key), id, t.(pc := Asking)))
  {
    Two(Busy(s, id, t), Goes(id), Busy(Claimed(s, key), id, t.(pc := Recording)),
      Goes(id), Busy(Claimed(Attempted(s, key), key), id, t.(pc := Asking)));
  }

  /** From the call to asking. */
  function Attempting(id: nat, key: Key): seq<Event> {
    [Spawn(id, key), Goes(id)] + [Goes(id), Goes(id)]
  }

  lemma Attempts(s: State, id: nat, key: Key)
    requires id !in s.tasks && IsDue(s, key) && key !in s.inflight
    ensures Comes(s, Attempting(id, key), Busy(Claimed(Attempted(s, key), key), id, Refreshing(s, key, Asking)))
  {
    ChecksWell(s, id, key);
    ClaimsAndRecords(s, id, key, Refreshing(s, key, Claiming));
    Joins(s, [Spawn(id, key), Goes(id)], Busy(s, id, Refreshing(s, key, Claiming)), [Goes(id), Goes(id)],
      Busy(Claimed(Attempted(s, key), key), id, Refreshing(s, key, Asking)));
  }

  /** A due refresh of a key that nobody works on records its attempt; if Plex answers, it leaves the payload
      and its age; and it gives the key back. */
  lemma RefreshStores(s: State, id: nat, key: Key, body: nat)
    requires id !in s.tasks && IsDue(s, key) && key !in s.inflight
    ensures Comes(s, Attempting(id, key) + Answer(id, body) + [Goes(id)],
              Busy(Stamped(Stored(Attempted(s, key), key, Payload(body, s.changes)), key), id,
                Through(Refreshing(s, key, Claiming))))
  {
    var (a, t, payload) := (Attempted(s, key), Refreshing(s, key, Asking), Payload(body, s.changes));
    var end := Stamped(Stored(a, key, payload), key);
    Attempts(s, id, key);
    IsAnswered(Claimed(a, key), id, t, body);
    Releases(end, id, t.(pc := Releasing));
    Joins(s, Attempting(id, key), Busy(Claimed(a, key), id, t), Answer(id, body),
      Busy(Claimed(end, key), id, t.(pc := Releasing)));
    Joins(s, Attempting(id, key) + Answer(id, body), Busy(Claimed(end, key), id, t.(pc := Releasing)), [Goes(id)],
      Busy(end, id, Through(t)));
  }

  /** If Plex does not answer, nothing but the attempt is left. */
  lemma RefreshFails(s: State, id: nat, key: Key)
    requires id !in s.tasks && IsDue(s, key) && key !in s.inflight
    ensures Comes(s, Attempting(id, key) + [Goes(id), Goes(id)] + [Goes(id)],
              Busy(Attempted(s, key), id, Through(Refreshing(s, key, Claiming))))
  {
    var (a, t) := (Attempted(s, key), Refreshing(s, key, Asking));
    Attempts(s, id, key);
    AsksInVain(Claimed(a, key), id, t);
    Releases(a, id, t.(pc := Releasing));
    Joins(s, Attempting(id, key), Busy(Claimed(a, key), id, t), [Goes(id), Goes(id)],
      Busy(Claimed(a, key), id, t.(pc := Releasing)));
    Joins(s, Attempting(id, key) + [Goes(id), Goes(id)], Busy(Claimed(a, key), id, t.(pc := Releasing)), [Goes(id)],
      Busy(a, id, Through(t)));
  }

  lemma IsNotDue(s: State, id: nat, key: Key)
    requires id !in s.tasks && !IsDue(s, key)
    ensures Comes(s, [Spawn(id, key), Goes(id)], Busy(s, id, Task(Refresh, [], Claiming, 0, 0)))
  {
    assert [key][1..] == [];
    Two(s, Spawn(id, key), Busy(s, id, Task(Refresh, [key], Checking, 0, 0)),
      Goes(id), Busy(s, id, Task(Refresh, [], Claiming, 0, 0)));
  }

  lemma IsInFlight(s: State, id: nat, key: Key, t: Task)
    requires t.todo == [key] && t.pc == Claiming && key in s.inflight
    ensures Comes(Busy(s, id, t), [Goes(id)], Busy(s, id, Through(t)))
  {
    assert [key][1..] == [];
    assert s.inflight + {key} == s.inflight;
    One(Busy(s, id, t), Goes(id), Busy(s, id, Through(t)));
  }

  /** A refresh that is not due, or of a key that somebody works on, changes nothing and is through. */
  lemma RefreshIsSkipped(s: State, id: nat, key: Key)
    requires id !in s.tasks
    ensures !IsDue(s, key) ==>
              Comes(s, [Spawn(id, key), Goes(id)], Busy(s, id, Task(Refresh, [], Claiming, 0, 0)))
    ensures IsDue(s, key) && key in s.inflight ==>
              Comes(s, [Spawn(id, key), Goes(id)] + [Goes(id)], Busy(s, id, Through(Refreshing(s, key, Claiming))))
  {
    if !IsDue(s, key) {
      IsNotDue(s, id, key);
    } else if key in s.inflight {
      var t := Refreshing(s, key, Claiming);
      ChecksWell(s, id, key);
      IsInFlight(s, id, key, t);
      Joins(s, [Spawn(id, key), Goes(id)], Busy(s, id, t), [Goes(id)], Busy(s, id, Through(t)));
    }
  }

  // ----- the warmer and requests -----

  /** A warmer pass over one key fetches it whenever it was last attempted, and records no attempt. */
  lemma WarmerStores(s: State, id: nat, key: Key, body: nat)
    requires id !in s.tasks && key !in s.inflight
    ensures Comes(s, [Warm(id, [key]), Goes(id)] + Answer(id, body) + [Goes(id)],
              Busy(Stamped(Stored(s, key, Payload(body, s.changes)), key), id, Task(Warmer, [], Claiming, 0, 0)))
  {
    var (t, payload) := (Task(Warmer, [key], Asking, 0, 0), Payload(body, s.changes));
    var end := Stamped(Stored(s, key, payload), key);
    Two(s, Warm(id, [key]), Busy(s, id, t.(pc := Claiming)), Goes(id), Busy(Claimed(s, key), id, t));
    IsAnswered(Claimed(s, key), id, t, body);
    Releases(end, id, t.(pc := Releasing));
    Joins(s, [Warm(id, [key]), Goes(id)], Busy(Claimed(s, key), id, t), Answer(id, body),
      Busy(Claimed(end, key), id, t.(pc := Releasing)));
    Joins(s, [Warm(id, [key]), Goes(id)] + Answer(id, body), Busy(Claimed(end, key), id, t.(pc := Releasing)), [Goes(id)],
      Busy(end, id, Through(t)));
  }

  /** A request stores what it is answered, whoever else works on the key; without an answer, or once its
      client is gone, it does nothing more. */
  lemma RequestStores(s: State, id: nat, key: Key, body: nat)
    requires id !in s.tasks
    ensures Comes(s, [Ask(id, key)] + Answer(id, body),
              Busy(Stamped(Stored(s, key, Payload(body, s.changes)), key), id, Task(Request, [], Claiming, 0, 0)))
    ensures Comes(s, [Ask(id, key)] + [Goes(id), Goes(id)], Busy(s, id, Task(Request, [], Claiming, 0, 0)))
    ensures Comes(s, [Ask(id, key), Drop(id)], Busy(s, id, Task(Request, [], Asking, 0, 0)))
  {
    var t := Task(Request, [key], Asking, 0, 0);
    One(s, Ask(id, key), Busy(s, id, t));
    IsAnswered(s, id, t, body);
    Joins(s, [Ask(id, key)], Busy(s, id, t), Answer(id, body),
      Busy(Stamped(Stored(s, key, Payload(body, s.changes)), key), id, Through(t)));
    AsksInVain(s, id, t);
    Joins(s, [Ask(id, key)], Busy(s, id, t), [Goes(id), Goes(id)], Busy(s, id, Through(t)));
    Two(s, Ask(id, key), Busy(s, id, t), Drop(id), Busy(s, id, t.(todo := [])));
  }

  /** A pass over several keys goes on to the next one, in order, when a key is done or somebody else
      works on it. */
  lemma WarmerGoesOn(s: State, id: nat, t: Task)
    requires t.kind == Warmer && |t.todo| > 1
    ensures t.pc == Claiming && t.todo[0] in s.inflight ==>
              Comes(Busy(s, id, t), [Goes(id)], Busy(s, id, t.(todo := t.todo[1..])))
    ensures t.pc == Releasing ==>
              Comes(Busy(s, id, t), [Goes(id)],
                Busy(s, id, t.(todo := t.todo[1..], pc := Claiming)).(inflight := s.inflight - {t.todo[0]}))
  {
    if t.pc == Claiming && t.todo[0] in s.inflight {
      assert s.inflight + {t.todo[0]} == s.inflight;
      One(Busy(s, id, t), Goes(id), Busy(s, id, t.(todo := t.todo[1..])));
    } else if t.pc == Releasing {
      One(Busy(s, id, t), Goes(id),
        Busy(s, id, t.(todo := t.todo[1..], pc := Claiming)).(inflight := s.inflight - {t.todo[0]}));
    }
  }

  // ----- the clock and the tables -----

  function Ticks(events: seq<Event>): nat {
    if events == [] then 0 else (if events[0].Tick? then events[0].seconds else 0) + Ticks(events[1..])
  }

  lemma {:induction false} TimePasses(s: State, events: seq<Event>)
    requires IsRun(s, events)
    ensures After(s, events).now == s.now + Ticks(events)
    decreases events
  {
    if events != [] {
      TimePasses(Step(s, events[0]), events[1..]);
    }
  }

  /** The key's age is written, dropped or evicted. */
  predicate TouchesAge(s: State, e: Event, key: Key) {
    || e == MarkAllStale || e == ForgetAge(key)
    || (e.Move? && e.id in s.tasks && s.tasks[e.id].todo != [] && s.tasks[e.id].todo[0] == key && s.tasks[e.id].pc.Stamping?)
  }

  ghost predicate NeverTouchesAge(s: State, events: seq<Event>, key: Key)
    requires IsRun(s, events)
    decreases events
  {
    events != [] ==> !TouchesAge(s, events[0], key) && NeverTouchesAge(Step(s, events[0]), events[1..], key)
  }

  lemma {:induction false} AgeStays(s: State, events: seq<Event>, key: Key)
    requires IsRun(s, events) && NeverTouchesAge(s, events, key) && key in s.ages
    ensures key in After(s, events).ages && After(s, events).ages[key] == s.ages[key]
    decreases events
  {
    if events != [] {
      AgeStays(Step(s, events[0]), events[1..], key);
    }
  }

  /** A payload stamped now counts as fresh for exactly its maximum age, over every run that leaves its
      age alone; an evicted age counts as old at once. */
  lemma FreshForItsAge(s: State, events: seq<Event>, key: Key, maxAge: Time)
    requires IsRun(s, events) && NeverTouchesAge(s, events, key) && key in s.ages && s.ages[key] == s.now
    ensures var t := After(s, events);
            IsOlderThan(Lookup(t.ages, key), maxAge, t.now) <==> maxAge <= Ticks(events)
    ensures var t := Step(s, ForgetAge(key)); IsOlderThan(Lookup(t.ages, key), maxAge, t.now)
  {
    AgeStays(s, events, key);
    TimePasses(s, events);
  }

  /** Eviction takes one entry of one table. */
  lemma EvictionTakesOne(s: State, key: Key, other: Key)
    ensures var t := Step(s, ForgetAttempt(key));
            key !in t.attempts && t.ages == s.ages && t.payloads == s.payloads && t.inflight == s.inflight
    ensures var t := Step(s, ForgetAge(key));
            key !in t.ages && t.attempts == s.attempts && t.payloads == s.payloads && t.inflight == s.inflight
    ensures var t := Step(s, ForgetPayload(key));
            key !in t.payloads && t.attempts == s.attempts && t.ages == s.ages && t.inflight == s.inflight
    ensures forall e | e in {ForgetAttempt(key), ForgetAge(key), ForgetPayload(key)} && other != key ::
              var t := Step(s, e);
              Lookup(t.attempts, other) == Lookup(s.attempts, other) && Lookup(t.ages, other) == Lookup(s.ages, other)
              && (other in t.payloads <==> other in s.payloads)
  {
  }
}
