/** How far apart the refresh attempts of a hub are (`spawn_hub_refresh`, src/hub_cache.rs): the last
    attempt is looked up before the claim, in a table that may forget it. */
module HubAttempts {
  import opened HubRefresh

  // ----- the invariant -----

  /** The table knows every attempt it has not forgotten, or a later one. */
  predicate KnowsAttempt(s: State, i: nat) {
    i < |s.log| ==> s.log[i].time <= s.now && (Forgotten(s, s.log[i].key) <= i ==> IsInTable(s, s.log[i]))
  }

  predicate IsInTable(s: State, attempt: Attempt) {
    attempt.key in s.attempts && attempt.time <= s.attempts[attempt.key]
  }

  ghost predicate KnowsAttempts(s: State) {
    forall i: nat :: KnowsAttempt(s, i)
  }

  predicate HasChecked(t: Task) {
    t.kind == Refresh && t.todo != [] && (t.pc.Claiming? || t.pc.Recording?)
  }

  /** The attempt was in the table when the refresh checked, or a later one. */
  predicate HasSeen(t: Task, i: nat) {
    HasChecked(t) && t.blind <= i < t.mark
  }

  /** Attempts that were in the table when a refresh checked are a minute old, and still are. */
  predicate CheckedWell(s: State, id: nat, i: nat) {
    id in s.tasks && HasSeen(s.tasks[id], i) && IsAttempt(s, i, s.tasks[id].todo[0]) ==>
      s.log[i].time + 60 <= s.now
  }

  ghost predicate AllCheckedWell(s: State) {
    forall id, i: nat :: CheckedWell(s, id, i)
  }

  predicate IsAttempt(s: State, i: nat, key: Key) {
    i < |s.log| && s.log[i].key == key
  }

  predicate MarkBehind(s: State, id: nat) {
    id in s.tasks ==> s.tasks[id].mark <= |s.log|
  }

  ghost predicate MarksBehind(s: State) {
    (forall id :: MarkBehind(s, id)) && forall key :: Forgotten(s, key) <= |s.log|
  }

  ghost predicate AttemptInv(s: State) {
    Inv(s) && KnowsAttempts(s) && AllCheckedWell(s) && MarksBehind(s)
  }

  lemma StepKeepsKnowledge(s: State, e: Event)
    requires KnowsAttempts(s) && MarksBehind(s) && Enabled(s, e)
    ensures KnowsAttempts(Step(s, e)) && MarksBehind(Step(s, e))
  {
    var s' := Step(s, e);
    forall i: nat ensures KnowsAttempt(s', i) {
      assert KnowsAttempt(s, i);
    }
    forall id ensures MarkBehind(s', id) {
      assert MarkBehind(s, id);
    }
    forall key ensures Forgotten(s', key) <= |s'.log| {
      assert Forgotten(s, key) <= |s.log|;
    }
  }

  /** A check that passes has looked at every attempt in the table. */
  lemma CheckLooksWell(s: State, id: nat, fetch: Fetch, i: nat)
    requires KnowsAttempts(s) && Enabled(s, Move(id, fetch)) && s.tasks[id].pc.Checking?
    ensures CheckedWell(MoveTask(s, id, fetch), id, i) || s.tasks[id].kind == Warmer || |s.tasks[id].todo| > 1
  {
    assert KnowsAttempt(s, i);
  }

  lemma StepKeepsChecks(s: State, e: Event)
    requires AttemptInv(s) && Enabled(s, e)
    ensures AllCheckedWell(Step(s, e))
  {
    var s' := Step(s, e);
    forall id, i: nat ensures CheckedWell(s', id, i) {
      assert CheckedWell(s, id, i) && MarkBehind(s, id) && OneKey(s, id);
      if e.Move? && e.id == id && s.tasks[id].pc.Checking? {
        CheckLooksWell(s, id, e.fetch, i);
      }
    }
  }

  lemma StepKeepsAttempts(s: State, e: Event)
    requires AttemptInv(s) && Enabled(s, e)
    ensures AttemptInv(Step(s, e))
  {
    StepKeepsInv(s, e);
    StepKeepsKnowledge(s, e);
    StepKeepsChecks(s, e);
  }

  lemma {:induction false} RunKeepsAttempts(s: State, events: seq<Event>)
    requires AttemptInv(s) && IsRun(s, events)
    ensures AttemptInv(After(s, events))
    decreases events
  {
    if events != [] {
      StepKeepsAttempts(s, events[0]);
      RunKeepsAttempts(Step(s, events[0]), events[1..]);
    }
  }

  // ----- when an attempt comes too soon -----

  predicate Recent(s: State, i: nat, key: Key) {
    IsAttempt(s, i, key) && s.now < s.log[i].time + 60
  }

  /** The key was attempted less than a minute ago. */
  ghost predicate WithinMinute(s: State, key: Key) {
    exists i: nat :: Recent(s, i, key)
  }

  predicate Unseen(s: State, id: nat, i: nat)
    requires id in s.tasks && s.tasks[id].todo != []
  {
    Recent(s, i, s.tasks[id].todo[0]) && (s.tasks[id].mark <= i || i < s.tasks[id].blind)
  }

  /** So it was, by an attempt the check could not see: one made after it, or one that the table had
      forgotten by then. */
  ghost predicate Overlooked(s: State, id: nat)
    requires id in s.tasks && s.tasks[id].todo != []
  {
    exists i: nat :: Unseen(s, id, i)
  }

  predicate IsRecording(s: State, id: nat) {
    id in s.tasks && s.tasks[id].kind == Refresh && s.tasks[id].todo != [] && s.tasks[id].pc.Recording?
  }

  lemma TooSoonIsOverlooked(s: State, id: nat)
    requires AttemptInv(s) && IsRecording(s, id)
    ensures WithinMinute(s, s.tasks[id].todo[0]) <==> Overlooked(s, id)
  {
    if i: nat :| Recent(s, i, s.tasks[id].todo[0]) {
      assert CheckedWell(s, id, i);
      assert Unseen(s, id, i);
    }
    if i: nat :| Unseen(s, id, i) {
      assert Recent(s, i, s.tasks[id].todo[0]);
    }
  }

  /** In every reachable state, a refresh is about to record an attempt within a minute of another on
      its key if and only if that other was made after its check, or forgotten before it. */
  lemma AttemptsAreSpaced(events: seq<Event>, id: nat)
    requires IsRun(INITIAL, events) && IsRecording(After(INITIAL, events), id)
    ensures var s := After(INITIAL, events); WithinMinute(s, s.tasks[id].todo[0]) <==> Overlooked(s, id)
  {
    RunKeepsAttempts(INITIAL, events);
    TooSoonIsOverlooked(After(INITIAL, events), id);
  }

  // ----- when the attempts of a run are spaced -----

  predicate SpacedPair(log: seq<Attempt>, i: nat, j: nat) {
    i < j < |log| && log[i].key == log[j].key ==> log[i].time + 60 <= log[j].time
  }

  /** Any two attempts on one key are a minute apart. */
  ghost predicate Spaced(log: seq<Attempt>) {
    forall i: nat, j: nat :: SpacedPair(log, i, j)
  }

  predicate Records(s: State, e: Event) {
    e.Move? && IsRecording(s, e.id)
  }

  /** No refresh of the run records while a recent attempt is overlooked. */
  ghost predicate NeverOverlooked(s: State, events: seq<Event>)
    requires IsRun(s, events)
    decreases events
  {
    events != [] ==>
      && (Records(s, events[0]) ==> !Overlooked(s, events[0].id))
      && NeverOverlooked(Step(s, events[0]), events[1..])
  }

  /** Only refreshes record. */
  predicate RecordsAsRefresh(s: State, id: nat) {
    id in s.tasks && s.tasks[id].todo != [] && s.tasks[id].pc.Recording? ==> s.tasks[id].kind == Refresh
  }

  ghost predicate RefreshesRecord(s: State) {
    forall id :: RecordsAsRefresh(s, id)
  }

  lemma StepKeepsRecorders(s: State, e: Event)
    requires Inv(s) && RefreshesRecord(s) && Enabled(s, e)
    ensures RefreshesRecord(Step(s, e))
  {
    forall id ensures RecordsAsRefresh(Step(s, e), id) {
      assert RecordsAsRefresh(s, id) && OnlyFetches(s, id);
    }
  }

  lemma RecordSpaces(s: State, e: Event)
    requires AttemptInv(s) && Enabled(s, e) && Records(s, e)
    ensures Spaced(Step(s, e).log) <==> Spaced(s.log) && !Overlooked(s, e.id)
  {
    var more, last, key := Step(s, e).log, |s.log|, s.tasks[e.id].todo[0];
    assert more == s.log + [Attempt(key, s.now)];
    TooSoonIsOverlooked(s, e.id);
    if Spaced(more) {
      forall i: nat, j: nat ensures SpacedPair(s.log, i, j) {
        assert SpacedPair(more, i, j);
      }
      forall i: nat ensures !Recent(s, i, key) {
        assert SpacedPair(more, i, last);
      }
    }
    if Spaced(s.log) && !Overlooked(s, e.id) {
      forall i: nat, j: nat ensures SpacedPair(more, i, j) {
        assert SpacedPair(s.log, i, j);
        assert !Recent(s, i, key);
      }
    }
  }

  lemma {:induction false} SpacedAfter(s: State, events: seq<Event>)
    requires AttemptInv(s) && RefreshesRecord(s) && IsRun(s, events)
    ensures Spaced(After(s, events).log) <==> Spaced(s.log) && NeverOverlooked(s, events)
    decreases events
  {
    if events != [] {
      var e := events[0];
      StepKeepsAttempts(s, e);
      StepKeepsRecorders(s, e);
      SpacedAfter(Step(s, e), events[1..]);
      if Records(s, e) {
        RecordSpaces(s, e);
      } else if e.Move? {
        assert RecordsAsRefresh(s, e.id);
      }
    }
  }

  /** Over every run, the attempts on each key are a minute apart if and only if no refresh recorded
      one less than a minute after an attempt that its check could not see. */
  lemma AttemptsAreSpacedExactly(events: seq<Event>)
    requires IsRun(INITIAL, events)
    ensures Spaced(After(INITIAL, events).log) <==> NeverOverlooked(INITIAL, events)
  {
    SpacedAfter(INITIAL, events);
  }

  // ----- runs with two attempts in one second -----

  const FIRST := Move(0, FetchFailed)
  const SECOND := Move(1, FetchFailed)

  function At(key: Key, pc: Pc, mark: nat, blind: nat): Task {
    Task(Refresh, [key], pc, mark, blind)
  }

  const THROUGH := Task(Refresh, [], Claiming, 0, 0)

  /** A state of either run, at second 0; `made` attempts so far, of which the table forgot `lost`. */
  function Second(key: Key, tasks: map<nat, Task>, inflight: set<Key>, made: nat, lost: nat): State {
    State(
      0, tasks, inflight, if lost < made then map[key := 0] else map[], map[], map[], 0,
      seq(made, _ => Attempt(key, 0)), if lost > 0 then map[key := lost] else map[])
  }

  /** The first refresh claims, records, asks, is not answered and releases. */
  function Claims(rest: seq<Event>): seq<Event> {
    [FIRST] + ([FIRST] + ([FIRST] + ([FIRST] + ([FIRST] + rest))))
  }

  /** A refresh that has checked records its attempt, its fetch fails and it is through. */
  lemma FirstFails(key: Key, tasks: map<nat, Task>, rest: seq<Event>)
    requires 0 in tasks && tasks[0] == At(key, Claiming, 0, 0)
    requires IsRun(Second(key, tasks[0 := THROUGH], {}, 1, 0), rest)
    ensures IsRun(Second(key, tasks, {}, 0, 0), Claims(rest))
    ensures After(Second(key, tasks, {}, 0, 0), Claims(rest))
         == After(Second(key, tasks[0 := THROUGH], {}, 1, 0), rest)
  {
    assert [key][1..] == [];
    var releasing := Second(key, tasks[0 := At(key, Releasing, 0, 0)], {key}, 1, 0);
    var fetching := Second(key, tasks[0 := At(key, Fetching(0), 0, 0)], {key}, 1, 0);
    var asking := Second(key, tasks[0 := At(key, Asking, 0, 0)], {key}, 1, 0);
    var recording := Second(key, tasks[0 := At(key, Recording, 0, 0)], {key}, 0, 0);
    OneEvent(releasing, FIRST, rest, Second(key, tasks[0 := THROUGH], {}, 1, 0));
    OneEvent(fetching, FIRST, [FIRST] + rest, releasing);
    OneEvent(asking, FIRST, [FIRST] + ([FIRST] + rest), fetching);
    OneEvent(recording, FIRST, [FIRST] + ([FIRST] + ([FIRST] + rest)), asking);
    OneEvent(Second(key, tasks, {}, 0, 0), FIRST, [FIRST] + ([FIRST] + ([FIRST] + ([FIRST] + rest))), recording);
  }

  /** Another one that has checked claims and records. */
  lemma SecondRecords(key: Key, tasks: map<nat, Task>, lost: nat)
    requires lost <= 1 && 1 in tasks && tasks[1] == At(key, Claiming, lost, lost)
    ensures IsRun(Second(key, tasks, {}, 1, lost), [SECOND] + ([SECOND] + []))
    ensures After(Second(key, tasks, {}, 1, lost), [SECOND] + ([SECOND] + [])).log == [Attempt(key, 0), Attempt(key, 0)]
  {
    var recording := Second(key, tasks[1 := At(key, Recording, lost, lost)], {key}, 1, lost);
    OneEvent(recording, SECOND, [], Step(recording, SECOND));
    OneEvent(Second(key, tasks, {}, 1, lost), SECOND, [SECOND] + [], recording);
  }

  /** Two refreshes check, and only then does the first one claim. */
  function Race(key: Key): seq<Event> {
    [Spawn(0, key), Spawn(1, key), FIRST, SECOND, FIRST, FIRST, FIRST, FIRST, FIRST, SECOND, SECOND]
  }

  lemma BothRecord(key: Key)
    ensures var s := Second(key, map[0 := At(key, Claiming, 0, 0), 1 := At(key, Claiming, 0, 0)], {}, 0, 0);
            && IsRun(s, Claims([SECOND] + ([SECOND] + [])))
            && After(s, Claims([SECOND] + ([SECOND] + []))).log == [Attempt(key, 0), Attempt(key, 0)]
  {
    var checked := map[0 := At(key, Claiming, 0, 0), 1 := At(key, Claiming, 0, 0)];
    SecondRecords(key, checked[0 := THROUGH], 0);
    FirstFails(key, checked, [SECOND] + ([SECOND] + []));
  }

  lemma RaceInSteps(key: Key)
    ensures Race(key) ==
              [Spawn(0, key)] + ([Spawn(1, key)] + ([FIRST] + ([SECOND] + Claims([SECOND] + ([SECOND] + [])))))
  {
  }

  /** Nothing is forgotten, and the second attempt follows in the same second. */
  lemma AttemptsCanCollide(key: Key)
    ensures IsRun(INITIAL, Race(key)) && After(INITIAL, Race(key)).log == [Attempt(key, 0), Attempt(key, 0)]
  {
    var claims := Claims([SECOND] + ([SECOND] + []));
    BothRecord(key);
    BothCheck(key, claims);
    RaceInSteps(key);
  }

  lemma BothCheck(key: Key, rest: seq<Event>)
    requires IsRun(Second(key, map[0 := At(key, Claiming, 0, 0), 1 := At(key, Claiming, 0, 0)], {}, 0, 0), rest)
    ensures IsRun(INITIAL, [Spawn(0, key)] + ([Spawn(1, key)] + ([FIRST] + ([SECOND] + rest))))
    ensures After(INITIAL, [Spawn(0, key)] + ([Spawn(1, key)] + ([FIRST] + ([SECOND] + rest))))
         == After(Second(key, map[0 := At(key, Claiming, 0, 0), 1 := At(key, Claiming, 0, 0)], {}, 0, 0), rest)
  {
    var checked := Second(key, map[0 := At(key, Claiming, 0, 0), 1 := At(key, Claiming, 0, 0)], {}, 0, 0);
    var half := Second(key, map[0 := At(key, Claiming, 0, 0), 1 := At(key, Checking, 0, 0)], {}, 0, 0);
    var both := Second(key, map[0 := At(key, Checking, 0, 0), 1 := At(key, Checking, 0, 0)], {}, 0, 0);
    var one := Second(key, map[0 := At(key, Checking, 0, 0)], {}, 0, 0);
    OneEvent(half, SECOND, rest, checked);
    OneEvent(both, FIRST, [SECOND] + rest, half);
    OneEvent(one, Spawn(1, key), [FIRST] + ([SECOND] + rest), both);
    OneEvent(INITIAL, Spawn(0, key), [Spawn(1, key)] + ([FIRST] + ([SECOND] + rest)), one);
  }

  /** The second refresh starts when the first one is through, but its attempt was evicted. */
  function Evicted(key: Key): seq<Event> {
    [Spawn(0, key), FIRST, FIRST, FIRST, FIRST, FIRST, FIRST, ForgetAttempt(key), Spawn(1, key), SECOND, SECOND, SECOND]
  }

  lemma SecondStarts(key: Key, rest: seq<Event>)
    requires IsRun(Second(key, map[0 := THROUGH, 1 := At(key, Claiming, 1, 1)], {}, 1, 1), rest)
    ensures IsRun(Second(key, map[0 := THROUGH], {}, 1, 0), [ForgetAttempt(key)] + ([Spawn(1, key)] + ([SECOND] + rest)))
    ensures After(Second(key, map[0 := THROUGH], {}, 1, 0), [ForgetAttempt(key)] + ([Spawn(1, key)] + ([SECOND] + rest)))
         == After(Second(key, map[0 := THROUGH, 1 := At(key, Claiming, 1, 1)], {}, 1, 1), rest)
  {
    var checked := Second(key, map[0 := THROUGH, 1 := At(key, Claiming, 1, 1)], {}, 1, 1);
    var started := Second(key, map[0 := THROUGH, 1 := At(key, Checking, 0, 0)], {}, 1, 1);
    var forgotten := Second(key, map[0 := THROUGH], {}, 1, 1);
    OneEvent(started, SECOND, rest, checked);
    OneEvent(forgotten, Spawn(1, key), [SECOND] + rest, started);
    OneEvent(Second(key, map[0 := THROUGH], {}, 1, 0), ForgetAttempt(key), [Spawn(1, key)] + ([SECOND] + rest), forgotten);
  }

  lemma RecordsAgain(key: Key)
    ensures var s := Second(key, map[0 := THROUGH], {}, 1, 0);
            && IsRun(s, Again(key))
            && After(s, Again(key)).log == [Attempt(key, 0), Attempt(key, 0)]
  {
    SecondRecords(key, map[0 := THROUGH, 1 := At(key, Claiming, 1, 1)], 1);
    SecondStarts(key, [SECOND] + ([SECOND] + []));
  }

  function Again(key: Key): seq<Event> {
    [ForgetAttempt(key)] + ([Spawn(1, key)] + ([SECOND] + ([SECOND] + ([SECOND] + []))))
  }

  lemma FailsAndRecordsAgain(key: Key)
    ensures var s := Second(key, map[0 := At(key, Claiming, 0, 0)], {}, 0, 0);
            && IsRun(s, Claims(Again(key)))
            && After(s, Claims(Again(key))).log == [Attempt(key, 0), Attempt(key, 0)]
  {
    var checked := map[0 := At(key, Claiming, 0, 0)];
    assert checked[0 := THROUGH] == map[0 := THROUGH];
    RecordsAgain(key);
    FirstFails(key, checked, Again(key));
  }

  lemma EvictedInSteps(key: Key)
    ensures Evicted(key) == [Spawn(0, key)] + ([FIRST] + Claims(Again(key)))
  {
  }

  /** Two attempts in one second again, although the second check saw none and none was made since. */
  lemma ForgottenAttemptIsRepeated(key: Key)
    ensures IsRun(INITIAL, Evicted(key)) && After(INITIAL, Evicted(key)).log == [Attempt(key, 0), Attempt(key, 0)]
  {
    var claims := Claims(Again(key));
    var checking := Second(key, map[0 := At(key, Checking, 0, 0)], {}, 0, 0);
    FailsAndRecordsAgain(key);
    OneEvent(checking, FIRST, claims, Second(key, map[0 := At(key, Claiming, 0, 0)], {}, 0, 0));
    OneEvent(INITIAL, Spawn(0, key), [FIRST] + claims, checking);
    EvictedInSteps(key);
  }
}
