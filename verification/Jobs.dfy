/** The supervisor of account jobs (src/jobs.rs): one run at a time, and an hour between starts. */
module Jobs {
  import opened Prelude

  datatype JobKey = JobKey(text: string)

  /** Seconds on a monotone clock. */
  type Time = nat

  const COOLDOWN: Time := 3600

  /** The cooldown table keeps the time of insertion; an entry is gone when its hour is over. */
  datatype State = State(inflight: set<JobKey>, cooldown: map<JobKey, Time>)

  predicate CoolingDown(s: State, key: JobKey, now: Time) {
    key in s.cooldown && SaturatingSub(now, s.cooldown[key]) < COOLDOWN
  }

  predicate MayStart(s: State, key: JobKey, now: Time) {
    !CoolingDown(s, key, now) && key !in s.inflight
  }

  function Started(s: State, key: JobKey, now: Time): State {
    State(s.inflight + {key}, s.cooldown[key := now])
  }

  class JobSupervisor {
    var inflight: set<JobKey>
    var cooldown: map<JobKey, Time>

    constructor ()
      ensures Contents() == State({}, map[])
    {
      inflight, cooldown := {}, map[];
    }

    ghost function Contents(): State
      reads this
    {
      State(inflight, cooldown)
    }

    /** `try_start`. */
    method TryStart(key: JobKey, now: Time) returns (ok: bool)
      modifies this
      ensures ok == MayStart(old(Contents()), key, now)
      ensures Contents() == if ok then Started(old(Contents()), key, now) else old(Contents())
    {
      if key in cooldown && SaturatingSub(now, cooldown[key]) < COOLDOWN {
        return false;
      }
      if key in inflight {
        return false;
      }
      inflight := inflight + {key};
      cooldown := cooldown[key := now];
      return true;
    }

    /** `finish`: a failed job cools down like a successful one. */
    method Finish(key: JobKey)
      modifies this`inflight
      ensures inflight == old(inflight) - {key}
    {
      inflight := inflight - {key};
    }
  }

  /** The hour is up sixty minutes after the start. */
  lemma MayStartExactly(s: State, key: JobKey, now: Time)
    ensures MayStart(s, key, now) <==> key !in s.inflight && (key in s.cooldown ==> s.cooldown[key] + 3600 <= now)
  {
  }

  // ----- histories -----

  datatype Event = TryStart(key: JobKey, now: Time) | Finish(key: JobKey)

  function Step(s: State, e: Event): State {
    match e
    case TryStart(key, now) => if MayStart(s, key, now) then Started(s, key, now) else s
    case Finish(key) => s.(inflight := s.inflight - {key})
  }

  function After(s: State, events: seq<Event>): State
    decreases events
  {
    if events == [] then s else After(Step(s, events[0]), events[1..])
  }

  /** A call that is refused changes nothing, and one that is not starts its job. */
  lemma StepAnswers(s: State, key: JobKey, now: Time)
    ensures Step(s, TryStart(key, now)) ==
              if key in s.inflight || (key in s.cooldown && now < s.cooldown[key] + 3600) then s
              else State(s.inflight + {key}, s.cooldown[key := now])
    ensures Step(s, Finish(key)) == State(s.inflight - {key}, s.cooldown)
  {
  }

  /** The clock does not run backwards. */
  predicate NotBefore(events: seq<Event>, time: Time) {
    forall i | 0 <= i < |events| && events[i].TryStart? :: time <= events[i].now
  }

  /** From a start on, the key has a start on record no earlier than it, and stays in flight until
      it is finished. */
  lemma {:induction false} StartIsRemembered(s: State, key: JobKey, time: Time, events: seq<Event>)
    requires key in s.cooldown && time <= s.cooldown[key] && NotBefore(events, time)
    ensures var s' := After(s, events);
            && key in s'.cooldown && time <= s'.cooldown[key]
            && (key in s.inflight && key !in s'.inflight ==> Finish(key) in events)
    decreases events
  {
    if events != [] {
      var next := Step(s, events[0]);
      assert NotBefore(events[1..], time);
      StartIsRemembered(next, key, time, events[1..]);
      assert events == [events[0]] + events[1..];
    }
  }

  /** Between two starts of one job the first was finished, and an hour has passed; whatever other
      calls come in between. */
  lemma StartsAreSpaced(s: State, key: JobKey, first: Time, events: seq<Event>, second: Time)
    requires MayStart(s, key, first) && NotBefore(events, first)
    requires MayStart(After(Step(s, TryStart(key, first)), events), key, second)
    ensures first + 3600 <= second
    ensures Finish(key) in events
  {
    StartIsRemembered(Step(s, TryStart(key, first)), key, first, events);
  }

  lemma {:induction false} UntouchedKey(s: State, key: JobKey, events: seq<Event>)
    requires forall i | 0 <= i < |events| :: events[i].key != key
    ensures var s' := After(s, events);
            && (key in s'.inflight <==> key in s.inflight)
            && (key in s'.cooldown <==> key in s.cooldown)
            && (key in s.cooldown ==> s'.cooldown[key] == s.cooldown[key])
    decreases events
  {
    if events != [] {
      UntouchedKey(Step(s, events[0]), key, events[1..]);
    }
  }

  /** Jobs do not hold each other up: started, finished and left alone, a job can start again
      exactly when its hour is over. */
  lemma RestartsAfterCooldown(s: State, key: JobKey, first: Time, before: seq<Event>, between: seq<Event>, second: Time)
    requires MayStart(s, key, first) && first <= second
    requires forall i | 0 <= i < |before| :: before[i].key != key
    requires forall i | 0 <= i < |between| :: between[i].key != key
    ensures var running := After(Step(s, TryStart(key, first)), before);
            MayStart(After(Step(running, Finish(key)), between), key, second) <==> first + 3600 <= second
  {
    var running := After(Step(s, TryStart(key, first)), before);
    UntouchedKey(Step(s, TryStart(key, first)), key, before);
    UntouchedKey(Step(running, Finish(key)), key, between);
  }
}
