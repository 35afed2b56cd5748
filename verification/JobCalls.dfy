/** Overlapping calls to the job supervisor (src/jobs.rs): `try_start` looks at the cooldown table
    first and claims the job under the lock afterwards, and other calls may come in between. */
module JobCalls {
  import opened Jobs

  /** A call that has yet to look, has looked, or is over. */
  datatype Phase = Looking | Claiming | Over

  /** `mark` counts the starts on record when the call looked. */
  datatype Call = Call(key: JobKey, phase: Phase, mark: nat)

  datatype Start = Start(key: JobKey, time: Time)

  /** The starts are history the code does not keep. */
  datatype Machine = Machine(now: Time, tables: State, calls: map<nat, Call>, starts: seq<Start>)

  datatype Move =
    | Begin(id: nat, key: JobKey)
    | Look(id: nat)
    | Claim(id: nat)
    | Done(key: JobKey)
    | Tick(seconds: nat)

  predicate Enabled(m: Machine, move: Move) {
    match move
    case Begin(id, _) => id !in m.calls
    case Look(id) => id in m.calls && m.calls[id].phase == Looking
    case Claim(id) => id in m.calls && m.calls[id].phase == Claiming
    case _ => true
  }

  function Put(m: Machine, id: nat, call: Call): Machine {
    m.(calls := m.calls[id := call])
  }

  /** The claim of an enabled call succeeds. */
  predicate Succeeds(m: Machine, id: nat) {
    id in m.calls && m.calls[id].phase == Claiming && m.calls[id].key !in m.tables.inflight
  }

  function Make(m: Machine, move: Move): Machine
    requires Enabled(m, move)
  {
    match move
    case Begin(id, key) => Put(m, id, Call(key, Looking, 0))
    case Look(id) =>
      var call := m.calls[id];
      if CoolingDown(m.tables, call.key, m.now) then Put(m, id, call.(phase := Over))
      else Put(m, id, call.(phase := Claiming, mark := |m.starts|))
    case Claim(id) =>
      var call := m.calls[id];
      var over := Put(m, id, call.(phase := Over));
      if Succeeds(m, id) then
        over.(tables := Started(m.tables, call.key, m.now), starts := m.starts + [Start(call.key, m.now)])
      else over
    case Done(key) => m.(tables := m.tables.(inflight := m.tables.inflight - {key}))
    case Tick(seconds) => m.(now := m.now + seconds)
  }

  predicate IsRun(m: Machine, moves: seq<Move>)
    decreases moves
  {
    moves == [] || (Enabled(m, moves[0]) && IsRun(Make(m, moves[0]), moves[1..]))
  }

  function Reached(m: Machine, moves: seq<Move>): Machine
    requires IsRun(m, moves)
    decreases moves
  {
    if moves == [] then m else Reached(Make(m, moves[0]), moves[1..])
  }

  const FRESH := Machine(0, State({}, map[]), map[], [])

  // ----- the invariant -----

  predicate StartOf(m: Machine, i: nat, key: JobKey) {
    i < |m.starts| && m.starts[i].key == key
  }

  /** The cooldown table knows the last start of every job, and no start is later. */
  predicate KnowsStart(m: Machine, i: nat) {
    i < |m.starts| ==>
      && m.starts[i].key in m.tables.cooldown
      && m.starts[i].time <= m.tables.cooldown[m.starts[i].key] <= m.now
  }

  ghost predicate KnowsStarts(m: Machine) {
    forall i: nat :: KnowsStart(m, i)
  }

  /** Whatever a call found when it looked is an hour old, and still is. */
  predicate LookedWell(m: Machine, id: nat, i: nat) {
    id in m.calls && m.calls[id].phase == Claiming && i < m.calls[id].mark && StartOf(m, i, m.calls[id].key) ==>
      m.starts[i].time + 3600 <= m.now
  }

  ghost predicate AllLookedWell(m: Machine) {
    forall id, i: nat :: LookedWell(m, id, i)
  }

  ghost predicate MarksBehind(m: Machine) {
    forall id | id in m.calls :: m.calls[id].mark <= |m.starts|
  }

  ghost predicate Inv(m: Machine) {
    KnowsStarts(m) && AllLookedWell(m) && MarksBehind(m)
  }

  lemma MakeKeepsInv(m: Machine, move: Move)
    requires Inv(m) && Enabled(m, move)
    ensures Inv(Make(m, move))
  {
    var n := Make(m, move);
    forall i: nat ensures KnowsStart(n, i) {
      assert KnowsStart(m, i);
    }
    forall id, i: nat ensures LookedWell(n, id, i) {
      assert KnowsStart(m, i);
      assert LookedWell(m, id, i);
    }
  }

  lemma {:induction false} RunKeepsInv(m: Machine, moves: seq<Move>)
    requires Inv(m) && IsRun(m, moves)
    ensures Inv(Reached(m, moves))
    decreases moves
  {
    if moves != [] {
      MakeKeepsInv(m, moves[0]);
      RunKeepsInv(Make(m, moves[0]), moves[1..]);
    }
  }

  // ----- when a claim comes within the hour -----

  /** The job was started less than an hour ago. */
  ghost predicate WithinHour(m: Machine, key: JobKey) {
    exists i: nat :: StartOf(m, i, key) && m.now < m.starts[i].time + 3600
  }

  /** It was started less than an hour ago, and after the call had looked. */
  ghost predicate Overtaken(m: Machine, id: nat)
    requires id in m.calls
  {
    exists i: nat :: m.calls[id].mark <= i && StartOf(m, i, m.calls[id].key) && m.now < m.starts[i].time + 3600
  }

  /** In every reachable state, a claim comes within an hour of a start of its job exactly when that
      start was recorded after the call had looked. */
  lemma ClaimsWithinHourAreOvertaken(moves: seq<Move>, id: nat)
    requires IsRun(FRESH, moves) && Enabled(Reached(FRESH, moves), Claim(id))
    ensures var m := Reached(FRESH, moves); WithinHour(m, m.calls[id].key) <==> Overtaken(m, id)
  {
    RunKeepsInv(FRESH, moves);
    OvertakenExactly(Reached(FRESH, moves), id);
  }

  lemma OvertakenExactly(m: Machine, id: nat)
    requires Inv(m) && Enabled(m, Claim(id))
    ensures WithinHour(m, m.calls[id].key) <==> Overtaken(m, id)
  {
    if i: nat :| StartOf(m, i, m.calls[id].key) && m.now < m.starts[i].time + 3600 {
      assert LookedWell(m, id, i);
    }
  }

  // ----- when the starts of a run are spaced -----

  predicate SpacedPair(starts: seq<Start>, i: nat, j: nat) {
    i < j < |starts| && starts[i].key == starts[j].key ==> starts[i].time + 3600 <= starts[j].time
  }

  /** Any two starts of one job are an hour apart. */
  ghost predicate Spaced(starts: seq<Start>) {
    forall i: nat, j: nat :: SpacedPair(starts, i, j)
  }

  /** No claim of the run succeeds after it has been overtaken. */
  ghost predicate NeverOvertaken(m: Machine, moves: seq<Move>)
    requires IsRun(m, moves)
    decreases moves
  {
    moves != [] ==>
      && (moves[0].Claim? && Succeeds(m, moves[0].id) ==> !Overtaken(m, moves[0].id))
      && NeverOvertaken(Make(m, moves[0]), moves[1..])
  }

  lemma StartSpaces(m: Machine, id: nat)
    requires Inv(m) && Enabled(m, Claim(id)) && Succeeds(m, id)
    ensures Spaced(Make(m, Claim(id)).starts) <==> Spaced(m.starts) && !Overtaken(m, id)
  {
    var more, last := Make(m, Claim(id)).starts, |m.starts|;
    OvertakenExactly(m, id);
    if Spaced(more) {
      forall i: nat, j: nat ensures SpacedPair(m.starts, i, j) {
        assert SpacedPair(more, i, j);
      }
      forall i: nat | StartOf(m, i, m.calls[id].key) ensures m.starts[i].time + 3600 <= m.now {
        assert SpacedPair(more, i, last);
      }
    }
    if Spaced(m.starts) && !Overtaken(m, id) {
      forall i: nat, j: nat ensures SpacedPair(more, i, j) {
        assert SpacedPair(m.starts, i, j);
        assert i < last && more[i].key == m.calls[id].key ==> StartOf(m, i, m.calls[id].key);
      }
    }
  }

  lemma {:induction false} SpacedAfter(m: Machine, moves: seq<Move>)
    requires Inv(m) && IsRun(m, moves)
    ensures Spaced(Reached(m, moves).starts) <==> Spaced(m.starts) && NeverOvertaken(m, moves)
    decreases moves
  {
    if moves != [] {
      var move := moves[0];
      MakeKeepsInv(m, move);
      SpacedAfter(Make(m, move), moves[1..]);
      if move.Claim? && Succeeds(m, move.id) {
        StartSpaces(m, move.id);
      }
    }
  }

  /** Over every run of any number of calls, the starts of each job are an hour apart if and only if
      no claim succeeded less than an hour after a start that was recorded since the call had looked. */
  lemma StartsAreSpacedExactly(moves: seq<Move>)
    requires IsRun(FRESH, moves)
    ensures Spaced(Reached(FRESH, moves).starts) <==> NeverOvertaken(FRESH, moves)
  {
    SpacedAfter(FRESH, moves);
  }

  // ----- one run at a time -----

  /** While a job is in flight no call starts it again, however many there are; its end alone lets the
      next one in. */
  lemma {:induction false} RunningBlocksStarts(m: Machine, moves: seq<Move>, key: JobKey)
    requires IsRun(m, moves) && key in m.tables.inflight && Done(key) !in moves
    ensures var n := Reached(m, moves);
            && key in n.tables.inflight && |m.starts| <= |n.starts| && n.starts[..|m.starts|] == m.starts
            && forall i | |m.starts| <= i < |n.starts| :: n.starts[i].key != key
    decreases moves
  {
    if moves != [] {
      assert moves[0] in moves && forall move | move in moves[1..] :: move in moves;
      RunningBlocksStarts(Make(m, moves[0]), moves[1..], key);
    }
  }

  // ----- a single call -----

  /** The table has an entry that is not an hour old. */
  predicate IsCooling(m: Machine, key: JobKey) {
    key in m.tables.cooldown && m.now < m.tables.cooldown[key] + 3600
  }

  lemma TwoMoves(m: Machine, move: Move, n: Machine, move': Move, o: Machine)
    requires Enabled(m, move) && Make(m, move) == n && Enabled(n, move') && Make(n, move') == o
    ensures IsRun(m, [move, move']) && Reached(m, [move, move']) == o
  {
    OneMove(n, move', [], o);
    OneMove(m, move, [move'] + [], n);
    assert [move, move'] == [move] + ([move'] + []);
  }

  /** A call made while its job is cooling down is over when it has looked, and changes nothing. */
  lemma CoolingCallIsRefused(m: Machine, id: nat, key: JobKey)
    requires id !in m.calls && IsCooling(m, key)
    ensures IsRun(m, [Begin(id, key), Look(id)])
    ensures Reached(m, [Begin(id, key), Look(id)]) == m.(calls := m.calls[id := Call(key, Over, 0)])
  {
    TwoMoves(m, Begin(id, key), m.(calls := m.calls[id := Call(key, Looking, 0)]),
      Look(id), m.(calls := m.calls[id := Call(key, Over, 0)]));
  }

  /** Otherwise it goes on to claim: refused, with nothing changed, if the job is in flight; else the
      job is started now, is in flight, and cools down from now on. */
  lemma ClaimAnswers(m: Machine, id: nat, key: JobKey)
    requires id !in m.calls && !IsCooling(m, key)
    ensures var (looking, claiming) := (m.calls[id := Call(key, Looking, 0)], m.calls[id := Call(key, Claiming, |m.starts|)]);
            && IsRun(m, [Begin(id, key), Look(id)]) && Reached(m, [Begin(id, key), Look(id)]) == m.(calls := claiming)
            && Enabled(m.(calls := claiming), Claim(id))
            && Make(m.(calls := claiming), Claim(id)) ==
                 var over := m.(calls := m.calls[id := Call(key, Over, |m.starts|)]);
                 if key in m.tables.inflight then over
                 else over.(tables := State(m.tables.inflight + {key}, m.tables.cooldown[key := m.now]),
                            starts := m.starts + [Start(key, m.now)])
  {
    TwoMoves(m, Begin(id, key), m.(calls := m.calls[id := Call(key, Looking, 0)]),
      Look(id), m.(calls := m.calls[id := Call(key, Claiming, |m.starts|)]));
  }

  /** A call answers once, and the clock goes on. */
  lemma CallsEnd(m: Machine, id: nat, seconds: nat)
    requires id in m.calls && m.calls[id].phase == Over
    ensures !Enabled(m, Look(id)) && !Enabled(m, Claim(id))
    ensures Make(m, Tick(seconds)) == m.(now := m.now + seconds)
  {
  }

  // ----- a run that breaks the hour -----

  const JOB := JobKey("account:notifications")

  /** Both calls look, the first claims and its job is finished, and then the second claims. */
  const RACE: seq<Move> := [Begin(0, JOB), Begin(1, JOB), Look(0), Look(1), Claim(0), Done(JOB), Claim(1)]

  lemma OverlappingCallsBothStart()
    ensures IsRun(FRESH, RACE)
    ensures Reached(FRESH, RACE).starts == [Start(JOB, 0), Start(JOB, 0)]
  {
    var looking, claiming, over := Call(JOB, Looking, 0), Call(JOB, Claiming, 0), Call(JOB, Over, 0);
    var idle, cooling := State({}, map[]), State({}, map[JOB := 0]);
    var m1 := Machine(0, idle, map[0 := looking], []);
    var m2 := Machine(0, idle, map[0 := looking, 1 := looking], []);
    var m3 := Machine(0, idle, map[0 := claiming, 1 := looking], []);
    var m4 := Machine(0, idle, map[0 := claiming, 1 := claiming], []);
    var m5 := Machine(0, State({JOB}, map[JOB := 0]), map[0 := over, 1 := claiming], [Start(JOB, 0)]);
    var m6 := Machine(0, cooling, map[0 := over, 1 := claiming], [Start(JOB, 0)]);
    OneMove(m6, Claim(1), [], Make(m6, Claim(1)));
    OneMove(m5, Done(JOB), [Claim(1)], m6);
    OneMove(m4, Claim(0), [Done(JOB), Claim(1)], m5);
    OneMove(m3, Look(1), [Claim(0), Done(JOB), Claim(1)], m4);
    OneMove(m2, Look(0), [Look(1), Claim(0), Done(JOB), Claim(1)], m3);
    OneMove(m1, Begin(1, JOB), [Look(0), Look(1), Claim(0), Done(JOB), Claim(1)], m2);
    OneMove(FRESH, Begin(0, JOB), [Begin(1, JOB), Look(0), Look(1), Claim(0), Done(JOB), Claim(1)], m1);
  }

  lemma OneMove(m: Machine, move: Move, rest: seq<Move>, n: Machine)
    requires Enabled(m, move) && Make(m, move) == n && IsRun(n, rest)
    ensures IsRun(m, [move] + rest) && Reached(m, [move] + rest) == Reached(n, rest)
  {
    assert ([move] + rest)[1..] == rest;
  }
}
