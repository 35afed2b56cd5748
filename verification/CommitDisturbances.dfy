/** What callers that go away do to the commits of the disk cache (`commit_record`,
    src/disk_cache.rs): the counter drifts and temporary files are left behind. */
module CommitDisturbances {
  import opened Prelude
  import opened RecordCodec
  import opened Disk
  import opened CommitProtocol

  /** The process neither ends nor starts. */
  predicate KeepsRunning(steps: seq<Step>) {
    forall i | 0 <= i < |steps| :: !steps[i].Crash? && !steps[i].Boot?
  }

  // ----- the counter -----

  /** A future dropped while its rename is under way releases the lock without counting. When the
      rename takes place, the counter is off by the difference of the two lengths, whatever has
      happened to the file in between. */
  lemma AbandonedRenameDrifts(s: State, steps: seq<Step>, tmp: TmpName)
    requires Init(s) && IsRun(s, steps) && Enabled(After(s, steps), Land(tmp)) && After(s, steps).lock == None
    ensures var (t, landed) := (After(s, steps), Apply(After(s, steps), Land(tmp)));
            && landed.files[tmp.path] == t.temps[tmp] && (tmp.path, t.temps[tmp]) in t.submitted
            && landed.tracked + t.drift + |t.temps[tmp]| == Total(landed.files) + LengthOrZero(t.files, tmp.path)
            && (t.tracked == Total(t.files) ==>
                  (landed.tracked == Total(landed.files) <==> |t.temps[tmp]| == LengthOrZero(t.files, tmp.path)))
  {
    assert Inv(s);
    RunKeepsInv(s, steps);
    var t := After(s, steps);
    assert PendingOk(t, tmp);
    StepKeepsInv(t, Land(tmp));
  }

  /** What a step adds to the drift: a pending rename, the difference of the two lengths; a commit,
      what its measured length exceeds the one it replaces by, and what saturating cuts off. */
  ghost function StepDrift(s: State, step: Step): int
    requires Enabled(s, step)
  {
    match step
    case Land(tmp) => |s.temps[tmp]| - LengthOrZero(s.files, tmp.path)
    case Rename(w) => s.writers[w].pc.oldLen.GetOr(0) - LengthOrZero(s.files, s.writers[w].path)
    case Count(w) =>
      var (replaced, written) := (s.writers[w].pc.oldLen.GetOr(0), |s.writers[w].encoded|);
      s.tracked - replaced + written - SaturatingAdd(SaturatingSub(s.tracked, replaced), Min(written, U64_MAX))
    case _ => 0
  }

  ghost function Drifts(s: State, steps: seq<Step>): int
    requires IsRun(s, steps)
    decreases |steps|
  {
    if steps == [] then 0 else StepDrift(s, steps[0]) + Drifts(Apply(s, steps[0]), steps[1..])
  }

  lemma StepDrifts(s: State, step: Step)
    requires Enabled(s, step) && !step.Boot?
    ensures Apply(s, step).drift == s.drift + StepDrift(s, step)
  {
  }

  lemma {:induction false} DriftsAdd(s: State, steps: seq<Step>)
    requires IsRun(s, steps) && KeepsRunning(steps)
    ensures After(s, steps).drift == s.drift + Drifts(s, steps)
    decreases |steps|
  {
    if steps != [] {
      StepDrifts(s, steps[0]);
      DriftsAdd(Apply(s, steps[0]), steps[1..]);
    }
  }

  lemma {:induction false} StaysUp(s: State, steps: seq<Step>)
    requires s.up && IsRun(s, steps) && KeepsRunning(steps)
    ensures After(s, steps).up
    decreases |steps|
  {
    if steps != [] {
      StaysUp(Apply(s, steps[0]), steps[1..]);
    }
  }

  /** Over every run of one process the counter is off by the sum of these; nothing else moves it
      away from the bytes in committed files. */
  lemma DriftsAccumulate(s: State, steps: seq<Step>)
    requires Init(s) && IsRun(s, steps) && KeepsRunning(steps)
    ensures var t := After(s, steps);
            t.lock == None ==>
              && t.tracked + Drifts(s, steps) == Total(t.files)
              && (t.tracked == Total(t.files) <==> Drifts(s, steps) == 0)
  {
    CommitsAreSafe(s, steps);
    DriftsAdd(s, steps);
    StaysUp(s, steps);
  }

  /** Should reading the length of an existing file fail, the commit that follows overcounts by exactly
      the bytes it replaces. */
  lemma UnreadableMetadataDrifts(s: State, w: WriterId)
    requires Inv(s) && Enabled(s, Measure(w, false)) && s.writers[w].path in s.files
    requires s.tracked + |s.writers[w].encoded| <= U64_MAX
    ensures var measured := Apply(s, Measure(w, false));
            var renamed := Apply(measured, Rename(w));
            var counted := Apply(renamed, Count(w));
            && measured.disturbed
            && counted.tracked + s.drift == Total(counted.files) + |s.files[s.writers[w].path]|
  {
    assert HoldsLock(s, w) && s.lock == Some(w) && ContentOk(s, s.writers[w]);
    TotalUpdate(s.files, s.writers[w].path, s.temps[s.writers[w].pc.tmp]);
  }

  /** A commit that measured before a pending rename of its path took place makes up for it. */
  lemma StaleMeasurementMakesUp(s: State, w: WriterId, tmp: TmpName)
    requires Inv(s) && Enabled(s, Rename(w)) && Enabled(s, Land(tmp)) && tmp.path == s.writers[w].path
    requires s.writers[w].pc.oldLen == Length(s.files, tmp.path)
    ensures Enabled(Apply(s, Land(tmp)), Rename(w))
    ensures StepDrift(s, Land(tmp)) + StepDrift(Apply(s, Land(tmp)), Rename(w)) == 0
  {
    assert PendingOk(s, tmp) && !Uses(s, w, tmp);
  }

  /** A pending rename takes place, or the length of a file that exists cannot be read. */
  ghost predicate Disturbs(s: State, step: Step)
    requires Enabled(s, step)
  {
    step.Land? || (step.Measure? && !step.readable && s.writers[step.w].path in s.files)
  }

  ghost predicate NothingDisturbs(s: State, steps: seq<Step>)
    requires IsRun(s, steps)
    decreases |steps|
  {
    steps != [] ==> !Disturbs(s, steps[0]) && NothingDisturbs(Apply(s, steps[0]), steps[1..])
  }

  lemma {:induction false} StaysUndisturbed(s: State, steps: seq<Step>)
    requires IsRun(s, steps) && NothingDisturbs(s, steps) && !s.disturbed
    ensures !After(s, steps).disturbed
    decreases |steps|
  {
    if steps != [] {
      StaysUndisturbed(Apply(s, steps[0]), steps[1..]);
    }
  }

  /** Over every run, crashes included, in which neither happens, the counter is exact whenever the lock
      is free. */
  lemma UndisturbedIsExact(s: State, steps: seq<Step>)
    requires Init(s) && IsRun(s, steps) && NothingDisturbs(s, steps)
    ensures var t := After(s, steps); t.up && t.lock == None ==> t.tracked == Total(t.files)
  {
    StaysUndisturbed(s, steps);
    CommitsAreSafe(s, steps);
  }

  // ----- the counter, from the renames alone -----

  /** Writer `w` goes on to rename, instead of failing or being abandoned. */
  predicate RenamesNext(w: WriterId, steps: seq<Step>) {
    steps != []
    && (steps[0] == Rename(w) || (steps[0] != RenameFail(w) && steps[0] != Abandon(w) && RenamesNext(w, steps[1..])))
  }

  /** A writer has measured the file and will replace it. */
  ghost predicate WillReplace(s: State, path: Path, rest: seq<Step>) {
    s.lock.Some? && s.lock.value in s.writers
    && s.writers[s.lock.value].pc.Measured? && s.writers[s.lock.value].path == path && RenamesNext(s.lock.value, rest)
  }

  /** The lengths that pending renames add as they take place, but for those that a writer makes up for. */
  ghost function LandingDrift(s: State, steps: seq<Step>): int
    requires IsRun(s, steps)
    decreases |steps|
  {
    if steps == [] then 0
    else
      (if steps[0].Land? && !WillReplace(s, steps[0].tmp.path, steps[1..]) then StepDrift(s, steps[0]) else 0)
      + LandingDrift(Apply(s, steps[0]), steps[1..])
  }

  /** Lengths can be read, and no update of the counter saturates. */
  ghost predicate CountsPlainly(s: State, steps: seq<Step>)
    requires IsRun(s, steps)
    decreases |steps|
  {
    steps != [] ==>
      && (steps[0].Measure? ==> steps[0].readable)
      && (steps[0].Count? ==> StepDrift(s, steps[0]) == 0)
      && CountsPlainly(Apply(s, steps[0]), steps[1..])
  }

  /** What a measured length is off by, if its writer goes on to rename. */
  ghost function Staleness(s: State, rest: seq<Step>): int {
    if s.lock.Some? && s.lock.value in s.writers && s.writers[s.lock.value].pc.Measured? && RenamesNext(s.lock.value, rest)
    then s.writers[s.lock.value].pc.oldLen.GetOr(0) - LengthOrZero(s.files, s.writers[s.lock.value].path)
    else 0
  }

  /** A step adds to the staleness what it takes off the drift, but for landings that count. */
  ghost predicate Balances(s: State, step: Step, rest: seq<Step>)
    requires Enabled(s, step)
  {
    var counted := if step.Land? && !WillReplace(s, step.tmp.path, rest) then StepDrift(s, step) else 0;
    Staleness(s, [step] + rest) + counted == StepDrift(s, step) + Staleness(Apply(s, step), rest)
  }

  lemma HolderGoesOn(step: Step, rest: seq<Step>, w: WriterId)
    ensures RenamesNext(w, [step] + rest) <==>
              step == Rename(w) || (step != RenameFail(w) && step != Abandon(w) && RenamesNext(w, rest))
  {
    assert ([step] + rest)[1..] == rest;
  }

  lemma LandBalances(s: State, tmp: TmpName, rest: seq<Step>)
    requires Enabled(s, Land(tmp))
    ensures Balances(s, Land(tmp), rest)
  {
    if s.lock.Some? {
      HolderGoesOn(Land(tmp), rest, s.lock.value);
    }
  }

  lemma RenameBalances(s: State, w: WriterId, rest: seq<Step>)
    requires LockInv(s) && Enabled(s, Rename(w))
    ensures Balances(s, Rename(w), rest)
  {
    assert HoldsLock(s, w);
    HolderGoesOn(Rename(w), rest, w);
  }

  lemma MeasureBalances(s: State, w: WriterId, rest: seq<Step>)
    requires LockInv(s) && Enabled(s, Measure(w, true))
    ensures Balances(s, Measure(w, true), rest)
  {
    assert HoldsLock(s, w);
  }

  lemma EndBalances(s: State, step: Step, rest: seq<Step>)
    requires LockInv(s) && Enabled(s, step) && (step.RenameFail? || step.Count? || step.Release? || step.Discard?)
    requires StepDrift(s, step) == 0
    ensures Balances(s, step, rest)
  {
    assert HoldsLock(s, step.w) <==> s.lock == Some(step.w);
    if s.lock.Some? {
      HolderGoesOn(step, rest, s.lock.value);
    }
  }

  lemma AbandonBalances(s: State, w: WriterId, rest: seq<Step>)
    requires LockInv(s) && Enabled(s, Abandon(w))
    ensures Balances(s, Abandon(w), rest)
  {
    assert HoldsLock(s, w) <==> s.lock == Some(w);
    if s.lock.Some? {
      HolderGoesOn(Abandon(w), rest, s.lock.value);
    }
  }

  /** A writer that does not hold the lock gets on with its temporary file. */
  lemma WritingKeepsStaleness(s: State, step: Step, rest: seq<Step>)
    requires LockInv(s) && Enabled(s, step) && IsWriting(step)
    ensures Staleness(Apply(s, step), rest) == Staleness(s, rest)
  {
    assert HoldsLock(s, step.w) <==> s.lock == Some(step.w);
  }

  lemma WritingBalances(s: State, step: Step, rest: seq<Step>)
    requires LockInv(s) && Enabled(s, step) && IsWriting(step)
    ensures Balances(s, step, rest)
  {
    WritingKeepsStaleness(s, step, rest);
    if s.lock.Some? {
      HolderGoesOn(step, rest, s.lock.value);
    }
  }

  lemma LandFailBalances(s: State, tmp: TmpName, rest: seq<Step>)
    requires Enabled(s, LandFail(tmp))
    ensures Balances(s, LandFail(tmp), rest)
  {
    if s.lock.Some? {
      HolderGoesOn(LandFail(tmp), rest, s.lock.value);
    }
  }

  lemma StepBalances(s: State, step: Step, rest: seq<Step>)
    requires LockInv(s) && Enabled(s, step) && !step.Crash? && !step.Boot?
    requires (step.Measure? ==> step.readable) && (step.Count? ==> StepDrift(s, step) == 0)
    ensures Balances(s, step, rest)
  {
    match step
    case Land(tmp) => LandBalances(s, tmp, rest);
    case LandFail(tmp) => LandFailBalances(s, tmp, rest);
    case Rename(w) => RenameBalances(s, w, rest);
    case Measure(w, _) => MeasureBalances(s, w, rest);
    case Abandon(w) => AbandonBalances(s, w, rest);
    case _ =>
      if IsWriting(step) {
        WritingBalances(s, step, rest);
      } else {
        EndBalances(s, step, rest);
      }
  }

  lemma {:induction false} DriftIsLandings(s: State, steps: seq<Step>)
    requires Inv(s) && IsRun(s, steps) && KeepsRunning(steps) && CountsPlainly(s, steps)
    ensures Drifts(s, steps) == LandingDrift(s, steps) + Staleness(s, steps)
    decreases |steps|
  {
    if steps != [] {
      StepKeepsInv(s, steps[0]);
      DriftIsLandings(Apply(s, steps[0]), steps[1..]);
      assert steps == [steps[0]] + steps[1..];
      StepBalances(s, steps[0], steps[1..]);
    }
  }

  /** As long as lengths can be read and nothing saturates, the counter is off by exactly the length
      differences of the pending renames that took place, leaving out those that came between another
      writer's measurement and rename of the same file; and right if and only if they add up to none. */
  lemma CounterIsOffByLandings(s: State, steps: seq<Step>)
    requires Init(s) && IsRun(s, steps) && KeepsRunning(steps) && CountsPlainly(s, steps)
    ensures var t := After(s, steps);
            t.lock == None ==>
              && t.tracked + LandingDrift(s, steps) == Total(t.files)
              && (t.tracked == Total(t.files) <==> LandingDrift(s, steps) == 0)
  {
    assert Inv(s);
    DriftsAccumulate(s, steps);
    DriftIsLandings(s, steps);
  }

  // ----- what abandoned writers leave -----

  /** The file is complete and nobody's, and its name is spent. */
  ghost predicate IsOrphan(s: State, tmp: TmpName, content: seq<Byte>) {
    && tmp in s.temps && s.temps[tmp] == content
    && tmp.pid == s.pid && tmp.counter < s.counter && tmp !in s.pending
    && forall w: WriterId :: !Uses(s, w, tmp)
  }

  predicate IsWriting(step: Step) {
    step.Spawn? || step.TakeName? || step.WriteSome? || step.WriteDone? || step.WriteFail? || step.Acquire?
  }

  predicate IsCommitting(step: Step) {
    step.Measure? || step.Rename? || step.RenameFail? || step.Count? || step.Release?
  }

  lemma WritingUsesFresh(s: State, step: Step, tmp: TmpName, w: WriterId)
    requires !Uses(s, w, tmp) && tmp.counter < s.counter && Enabled(s, step) && IsWriting(step)
    ensures !Uses(Apply(s, step), w, tmp)
  {
  }

  lemma CommittingUsesNoOther(s: State, step: Step, tmp: TmpName, w: WriterId)
    requires !Uses(s, w, tmp) && Enabled(s, step) && IsCommitting(step)
    ensures !Uses(Apply(s, step), w, tmp)
  {
  }

  lemma DiscardUsesNoOther(s: State, v: WriterId, removed: bool, tmp: TmpName, w: WriterId)
    requires !Uses(s, w, tmp) && Enabled(s, Discard(v, removed))
    ensures !Uses(Apply(s, Discard(v, removed)), w, tmp)
  {
  }

  lemma AbandonUsesNoOther(s: State, v: WriterId, tmp: TmpName, w: WriterId)
    requires !Uses(s, w, tmp) && Enabled(s, Abandon(v))
    ensures !Uses(Apply(s, Abandon(v)), w, tmp)
  {
  }

  lemma LandUsesNoOther(s: State, landed: TmpName, tmp: TmpName, w: WriterId)
    requires !Uses(s, w, tmp)
    ensures Enabled(s, Land(landed)) ==> !Uses(Apply(s, Land(landed)), w, tmp)
    ensures Enabled(s, LandFail(landed)) ==> !Uses(Apply(s, LandFail(landed)), w, tmp)
  {
  }

  lemma NameStaysUnused(s: State, step: Step, tmp: TmpName, w: WriterId)
    requires !Uses(s, w, tmp) && tmp.counter < s.counter && Enabled(s, step) && !step.Crash? && !step.Boot?
    ensures !Uses(Apply(s, step), w, tmp)
  {
    if IsWriting(step) {
      WritingUsesFresh(s, step, tmp, w);
    } else if IsCommitting(step) {
      CommittingUsesNoOther(s, step, tmp, w);
    } else {
      match step
      case Discard(v, removed) => DiscardUsesNoOther(s, v, removed, tmp, w);
      case Abandon(v) => AbandonUsesNoOther(s, v, tmp, w);
      case Land(landed) => LandUsesNoOther(s, landed, tmp, w);
      case LandFail(landed) => LandUsesNoOther(s, landed, tmp, w);
      case _ =>
    }
  }

  lemma StepKeepsFile(s: State, step: Step, tmp: TmpName, content: seq<Byte>)
    requires IsOrphan(s, tmp, content) && Enabled(s, step) && !step.Crash? && !step.Boot?
    ensures var t := Apply(s, step);
            && tmp in t.temps && t.temps[tmp] == content
            && tmp.pid == t.pid && tmp.counter < t.counter && tmp !in t.pending
  {
    if step.Rename? || step.Discard? || step.WriteSome? || step.WriteDone? || step.Abandon? {
      assert !Uses(s, step.w, tmp);
    }
  }

  lemma StepKeepsOrphan(s: State, step: Step, tmp: TmpName, content: seq<Byte>)
    requires IsOrphan(s, tmp, content) && Enabled(s, step) && !step.Crash? && !step.Boot?
    ensures IsOrphan(Apply(s, step), tmp, content)
  {
    StepKeepsFile(s, step, tmp, content);
    forall w: WriterId ensures !Uses(Apply(s, step), w, tmp) {
      NameStaysUnused(s, step, tmp, w);
    }
  }

  lemma {:induction false} OrphanStays(s: State, steps: seq<Step>, tmp: TmpName, content: seq<Byte>)
    requires IsOrphan(s, tmp, content) && IsRun(s, steps)
    requires KeepsRunning(steps)
    ensures IsOrphan(After(s, steps), tmp, content)
    decreases |steps|
  {
    if steps != [] {
      StepKeepsOrphan(s, steps[0], tmp, content);
      OrphanStays(Apply(s, steps[0]), steps[1..], tmp, content);
    }
  }

  lemma OneStep(s: State, step: Step, rest: seq<Step>, s': State)
    requires Enabled(s, step) && Apply(s, step) == s' && IsRun(s', rest)
    ensures IsRun(s, [step] + rest) && After(s, [step] + rest) == After(s', rest)
  {
    assert ([step] + rest)[1..] == rest;
  }

  /** A caller that goes away between the write and the rename. */
  function Leaving(w: WriterId, path: Path, encoded: seq<Byte>): seq<Step> {
    [Spawn(w, path, encoded)] + ([TakeName(w)] + ([WriteDone(w)] + ([Abandon(w)] + [])))
  }

  /** A state on the way. */
  function With(s: State, w: WriterId, path: Path, encoded: seq<Byte>, pc: Pc): State {
    s.(writers := s.writers[w := Writer(path, encoded, pc)], submitted := s.submitted + {(path, encoded)})
  }

  /** The state at the end. */
  function Left(s: State, w: WriterId, path: Path, encoded: seq<Byte>): State {
    var tmp := TmpName(path, s.pid, s.counter);
    With(s, w, path, encoded, Done(false)).(
      counter := s.counter + 1, temps := s.temps[tmp := encoded], abandoned := s.abandoned + {tmp})
  }

  /** It has written. */
  function Wrote(s: State, w: WriterId, path: Path, encoded: seq<Byte>): State {
    var tmp := TmpName(path, s.pid, s.counter);
    With(s, w, path, encoded, Written(tmp)).(counter := s.counter + 1, temps := s.temps[tmp := encoded])
  }

  lemma Leaves(s: State, w: WriterId, path: Path, encoded: seq<Byte>)
    ensures IsRun(Wrote(s, w, path, encoded), [Abandon(w)] + [])
    ensures After(Wrote(s, w, path, encoded), [Abandon(w)] + []) == Left(s, w, path, encoded)
  {
    OneStep(Wrote(s, w, path, encoded), Abandon(w), [], Left(s, w, path, encoded));
  }

  lemma Writes(s: State, w: WriterId, path: Path, encoded: seq<Byte>, rest: seq<Step>)
    requires Fits(s, TmpName(path, s.pid, s.counter), encoded) && IsRun(Wrote(s, w, path, encoded), rest)
    ensures var named := With(s, w, path, encoded, Writing(TmpName(path, s.pid, s.counter))).(counter := s.counter + 1);
            && IsRun(named, [WriteDone(w)] + rest)
            && After(named, [WriteDone(w)] + rest) == After(Wrote(s, w, path, encoded), rest)
  {
    var named := With(s, w, path, encoded, Writing(TmpName(path, s.pid, s.counter))).(counter := s.counter + 1);
    OneStep(named, WriteDone(w), rest, Wrote(s, w, path, encoded));
  }

  lemma LeavingIsRun(s: State, w: WriterId, path: Path, encoded: seq<Byte>)
    requires s.up && w !in s.writers && s.counter < U64_MAX && Fits(s, TmpName(path, s.pid, s.counter), encoded)
    ensures IsRun(s, Leaving(w, path, encoded))
    ensures After(s, Leaving(w, path, encoded)) == Left(s, w, path, encoded)
  {
    var named := With(s, w, path, encoded, Writing(TmpName(path, s.pid, s.counter))).(counter := s.counter + 1);
    var rest := [WriteDone(w)] + ([Abandon(w)] + []);
    Leaves(s, w, path, encoded);
    Writes(s, w, path, encoded, [Abandon(w)] + []);
    OneStep(With(s, w, path, encoded, Naming), TakeName(w), rest, named);
    OneStep(s, Spawn(w, path, encoded), [TakeName(w)] + rest, With(s, w, path, encoded, Naming));
  }

  /** Its temporary file is there for as long as the process lives, whatever else happens, although its
      writer is through and no removal has failed. */
  lemma AbandonedWriterLeavesFile(s: State, w: WriterId, path: Path, encoded: seq<Byte>, rest: seq<Step>)
    requires Init(s) && s.counter < U64_MAX && TmpName(path, s.pid, s.counter) !in s.temps
    requires Fits(s, TmpName(path, s.pid, s.counter), encoded)
    requires IsRun(Left(s, w, path, encoded), rest) && KeepsRunning(rest)
    ensures IsRun(s, Leaving(w, path, encoded))
    ensures var t := After(s, Leaving(w, path, encoded));
            && t == Left(s, w, path, encoded) && w in t.writers && t.writers[w].pc == Done(false)
            && TmpName(path, s.pid, s.counter) !in t.leaked
            && IsOrphan(After(t, rest), TmpName(path, s.pid, s.counter), encoded)
  {
    LeavingIsRun(s, w, path, encoded);
    OrphanStays(Left(s, w, path, encoded), rest, TmpName(path, s.pid, s.counter), encoded);
  }
}
