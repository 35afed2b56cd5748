/** What a commit reports (`commit_record`, src/disk_cache.rs), over every run: success if and only if
    its own rename took place, and then with its own record. */
module CommitReports {
  import opened Prelude
  import opened RecordCodec
  import opened Disk
  import opened CommitProtocol

  predicate NeverCrashes(steps: seq<Step>) {
    forall i | 0 <= i < |steps| :: !steps[i].Crash?
  }

  /** The step is in the run, and the process has not died since. */
  predicate Happened(steps: seq<Step>, step: Step) {
    exists i :: 0 <= i < |steps| && steps[i] == step && NeverCrashes(steps[i + 1..])
  }

  lemma HappenedEarlier(steps: seq<Step>, step: Step)
    requires steps != []
    ensures Happened(steps, step) <==>
              (steps[0] == step && NeverCrashes(steps[1..])) || Happened(steps[1..], step)
    ensures NeverCrashes(steps) <==> !steps[0].Crash? && NeverCrashes(steps[1..])
  {
    var rest := steps[1..];
    if Happened(steps, step) {
      var i :| 0 <= i < |steps| && steps[i] == step && NeverCrashes(steps[i + 1..]);
      if i > 0 {
        assert rest[i - 1] == step && rest[i..] == steps[i + 1..];
      }
    }
    if Happened(rest, step) {
      var i :| 0 <= i < |rest| && rest[i] == step && NeverCrashes(rest[i + 1..]);
      assert steps[i + 1] == step && steps[i + 2..] == rest[i + 1..];
    }
    assert forall i | 1 <= i < |steps| :: steps[i] == rest[i - 1];
  }

  // ----- who a writer is -----

  predicate IsWriter(s: State, w: WriterId, path: Path, encoded: seq<Byte>) {
    w in s.writers && s.writers[w].path == path && s.writers[w].encoded == encoded
  }

  /** The steps up to the rename. */
  predicate ComesBefore(step: Step) {
    || step.Spawn? || step.TakeName? || step.WriteSome? || step.WriteDone? || step.WriteFail? || step.Acquire?
    || step.Measure?
  }

  lemma EarlyStepKeepsWriters(s: State, step: Step, w: WriterId, path: Path, encoded: seq<Byte>)
    requires Enabled(s, step) && ComesBefore(step)
    ensures IsWriter(Apply(s, step), w, path, encoded) <==>
              step == Spawn(w, path, encoded) || IsWriter(s, w, path, encoded)
  {
  }

  lemma LateStepKeepsWriters(s: State, step: Step, w: WriterId, path: Path, encoded: seq<Byte>)
    requires Enabled(s, step) && !ComesBefore(step)
    ensures IsWriter(Apply(s, step), w, path, encoded) <==> IsWriter(s, w, path, encoded) && !step.Crash?
  {
  }

  lemma StepKeepsWriters(s: State, step: Step, w: WriterId, path: Path, encoded: seq<Byte>)
    requires Enabled(s, step)
    ensures IsWriter(Apply(s, step), w, path, encoded) <==>
              step == Spawn(w, path, encoded) || (IsWriter(s, w, path, encoded) && !step.Crash?)
  {
    if ComesBefore(step) {
      EarlyStepKeepsWriters(s, step, w, path, encoded);
    } else {
      LateStepKeepsWriters(s, step, w, path, encoded);
    }
  }

  /** The writers are those spawned since the process started. */
  lemma {:induction false} WritersWereSpawned(s: State, steps: seq<Step>, w: WriterId, path: Path, encoded: seq<Byte>)
    requires IsRun(s, steps)
    ensures IsWriter(After(s, steps), w, path, encoded) <==>
              Happened(steps, Spawn(w, path, encoded)) || (IsWriter(s, w, path, encoded) && NeverCrashes(steps))
    decreases |steps|
  {
    if steps != [] {
      HappenedEarlier(steps, Spawn(w, path, encoded));
      StepKeepsWriters(s, steps[0], w, path, encoded);
      WritersWereSpawned(Apply(s, steps[0]), steps[1..], w, path, encoded);
    }
  }

  // ----- what it reports -----

  /** The writer has renamed its file. */
  predicate HasRenamed(s: State, w: WriterId) {
    w in s.writers && var pc := s.writers[w].pc; pc.Renamed? || ((pc.Releasing? || pc.Done?) && pc.ok)
  }

  lemma EarlyStepKeepsReport(s: State, step: Step, w: WriterId)
    requires Enabled(s, step) && ComesBefore(step)
    ensures HasRenamed(Apply(s, step), w) <==> HasRenamed(s, w)
  {
  }

  lemma LateStepKeepsReport(s: State, step: Step, w: WriterId)
    requires Enabled(s, step) && !ComesBefore(step)
    ensures HasRenamed(Apply(s, step), w) <==> step == Rename(w) || (HasRenamed(s, w) && !step.Crash?)
  {
  }

  lemma StepKeepsReport(s: State, step: Step, w: WriterId)
    requires Enabled(s, step)
    ensures HasRenamed(Apply(s, step), w) <==> step == Rename(w) || (HasRenamed(s, w) && !step.Crash?)
  {
    if ComesBefore(step) {
      EarlyStepKeepsReport(s, step, w);
    } else {
      LateStepKeepsReport(s, step, w);
    }
  }

  lemma {:induction false} RenamedExactly(s: State, steps: seq<Step>, w: WriterId)
    requires IsRun(s, steps)
    ensures HasRenamed(After(s, steps), w) <==>
              Happened(steps, Rename(w)) || (HasRenamed(s, w) && NeverCrashes(steps))
    decreases |steps|
  {
    if steps != [] {
      HappenedEarlier(steps, Rename(w));
      StepKeepsReport(s, steps[0], w);
      RenamedExactly(Apply(s, steps[0]), steps[1..], w);
    }
  }

  /** At a rename of the run, after which the process has not died, the path came to hold the record. */
  ghost predicate Installed(s: State, steps: seq<Step>, w: WriterId, path: Path, encoded: seq<Byte>)
    requires IsRun(s, steps)
    decreases |steps|
  {
    steps != [] &&
    var next := Apply(s, steps[0]);
    || (steps[0] == Rename(w) && NeverCrashes(steps[1..]) && path in next.files && next.files[path] == encoded)
    || Installed(next, steps[1..], w, path, encoded)
  }

  lemma RenameInstalls(s: State, w: WriterId)
    requires Inv(s) && Enabled(s, Rename(w))
    ensures var (path, encoded) := (s.writers[w].path, s.writers[w].encoded);
            path in Apply(s, Rename(w)).files && Apply(s, Rename(w)).files[path] == encoded
  {
    assert ContentOk(s, s.writers[w]);
  }

  lemma FirstRenameInstalls(s: State, steps: seq<Step>, w: WriterId)
    requires Inv(s) && IsRun(s, steps) && steps != [] && steps[0] == Rename(w) && NeverCrashes(steps[1..])
    ensures var t := After(s, steps);
            w in t.writers && Installed(s, steps, w, t.writers[w].path, t.writers[w].encoded)
  {
    var next := Apply(s, steps[0]);
    RenameInstalls(s, w);
    WritersWereSpawned(next, steps[1..], w, next.writers[w].path, next.writers[w].encoded);
  }

  lemma {:induction false} RenamesInstall(s: State, steps: seq<Step>, w: WriterId)
    requires Inv(s) && IsRun(s, steps) && Happened(steps, Rename(w))
    ensures var t := After(s, steps);
            w in t.writers && Installed(s, steps, w, t.writers[w].path, t.writers[w].encoded)
    decreases |steps|
  {
    HappenedEarlier(steps, Rename(w));
    if steps[0] == Rename(w) && NeverCrashes(steps[1..]) {
      FirstRenameInstalls(s, steps, w);
    } else {
      StepKeepsInv(s, steps[0]);
      RenamesInstall(Apply(s, steps[0]), steps[1..], w);
    }
  }

  /** Over every run: a call that is over was made, by this process, for the path and record the writer
      stands for; it reports success if and only if its own rename has taken place since the process
      started, and right after that its path held exactly its record. */
  lemma ReportsAreTrue(s: State, steps: seq<Step>, w: WriterId, path: Path, encoded: seq<Byte>, ok: bool)
    requires Init(s) && IsRun(s, steps)
    requires w in After(s, steps).writers && After(s, steps).writers[w] == Writer(path, encoded, Done(ok))
    ensures Happened(steps, Spawn(w, path, encoded))
    ensures ok <==> Happened(steps, Rename(w))
    ensures ok ==> Installed(s, steps, w, path, encoded)
  {
    assert Inv(s);
    WritersWereSpawned(s, steps, w, path, encoded);
    RenamedExactly(s, steps, w);
    if ok {
      RenamesInstall(s, steps, w);
    }
  }

  // ----- nothing is stuck -----

  /** In a reachable state nothing holds a writer up but the lock, a full disk or spent names: each
      operation may succeed or fail, and a caller may leave at every wait. */
  lemma WritersCanGoOn(s: State, w: WriterId)
    requires Inv(s) && w in s.writers
    ensures var (pc, wr) := (s.writers[w].pc, s.writers[w]);
            && (pc.Naming? && s.counter < U64_MAX ==> Enabled(s, TakeName(w)))
            && (pc.Writing? ==> Enabled(s, WriteFail(w)) && (Fits(s, pc.tmp, wr.encoded) ==> Enabled(s, WriteDone(w))))
            && (pc.WriteFailed? || pc.RenameFailed? ==> Enabled(s, Discard(w, true)) && Enabled(s, Discard(w, false)))
            && (pc.Written? && s.lock.None? ==> Enabled(s, Acquire(w)))
            && (pc.Locked? ==> Enabled(s, Measure(w, true)) && Enabled(s, Measure(w, false)))
            && (pc.Measured? ==> Enabled(s, Rename(w)) && Enabled(s, RenameFail(w)))
            && (pc.Renamed? ==> Enabled(s, Count(w)))
            && (pc.Releasing? ==> Enabled(s, Release(w)))
            && (Enabled(s, Abandon(w)) <==> !pc.Renamed? && !pc.Releasing? && !pc.Done?)
  {
    assert ContentOk(s, s.writers[w]);
  }

  /** A rename under way may take place or fail whenever it likes. */
  lemma RenamesCanLand(s: State, tmp: TmpName)
    requires Inv(s) && tmp in s.pending
    ensures Enabled(s, Land(tmp)) && Enabled(s, LandFail(tmp))
  {
    assert PendingOk(s, tmp);
  }

  /** A removal that fails leaves the file, one that succeeds takes it away. */
  lemma RemovalsRemove(s: State, w: WriterId)
    ensures Enabled(s, Discard(w, false)) ==> Apply(s, Discard(w, false)).temps == s.temps
    ensures Enabled(s, Discard(w, true)) ==> s.writers[w].pc.tmp !in Apply(s, Discard(w, true)).temps
  {
  }

  /** A rename under way ends once. */
  lemma EndsOnce(s: State, tmp: TmpName)
    ensures Enabled(s, Land(tmp)) ==> tmp !in Apply(s, Land(tmp)).pending && tmp !in Apply(s, Land(tmp)).temps
    ensures Enabled(s, LandFail(tmp)) ==>
              tmp !in Apply(s, LandFail(tmp)).pending && Apply(s, LandFail(tmp)).temps == s.temps
  {
  }

  /** A write goes through any prefix that there is room for. */
  lemma WritesGoThroughPrefixes(s: State, w: WriterId, n: nat)
    requires w in s.writers && s.writers[w].pc.Writing? && n <= |s.writers[w].encoded|
    requires Fits(s, s.writers[w].pc.tmp, s.writers[w].encoded[..n])
    ensures Enabled(s, WriteSome(w, n))
    ensures Apply(s, WriteSome(w, n)) == s.(temps := s.temps[s.writers[w].pc.tmp := s.writers[w].encoded[..n]])
  {
  }

  /** A caller that leaves before the rename leaves its file behind, if it has one, and during the rename
      the rename; either way it gives the lock back. */
  lemma LeavesExactly(s: State, w: WriterId)
    requires Inv(s) && Enabled(s, Abandon(w))
    ensures var (pc, t) := (s.writers[w].pc, Apply(s, Abandon(w)));
            && t.lock == (if s.lock == Some(w) then None else s.lock)
            && t.files == s.files && t.temps == s.temps && t.tracked == s.tracked && t.leaked == s.leaked
            && t.pending == s.pending + (if pc.Measured? then {pc.tmp} else {})
            && t.abandoned == s.abandoned + (if pc.HasTmp() && !pc.Measured? then {pc.tmp} else {})
  {
    assert HoldsLock(s, w) <==> s.lock == Some(w);
    assert s.pending + {} == s.pending && s.abandoned + {} == s.abandoned;
  }

  // ----- what is left behind -----

  /** The caller stays and the removal succeeds, as far as the step is one of these. */
  predicate TidiesUp(step: Step) {
    !step.Crash? && !step.Boot? && !step.Abandon? && (step.Discard? ==> step.removed)
  }

  lemma TidyStepLeavesNothing(s: State, step: Step)
    requires Enabled(s, step) && TidiesUp(step) && s.pending == {}
    ensures Apply(s, step).leaked == s.leaked && Apply(s, step).abandoned == s.abandoned
    ensures Apply(s, step).pending == {} && Apply(s, step).up == s.up
  {
  }

  lemma {:induction false} TidyRunLeavesNothing(s: State, steps: seq<Step>)
    requires IsRun(s, steps) && s.pending == {} && forall i | 0 <= i < |steps| :: TidiesUp(steps[i])
    ensures var t := After(s, steps);
            t.leaked == s.leaked && t.abandoned == s.abandoned && t.pending == {} && t.up == s.up
    decreases |steps|
  {
    if steps != [] {
      TidyStepLeavesNothing(s, steps[0]);
      TidyRunLeavesNothing(Apply(s, steps[0]), steps[1..]);
    }
  }

  /** In a run in which no caller goes away and no removal fails, every temporary file that was not there
      at the start is in use by a writer that is not through: successful and failed commits alike leave
      none behind. */
  lemma FinishedWritersLeaveNothing(s: State, steps: seq<Step>, tmp: TmpName)
    requires Init(s) && IsRun(s, steps) && forall i | 0 <= i < |steps| :: TidiesUp(steps[i])
    requires tmp in After(s, steps).temps && tmp !in s.temps
    ensures exists w :: Uses(After(s, steps), w, tmp) && !After(s, steps).writers[w].pc.Done?
  {
    CommitsAreSafe(s, steps);
    TidyRunLeavesNothing(s, steps);
  }
}
