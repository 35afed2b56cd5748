/** Commits from beginning to end, undisturbed by others (`commit_record`, src/disk_cache.rs): one that
    succeeds, one whose write fails and one whose rename fails. */
module CommitRuns {
  import opened Prelude
  import opened RecordCodec
  import opened Disk
  import opened CommitProtocol
  import opened CommitDisturbances

  datatype Commit = Commit(w: WriterId, path: Path, encoded: seq<Byte>)

  ghost predicate Leads(s: State, step: Step, s': State) {
    Enabled(s, step) && Apply(s, step) == s'
  }

  /** The writer can start, and its record fits on the disk under a new name. */
  ghost predicate CanCommit(s: State, c: Commit) {
    && s.up && s.lock == None && c.w !in s.writers && s.counter < U64_MAX
    && NameFor(s, c) !in s.temps && Fits(s, NameFor(s, c), c.encoded)
  }

  function NameFor(s: State, c: Commit): TmpName {
    TmpName(c.path, s.pid, s.counter)
  }

  function HasMeasured(s: State, c: Commit): Pc {
    Measured(NameFor(s, c), Length(s.files, c.path))
  }

  /** A state on the way, before the rename. */
  function OnTheWay(s: State, c: Commit, pc: Pc, written: bool, locked: bool): State {
    With(s, c.w, c.path, c.encoded, pc).(
      counter := s.counter + 1,
      temps := if written then s.temps[NameFor(s, c) := c.encoded] else s.temps,
      lock := if locked then Some(c.w) else s.lock)
  }

  lemma Starts(s: State, c: Commit, rest: seq<Step>)
    requires CanCommit(s, c)
    requires IsRun(OnTheWay(s, c, Writing(NameFor(s, c)), false, false), rest)
    ensures IsRun(s, [Spawn(c.w, c.path, c.encoded)] + ([TakeName(c.w)] + rest))
    ensures After(s, [Spawn(c.w, c.path, c.encoded)] + ([TakeName(c.w)] + rest))
         == After(OnTheWay(s, c, Writing(NameFor(s, c)), false, false), rest)
  {
    var spawned := With(s, c.w, c.path, c.encoded, Naming);
    OneStep(spawned, TakeName(c.w), rest, OnTheWay(s, c, Writing(NameFor(s, c)), false, false));
    OneStep(s, Spawn(c.w, c.path, c.encoded), [TakeName(c.w)] + rest, spawned);
  }

  // ----- a write that fails -----

  lemma FailsToWrite(s: State, c: Commit)
    requires CanCommit(s, c)
    ensures Leads(OnTheWay(s, c, Writing(NameFor(s, c)), false, false), WriteFail(c.w),
              OnTheWay(s, c, WriteFailed(NameFor(s, c)), false, false))
  {
  }

  lemma DiscardsUnwritten(s: State, c: Commit)
    requires CanCommit(s, c)
    ensures Leads(OnTheWay(s, c, WriteFailed(NameFor(s, c)), false, false), Discard(c.w, true),
              OnTheWay(s, c, Done(false), false, false))
  {
    assert s.temps - {NameFor(s, c)} == s.temps;
  }

  /** Nothing is left of it but the writer, which reports the failure. */
  lemma FailedWriteChangesNothing(s: State, c: Commit) returns (steps: seq<Step>)
    requires CanCommit(s, c)
    ensures steps == [Spawn(c.w, c.path, c.encoded), TakeName(c.w), WriteFail(c.w), Discard(c.w, true)] && IsRun(s, steps)
    ensures After(s, steps) == OnTheWay(s, c, Done(false), false, false)
  {
    var tmp := NameFor(s, c);
    var failed := OnTheWay(s, c, WriteFailed(tmp), false, false);
    FailsToWrite(s, c);
    DiscardsUnwritten(s, c);
    OneStep(failed, Discard(c.w, true), [], OnTheWay(s, c, Done(false), false, false));
    OneStep(OnTheWay(s, c, Writing(tmp), false, false), WriteFail(c.w), [Discard(c.w, true)] + [], failed);
    Starts(s, c, [WriteFail(c.w)] + ([Discard(c.w, true)] + []));
    steps := [Spawn(c.w, c.path, c.encoded)] + ([TakeName(c.w)] + ([WriteFail(c.w)] + ([Discard(c.w, true)] + [])));
  }

  // ----- up to the rename -----

  lemma Writes(s: State, c: Commit)
    requires CanCommit(s, c)
    ensures Leads(OnTheWay(s, c, Writing(NameFor(s, c)), false, false), WriteDone(c.w),
              OnTheWay(s, c, Written(NameFor(s, c)), true, false))
  {
  }

  lemma TakesLock(s: State, c: Commit)
    requires CanCommit(s, c)
    ensures Leads(OnTheWay(s, c, Written(NameFor(s, c)), true, false), Acquire(c.w),
              OnTheWay(s, c, Locked(NameFor(s, c)), true, true))
  {
  }

  lemma ReadsLength(s: State, c: Commit)
    requires CanCommit(s, c)
    ensures Leads(OnTheWay(s, c, Locked(NameFor(s, c)), true, true), Measure(c.w, true),
              OnTheWay(s, c, HasMeasured(s, c), true, true))
  {
  }

  lemma Measures(s: State, c: Commit, rest: seq<Step>)
    requires CanCommit(s, c)
    requires IsRun(OnTheWay(s, c, HasMeasured(s, c), true, true), rest)
    ensures var written := OnTheWay(s, c, Written(NameFor(s, c)), true, false);
            && IsRun(written, [Acquire(c.w)] + ([Measure(c.w, true)] + rest))
            && After(written, [Acquire(c.w)] + ([Measure(c.w, true)] + rest))
            == After(OnTheWay(s, c, HasMeasured(s, c), true, true), rest)
  {
    var tmp := NameFor(s, c);
    var locked := OnTheWay(s, c, Locked(tmp), true, true);
    var written := OnTheWay(s, c, Written(tmp), true, false);
    TakesLock(s, c);
    ReadsLength(s, c);
    OneStep(locked, Measure(c.w, true), rest, OnTheWay(s, c, HasMeasured(s, c), true, true));
    OneStep(written, Acquire(c.w), [Measure(c.w, true)] + rest, locked);
  }

  lemma WritesAndMeasures(s: State, c: Commit, rest: seq<Step>)
    requires CanCommit(s, c)
    requires IsRun(OnTheWay(s, c, HasMeasured(s, c), true, true), rest)
    ensures var steps := [WriteDone(c.w)] + ([Acquire(c.w)] + ([Measure(c.w, true)] + rest));
            && IsRun(OnTheWay(s, c, Writing(NameFor(s, c)), false, false), steps)
            && After(OnTheWay(s, c, Writing(NameFor(s, c)), false, false), steps)
            == After(OnTheWay(s, c, HasMeasured(s, c), true, true), rest)
  {
    var tmp := NameFor(s, c);
    Measures(s, c, rest);
    Writes(s, c);
    OneStep(OnTheWay(s, c, Writing(tmp), false, false), WriteDone(c.w),
      [Acquire(c.w)] + ([Measure(c.w, true)] + rest), OnTheWay(s, c, Written(tmp), true, false));
  }

  // ----- a rename that fails -----

  lemma FailsToRename(s: State, c: Commit)
    requires CanCommit(s, c)
    ensures Leads(OnTheWay(s, c, HasMeasured(s, c), true, true), RenameFail(c.w),
              OnTheWay(s, c, RenameFailed(NameFor(s, c)), true, true))
  {
  }

  lemma DiscardsWritten(s: State, c: Commit)
    requires CanCommit(s, c)
    ensures Leads(OnTheWay(s, c, RenameFailed(NameFor(s, c)), true, true), Discard(c.w, true),
              OnTheWay(s, c, Releasing(false), false, true))
  {
    assert s.temps[NameFor(s, c) := c.encoded] - {NameFor(s, c)} == s.temps;
  }

  lemma ReportsFailure(s: State, c: Commit)
    requires CanCommit(s, c)
    ensures Leads(OnTheWay(s, c, Releasing(false), false, true), Release(c.w),
              OnTheWay(s, c, Done(false), false, false))
  {
  }

  lemma RenameFails(s: State, c: Commit)
    requires CanCommit(s, c)
    ensures var measured := OnTheWay(s, c, HasMeasured(s, c), true, true);
            && IsRun(measured, [RenameFail(c.w)] + ([Discard(c.w, true)] + ([Release(c.w)] + [])))
            && After(measured, [RenameFail(c.w)] + ([Discard(c.w, true)] + ([Release(c.w)] + [])))
            == OnTheWay(s, c, Done(false), false, false)
  {
    var tmp := NameFor(s, c);
    var measured := OnTheWay(s, c, HasMeasured(s, c), true, true);
    var failed := OnTheWay(s, c, RenameFailed(tmp), true, true);
    var discarded := OnTheWay(s, c, Releasing(false), false, true);
    FailsToRename(s, c);
    DiscardsWritten(s, c);
    ReportsFailure(s, c);
    OneStep(discarded, Release(c.w), [], OnTheWay(s, c, Done(false), false, false));
    OneStep(failed, Discard(c.w, true), [Release(c.w)] + [], discarded);
    OneStep(measured, RenameFail(c.w), [Discard(c.w, true)] + ([Release(c.w)] + []), failed);
  }

  /** The old entry and the counter are as they were, and the failure is reported. */
  lemma FailedRenameChangesNothing(s: State, c: Commit) returns (steps: seq<Step>)
    requires CanCommit(s, c)
    ensures steps == [Spawn(c.w, c.path, c.encoded), TakeName(c.w), WriteDone(c.w), Acquire(c.w), Measure(c.w, true),
                      RenameFail(c.w), Discard(c.w, true), Release(c.w)]
    ensures IsRun(s, steps) && After(s, steps) == OnTheWay(s, c, Done(false), false, false)
  {
    var last := [RenameFail(c.w)] + ([Discard(c.w, true)] + ([Release(c.w)] + []));
    var middle := [WriteDone(c.w)] + ([Acquire(c.w)] + ([Measure(c.w, true)] + last));
    RenameFails(s, c);
    WritesAndMeasures(s, c, last);
    Starts(s, c, middle);
    steps := [Spawn(c.w, c.path, c.encoded)] + ([TakeName(c.w)] + middle);
  }

  // ----- a commit that succeeds -----

  /** A state after the rename. */
  function Installed(s: State, c: Commit, pc: Pc): State {
    OnTheWay(s, c, pc, false, true).(files := s.files[c.path := c.encoded])
  }

  /** The counter once the record is counted. */
  function Counted(s: State, c: Commit): nat {
    SaturatingAdd(SaturatingSub(s.tracked, LengthOrZero(s.files, c.path)), Min(|c.encoded|, U64_MAX))
  }

  /** A state after the update of the counter. */
  function Settled(s: State, c: Commit, pc: Pc): State {
    Installed(s, c, pc).(
      tracked := Counted(s, c),
      drift := s.drift + s.tracked - LengthOrZero(s.files, c.path) + |c.encoded| - Counted(s, c))
  }

  lemma Renames(s: State, c: Commit)
    requires CanCommit(s, c)
    ensures Leads(OnTheWay(s, c, HasMeasured(s, c), true, true), Rename(c.w),
              Installed(s, c, Renamed(Length(s.files, c.path))))
  {
    assert s.temps[NameFor(s, c) := c.encoded] - {NameFor(s, c)} == s.temps;
  }

  lemma Counts(s: State, c: Commit)
    requires CanCommit(s, c)
    ensures Leads(Installed(s, c, Renamed(Length(s.files, c.path))), Count(c.w), Settled(s, c, Releasing(true)))
  {
  }

  lemma ReportsSuccess(s: State, c: Commit)
    requires CanCommit(s, c)
    ensures Leads(Settled(s, c, Releasing(true)), Release(c.w), Settled(s, c, Done(true)).(lock := None))
  {
  }

  lemma CountsAndReports(s: State, c: Commit)
    requires CanCommit(s, c)
    ensures var renamed := Installed(s, c, Renamed(Length(s.files, c.path)));
            && IsRun(renamed, [Count(c.w)] + ([Release(c.w)] + []))
            && After(renamed, [Count(c.w)] + ([Release(c.w)] + [])) == Settled(s, c, Done(true)).(lock := None)
  {
    Counts(s, c);
    ReportsSuccess(s, c);
    OneStep(Settled(s, c, Releasing(true)), Release(c.w), [], Settled(s, c, Done(true)).(lock := None));
    OneStep(Installed(s, c, Renamed(Length(s.files, c.path))), Count(c.w), [Release(c.w)] + [],
      Settled(s, c, Releasing(true)));
  }

  lemma RenamesAndReports(s: State, c: Commit)
    requires CanCommit(s, c)
    ensures var measured := OnTheWay(s, c, HasMeasured(s, c), true, true);
            && IsRun(measured, [Rename(c.w)] + ([Count(c.w)] + ([Release(c.w)] + [])))
            && After(measured, [Rename(c.w)] + ([Count(c.w)] + ([Release(c.w)] + [])))
            == Settled(s, c, Done(true)).(lock := None)
  {
    CountsAndReports(s, c);
    Renames(s, c);
    OneStep(OnTheWay(s, c, HasMeasured(s, c), true, true), Rename(c.w),
      [Count(c.w)] + ([Release(c.w)] + []), Installed(s, c, Renamed(Length(s.files, c.path))));
  }

  /** Its path then holds the record and nothing else has changed on the disk; success is reported, and in
      an undisturbed process the counter is exact. */
  lemma CommitSucceeds(s: State, c: Commit) returns (steps: seq<Step>)
    requires Inv(s) && CanCommit(s, c)
    ensures steps == [Spawn(c.w, c.path, c.encoded), TakeName(c.w), WriteDone(c.w), Acquire(c.w), Measure(c.w, true),
                      Rename(c.w), Count(c.w), Release(c.w)]
    ensures IsRun(s, steps)
    ensures var t := After(s, steps);
            && t.files == s.files[c.path := c.encoded] && t.temps == s.temps && t.lock == None
            && t.writers == s.writers[c.w := Writer(c.path, c.encoded, Done(true))]
            && (!s.disturbed ==> t.tracked == Total(t.files))
  {
    var last := [Rename(c.w)] + ([Count(c.w)] + ([Release(c.w)] + []));
    var middle := [WriteDone(c.w)] + ([Acquire(c.w)] + ([Measure(c.w, true)] + last));
    RenamesAndReports(s, c);
    WritesAndMeasures(s, c, last);
    Starts(s, c, middle);
    steps := [Spawn(c.w, c.path, c.encoded)] + ([TakeName(c.w)] + middle);
    RunKeepsInv(s, steps);
  }
}
