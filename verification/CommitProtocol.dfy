/** `commit_record` run by any number of writers, with failing writes, failing renames, unreadable
    lengths, callers that go away, crashes and restarts (src/disk_cache.rs). Every atomic action of
    the code is one step. */
module CommitProtocol {
  import opened Prelude
  import opened RecordCodec
  import opened Disk

  type WriterId = nat

  /** Where a writer is in `commit_record`. */
  datatype Pc =
    | Naming
    | Writing(tmp: TmpName)
    | WriteFailed(tmp: TmpName)
    | Written(tmp: TmpName)
    | Locked(tmp: TmpName)
    | Measured(tmp: TmpName, oldLen: Option<nat>)
    | RenameFailed(tmp: TmpName)
    | Renamed(oldLen: Option<nat>)
    | Releasing(ok: bool)
    | Done(ok: bool)
  {
    predicate HoldsLock() {
      Locked? || Measured? || RenameFailed? || Renamed? || Releasing?
    }

    /** Waiting for something. */
    predicate CanBeAbandoned() {
      Naming? || Writing? || WriteFailed? || Written? || Locked? || Measured? || RenameFailed?
    }

    predicate HasTmp() {
      Writing? || WriteFailed? || Written? || Locked? || Measured? || RenameFailed?
    }
  }

  datatype Writer = Writer(path: Path, encoded: seq<Byte>, pc: Pc)

  /** `pending` are the temporary files whose rename is under way although its writer was abandoned.
      The last fields record history that the code itself does not keep: the temporary files whose
      removal failed; those that abandoned writers left behind; the files found at the start; the
      contents handed to `commit_record`; whether, since the start of the process, a pending rename
      has taken place or the length of a file could not be read; and how far off that has put the
      counter. */
  datatype State = State(
    capacity: nat,
    files: map<Path, seq<Byte>>,
    temps: map<TmpName, seq<Byte>>,
    up: bool,
    pid: nat,
    counter: nat,
    tracked: nat,
    lock: Option<WriterId>,
    writers: map<WriterId, Writer>,
    pending: set<TmpName>,
    leaked: set<TmpName>,
    abandoned: set<TmpName>,
    preexisting: map<Path, seq<Byte>>,
    submitted: set<(Path, seq<Byte>)>,
    disturbed: bool,
    drift: int)

  datatype Step =
    | Spawn(w: WriterId, path: Path, encoded: seq<Byte>)
    | TakeName(w: WriterId)
    | WriteSome(w: WriterId, n: nat)
    | WriteDone(w: WriterId)
    | WriteFail(w: WriterId)
    | Acquire(w: WriterId)
    | Measure(w: WriterId, readable: bool)
    | Rename(w: WriterId)
    | RenameFail(w: WriterId)
    | Discard(w: WriterId, removed: bool)
    | Count(w: WriterId)
    | Release(w: WriterId)
    | Abandon(w: WriterId)    // the caller goes away and the future is dropped at one of its awaits
    | Land(tmp: TmpName)      // a rename that was under way then takes place
    | LandFail(tmp: TmpName)
    | Crash(pid: nat)
    | Boot(undeletable: set<TmpName>)

  // ----- the steps -----

  function Length(files: map<Path, seq<Byte>>, path: Path): Option<nat> {
    if path in files then Some(|files[path]|) else None
  }

  function LengthOrZero(files: map<Path, seq<Byte>>, path: Path): nat {
    Length(files, path).GetOr(0)
  }

  ghost predicate Fits(s: State, tmp: TmpName, content: seq<Byte>) {
    Total(s.files) + Total(s.temps[tmp := content]) <= s.capacity
  }

  ghost predicate Enabled(s: State, step: Step) {
    match step
    case Spawn(w, _, _) => s.up && w !in s.writers
    case TakeName(w) => w in s.writers && s.writers[w].pc.Naming? && s.counter < U64_MAX
    case WriteSome(w, n) => w in s.writers && s.writers[w].pc.Writing? && n <= |s.writers[w].encoded|
      && Fits(s, s.writers[w].pc.tmp, s.writers[w].encoded[..n])
    case WriteDone(w) => w in s.writers && s.writers[w].pc.Writing? && Fits(s, s.writers[w].pc.tmp, s.writers[w].encoded)
    case WriteFail(w) => w in s.writers && s.writers[w].pc.Writing?
    case Acquire(w) => w in s.writers && s.writers[w].pc.Written? && s.lock == None
    case Measure(w, _) => w in s.writers && s.writers[w].pc.Locked?
    case Rename(w) => w in s.writers && s.writers[w].pc.Measured? && s.writers[w].pc.tmp in s.temps
    case RenameFail(w) => w in s.writers && s.writers[w].pc.Measured?
    case Discard(w, _) => w in s.writers && (s.writers[w].pc.WriteFailed? || s.writers[w].pc.RenameFailed?)
    case Count(w) => w in s.writers && s.writers[w].pc.Renamed?
    case Release(w) => w in s.writers && s.writers[w].pc.Releasing?
    case Abandon(w) => w in s.writers && s.writers[w].pc.CanBeAbandoned()
    case Land(tmp) => tmp in s.pending && tmp in s.temps
    case LandFail(tmp) => tmp in s.pending
    case Crash(_) => s.up
    case Boot(_) => !s.up
  }

  function MoveTo(s: State, w: WriterId, pc: Pc): State
    requires w in s.writers
  {
    s.(writers := s.writers[w := s.writers[w].(pc := pc)])
  }

  ghost function Apply(s: State, step: Step): State
    requires Enabled(s, step)
  {
    match step
    case Spawn(w, path, encoded) =>
      s.(writers := s.writers[w := Writer(path, encoded, Naming)], submitted := s.submitted + {(path, encoded)})
    case TakeName(w) =>
      MoveTo(s, w, Writing(TmpName(s.writers[w].path, s.pid, s.counter))).(counter := s.counter + 1)
    case WriteSome(w, n) =>
      s.(temps := s.temps[s.writers[w].pc.tmp := s.writers[w].encoded[..n]])
    case WriteDone(w) =>
      var tmp := s.writers[w].pc.tmp;
      MoveTo(s, w, Written(tmp)).(temps := s.temps[tmp := s.writers[w].encoded])
    case WriteFail(w) => MoveTo(s, w, WriteFailed(s.writers[w].pc.tmp))
    case Acquire(w) => MoveTo(s, w, Locked(s.writers[w].pc.tmp)).(lock := Some(w))
    case Measure(w, readable) =>
      var len := Length(s.files, s.writers[w].path);
      MoveTo(s, w, Measured(s.writers[w].pc.tmp, if readable then len else None)).(
        disturbed := s.disturbed || (!readable && len.Some?))
    case Rename(w) =>
      var Measured(tmp, oldLen) := s.writers[w].pc;
      MoveTo(s, w, Renamed(oldLen)).(
        files := s.files[s.writers[w].path := s.temps[tmp]],
        temps := s.temps - {tmp},
        drift := s.drift + oldLen.GetOr(0) - LengthOrZero(s.files, s.writers[w].path))
    case RenameFail(w) => MoveTo(s, w, RenameFailed(s.writers[w].pc.tmp))
    case Discard(w, removed) =>
      var tmp := s.writers[w].pc.tmp;
      MoveTo(s, w, if s.writers[w].pc.WriteFailed? then Done(false) else Releasing(false)).(
        temps := if removed then s.temps - {tmp} else s.temps,
        leaked := if removed then s.leaked else s.leaked + {tmp})
    case Count(w) =>
      var (replaced, written) := (s.writers[w].pc.oldLen.GetOr(0), |s.writers[w].encoded|);
      var counted := SaturatingAdd(SaturatingSub(s.tracked, replaced), Min(written, U64_MAX));
      MoveTo(s, w, Releasing(true)).(tracked := counted, drift := s.drift + s.tracked - replaced + written - counted)
    case Release(w) => MoveTo(s, w, Done(s.writers[w].pc.ok)).(lock := None)
    case Abandon(w) =>
      var pc := s.writers[w].pc;
      MoveTo(s, w, Done(false)).(
        lock := if pc.HoldsLock() then None else s.lock,
        pending := if pc.Measured? then s.pending + {pc.tmp} else s.pending,
        abandoned := if pc.HasTmp() && !pc.Measured? then s.abandoned + {pc.tmp} else s.abandoned)
    case Land(tmp) =>
      s.(
        files := s.files[tmp.path := s.temps[tmp]],
        temps := s.temps - {tmp},
        pending := s.pending - {tmp},
        disturbed := true,
        drift := s.drift + |s.temps[tmp]| - LengthOrZero(s.files, tmp.path))
    case LandFail(tmp) => s.(pending := s.pending - {tmp}, abandoned := s.abandoned + {tmp})
    case Crash(pid) =>
      s.(up := false, pid := pid, counter := 0, tracked := 0, lock := None, writers := map[], pending := {})
    case Boot(undeletable) =>
      var left := map t | t in s.temps && t in undeletable :: s.temps[t];
      s.(
        up := true, temps := left, leaked := left.Keys, abandoned := {}, tracked := Min(Total(s.files), U64_MAX),
        disturbed := false, drift := 0)
  }

  // ----- the invariant -----

  ghost predicate HoldsLock(s: State, w: WriterId) {
    w in s.writers && s.writers[w].pc.HoldsLock()
  }

  ghost predicate Uses(s: State, w: WriterId, tmp: TmpName) {
    w in s.writers && s.writers[w].pc.HasTmp() && s.writers[w].pc.tmp == tmp
  }

  /** The lock is held by exactly the writer that is past acquiring it. */
  ghost predicate LockInv(s: State) {
    forall w: WriterId :: HoldsLock(s, w) <==> s.lock == Some(w)
  }

  /** Names in use are this process's, and no two writers share one. */
  ghost predicate NamesInv(s: State) {
    && (forall w, tmp | Uses(s, w, tmp) :: tmp.path == s.writers[w].path && tmp.pid == s.pid && tmp.counter < s.counter)
    && (forall v, w, tmp | Uses(s, v, tmp) && Uses(s, w, tmp) :: v == w)
  }

  /** A complete temporary file holds the whole record until it is renamed. */
  ghost predicate ContentOk(s: State, wr: Writer) {
    && (wr.path, wr.encoded) in s.submitted
    && (wr.pc.Written? || wr.pc.Locked? || wr.pc.Measured? ==> wr.pc.tmp in s.temps && s.temps[wr.pc.tmp] == wr.encoded)
    && (wr.pc.Measured? && !s.disturbed ==> wr.pc.oldLen == Length(s.files, wr.path))
  }

  ghost predicate ContentInv(s: State) {
    forall w | w in s.writers :: ContentOk(s, s.writers[w])
  }

  /** A file whose rename is pending is complete, and nobody else's. */
  ghost predicate PendingOk(s: State, tmp: TmpName) {
    && tmp.pid == s.pid && tmp.counter < s.counter
    && tmp in s.temps && (tmp.path, s.temps[tmp]) in s.submitted
    && forall w: WriterId :: !Uses(s, w, tmp)
  }

  ghost predicate PendingInv(s: State) {
    forall tmp | tmp in s.pending :: PendingOk(s, tmp)
  }

  /** Nobody will deal with the file any more, or only the file system will. */
  predicate IsLeft(s: State, tmp: TmpName) {
    tmp in s.leaked || tmp in s.abandoned || tmp in s.pending
  }

  /** Every temporary file belongs to a writer that will still deal with it, or its removal failed, or
      its writer was abandoned. */
  ghost predicate TempsInv(s: State) {
    s.up ==> forall t | t in s.temps :: IsLeft(s, t) || exists w :: Uses(s, w, t)
  }

  /** A final path holds one whole submitted record, or what it held when the history started. */
  ghost predicate WholeFiles(s: State) {
    forall p | p in s.files ::
      || (p in s.preexisting && s.files[p] == s.preexisting[p])
      || (p, s.files[p]) in s.submitted
  }

  ghost predicate SpaceInv(s: State) {
    Total(s.files) + Total(s.temps) <= s.capacity <= U64_MAX
  }

  /** The bytes that the next update takes off the counter and adds to it. */
  ghost function Due(s: State): int {
    if s.lock.Some? && s.lock.value in s.writers && s.writers[s.lock.value].pc.Renamed? then
      |s.writers[s.lock.value].encoded| - s.writers[s.lock.value].pc.oldLen.GetOr(0)
    else 0
  }

  /** The counter is off by the drift, and by what is due between a rename and the update that
      follows it. */
  ghost predicate SizeInv(s: State) {
    s.up ==>
      && s.tracked + Due(s) + s.drift == Total(s.files)
      && (!s.disturbed ==> s.drift == 0 && CanCount(s))
  }

  /** The next update does not saturate. */
  ghost predicate CanCount(s: State) {
    s.lock.Some? && s.lock.value in s.writers && s.writers[s.lock.value].pc.Renamed? ==>
      s.writers[s.lock.value].pc.oldLen.GetOr(0) <= s.tracked
  }

  ghost predicate Inv(s: State) {
    && LockInv(s) && NamesInv(s) && ContentInv(s) && PendingInv(s) && TempsInv(s) && WholeFiles(s)
    && SpaceInv(s) && SizeInv(s)
    && (!s.up ==> s.writers == map[] && s.lock == None && s.pending == {})
  }

  /** A process that has just booted on some directory. */
  ghost predicate Init(s: State) {
    && s.up && s.writers == map[] && s.lock == None
    && s.pending == {} && s.leaked == s.temps.Keys && s.abandoned == {} && s.preexisting == s.files
    && s.tracked == Total(s.files) && SpaceInv(s) && !s.disturbed && s.drift == 0
  }

  /** A step of writer `w` that takes or releases the lock properly and uses no name but its own
      or a fresh one disturbs nobody else's lock or name. */
  lemma MoveKeepsOwnership(s: State, next: State, w: WriterId)
    requires LockInv(s) && NamesInv(s)
    requires w in next.writers && next.writers == s.writers[w := next.writers[w]]
    requires next.pid == s.pid && s.counter <= next.counter
    requires HoldsLock(next, w) <==> next.lock == Some(w)
    requires next.lock == s.lock || (s.lock == None && next.lock == Some(w)) || (s.lock == Some(w) && next.lock == None)
    requires forall tmp | Uses(next, w, tmp) ::
               || (Uses(s, w, tmp) && next.writers[w].path == s.writers[w].path)
               || (tmp == TmpName(next.writers[w].path, s.pid, s.counter) && s.counter < next.counter)
    ensures LockInv(next) && NamesInv(next)
  {
    forall v: WriterId ensures HoldsLock(next, v) <==> next.lock == Some(v) {
      assert v != w ==> (HoldsLock(next, v) <==> HoldsLock(s, v));
    }
    forall v, tmp | Uses(next, v, tmp)
      ensures tmp.path == next.writers[v].path && tmp.pid == next.pid && tmp.counter < next.counter
      ensures v != w ==> Uses(s, v, tmp)
    {
      assert v != w ==> Uses(s, v, tmp);
    }
  }

  /** A step of writer `w` that touches only its own temporary file, and final files only under
      the lock, leaves the other writers' content in place. */
  lemma MoveKeepsContent(s: State, next: State, w: WriterId)
    requires LockInv(s) && NamesInv(s) && ContentInv(s)
    requires w in next.writers && next.writers == s.writers[w := next.writers[w]]
    requires ContentOk(next, next.writers[w]) && s.submitted <= next.submitted
    requires next.files == s.files || s.lock == Some(w)
    requires s.disturbed ==> next.disturbed
    requires forall t | t in s.temps && !Uses(s, w, t) :: t in next.temps && next.temps[t] == s.temps[t]
    ensures ContentInv(next)
  {
    forall v | v in next.writers ensures ContentOk(next, next.writers[v]) {
      if v != w {
        assert ContentOk(s, s.writers[v]);
        assert s.lock == Some(w) ==> !HoldsLock(s, v);
        if s.writers[v].pc.HasTmp() {
          assert Uses(s, v, s.writers[v].pc.tmp);
          assert !Uses(s, w, s.writers[v].pc.tmp);
        }
      }
    }
  }

  /** A step of writer `w` that leaves alone what it does not use, and at most adds its own complete
      file to the pending ones, keeps these. */
  lemma MoveKeepsPending(s: State, next: State, w: WriterId)
    requires NamesInv(s) && PendingInv(s)
    requires w in next.writers && next.writers == s.writers[w := next.writers[w]]
    requires next.pid == s.pid && s.counter <= next.counter && s.submitted <= next.submitted
    requires forall t | t in s.temps && !Uses(s, w, t) :: t in next.temps && next.temps[t] == s.temps[t]
    requires forall t | Uses(next, w, t) ::
               Uses(s, w, t) || (t == TmpName(next.writers[w].path, s.pid, s.counter) && s.counter < next.counter)
    requires forall t | t in next.pending && t !in s.pending ::
               Uses(s, w, t) && !Uses(next, w, t) && t in next.temps && (t.path, next.temps[t]) in next.submitted
    ensures PendingInv(next)
  {
    forall t | t in next.pending ensures PendingOk(next, t) {
      if t in s.pending {
        assert PendingOk(s, t);
      }
      forall v: WriterId ensures !Uses(next, v, t) {
        assert v != w ==> (Uses(next, v, t) <==> Uses(s, v, t));
      }
    }
  }

  /** A step of writer `w` that does not forget its temporary file leaves none unaccounted for. */
  lemma MoveKeepsTemps(s: State, next: State, w: WriterId)
    requires TempsInv(s) && s.up
    requires w in next.writers && next.writers == s.writers[w := next.writers[w]]
    requires s.leaked <= next.leaked && s.abandoned <= next.abandoned && s.pending <= next.pending
    requires forall t | t in next.temps :: t in s.temps || Uses(next, w, t)
    requires forall t | t in next.temps && Uses(s, w, t) :: Uses(next, w, t) || IsLeft(next, t)
    ensures TempsInv(next)
  {
    forall t | t in next.temps && !IsLeft(next, t) ensures exists v :: Uses(next, v, t) {
      if !Uses(next, w, t) {
        var v :| Uses(s, v, t);
        assert v != w ==> Uses(next, v, t);
      }
    }
  }

  lemma SpawnKeepsInv(s: State, w: WriterId, path: Path, encoded: seq<Byte>)
    requires Inv(s) && Enabled(s, Spawn(w, path, encoded))
    ensures Inv(Apply(s, Spawn(w, path, encoded)))
  {
    var next := Apply(s, Spawn(w, path, encoded));
    MoveKeepsOwnership(s, next, w);
    MoveKeepsContent(s, next, w);
    MoveKeepsPending(s, next, w);
    MoveKeepsTemps(s, next, w);
  }

  lemma TakeNameKeepsInv(s: State, w: WriterId)
    requires Inv(s) && Enabled(s, TakeName(w))
    ensures Inv(Apply(s, TakeName(w)))
  {
    var next := Apply(s, TakeName(w));
    assert HoldsLock(s, w) <==> s.lock == Some(w);
    assert ContentOk(s, s.writers[w]);
    MoveKeepsOwnership(s, next, w);
    MoveKeepsContent(s, next, w);
    MoveKeepsPending(s, next, w);
    MoveKeepsTemps(s, next, w);
  }

  lemma WriteSomeKeepsInv(s: State, w: WriterId, n: nat)
    requires Inv(s) && Enabled(s, WriteSome(w, n))
    ensures Inv(Apply(s, WriteSome(w, n)))
  {
    var next := Apply(s, WriteSome(w, n));
    assert HoldsLock(s, w) <==> s.lock == Some(w);
    assert ContentOk(s, s.writers[w]);
    MoveKeepsOwnership(s, next, w);
    MoveKeepsContent(s, next, w);
    MoveKeepsPending(s, next, w);
    MoveKeepsTemps(s, next, w);
  }

  lemma WriteDoneKeepsInv(s: State, w: WriterId)
    requires Inv(s) && Enabled(s, WriteDone(w))
    ensures Inv(Apply(s, WriteDone(w)))
  {
    var next := Apply(s, WriteDone(w));
    assert HoldsLock(s, w) <==> s.lock == Some(w);
    assert ContentOk(s, s.writers[w]);
    MoveKeepsOwnership(s, next, w);
    MoveKeepsContent(s, next, w);
    MoveKeepsPending(s, next, w);
    MoveKeepsTemps(s, next, w);
  }

  lemma WriteFailKeepsInv(s: State, w: WriterId)
    requires Inv(s) && Enabled(s, WriteFail(w))
    ensures Inv(Apply(s, WriteFail(w)))
  {
    var next := Apply(s, WriteFail(w));
    assert HoldsLock(s, w) <==> s.lock == Some(w);
    assert ContentOk(s, s.writers[w]);
    MoveKeepsOwnership(s, next, w);
    MoveKeepsContent(s, next, w);
    MoveKeepsPending(s, next, w);
    MoveKeepsTemps(s, next, w);
  }

  lemma AcquireKeepsInv(s: State, w: WriterId)
    requires Inv(s) && Enabled(s, Acquire(w))
    ensures Inv(Apply(s, Acquire(w)))
  {
    var next := Apply(s, Acquire(w));
    assert HoldsLock(s, w) <==> s.lock == Some(w);
    assert ContentOk(s, s.writers[w]);
    MoveKeepsOwnership(s, next, w);
    MoveKeepsContent(s, next, w);
    MoveKeepsPending(s, next, w);
    MoveKeepsTemps(s, next, w);
  }

  lemma MeasureKeepsInv(s: State, w: WriterId, readable: bool)
    requires Inv(s) && Enabled(s, Measure(w, readable))
    ensures Inv(Apply(s, Measure(w, readable)))
  {
    var next := Apply(s, Measure(w, readable));
    assert HoldsLock(s, w) <==> s.lock == Some(w);
    assert ContentOk(s, s.writers[w]);
    MoveKeepsOwnership(s, next, w);
    MoveKeepsContent(s, next, w);
    MoveKeepsPending(s, next, w);
    MoveKeepsTemps(s, next, w);
  }

  lemma RenameKeepsTotals(s: State, w: WriterId)
    requires Inv(s) && Enabled(s, Rename(w))
    ensures SpaceInv(Apply(s, Rename(w))) && SizeInv(Apply(s, Rename(w)))
  {
    var tmp := s.writers[w].pc.tmp;
    assert HoldsLock(s, w) && ContentOk(s, s.writers[w]);
    TotalUpdate(s.files, s.writers[w].path, s.temps[tmp]);
    TotalRemove(s.temps, tmp);
  }

  lemma RenameKeepsInv(s: State, w: WriterId)
    requires Inv(s) && Enabled(s, Rename(w))
    ensures Inv(Apply(s, Rename(w)))
  {
    var next := Apply(s, Rename(w));
    assert HoldsLock(s, w) <==> s.lock == Some(w);
    assert ContentOk(s, s.writers[w]);
    RenameKeepsTotals(s, w);
    MoveKeepsOwnership(s, next, w);
    MoveKeepsContent(s, next, w);
    MoveKeepsPending(s, next, w);
    MoveKeepsTemps(s, next, w);
  }

  lemma RenameFailKeepsInv(s: State, w: WriterId)
    requires Inv(s) && Enabled(s, RenameFail(w))
    ensures Inv(Apply(s, RenameFail(w)))
  {
    var next := Apply(s, RenameFail(w));
    assert HoldsLock(s, w) <==> s.lock == Some(w);
    assert ContentOk(s, s.writers[w]);
    MoveKeepsOwnership(s, next, w);
    MoveKeepsContent(s, next, w);
    MoveKeepsPending(s, next, w);
    MoveKeepsTemps(s, next, w);
  }

  lemma DiscardKeepsInv(s: State, w: WriterId, removed: bool)
    requires Inv(s) && Enabled(s, Discard(w, removed))
    ensures Inv(Apply(s, Discard(w, removed)))
  {
    var next := Apply(s, Discard(w, removed));
    assert HoldsLock(s, w) <==> s.lock == Some(w);
    assert ContentOk(s, s.writers[w]);
    TotalDrop(s.temps, s.writers[w].pc.tmp);
    MoveKeepsOwnership(s, next, w);
    MoveKeepsContent(s, next, w);
    MoveKeepsPending(s, next, w);
    MoveKeepsTemps(s, next, w);
  }

  lemma CountKeepsInv(s: State, w: WriterId)
    requires Inv(s) && Enabled(s, Count(w))
    ensures Inv(Apply(s, Count(w)))
  {
    var next := Apply(s, Count(w));
    assert HoldsLock(s, w) <==> s.lock == Some(w);
    assert ContentOk(s, s.writers[w]);
    MoveKeepsOwnership(s, next, w);
    MoveKeepsContent(s, next, w);
    MoveKeepsPending(s, next, w);
    MoveKeepsTemps(s, next, w);
  }

  lemma ReleaseKeepsInv(s: State, w: WriterId)
    requires Inv(s) && Enabled(s, Release(w))
    ensures Inv(Apply(s, Release(w)))
  {
    var next := Apply(s, Release(w));
    assert HoldsLock(s, w) <==> s.lock == Some(w);
    assert ContentOk(s, s.writers[w]);
    MoveKeepsOwnership(s, next, w);
    MoveKeepsContent(s, next, w);
    MoveKeepsPending(s, next, w);
    MoveKeepsTemps(s, next, w);
  }

  lemma AbandonKeepsInv(s: State, w: WriterId)
    requires Inv(s) && Enabled(s, Abandon(w))
    ensures Inv(Apply(s, Abandon(w)))
  {
    var next := Apply(s, Abandon(w));
    assert HoldsLock(s, w) <==> s.lock == Some(w);
    assert ContentOk(s, s.writers[w]);
    MoveKeepsOwnership(s, next, w);
    MoveKeepsContent(s, next, w);
    MoveKeepsPending(s, next, w);
    MoveKeepsTemps(s, next, w);
  }

  lemma LandKeepsTotals(s: State, tmp: TmpName)
    requires Inv(s) && Enabled(s, Land(tmp))
    ensures SpaceInv(Apply(s, Land(tmp))) && SizeInv(Apply(s, Land(tmp)))
  {
    TotalUpdate(s.files, tmp.path, s.temps[tmp]);
    TotalRemove(s.temps, tmp);
  }

  lemma LandKeepsInv(s: State, tmp: TmpName)
    requires Inv(s) && Enabled(s, Land(tmp))
    ensures Inv(Apply(s, Land(tmp)))
  {
    var next := Apply(s, Land(tmp));
    assert PendingOk(s, tmp);
    LandKeepsTotals(s, tmp);
    assert forall w, t :: Uses(next, w, t) <==> Uses(s, w, t);
    forall w | w in next.writers ensures ContentOk(next, next.writers[w]) {
      assert ContentOk(s, s.writers[w]) && !Uses(s, w, tmp);
    }
    forall t | t in next.pending ensures PendingOk(next, t) {
      assert PendingOk(s, t);
    }
  }

  lemma LandFailKeepsInv(s: State, tmp: TmpName)
    requires Inv(s) && Enabled(s, LandFail(tmp))
    ensures Inv(Apply(s, LandFail(tmp)))
  {
    var next := Apply(s, LandFail(tmp));
    assert forall w, t :: Uses(next, w, t) <==> Uses(s, w, t);
    forall w | w in next.writers ensures ContentOk(next, next.writers[w]) {
      assert ContentOk(s, s.writers[w]);
    }
    forall t | t in next.pending ensures PendingOk(next, t) {
      assert PendingOk(s, t);
    }
  }

  lemma CrashKeepsInv(s: State, pid: nat)
    requires Inv(s) && Enabled(s, Crash(pid))
    ensures Inv(Apply(s, Crash(pid)))
  {
  }

  lemma BootKeepsInv(s: State, undeletable: set<TmpName>)
    requires Inv(s) && Enabled(s, Boot(undeletable))
    ensures Inv(Apply(s, Boot(undeletable)))
  {
    var left := Apply(s, Boot(undeletable)).temps;
    assert left == s.temps - (s.temps.Keys - undeletable);
    TotalSubset(s.temps, s.temps.Keys - undeletable);
  }

  lemma StepKeepsInv(s: State, step: Step)
    requires Inv(s) && Enabled(s, step)
    ensures Inv(Apply(s, step))
  {
    match step
    case Spawn(w, path, encoded) => SpawnKeepsInv(s, w, path, encoded);
    case TakeName(w) => TakeNameKeepsInv(s, w);
    case WriteSome(w, n) => WriteSomeKeepsInv(s, w, n);
    case WriteDone(w) => WriteDoneKeepsInv(s, w);
    case WriteFail(w) => WriteFailKeepsInv(s, w);
    case Acquire(w) => AcquireKeepsInv(s, w);
    case Measure(w, readable) => MeasureKeepsInv(s, w, readable);
    case Rename(w) => RenameKeepsInv(s, w);
    case RenameFail(w) => RenameFailKeepsInv(s, w);
    case Discard(w, removed) => DiscardKeepsInv(s, w, removed);
    case Count(w) => CountKeepsInv(s, w);
    case Release(w) => ReleaseKeepsInv(s, w);
    case Abandon(w) => AbandonKeepsInv(s, w);
    case Land(tmp) => LandKeepsInv(s, tmp);
    case LandFail(tmp) => LandFailKeepsInv(s, tmp);
    case Crash(pid) => CrashKeepsInv(s, pid);
    case Boot(undeletable) => BootKeepsInv(s, undeletable);
  }

  /** States reached from `s` by a run. */
  ghost predicate IsRun(s: State, steps: seq<Step>)
    decreases |steps|
  {
    steps == [] || (Enabled(s, steps[0]) && IsRun(Apply(s, steps[0]), steps[1..]))
  }

  ghost function After(s: State, steps: seq<Step>): State
    requires IsRun(s, steps)
    decreases |steps|
  {
    if steps == [] then s else After(Apply(s, steps[0]), steps[1..])
  }

  lemma {:induction false} RunKeepsInv(s: State, steps: seq<Step>)
    requires Inv(s) && IsRun(s, steps)
    ensures Inv(After(s, steps))
    decreases |steps|
  {
    if steps != [] {
      StepKeepsInv(s, steps[0]);
      RunKeepsInv(Apply(s, steps[0]), steps[1..]);
    }
  }

  /** Every run of every number of writers, crashes and restarts included: no two writers hold the
      lock; whenever it is free the counter is off from the bytes in committed files by the drift, and
      so exact unless an abandoned rename has taken place or a length could not be read; every
      committed file is untouched or one whole record submitted for its path; and every temporary
      file is in use by an unfinished writer, unless removing it failed or its writer was abandoned. */
  lemma CommitsAreSafe(s: State, steps: seq<Step>)
    requires Init(s) && IsRun(s, steps)
    ensures var t := After(s, steps);
            && (forall v, w | HoldsLock(t, v) && HoldsLock(t, w) :: v == w)
            && (t.up && t.lock == None ==> t.tracked + t.drift == Total(t.files))
            && (t.up && !t.disturbed ==> t.drift == 0)
            && (forall p | p in t.files ::
                  (p in t.preexisting && t.files[p] == t.preexisting[p]) || (p, t.files[p]) in t.submitted)
            && (t.up ==> forall tmp | tmp in t.temps :: IsLeft(t, tmp) || exists w :: Uses(t, w, tmp))
  {
    assert Inv(s);
    RunKeepsInv(s, steps);
  }

  /** Unless disturbed, the saturating update never saturates. */
  lemma CountIsExact(s: State, steps: seq<Step>, w: WriterId)
    requires Init(s) && IsRun(s, steps) && Enabled(After(s, steps), Count(w)) && !After(s, steps).disturbed
    ensures var t := After(s, steps);
            var replaced := t.writers[w].pc.oldLen.GetOr(0);
            && replaced <= t.tracked
            && t.tracked - replaced + |t.writers[w].encoded| <= U64_MAX
            && Apply(t, Count(w)).tracked == t.tracked - replaced + |t.writers[w].encoded| == Total(t.files)
  {
    assert Inv(s);
    RunKeepsInv(s, steps);
    assert HoldsLock(After(s, steps), w) && After(s, steps).lock == Some(w);
    assert After(s, steps).up;
  }

  /** Wherever the process dies, the next start counts the committed files exactly, leaves them
      alone, and keeps only the temporary files it could not delete. */
  lemma RestartRecovers(s: State, steps: seq<Step>, pid: nat, undeletable: set<TmpName>)
    requires Init(s) && IsRun(s, steps) && After(s, steps).up
    ensures var dead := Apply(After(s, steps), Crash(pid));
            var t := Apply(dead, Boot(undeletable));
            && Inv(t) && t.up && t.writers == map[] && t.lock == None && t.pid == pid && t.counter == 0
            && t.tracked == Total(t.files) && !t.disturbed && t.drift == 0
            && t.files == After(s, steps).files
            && t.temps.Keys == t.leaked == After(s, steps).temps.Keys * undeletable && t.abandoned == t.pending == {}
            && forall tmp | tmp in t.temps :: t.temps[tmp] == After(s, steps).temps[tmp]
  {
    assert Inv(s);
    RunKeepsInv(s, steps);
    var t := After(s, steps);
    CrashKeepsInv(t, pid);
    BootKeepsInv(Apply(t, Crash(pid)), undeletable);
  }

  /** A run in which the callers go through `put_full`, which encodes what it submits. */
  ghost predicate RecordsOnly(steps: seq<Step>) {
    forall i | 0 <= i < |steps| && steps[i].Spawn? :: IsRecord(steps[i].encoded)
  }

  ghost predicate IsRecord(content: seq<Byte>) {
    exists r :: Encodable(r) && content == EncodedRecord(r)
  }

  lemma {:induction false} SubmissionsAreRecords(s: State, steps: seq<Step>)
    requires IsRun(s, steps) && RecordsOnly(steps)
    requires forall x | x in s.submitted :: IsRecord(x.1)
    ensures forall x | x in After(s, steps).submitted :: IsRecord(x.1)
    decreases |steps|
  {
    if steps != [] {
      var next := Apply(s, steps[0]);
      forall x | x in next.submitted ensures IsRecord(x.1) {
        assert x in s.submitted || (steps[0].Spawn? && x == (steps[0].path, steps[0].encoded));
      }
      SubmissionsAreRecords(next, steps[1..]);
    }
  }

  /** A reader never meets a half-written record: what a run has put at a path decodes to a record. */
  lemma CommittedFilesDecode(s: State, steps: seq<Step>, p: Path)
    requires Init(s) && s.submitted == {} && IsRun(s, steps) && RecordsOnly(steps)
    requires p in After(s, steps).files && |After(s, steps).files[p]| <= 0x7FFF_FFFF_FFFF_FFFF
    requires p !in s.files || After(s, steps).files[p] != s.files[p]
    ensures var data := After(s, steps).files[p];
            exists r :: Encodable(r) && data == EncodedRecord(r) && DecodeRecord(data) == Some(r)
  {
    CommitsAreSafe(s, steps);
    SubmissionsAreRecords(s, steps);
    PreexistingIsConstant(s, steps);
    var data := After(s, steps).files[p];
    assert IsRecord((p, data).1);
    var r :| Encodable(r) && data == EncodedRecord(r);
    assert MAGIC <= data;
    DecodesExactlyEncodings(data, r);
  }

  lemma {:induction false} PreexistingIsConstant(s: State, steps: seq<Step>)
    requires IsRun(s, steps)
    ensures After(s, steps).preexisting == s.preexisting
    decreases |steps|
  {
    if steps != [] {
      PreexistingIsConstant(Apply(s, steps[0]), steps[1..]);
    }
  }
}
