/** What an execution answers, whatever other processes do, whichever calls fail and whatever the evidence says by then:
    every file it counts has been moved safely, a completed one has moved them all and recorded it, and a changed group
    is refused untouched. */
module ExecutionAnswers {
  import opened Wrappers
  import opened Text
  import opened FileSystem
  import opened Paths
  import opened Manifest
  import opened Quarantine
  import opened QuarantineRuns
  import opened OperationSetup
  import Service = QuarantineService

  /** The state after the first k steps of a run. */
  function DiskAt(d: Disk, trace: seq<Disk>, k: nat): Disk
    requires k <= |trace|
  {
    if k == 0 then d else trace[k - 1]
  }

  /** Between two states of the run this move was made safely. */
  ghost predicate MovedWithin(o: Oracle, d: Disk, trace: seq<Disk>, t: MoveTask) {
    exists a: nat, b: nat :: a <= b <= |trace| && MovedBetween(o, DiskAt(d, trace, a).fs, DiskAt(d, trace, b).fs, t)
  }

  ghost predicate MovedBetween(o: Oracle, before: Fs, after: Fs, t: MoveTask) {
    var ready := PrepareMove(o, before, t);
    ready.Some? && SafelyMoved(o, before, after, t, ready.value)
  }

  lemma MovedLater(o: Oracle, d: Disk, first: seq<Disk>, rest: seq<Disk>, t: MoveTask)
    requires MovedWithin(o, LastDisk(d, first), rest, t)
    ensures MovedWithin(o, d, first + rest, t)
  {
    hide MovedBetween;
    var here := LastDisk(d, first);
    var a: nat, b: nat :|
      a <= b <= |rest| && MovedBetween(o, DiskAt(here, rest, a).fs, DiskAt(here, rest, b).fs, t);
    assert DiskAt(d, first + rest, |first| + a) == DiskAt(here, rest, a);
    assert DiskAt(d, first + rest, |first| + b) == DiskAt(here, rest, b);
  }

  lemma MovedEarlier(o: Oracle, d: Disk, first: seq<Disk>, rest: seq<Disk>, t: MoveTask)
    requires MovedWithin(o, d, first, t)
    ensures MovedWithin(o, d, first + rest, t)
  {
    hide MovedBetween;
    var a: nat, b: nat :|
      a <= b <= |first| && MovedBetween(o, DiskAt(d, first, a).fs, DiskAt(d, first, b).fs, t);
    assert DiskAt(d, first + rest, a) == DiskAt(d, first, a) && DiskAt(d, first + rest, b) == DiskAt(d, first, b);
  }

  lemma OneMove(o: Oracle, d: Disk, t: MoveTask, x: Interference)
    requires Sane(d.fs)
    ensures var run := MoveOne(o, d.fs, t, x);
            && Sane(Last(d.fs, run.trace))
            && LastDisk(d, Lift(d, run.trace)) == Disk(Last(d.fs, run.trace), d.manifests)
            && (run.outcome.Moved? ==> MovedWithin(o, d, Lift(d, run.trace), t))
  {
    hide MoveOne, SafelyMoved, PrepareMove, Sane;
    var run := MoveOne(o, d.fs, t, x);
    MoveContract(o, d.fs, t, x);
    MoveSteps(o, d.fs, t, x);
    RunEvolves(d.fs, run.trace);
    Service.LiftEnds(d, run.trace);
    var lifted := Lift(d, run.trace);
    assert DiskAt(d, lifted, 0) == d && DiskAt(d, lifted, |lifted|) == LastDisk(d, lifted);
  }

  /** The same move, whatever progress the manifest records. */
  lemma SameTask(plan: Plan, site: Site, m: OperationManifest, i: nat, k: nat, state: FileState, now: nat)
    requires Loaded(plan.evidence) && i < |m.files| && k < |m.files|
    requires |m.files| == |Movers(plan.evidence.members, plan.evidence.keeperOrdinal)|
    ensures MoveTaskFor(plan, site, Stamp(SetState(m, i, state), now), k) == MoveTaskFor(plan, site, m, k)
  {
  }

  lemma TurnMoves(o: Oracle, d: Disk, plan: Plan, site: Site, m: OperationManifest, i: nat, x: Adversary)
    requires Loaded(plan.evidence) && Sane(d.fs)
    requires i < |m.files| == |Movers(plan.evidence.members, plan.evidence.keeperOrdinal)|
    ensures var t := MoveTaskFor(plan, site, m, i);
            var move := MoveOne(o, d.fs, t, x.moves(i));
            var w := Write(LastDisk(d, Lift(d, move.trace)), site.opDir, AfterMove(m, i, move.outcome), x, i + 2);
            && (move.outcome.Moved? ==> MovedWithin(o, d, Lift(d, move.trace), t))
            && (w.Some? ==> Sane(w.value.fs))
  {
    hide MoveOne, Sane, Loaded, MoveTaskFor, AfterMove, Stamp, ValidManifest;
    OneMove(o, d, MoveTaskFor(plan, site, m, i), x.moves(i));
  }

  /** Every file an execution counts has been moved safely at some point of its run. */
  lemma {:induction false} CountedAreMoved(o: Oracle, d: Disk, plan: Plan, site: Site, m: OperationManifest, i: nat,
                                           x: Adversary)
    requires Loaded(plan.evidence) && Sane(d.fs)
    requires i <= |m.files| == |Movers(plan.evidence.members, plan.evidence.keeperOrdinal)|
    ensures var run := ExecFrom(o, d, plan, site, m, i, x);
            && i <= run.moved <= |m.files|
            && (forall k: nat :: i <= k < run.moved ==> MovedWithin(o, d, run.trace, MoveTaskFor(plan, site, m, k)))
            && (run.end == Completed <==> run.moved == |m.files| && run.end != WriteStopped)
            && run.end in {Completed, MoveStopped, WriteStopped}
    decreases |m.files| - i
  {
    hide ExecFrom, MoveOne, Write, Sane, Loaded, MoveTaskFor, MovedWithin, Movers, Lift, AfterMove;
    var run := ExecFrom(o, d, plan, site, m, i, x);
    if i == |m.files| {
      Service.ExecFromCloses(o, d, plan, site, m, x);
    } else {
      Service.ExecFromNext(o, d, plan, site, m, i, x);
      TurnMoves(o, d, plan, site, m, i, x);
      var t := MoveTaskFor(plan, site, m, i);
      var move := MoveOne(o, d.fs, t, x.moves(i));
      var moved := Lift(d, move.trace);
      var after := AfterMove(m, i, move.outcome);
      var w := Write(LastDisk(d, moved), site.opDir, after, x, i + 2);
      if w.Some? && move.outcome.Moved? && !x.syncFails(i + 2) {
        AfterMoved(m, i, move.outcome);
        var next := Stamp(after, x.now(i + 2));
        CountedAreMoved(o, w.value, plan, site, next, i + 1, x);
        var rest := ExecFrom(o, w.value, plan, site, next, i + 1, x);
        assert LastDisk(d, moved + [w.value]) == w.value;
        forall k: nat | i <= k < rest.moved
          ensures MovedWithin(o, d, (moved + [w.value]) + rest.trace, MoveTaskFor(plan, site, m, k))
        {
          if k == i {
            MovedEarlier(o, d, moved, [w.value] + rest.trace, t);
            assert moved + ([w.value] + rest.trace) == (moved + [w.value]) + rest.trace;
          } else {
            SameTask(plan, site, m, i, k, Quarantined, x.now(i + 2));
            MovedLater(o, d, moved + [w.value], rest.trace, MoveTaskFor(plan, site, m, k));
          }
        }
      }
    }
  }

  lemma AfterMoved(m: OperationManifest, i: nat, outcome: MoveOutcome)
    requires i < |m.files| && outcome.Moved?
    ensures AfterMove(m, i, outcome) == SetState(m, i, Quarantined)
    ensures |AfterMove(m, i, outcome).files| == |m.files|
    ensures Shape(m.files, 0, i) ==> Shape(AfterMove(m, i, outcome).files, 0, i + 1)
    ensures SameOperation(m, AfterMove(m, i, outcome))
  {
  }

  // ---------------------------------------------------------- completion

  /** A valid manifest of this operation says that every file is in quarantine. */
  ghost predicate AllRecorded(d: Disk, opDir: DirId, m: OperationManifest) {
    && opDir in d.manifests && SameOperation(m, d.manifests[opDir])
    && ValidManifest(d.manifests[opDir], m.operationId)
    && d.manifests[opDir].status == AllQuarantined && Shape(d.manifests[opDir].files, 0, |m.files|)
  }

  lemma SameOperationOn(a: OperationManifest, b: OperationManifest, c: OperationManifest, now: nat)
    requires SameOperation(a, b) && SameOperation(Stamp(b, now), c)
    ensures SameOperation(a, c)
  {
    forall i | 0 <= i < |a.files|
      ensures a.files[i].(state := c.files[i].state) == c.files[i]
    {
      assert a.files[i].(state := b.files[i].state) == b.files[i];
      assert Stamp(b, now).files[i].(state := c.files[i].state) == c.files[i];
    }
  }

  lemma ClosingRecords(d: Disk, opDir: DirId, m: OperationManifest, x: Adversary, index: nat)
    requires Shape(m.files, 0, |m.files|)
    ensures var w := Write(d, opDir, m.(status := AllQuarantined), x, index); w.Some? ==> AllRecorded(w.value, opDir, m)
  {
    hide ValidManifest;
  }

  /** A completed execution ends with everything recorded and the root where it was. */
  lemma {:induction false} CompletedRecords(o: Oracle, d: Disk, plan: Plan, site: Site, m: OperationManifest, i: nat,
                                            x: Adversary)
    requires Loaded(plan.evidence) && Shape(m.files, 0, i)
    requires i <= |m.files| == |Movers(plan.evidence.members, plan.evidence.keeperOrdinal)|
    ensures var run := ExecFrom(o, d, plan, site, m, i, x);
            run.end == Completed ==>
              && AllRecorded(LastDisk(d, run.trace), site.opDir, m)
              && Walk(LastDisk(d, run.trace).fs, LastDisk(d, run.trace).fs.slash, site.root.selected)
                 == Some(site.root.dir)
    decreases |m.files| - i
  {
    hide ExecFrom, MoveOne, Write, Loaded, MoveTaskFor, Movers, Lift, AfterMove, Shape, AllRecorded, SameOperation;
    var run := ExecFrom(o, d, plan, site, m, i, x);
    if i == |m.files| {
      Service.ExecFromCloses(o, d, plan, site, m, x);
      ClosingRecords(d, site.opDir, m, x, i + 2);
      Service.WriteKeepsFiles(d, site.opDir, m.(status := AllQuarantined), x, i + 2);
    } else {
      Service.ExecFromNext(o, d, plan, site, m, i, x);
      var move := MoveOne(o, d.fs, MoveTaskFor(plan, site, m, i), x.moves(i));
      var moved := Lift(d, move.trace);
      var after := AfterMove(m, i, move.outcome);
      var w := Write(LastDisk(d, moved), site.opDir, after, x, i + 2);
      if w.Some? && move.outcome.Moved? && !x.syncFails(i + 2) {
        AfterMoved(m, i, move.outcome);
        var next := Stamp(after, x.now(i + 2));
        StampShape(after, x.now(i + 2), i + 1);
        CompletedRecords(o, w.value, plan, site, next, i + 1, x);
        var rest := ExecFrom(o, w.value, plan, site, next, i + 1, x).trace;
        assert LastDisk(d, (moved + [w.value]) + rest) == LastDisk(w.value, rest);
        if run.end == Completed {
          RecordedEarlier(LastDisk(d, run.trace), site.opDir, m, after, x.now(i + 2));
        }
      }
    }
  }

  lemma StampShape(m: OperationManifest, now: nat, i: nat)
    requires Shape(m.files, 0, i)
    ensures Shape(Stamp(m, now).files, 0, i) && |Stamp(m, now).files| == |m.files|
  {
  }

  lemma RecordedEarlier(d: Disk, opDir: DirId, m: OperationManifest, after: OperationManifest, now: nat)
    requires SameOperation(m, after) && AllRecorded(d, opDir, Stamp(after, now))
    ensures AllRecorded(d, opDir, m)
  {
    SameOperationOn(m, after, d.manifests[opDir], now);
    hide ValidManifest;
  }

  // ------------------------------------------------------------ stopping

  /** A clock reading a manifest of this operation can carry. */
  predicate Readable(m: OperationManifest, now: nat) {
    IsU64Text(m.created) && ParseCanonicalU64(m.created).value <= now <= U64_MAX
  }

  /** The manifest asks for recovery, and calls quarantined the k files before the one that failed, and that one too if
      it is known to be in quarantine. */
  ghost predicate FailureRecorded(d: Disk, opDir: DirId, m: OperationManifest, k: nat, outcome: MoveOutcome) {
    && opDir in d.manifests && d.manifests[opDir].status == NeedsRecovery && |d.manifests[opDir].files| == |m.files|
    && forall j :: 0 <= j < |m.files| ==>
         d.manifests[opDir].files[j].state
         == if j < k || (j == k && outcome.MoveFailed? && outcome.committedInQuarantine) then Quarantined else Planned
  }

  /** In some state of the run the k-th move was tried and failed, and if a manifest could be written this was
      recorded. */
  ghost predicate StoppedWithin(o: Oracle, d: Disk, trace: seq<Disk>, opDir: DirId, m: OperationManifest, t: MoveTask,
                                k: nat, x: Adversary) {
    exists a: nat :: a <= |trace| && FailedThere(o, DiskAt(d, trace, a).fs, LastDisk(d, trace), opDir, m, t, k, x)
  }

  ghost predicate FailedThere(o: Oracle, fs: Fs, last: Disk, opDir: DirId, m: OperationManifest, t: MoveTask, k: nat,
                              x: Adversary) {
    var outcome := MoveOne(o, fs, t, x.moves(k)).outcome;
    && !outcome.Moved?
    && (!x.writeFails(k + 2) && Readable(m, x.now(k + 2)) ==> FailureRecorded(last, opDir, m, k, outcome))
  }

  lemma StoppedLater(o: Oracle, d: Disk, first: seq<Disk>, rest: seq<Disk>, opDir: DirId, m: OperationManifest,
                     t: MoveTask, k: nat, x: Adversary)
    requires StoppedWithin(o, LastDisk(d, first), rest, opDir, m, t, k, x)
    ensures StoppedWithin(o, d, first + rest, opDir, m, t, k, x)
  {
    hide FailedThere;
    var here := LastDisk(d, first);
    var a: nat :| a <= |rest| && FailedThere(o, DiskAt(here, rest, a).fs, LastDisk(here, rest), opDir, m, t, k, x);
    assert DiskAt(d, first + rest, |first| + a) == DiskAt(here, rest, a);
    assert LastDisk(d, first + rest) == LastDisk(here, rest);
  }

  lemma SameStop(o: Oracle, d: Disk, trace: seq<Disk>, opDir: DirId, m: OperationManifest, n: OperationManifest,
                 t: MoveTask, k: nat, x: Adversary)
    requires |m.files| == |n.files| && m.created == n.created && StoppedWithin(o, d, trace, opDir, n, t, k, x)
    ensures StoppedWithin(o, d, trace, opDir, m, t, k, x)
  {
    hide MoveOne;
    var a: nat :| a <= |trace| && FailedThere(o, DiskAt(d, trace, a).fs, LastDisk(d, trace), opDir, n, t, k, x);
    assert FailedThere(o, DiskAt(d, trace, a).fs, LastDisk(d, trace), opDir, m, t, k, x);
  }

  /** The manifest a loop works on: valid, of a running operation, the first i files recorded. */
  predicate InProgress(m: OperationManifest, i: nat) {
    i <= |m.files| && ValidManifest(m, m.operationId) && m.status == Quarantining && Shape(m.files, 0, i)
  }

  lemma FailureShown(m: OperationManifest, i: nat, outcome: MoveOutcome)
    requires InProgress(m, i) && i < |m.files| && !outcome.Moved?
    ensures var after := AfterMove(m, i, outcome);
            && SameOperation(m, after) && KnownStates(after) && after.status == NeedsRecovery
            && forall j :: 0 <= j < |m.files| ==>
                 after.files[j].state
                 == if j < i || (j == i && outcome.MoveFailed? && outcome.committedInQuarantine) then Quarantined
                    else Planned
  {
    hide ValidManifest;
  }

  lemma FailureIsWritten(d: Disk, opDir: DirId, m: OperationManifest, i: nat, outcome: MoveOutcome, x: Adversary)
    requires InProgress(m, i) && i < |m.files| && !outcome.Moved?
    ensures var w := Write(d, opDir, AfterMove(m, i, outcome), x, i + 2);
            && (!x.writeFails(i + 2) && Readable(m, x.now(i + 2)) ==> w.Some?)
            && (w.Some? ==> FailureRecorded(w.value, opDir, m, i, outcome))
  {
    FailureShown(m, i, outcome);
    var after := AfterMove(m, i, outcome);
    hide AfterMove, ValidManifest, SameOperation, KnownStates, Shape;
    if Readable(m, x.now(i + 2)) {
      UpdateValid(m, after, x.now(i + 2));
    }
  }

  lemma ProgressGoesOn(d: Disk, opDir: DirId, m: OperationManifest, i: nat, x: Adversary)
    requires InProgress(m, i) && i < |m.files|
    ensures var after := SetState(m, i, Quarantined);
            Write(d, opDir, after, x, i + 2).Some? ==> InProgress(Stamp(after, x.now(i + 2)), i + 1)
  {
    hide ValidManifest;
  }

  /** An execution that stops at a failed move has tried it, and records what it knows of it. */
  lemma {:induction false} StoppedIsRecorded(o: Oracle, d: Disk, plan: Plan, site: Site, m: OperationManifest, i: nat,
                                             x: Adversary)
    requires Loaded(plan.evidence) && InProgress(m, i)
    requires i <= |m.files| == |Movers(plan.evidence.members, plan.evidence.keeperOrdinal)|
    ensures var run := ExecFrom(o, d, plan, site, m, i, x);
            run.end == MoveStopped ==>
              && run.moved < |m.files|
              && StoppedWithin(o, d, run.trace, site.opDir, m, MoveTaskFor(plan, site, m, run.moved), run.moved, x)
    decreases |m.files| - i
  {
    hide ExecFrom, MoveOne, Write, Loaded, MoveTaskFor, Movers, Lift, AfterMove, InProgress, StoppedWithin;
    var run := ExecFrom(o, d, plan, site, m, i, x);
    if i == |m.files| {
      Service.ExecFromCloses(o, d, plan, site, m, x);
    } else {
      Service.ExecFromNext(o, d, plan, site, m, i, x);
      var t := MoveTaskFor(plan, site, m, i);
      var move := MoveOne(o, d.fs, t, x.moves(i));
      var moved := Lift(d, move.trace);
      var after := AfterMove(m, i, move.outcome);
      var w := Write(LastDisk(d, moved), site.opDir, after, x, i + 2);
      if !move.outcome.Moved? {
        FailureIsWritten(LastDisk(d, moved), site.opDir, m, i, move.outcome, x);
        StopsHere(o, d, run.trace, site.opDir, m, t, i, x);
      } else if w.Some? && !x.syncFails(i + 2) {
        AfterMoved(m, i, move.outcome);
        ProgressGoesOn(LastDisk(d, moved), site.opDir, m, i, x);
        var next := Stamp(after, x.now(i + 2));
        StoppedIsRecorded(o, w.value, plan, site, next, i + 1, x);
        if run.end == MoveStopped {
          SameTask(plan, site, m, i, run.moved, Quarantined, x.now(i + 2));
          var task := MoveTaskFor(plan, site, m, run.moved);
          var rest := ExecFrom(o, w.value, plan, site, next, i + 1, x).trace;
          assert LastDisk(d, moved + [w.value]) == w.value;
          StoppedLater(o, d, moved + [w.value], rest, site.opDir, next, task, run.moved, x);
          SameStop(o, d, run.trace, site.opDir, m, next, task, run.moved, x);
        }
      }
    }
  }

  lemma StopsHere(o: Oracle, d: Disk, trace: seq<Disk>, opDir: DirId, m: OperationManifest, t: MoveTask, k: nat,
                  x: Adversary)
    requires var outcome := MoveOne(o, d.fs, t, x.moves(k)).outcome;
             && !outcome.Moved?
             && (!x.writeFails(k + 2) && Readable(m, x.now(k + 2)) ==>
                   FailureRecorded(LastDisk(d, trace), opDir, m, k, outcome))
    ensures StoppedWithin(o, d, trace, opDir, m, t, k, x)
  {
    hide MoveOne, FailureRecorded, Readable;
    assert DiskAt(d, trace, 0) == d;
    assert FailedThere(o, DiskAt(d, trace, 0).fs, LastDisk(d, trace), opDir, m, t, k, x);
  }

  // ------------------------------------------------------- the whole run

  /** The move of the k-th mover in the operation this run sets up. */
  function RunTask(o: Oracle, d: Disk, plan: Plan, x: Adversary, k: nat): MoveTask
    requires Loaded(plan.evidence) && k < |MoversOf(plan)|
  {
    MoversNonNegative(plan.evidence);
    var sc := SceneOfRun(o, d, plan, x);
    MoveTask(plan.root, KeeperOf(plan.evidence), MoversOf(plan)[k], sc.site.filesDir, plan.operationId,
             MemberName(MoversOf(plan)[k].ordinal), plan.digest)
  }

  /** The evidence was read again and the group checked again, and neither had changed. */
  ghost predicate Confirmed(o: Oracle, d: Disk, plan: Plan, current: GroupEvidence)
    requires Loaded(plan.evidence)
  {
    current == plan.evidence && ValidateGroup(o, d.fs, plan.root, plan.evidence) == Some(plan.digest)
  }

  /** A changed group is refused before anything is touched. */
  lemma ChangedGroupIsRefused(o: Oracle, d: Disk, plan: Plan, current: GroupEvidence, x: Adversary)
    requires Loaded(plan.evidence) && !Confirmed(o, d, plan, current)
    ensures ExecPlan(o, d, plan, current, x) == ExecRun([], 0, Refused)
  {
    hide ValidateGroup, ExecFrom, FilesDirRun, OperationDirRun, Write, FromPlan, Loaded;
  }

  /** The run gets as far as its loop, on the scene it sets up. */
  ghost predicate Loops(o: Oracle, d: Disk, plan: Plan, current: GroupEvidence, x: Adversary)
    requires Loaded(plan.evidence)
  {
    var sc := SceneOfRun(o, d, plan, x);
    var made := Lift(d, FilesDirRun(d.fs, plan.root, plan.operationId, x).trace);
    var w := Write(LastDisk(d, made), sc.site.opDir, sc.template, x, 1);
    var m := Stamp(sc.template, x.now(1));
    && Confirmed(o, d, plan, current) && w.Some? && |m.files| == |MoversOf(plan)|
    && var rest := ExecFrom(o, w.value, plan, sc.site, m, 0, x);
       ExecPlan(o, d, plan, current, x) == ExecRun((made + [w.value]) + rest.trace, rest.moved, rest.end)
  }

  /** A run that does not get there counts nothing and does not claim completion. */
  lemma LoopsOrStops(o: Oracle, d: Disk, plan: Plan, current: GroupEvidence, x: Adversary)
    requires Loaded(plan.evidence)
    ensures var run := ExecPlan(o, d, plan, current, x);
            var made := Lift(d, FilesDirRun(d.fs, plan.root, plan.operationId, x).trace);
            || Loops(o, d, plan, current, x)
            || (&& run.moved == 0 && run.end in {Refused, WriteStopped}
                && (run.end == Refused ==> run.trace == [] || run.trace == made))
  {
    MoversNonNegative(plan.evidence);
    hide Write, FilesDirRun, OperationDirRun, ValidateGroup, ExecFrom, StableBinding, Loaded, Lift;
  }

  lemma FirstTask(o: Oracle, d: Disk, plan: Plan, x: Adversary, k: nat)
    requires Loaded(plan.evidence) && k < |MoversOf(plan)|
    requires |Stamp(SceneOfRun(o, d, plan, x).template, x.now(1)).files| == |MoversOf(plan)|
    ensures MoveTaskFor(plan, SceneOfRun(o, d, plan, x).site, Stamp(SceneOfRun(o, d, plan, x).template, x.now(1)), k)
            == RunTask(o, d, plan, x, k)
  {
    MoversNonNegative(plan.evidence);
    hide FilesDirRun, OperationDirRun;
  }

  lemma SetUpSane(d: Disk, plan: Plan, x: Adversary)
    requires Sane(d.fs)
    ensures var trace := FilesDirRun(d.fs, plan.root, plan.operationId, x).trace;
            LastDisk(d, Lift(d, trace)) == Disk(Last(d.fs, trace), d.manifests) && Sane(Last(d.fs, trace))
  {
    SetupMade(d.fs, plan.root, plan.operationId, x);
    Service.LiftEnds(d, FilesDirRun(d.fs, plan.root, plan.operationId, x).trace);
    hide FilesDirRun, OperationDirRun, Walk, EmptyDir, AllGrown;
  }

  /** The loop, started on the first manifest. */
  lemma LoopFromStart(o: Oracle, d: Disk, plan: Plan, x: Adversary, w: Disk)
    requires Sane(w.fs) && Loaded(plan.evidence)
    requires ValidManifest(Stamp(SceneOfRun(o, d, plan, x).template, x.now(1)), plan.operationId)
    ensures var sc := SceneOfRun(o, d, plan, x);
            var m := Stamp(sc.template, x.now(1));
            && |m.files| == |MoversOf(plan)|
            && var rest := ExecFrom(o, w, plan, sc.site, m, 0, x);
               && rest.moved <= |MoversOf(plan)| && rest.end in {Completed, MoveStopped, WriteStopped}
               && (forall k: nat :: k < rest.moved ==> MovedWithin(o, w, rest.trace, RunTask(o, d, plan, x, k)))
               && (rest.end == Completed ==>
                     && rest.moved == |MoversOf(plan)|
                     && AllRecorded(LastDisk(w, rest.trace), sc.site.opDir, sc.template))
               && (rest.end == MoveStopped ==>
                     && rest.moved < |MoversOf(plan)|
                     && StoppedWithin(o, w, rest.trace, sc.site.opDir, sc.template, RunTask(o, d, plan, x, rest.moved),
                                      rest.moved, x))
  {
    LoopMoves(o, d, plan, x, w);
    LoopStops(o, d, plan, x, w);
    LoopRecords(o, d, plan, x, w);
    hide ExecFrom, Sane, Loaded, SceneOfRun, MovedWithin, RunTask, MoveTaskFor, AllRecorded, StoppedWithin;
  }

  lemma LoopRecords(o: Oracle, d: Disk, plan: Plan, x: Adversary, w: Disk)
    requires Sane(w.fs) && Loaded(plan.evidence)
    requires ValidManifest(Stamp(SceneOfRun(o, d, plan, x).template, x.now(1)), plan.operationId)
    ensures var sc := SceneOfRun(o, d, plan, x);
            var rest := ExecFrom(o, w, plan, sc.site, Stamp(sc.template, x.now(1)), 0, x);
            rest.end == Completed ==> AllRecorded(LastDisk(w, rest.trace), sc.site.opDir, sc.template)
  {
    hide ExecFrom, Sane, Loaded, SceneOfRun, AllRecorded, Shape, SameOperation, Movers, ValidManifest;
    SceneTemplate(o, d, plan, x);
    var sc := SceneOfRun(o, d, plan, x);
    var m := Stamp(sc.template, x.now(1));
    CompletedRecords(o, w, plan, sc.site, m, 0, x);
    var rest := ExecFrom(o, w, plan, sc.site, m, 0, x);
    if rest.end == Completed {
      RecordedEarlier(LastDisk(w, rest.trace), sc.site.opDir, sc.template, sc.template, x.now(1));
    }
  }

  lemma LoopMoves(o: Oracle, d: Disk, plan: Plan, x: Adversary, w: Disk)
    requires Sane(w.fs) && Loaded(plan.evidence)
    requires ValidManifest(Stamp(SceneOfRun(o, d, plan, x).template, x.now(1)), plan.operationId)
    ensures var sc := SceneOfRun(o, d, plan, x);
            var m := Stamp(sc.template, x.now(1));
            && |m.files| == |MoversOf(plan)|
            && var rest := ExecFrom(o, w, plan, sc.site, m, 0, x);
               && rest.moved <= |MoversOf(plan)| && rest.end in {Completed, MoveStopped, WriteStopped}
               && (rest.end == Completed ==> rest.moved == |MoversOf(plan)|)
               && forall k: nat :: k < rest.moved ==> MovedWithin(o, w, rest.trace, RunTask(o, d, plan, x, k))
  {
    SceneTemplate(o, d, plan, x);
    hide ExecFrom, Sane, Loaded, SceneOfRun, MovedWithin, RunTask, MoveTaskFor, Shape, SameOperation;
    var sc := SceneOfRun(o, d, plan, x);
    var m := Stamp(sc.template, x.now(1));
    CountedAreMoved(o, w, plan, sc.site, m, 0, x);
    var rest := ExecFrom(o, w, plan, sc.site, m, 0, x);
    forall k: nat | k < rest.moved
      ensures MovedWithin(o, w, rest.trace, RunTask(o, d, plan, x, k))
    {
      FirstTask(o, d, plan, x, k);
    }
  }

  lemma LoopStops(o: Oracle, d: Disk, plan: Plan, x: Adversary, w: Disk)
    requires Sane(w.fs) && Loaded(plan.evidence)
    requires ValidManifest(Stamp(SceneOfRun(o, d, plan, x).template, x.now(1)), plan.operationId)
    ensures var sc := SceneOfRun(o, d, plan, x);
            var m := Stamp(sc.template, x.now(1));
            && |m.files| == |MoversOf(plan)|
            && var rest := ExecFrom(o, w, plan, sc.site, m, 0, x);
               rest.end == MoveStopped ==>
                 && rest.moved < |MoversOf(plan)|
                 && StoppedWithin(o, w, rest.trace, sc.site.opDir, sc.template, RunTask(o, d, plan, x, rest.moved),
                                  rest.moved, x)
  {
    SceneTemplate(o, d, plan, x);
    hide ExecFrom, Sane, Loaded, SceneOfRun, RunTask, MoveTaskFor, Shape, SameOperation, StoppedWithin, InProgress;
    var sc := SceneOfRun(o, d, plan, x);
    var m := Stamp(sc.template, x.now(1));
    StartsInProgress(o, d, plan, x);
    StoppedIsRecorded(o, w, plan, sc.site, m, 0, x);
    var rest := ExecFrom(o, w, plan, sc.site, m, 0, x);
    if rest.end == MoveStopped {
      FirstTask(o, d, plan, x, rest.moved);
      SameStop(o, w, rest.trace, sc.site.opDir, sc.template, m, RunTask(o, d, plan, x, rest.moved), rest.moved, x);
    }
  }

  lemma LoopAnswers(o: Oracle, d: Disk, plan: Plan, current: GroupEvidence, x: Adversary)
    requires Sane(d.fs) && Loaded(plan.evidence) && Loops(o, d, plan, current, x)
    ensures var run := ExecPlan(o, d, plan, current, x);
            var sc := SceneOfRun(o, d, plan, x);
            && run.moved <= |MoversOf(plan)| && run.end != Refused
            && (forall k: nat :: k < run.moved ==> MovedWithin(o, d, run.trace, RunTask(o, d, plan, x, k)))
            && (run.end == Completed ==>
                  run.moved == |MoversOf(plan)| && AllRecorded(LastDisk(d, run.trace), sc.site.opDir, sc.template))
            && (run.end == MoveStopped ==>
                  && run.moved < |MoversOf(plan)|
                  && StoppedWithin(o, d, run.trace, sc.site.opDir, sc.template, RunTask(o, d, plan, x, run.moved),
                                   run.moved, x))
  {
    hide ExecPlan, ExecFrom, Sane, Loaded, SceneOfRun, MovedWithin, RunTask, AllRecorded, Loops, StoppedWithin;
    var first, w := UpToLoop(o, d, plan, current, x);
    LoopFromStart(o, d, plan, x, w);
    var sc := SceneOfRun(o, d, plan, x);
    var rest := ExecFrom(o, w, plan, sc.site, Stamp(sc.template, x.now(1)), 0, x);
    TasksLater(o, d, plan, x, first, rest);
    if rest.end == MoveStopped {
      StoppedLater(o, d, first, rest.trace, sc.site.opDir, sc.template, RunTask(o, d, plan, x, rest.moved), rest.moved,
                   x);
    }
  }

  /** What happens before the loop, and the state it starts in. */
  lemma UpToLoop(o: Oracle, d: Disk, plan: Plan, current: GroupEvidence, x: Adversary)
    returns (first: seq<Disk>, w: Disk)
    requires Sane(d.fs) && Loaded(plan.evidence) && Loops(o, d, plan, current, x)
    ensures Sane(w.fs) && LastDisk(d, first) == w
    ensures ValidManifest(Stamp(SceneOfRun(o, d, plan, x).template, x.now(1)), plan.operationId)
    ensures var sc := SceneOfRun(o, d, plan, x);
            var m := Stamp(sc.template, x.now(1));
            && |m.files| == |MoversOf(plan)|
            && var rest := ExecFrom(o, w, plan, sc.site, m, 0, x);
               ExecPlan(o, d, plan, current, x) == ExecRun(first + rest.trace, rest.moved, rest.end)
  {
    hide ExecPlan, ExecFrom, Write, Sane, Loaded, SceneOfRun, Confirmed, FilesDirRun, Lift, MoversOf;
    SetUpSane(d, plan, x);
    var sc := SceneOfRun(o, d, plan, x);
    var made := Lift(d, FilesDirRun(d.fs, plan.root, plan.operationId, x).trace);
    w := Write(LastDisk(d, made), sc.site.opDir, sc.template, x, 1).value;
    Service.WriteKeepsFiles(LastDisk(d, made), sc.site.opDir, sc.template, x, 1);
    WrittenIs(LastDisk(d, made), sc.site.opDir, sc.template, x, 1);
    first := made + [w];
    assert ValidManifest(Stamp(sc.template, x.now(1)), plan.operationId) by {
      FirstIsValid(o, d, plan, x, LastDisk(d, made));
    }
  }

  lemma FirstIsValid(o: Oracle, d: Disk, plan: Plan, x: Adversary, here: Disk)
    requires Loaded(plan.evidence)
    requires var sc := SceneOfRun(o, d, plan, x); Write(here, sc.site.opDir, sc.template, x, 1).Some?
    ensures ValidManifest(Stamp(SceneOfRun(o, d, plan, x).template, x.now(1)), plan.operationId)
  {
    hide ValidManifest, FilesDirRun, OperationDirRun;
  }

  lemma TasksLater(o: Oracle, d: Disk, plan: Plan, x: Adversary, first: seq<Disk>, rest: ExecRun)
    requires Loaded(plan.evidence) && rest.moved <= |MoversOf(plan)|
    requires forall k: nat :: k < rest.moved ==>
               MovedWithin(o, LastDisk(d, first), rest.trace, RunTask(o, d, plan, x, k))
    ensures forall k: nat :: k < rest.moved ==> MovedWithin(o, d, first + rest.trace, RunTask(o, d, plan, x, k))
    ensures LastDisk(d, first + rest.trace) == LastDisk(LastDisk(d, first), rest.trace)
  {
    hide MovedWithin, RunTask, Loaded, MoversOf;
    forall k: nat | k < rest.moved
      ensures MovedWithin(o, d, first + rest.trace, RunTask(o, d, plan, x, k))
    {
      MovedLater(o, d, first, rest.trace, RunTask(o, d, plan, x, k));
    }
  }

  lemma WrittenIs(d: Disk, opDir: DirId, m: OperationManifest, x: Adversary, index: nat)
    requires Write(d, opDir, m, x, index).Some?
    ensures Written(d, opDir, m, x, index) == [Write(d, opDir, m, x, index).value]
    ensures LastDisk(d, Written(d, opDir, m, x, index)) == Write(d, opDir, m, x, index).value
  {
    hide ValidManifest;
  }

  lemma StartsInProgress(o: Oracle, d: Disk, plan: Plan, x: Adversary)
    requires Loaded(plan.evidence)
    requires ValidManifest(Stamp(SceneOfRun(o, d, plan, x).template, x.now(1)), plan.operationId)
    ensures InProgress(Stamp(SceneOfRun(o, d, plan, x).template, x.now(1)), 0)
  {
    SceneTemplate(o, d, plan, x);
    hide FilesDirRun, OperationDirRun;
  }

  lemma SceneTemplate(o: Oracle, d: Disk, plan: Plan, x: Adversary)
    requires Loaded(plan.evidence)
    ensures var m := SceneOfRun(o, d, plan, x).template;
            SameOperation(m, m) && Shape(Stamp(m, x.now(1)).files, 0, 0) && |m.files| == |MoversOf(plan)|
  {
    MoversNonNegative(plan.evidence);
    hide FilesDirRun, OperationDirRun;
  }

  /** What an execution answers, under any interference and with any call failing. Every file it counts has been moved
      safely. If it completed, the group was confirmed, every mover is counted, and at the end a valid manifest says
      that all are in quarantine. If it was refused, nothing is counted and no manifest has changed. */
  lemma ExecutionAnswersTruly(o: Oracle, d: Disk, plan: Plan, current: GroupEvidence, x: Adversary)
    requires Sane(d.fs) && Loaded(plan.evidence)
    ensures var run := ExecPlan(o, d, plan, current, x);
            var sc := SceneOfRun(o, d, plan, x);
            && run.moved <= |MoversOf(plan)|
            && (forall k: nat :: k < run.moved ==> MovedWithin(o, d, run.trace, RunTask(o, d, plan, x, k)))
            && (run.end == Completed ==>
                  && Confirmed(o, d, plan, current) && run.moved == |MoversOf(plan)|
                  && AllRecorded(LastDisk(d, run.trace), sc.site.opDir, sc.template))
            && (run.end == Refused ==>
                  run.moved == 0 && forall k :: 0 <= k < |run.trace| ==> run.trace[k].manifests == d.manifests)
            && (run.end == MoveStopped ==>
                  && run.moved < |MoversOf(plan)|
                  && StoppedWithin(o, d, run.trace, sc.site.opDir, sc.template, RunTask(o, d, plan, x, run.moved),
                                   run.moved, x))
  {
    LoopsOrStops(o, d, plan, current, x);
    SetUpSane(d, plan, x);
    hide ExecPlan, ExecFrom, Write, Sane, Loaded, SceneOfRun, MovedWithin, RunTask, AllRecorded, Confirmed, FilesDirRun,
         MoversOf, StoppedWithin;
    if Loops(o, d, plan, current, x) {
      LoopAnswers(o, d, plan, current, x);
    }
  }
}
