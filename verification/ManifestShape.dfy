/** What the manifests written by whole runs look like, whatever other processes do, whichever
    calls fail, whatever the clock says, and wherever the run stops or crashes. */
module ManifestShape {
  import opened Wrappers
  import opened Text
  import opened FileSystem
  import opened Manifest
  import opened Quarantine
  import opened QuarantineRuns

  function RestoredCount(m: OperationManifest): nat { CountState(m.files, Restored) }

  function QuarantinedCount(m: OperationManifest): nat { CountState(m.files, Quarantined) }

  /** Valid, ordered restored - quarantined - planned, and with a final status only when it is true. */
  predicate Orderly(m: OperationManifest, id: string) {
    && ValidManifest(m, id)
    && Shape(m.files, RestoredCount(m), QuarantinedCount(m))
    && (m.status.AllRestored? ==> RestoredCount(m) == |m.files|)
    && (m.status.AllQuarantined? ==> QuarantinedCount(m) == |m.files|)
  }

  ghost predicate OrderlyDisk(d: Disk, opDir: DirId, id: string, least: nat) {
    opDir in d.manifests && Orderly(d.manifests[opDir], id) && least <= RestoredCount(d.manifests[opDir])
  }

  ghost predicate OrderlyTrace(trace: seq<Disk>, opDir: DirId, id: string, least: nat) {
    forall k :: 0 <= k < |trace| ==> OrderlyDisk(trace[k], opDir, id, least)
  }

  /** The restored prefix never shrinks along the trace. */
  ghost predicate Climbing(trace: seq<Disk>, opDir: DirId, id: string)
    requires OrderlyTrace(trace, opDir, id, 0)
  {
    forall k, l :: 0 <= k <= l < |trace| ==>
      RestoredCount(trace[k].manifests[opDir]) <= RestoredCount(trace[l].manifests[opDir])
  }

  lemma OrderlyFromShape(m: OperationManifest, id: string, a: nat, b: nat)
    requires ValidManifest(m, id) && Shape(m.files, a, b)
    requires m.status.AllRestored? ==> a == |m.files|
    requires m.status.AllQuarantined? ==> b == |m.files|
    ensures Orderly(m, id) && RestoredCount(m) == a && QuarantinedCount(m) == b
  {
    ShapeCounts(m.files, a, b);
  }

  lemma OrderlyAppend(first: seq<Disk>, second: seq<Disk>, opDir: DirId, id: string, least: nat, bound: nat)
    requires OrderlyTrace(first, opDir, id, least) && Climbing(first, opDir, id)
    requires OrderlyTrace(second, opDir, id, bound) && Climbing(second, opDir, id) && least <= bound
    requires forall k :: 0 <= k < |first| ==> RestoredCount(first[k].manifests[opDir]) <= bound
    ensures OrderlyTrace(first + second, opDir, id, least) && Climbing(first + second, opDir, id)
  {
    hide Orderly, RestoredCount;
    var all := first + second;
    forall k | 0 <= k < |all|
      ensures OrderlyDisk(all[k], opDir, id, least)
    {
      if k >= |first| {
        assert OrderlyDisk(second[k - |first|], opDir, id, bound);
      } else {
        assert OrderlyDisk(first[k], opDir, id, least);
      }
    }
  }

  lemma OrderlyLift(d: Disk, trace: seq<Fs>, opDir: DirId, id: string, least: nat)
    requires OrderlyDisk(d, opDir, id, least)
    ensures OrderlyTrace(Lift(d, trace), opDir, id, least) && Climbing(Lift(d, trace), opDir, id)
    ensures LastDisk(d, Lift(d, trace)).manifests == d.manifests
  {
    forall k | 0 <= k < |trace|
      ensures OrderlyDisk(Lift(d, trace)[k], opDir, id, least)
    {
      assert Lift(d, trace)[k].manifests == d.manifests;
    }
  }

  // ------------------------------------------------------------ executing

  predicate NothingRestored(d: Disk, opDir: DirId) {
    opDir in d.manifests && RestoredCount(d.manifests[opDir]) == 0
  }

  lemma AfterMoveShape(m: OperationManifest, i: nat, outcome: MoveOutcome)
    requires i < |m.files| && Shape(m.files, 0, i)
    ensures var after := AfterMove(m, i, outcome);
            && |after.files| == |m.files| && after.operationId == m.operationId
            && (Shape(after.files, 0, i) || Shape(after.files, 0, i + 1))
            && (outcome.Moved? ==> Shape(after.files, 0, i + 1) && after.status == m.status)
            && (!outcome.Moved? ==> after.status == NeedsRecovery)
  {
  }

  lemma WriteOrderly(d: Disk, opDir: DirId, id: string, m: OperationManifest, x: Adversary, index: nat, a: nat, b: nat)
    requires m.operationId == id && Shape(m.files, a, b)
    requires m.status.AllRestored? ==> a == |m.files|
    requires m.status.AllQuarantined? ==> b == |m.files|
    ensures var w := Write(d, opDir, m, x, index);
            w.Some? ==> OrderlyDisk(w.value, opDir, id, a) && w.value.manifests[opDir] == Stamp(m, x.now(index))
                        && RestoredCount(w.value.manifests[opDir]) == a
  {
    var w := Write(d, opDir, m, x, index);
    if w.Some? {
      OrderlyFromShape(Stamp(m, x.now(index)), id, a, b);
    }
  }

  lemma {:induction false} ExecFromOrderly(o: Oracle, d: Disk, plan: Plan, site: Site, m: OperationManifest, i: nat,
                                           x: Adversary)
    requires Loaded(plan.evidence)
    requires i <= |m.files| == |Movers(plan.evidence.members, plan.evidence.keeperOrdinal)|
    requires m.operationId == plan.operationId && m.status == Quarantining && Shape(m.files, 0, i)
    requires OrderlyDisk(d, site.opDir, plan.operationId, 0) && NothingRestored(d, site.opDir)
    ensures OrderlyTrace(ExecFrom(o, d, plan, site, m, i, x).trace, site.opDir, plan.operationId, 0)
    ensures forall k :: 0 <= k < |ExecFrom(o, d, plan, site, m, i, x).trace| ==>
              NothingRestored(ExecFrom(o, d, plan, site, m, i, x).trace[k], site.opDir)
    decreases |m.files| - i
  {
    hide MoveOne, ValidManifest, Shape, Write, AfterMove, RestoredCount, Orderly, Lift;
    if i == |m.files| {
      WriteOrderly(d, site.opDir, plan.operationId, m.(status := AllQuarantined), x, i + 2, 0, i);
    } else {
      var move := MoveOne(o, d.fs, MoveTaskFor(plan, site, m, i), x.moves(i));
      var moved := Lift(d, move.trace);
      var after := AfterMove(m, i, move.outcome);
      OrderlyLift(d, move.trace, site.opDir, plan.operationId, 0);
      AfterMoveShape(m, i, move.outcome);
      var b := if Shape(after.files, 0, i + 1) then i + 1 else i;
      WriteOrderly(LastDisk(d, moved), site.opDir, plan.operationId, after, x, i + 2, 0, b);
      var w := Write(LastDisk(d, moved), site.opDir, after, x, i + 2);
      if w.Some? && move.outcome.Moved? && !x.syncFails(i + 2) {
        ExecFromOrderly(o, w.value, plan, site, Stamp(after, x.now(i + 2)), i + 1, x);
      }
    }
  }

  /** Every manifest `execute_plan` ever leaves on disk is valid and reads quarantined, then planned. */
  lemma ExecPlanOrderly(o: Oracle, d: Disk, plan: Plan, current: GroupEvidence, x: Adversary, k: nat, opDir: DirId)
    requires Loaded(plan.evidence) && k < |ExecPlan(o, d, plan, current, x).trace|
    requires opDir in ExecPlan(o, d, plan, current, x).trace[k].manifests
    requires OperationDirRun(d.fs, plan.root, plan.operationId, x).dir == Some(opDir) && opDir !in d.manifests
    ensures Orderly(ExecPlan(o, d, plan, current, x).trace[k].manifests[opDir], plan.operationId)
    ensures RestoredCount(ExecPlan(o, d, plan, current, x).trace[k].manifests[opDir]) == 0
  {
    hide ExecFrom, ValidManifest, Write, FilesDirRun, OperationDirRun, ValidateGroup, StableBinding;
    var files := FilesDirRun(d.fs, plan.root, plan.operationId, x);
    var made := Lift(d, files.trace);
    var here := LastDisk(d, made);
    if k >= |made| {
      var site := Site(plan.root, plan.operationId, opDir, files.dir.value);
      var m := FromPlan(plan.operationId, plan.digest, current, x.now(0));
      MoversNonNegative(current);
      WriteOrderly(here, opDir, plan.operationId, m, x, 1, 0, 0);
      var w := Write(here, opDir, m, x, 1).value;
      ExecFromOrderly(o, w, plan, site, Stamp(m, x.now(1)), 0, x);
      var rest := ExecFrom(o, w, plan, site, Stamp(m, x.now(1)), 0, x);
      if k > |made| {
        assert OrderlyDisk(rest.trace[k - |made| - 1], opDir, plan.operationId, 0);
        assert NothingRestored(rest.trace[k - |made| - 1], opDir);
      }
    }
  }

  // ------------------------------------------------------------ restoring

  function Max(a: nat, b: nat): nat { if a < b then b else a }

  lemma RestoredShape(m: OperationManifest, i: nat, a: nat, b: nat)
    requires i <= a && i < |m.files| && Shape(m.files, a, b)
    ensures var next := SetState(m, i, Restored);
            && (i < a ==> Shape(next.files, a, b))
            && (i == a ==> Shape(next.files, a + 1, if b > 0 then b - 1 else 0))
  {
  }

  lemma CloseOrderly(d: Disk, site: Site, m: OperationManifest, i: nat, x: Adversary)
    requires i <= |m.files| && m.operationId == site.operationId
    requires Shape(m.files, RestoredCount(m), QuarantinedCount(m)) && i <= RestoredCount(m)
    ensures OrderlyTrace(CloseRestore(d, site, m, i, x).trace, site.opDir, site.operationId, RestoredCount(m))
    ensures |CloseRestore(d, site, m, i, x).trace| <= 1
    ensures CloseRestore(d, site, m, i, x).verified == i
    ensures var close := CloseRestore(d, site, m, i, x);
            && (close.end != RestoreWriteStopped ==> |close.trace| == 1)
            && (close.trace != [] ==> RestoredCount(close.trace[0].manifests[site.opDir]) == RestoredCount(m))
            && (close.end == RestoreDone ==> close.trace[0].manifests[site.opDir].status == AllRestored)
  {
    var done := i == |m.files|;
    var status := if done then AllRestored else PartiallyRestored;
    WriteOrderly(d, site.opDir, site.operationId, m.(status := status), x, |m.files| + 1, RestoredCount(m),
                 QuarantinedCount(m));
  }

  /** Any number of files into any restore run: manifests stay orderly and the restored prefix only grows. */
  lemma {:induction false} RestoreFromOrderly(o: Oracle, d: Disk, site: Site, m: OperationManifest, digest: seq<byte>,
                                              i: nat, x: Adversary)
    requires i <= |m.files| && m.operationId == site.operationId && m.status == Restoring
    requires OrderlyDisk(d, site.opDir, site.operationId, RestoredCount(m)) && d.manifests[site.opDir] == m
    requires i <= RestoredCount(m)
    ensures var run := RestoreFrom(o, d, site, m, digest, i, x);
            && OrderlyTrace(run.trace, site.opDir, site.operationId, RestoredCount(m))
            && Climbing(run.trace, site.opDir, site.operationId)
            && i <= run.verified <= |m.files|
            && run.verified <= RestoredCount(LastDisk(d, run.trace).manifests[site.opDir]) + 1
            && (run.end != RestoreWriteStopped ==>
                  RestoredCount(LastDisk(d, run.trace).manifests[site.opDir]) == Max(RestoredCount(m), run.verified))
    decreases |m.files| - i
  {
    hide RestoreOne, ValidManifest, Shape, Write, CloseRestore, RestoredCount, Orderly;
    OrderlyHasShape(m, site.operationId);
    var run := RestoreFrom(o, d, site, m, digest, i, x);
    if i == |m.files| {
      CloseOrderly(d, site, m, i, x);
      if run.trace != [] {
        assert OrderlyDisk(run.trace[0], site.opDir, site.operationId, RestoredCount(m));
      }
    } else {
      var one := RestoreOne(o, d.fs, RestoreTaskFor(site, m, i, digest), x.moves(i));
      var lifted := Lift(d, one.trace);
      var here := LastDisk(d, lifted);
      OrderlyLift(d, one.trace, site.opDir, site.operationId, RestoredCount(m));
      if !one.restored {
        CloseOrderly(here, site, m, i, x);
        var close := CloseRestore(here, site, m, i, x);
        OrderlyAppend(lifted, close.trace, site.opDir, site.operationId, RestoredCount(m), RestoredCount(m));
        if close.trace != [] {
          assert OrderlyDisk(close.trace[0], site.opDir, site.operationId, RestoredCount(m));
        }
      } else {
        RestoreStepOrderly(o, d, site, m, digest, i, x);
      }
    }
  }

  lemma RestoreFromUnfolds(o: Oracle, d: Disk, site: Site, m: OperationManifest, digest: seq<byte>, i: nat,
                           x: Adversary)
    requires i < |m.files|
    requires RestoreOne(o, d.fs, RestoreTaskFor(site, m, i, digest), x.moves(i)).restored
    ensures var run := RestoreFrom(o, d, site, m, digest, i, x);
            var lifted := Lift(d, RestoreOne(o, d.fs, RestoreTaskFor(site, m, i, digest), x.moves(i)).trace);
            var w := Write(LastDisk(d, lifted), site.opDir, SetState(m, i, Restored), x, i + 1);
            && (w.None? ==> run == RestoreAll(lifted, i + 1, RestoreWriteStopped))
            && (w.Some? && x.syncFails(i + 1) ==> run == RestoreAll(lifted + [w.value], i + 1, RestoreWriteStopped))
            && (w.Some? && !x.syncFails(i + 1) ==>
                  var rest := RestoreFrom(o, w.value, site, Stamp(SetState(m, i, Restored), x.now(i + 1)), digest,
                                          i + 1, x);
                  run == RestoreAll(lifted + ([w.value] + rest.trace), rest.verified, rest.end))
  {
    hide RestoreOne, Write;
    var lifted := Lift(d, RestoreOne(o, d.fs, RestoreTaskFor(site, m, i, digest), x.moves(i)).trace);
    var w := Write(LastDisk(d, lifted), site.opDir, SetState(m, i, Restored), x, i + 1);
    if w.Some? && !x.syncFails(i + 1) {
      var rest := RestoreFrom(o, w.value, site, Stamp(SetState(m, i, Restored), x.now(i + 1)), digest, i + 1, x);
      assert lifted + [w.value] + rest.trace == lifted + ([w.value] + rest.trace);
    }
  }

  lemma {:induction false} RestoreStepOrderly(o: Oracle, d: Disk, site: Site, m: OperationManifest, digest: seq<byte>,
                                              i: nat, x: Adversary)
    requires i < |m.files| && m.operationId == site.operationId && m.status == Restoring
    requires OrderlyDisk(d, site.opDir, site.operationId, RestoredCount(m)) && d.manifests[site.opDir] == m
    requires i <= RestoredCount(m)
    requires RestoreOne(o, d.fs, RestoreTaskFor(site, m, i, digest), x.moves(i)).restored
    ensures var run := RestoreFrom(o, d, site, m, digest, i, x);
            && OrderlyTrace(run.trace, site.opDir, site.operationId, RestoredCount(m))
            && Climbing(run.trace, site.opDir, site.operationId)
            && i <= run.verified <= |m.files|
            && run.verified <= RestoredCount(LastDisk(d, run.trace).manifests[site.opDir]) + 1
            && (run.end != RestoreWriteStopped ==>
                  RestoredCount(LastDisk(d, run.trace).manifests[site.opDir]) == Max(RestoredCount(m), run.verified))
    decreases |m.files| - i, 0
  {
    hide RestoreFrom, RestoreOne, ValidManifest, Orderly, Shape, Write;
    var one := RestoreOne(o, d.fs, RestoreTaskFor(site, m, i, digest), x.moves(i));
    var lifted := Lift(d, one.trace);
    var here := LastDisk(d, lifted);
    var a, b := RestoredCount(m), QuarantinedCount(m);
    OrderlyLift(d, one.trace, site.opDir, site.operationId, a);
    RestoreFromUnfolds(o, d, site, m, digest, i, x);
    var a' := if i < a then a else a + 1;
    var b' := if i < a || b == 0 then b else b - 1;
    var after := SetState(m, i, Restored);
    assert Shape(after.files, a', b') by {
      OrderlyHasShape(m, site.operationId);
      RestoredShape(m, i, a, b);
    }
    WriteOrderly(here, site.opDir, site.operationId, after, x, i + 1, a', b');
    var w := Write(here, site.opDir, after, x, i + 1);
    if w.Some? && x.syncFails(i + 1) {
      OrderlyAppend(lifted, [w.value], site.opDir, site.operationId, a, a');
    }
    if w.Some? && !x.syncFails(i + 1) {
      var next := Stamp(after, x.now(i + 1));
      RestoreFromOrderly(o, w.value, site, next, digest, i + 1, x);
      var rest := RestoreFrom(o, w.value, site, next, digest, i + 1, x);
      OrderlyAppend([w.value], rest.trace, site.opDir, site.operationId, a', a');
      OrderlyAppend(lifted, [w.value] + rest.trace, site.opDir, site.operationId, a, a');
    }
  }

  lemma OrderlyHasShape(m: OperationManifest, id: string)
    requires Orderly(m, id)
    ensures Shape(m.files, RestoredCount(m), QuarantinedCount(m)) && RestoredCount(m) + QuarantinedCount(m) <= |m.files|
  {
  }
}
