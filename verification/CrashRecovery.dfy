/** The crash-recovery theorem: quarantine, crash anywhere, restore as often as it takes. */
module CrashRecovery {
  import opened Wrappers
  import opened Text
  import opened FileSystem
  import opened Paths
  import opened Manifest
  import opened Quarantine
  import opened QuarantineRuns
  import opened Recovery

  // --------------------------------------------------- restoring, as a whole

  lemma RecoverableFindsSite(sc: Scene, d: Disk)
    requires Recoverable(sc, d)
    ensures FindSite(d, sc.site.root, sc.site.operationId) == Some(sc.site)
    ensures Unhex32(d.manifests[sc.site.opDir].contentDigestHex) == Some(sc.digest)
  {
    var away: set<nat> :| Placed(sc.base, sc.items, d.fs, away);
    PlacedBindings(sc, d.fs, away);
    hide Walk, StableBinding, ValidManifest, Placed, Resolve, Described;
  }

  /** What the first write of a restore leaves can be recovered from, and the loop can start on it. */
  lemma RestartRecoverable(sc: Scene, d: Disk, x: Adversary)
    requires Recoverable(sc, d)
    ensures var m := d.manifests[sc.site.opDir].(status := Restoring);
            var w := Write(d, sc.site.opDir, m, x, 0);
            && SameOperation(sc.template, Stamp(m, x.now(0)))
            && (w.Some? ==> Recoverable(sc, w.value) && w.value.fs == d.fs)
  {
    var m := d.manifests[sc.site.opDir].(status := Restoring);
    hide SameOperation, SceneOK, Scattered, Write, ValidManifest;
    ManifestSameOperation(sc, d.manifests[sc.site.opDir]);
    SceneNamesOperation(sc);
    UpdatesSameOperation(sc.template, d.manifests[sc.site.opDir], 0, Restored, Restoring, 0);
    UpdatesSameOperation(sc.template, m, 0, Restored, Restoring, x.now(0));
    WriteRecoverable(sc, d, m, x, 0);
  }

  lemma RecoverableParts(sc: Scene, d: Disk)
    requires Recoverable(sc, d)
    ensures SceneOK(sc) && Scattered(sc, d.fs) && sc.site.opDir in d.manifests
    ensures ManifestOf(sc, d.manifests[sc.site.opDir])
  {
    hide SceneOK, Scattered, ManifestOf;
  }

  /** A restore run that fails or crashes anywhere leaves a state the next run can start from. */
  lemma RestoreOpRecoverable(sc: Scene, d: Disk, x: Adversary)
    requires Recoverable(sc, d) && CalmRun(x)
    ensures AllRecoverable(sc, RestoreOp(sc.o, d, sc.site.root, sc.site.operationId, x).trace)
  {
    hide FindSite, ManifestOf, SameOperation, SceneOK, Placed, Write, CalmRun, RestoreFrom, Recoverable, HomeUpTo;
    RecoverableFindsSite(sc, d);
    RecoverableParts(sc, d);
    RestartRecoverable(sc, d, x);
    var m := d.manifests[sc.site.opDir].(status := Restoring);
    var w := Write(d, sc.site.opDir, m, x, 0);
    if w.Some? {
      RecoverableParts(sc, w.value);
      var away: set<nat> :| Placed(sc.base, sc.items, d.fs, away);
      SceneNamesOperation(sc);
      NoneHomeYet(away);
      RestoreFromRecoverable(sc, w.value, Stamp(m, x.now(0)), away, 0, x);
      RecoverableAppend(sc, [w.value],
                        RestoreFrom(sc.o, w.value, sc.site, Stamp(m, x.now(0)), sc.digest, 0, x).trace);
    }
  }

  lemma NoneHomeYet(away: set<nat>)
    ensures HomeUpTo(away, 0)
  {
  }

  /** One undisturbed run finishes: everything is home and the manifest says so. */
  lemma RestoreOpCompletes(sc: Scene, d: Disk, x: Adversary)
    requires Recoverable(sc, d) && KnownStates(d.manifests[sc.site.opDir]) && Undisturbed(x, sc.template.created)
    ensures var run := RestoreOp(sc.o, d, sc.site.root, sc.site.operationId, x);
            && run.end == RestoreDone && run.verified == |sc.items|
            && FullyRestored(sc, LastDisk(d, run.trace))
  {
    hide FindSite, ManifestOf, SameOperation, SceneOK, Placed, Write, Undisturbed, FullyRestored, RestoreFrom,
         KnownStates;
    RecoverableFindsSite(sc, d);
    TaskCount(sc);
    var current := d.manifests[sc.site.opDir];
    var m := current.(status := Restoring);
    ManifestSameOperation(sc, current);
    SceneNamesOperation(sc);
    KnownRestarted(current);
    UpdatesSameOperation(sc.template, current, 0, Restored, Restoring, 0);
    UpdatesSameOperation(sc.template, m, 0, Restored, Restoring, x.now(0));
    SameLength(sc.template, m);
    NothingFails(x, sc.template.created, 0);
    WriteSucceeds(sc, d, m, x, 0);
    WriteRecoverable(sc, d, m, x, 0);
    StampKeeps(m, x.now(0), 0);
    var w := Write(d, sc.site.opDir, m, x, 0).value;
    var away: set<nat> :| Placed(sc.base, sc.items, d.fs, away);
    RestoreFromCompletes(sc, w, Stamp(m, x.now(0)), away, 0, x);
  }

  lemma SceneNamesOperation(sc: Scene)
    requires SceneOK(sc)
    ensures sc.template.operationId == sc.site.operationId
  {
  }

  lemma ManifestSameOperation(sc: Scene, m: OperationManifest)
    requires ManifestOf(sc, m)
    ensures SameOperation(sc.template, m)
  {
  }

  lemma KnownRestarted(m: OperationManifest)
    requires KnownStates(m)
    ensures KnownStates(m.(status := Restoring))
  {
  }

  /** A restore attempt cut short after `steps` durable steps. */
  datatype Attempt = Attempt(x: Adversary, steps: nat)

  function Cut(d: Disk, trace: seq<Disk>, steps: nat): Disk {
    if steps == 0 || trace == [] then d else if steps <= |trace| then trace[steps - 1] else trace[|trace| - 1]
  }

  /** Attempt after attempt, each starting from what the previous one left. */
  function AfterAttempts(o: Oracle, d: Disk, root: Root, operationId: string, attempts: seq<Attempt>): Disk {
    if attempts == [] then d
    else
      var before := AfterAttempts(o, d, root, operationId, attempts[..|attempts| - 1]);
      var last := attempts[|attempts| - 1];
      Cut(before, RestoreOp(o, before, root, operationId, last.x).trace, last.steps)
  }

  ghost predicate CalmAttempts(attempts: seq<Attempt>) { forall i :: 0 <= i < |attempts| ==> CalmRun(attempts[i].x) }

  lemma {:induction false} AttemptsRecoverable(sc: Scene, d: Disk, attempts: seq<Attempt>)
    requires Recoverable(sc, d) && CalmAttempts(attempts)
    ensures Recoverable(sc, AfterAttempts(sc.o, d, sc.site.root, sc.site.operationId, attempts))
  {
    hide RestoreOp, Recoverable;
    if attempts != [] {
      var n := |attempts| - 1;
      AttemptsRecoverable(sc, d, attempts[..n]);
      RestoreOpRecoverable(sc, AfterAttempts(sc.o, d, sc.site.root, sc.site.operationId, attempts[..n]), attempts[n].x);
    }
  }

  // ------------------------------------------------ one undisturbed move

  /** A move of the i-th item of the scene. */
  predicate MovesItem(sc: Scene, t: MoveTask, i: nat)
    requires i < |sc.template.files|
  {
    && t.root == sc.site.root && t.filesDir == sc.site.filesDir && t.operationId == sc.site.operationId
    && t.name == sc.template.files[i].quarantineName && t.member.path == sc.template.files[i].path
  }

  lemma MoveTargets(sc: Scene, fs: Fs, away: set<nat>, t: MoveTask, i: nat)
    requires SceneOK(sc) && Placed(sc.base, sc.items, fs, away) && i < |sc.items| && MovesItem(sc, t, i)
    ensures var it := sc.items[i];
            && Target(t) == it.held && Resolve(fs, t.root.dir, t.member.path) == Some(it.slot)
            && ItemPlaced(fs, it, i in away) && it.file in fs.files
            && FilesBinding(fs, t.root, t.operationId, t.filesDir)
  {
    assert Described(sc.o, sc.base, sc.site, sc.template.files[i], sc.items[i], sc.digest);
    PlacedBindings(sc, fs, away);
    ResolveSame(sc.base, fs, sc.site.root.dir, t.member.path);
  }

  lemma MoveReadyMeans(o: Oracle, fs: Fs, t: MoveTask, slot: Slot, file: FileId)
    requires PrepareMove(o, fs, t).Some? && Resolve(fs, t.root.dir, t.member.path) == Some(slot)
    requires NodeAt(fs, slot) == Some(FileNode(file)) && file in fs.files
    ensures PrepareMove(o, fs, t).value.source == slot && PrepareMove(o, fs, t).value.sourceId == IdentityOf(fs, file)
  {
    hide NoCompanion, FilesBinding, Resolve;
  }

  lemma MovedIsInQuarantine(fs: Fs, t: MoveTask, source: Slot, file: FileId)
    requires CanRename(fs, source, Target(t)) && NodeAt(fs, source) == Some(FileNode(file)) && file in fs.files
    requires FilesBinding(Rename(fs, source, Target(t)), t.root, t.operationId, t.filesDir)
    ensures InQuarantine(Rename(fs, source, Target(t)), t, IdentityOf(fs, file))
  {
    hide FilesBinding;
  }

  lemma MoveCases(o: Oracle, fs: Fs, t: MoveTask, x: Interference)
    requires Calm(x)
    ensures var run := MoveOne(o, fs, t, x);
            var ready := PrepareMove(o, fs, t);
            || run == MoveRun([], NotMoved)
            || (&& ready.Some? && CanRename(fs, ready.value.source, Target(t))
                && var moved := Rename(fs, ready.value.source, Target(t));
                   var seen := !x.recheckFails && InQuarantine(moved, t, ready.value.sourceId);
                   (|| run == MoveRun([moved], Moved)
                    || run == MoveRun([moved], MoveFailed(false, seen))
                    || (&& CanRename(moved, Target(t), ready.value.source)
                        && run == MoveRun([moved, Rename(moved, Target(t), ready.value.source)],
                                          MoveFailed(true, false)))))
  {
    hide PrepareMove, MoveVerified, InQuarantine, ParentBinding, Rename, CanRename;
    assert EnvTrace(fs, x.before) == [];
    var ready := PrepareMove(o, fs, t);
    if ready.Some? && CanRename(fs, ready.value.source, Target(t)) {
      assert EnvTrace(Rename(fs, ready.value.source, Target(t)), x.after) == [];
    }
  }

  /** Without other processes a move ends in one of five ways. In the last of them the file is in quarantine and
      the run does not know it, because the call that was to look for it failed. */
  lemma MoveCalm(sc: Scene, fs: Fs, away: set<nat>, t: MoveTask, i: nat, x: Interference)
    requires SceneOK(sc) && Placed(sc.base, sc.items, fs, away) && i < |sc.items| && MovesItem(sc, t, i) && i !in away
    requires Calm(x)
    ensures var run := MoveOne(sc.o, fs, t, x);
            var it := sc.items[i];
            && CanRename(fs, it.slot, it.held)
            && var moved := Rename(fs, it.slot, it.held);
               (|| run == MoveRun([], NotMoved)
                || run == MoveRun([moved], Moved)
                || (CanRename(moved, it.held, it.slot)
                    && run == MoveRun([moved, Rename(moved, it.held, it.slot)], MoveFailed(true, false)))
                || (!x.recheckFails && run == MoveRun([moved], MoveFailed(false, true)))
                || (x.recheckFails && run == MoveRun([moved], MoveFailed(false, false))))
  {
    var it := sc.items[i];
    assert Described(sc.o, sc.base, sc.site, sc.template.files[i], it, sc.digest);
    hide MoveOne, PrepareMove, InQuarantine, FilesBinding, Resolve, Described, Rename;
    PlacedOut(sc.base, sc.items, fs, away, i);
    MoveTargets(sc, fs, away, t, i);
    MoveTargets(sc, Rename(fs, it.slot, it.held), away + {i}, t, i);
    MovedIsInQuarantine(fs, t, it.slot, it.file);
    MoveCases(sc.o, fs, t, x);
    if PrepareMove(sc.o, fs, t).Some? {
      MoveReadyMeans(sc.o, fs, t, it.slot, it.file);
    }
  }

  // ------------------------------------------------- executing, as a whole

  function UpTo(j: nat): (s: set<nat>)
    ensures forall i: nat :: i in s <==> i < j
  {
    if j == 0 then {} else UpTo(j - 1) + {j - 1}
  }

  /** What a crash during the moves leaves: the manifest says quarantined for the first k files, and the
      first k or k + 1 files are physically in quarantine. */
  ghost predicate Midway(sc: Scene, d: Disk) {
    && SceneOK(sc)
    && sc.site.opDir in d.manifests && ManifestOf(sc, d.manifests[sc.site.opDir])
    && exists k, j :: Between(sc, d, k, j)
  }

  ghost predicate Between(sc: Scene, d: Disk, k: nat, j: nat) {
    && k <= j <= k + 1 && j <= |sc.items|
    && Placed(sc.base, sc.items, d.fs, UpTo(j))
    && sc.site.opDir in d.manifests && Shape(d.manifests[sc.site.opDir].files, 0, k)
  }

  ghost predicate AllMidway(sc: Scene, trace: seq<Disk>) { forall i :: 0 <= i < |trace| ==> Midway(sc, trace[i]) }

  lemma MidwayIsRecoverable(sc: Scene, d: Disk)
    requires Midway(sc, d)
    ensures Recoverable(sc, d) && KnownStates(d.manifests[sc.site.opDir])
  {
    var k, j :| Between(sc, d, k, j);
    assert Scattered(sc, d.fs);
    hide SceneOK, Placed, SameOperation, DistinctUpTo, ValidFile;
  }

  ghost predicate NearlyMoved(sc: Scene, fs: Fs, i: nat) {
    Placed(sc.base, sc.items, fs, UpTo(i)) || Placed(sc.base, sc.items, fs, UpTo(i + 1))
  }

  /** How many files the manifest will call quarantined after the i-th move. */
  function MovedAfter(outcome: MoveOutcome, i: nat): nat {
    if outcome.Moved? || (outcome.MoveFailed? && outcome.committedInQuarantine) then i + 1 else i
  }

  /** How many files are in quarantine after the i-th move: one more if it renamed and did not rename back. */
  function AwayAfter(run: MoveRun, i: nat): nat { if |run.trace| == 1 then i + 1 else i }

  lemma UpToNext(i: nat)
    ensures UpTo(i) + {i} == UpTo(i + 1) && UpTo(i + 1) - {i} == UpTo(i)
  {
  }

  lemma ItemInScene(sc: Scene, i: nat)
    requires SceneOK(sc) && i < |sc.items|
    ensures DistinctItems(sc.items) && sc.items[i].file in sc.base.files
    ensures sc.items[i].slot.dir < sc.base.nextDir && sc.items[i].held.dir < sc.base.nextDir
  {
    assert Described(sc.o, sc.base, sc.site, sc.template.files[i], sc.items[i], sc.digest);
    hide Placed, DistinctItems, Resolve, Walk, ValidMediaPath, FilesBinding;
  }

  lemma PlacedAwayAndBack(sc: Scene, fs: Fs, i: nat)
    requires SceneOK(sc) && Placed(sc.base, sc.items, fs, UpTo(i)) && i < |sc.items|
    ensures var it := sc.items[i];
            && CanRename(fs, it.slot, it.held) && CanRename(Rename(fs, it.slot, it.held), it.held, it.slot)
            && var moved := Rename(fs, it.slot, it.held);
               Placed(sc.base, sc.items, moved, UpTo(i + 1))
               && Placed(sc.base, sc.items, Rename(moved, it.held, it.slot), UpTo(i))
  {
    hide Placed, Rename, CanRename, SceneOK, DistinctItems, UpTo;
    var it := sc.items[i];
    UpToNext(i);
    ItemInScene(sc, i);
    PlacedOut(sc.base, sc.items, fs, UpTo(i), i);
    PlacedBack(sc.base, sc.items, Rename(fs, it.slot, it.held), UpTo(i + 1), i);
  }

  lemma OneMoveScattered(sc: Scene, fs: Fs, t: MoveTask, i: nat, x: Interference)
    requires SceneOK(sc) && Placed(sc.base, sc.items, fs, UpTo(i)) && i < |sc.items| && MovesItem(sc, t, i) && Calm(x)
    ensures var run := MoveOne(sc.o, fs, t, x);
            && (forall k :: 0 <= k < |run.trace| ==> NearlyMoved(sc, run.trace[k], i))
            && Placed(sc.base, sc.items, Last(fs, run.trace), UpTo(AwayAfter(run, i)))
            && MovedAfter(run.outcome, i) <= AwayAfter(run, i) <= MovedAfter(run.outcome, i) + 1
            && (run.outcome.Moved? ==> AwayAfter(run, i) == i + 1)
  {
    hide MoveOne, Placed, Rename, CanRename, Calm, MovesItem, SceneOK;
    MoveCalm(sc, fs, UpTo(i), t, i, x);
    PlacedAwayAndBack(sc, fs, i);
  }

  /** One calm move inside a run: the volume stays between i and i + 1 items moved. */
  lemma OneMoveMidway(sc: Scene, d: Disk, t: MoveTask, i: nat, x: Interference)
    requires Between(sc, d, i, i) && SceneOK(sc) && i < |sc.items| && MovesItem(sc, t, i) && Calm(x)
    requires ManifestOf(sc, d.manifests[sc.site.opDir])
    ensures var run := MoveOne(sc.o, d.fs, t, x);
            var after := LastDisk(d, Lift(d, run.trace));
            && AllMidway(sc, Lift(d, run.trace))
            && after.manifests == d.manifests
            && Placed(sc.base, sc.items, after.fs, UpTo(AwayAfter(run, i)))
            && MovedAfter(run.outcome, i) <= AwayAfter(run, i) <= MovedAfter(run.outcome, i) + 1
            && (run.outcome.Moved? ==> AwayAfter(run, i) == i + 1)
  {
    hide MoveOne, Placed, ManifestOf, Calm, MovesItem, SceneOK, Shape, UpTo;
    OneMoveScattered(sc, d.fs, t, i, x);
    var run := MoveOne(sc.o, d.fs, t, x);
    var lifted := Lift(d, run.trace);
    forall k | 0 <= k < |lifted|
      ensures Midway(sc, lifted[k])
    {
      assert NearlyMoved(sc, run.trace[k], i);
      assert Between(sc, lifted[k], i, i) || Between(sc, lifted[k], i, i + 1);
    }
  }

  lemma TaskCountOf(sc: Scene, m: OperationManifest)
    requires SceneOK(sc) && SameOperation(sc.template, m)
    ensures |sc.items| == |sc.template.files| == |m.files|
  {
  }

  lemma MovesItemFor(sc: Scene, plan: Plan, m: OperationManifest, i: nat)
    requires Loaded(plan.evidence) && i < |m.files| == |Movers(plan.evidence.members, plan.evidence.keeperOrdinal)|
    requires PlanOf(sc, plan) && SameOperation(sc.template, m)
    ensures MovesItem(sc, MoveTaskFor(plan, sc.site, m, i), i)
  {
    assert sc.template.files[i].(state := m.files[i].state) == m.files[i];
  }

  /** The plan is the one the scene was set up for. */
  predicate PlanOf(sc: Scene, plan: Plan)
    requires Loaded(plan.evidence)
  {
    var movers := Movers(plan.evidence.members, plan.evidence.keeperOrdinal);
    && plan.root == sc.site.root && plan.operationId == sc.site.operationId && plan.digest == sc.digest
    && |movers| == |sc.template.files|
    && forall i :: 0 <= i < |movers| ==> movers[i].path == sc.template.files[i].path
  }

  lemma AfterMoveManifest(sc: Scene, m: OperationManifest, i: nat, outcome: MoveOutcome)
    requires SameOperation(sc.template, m) && i < |m.files| && Shape(m.files, 0, i)
    ensures SameOperation(sc.template, AfterMove(m, i, outcome))
    ensures |AfterMove(m, i, outcome).files| == |m.files|
    ensures Shape(AfterMove(m, i, outcome).files, 0, MovedAfter(outcome, i))
  {
    UpdatesSameOperation(sc.template, m, i, Quarantined, NeedsRecovery, 0);
    UpdatesSameOperation(sc.template, SetState(m, i, Quarantined), i, Quarantined, NeedsRecovery, 0);
  }

  lemma WriteMidway(sc: Scene, d: Disk, m: OperationManifest, k: nat, j: nat, x: Adversary, index: nat)
    requires SceneOK(sc) && SameOperation(sc.template, m) && k <= j <= k + 1 && j <= |sc.items|
    requires Placed(sc.base, sc.items, d.fs, UpTo(j)) && Shape(m.files, 0, k)
    ensures var w := Write(d, sc.site.opDir, m, x, index);
            w.Some? ==> Midway(sc, w.value) && Between(sc, w.value, k, j)
                        && w.value.manifests[sc.site.opDir] == Stamp(m, x.now(index))
  {
    WriteRecoverable(sc, d, m, x, index);
    var w := Write(d, sc.site.opDir, m, x, index);
    hide Placed, ManifestOf, SceneOK, Write, SameOperation;
    if w.Some? {
      assert Shape(Stamp(m, x.now(index)).files, 0, k);
      assert Between(sc, w.value, k, j);
    }
  }

  lemma AllMidwayAppend(sc: Scene, first: seq<Disk>, second: seq<Disk>)
    requires AllMidway(sc, first) && AllMidway(sc, second)
    ensures AllMidway(sc, first + second)
  {
    hide Midway;
  }

  lemma ExecFromUnfolds(o: Oracle, d: Disk, plan: Plan, site: Site, m: OperationManifest, i: nat, x: Adversary)
    requires Loaded(plan.evidence) && i < |m.files| == |Movers(plan.evidence.members, plan.evidence.keeperOrdinal)|
    ensures var move := MoveOne(o, d.fs, MoveTaskFor(plan, site, m, i), x.moves(i));
            var moved := Lift(d, move.trace);
            var after := AfterMove(m, i, move.outcome);
            var w := Write(LastDisk(d, moved), site.opDir, after, x, i + 2);
            var run := ExecFrom(o, d, plan, site, m, i, x);
            && |after.files| == |m.files|
            && (w.None? ==> run.trace == moved)
            && (w.Some? && !move.outcome.Moved? ==> run.trace == moved + [w.value])
            && (w.Some? && move.outcome.Moved? && x.syncFails(i + 2) ==> run.trace == moved + [w.value])
            && (w.Some? && move.outcome.Moved? && !x.syncFails(i + 2) ==>
                  run.trace == moved + [w.value] + ExecFrom(o, w.value, plan, site, Stamp(after, x.now(i + 2)), i + 1,
                                                            x).trace)
  {
    hide MoveOne, Write, Loaded, MoveTaskFor;
  }

  /** The move loop is about to treat the i-th file: the i files before it are away and say so. */
  ghost predicate LoopReady(sc: Scene, d: Disk, plan: Plan, m: OperationManifest, i: nat, x: Adversary) {
    && SceneOK(sc) && CalmRun(x)
    && LoopBounds(plan, m, i) && PlanOf(sc, plan)
    && SameOperation(sc.template, m) && Shape(m.files, 0, i)
    && Between(sc, d, i, i) && ManifestOf(sc, d.manifests[sc.site.opDir])
  }

  predicate LoopBounds(plan: Plan, m: OperationManifest, i: nat) {
    && Loaded(plan.evidence)
    && i <= |m.files| == |Movers(plan.evidence.members, plan.evidence.keeperOrdinal)|
  }

  /** After a move and before its manifest write: j files away, and the manifest about to say so of the first k. */
  ghost predicate WriteReady(sc: Scene, d: Disk, after: OperationManifest, k: nat, j: nat) {
    && SceneOK(sc) && SameOperation(sc.template, after) && k <= j <= k + 1 && j <= |sc.items|
    && Placed(sc.base, sc.items, d.fs, UpTo(j)) && Shape(after.files, 0, k)
  }

  lemma LoopMove(sc: Scene, d: Disk, plan: Plan, m: OperationManifest, i: nat, x: Adversary)
    requires LoopReady(sc, d, plan, m, i, x) && i < |m.files|
    ensures LoopBounds(plan, m, i)
    ensures var move := MoveOne(sc.o, d.fs, MoveTaskFor(plan, sc.site, m, i), x.moves(i));
            && AllMidway(sc, Lift(d, move.trace))
            && |AfterMove(m, i, move.outcome).files| == |m.files|
            && WriteReady(sc, LastDisk(d, Lift(d, move.trace)), AfterMove(m, i, move.outcome),
                          MovedAfter(move.outcome, i),
                          AwayAfter(move, i))
            && (move.outcome.Moved? ==> MovedAfter(move.outcome, i) == AwayAfter(move, i) == i + 1)
  {
    assert Calm(x.moves(i));
    hide MoveOne, SceneOK, ManifestOf, SameOperation, Placed, Shape, AfterMove, Loaded, PlanOf, MoveTaskFor, CalmRun,
         Calm, Midway, UpTo, MovesItem;
    TaskCountOf(sc, m);
    MovesItemFor(sc, plan, m, i);
    var t := MoveTaskFor(plan, sc.site, m, i);
    OneMoveMidway(sc, d, t, i, x.moves(i));
    AfterMoveManifest(sc, m, i, MoveOne(sc.o, d.fs, t, x.moves(i)).outcome);
  }

  lemma LoopWrite(sc: Scene, d: Disk, plan: Plan, after: OperationManifest, k: nat, j: nat, x: Adversary, index: nat)
    requires WriteReady(sc, d, after, k, j) && LoopBounds(plan, after, k) && PlanOf(sc, plan) && CalmRun(x)
    ensures var w := Write(d, sc.site.opDir, after, x, index);
            w.Some? ==> Midway(sc, w.value)
                        && (k == j ==> LoopReady(sc, w.value, plan, Stamp(after, x.now(index)), k, x))
  {
    hide SceneOK, ManifestOf, SameOperation, Write, Placed, Shape, PlanOf, CalmRun, UpTo;
    WriteMidway(sc, d, after, k, j, x, index);
    UpdatesSameOperation(sc.template, after, 0, Quarantined, after.status, x.now(index));
  }

  lemma LoopStep(sc: Scene, d: Disk, plan: Plan, m: OperationManifest, i: nat, x: Adversary)
    requires LoopReady(sc, d, plan, m, i, x) && i < |m.files|
    ensures LoopBounds(plan, m, i)
    ensures var move := MoveOne(sc.o, d.fs, MoveTaskFor(plan, sc.site, m, i), x.moves(i));
            && AllMidway(sc, Lift(d, move.trace))
            && var after := AfterMove(m, i, move.outcome);
               var w := Write(LastDisk(d, Lift(d, move.trace)), sc.site.opDir, after, x, i + 2);
               w.Some? ==> AllMidway(sc, [w.value])
                           && (move.outcome.Moved? ==>
                                 LoopReady(sc, w.value, plan, Stamp(after, x.now(i + 2)), i + 1, x))
  {
    hide MoveOne, SceneOK, WriteReady, Between, SameOperation, Write, AfterMove, PlanOf, CalmRun, Midway;
    LoopMove(sc, d, plan, m, i, x);
    var move := MoveOne(sc.o, d.fs, MoveTaskFor(plan, sc.site, m, i), x.moves(i));
    LoopWrite(sc, LastDisk(d, Lift(d, move.trace)), plan, AfterMove(m, i, move.outcome), MovedAfter(move.outcome, i),
              AwayAfter(move, i), x, i + 2);
  }

  lemma LoopClose(sc: Scene, d: Disk, plan: Plan, m: OperationManifest, x: Adversary)
    requires LoopReady(sc, d, plan, m, |m.files|, x)
    ensures LoopBounds(plan, m, |m.files|)
    ensures AllMidway(sc, ExecFrom(sc.o, d, plan, sc.site, m, |m.files|, x).trace)
  {
    hide SceneOK, ManifestOf, SameOperation, Write, Placed, Shape, Loaded, PlanOf, CalmRun, Midway;
    TaskCountOf(sc, m);
    UpdatesSameOperation(sc.template, m, 0, Quarantined, AllQuarantined, 0);
    WriteMidway(sc, d, m.(status := AllQuarantined), |m.files|, |m.files|, x, |m.files| + 2);
  }

  /** Every state the move loop passes through is midway, whichever call fails. */
  lemma {:induction false} ExecFromMidway(sc: Scene, d: Disk, plan: Plan, m: OperationManifest, i: nat, x: Adversary)
    requires LoopBounds(plan, m, i) && LoopReady(sc, d, plan, m, i, x)
    ensures AllMidway(sc, ExecFrom(sc.o, d, plan, sc.site, m, i, x).trace)
    decreases |m.files| - i
  {
    hide ExecFrom, MoveOne, Write, AfterMove, Loaded, MoveTaskFor, LoopReady, AllMidway;
    if i == |m.files| {
      LoopClose(sc, d, plan, m, x);
    } else {
      LoopStep(sc, d, plan, m, i, x);
      ExecFromUnfolds(sc.o, d, plan, sc.site, m, i, x);
      var move := MoveOne(sc.o, d.fs, MoveTaskFor(plan, sc.site, m, i), x.moves(i));
      var moved := Lift(d, move.trace);
      var after := AfterMove(m, i, move.outcome);
      var w := Write(LastDisk(d, moved), sc.site.opDir, after, x, i + 2);
      if w.Some? {
        AllMidwayAppend(sc, moved, [w.value]);
        if move.outcome.Moved? && !x.syncFails(i + 2) {
          var next := Stamp(after, x.now(i + 2));
          ExecFromMidway(sc, w.value, plan, next, i + 1, x);
          AllMidwayAppend(sc, moved + [w.value], ExecFrom(sc.o, w.value, plan, sc.site, next, i + 1, x).trace);
        }
      }
    }
  }
}
