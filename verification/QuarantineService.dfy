/** The quarantine service as it works: step by step on one volume, each step durable before the next.
    Every method is tied to the run the specification assigns to it, state by state. */
module QuarantineService {
  import opened Wrappers
  import opened Text
  import opened FileSystem
  import opened Paths
  import opened Manifest
  import opened Quarantine
  import opened QuarantineRuns

  class Volume {
    var disk: Disk
    /** Every durable state since the volume was opened, oldest first. */
    ghost var history: seq<Disk>

    constructor (d: Disk)
      ensures disk == d && history == []
    {
      disk := d;
      history := [];
    }

    /** The volume has passed through exactly the states of `trace` since `d`. */
    ghost predicate Ran(d: Disk, h: seq<Disk>, trace: seq<Disk>)
      reads this
    {
      disk == LastDisk(d, trace) && history == h + trace
    }

    /** `rename_exclusive_with_barriers`: one exclusive rename, or nothing. */
    method RenameExclusive(src: Slot, dst: Slot, fails: bool) returns (ok: bool)
      modifies this
      ensures ok <==> !fails && CanRename(old(disk.fs), src, dst)
      ensures Ran(old(disk), old(history), if ok then Lift(old(disk), [Rename(old(disk.fs), src, dst)]) else [])
    {
      ok := !fails && CanRename(disk.fs, src, dst);
      if ok {
        disk := disk.(fs := Rename(disk.fs, src, dst));
        history := history + [disk];
        assert Lift(old(disk), [disk.fs]) == [disk];
      }
    }

    /** Other processes act. */
    method Interfere(batch: seq<EnvOp>)
      modifies this
      ensures Ran(old(disk), old(history), Lift(old(disk), EnvTrace(old(disk.fs), batch)))
    {
      ghost var total := EnvTrace(disk.fs, batch);
      var i := 0;
      while i < |batch|
        invariant 0 <= i <= |batch|
        invariant disk.fs == Last(old(disk.fs), total[..i]) && disk.manifests == old(disk.manifests)
        invariant EnvTrace(disk.fs, batch[i..]) == total[i..]
        invariant history == old(history) + Lift(old(disk), total[..i])
      {
        assert batch[i..][0] == batch[i] && batch[i..][1..] == batch[i + 1..];
        disk := disk.(fs := ApplyEnv(disk.fs, batch[i]));
        assert disk.fs == total[i] && total[i..][1..] == total[i + 1..];
        history := history + [disk];
        assert Lift(old(disk), total[..i + 1]) == Lift(old(disk), total[..i]) + [disk];
        i := i + 1;
      }
      assert total[..|batch|] == total;
      assert disk == LastDisk(old(disk), Lift(old(disk), total));
    }

    /** `write_manifest`: stamp, validate, replace atomically, make durable. A failure of the last of these leaves
        the new manifest in place. */
    method WriteManifest(opDir: DirId, m: OperationManifest, x: Adversary, index: nat)
      returns (r: Option<OperationManifest>)
      modifies this
      ensures r.Some? <==> Write(old(disk), opDir, m, x, index).Some? && !x.syncFails(index)
      ensures r.Some? ==> r.value == Stamp(m, x.now(index))
      ensures Ran(old(disk), old(history), Written(old(disk), opDir, m, x, index))
    {
      var stamped := Stamp(m, x.now(index));
      var valid := ValidateManifest(stamped, stamped.operationId);
      if !valid || x.writeFails(index) {
        return None;
      }
      disk := disk.(manifests := disk.manifests[opDir := stamped]);
      history := history + [disk];
      return if x.syncFails(index) then None else Some(stamped);
    }

    // ------------------------------------------------------------- moving

    /** `rollback_failed_post_move_verification`. */
    method RollBackMove(t: MoveTask, p: MoveReady, x: Interference) returns (outcome: MoveOutcome)
      modifies this
      ensures outcome == RollbackMove(old(disk.fs), t, p, x).outcome
      ensures Ran(old(disk), old(history), Lift(old(disk), RollbackMove(old(disk.fs), t, p, x).trace))
    {
      var back := false;
      if ParentBinding(disk.fs, t.root, t.member.path, p.source.dir) {
        back := RenameExclusive(Target(t), p.source, x.rollbackFails);
      }
      if back {
        return MoveFailed(true, false);
      }
      return MoveFailed(false, !x.recheckFails && InQuarantine(disk.fs, t, p.sourceId));
    }

    /** `move_one_member_with_post_rename_hook`, from the commit on. */
    method CommitMember(o: Oracle, t: MoveTask, p: MoveReady, x: Interference) returns (outcome: MoveOutcome)
      modifies this
      ensures outcome == CommitMove(o, old(disk.fs), t, p, x).outcome
      ensures Ran(old(disk), old(history), Lift(old(disk), CommitMove(o, old(disk.fs), t, p, x).trace))
    {
      hide CanRename, Rename, MoveVerified, EnvTrace, RollbackMove, Lift;
      ghost var d := disk;
      var committed := RenameExclusive(p.source, Target(t), x.renameFails);
      if !committed {
        LiftNothing(d);
        return NotMoved;
      }
      ghost var renamed := Rename(d.fs, p.source, Target(t));
      LiftEnds(d, [renamed]);
      Interfere(x.after);
      ghost var hook := EnvTrace(renamed, x.after);
      LiftTwice(d, [renamed], hook);
      LiftEnds(d, [renamed] + hook);
      if !x.verifyFails && MoveVerified(o, disk.fs, t, p) {
        return Moved;
      }
      ghost var here := disk;
      outcome := RollBackMove(t, p, x);
      LiftTwice(d, [renamed] + hook, RollbackMove(here.fs, t, p, x).trace);
    }

    /** `move_one_member_with_post_rename_hook`. */
    method MoveOneMember(o: Oracle, t: MoveTask, x: Interference) returns (outcome: MoveOutcome)
      modifies this
      ensures outcome == MoveOne(o, old(disk.fs), t, x).outcome
      ensures Ran(old(disk), old(history), Lift(old(disk), MoveOne(o, old(disk.fs), t, x).trace))
    {
      hide PrepareMove, EnvTrace, CommitMove, Lift;
      ghost var d := disk;
      var prepared := PrepareMove(o, disk.fs, t);
      if x.prepareFails || prepared.None? {
        LiftNothing(d);
        return NotMoved;
      }
      ghost var before := EnvTrace(d.fs, x.before);
      Interfere(x.before);
      LiftEnds(d, before);
      ghost var middle := disk;
      outcome := CommitMember(o, t, prepared.value, x);
      LiftTwice(d, before, CommitMove(o, middle.fs, t, prepared.value, x).trace);
    }

    /** One turn of `execute_plan`'s loop: move the member, then record it. */
    method MoveAndRecord(o: Oracle, plan: Plan, site: Site, m: OperationManifest, i: nat, x: Adversary)
      returns (r: Result<OperationManifest, ExecEnd>, ghost turn: seq<Disk>)
      requires Loaded(plan.evidence)
      requires i < |m.files| == |Movers(plan.evidence.members, plan.evidence.keeperOrdinal)|
      modifies this
      ensures Ran(old(disk), old(history), turn)
      ensures r.Err? ==> ExecFrom(o, old(disk), plan, site, m, i, x) == ExecRun(turn, i, r.error)
      ensures r.Ok? ==> |r.value.files| == |m.files|
      ensures r.Ok? ==> var rest := ExecFrom(o, disk, plan, site, r.value, i + 1, x);
                        ExecFrom(o, old(disk), plan, site, m, i, x) == ExecRun(turn + rest.trace, rest.moved, rest.end)
    {
      hide ExecFrom, MoveOne, Write, Lift, Loaded;
      ghost var here := disk;
      ExecFromNext(o, here, plan, site, m, i, x);
      var outcome := MoveOneMember(o, MoveTaskFor(plan, site, m, i), x.moves(i));
      turn := Lift(here, MoveOne(o, here.fs, MoveTaskFor(plan, site, m, i), x.moves(i)).trace);
      var manifest := m;
      if outcome.Moved? || (outcome.MoveFailed? && outcome.committedInQuarantine) {
        manifest := SetState(manifest, i, Quarantined);
      }
      if !outcome.Moved? {
        manifest := manifest.(status := NeedsRecovery);
      }
      assert manifest == AfterMove(m, i, outcome);
      ghost var between := disk;
      var written := WriteManifest(site.opDir, manifest, x, i + 2);
      turn := turn + Written(between, site.opDir, manifest, x, i + 2);
      if outcome.Moved? && written.None? {
        return Err(WriteStopped), turn;
      }
      if !outcome.Moved? {
        return Err(MoveStopped), turn;
      }
      WriteIs(between, site.opDir, manifest, x, i + 2);
      return Ok(written.value), turn;
    }

    /** `execute_plan`'s loop: move and record member by member, stop at the first that does not move. */
    method MoveMembers(o: Oracle, plan: Plan, site: Site, first: OperationManifest, x: Adversary)
      returns (moved: nat, end: ExecEnd)
      requires Loaded(plan.evidence)
      requires |first.files| == |Movers(plan.evidence.members, plan.evidence.keeperOrdinal)|
      modifies this
      ensures var run := ExecFrom(o, old(disk), plan, site, first, 0, x);
              moved == run.moved && end == run.end && Ran(old(disk), old(history), run.trace)
    {
      hide ExecFrom, Write, Loaded, ExecContinues, Movers, MoveOne, Lift, ValidManifest, LastDisk;
      RunsNothing(disk, history);
      ghost var d, h := disk, history;
      ghost var total := ExecFrom(o, d, plan, site, first, 0, x);
      ghost var done: seq<Disk> := [];
      ExecContinuesMeans(total, [], total);
      assert [] + total.trace == total.trace;
      var manifest := first;
      var i := 0;
      while i < |manifest.files|
        invariant 0 <= i <= |manifest.files| == |first.files|
        invariant Ran(d, h, done)
        invariant ExecContinues(total, done, ExecFrom(o, disk, plan, site, manifest, i, x))
      {
        ghost var before, so := ExecFrom(o, disk, plan, site, manifest, i, x), done;
        ExecContinuesMeans(total, so, before);
        var r, turn := MoveAndRecord(o, plan, site, manifest, i, x);
        RunsOn(d, h, done, turn);
        done := done + turn;
        if r.Ok? {
          ExecContinuesOn(total, so, before, turn, ExecFrom(o, disk, plan, site, r.value, i + 1, x));
        }
        if r.Err? {
          return i, r.error;
        }
        manifest := r.value;
        i := i + 1;
      }
      ExecContinuesMeans(total, done, ExecFrom(o, disk, plan, site, manifest, i, x));
      ExecFromCloses(o, disk, plan, site, manifest, x);
      RunsOn(d, h, done, Written(disk, site.opDir, manifest.(status := AllQuarantined), x, i + 2));
      WriteKeepsFiles(disk, site.opDir, manifest.(status := AllQuarantined), x, i + 2);
      var written := WriteManifest(site.opDir, manifest.(status := AllQuarantined), x, i + 2);
      return i, if written.Some? && StableBinding(disk.fs, site.root) then Completed else WriteStopped;
    }
  
    // --------------------------------------------------- executing a plan

    /** `create_private_directory_exclusive`. */
    method CreateDirectory(at: Slot, fails: bool, rejects: bool) returns (dir: Option<DirId>)
      modifies this
      ensures dir == NewDir(old(disk.fs), at, fails, rejects).dir
      ensures Ran(old(disk), old(history), Lift(old(disk), NewDir(old(disk.fs), at, fails, rejects).trace))
    {
      if at in disk.fs.entries || at.dir >= disk.fs.nextDir || fails {
        return None;
      }
      dir := if rejects then None else Some(disk.fs.nextDir);
      disk := disk.(fs := Mkdir(disk.fs, at));
      history := history + [disk];
      assert Lift(old(disk), [disk.fs]) == [disk];
    }

    /** The next private directory below the one just made, if there is one. `run` is what was made since `d`. */
    method DirectoryBelow(parent: Option<DirId>, name: Name, exclusive: bool, fails: bool, rejects: bool,
                          ghost d: Disk, ghost h: seq<Disk>, ghost run: MkdirRun) returns (dir: Option<DirId>)
      requires parent == run.dir && Ran(d, h, Lift(d, run.trace))
      modifies this
      ensures dir == Below(d.fs, run, name, exclusive, fails, rejects).dir
      ensures Ran(d, h, Lift(d, Below(d.fs, run, name, exclusive, fails, rejects).trace))
    {
      hide NewDir, Lift;
      LiftEnds(d, run.trace);
      if parent.None? {
        return None;
      }
      var at := Slot(parent.value, name);
      LiftNothing(disk);
      if !exclusive && at in disk.fs.entries {
        LiftTwice(d, run.trace, []);
        return if rejects then None else DirAt(disk.fs, at);
      }
      ghost var here := disk.fs;
      dir := CreateDirectory(at, fails, rejects);
      LiftTwice(d, run.trace, NewDir(here, at, fails, rejects).trace);
    }

    /** `ensure_operations_directory`, then the operation directory and its files directory. */
    method CreateOperation(root: Root, operationId: string, x: Adversary)
      returns (operation: Option<DirId>, files: Option<DirId>)
      modifies this
      ensures operation == OperationDirRun(old(disk.fs), root, operationId, x).dir
      ensures files == FilesDirRun(old(disk.fs), root, operationId, x).dir
      ensures Ran(old(disk), old(history), Lift(old(disk), FilesDirRun(old(disk.fs), root, operationId, x).trace))
    {
      hide NewDir, Below, Lift;
      ghost var d, h := disk, history;
      LiftNothing(d);
      var at := Slot(root.dir, QUARANTINE_DIRECTORY);
      var quarantine: Option<DirId>;
      if at in disk.fs.entries {
        quarantine := if x.mkdirRejects(0) then None else DirAt(disk.fs, at);
      } else {
        quarantine := CreateDirectory(at, x.mkdirFails(0), x.mkdirRejects(0));
      }
      ghost var run := EnsureDir(d.fs, at, x.mkdirFails(0), x.mkdirRejects(0));
      var operations := DirectoryBelow(quarantine, OPERATIONS_DIRECTORY, false, x.mkdirFails(1), x.mkdirRejects(1), d,
                                       h, run);
      run := Below(d.fs, run, OPERATIONS_DIRECTORY, false, x.mkdirFails(1), x.mkdirRejects(1));
      operation := DirectoryBelow(operations, operationId, true, x.mkdirFails(2), x.mkdirRejects(2), d, h, run);
      run := OperationDirRun(d.fs, root, operationId, x);
      files := DirectoryBelow(operation, FILES_DIRECTORY, true, x.mkdirFails(3), x.mkdirRejects(3), d, h, run);
    }

    /** `execute_plan`. */
    method ExecutePlan(o: Oracle, plan: Plan, current: GroupEvidence, x: Adversary) returns (moved: nat, end: ExecEnd)
      requires Loaded(plan.evidence)
      modifies this
      ensures var run := ExecPlan(o, old(disk), plan, current, x);
              moved == run.moved && end == run.end && Ran(old(disk), old(history), run.trace)
    {
      hide ExecFrom, Write, FilesDirRun, OperationDirRun, ValidateGroup, StableBinding, Lift, Loaded, FromPlan;
      ghost var d, h := disk, history;
      if x.openFails || current != plan.evidence {
        return 0, Refused;
      }
      var digest := CheckGroup(o, disk.fs, plan.root, current);
      if digest != Some(plan.digest) {
        return 0, Refused;
      }
      var operation, files := CreateOperation(plan.root, plan.operationId, x);
      ghost var made := Lift(d, FilesDirRun(d.fs, plan.root, plan.operationId, x).trace);
      if files.None? || operation.None? || !StableBinding(disk.fs, plan.root) {
        return 0, Refused;
      }
      var site := Site(plan.root, plan.operationId, operation.value, files.value);
      ghost var here := disk;
      var written := WriteManifest(site.opDir, FromPlan(plan.operationId, plan.digest, current, x.now(0)), x, 1);
      if written.None? {
        assert made + Written(here, site.opDir, FromPlan(plan.operationId, plan.digest, current, x.now(0)), x, 1)
               == ExecPlan(o, d, plan, current, x).trace;
        return 0, WriteStopped;
      }
      MoversNonNegative(current);
      ghost var first := disk;
      moved, end := MoveMembers(o, plan, site, written.value, x);
      assert made + [first] + ExecFrom(o, first, plan, site, written.value, 0, x).trace
             == made + ([first] + ExecFrom(o, first, plan, site, written.value, 0, x).trace);
    }

    // ----------------------------------------------------------- restoring

    /** `restore_one_file_with_post_rename_hook`, from the commit on. */
    method CommitRestoreOf(o: Oracle, t: RestoreTask, to: Slot, id: Identity, x: Interference) returns (restored: bool)
      modifies this
      ensures restored == CommitRestore(o, old(disk.fs), t, to, id, x).restored
      ensures Ran(old(disk), old(history), Lift(old(disk), CommitRestore(o, old(disk.fs), t, to, id, x).trace))
    {
      hide CanRename, Rename, RestoreVerified, EnvTrace, Lift, RollbackRestore;
      ghost var d := disk;
      var committed := RenameExclusive(HeldAt(t), to, x.renameFails);
      if !committed {
        LiftNothing(d);
        return false;
      }
      ghost var renamed := Rename(d.fs, HeldAt(t), to);
      LiftEnds(d, [renamed]);
      Interfere(x.after);
      ghost var hook := EnvTrace(renamed, x.after);
      LiftTwice(d, [renamed], hook);
      LiftEnds(d, [renamed] + hook);
      if !x.verifyFails && RestoreVerified(o, disk.fs, t, to, id) {
        return true;
      }
      ghost var here := disk;
      BringBack(t, to, x);
      LiftTwice(d, [renamed] + hook, RollbackRestore(here.fs, t, to, x));
      return false;
    }

    /** `rollback_failed_post_restore_verification`. */
    method BringBack(t: RestoreTask, to: Slot, x: Interference)
      modifies this
      ensures Ran(old(disk), old(history), Lift(old(disk), RollbackRestore(old(disk.fs), t, to, x)))
    {
      hide CanRename, Rename, Lift;
      LiftNothing(disk);
      var back := RenameExclusive(to, HeldAt(t), x.rollbackFails);
    }

    /** `restore_one_file_with_post_rename_hook`. */
    method RestoreOneFile(o: Oracle, t: RestoreTask, x: Interference) returns (restored: bool)
      modifies this
      ensures restored == RestoreOne(o, old(disk.fs), t, x).restored
      ensures Ran(old(disk), old(history), Lift(old(disk), RestoreOne(o, old(disk.fs), t, x).trace))
    {
      hide Destination, EnvTrace, CommitRestore, MatchesManifest, Lift;
      ghost var d := disk;
      LiftNothing(d);
      var to := Destination(disk.fs, t);
      if x.prepareFails || to.None? {
        return false;
      }
      var inQuarantine, atHome := HeldAt(t) in disk.fs.entries, to.value in disk.fs.entries;
      if !inQuarantine && atHome {
        var home := FileAt(disk.fs, to.value);
        return home.Some? && MatchesManifest(o, disk.fs, home.value, t);
      }
      if !(inQuarantine && !atHome) {
        return false;
      }
      var held := FileAt(disk.fs, HeldAt(t));
      if held.None? || !MatchesManifest(o, disk.fs, held.value, t) {
        return false;
      }
      var id := IdentityOf(disk.fs, held.value);
      ghost var before := EnvTrace(d.fs, x.before);
      Interfere(x.before);
      LiftEnds(d, before);
      ghost var middle := disk;
      restored := CommitRestoreOf(o, t, to.value, id, x);
      LiftTwice(d, before, CommitRestore(o, middle.fs, t, to.value, id, x).trace);
    }

    /** The end of `restore_operation`: record whether every file is home. */
    method CloseRestoring(site: Site, m: OperationManifest, restoredCount: nat, x: Adversary) returns (end: RestoreEnd)
      requires restoredCount <= |m.files|
      modifies this
      ensures var run := CloseRestore(old(disk), site, m, restoredCount, x);
              end == run.end && Ran(old(disk), old(history), run.trace)
    {
      hide Write;
      var status := if restoredCount == |m.files| then AllRestored else PartiallyRestored;
      WriteKeepsFiles(disk, site.opDir, m.(status := status), x, |m.files| + 1);
      var written := WriteManifest(site.opDir, m.(status := status), x, |m.files| + 1);
      return if written.None? || !StableBinding(disk.fs, site.root)
        then RestoreWriteStopped else if status.AllRestored? then RestoreDone else RestoreStopped;
    }

    /** One turn of `restore_operation`'s loop; `None` when the file could not be put or found at home. */
    method RestoreAndRecord(o: Oracle, site: Site, m: OperationManifest, digest: seq<byte>, i: nat, x: Adversary)
      returns (r: Result<Option<OperationManifest>, RestoreEnd>, ghost turn: seq<Disk>)
      requires i < |m.files|
      modifies this
      ensures Ran(old(disk), old(history), turn)
      ensures r.Err? ==> RestoreFrom(o, old(disk), site, m, digest, i, x) == RestoreAll(turn, i + 1, r.error)
      ensures r.Ok? && r.value.None? ==>
                var close := CloseRestore(disk, site, m, i, x);
                RestoreFrom(o, old(disk), site, m, digest, i, x) == RestoreAll(turn + close.trace, i, close.end)
      ensures r.Ok? && r.value.Some? ==> |r.value.value.files| == |m.files|
      ensures r.Ok? && r.value.Some? ==>
                var rest := RestoreFrom(o, disk, site, r.value.value, digest, i + 1, x);
                RestoreFrom(o, old(disk), site, m, digest, i, x)
                == RestoreAll(turn + rest.trace, rest.verified, rest.end)
    {
      hide RestoreFrom, RestoreOne, Write, Lift, CloseRestore;
      ghost var here := disk;
      RestoreFromNext(o, here, site, m, digest, i, x);
      var task := RestoreTaskFor(site, m, i, digest);
      var restored := RestoreOneFile(o, task, x.moves(i));
      turn := Lift(here, RestoreOne(o, here.fs, task, x.moves(i)).trace);
      if !restored {
        return Ok(None), turn;
      }
      ghost var between := disk;
      var written := WriteManifest(site.opDir, SetState(m, i, Restored), x, i + 1);
      turn := turn + Written(between, site.opDir, SetState(m, i, Restored), x, i + 1);
      if written.None? {
        return Err(RestoreWriteStopped), turn;
      }
      return Ok(Some(written.value)), turn;
    }

    /** `restore_operation`'s loop and its end. */
    method RestoreFiles(o: Oracle, site: Site, first: OperationManifest, digest: seq<byte>, x: Adversary)
      returns (restoredCount: nat, end: RestoreEnd)
      modifies this
      ensures var run := RestoreFrom(o, old(disk), site, first, digest, 0, x);
              restoredCount == run.verified && end == run.end && Ran(old(disk), old(history), run.trace)
    {
      hide RestoreFrom, CloseRestore, Continues, RestoreOne, Write, Lift, ValidManifest, LastDisk;
      RunsNothing(disk, history);
      ghost var d, h := disk, history;
      ghost var total := RestoreFrom(o, d, site, first, digest, 0, x);
      ghost var done: seq<Disk> := [];
      var manifest := first;
      var stopped := false;
      restoredCount := 0;
      assert Continues(total, done, total, total.verified) by {
        assert [] + total.trace == total.trace;
        ContinuesMeans(total, done, total, total.verified);
      }
      while !stopped && restoredCount < |manifest.files|
        invariant 0 <= restoredCount <= |manifest.files| == |first.files|
        invariant Ran(d, h, done)
        invariant !stopped ==> var rest := RestoreFrom(o, disk, site, manifest, digest, restoredCount, x);
                               Continues(total, done, rest, rest.verified)
        invariant stopped ==>
                    Continues(total, done, CloseRestore(disk, site, manifest, restoredCount, x), restoredCount)
        decreases |manifest.files| - restoredCount, !stopped
      {
        ghost var before := RestoreFrom(o, disk, site, manifest, digest, restoredCount, x);
        var r, turn := RestoreAndRecord(o, site, manifest, digest, restoredCount, x);
        ghost var so := done;
        RunsOn(d, h, done, turn);
        done := done + turn;
        if r.Err? {
          ContinuesMeans(total, so, before, before.verified);
          return restoredCount + 1, r.error;
        }
        if r.value.None? {
          stopped := true;
          ContinuesOn(total, so, before, turn, CloseRestore(disk, site, manifest, restoredCount, x), restoredCount);
        } else {
          manifest := r.value.value;
          restoredCount := restoredCount + 1;
          ghost var rest := RestoreFrom(o, disk, site, manifest, digest, restoredCount, x);
          ContinuesOn(total, so, before, turn, rest, rest.verified);
        }
      }
      if !stopped {
        RestoreFromCloses(o, disk, site, manifest, digest, x);
      }
      ContinuesMeans(total, done, CloseRestore(disk, site, manifest, restoredCount, x), restoredCount);
      RunsOn(d, h, done, CloseRestore(disk, site, manifest, restoredCount, x).trace);
      end := CloseRestoring(site, manifest, restoredCount, x);
    }

    /** `restore_operation`. */
    method RestoreOperation(o: Oracle, root: Root, operationId: string, x: Adversary)
      returns (restoredCount: nat, end: RestoreEnd)
      modifies this
      ensures var run := RestoreOp(o, old(disk), root, operationId, x);
              restoredCount == run.verified && end == run.end && Ran(old(disk), old(history), run.trace)
    {
      hide RestoreFrom, Write, FindSite, ValidManifest;
      ghost var d, h := disk, history;
      var site := FindSite(disk, root, operationId);
      if site.None? || x.openFails {
        return 0, RestoreRefused;
      }
      SiteHolds(d, root, operationId);
      var manifest := disk.manifests[site.value.opDir].(status := Restoring);
      var digest := Unhex32(manifest.contentDigestHex).value;
      var written := WriteManifest(site.value.opDir, manifest, x, 0);
      if written.None? {
        return 0, RestoreWriteStopped;
      }
      ghost var first := disk;
      restoredCount, end := RestoreFiles(o, site.value, written.value, digest, x);
      assert h + [first] + RestoreFrom(o, first, site.value, written.value, digest, 0, x).trace
             == h + ([first] + RestoreFrom(o, first, site.value, written.value, digest, 0, x).trace);
    }
  }

  /** `validate_group_before_mutation`: every member sealed and unaccompanied, every other one equal to the keeper. */
  method CheckGroup(o: Oracle, fs: Fs, root: Root, e: GroupEvidence) returns (digest: Option<seq<byte>>)
    requires Loaded(e)
    ensures digest == ValidateGroup(o, fs, root, e)
  {
    hide StableBinding, MemberReady, MemberContent;
    if !StableBinding(fs, root) {
      return None;
    }
    var keeper := KeeperOf(e);
    for i := 0 to |e.members|
      invariant forall j :: 0 <= j < i ==> MemberReady(o, fs, root, e.members[j])
    {
      if !MemberReady(o, fs, root, e.members[i]) {
        return None;
      }
    }
    if keeper.size * (e.memberCount - 1) != e.logicalBytes {
      return None;
    }
    var kept := MemberContent(o, fs, root, keeper);
    digest := None;
    for i := 0 to |e.members|
      invariant forall j :: 0 <= j < i ==> j == e.keeperOrdinal || MemberContent(o, fs, root, e.members[j]) == kept
      invariant digest.None? <==> i <= if e.keeperOrdinal == 0 then 1 else 0
      invariant digest.Some? ==> kept.Some? && |kept.value| == keeper.size && digest.value == o.digest(kept.value)
    {
      if e.members[i].ordinal != e.keeperOrdinal {
        var content := MemberContent(o, fs, root, e.members[i]);
        if kept.None? || content.None? {
          return None;
        }
        var next := CompareDigest(o, kept.value, content.value, keeper.size);
        if next.None? || (digest.Some? && digest != next) {
          return None;
        }
        digest := next;
      }
    }
    assert e.members[e.keeperOrdinal] == keeper;
  }

  /** `total` has done `done` and goes on as `rest`. */
  ghost predicate ExecContinues(total: ExecRun, done: seq<Disk>, rest: ExecRun) {
    total == ExecRun(done + rest.trace, rest.moved, rest.end)
  }

  lemma ExecContinuesMeans(total: ExecRun, done: seq<Disk>, rest: ExecRun)
    ensures ExecContinues(total, done, rest) <==> total == ExecRun(done + rest.trace, rest.moved, rest.end)
  {
  }

  lemma ExecContinuesOn(total: ExecRun, done: seq<Disk>, before: ExecRun, turn: seq<Disk>, rest: ExecRun)
    requires ExecContinues(total, done, before) && before == ExecRun(turn + rest.trace, rest.moved, rest.end)
    ensures ExecContinues(total, done + turn, rest)
  {
    assert done + (turn + rest.trace) == done + turn + rest.trace;
  }

  /** `total` has done `done` and goes on as `rest`, which brings its count to `verified`. */
  ghost predicate Continues(total: RestoreAll, done: seq<Disk>, rest: RestoreAll, verified: nat) {
    total == RestoreAll(done + rest.trace, verified, rest.end)
  }

  lemma ContinuesMeans(total: RestoreAll, done: seq<Disk>, rest: RestoreAll, verified: nat)
    ensures Continues(total, done, rest, verified) <==> total == RestoreAll(done + rest.trace, verified, rest.end)
  {
  }

  lemma ContinuesOn(total: RestoreAll, done: seq<Disk>, before: RestoreAll, turn: seq<Disk>, rest: RestoreAll,
                    verified: nat)
    requires Continues(total, done, before, before.verified)
    requires before == RestoreAll(turn + rest.trace, verified, rest.end)
    ensures Continues(total, done + turn, rest, verified)
  {
    assert done + (turn + rest.trace) == done + turn + rest.trace;
  }

  lemma SiteHolds(d: Disk, root: Root, operationId: string)
    requires FindSite(d, root, operationId).Some?
    ensures var opDir := FindSite(d, root, operationId).value.opDir;
            opDir in d.manifests && Unhex32(d.manifests[opDir].contentDigestHex).Some?
  {
  }

  lemma RestoreFromCloses(o: Oracle, d: Disk, site: Site, m: OperationManifest, digest: seq<byte>, x: Adversary)
    ensures RestoreFrom(o, d, site, m, digest, |m.files|, x) == CloseRestore(d, site, m, |m.files|, x)
    ensures CloseRestore(d, site, m, |m.files|, x).verified == |m.files|
  {
    hide Write;
  }

  lemma RestoreFromNext(o: Oracle, d: Disk, site: Site, m: OperationManifest, digest: seq<byte>, i: nat, x: Adversary)
    requires i < |m.files|
    ensures var one := RestoreOne(o, d.fs, RestoreTaskFor(site, m, i, digest), x.moves(i));
            var lifted := Lift(d, one.trace);
            var here := LastDisk(d, lifted);
            var close := CloseRestore(here, site, m, i, x);
            var w := Write(here, site.opDir, SetState(m, i, Restored), x, i + 1);
            var run := RestoreFrom(o, d, site, m, digest, i, x);
            && (!one.restored ==> run == RestoreAll(lifted + close.trace, i, close.end))
            && (one.restored && w.None? ==> run == RestoreAll(lifted, i + 1, RestoreWriteStopped))
            && (one.restored && w.Some? && x.syncFails(i + 1) ==>
                  run == RestoreAll(lifted + [w.value], i + 1, RestoreWriteStopped))
            && (one.restored && w.Some? && !x.syncFails(i + 1) ==>
                  var rest := RestoreFrom(o, w.value, site, Stamp(SetState(m, i, Restored), x.now(i + 1)), digest,
                                          i + 1, x);
                  run == RestoreAll((lifted + [w.value]) + rest.trace, rest.verified, rest.end))
  {
    hide RestoreOne, Write, Lift, CloseRestore;
  }

  lemma WriteIs(d: Disk, opDir: DirId, m: OperationManifest, x: Adversary, index: nat)
    requires Write(d, opDir, m, x, index).Some?
    ensures Write(d, opDir, m, x, index).value == d.(manifests := d.manifests[opDir := Stamp(m, x.now(index))])
  {
  }

  lemma ExecFromCloses(o: Oracle, d: Disk, plan: Plan, site: Site, m: OperationManifest, x: Adversary)
    requires Loaded(plan.evidence)
    requires |m.files| == |Movers(plan.evidence.members, plan.evidence.keeperOrdinal)|
    ensures var w := Write(d, site.opDir, m.(status := AllQuarantined), x, |m.files| + 2);
            var run := ExecFrom(o, d, plan, site, m, |m.files|, x);
            && (w.None? ==> run == ExecRun([], |m.files|, WriteStopped))
            && (w.Some? ==> run == ExecRun([w.value], |m.files|,
                              if x.syncFails(|m.files| + 2) || !StableBinding(d.fs, site.root)
                                then WriteStopped else Completed))
  {
    hide Write, Loaded;
  }

  /** One turn of the specification's loop, with the states of the turn split off. */
  lemma ExecFromNext(o: Oracle, d: Disk, plan: Plan, site: Site, m: OperationManifest, i: nat, x: Adversary)
    requires Loaded(plan.evidence)
    requires i < |m.files| == |Movers(plan.evidence.members, plan.evidence.keeperOrdinal)|
    ensures var move := MoveOne(o, d.fs, MoveTaskFor(plan, site, m, i), x.moves(i));
            var moved := Lift(d, move.trace);
            var after := AfterMove(m, i, move.outcome);
            var w := Write(LastDisk(d, moved), site.opDir, after, x, i + 2);
            var run := ExecFrom(o, d, plan, site, m, i, x);
            && (w.None? ==> run == ExecRun(moved, i, if move.outcome.Moved? then WriteStopped else MoveStopped))
            && (w.Some? && !move.outcome.Moved? ==> run == ExecRun(moved + [w.value], i, MoveStopped))
            && (w.Some? && move.outcome.Moved? && x.syncFails(i + 2) ==>
                  run == ExecRun(moved + [w.value], i, WriteStopped))
            && (w.Some? && move.outcome.Moved? && !x.syncFails(i + 2) ==>
                  var rest := ExecFrom(o, w.value, plan, site, Stamp(after, x.now(i + 2)), i + 1, x);
                  run == ExecRun((moved + [w.value]) + rest.trace, rest.moved, rest.end))
  {
    hide MoveOne, Write, Lift, Loaded;
  }

  lemma WriteKeepsFiles(d: Disk, opDir: DirId, m: OperationManifest, x: Adversary, index: nat)
    ensures LastDisk(d, Written(d, opDir, m, x, index)).fs == d.fs
  {
    hide ValidManifest;
  }

  lemma RunsNothing(d: Disk, h: seq<Disk>)
    ensures LastDisk(d, []) == d && h + [] == h
  {
  }

  /** First one part of a run, then the next. */
  lemma RunsOn(d: Disk, h: seq<Disk>, done: seq<Disk>, turn: seq<Disk>)
    ensures LastDisk(d, done + turn) == LastDisk(LastDisk(d, done), turn)
    ensures h + done + turn == h + (done + turn)
  {
  }

  lemma LiftNothing(d: Disk)
    ensures Lift(d, []) == []
  {
  }

  lemma LiftEnds(d: Disk, trace: seq<Fs>)
    ensures LastDisk(d, Lift(d, trace)) == Disk(Last(d.fs, trace), d.manifests)
  {
  }

  lemma LiftTwice(d: Disk, first: seq<Fs>, second: seq<Fs>)
    ensures Lift(d, first + second) == Lift(d, first) + Lift(LastDisk(d, Lift(d, first)), second)
    ensures LastDisk(d, Lift(d, first + second))
            == LastDisk(LastDisk(d, Lift(d, first)), Lift(LastDisk(d, Lift(d, first)), second))
  {
  }
}
