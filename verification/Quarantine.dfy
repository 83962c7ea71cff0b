/** One move into quarantine and one restore out of it, with interference from other
    processes at the commit boundary and with every I/O call allowed to fail. */
module Quarantine {
  import opened Wrappers
  import opened Text
  import opened FileSystem
  import opened Paths
  import opened Manifest

  /** BLAKE3 of a byte string and of a file object's identity: arbitrary functions here. */
  datatype Oracle = Oracle(digest: seq<byte> -> seq<byte>, objectKey: FileId -> seq<byte>)

  /** The authorised root: the absolute path the user picked and the directory bound to it. */
  datatype Root = Root(selected: seq<Name>, dir: DirId)

  // ----------------------------------------------------- identity barriers

  /** `revalidate_stable_binding`. */
  predicate StableBinding(fs: Fs, root: Root) { Walk(fs, fs.slash, root.selected) == Some(root.dir) }

  function FilesPath(operationId: string): seq<Name> {
    [QUARANTINE_DIRECTORY, OPERATIONS_DIRECTORY, operationId, FILES_DIRECTORY]
  }

  /** `require_internal_files_directory_binding`. */
  predicate FilesBinding(fs: Fs, root: Root, operationId: string, filesDir: DirId) {
    StableBinding(fs, root) && Walk(fs, root.dir, FilesPath(operationId)) == Some(filesDir)
  }

  /** `require_relative_parent_binding`. */
  predicate ParentBinding(fs: Fs, root: Root, path: string, dir: DirId) {
    StableBinding(fs, root) && Resolve(fs, root.dir, path).Some? && Resolve(fs, root.dir, path).value.dir == dir
  }

  /** `require_member_identity`. */
  predicate MemberMatches(o: Oracle, fs: Fs, f: FileId, m: MemberEvidence)
    requires f in fs.files
  {
    var a := fs.files[f].attrs;
    && a.size == m.size && a.modified == m.modified && a.links == 1
    && (m.birth.Some? ==> m.birth.value == a.birth)
    && o.objectKey(f) == m.key
  }

  /** `open_member_raw`: the file object a member's path denotes, if it is the sealed one. */
  function MemberFile(o: Oracle, fs: Fs, root: Root, m: MemberEvidence): Option<FileId> {
    match Resolve(fs, root.dir, m.path)
    case None => None
    case Some(slot) =>
      match FileAt(fs, slot)
      case None => None
      case Some(f) => if MemberMatches(o, fs, f, m) then Some(f) else None
  }

  /** `require_member_path_binding`. */
  predicate MemberBinding(o: Oracle, fs: Fs, root: Root, m: MemberEvidence, expected: Identity) {
    && StableBinding(fs, root)
    && var f := MemberFile(o, fs, root, m);
       f.Some? && f.value in fs.files && IdentityOf(fs, f.value) == expected
  }

  /** `same_file_object_and_content_metadata`: everything but the change time, which a rename touches. */
  predicate SameObject(a: Identity, b: Identity) { a.file == b.file && a.attrs == b.attrs }

  /** What `compare_exact_readers` returns for two quiescent files. */
  function CompareDigest(o: Oracle, left: seq<byte>, right: seq<byte>, size: int): Option<seq<byte>> {
    if left == right && |left| == size then Some(o.digest(left)) else None
  }

  /** What `digest_exact_file` returns for a quiescent file. */
  function DigestExact(o: Oracle, content: seq<byte>, size: int): Option<seq<byte>> {
    if |content| == size then Some(o.digest(content)) else None
  }

  // -------------------------------------------------------- interference

  /** What may go wrong around one commit: other processes act just before the rename and at the
      hook just after it, and any I/O call of the preparation, the commit, the verification, the look
      at where the file is after a failed verification, or the rollback may fail. */
  datatype Interference = Interference(
    before: seq<EnvOp>, after: seq<EnvOp>,
    prepareFails: bool, renameFails: bool, verifyFails: bool, recheckFails: bool, rollbackFails: bool)

  predicate Calm(x: Interference) { x.before == [] && x.after == [] }

  predicate Faultless(x: Interference) {
    Calm(x) && !x.prepareFails && !x.renameFails && !x.verifyFails && !x.recheckFails && !x.rollbackFails
  }

  // ------------------------------------------------------------- moving

  datatype MoveTask = MoveTask(
    root: Root, keeper: MemberEvidence, member: MemberEvidence, filesDir: DirId,
    operationId: string, name: Name, digest: seq<byte>)

  function Target(t: MoveTask): Slot { Slot(t.filesDir, t.name) }

  datatype MoveReady = MoveReady(source: Slot, keeperId: Identity, sourceId: Identity)

  /** Everything `move_one_member` establishes before the commit. */
  function PrepareMove(o: Oracle, fs: Fs, t: MoveTask): Option<MoveReady> {
    if !ValidOperationId(t.operationId) || !FilesBinding(fs, t.root, t.operationId, t.filesDir) then None
    else
      var source := Resolve(fs, t.root.dir, t.member.path);
      var keeper := MemberFile(o, fs, t.root, t.keeper);
      var member := MemberFile(o, fs, t.root, t.member);
      if source.None? || !NoCompanion(fs, source.value) || keeper.None? || member.None? then None
      else if keeper.value !in fs.files || member.value !in fs.files then None
      else if CompareDigest(o, fs.files[keeper.value].content, fs.files[member.value].content,
                            t.member.size) != Some(t.digest) then None
      else if Target(t) in fs.entries then None
      else Some(MoveReady(source.value, IdentityOf(fs, keeper.value), IdentityOf(fs, member.value)))
  }

  /** The verification after the commit. */
  predicate MoveVerified(o: Oracle, fs: Fs, t: MoveTask, p: MoveReady) {
    && FilesBinding(fs, t.root, t.operationId, t.filesDir)
    && MemberBinding(o, fs, t.root, t.keeper, p.keeperId)
    && ParentBinding(fs, t.root, t.member.path, p.source.dir)
    && p.source !in fs.entries
    && var moved := FileAt(fs, Target(t));
       moved.Some? && SameObject(IdentityOf(fs, moved.value), p.sourceId)
       && DigestExact(o, fs.files[moved.value].content, t.member.size) == Some(t.digest)
  }

  /** The moved object sits under its quarantine name in the contained files directory. */
  predicate InQuarantine(fs: Fs, t: MoveTask, sourceId: Identity) {
    && FilesBinding(fs, t.root, t.operationId, t.filesDir)
    && var found := FileAt(fs, Target(t));
       found.Some? && SameObject(IdentityOf(fs, found.value), sourceId)
  }

  datatype MoveOutcome = Moved | NotMoved | MoveFailed(rolledBack: bool, committedInQuarantine: bool)

  /** The durable states a move passes through, oldest first, and its result. */
  datatype MoveRun = MoveRun(trace: seq<Fs>, outcome: MoveOutcome)

  /** `rollback_failed_post_move_verification`. */
  function RollbackMove(fs: Fs, t: MoveTask, p: MoveReady, x: Interference): MoveRun {
    if ParentBinding(fs, t.root, t.member.path, p.source.dir) && !x.rollbackFails && CanRename(fs, Target(t), p.source)
    then MoveRun([Rename(fs, Target(t), p.source)], MoveFailed(true, false))
    else MoveRun([], MoveFailed(false, !x.recheckFails && InQuarantine(fs, t, p.sourceId)))
  }

  /** `move_one_member_with_post_rename_hook`, from the commit on. */
  function CommitMove(o: Oracle, fs: Fs, t: MoveTask, p: MoveReady, x: Interference): MoveRun {
    if x.renameFails || !CanRename(fs, p.source, Target(t)) then MoveRun([], NotMoved)
    else
      var renamed := Rename(fs, p.source, Target(t));
      var hook := EnvTrace(renamed, x.after);
      var after := Last(renamed, hook);
      if !x.verifyFails && MoveVerified(o, after, t, p) then MoveRun([renamed] + hook, Moved)
      else
        var rollback := RollbackMove(after, t, p, x);
        MoveRun([renamed] + hook + rollback.trace, rollback.outcome)
  }

  function MoveOne(o: Oracle, fs: Fs, t: MoveTask, x: Interference): MoveRun {
    var prepared := PrepareMove(o, fs, t);
    if x.prepareFails || prepared.None? then MoveRun([], NotMoved)
    else
      var before := EnvTrace(fs, x.before);
      var run := CommitMove(o, Last(fs, before), t, prepared.value, x);
      MoveRun(before + run.trace, run.outcome)
  }

  // ----------------------------------------------------------- restoring

  datatype RestoreTask = RestoreTask(root: Root, filesDir: DirId, operationId: string, file: ManifestFile,
                                     digest: seq<byte>)

  function HeldAt(t: RestoreTask): Slot { Slot(t.filesDir, t.file.quarantineName) }

  /** The object found is the one the manifest describes, byte for byte. */
  predicate MatchesManifest(o: Oracle, fs: Fs, f: FileId, t: RestoreTask)
    requires f in fs.files
  {
    var size := ParseCanonicalU64(t.file.sizeBytes);
    && size.Some?
    && Unhex32(t.file.keyHex) == Some(o.objectKey(f))
    && fs.files[f].attrs.links == 1 && fs.files[f].attrs.size == size.value
    && DigestExact(o, fs.files[f].content, size.value) == Some(t.digest)
  }

  /** Where the file is to go back to; `None` when the root, the manifest entry or the path no longer hold. */
  function Destination(fs: Fs, t: RestoreTask): Option<Slot> {
    if && ValidOperationId(t.operationId) && FilesBinding(fs, t.root, t.operationId, t.filesDir)
       && ValidMediaPath(t.file.path) && IsU64Text(t.file.sizeBytes) && Unhex32(t.file.keyHex).Some?
    then Resolve(fs, t.root.dir, t.file.path) else None
  }

  predicate RestoreVerified(o: Oracle, fs: Fs, t: RestoreTask, to: Slot, id: Identity) {
    && FilesBinding(fs, t.root, t.operationId, t.filesDir)
    && ParentBinding(fs, t.root, t.file.path, to.dir)
    && HeldAt(t) !in fs.entries
    && var restored := FileAt(fs, to);
       restored.Some? && SameObject(IdentityOf(fs, restored.value), id)
       && ParseCanonicalU64(t.file.sizeBytes).Some?
       && DigestExact(o, fs.files[restored.value].content, ParseCanonicalU64(t.file.sizeBytes).value) == Some(t.digest)
  }

  datatype RestoreRun = RestoreRun(trace: seq<Fs>, restored: bool)

  /** `rollback_failed_post_restore_verification`. */
  function RollbackRestore(fs: Fs, t: RestoreTask, to: Slot, x: Interference): seq<Fs> {
    if !x.rollbackFails && CanRename(fs, to, HeldAt(t)) then [Rename(fs, to, HeldAt(t))] else []
  }

  function CommitRestore(o: Oracle, fs: Fs, t: RestoreTask, to: Slot, id: Identity, x: Interference): RestoreRun {
    if x.renameFails || !CanRename(fs, HeldAt(t), to) then RestoreRun([], false)
    else
      var renamed := Rename(fs, HeldAt(t), to);
      var hook := EnvTrace(renamed, x.after);
      var after := Last(renamed, hook);
      if !x.verifyFails && RestoreVerified(o, after, t, to, id) then RestoreRun([renamed] + hook, true)
      else RestoreRun([renamed] + hook + RollbackRestore(after, t, to, x), false)
  }

  /** `restore_one_file_with_post_rename_hook`: decided by what is physically present. */
  function RestoreOne(o: Oracle, fs: Fs, t: RestoreTask, x: Interference): RestoreRun {
    var to := Destination(fs, t);
    if x.prepareFails || to.None? then RestoreRun([], false)
    else
      var held, home := FileAt(fs, HeldAt(t)), FileAt(fs, to.value);
      match (HeldAt(t) in fs.entries, to.value in fs.entries)
      case (false, true) =>
        RestoreRun([], home.Some? && MatchesManifest(o, fs, home.value, t))
      case (true, false) =>
        if held.None? || !MatchesManifest(o, fs, held.value, t) then RestoreRun([], false)
        else
          var before := EnvTrace(fs, x.before);
          var run := CommitRestore(o, Last(fs, before), t, to.value, IdentityOf(fs, held.value), x);
          RestoreRun(before + run.trace, run.restored)
      case _ => RestoreRun([], false)
  }

  // ------------------------------------------------------- move contract

  lemma LastAppend(fs: Fs, first: seq<Fs>, second: seq<Fs>)
    ensures Last(fs, first + second) == Last(Last(fs, first), second)
  {
  }

  lemma CommitMoveSteps(o: Oracle, fs: Fs, t: MoveTask, p: MoveReady, x: Interference)
    ensures Steps(fs, CommitMove(o, fs, t, p, x).trace)
  {
    if !x.renameFails && CanRename(fs, p.source, Target(t)) {
      var renamed := Rename(fs, p.source, Target(t));
      assert ExclusiveRename(fs, renamed);
      OneStep(fs, renamed);
      var hook := EnvTrace(renamed, x.after);
      EnvTraceSteps(renamed, x.after);
      StepsAppend(fs, [renamed], hook);
      var after := Last(renamed, hook);
      var back := RollbackMove(after, t, p, x).trace;
      if back != [] {
        assert ExclusiveRename(after, back[0]);
        OneStep(after, back[0]);
      }
      LastAppend(fs, [renamed], hook);
      StepsAppend(fs, [renamed] + hook, back);
    }
  }

  /** Every state change of a move is one exclusive rename of ours or one action of another process. */
  lemma MoveSteps(o: Oracle, fs: Fs, t: MoveTask, x: Interference)
    ensures Steps(fs, MoveOne(o, fs, t, x).trace)
  {
    var prepared := PrepareMove(o, fs, t);
    if !x.prepareFails && prepared.Some? {
      EnvTraceSteps(fs, x.before);
      var middle := Last(fs, EnvTrace(fs, x.before));
      CommitMoveSteps(o, middle, t, prepared.value, x);
      StepsAppend(fs, EnvTrace(fs, x.before), CommitMove(o, middle, t, prepared.value, x).trace);
    }
  }

  /** The files directory is the one the operation's path leads to from the root the user picked. */
  ghost predicate InPlace(fs: Fs, root: Root, operationId: string, filesDir: DirId) {
    && Walk(fs, fs.slash, root.selected) == Some(root.dir)
    && Walk(fs, root.dir, [QUARANTINE_DIRECTORY, OPERATIONS_DIRECTORY, operationId, FILES_DIRECTORY]) == Some(filesDir)
  }

  /** The file object is the one the evidence was sealed for. */
  ghost predicate SealedAs(o: Oracle, fs: Fs, f: FileId, m: MemberEvidence) {
    && f in fs.files
    && fs.files[f].attrs.size == m.size && fs.files[f].attrs.modified == m.modified && fs.files[f].attrs.links == 1
    && (m.birth == None || m.birth == Some(fs.files[f].attrs.birth)) && o.objectKey(f) == m.key
  }

  /** What a successful move means in the final state. */
  ghost predicate SafelyMoved(o: Oracle, before: Fs, after: Fs, t: MoveTask, p: MoveReady) {
    // the keeper path still binds the identical keeper object, bytes included
    && Resolve(after, t.root.dir, t.keeper.path).Some?
    && FileAt(after, Resolve(after, t.root.dir, t.keeper.path).value) == Some(p.keeperId.file)
    && SealedAs(o, after, p.keeperId.file, t.keeper)
    && p.keeperId.file in before.files && p.keeperId.file in after.files
    && after.files[p.keeperId.file] == before.files[p.keeperId.file]
    // the source name, where the member's path still leads, is vacant, and it was not the keeper's name
    && p.source !in after.entries && Resolve(after, t.root.dir, t.member.path) == Some(p.source)
    && Resolve(after, t.root.dir, t.keeper.path) != Some(p.source)
    // the contained quarantine name holds the very object that was at the source, with the digest expected
    && InPlace(after, t.root, t.operationId, t.filesDir)
    && FileAt(before, p.source) == Some(p.sourceId.file)
    && FileAt(after, Target(t)) == Some(p.sourceId.file)
    && p.sourceId.file != p.keeperId.file
    // what was moved was the sealed member: unaccompanied, and byte for byte equal to the keeper
    && SealedAs(o, before, p.sourceId.file, t.member)
    && Resolve(before, t.root.dir, t.member.path) == Some(p.source) && NoCompanion(before, p.source)
    && p.sourceId.file in before.files && before.files[p.sourceId.file].content == before.files[p.keeperId.file].content
    && |after.files[p.sourceId.file].content| == t.member.size
    && o.digest(after.files[p.sourceId.file].content) == t.digest
  }

  lemma CommitMoveEnds(o: Oracle, fs: Fs, t: MoveTask, p: MoveReady, x: Interference)
    ensures var run := CommitMove(o, fs, t, p, x);
            var after := Last(fs, run.trace);
            && (run.outcome.Moved? ==> MoveVerified(o, after, t, p))
            && (run.outcome.NotMoved? ==> run.trace == [])
            && (run.outcome.MoveFailed? && !run.outcome.rolledBack ==>
                  (run.outcome.committedInQuarantine <==> !x.recheckFails && InQuarantine(after, t, p.sourceId)))
            && (run.outcome.MoveFailed? && run.outcome.rolledBack ==>
                  !run.outcome.committedInQuarantine && Target(t) !in after.entries && p.source in after.entries)
  {
    if !x.renameFails && CanRename(fs, p.source, Target(t)) {
      var renamed := Rename(fs, p.source, Target(t));
      var hook := EnvTrace(renamed, x.after);
      LastAppend(fs, [renamed], hook);
      var back := RollbackMove(Last(renamed, hook), t, p, x).trace;
      LastAppend(fs, [renamed] + hook, back);
    }
  }

  /** The keeper object is not the moved object: a new name would have shown in its change time. */
  lemma KeeperApart(o: Oracle, before: Fs, after: Fs, t: MoveTask, p: MoveReady)
    requires PrepareMove(o, before, t) == Some(p) && MoveVerified(o, after, t, p) && Evolves(before, after)
    ensures SafelyMoved(o, before, after, t, p)
  {
    var k := p.keeperId.file;
    assert MemberFile(o, after, t.root, t.keeper) == Some(k) && IdentityOf(after, k) == p.keeperId;
    if p.sourceId.file == k {
      assert GainedName(before, after, Target(t));
    }
  }

  /** The state the verification and the rollback look at: after the commit and the hook. */
  function VerifyState(fs: Fs, t: MoveTask, p: MoveReady, x: Interference): Fs
    requires CanRename(Last(fs, EnvTrace(fs, x.before)), p.source, Target(t))
  {
    var renamed := Rename(Last(fs, EnvTrace(fs, x.before)), p.source, Target(t));
    Last(renamed, EnvTrace(renamed, x.after))
  }

  /** The move contract, whatever other processes do at the commit boundary and whichever call fails. */
  lemma MoveContract(o: Oracle, fs: Fs, t: MoveTask, x: Interference)
    requires Sane(fs)
    ensures var run := MoveOne(o, fs, t, x);
            var after := Last(fs, run.trace);
            var ready := PrepareMove(o, fs, t);
            && (run.outcome.Moved? ==> ready.Some? && SafelyMoved(o, fs, after, t, ready.value))
            && (run.outcome.NotMoved? ==> run.trace == [] || run.trace == EnvTrace(fs, x.before))
            && (run.outcome.MoveFailed? ==> ready.Some?)
            && (run.outcome.MoveFailed? ==>
                  (run.outcome.committedInQuarantine <==>
                     !run.outcome.rolledBack && !x.recheckFails && InQuarantine(after, t, ready.value.sourceId)))
  {
    var run := MoveOne(o, fs, t, x);
    var ready := PrepareMove(o, fs, t);
    if !x.prepareFails && ready.Some? {
      var before := EnvTrace(fs, x.before);
      CommitMoveEnds(o, Last(fs, before), t, ready.value, x);
      LastAppend(fs, before, CommitMove(o, Last(fs, before), t, ready.value, x).trace);
      if run.outcome.Moved? {
        MoveSteps(o, fs, t, x);
        RunEvolves(fs, run.trace);
        KeeperApart(o, fs, Last(fs, run.trace), t, ready.value);
      }
    }
  }

  /** Where the flag falls short: the verification, the look for the file and the rollback all fail, the move says
      that nothing is in quarantine, and the moved object sits in the contained files directory. */
  lemma RecheckMayMissQuarantine(o: Oracle, fs: Fs, t: MoveTask)
    requires Sane(fs) && PrepareMove(o, fs, t).Some? && t.filesDir < fs.nextDir
    ensures var x := Interference([], [], false, false, true, true, true);
            var run := MoveOne(o, fs, t, x);
            && run.outcome == MoveFailed(false, false)
            && InQuarantine(Last(fs, run.trace), t, PrepareMove(o, fs, t).value.sourceId)
  {
    var p := PrepareMove(o, fs, t).value;
    var x := Interference([], [], false, false, true, true, true);
    var renamed := Rename(fs, p.source, Target(t));
    assert EnvTrace(fs, []) == [] && EnvTrace(renamed, []) == [];
    RenameFileKeepsDirectories(fs, p.source, Target(t));
    WalkSame(fs, renamed, fs.slash, t.root.selected);
    WalkSame(fs, renamed, t.root.dir, FilesPath(t.operationId));
    assert MoveOne(o, fs, t, x).trace == [renamed];
  }

  /** A rolled-back move brings the original object home exactly when that object was still under
      its quarantine name; otherwise it brings home whatever had taken that name. */
  lemma RollbackBringsHome(o: Oracle, fs: Fs, t: MoveTask, x: Interference)
    requires var outcome := MoveOne(o, fs, t, x).outcome; outcome.MoveFailed? && outcome.rolledBack
    ensures var p := PrepareMove(o, fs, t).value;
            var after := Last(fs, MoveOne(o, fs, t, x).trace);
            && CanRename(Last(fs, EnvTrace(fs, x.before)), p.source, Target(t))
            && Target(t) !in after.entries
            && (FileAt(after, p.source) == Some(p.sourceId.file) <==>
                  FileAt(VerifyState(fs, t, p, x), Target(t)) == Some(p.sourceId.file))
  {
    var p := PrepareMove(o, fs, t).value;
    var middle := Last(fs, EnvTrace(fs, x.before));
    var renamed := Rename(middle, p.source, Target(t));
    var hook := EnvTrace(renamed, x.after);
    LastAppend(middle, [renamed], hook);
    var back := RollbackMove(Last(renamed, hook), t, p, x).trace;
    LastAppend(middle, [renamed] + hook, back);
    LastAppend(fs, EnvTrace(fs, x.before), [renamed] + hook + back);
  }

  lemma RenameFileKeepsDirectories(fs: Fs, src: Slot, dst: Slot)
    requires CanRename(fs, src, dst) && !fs.entries[src].DirNode?
    ensures SameDirectories(fs, Rename(fs, src, dst))
  {
  }

  lemma ParentBindingSame(a: Fs, b: Fs, root: Root, path: string, dir: DirId)
    requires SameDirectories(a, b)
    ensures ParentBinding(a, root, path, dir) <==> ParentBinding(b, root, path, dir)
  {
    WalkSame(a, b, a.slash, root.selected);
    ResolveSame(a, b, root.dir, path);
  }

  /** "Moved back" does not mean "the file is back": another process that swaps the quarantine name
      between the commit and the verification makes the rollback return its own object. */
  lemma RollbackMayReturnImpostor(o: Oracle, fs: Fs, t: MoveTask, elsewhere: Slot, attrs: Attrs, content: seq<byte>)
    requires Sane(fs) && PrepareMove(o, fs, t).Some? && t.filesDir < fs.nextDir
    requires Free(fs, elsewhere) && elsewhere != Target(t)
    ensures var x := Interference([], [EnvRename(Target(t), elsewhere), EnvCreate(Target(t), attrs, content)], false,
                                  false, true, false, false);
            var run := MoveOne(o, fs, t, x);
            var after := Last(fs, run.trace);
            var p := PrepareMove(o, fs, t).value;
            && run.outcome == MoveFailed(true, false)
            && FileAt(after, p.source).Some? && FileAt(after, p.source) != Some(p.sourceId.file)
            && FileAt(after, elsewhere) == Some(p.sourceId.file)
  {
    var p := PrepareMove(o, fs, t).value;
    var source := p.source;
    var x := Interference([], [EnvRename(Target(t), elsewhere), EnvCreate(Target(t), attrs, content)], false, false,
                          true, false, false);
    var renamed := Rename(fs, source, Target(t));
    var gone := ApplyEnv(renamed, x.after[0]);
    var swapped := ApplyEnv(gone, x.after[1]);
    assert x.after[1..][1..] == [];
    assert EnvTrace(swapped, []) == [];
    assert EnvTrace(gone, x.after[1..]) == [swapped];
    assert EnvTrace(renamed, x.after) == [gone, swapped];
    assert EnvTrace(fs, []) == [];
    RenameFileKeepsDirectories(fs, source, Target(t));
    RenameFileKeepsDirectories(renamed, Target(t), elsewhere);
    assert SameDirectories(gone, swapped);
    ParentBindingSame(fs, renamed, t.root, t.member.path, source.dir);
    ParentBindingSame(renamed, gone, t.root, t.member.path, source.dir);
    ParentBindingSame(gone, swapped, t.root, t.member.path, source.dir);
    var back := Rename(swapped, Target(t), source);
    assert MoveOne(o, fs, t, x).trace == [renamed, gone, swapped, back];
  }

  // ---------------------------------------------------- restore contract

  lemma CommitRestoreSteps(o: Oracle, fs: Fs, t: RestoreTask, to: Slot, id: Identity, x: Interference)
    ensures Steps(fs, CommitRestore(o, fs, t, to, id, x).trace)
  {
    if !x.renameFails && CanRename(fs, HeldAt(t), to) {
      var renamed := Rename(fs, HeldAt(t), to);
      assert ExclusiveRename(fs, renamed);
      OneStep(fs, renamed);
      var hook := EnvTrace(renamed, x.after);
      EnvTraceSteps(renamed, x.after);
      StepsAppend(fs, [renamed], hook);
      var after := Last(renamed, hook);
      var back := RollbackRestore(after, t, to, x);
      if back != [] {
        assert ExclusiveRename(after, back[0]);
        OneStep(after, back[0]);
      }
      LastAppend(fs, [renamed], hook);
      StepsAppend(fs, [renamed] + hook, back);
    }
  }

  /** Every state change of a restore is one exclusive rename of ours or one action of another process. */
  lemma RestoreSteps(o: Oracle, fs: Fs, t: RestoreTask, x: Interference)
    ensures Steps(fs, RestoreOne(o, fs, t, x).trace)
  {
    var to := Destination(fs, t);
    if to.Some? && FileAt(fs, HeldAt(t)).Some? {
      var id := IdentityOf(fs, FileAt(fs, HeldAt(t)).value);
      EnvTraceSteps(fs, x.before);
      var middle := Last(fs, EnvTrace(fs, x.before));
      CommitRestoreSteps(o, middle, t, to.value, id, x);
      StepsAppend(fs, EnvTrace(fs, x.before), CommitRestore(o, middle, t, to.value, id, x).trace);
    }
  }

  /** What a successful restore means in the final state. */
  ghost predicate SafelyRestored(o: Oracle, after: Fs, t: RestoreTask) {
    && HeldAt(t) !in after.entries && ValidMediaPath(t.file.path)
    && InPlace(after, t.root, t.operationId, t.filesDir)
    && Resolve(after, t.root.dir, t.file.path).Some?
    && var home := FileAt(after, Resolve(after, t.root.dir, t.file.path).value);
       home.Some?
       // the object the manifest describes, byte for byte
       && var found := after.files[home.value];
          && Unhex32(t.file.keyHex) == Some(o.objectKey(home.value)) && found.attrs.links == 1
          && ParseCanonicalU64(t.file.sizeBytes) == Some(found.attrs.size) && |found.content| == found.attrs.size
          && o.digest(found.content) == t.digest
  }

  lemma CommitRestoreEnds(o: Oracle, fs: Fs, t: RestoreTask, to: Slot, id: Identity, x: Interference)
    ensures var run := CommitRestore(o, fs, t, to, id, x);
            run.restored ==> RestoreVerified(o, Last(fs, run.trace), t, to, id)
  {
    if !x.renameFails && CanRename(fs, HeldAt(t), to) {
      var renamed := Rename(fs, HeldAt(t), to);
      LastAppend(fs, [renamed], EnvTrace(renamed, x.after));
    }
  }

  lemma ResolveNamesLast(a: Fs, b: Fs, root: DirId, path: string)
    requires Resolve(a, root, path).Some? && Resolve(b, root, path).Some?
    ensures Resolve(a, root, path).value.name == Resolve(b, root, path).value.name
  {
  }

  /** The restore contract under arbitrary interference: success means the described object is back
      under its original path and its quarantine name is vacant. */
  lemma RestoreContract(o: Oracle, fs: Fs, t: RestoreTask, x: Interference)
    ensures RestoreOne(o, fs, t, x).restored ==> SafelyRestored(o, Last(fs, RestoreOne(o, fs, t, x).trace), t)
  {
    var run := RestoreOne(o, fs, t, x);
    if run.restored && HeldAt(t) in fs.entries {
      var to := Destination(fs, t).value;
      var id := IdentityOf(fs, FileAt(fs, HeldAt(t)).value);
      var before := EnvTrace(fs, x.before);
      CommitRestoreEnds(o, Last(fs, before), t, to, id, x);
      LastAppend(fs, before, CommitRestore(o, Last(fs, before), t, to, id, x).trace);
      ResolveNamesLast(fs, Last(fs, run.trace), t.root.dir, t.file.path);
    }
  }
}
