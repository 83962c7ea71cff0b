/** What a move or a restore answers, and what a failed one undoes: told from the state its verification found, with
    other processes at the commit boundary and any call failing. */
module Undoing {
  import opened Wrappers
  import opened Text
  import opened FileSystem
  import opened Paths
  import opened Manifest
  import opened Quarantine

  /** The state after one node has gone from `src` to `dst`. */
  ghost predicate NodeMoved(a: Fs, b: Fs, src: Slot, dst: Slot) {
    && src in a.entries && b.entries == (a.entries - {src})[dst := a.entries[src]]
    && b.nextDir == a.nextDir && b.slash == a.slash
  }

  lemma RenameMovesNode(fs: Fs, src: Slot, dst: Slot)
    requires CanRename(fs, src, dst)
    ensures NodeMoved(fs, Rename(fs, src, dst), src, dst)
  {
  }

  /** There and back again changes no entry. */
  lemma NodeMovedBack(a: Fs, b: Fs, c: Fs, src: Slot, dst: Slot)
    requires NodeMoved(a, b, src, dst) && NodeMoved(b, c, dst, src) && dst !in a.entries
    ensures c.entries == a.entries
  {
  }

  // -------------------------------------------------------------- moving

  /** The state in which the rename of a move is tried. */
  function CommitState(fs: Fs, x: Interference): Fs { Last(fs, EnvTrace(fs, x.before)) }

  /** The rename of a move happens. */
  predicate MoveCommits(o: Oracle, fs: Fs, t: MoveTask, x: Interference) {
    && !x.prepareFails && !x.renameFails
    && PrepareMove(o, fs, t).Some?
    && var here := CommitState(fs, x);
       PrepareMove(o, fs, t).value.source in here.entries && Target(t) !in here.entries && t.filesDir < here.nextDir
  }

  /** The directory at `dir` is still the one the path leads to from the authorised root. */
  predicate Contained(fs: Fs, root: Root, path: string, dir: DirId) {
    && Walk(fs, fs.slash, root.selected) == Some(root.dir)
    && Resolve(fs, root.dir, path).Some? && Resolve(fs, root.dir, path).value.dir == dir
  }

  /** A move is reported as not begun exactly if its rename did not happen; otherwise it is reported as done exactly if
      the verification passed. */
  lemma MoveAnswers(o: Oracle, fs: Fs, t: MoveTask, x: Interference)
    ensures var outcome := MoveOne(o, fs, t, x).outcome;
            && (outcome.NotMoved? <==> !MoveCommits(o, fs, t, x))
            && (MoveCommits(o, fs, t, x) ==>
                  var p := PrepareMove(o, fs, t).value;
                  outcome.Moved? <==> !x.verifyFails && MoveVerified(o, VerifyState(fs, t, p, x), t, p))
  {
    hide PrepareMove, MoveVerified, InQuarantine, ParentBinding, Rename;
  }

  /** The very object that was to be moved is under its quarantine name, in the operation's own directory. */
  ghost predicate LiesInQuarantine(fs: Fs, t: MoveTask, id: Identity) {
    && InPlace(fs, t.root, t.operationId, t.filesDir)
    && FileAt(fs, Target(t)) == Some(id.file) && id.file in fs.files && fs.files[id.file].attrs == id.attrs
  }

  lemma LyingIsFound(fs: Fs, t: MoveTask, id: Identity)
    ensures InQuarantine(fs, t, id) <==> LiesInQuarantine(fs, t, id)
  {
    hide Walk;
  }

  /** A move that was committed and not verified is undone exactly if the rename back works and has somewhere to go: the
      moved-to name is taken, the moved-from name is vacant, and its directory is still contained. Then the node has its
      old name again; otherwise nothing more is changed. */
  lemma FailedMoveIsUndone(o: Oracle, fs: Fs, t: MoveTask, x: Interference)
    requires MoveCommits(o, fs, t, x) && !MoveOne(o, fs, t, x).outcome.Moved?
    ensures var p := PrepareMove(o, fs, t).value;
            var found := VerifyState(fs, t, p, x);
            var run := MoveOne(o, fs, t, x);
            var last := Last(fs, run.trace);
            && run.outcome.MoveFailed?
            && (run.outcome.rolledBack <==>
                  && !x.rollbackFails && Contained(found, t.root, t.member.path, p.source.dir)
                  && Target(t) in found.entries && p.source !in found.entries && p.source.dir < found.nextDir)
            && (run.outcome.rolledBack ==> NodeMoved(found, last, Target(t), p.source))
            && (!run.outcome.rolledBack ==> last == found)
            && (run.outcome.committedInQuarantine <==>
                  !run.outcome.rolledBack && !x.recheckFails && LiesInQuarantine(found, t, p.sourceId))
            && (run.outcome.rolledBack && Calm(x) ==> last.entries == fs.entries)
  {
    var p := PrepareMove(o, fs, t).value;
    hide PrepareMove, MoveVerified, InQuarantine, LiesInQuarantine, Rename, Resolve, Walk;
    LyingIsFound(VerifyState(fs, t, p, x), t, p.sourceId);
    var here := CommitState(fs, x);
    var renamed := Rename(here, p.source, Target(t));
    var hook := EnvTrace(renamed, x.after);
    var found := Last(renamed, hook);
    var back := RollbackMove(found, t, p, x).trace;
    LastAppend(here, [renamed], hook);
    LastAppend(here, [renamed] + hook, back);
    LastAppend(fs, EnvTrace(fs, x.before), [renamed] + hook + back);
    RenameMovesNode(here, p.source, Target(t));
    if back != [] {
      RenameMovesNode(found, Target(t), p.source);
      if Calm(x) {
        CalmStates(fs, renamed, x);
        NodeMovedBack(fs, renamed, back[0], p.source, Target(t));
      }
    }
  }

  lemma CalmStates(fs: Fs, renamed: Fs, x: Interference)
    requires Calm(x)
    ensures Last(fs, EnvTrace(fs, x.before)) == fs && Last(renamed, EnvTrace(renamed, x.after)) == renamed
  {
  }

  /** Nobody interferes, the verification fails and the rename back works: the file is back and every entry is as it
      was. */
  lemma UnverifiedMoveReturns(o: Oracle, fs: Fs, t: MoveTask, x: Interference)
    requires Sane(fs) && PrepareMove(o, fs, t).Some? && t.filesDir < fs.nextDir
    requires Calm(x) && !x.prepareFails && !x.renameFails && x.verifyFails && !x.rollbackFails
    ensures MoveOne(o, fs, t, x).outcome == MoveFailed(true, false)
    ensures Last(fs, MoveOne(o, fs, t, x).trace).entries == fs.entries
  {
    var p := PrepareMove(o, fs, t).value;
    PreparedMeans(o, fs, t);
    CalmStates(fs, fs, x);
    assert MoveCommits(o, fs, t, x);
    MoveAnswers(o, fs, t, x);
    FailedMoveIsUndone(o, fs, t, x);
    var renamed := Rename(fs, p.source, Target(t));
    CalmStates(fs, renamed, x);
    RenameFileKeepsDirectories(fs, p.source, Target(t));
    WalkSame(fs, renamed, fs.slash, t.root.selected);
    ResolveSame(fs, renamed, t.root.dir, t.member.path);
    hide PrepareMove, MoveVerified, InQuarantine, Resolve, Walk, MoveOne;
  }

  /** What preparing a move has found. */
  lemma PreparedMeans(o: Oracle, fs: Fs, t: MoveTask)
    requires PrepareMove(o, fs, t).Some?
    ensures var p := PrepareMove(o, fs, t).value;
            && Contained(fs, t.root, t.member.path, p.source.dir)
            && Resolve(fs, t.root.dir, t.member.path) == Some(p.source)
            && FileAt(fs, p.source) == Some(p.sourceId.file) && p.source in fs.entries && Target(t) !in fs.entries
  {
    hide NoCompanion, Walk, Resolve;
  }

  // ---------------------------------------------------------- companions

  /** The file that keeps extended attributes, or a sidecar of the file or of its stem. */
  predicate Beside(stem: string, extension: string, name: string) {
    || name == "._" + (stem + "." + extension)
    || (exists e :: e in SidecarNames() && (name == stem + "." + extension + "." + e || name == stem + "." + e))
  }

  function SidecarNames(): set<string> {
    {"xmp", "XMP", "aae", "AAE", "thm", "THM", "dop", "DOP", "pp3", "PP3", "on1", "ON1", "json", "JSON", "xml", "XML"}
  }

  lemma SidecarIsKnown(e: string)
    requires e in SidecarNames()
    ensures exists i :: 0 <= i < |SIDECAR_EXTENSIONS| && SIDECAR_EXTENSIONS[i] == e
  {
    var all := SIDECAR_EXTENSIONS;
    assert all[0] == "xmp" && all[1] == "XMP" && all[2] == "aae" && all[3] == "AAE" && all[4] == "thm";
    assert all[5] == "THM" && all[6] == "dop" && all[7] == "DOP" && all[8] == "pp3" && all[9] == "PP3";
    assert all[10] == "on1" && all[11] == "ON1" && all[12] == "json" && all[13] == "JSON" && all[14] == "xml";
    assert all[15] == "XML";
  }

  lemma BesideIsCompanion(stem: string, extension: string, name: string)
    requires '.' !in extension && Beside(stem, extension, name) && name != stem + "." + extension
    ensures IsCompanionName(stem + "." + extension, name)
  {
    var file := stem + "." + extension;
    ExtensionStarts(file, |stem| + 1);
    assert file[..|stem| + 1] == stem + ".";
    if name != "._" + file {
      var e :| e in SidecarNames() && (name == file + "." + e || name == stem + "." + e);
      SidecarIsKnown(e);
      var i :| 0 <= i < |SIDECAR_EXTENSIONS| && SIDECAR_EXTENSIONS[i] == e;
      hide SIDECAR_EXTENSIONS, SidecarNames;
      assert name == file + "." + SIDECAR_EXTENSIONS[i] || name == file[..|stem| + 1] + SIDECAR_EXTENSIONS[i];
    }
  }

  /** A file that has something beside it is never moved: the move ends before anything is changed. */
  lemma AccompaniedStays(o: Oracle, fs: Fs, t: MoveTask, x: Interference, at: Slot, stem: string, extension: string,
                         beside: Name)
    requires Resolve(fs, t.root.dir, t.member.path) == Some(at) && at.name == stem + "." + extension
    requires '.' !in extension && Beside(stem, extension, beside) && beside != at.name
    requires Slot(at.dir, beside) in fs.entries
    ensures MoveOne(o, fs, t, x) == MoveRun([], NotMoved)
  {
    BesideIsCompanion(stem, extension, beside);
    hide IsCompanionName, Beside, Resolve, FilesBinding, CommitMove;
  }

  // ----------------------------------------------------------- restoring

  /** The rename of a restore happens, to the slot `to`. */
  predicate RestoreCommits(o: Oracle, fs: Fs, t: RestoreTask, x: Interference, to: Slot) {
    && !x.prepareFails && !x.renameFails && Destination(fs, t) == Some(to)
    && HeldAt(t) in fs.entries && to !in fs.entries
    && FileAt(fs, HeldAt(t)).Some? && MatchesManifest(o, fs, FileAt(fs, HeldAt(t)).value, t)
    && var here := CommitState(fs, x);
       HeldAt(t) in here.entries && to !in here.entries && to.dir < here.nextDir
  }

  /** The state the verification of a restore finds. */
  function RestoredState(fs: Fs, t: RestoreTask, x: Interference, to: Slot): Fs
    requires CanRename(CommitState(fs, x), HeldAt(t), to)
  {
    var renamed := Rename(CommitState(fs, x), HeldAt(t), to);
    Last(renamed, EnvTrace(renamed, x.after))
  }

  /** When a restore answers that the file is back: it was already there and matches, or it was renamed and verified.
      In every other case without a rename nothing is changed but by others. */
  lemma RestoreAnswers(o: Oracle, fs: Fs, t: RestoreTask, x: Interference, to: Slot)
    requires Destination(fs, t) == Some(to)
    ensures var run := RestoreOne(o, fs, t, x);
            && (HeldAt(t) !in fs.entries && to in fs.entries ==>
                  run.trace == []
                  && (run.restored <==> !x.prepareFails && FileAt(fs, to).Some?
                                        && MatchesManifest(o, fs, FileAt(fs, to).value, t)))
            && (RestoreCommits(o, fs, t, x, to) ==>
                  (run.restored <==> !x.verifyFails && RestoreVerified(o, RestoredState(fs, t, x, to), t, to,
                                                         IdentityOf(fs, FileAt(fs, HeldAt(t)).value))))
            && ((HeldAt(t) in fs.entries <==> to in fs.entries) ==> run == RestoreRun([], false))
            && (HeldAt(t) in fs.entries && !RestoreCommits(o, fs, t, x, to) ==>
                  !run.restored && (run.trace == [] || run.trace == EnvTrace(fs, x.before)))
  {
    hide Destination, MatchesManifest, RestoreVerified, Rename;
    assert EnvTrace(fs, x.before) + [] == EnvTrace(fs, x.before);
  }

  /** Without a destination nothing is done and nothing promised. */
  lemma NoDestination(o: Oracle, fs: Fs, t: RestoreTask, x: Interference)
    requires Destination(fs, t).None? || x.prepareFails
    ensures RestoreOne(o, fs, t, x) == RestoreRun([], false)
  {
    hide Destination;
  }

  /** A restore that was committed and not verified is undone exactly if the rename back works and has somewhere to go.
      Then the node is in quarantine again; otherwise nothing more is changed. */
  lemma FailedRestoreIsUndone(o: Oracle, fs: Fs, t: RestoreTask, x: Interference, to: Slot)
    requires RestoreCommits(o, fs, t, x, to) && !RestoreOne(o, fs, t, x).restored
    ensures var found := RestoredState(fs, t, x, to);
            var last := Last(fs, RestoreOne(o, fs, t, x).trace);
            var undone := && !x.rollbackFails && to in found.entries && HeldAt(t) !in found.entries
                          && t.filesDir < found.nextDir;
            && (undone ==> NodeMoved(found, last, to, HeldAt(t)))
            && (!undone ==> last == found)
            && (undone && Calm(x) ==> last.entries == fs.entries)
  {
    hide Destination, MatchesManifest, RestoreVerified, Rename;
    var here := CommitState(fs, x);
    var renamed := Rename(here, HeldAt(t), to);
    var hook := EnvTrace(renamed, x.after);
    var found := Last(renamed, hook);
    var back := RollbackRestore(found, t, to, x);
    LastAppend(here, [renamed], hook);
    LastAppend(here, [renamed] + hook, back);
    LastAppend(fs, EnvTrace(fs, x.before), [renamed] + hook + back);
    RenameMovesNode(here, HeldAt(t), to);
    if back != [] {
      RenameMovesNode(found, to, HeldAt(t));
      if Calm(x) {
        CalmStates(fs, renamed, x);
        NodeMovedBack(fs, renamed, back[0], HeldAt(t), to);
      }
    }
  }

  /** Nobody interferes, the verification fails and the rename back works: the file is in quarantine again and every
      entry is as it was. */
  lemma UnverifiedRestoreReturns(o: Oracle, fs: Fs, t: RestoreTask, x: Interference, to: Slot)
    requires RestoreCommits(o, fs, t, x, to) && t.filesDir < fs.nextDir
    requires Calm(x) && x.verifyFails && !x.rollbackFails
    ensures !RestoreOne(o, fs, t, x).restored
    ensures Last(fs, RestoreOne(o, fs, t, x).trace).entries == fs.entries
  {
    RestoreAnswers(o, fs, t, x, to);
    FailedRestoreIsUndone(o, fs, t, x, to);
    CalmStates(fs, Rename(fs, HeldAt(t), to), x);
    hide Destination, MatchesManifest, RestoreVerified, RestoreOne;
  }
}
