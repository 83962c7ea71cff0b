/** An undisturbed execution does what it was planned for: every member but the keeper ends up in
    quarantine, the keeper stays where it is, and the manifest says so. */
module ExecutionCompletes {
  import opened Wrappers
  import opened Text
  import opened FileSystem
  import opened Paths
  import opened Manifest
  import opened Quarantine
  import opened QuarantineRuns
  import opened Recovery
  import opened CrashRecovery
  import opened OperationSetup
  import Answers = ExecutionAnswers
  import Service = QuarantineService

  /** What an eligible group of independent files promises: no path and no object is listed twice. */
  predicate Independent(e: GroupEvidence) {
    forall i, j :: 0 <= i < j < |e.members| ==>
      e.members[i].path != e.members[j].path && e.members[i].key != e.members[j].key
  }

  // ------------------------------------------- private names and companions

  /** A name none of the private directories could be mistaken for. */
  predicate PrivateName(n: Name) { n == QUARANTINE_DIRECTORY || '.' !in n }

  lemma SuffixDiffers(front: string, i: nat)
    requires i < |SIDECAR_EXTENSIONS|
    ensures '.' in front ==> !PrivateName(front + SIDECAR_EXTENSIONS[i])
  {
    var ext := SIDECAR_EXTENSIONS[i];
    var n := front + ext;
    var q := QUARANTINE_DIRECTORY;
    assert |ext| >= 3 && !(ext[|ext| - 1] == 'e' && ext[|ext| - 2] == 'n');
    assert n[|n| - 1] == ext[|ext| - 1] && n[|n| - 2] == ext[|ext| - 2];
    assert q[|q| - 1] == 'e' && q[|q| - 2] == 'n';
    if '.' in front {
      var k :| 0 <= k < |front| && front[k] == '.';
      assert n[k] == '.';
    }
  }

  lemma ResourceForkIsNotPrivate(name: string)
    ensures !PrivateName("._" + name)
  {
    var n := "._" + name;
    assert n[0] == '.';
    assert n[1] == '_' && QUARANTINE_DIRECTORY[1] == 'g';
  }

  /** No private directory name is a companion name of any file. */
  lemma PrivateIsNoCompanion(name: string, candidate: string)
    requires PrivateName(candidate)
    ensures !IsCompanionName(name, candidate)
  {
    var dot := AfterLastDot(name);
    ResourceForkIsNotPrivate(name);
    forall i | 0 <= i < |SIDECAR_EXTENSIONS|
      ensures candidate != name + "." + SIDECAR_EXTENSIONS[i]
      ensures dot > 0 ==> candidate != name[..dot] + SIDECAR_EXTENSIONS[i]
    {
      assert (name + ".")[|name|] == '.';
      SuffixDiffers(name + ".", i);
      if dot > 0 {
        assert name[..dot][dot - 1] == '.';
        SuffixDiffers(name[..dot], i);
      }
    }
    hide PrivateName;
  }

  ghost predicate OnlyPrivateNew(a: Fs, b: Fs) { forall s :: s in b.entries && s !in a.entries ==> PrivateName(s.name) }

  lemma BelowPrivate(fs: Fs, previous: MkdirRun, name: Name, exclusive: bool, fails: bool, rejects: bool)
    requires OnlyPrivateNew(fs, Last(fs, previous.trace)) && PrivateName(name)
    ensures OnlyPrivateNew(fs, Last(fs, Below(fs, previous, name, exclusive, fails, rejects).trace))
  {
    if previous.dir.Some? {
      var here := Last(fs, previous.trace);
      var at := Slot(previous.dir.value, name);
      var next := if exclusive then NewDir(here, at, fails, rejects) else EnsureDir(here, at, fails, rejects);
      LastAppend(fs, previous.trace, next.trace);
    }
  }

  lemma SetupPrivate(fs: Fs, root: Root, operationId: string, x: Adversary)
    requires ValidOperationId(operationId)
    ensures OnlyPrivateNew(fs, Last(fs, FilesDirRun(fs, root, operationId, x).trace))
  {
    OperationIdPrivate(operationId);
    hide Below, OnlyPrivateNew, PrivateName, ValidOperationId;
    var at := Slot(root.dir, QUARANTINE_DIRECTORY);
    var quarantine := EnsureDir(fs, at, x.mkdirFails(0), x.mkdirRejects(0));
    FirstPrivate(fs, at, x.mkdirFails(0), x.mkdirRejects(0));
    FixedPrivate();
    BelowPrivate(fs, quarantine, OPERATIONS_DIRECTORY, false, x.mkdirFails(1), x.mkdirRejects(1));
    var operations := Below(fs, quarantine, OPERATIONS_DIRECTORY, false, x.mkdirFails(1), x.mkdirRejects(1));
    BelowPrivate(fs, operations, operationId, true, x.mkdirFails(2), x.mkdirRejects(2));
    BelowPrivate(fs, OperationDirRun(fs, root, operationId, x), FILES_DIRECTORY, true, x.mkdirFails(3),
                 x.mkdirRejects(3));
  }

  lemma FirstPrivate(fs: Fs, at: Slot, fails: bool, rejects: bool)
    requires at.name == QUARANTINE_DIRECTORY
    ensures OnlyPrivateNew(fs, Last(fs, EnsureDir(fs, at, fails, rejects).trace))
  {
  }

  lemma FixedPrivate()
    ensures PrivateName(OPERATIONS_DIRECTORY) && PrivateName(FILES_DIRECTORY)
  {
  }

  lemma OperationIdPrivate(id: string)
    requires ValidOperationId(id)
    ensures PrivateName(id)
  {
    forall i | 0 <= i < |id|
      ensures id[i] != '.'
    {
      assert i < |OPERATION_ID_PREFIX| ==> id[i] == id[..|OPERATION_ID_PREFIX|][i];
    }
  }

  // ----------------------------------------------------- a scene to execute

  ghost predicate KeeperStands(o: Oracle, fs: Fs, plan: Plan, slot: Slot, f: FileId)
    requires Loaded(plan.evidence)
  {
    && Resolve(fs, plan.root.dir, KeeperOf(plan.evidence).path) == Some(slot)
    && NodeAt(fs, slot) == Some(FileNode(f)) && f in fs.files && MemberMatches(o, fs, f, KeeperOf(plan.evidence))
  }

  /** The i-th item is apart from the keeper, equal to it, unaccompanied, and still the sealed member. */
  ghost predicate Movable(sc: Scene, plan: Plan, i: nat, slot: Slot, f: FileId)
    requires i < |sc.items| && i < |MoversOf(plan)|
  {
    var it, m := sc.items[i], MoversOf(plan)[i];
    && it.slot != slot && it.held != slot && it.file != f
    && it.slot.dir != sc.site.filesDir && NoCompanion(sc.base, it.slot)
    && it.file in sc.base.files && f in sc.base.files && MemberMatches(sc.o, sc.base, it.file, m)
    && sc.base.files[it.file].content == sc.base.files[f].content && |sc.base.files[f].content| == m.size
    && sc.o.digest(sc.base.files[f].content) == plan.digest
    && it.held.dir == sc.site.filesDir
  }

  ghost predicate Executable(sc: Scene, plan: Plan, slot: Slot, f: FileId) {
    && Loaded(plan.evidence) && |sc.items| == |MoversOf(plan)| && PlanOf(sc, plan)
    && KeeperStands(sc.o, sc.base, plan, slot, f)
    && forall i :: 0 <= i < |sc.items| ==> Movable(sc, plan, i, slot, f)
  }

  lemma KeeperUnplaced(sc: Scene, plan: Plan, slot: Slot, f: FileId)
    requires Executable(sc, plan, slot, f)
    ensures !ItemSlot(sc.items, slot)
  {
    forall i | 0 <= i < |sc.items|
      ensures sc.items[i].slot != slot && sc.items[i].held != slot
    {
      assert Movable(sc, plan, i, slot, f);
    }
  }

  /** Moving other files leaves the keeper where it is. */
  lemma KeeperStays(sc: Scene, plan: Plan, fs: Fs, away: set<nat>, slot: Slot, f: FileId)
    requires SceneOK(sc) && Executable(sc, plan, slot, f) && Placed(sc.base, sc.items, fs, away)
    ensures KeeperStands(sc.o, fs, plan, slot, f) && fs.files[f].content == sc.base.files[f].content
  {
    hide Movable, Resolve, Described;
    KeeperUnplaced(sc, plan, slot, f);
    PlacedBindings(sc, fs, away);
    ResolveSame(sc.base, fs, sc.site.root.dir, KeeperOf(plan.evidence).path);
    assert NodeAt(fs, slot) == NodeAt(sc.base, slot);
  }

  /** Moving files away brings no companion beside the next one. */
  lemma NoCompanionComes(sc: Scene, fs: Fs, away: set<nat>, at: Slot)
    requires Placed(sc.base, sc.items, sc.base, {}) && Placed(sc.base, sc.items, fs, away) && NoCompanion(sc.base, at)
    requires forall j :: 0 <= j < |sc.items| ==> sc.items[j].held.dir != at.dir
    ensures NoCompanion(fs, at)
  {
    forall s | s in fs.entries && s.dir == at.dir
      ensures !IsCompanionName(at.name, s.name)
    {
      if ItemSlot(sc.items, s) {
        var j :| 0 <= j < |sc.items| && (sc.items[j].slot == s || sc.items[j].held == s);
        assert ItemPlaced(sc.base, sc.items[j], false);
      } else {
        assert NodeAt(fs, s) == NodeAt(sc.base, s);
      }
    }
  }

  lemma MemberFound(o: Oracle, fs: Fs, root: Root, m: MemberEvidence, slot: Slot, f: FileId)
    requires Resolve(fs, root.dir, m.path) == Some(slot) && NodeAt(fs, slot) == Some(FileNode(f))
    requires f in fs.files && MemberMatches(o, fs, f, m)
    ensures MemberFile(o, fs, root, m) == Some(f)
  {
    hide Resolve, MemberMatches;
  }

  lemma PrepareSucceeds(o: Oracle, fs: Fs, t: MoveTask, source: Slot, kf: FileId, mf: FileId)
    requires ValidOperationId(t.operationId) && FilesBinding(fs, t.root, t.operationId, t.filesDir)
    requires Resolve(fs, t.root.dir, t.member.path) == Some(source) && NoCompanion(fs, source)
    requires MemberFile(o, fs, t.root, t.keeper) == Some(kf) && MemberFile(o, fs, t.root, t.member) == Some(mf)
    requires kf in fs.files && mf in fs.files && Target(t) !in fs.entries
    requires fs.files[kf].content == fs.files[mf].content && |fs.files[mf].content| == t.member.size
    requires o.digest(fs.files[kf].content) == t.digest
    ensures PrepareMove(o, fs, t) == Some(MoveReady(source, IdentityOf(fs, kf), IdentityOf(fs, mf)))
  {
    hide ValidOperationId, FilesBinding, Resolve, NoCompanion, MemberFile;
  }

  /** What the next item to move looks like in any state in which only earlier ones have been moved. */
  lemma NextItem(sc: Scene, plan: Plan, m: OperationManifest, fs: Fs, away: set<nat>, i: nat, slot: Slot, f: FileId)
    requires SceneOK(sc) && Executable(sc, plan, slot, f) && SameOperation(sc.template, m)
    requires LoopBounds(plan, m, i) && i < |m.files| == |sc.items| && Placed(sc.base, sc.items, fs, away)
    ensures var t := MoveTaskFor(plan, sc.site, m, i);
            var it := sc.items[i];
            && MovesItem(sc, t, i) && Target(t) == it.held && Resolve(fs, t.root.dir, t.member.path) == Some(it.slot)
            && ItemPlaced(fs, it, i in away) && it.file in fs.files
            && FilesBinding(fs, t.root, t.operationId, t.filesDir)
            && ValidOperationId(t.operationId) && it.file != f
            && MemberMatches(sc.o, fs, it.file, t.member) && sc.base.files[it.file].content == fs.files[it.file].content
            && |fs.files[it.file].content| == t.member.size && sc.o.digest(fs.files[it.file].content) == t.digest
            && NoCompanion(sc.base, it.slot) && it.slot.dir != sc.site.filesDir
            && sc.base.files[it.file].content == sc.base.files[f].content
  {
    hide Described, Resolve, ValidMediaPath, Walk, StableBinding, NoCompanion;
    var t := MoveTaskFor(plan, sc.site, m, i);
    MovesItemFor(sc, plan, m, i);
    MoveTargets(sc, fs, away, t, i);
    assert Movable(sc, plan, i, slot, f);
    hide OthersUntouched, ItemPlaced, DistinctItems, MovesItem;
  }

  lemma HeldApart(sc: Scene, plan: Plan, slot: Slot, f: FileId)
    requires Executable(sc, plan, slot, f)
    ensures forall j :: 0 <= j < |sc.items| ==> sc.items[j].held.dir == sc.site.filesDir
  {
    forall j | 0 <= j < |sc.items|
      ensures sc.items[j].held.dir == sc.site.filesDir
    {
      assert Movable(sc, plan, j, slot, f);
    }
  }

  lemma SceneAtHome(sc: Scene)
    requires SceneOK(sc)
    ensures Placed(sc.base, sc.items, sc.base, {})
  {
  }

  lemma ReadyToMove(sc: Scene, plan: Plan, m: OperationManifest, fs: Fs, i: nat, slot: Slot, f: FileId)
    requires SceneOK(sc) && Executable(sc, plan, slot, f) && SameOperation(sc.template, m)
    requires LoopBounds(plan, m, i) && i < |m.files| == |sc.items| && Placed(sc.base, sc.items, fs, UpTo(i))
    ensures var it := sc.items[i];
            && it.file in fs.files && f in fs.files
            && PrepareMove(sc.o, fs, MoveTaskFor(plan, sc.site, m, i))
               == Some(MoveReady(it.slot, IdentityOf(fs, f), IdentityOf(fs, it.file)))
  {
    var t := MoveTaskFor(plan, sc.site, m, i);
    var it := sc.items[i];
    PlanRoot(sc, plan, slot, f);
    hide SceneOK, Executable, Placed, SameOperation, PlanOf, PrepareMove, Resolve, NoCompanion, FilesBinding,
         MemberMatches, MemberFile, ValidOperationId, MovesItem;
    NextItem(sc, plan, m, fs, UpTo(i), i, slot, f);
    KeeperStays(sc, plan, fs, UpTo(i), slot, f);
    HeldApart(sc, plan, slot, f);
    SceneAtHome(sc);
    NoCompanionComes(sc, fs, UpTo(i), it.slot);
    MemberFound(sc.o, fs, t.root, t.keeper, slot, f);
    MemberFound(sc.o, fs, t.root, t.member, it.slot, it.file);
    PrepareSucceeds(sc.o, fs, t, it.slot, f, it.file);
  }

  lemma PlanRoot(sc: Scene, plan: Plan, slot: Slot, f: FileId)
    requires Executable(sc, plan, slot, f)
    ensures plan.root == sc.site.root
  {
  }

  lemma VerifySucceeds(o: Oracle, fs: Fs, t: MoveTask, p: MoveReady)
    requires FilesBinding(fs, t.root, t.operationId, t.filesDir) && StableBinding(fs, t.root)
    requires MemberFile(o, fs, t.root, t.keeper) == Some(p.keeperId.file) && p.keeperId.file in fs.files
    requires IdentityOf(fs, p.keeperId.file) == p.keeperId
    requires Resolve(fs, t.root.dir, t.member.path) == Some(p.source) && p.source !in fs.entries
    requires FileAt(fs, Target(t)) == Some(p.sourceId.file) && SameObject(IdentityOf(fs, p.sourceId.file), p.sourceId)
    requires |fs.files[p.sourceId.file].content| == t.member.size
    requires o.digest(fs.files[p.sourceId.file].content) == t.digest
    ensures MoveVerified(o, fs, t, p)
  {
    hide FilesBinding, StableBinding, MemberFile, Resolve;
  }

  lemma RenameSpares(fs: Fs, src: Slot, dst: Slot, moving: FileId, f: FileId)
    requires CanRename(fs, src, dst) && NodeAt(fs, src) == Some(FileNode(moving)) && moving in fs.files
    requires f in fs.files && f != moving
    ensures var after := Rename(fs, src, dst);
            && f in after.files && moving in after.files && IdentityOf(after, f) == IdentityOf(fs, f)
            && SameObject(IdentityOf(after, moving), IdentityOf(fs, moving))
  {
  }

  lemma MoveVerifies(sc: Scene, plan: Plan, m: OperationManifest, fs: Fs, i: nat, slot: Slot, f: FileId)
    requires SceneOK(sc) && Executable(sc, plan, slot, f) && SameOperation(sc.template, m)
    requires LoopBounds(plan, m, i) && i < |m.files| == |sc.items| && Placed(sc.base, sc.items, fs, UpTo(i))
    ensures var it := sc.items[i];
            && it.file in fs.files && f in fs.files && CanRename(fs, it.slot, it.held)
            && MoveVerified(sc.o, Rename(fs, it.slot, it.held), MoveTaskFor(plan, sc.site, m, i),
                            MoveReady(it.slot, IdentityOf(fs, f), IdentityOf(fs, it.file)))
  {
    var t := MoveTaskFor(plan, sc.site, m, i);
    var it := sc.items[i];
    PlanRoot(sc, plan, slot, f);
    hide SceneOK, Executable, Placed, SameOperation, PlanOf, MoveVerified, Resolve, NoCompanion, FilesBinding,
         MemberMatches, MemberFile, ValidOperationId, MovesItem, StableBinding, Rename, CanRename;
    PlacedAwayAndBack(sc, fs, i);
    var moved := Rename(fs, it.slot, it.held);
    NextItem(sc, plan, m, fs, UpTo(i), i, slot, f);
    NextItem(sc, plan, m, moved, UpTo(i + 1), i, slot, f);
    KeeperStays(sc, plan, fs, UpTo(i), slot, f);
    KeeperStays(sc, plan, moved, UpTo(i + 1), slot, f);
    PlacedBindings(sc, moved, UpTo(i + 1));
    MemberFound(sc.o, moved, t.root, t.keeper, slot, f);
    RenameSpares(fs, it.slot, it.held, it.file, f);
    VerifySucceeds(sc.o, moved, t, MoveReady(it.slot, IdentityOf(fs, f), IdentityOf(fs, it.file)));
  }

  lemma FaultlessMove(o: Oracle, fs: Fs, t: MoveTask, p: MoveReady, x: Interference)
    requires Faultless(x) && PrepareMove(o, fs, t) == Some(p) && CanRename(fs, p.source, Target(t))
    requires MoveVerified(o, Rename(fs, p.source, Target(t)), t, p)
    ensures MoveOne(o, fs, t, x) == MoveRun([Rename(fs, p.source, Target(t))], Moved)
  {
    hide PrepareMove, MoveVerified, CanRename, Rename;
    assert EnvTrace(fs, x.before) == [];
    assert EnvTrace(Rename(fs, p.source, Target(t)), x.after) == [];
  }

  /** Undisturbed, the next member moves. */
  lemma NextMoves(sc: Scene, plan: Plan, m: OperationManifest, fs: Fs, i: nat, x: Interference, slot: Slot, f: FileId)
    requires SceneOK(sc) && Executable(sc, plan, slot, f) && SameOperation(sc.template, m) && Faultless(x)
    requires LoopBounds(plan, m, i) && i < |m.files| == |sc.items| && Placed(sc.base, sc.items, fs, UpTo(i))
    ensures MoveOne(sc.o, fs, MoveTaskFor(plan, sc.site, m, i), x).outcome == Moved
  {
    var t := MoveTaskFor(plan, sc.site, m, i);
    var it := sc.items[i];
    hide SceneOK, Executable, Placed, SameOperation, PrepareMove, MoveVerified, CanRename, Rename, Faultless;
    NextItem(sc, plan, m, fs, UpTo(i), i, slot, f);
    ReadyToMove(sc, plan, m, fs, i, slot, f);
    MoveVerifies(sc, plan, m, fs, i, slot, f);
    FaultlessMove(sc.o, fs, t, MoveReady(it.slot, IdentityOf(fs, f), IdentityOf(fs, it.file)), x);
  }

  // ----------------------------------------------------------- the whole run

  /** Every mover is in quarantine, everything else untouched, and a valid manifest says exactly that. */
  ghost predicate FullyQuarantined(sc: Scene, d: Disk) {
    && Placed(sc.base, sc.items, d.fs, UpTo(|sc.items|))
    && sc.site.opDir in d.manifests && ManifestOf(sc, d.manifests[sc.site.opDir])
    && d.manifests[sc.site.opDir].status == AllQuarantined
    && Shape(d.manifests[sc.site.opDir].files, 0, |sc.items|)
  }

  lemma ShapeKnown(m: OperationManifest, k: nat)
    requires Shape(m.files, 0, k) && !m.status.UnknownStatus?
    ensures KnownStates(m)
  {
  }

  lemma LoopReadyParts(sc: Scene, d: Disk, plan: Plan, m: OperationManifest, i: nat, x: Adversary)
    requires LoopReady(sc, d, plan, m, i, x)
    ensures SceneOK(sc) && LoopBounds(plan, m, i) && SameOperation(sc.template, m) && Shape(m.files, 0, i)
    ensures Placed(sc.base, sc.items, d.fs, UpTo(i)) && |m.files| == |sc.items|
    ensures sc.site.opDir in d.manifests && ManifestOf(sc, d.manifests[sc.site.opDir])
    ensures sc.template.operationId == sc.site.operationId
  {
    TaskCountOf(sc, m);
    hide Placed, ManifestOf, SameOperation, Shape;
  }

  lemma CloseQuarantines(sc: Scene, d: Disk, plan: Plan, m: OperationManifest, x: Adversary)
    requires LoopReady(sc, d, plan, m, |m.files|, x) && Undisturbed(x, sc.template.created)
    ensures LoopBounds(plan, m, |m.files|)
    ensures var run := ExecFrom(sc.o, d, plan, sc.site, m, |m.files|, x);
            run.end == Completed && run.moved == |m.files| && FullyQuarantined(sc, LastDisk(d, run.trace))
  {
    hide LoopReady, SceneOK, Placed, SameOperation, ManifestOf, Undisturbed, Write, ExecFrom, LoopBounds, KnownStates,
         Shape;
    LoopReadyParts(sc, d, plan, m, |m.files|, x);
    var done := m.(status := AllQuarantined);
    UpdatesSameOperation(sc.template, m, 0, Quarantined, AllQuarantined, 0);
    ShapeKnown(done, |m.files|);
    NothingFails(x, sc.template.created, |m.files| + 2);
    PlacedBindings(sc, d.fs, UpTo(|m.files|));
    WriteSucceeds(sc, d, done, x, |m.files| + 2);
    WriteRecoverable(sc, d, done, x, |m.files| + 2);
    BoundsGive(plan, m, |m.files|);
    Service.ExecFromCloses(sc.o, d, plan, sc.site, m, x);
  }

  lemma BoundsGive(plan: Plan, m: OperationManifest, i: nat)
    requires LoopBounds(plan, m, i)
    ensures Loaded(plan.evidence) && i <= |m.files| == |Movers(plan.evidence.members, plan.evidence.keeperOrdinal)|
  {
  }

  /** One undisturbed turn of the loop: the member moves, and the manifest that says so reaches the disk. */
  lemma TurnCompletes(sc: Scene, d: Disk, plan: Plan, m: OperationManifest, i: nat, x: Adversary, slot: Slot, f: FileId)
    requires LoopReady(sc, d, plan, m, i, x) && i < |m.files| && m.status == Quarantining
    requires Executable(sc, plan, slot, f) && Undisturbed(x, sc.template.created)
    ensures LoopBounds(plan, m, i)
    ensures var move := MoveOne(sc.o, d.fs, MoveTaskFor(plan, sc.site, m, i), x.moves(i));
            var after := SetState(m, i, Quarantined);
            var w := Write(LastDisk(d, Lift(d, move.trace)), sc.site.opDir, after, x, i + 2);
            && move.outcome == Moved && w.Some?
            && LoopReady(sc, w.value, plan, Stamp(after, x.now(i + 2)), i + 1, x)
  {
    hide LoopReady, SceneOK, Placed, SameOperation, ManifestOf, Undisturbed, Write, Executable, MoveOne, KnownStates,
         Shape, Faultless, LoopBounds, MoveTaskFor;
    LoopReadyParts(sc, d, plan, m, i, x);
    BoundsGive(plan, m, i);
    NothingFails(x, sc.template.created, i);
    NextMoves(sc, plan, m, d.fs, i, x.moves(i), slot, f);
    LoopStep(sc, d, plan, m, i, x);
    var move := MoveOne(sc.o, d.fs, MoveTaskFor(plan, sc.site, m, i), x.moves(i));
    var here := LastDisk(d, Lift(d, move.trace));
    var after := SetState(m, i, Quarantined);
    UpdatesSameOperation(sc.template, m, i, Quarantined, Quarantining, 0);
    AfterMoveManifest(sc, m, i, move.outcome);
    ShapeKnown(after, i + 1);
    assert here.manifests == d.manifests;
    WriteSucceeds(sc, here, after, x, i + 2);
  }

  lemma {:induction false} ExecFromCompletes(sc: Scene, d: Disk, plan: Plan, m: OperationManifest, i: nat, x: Adversary,
                                             slot: Slot, f: FileId)
    requires LoopReady(sc, d, plan, m, i, x) && LoopBounds(plan, m, i) && m.status == Quarantining
    requires Executable(sc, plan, slot, f) && Undisturbed(x, sc.template.created)
    ensures var run := ExecFrom(sc.o, d, plan, sc.site, m, i, x);
            run.end == Completed && run.moved == |m.files| && FullyQuarantined(sc, LastDisk(d, run.trace))
    decreases |m.files| - i
  {
    hide LoopReady, Undisturbed, Write, Executable, MoveOne, LoopBounds, ExecFrom, FullyQuarantined, MoveTaskFor, Lift;
    BoundsGive(plan, m, i);
    if i == |m.files| {
      CloseQuarantines(sc, d, plan, m, x);
    } else {
      TurnCompletes(sc, d, plan, m, i, x, slot, f);
      NothingFails(x, sc.template.created, i + 2);
      Service.ExecFromNext(sc.o, d, plan, sc.site, m, i, x);
      var moved := Lift(d, MoveOne(sc.o, d.fs, MoveTaskFor(plan, sc.site, m, i), x.moves(i)).trace);
      var after := SetState(m, i, Quarantined);
      var w := Write(LastDisk(d, moved), sc.site.opDir, after, x, i + 2).value;
      var next := Stamp(after, x.now(i + 2));
      BoundsNext(plan, m, i, next);
      ExecFromCompletes(sc, w, plan, next, i + 1, x, slot, f);
      var rest := ExecFrom(sc.o, w, plan, sc.site, next, i + 1, x).trace;
      assert LastDisk(d, (moved + [w]) + rest) == LastDisk(w, rest);
    }
  }

  lemma BoundsNext(plan: Plan, m: OperationManifest, i: nat, next: OperationManifest)
    requires LoopBounds(plan, m, i) && i < |m.files| == |next.files|
    ensures LoopBounds(plan, next, i + 1)
  {
  }

  // ------------------------------------------------------ from the evidence

  lemma GroupContents(o: Oracle, fs: Fs, plan: Plan, i: nat)
    requires Loaded(plan.evidence) && i < |MoversOf(plan)|
    requires ValidateGroup(o, fs, plan.root, plan.evidence) == Some(plan.digest)
    ensures var content := MemberContent(o, fs, plan.root, KeeperOf(plan.evidence));
            && content.Some? && o.digest(content.value) == plan.digest
            && MemberContent(o, fs, plan.root, MoversOf(plan)[i]) == content
            && MemberReady(o, fs, plan.root, KeeperOf(plan.evidence))
            && MemberReady(o, fs, plan.root, MoversOf(plan)[i])
  {
    hide MemberReady, MemberContent;
    MoverAt(plan.evidence, i);
    var e := plan.evidence;
    var j: nat := if i < e.keeperOrdinal then i else i + 1;
    assert MemberReady(o, fs, plan.root, e.members[j]) && MemberReady(o, fs, plan.root, e.members[e.keeperOrdinal]);
  }

  lemma MoverIsNotKeeper(plan: Plan, i: nat)
    requires Loaded(plan.evidence) && Independent(plan.evidence) && i < |MoversOf(plan)|
    ensures MoversOf(plan)[i].path != KeeperOf(plan.evidence).path
            && MoversOf(plan)[i].key != KeeperOf(plan.evidence).key
  {
    MoverAt(plan.evidence, i);
  }

  function KeeperSlot(fs: Fs, plan: Plan): Slot
    requires Loaded(plan.evidence)
  {
    var slot := Resolve(fs, plan.root.dir, KeeperOf(plan.evidence).path);
    if slot.Some? then slot.value else Slot(0, "")
  }

  function KeeperFile(o: Oracle, fs: Fs, plan: Plan): FileId
    requires Loaded(plan.evidence)
  {
    var f := MemberFile(o, fs, plan.root, KeeperOf(plan.evidence));
    if f.Some? then f.value else 0
  }

  lemma KeeperFound(o: Oracle, fs: Fs, plan: Plan, base: Fs)
    requires Sane(fs) && Loaded(plan.evidence) && Grown(fs, base)
    requires MemberReady(o, fs, plan.root, KeeperOf(plan.evidence))
    ensures KeeperStands(o, base, plan, KeeperSlot(fs, plan), KeeperFile(o, fs, plan))
    ensures Resolve(fs, plan.root.dir, KeeperOf(plan.evidence).path) == Some(KeeperSlot(fs, plan))
    ensures KeeperSlot(fs, plan).dir < fs.nextDir && KeeperFile(o, fs, plan) in fs.files
    ensures MemberContent(o, fs, plan.root, KeeperOf(plan.evidence)) == Some(fs.files[KeeperFile(o, fs, plan)].content)
    ensures o.objectKey(KeeperFile(o, fs, plan)) == KeeperOf(plan.evidence).key
  {
    ResolveGrown(fs, base, plan.root.dir, KeeperOf(plan.evidence).path);
    hide Resolve, ValidMediaPath, NoCompanion;
  }

  lemma StillNoCompanion(fs: Fs, base: Fs, at: Slot)
    requires Grown(fs, base) && OnlyPrivateNew(fs, base) && NoCompanion(fs, at)
    ensures NoCompanion(base, at)
  {
    hide IsCompanionName, PrivateName;
    forall s | s in base.entries && s.dir == at.dir
      ensures !IsCompanionName(at.name, s.name)
    {
      if s !in fs.entries {
        PrivateIsNoCompanion(at.name, s.name);
      }
    }
  }

  /** The i-th item has its own slot and its own object, away from the keeper's. */
  lemma ItemApart(o: Oracle, fs: Fs, plan: Plan, base: Fs, site: Site, now: nat, rank: DirId -> nat, i: nat)
    requires Launched(o, fs, plan, base, site, now, rank) && i < |MoversOf(plan)| && Independent(plan.evidence)
    ensures MoversOf(plan)[i].ordinal >= 0
    ensures var it := ItemOf(o, fs, plan, site, i);
            && it.slot != KeeperSlot(fs, plan) && it.file != KeeperFile(o, fs, plan)
            && it.held.dir == site.filesDir && it.slot.dir != site.filesDir && it.held != KeeperSlot(fs, plan)
  {
    LaunchedParts(o, fs, plan, base, site, now, rank);
    hide Launched, ValidateGroup, Resolve, ValidMediaPath, Independent, MemberReady, KeeperStands, Tree, Grown, Loaded,
         Movers, MemberContent, MemberFile;
    ItemFound(o, fs, plan, base, site, now, rank, i);
    ItemDescribed(o, fs, plan, base, site, now, rank, i);
    GroupContents(o, fs, plan, i);
    KeeperFound(o, fs, plan, base);
    MoverIsNotKeeper(plan, i);
    SlotsDiffer(fs, rank, plan.root.dir, MoversOf(plan)[i].path, KeeperOf(plan.evidence).path);
  }

  lemma SlotsDiffer(fs: Fs, rank: DirId -> nat, root: DirId, p: string, q: string)
    requires Tree(fs, rank) && Resolve(fs, root, p).Some? && p != q
    ensures Resolve(fs, root, p) != Resolve(fs, root, q)
  {
    hide Resolve;
    if Resolve(fs, root, p) == Resolve(fs, root, q) {
      ResolveInjective(fs, rank, root, p, q);
    }
  }

  /** The i-th item is the sealed member, equal to the keeper and without a companion. */
  lemma ItemEqual(o: Oracle, fs: Fs, plan: Plan, base: Fs, site: Site, now: nat, rank: DirId -> nat, i: nat)
    requires Launched(o, fs, plan, base, site, now, rank) && i < |MoversOf(plan)| && OnlyPrivateNew(fs, base)
    ensures MoversOf(plan)[i].ordinal >= 0
    ensures var it, kf := ItemOf(o, fs, plan, site, i), KeeperFile(o, fs, plan);
            && it.file in base.files && kf in base.files && MemberMatches(o, base, it.file, MoversOf(plan)[i])
            && base.files[it.file].content == base.files[kf].content
            && |base.files[kf].content| == MoversOf(plan)[i].size
            && o.digest(base.files[kf].content) == plan.digest && NoCompanion(base, it.slot)
  {
    LaunchedParts(o, fs, plan, base, site, now, rank);
    hide Launched, ValidateGroup, Resolve, ValidMediaPath, NoCompanion, OnlyPrivateNew, MemberReady, KeeperStands, Tree,
         Grown, Loaded, Sane, Movers, MemberMatches, MemberContent, MemberFile;
    var m := MoversOf(plan)[i];
    ItemFound(o, fs, plan, base, site, now, rank, i);
    var it := ItemOf(o, fs, plan, site, i);
    GroupContents(o, fs, plan, i);
    KeeperFound(o, fs, plan, base);
    ReadyHasNoCompanion(o, fs, plan.root, m, it.slot);
    StillNoCompanion(fs, base, it.slot);
    ItemContent(o, fs, plan, m, it.slot, it.file);
    MatchesGrown(o, fs, base, it.file, m);
  }

  lemma ItemMovable(o: Oracle, fs: Fs, plan: Plan, base: Fs, site: Site, now: nat, rank: DirId -> nat, i: nat)
    requires Launched(o, fs, plan, base, site, now, rank) && i < |MoversOf(plan)|
    requires Independent(plan.evidence) && OnlyPrivateNew(fs, base)
    ensures var sc := SceneOf(o, fs, plan, base, site, now);
            |sc.items| == |MoversOf(plan)| && Movable(sc, plan, i, KeeperSlot(fs, plan), KeeperFile(o, fs, plan))
  {
    LaunchedLoaded(o, fs, plan, base, site, now, rank);
    SceneItems(o, fs, plan, base, site, now, i);
    SceneSite(o, fs, plan, base, site, now);
    hide Launched, NoCompanion, OnlyPrivateNew, Independent, Loaded, Movers, MemberMatches, ItemOf, SceneOf, KeeperSlot,
         KeeperFile;
    ItemApart(o, fs, plan, base, site, now, rank, i);
    ItemEqual(o, fs, plan, base, site, now, rank, i);
  }

  lemma SceneSite(o: Oracle, fs: Fs, plan: Plan, base: Fs, site: Site, now: nat)
    requires Loaded(plan.evidence)
    ensures var sc := SceneOf(o, fs, plan, base, site, now); sc.site == site && sc.base == base && sc.o == o
  {
    hide Loaded, Movers, ItemOf;
  }

  lemma MatchesGrown(o: Oracle, fs: Fs, base: Fs, f: FileId, m: MemberEvidence)
    requires base.files == fs.files && f in fs.files && MemberMatches(o, fs, f, m)
    ensures MemberMatches(o, base, f, m)
  {
  }

  lemma LaunchedParts(o: Oracle, fs: Fs, plan: Plan, base: Fs, site: Site, now: nat, rank: DirId -> nat)
    requires Launched(o, fs, plan, base, site, now, rank)
    ensures Sane(fs) && Tree(fs, rank) && Loaded(plan.evidence) && Grown(fs, base) && base.files == fs.files
    ensures ValidateGroup(o, fs, plan.root, plan.evidence) == Some(plan.digest)
  {
    hide ValidateGroup, Tree, ValidManifest;
  }

  lemma ReadyHasNoCompanion(o: Oracle, fs: Fs, root: Root, m: MemberEvidence, slot: Slot)
    requires MemberReady(o, fs, root, m) && Resolve(fs, root.dir, m.path) == Some(slot)
    ensures NoCompanion(fs, slot)
  {
    hide NoCompanion, Resolve, MemberFile;
  }

  lemma ItemContent(o: Oracle, fs: Fs, plan: Plan, m: MemberEvidence, slot: Slot, f: FileId)
    requires Sane(fs) && Resolve(fs, plan.root.dir, m.path) == Some(slot) && FileAt(fs, slot) == Some(f)
    requires f in fs.files
    requires MemberMatches(o, fs, f, m)
    ensures MemberContent(o, fs, plan.root, m) == Some(fs.files[f].content) && |fs.files[f].content| == m.size
    ensures o.objectKey(f) == m.key
  {
    hide Resolve;
  }

  lemma SceneExecutable(o: Oracle, fs: Fs, plan: Plan, base: Fs, site: Site, now: nat, rank: DirId -> nat)
    requires Launched(o, fs, plan, base, site, now, rank) && |MoversOf(plan)| > 0
    requires Independent(plan.evidence) && OnlyPrivateNew(fs, base)
    ensures Executable(SceneOf(o, fs, plan, base, site, now), plan, KeeperSlot(fs, plan), KeeperFile(o, fs, plan))
  {
    var sc := SceneOf(o, fs, plan, base, site, now);
    LaunchedIsWriteReady(o, fs, plan, base, site, now, rank, Disk(base, map[]));
    GroupContents(o, fs, plan, 0);
    KeeperFound(o, fs, plan, base);
    SceneItems(o, fs, plan, base, site, now, 0);
    hide Launched, Movable, SceneOf, KeeperStands, PlanOf, WriteReady, Independent, OnlyPrivateNew, ValidateGroup;
    forall i | 0 <= i < |sc.items|
      ensures Movable(sc, plan, i, KeeperSlot(fs, plan), KeeperFile(o, fs, plan))
    {
      ItemMovable(o, fs, plan, base, site, now, rank, i);
    }
  }

  /** The first manifest is about to be written. */
  ghost predicate Prepared(o: Oracle, d: Disk, plan: Plan, x: Adversary)
    requires Loaded(plan.evidence)
  {
    var sc := SceneOfRun(o, d, plan, x);
    && FilesDirRun(d.fs, plan.root, plan.operationId, x).dir.Some? && StableBinding(sc.base, plan.root)
    && Write(Disk(sc.base, d.manifests), sc.site.opDir, sc.template, x, 1).Some?
  }

  lemma RunExecutable(o: Oracle, d: Disk, plan: Plan, x: Adversary, rank: DirId -> nat)
    requires Sane(d.fs) && Tree(d.fs, rank) && Loaded(plan.evidence) && Independent(plan.evidence)
    requires ValidateGroup(o, d.fs, plan.root, plan.evidence) == Some(plan.digest)
    requires ValidOperationId(plan.operationId) && Prepared(o, d, plan, x)
    ensures Executable(SceneOfRun(o, d, plan, x), plan, KeeperSlot(d.fs, plan), KeeperFile(o, d.fs, plan))
  {
    RunLaunches(o, d, plan, x, rank);
    MoversNonNegative(plan.evidence);
    SetupPrivate(d.fs, plan.root, plan.operationId, x);
    BaseOf(o, d, plan, x);
    hide Launched, Independent, OnlyPrivateNew, Executable, ValidateGroup, SceneOf, SceneOfRun, FilesDirRun,
         OperationDirRun, Tree, Sane, Write;
    var sc := SceneOfRun(o, d, plan, x);
    SceneExecutable(o, d.fs, plan, sc.base, sc.site, x.now(0), rank);
  }

  lemma BaseOf(o: Oracle, d: Disk, plan: Plan, x: Adversary)
    requires Loaded(plan.evidence)
    ensures var sc := SceneOfRun(o, d, plan, x);
            var operation := OperationDirRun(d.fs, plan.root, plan.operationId, x);
            var files := FilesDirRun(d.fs, plan.root, plan.operationId, x);
            && sc.base == Last(d.fs, files.trace) && sc.o == o
            && sc.template == FromPlan(plan.operationId, plan.digest, plan.evidence, x.now(0))
            && sc.template.status == Quarantining && sc.template.created == Decimal(x.now(0))
            && |sc.template.files| == |MoversOf(plan)| == |sc.items|
            && (operation.dir.Some? && files.dir.Some? ==>
                  sc.site == Site(plan.root, plan.operationId, operation.dir.value, files.dir.value))
  {
    MoversNonNegative(plan.evidence);
    hide FilesDirRun, OperationDirRun;
  }

  lemma RunUnfolds(o: Oracle, d: Disk, plan: Plan, x: Adversary)
    requires Loaded(plan.evidence) && ValidateGroup(o, d.fs, plan.root, plan.evidence) == Some(plan.digest)
    requires !x.openFails && !x.syncFails(1)
    requires Prepared(o, d, plan, x) && OperationDirRun(d.fs, plan.root, plan.operationId, x).dir.Some?
    requires LastDisk(d, Lift(d, FilesDirRun(d.fs, plan.root, plan.operationId, x).trace))
             == Disk(SceneOfRun(o, d, plan, x).base, d.manifests)
    ensures var sc := SceneOfRun(o, d, plan, x);
            var w := Write(Disk(sc.base, d.manifests), sc.site.opDir, sc.template, x, 1).value;
            var m := Stamp(sc.template, x.now(1));
            && |m.files| == |Movers(plan.evidence.members, plan.evidence.keeperOrdinal)|
            && var rest := ExecFrom(o, w, plan, sc.site, m, 0, x);
               var run := ExecPlan(o, d, plan, plan.evidence, x);
               && run.end == rest.end && run.moved == rest.moved
               && LastDisk(d, run.trace) == LastDisk(w, rest.trace)
  {
    BaseOf(o, d, plan, x);
    hide FilesDirRun, OperationDirRun, SceneOfRun, ValidateGroup, StableBinding, Write, ExecFrom, FromPlan, Loaded,
         Movers, ExecPlan, Lift;
    var sc := SceneOfRun(o, d, plan, x);
    var made := Lift(d, FilesDirRun(d.fs, plan.root, plan.operationId, x).trace);
    var w := Write(Disk(sc.base, d.manifests), sc.site.opDir, sc.template, x, 1).value;
    PlanUnfolds(o, d, plan, x, made, sc.site, sc.template, w);
    var rest := ExecFrom(o, w, plan, sc.site, Stamp(sc.template, x.now(1)), 0, x);
    EndsAsRest(d, made, w, rest.trace);
  }

  lemma EndsAsRest(d: Disk, made: seq<Disk>, w: Disk, rest: seq<Disk>)
    ensures LastDisk(d, made + [w] + rest) == LastDisk(w, rest)
  {
  }

  lemma PlanUnfolds(o: Oracle, d: Disk, plan: Plan, x: Adversary, made: seq<Disk>, site: Site, m: OperationManifest,
                    w: Disk)
    requires Loaded(plan.evidence) && ValidateGroup(o, d.fs, plan.root, plan.evidence) == Some(plan.digest)
    requires !x.openFails && !x.syncFails(1)
    requires made == Lift(d, FilesDirRun(d.fs, plan.root, plan.operationId, x).trace)
    requires OperationDirRun(d.fs, plan.root, plan.operationId, x).dir == Some(site.opDir)
    requires FilesDirRun(d.fs, plan.root, plan.operationId, x).dir == Some(site.filesDir)
    requires site.root == plan.root && site.operationId == plan.operationId
    requires StableBinding(LastDisk(d, made).fs, plan.root)
    requires m == FromPlan(plan.operationId, plan.digest, plan.evidence, x.now(0))
    requires Write(LastDisk(d, made), site.opDir, m, x, 1) == Some(w)
    requires |m.files| == |Movers(plan.evidence.members, plan.evidence.keeperOrdinal)|
    ensures var rest := ExecFrom(o, w, plan, site, Stamp(m, x.now(1)), 0, x);
            ExecPlan(o, d, plan, plan.evidence, x) == ExecRun(made + [w] + rest.trace, rest.moved, rest.end)
  {
    hide FilesDirRun, OperationDirRun, ValidateGroup, StableBinding, Write, ExecFrom, FromPlan, Loaded, Movers, Lift,
         LastDisk;
  }

  lemma KeeperAtStart(o: Oracle, fs: Fs, plan: Plan)
    requires Loaded(plan.evidence) && ValidateGroup(o, fs, plan.root, plan.evidence) == Some(plan.digest)
    ensures NodeAt(fs, KeeperSlot(fs, plan)) == Some(FileNode(KeeperFile(o, fs, plan)))
  {
    hide MemberMatches, Resolve, ValidMediaPath, NoCompanion;
    assert MemberReady(o, fs, plan.root, plan.evidence.members[plan.evidence.keeperOrdinal]);
  }

  lemma KeeperRemains(sc: Scene, plan: Plan, last: Disk, slot: Slot, f: FileId)
    requires SceneOK(sc) && Executable(sc, plan, slot, f) && FullyQuarantined(sc, last)
    ensures NodeAt(last.fs, slot) == Some(FileNode(f))
  {
    KeeperStays(sc, plan, last.fs, UpTo(|sc.items|), slot, f);
    hide SceneOK, Executable, Placed, Resolve;
  }

  /** Once the private directories and the first manifest are in place, the undisturbed execution completes. */
  lemma PreparedCompletes(o: Oracle, d: Disk, plan: Plan, x: Adversary, rank: DirId -> nat)
    requires Sane(d.fs) && Tree(d.fs, rank) && Loaded(plan.evidence) && Independent(plan.evidence)
    requires ValidateGroup(o, d.fs, plan.root, plan.evidence) == Some(plan.digest)
    requires Undisturbed(x, Decimal(x.now(0))) && ValidOperationId(plan.operationId)
    requires Prepared(o, d, plan, x)
    ensures var run := ExecPlan(o, d, plan, plan.evidence, x);
            var sc := SceneOfRun(o, d, plan, x);
            && run.end == Completed && run.moved == |MoversOf(plan)| == |sc.items|
            && FullyQuarantined(sc, LastDisk(d, run.trace))
            && NodeAt(LastDisk(d, run.trace).fs, KeeperSlot(d.fs, plan)) == NodeAt(d.fs, KeeperSlot(d.fs, plan))
                 == Some(FileNode(KeeperFile(o, d.fs, plan)))
  {
    UndisturbedIsCalm(x, Decimal(x.now(0)));
    LoopStarts(o, d, plan, x, rank);
    SetupMade(d.fs, plan.root, plan.operationId, x);
    hide Sane, Tree, Loaded, Independent, ValidateGroup, Undisturbed, FilesDirRun, OperationDirRun, StableBinding,
         Write, ExecFrom, Walk, FullyQuarantined, Executable, LoopReady, SceneOK, Grown, EmptyDir, CalmRun, Midway,
         SceneOfRun, ExecPlan, Prepared, FilesPath, Movers;
    RunExecutable(o, d, plan, x, rank);
    LiftNothingMoved(d, FilesDirRun(d.fs, plan.root, plan.operationId, x).trace);
    BaseOf(o, d, plan, x);
    NothingFails(x, Decimal(x.now(0)), 1);
    RunUnfolds(o, d, plan, x);
    var sc := SceneOfRun(o, d, plan, x);
    var w := Write(Disk(sc.base, d.manifests), sc.site.opDir, sc.template, x, 1).value;
    var m := Stamp(sc.template, x.now(1));
    BoundsStart(plan, m);
    ExecFromCompletes(sc, w, plan, m, 0, x, KeeperSlot(d.fs, plan), KeeperFile(o, d.fs, plan));
    KeeperRemains(sc, plan, LastDisk(w, ExecFrom(o, w, plan, sc.site, m, 0, x).trace), KeeperSlot(d.fs, plan),
                  KeeperFile(o, d.fs, plan));
    KeeperAtStart(o, d.fs, plan);
  }

  // ------------------------------------------------- the first half of the run

  /** The widths the program's types fix: 32-byte keys and digests, numbers of at most 64 bits. */
  predicate Typed(plan: Plan) {
    && |plan.digest| == 32 && |plan.evidence.groupKey| == 32 && |plan.evidence.manifestDigest| == 32
    && I64(plan.evidence)
  }

  /** The database numbers a manifest writes down are not negative. */
  predicate Identified(plan: Plan) {
    && plan.evidence.scanRunId >= 0 && plan.evidence.groupBuildId >= 0
    && forall i :: 0 <= i < |MoversOf(plan)| ==> MoversOf(plan)[i].observationId >= 0
  }

  lemma MoversTyped(plan: Plan, i: nat)
    requires Loaded(plan.evidence) && I64(plan.evidence) && i < |MoversOf(plan)|
    ensures MoversOf(plan)[i].observationId <= U64_MAX
  {
    MoverAt(plan.evidence, i);
  }

  lemma IdsTyped(plan: Plan)
    requires Typed(plan)
    ensures plan.evidence.scanRunId <= U64_MAX && plan.evidence.groupBuildId <= U64_MAX
  {
  }

  lemma MoversApart(plan: Plan, i: nat, j: nat)
    requires Loaded(plan.evidence) && Independent(plan.evidence) && i < j < |MoversOf(plan)|
    ensures MoversOf(plan)[i].path != MoversOf(plan)[j].path
  {
    MoverAt(plan.evidence, i);
    MoverAt(plan.evidence, j);
  }

  lemma PlanManifestable(o: Oracle, fs: Fs, plan: Plan, now: nat)
    requires Loaded(plan.evidence) && Independent(plan.evidence) && Typed(plan) && now <= U64_MAX
    requires ValidOperationId(plan.operationId)
    requires ValidateGroup(o, fs, plan.root, plan.evidence) == Some(plan.digest)
    ensures Manifestable(plan.operationId, plan.digest, plan.evidence, now) <==> Identified(plan)
  {
    hide ValidateGroup, ValidOperationId, ValidMediaPath, MemberReady, Loaded, Independent, I64, Movers;
    IdsTyped(plan);
    forall i | 0 <= i < |MoversOf(plan)|
      ensures ValidMediaPath(MoversOf(plan)[i].path)
      ensures Representable(MoversOf(plan)[i].observationId) <==> MoversOf(plan)[i].observationId >= 0
    {
      GroupContents(o, fs, plan, i);
      ReadyIsMedia(o, fs, plan.root, MoversOf(plan)[i]);
      MoversTyped(plan, i);
    }
    forall i, j | 0 <= i < j < |MoversOf(plan)|
      ensures MoversOf(plan)[i].path != MoversOf(plan)[j].path
    {
      MoversApart(plan, i, j);
    }
    assert MoversOf(plan) == Movers(plan.evidence.members, plan.evidence.keeperOrdinal);
  }

  lemma ReadyIsMedia(o: Oracle, fs: Fs, root: Root, m: MemberEvidence)
    requires MemberReady(o, fs, root, m)
    ensures ValidMediaPath(m.path)
  {
    hide ValidMediaPath, NoCompanion, Resolve, MemberFile;
  }

  /** The first manifest passes the validator and reaches the disk exactly if the numbers in it are representable. */
  lemma FirstManifestWritten(o: Oracle, d: Disk, plan: Plan, x: Adversary, base: Fs, opDir: DirId)
    requires Loaded(plan.evidence) && Independent(plan.evidence) && Typed(plan) && ValidOperationId(plan.operationId)
    requires ValidateGroup(o, d.fs, plan.root, plan.evidence) == Some(plan.digest)
    requires Undisturbed(x, Decimal(x.now(0)))
    ensures var template := FromPlan(plan.operationId, plan.digest, plan.evidence, x.now(0));
            Write(Disk(base, d.manifests), opDir, template, x, 1).Some? <==> Identified(plan)
  {
    var template := FromPlan(plan.operationId, plan.digest, plan.evidence, x.now(0));
    ClockReads(x);
    PlanManifestable(o, d.fs, plan, x.now(0));
    PlannedManifestValid(plan.operationId, plan.digest, plan.evidence, x.now(0));
    assert template.updated == template.created && template.operationId == plan.operationId;
    NothingFails(x, Decimal(x.now(0)), 1);
    hide ValidManifest, ValidateGroup, Manifestable, Loaded, Independent, Typed, Undisturbed, Identified;
    if ValidManifest(Stamp(template, x.now(1)), plan.operationId) {
      ValidUnstamped(template, x.now(1), plan.operationId);
    }
    if ValidManifest(template, plan.operationId) {
      SameAsItself(template);
      TemplateKnown(plan, x.now(0));
      UpdateValid(template, template, x.now(1));
    }
  }

  lemma ClockReads(x: Adversary)
    requires Undisturbed(x, Decimal(x.now(0)))
    ensures x.now(0) <= x.now(1) <= U64_MAX && ParseCanonicalU64(Decimal(x.now(0))) == Some(x.now(0))
  {
    CanonicalU64Exact(Decimal(x.now(0)), x.now(0));
  }

  lemma TemplateKnown(plan: Plan, now: nat)
    requires Loaded(plan.evidence)
    ensures var template := FromPlan(plan.operationId, plan.digest, plan.evidence, now);
            KnownStates(template) && template.created == Decimal(now)
  {
    MoversNonNegative(plan.evidence);
  }

  lemma {:induction false} WalkBounded(fs: Fs, start: DirId, components: seq<Name>)
    requires Sane(fs) && start < fs.nextDir && Walk(fs, start, components).Some?
    ensures Walk(fs, start, components).value < fs.nextDir
  {
    if components != [] {
      WalkBounded(fs, start, components[..|components| - 1]);
    }
  }

  /** The directories are created and the root still stands exactly if there is room. */
  lemma RunSetsUp(o: Oracle, d: Disk, plan: Plan, x: Adversary)
    requires Sane(d.fs) && Loaded(plan.evidence) && MakesDirectories(x)
    requires ValidateGroup(o, d.fs, plan.root, plan.evidence) == Some(plan.digest)
    ensures FilesDirRun(d.fs, plan.root, plan.operationId, x).dir.Some? <==>
              RoomFor(d.fs, plan.root.dir, plan.operationId)
    ensures StableBinding(SceneOfRun(o, d, plan, x).base, plan.root)
  {
    hide FilesDirRun, OperationDirRun, RoomFor, Loaded, MakesDirectories, MemberReady, MemberContent, FromPlan;
    BaseOf(o, d, plan, x);
    SetupMade(d.fs, plan.root, plan.operationId, x);
    WalkBounded(d.fs, d.fs.slash, plan.root.selected);
    SetupSucceeds(d.fs, plan.root, plan.operationId, x);
    WalkGrown(d.fs, SceneOfRun(o, d, plan, x).base, d.fs.slash, plan.root.selected);
  }

  /** An execution that could not prepare moved nothing and wrote no manifest. */
  lemma UnpreparedStops(o: Oracle, d: Disk, plan: Plan, x: Adversary)
    requires Sane(d.fs) && Loaded(plan.evidence)
    requires ValidateGroup(o, d.fs, plan.root, plan.evidence) == Some(plan.digest)
    requires !Prepared(o, d, plan, x)
    ensures var run := ExecPlan(o, d, plan, plan.evidence, x);
            run.end != Completed && run.moved == 0 && NothingMoved(d, LastDisk(d, run.trace))
  {
    SetupMade(d.fs, plan.root, plan.operationId, x);
    LiftNothingMoved(d, FilesDirRun(d.fs, plan.root, plan.operationId, x).trace);
    BaseOf(o, d, plan, x);
    assert NothingMoved(d, d);
    var made := Lift(d, FilesDirRun(d.fs, plan.root, plan.operationId, x).trace);
    assert NothingMoved(d, LastDisk(d, made));
    hide FilesDirRun, OperationDirRun, ValidateGroup, StableBinding, Write, FromPlan, Loaded, Sane, NothingMoved, Walk,
         EmptyDir, Lift, ExecFrom, SceneOfRun, AllGrown, LastDisk;
    assert LastDisk(d, []) == d by {
      Service.RunsNothing(d, []);
    }
  }

  // --------------------------------------------------- the group on the volume

  /** The member's path leads to the sealed file, which is unaccompanied and holds these bytes. */
  ghost predicate MemberSits(o: Oracle, fs: Fs, root: Root, m: MemberEvidence, content: seq<byte>) {
    && ValidMediaPath(m.path)
    && var slot := Resolve(fs, root.dir, m.path);
       && slot.Some? && NoCompanion(fs, slot.value)
       && slot.value in fs.entries && fs.entries[slot.value].FileNode?
       && var f := fs.entries[slot.value].file;
          SealedAs(o, fs, f, m) && fs.files[f].content == content
  }

  /** Every member is where the evidence says, as it was sealed, and all hold the same bytes. */
  ghost predicate DuplicateGroup(o: Oracle, fs: Fs, root: Root, e: GroupEvidence, content: seq<byte>)
    requires Loaded(e)
  {
    && Walk(fs, fs.slash, root.selected) == Some(root.dir)
    && |content| == e.members[e.keeperOrdinal].size && |content| * (e.memberCount - 1) == e.logicalBytes
    && forall i :: 0 <= i < |e.members| ==> MemberSits(o, fs, root, e.members[i], content)
  }

  lemma SittingIsReady(o: Oracle, fs: Fs, root: Root, m: MemberEvidence, content: seq<byte>)
    ensures MemberSits(o, fs, root, m, content)
            <==> MemberReady(o, fs, root, m) && MemberContent(o, fs, root, m) == Some(content)
  {
    hide ValidMediaPath, NoCompanion, Resolve;
  }

  /** The check before an execution passes exactly for such a group, and returns the digest of its bytes. */
  lemma GroupValidates(o: Oracle, fs: Fs, root: Root, e: GroupEvidence)
    requires Loaded(e)
    ensures ValidateGroup(o, fs, root, e).Some? <==> exists c :: DuplicateGroup(o, fs, root, e, c)
    ensures forall c :: DuplicateGroup(o, fs, root, e, c) ==> ValidateGroup(o, fs, root, e) == Some(o.digest(c))
  {
    hide MemberSits, MemberReady, MemberContent;
    forall m: MemberEvidence, c
      ensures MemberSits(o, fs, root, m, c)
              <==> MemberReady(o, fs, root, m) && MemberContent(o, fs, root, m) == Some(c)
    {
      SittingIsReady(o, fs, root, m, c);
    }
    assert e.members[e.keeperOrdinal] == KeeperOf(e);
    if ValidateGroup(o, fs, root, e).Some? {
      var c := MemberContent(o, fs, root, KeeperOf(e)).value;
      assert DuplicateGroup(o, fs, root, e, c);
    }
  }

  /** The group the plan was made for is still there, unchanged. */
  ghost predicate StillSealed(o: Oracle, fs: Fs, plan: Plan)
    requires Loaded(plan.evidence)
  {
    exists c :: DuplicateGroup(o, fs, plan.root, plan.evidence, c) && o.digest(c) == plan.digest
  }

  lemma SealedIsConfirmed(o: Oracle, fs: Fs, plan: Plan)
    requires Loaded(plan.evidence)
    ensures StillSealed(o, fs, plan) <==> ValidateGroup(o, fs, plan.root, plan.evidence) == Some(plan.digest)
  {
    hide DuplicateGroup, ValidateGroup;
    GroupValidates(o, fs, plan.root, plan.evidence);
  }

  /** The undisturbed execution of a plan over independent files completes exactly if its group is still there
      unchanged, its directory can be created and its database numbers are not negative; all of this can be seen before
      it starts. When it completes it has moved every member but the keeper, a valid manifest says exactly that, and the
      keeper's entry is as it was. When it does not, nothing has been moved and no manifest written. */
  lemma UndisturbedExecutionCompletes(o: Oracle, d: Disk, plan: Plan, x: Adversary, rank: DirId -> nat)
    requires Sane(d.fs) && Tree(d.fs, rank) && Loaded(plan.evidence) && Independent(plan.evidence) && Typed(plan)
    requires ValidOperationId(plan.operationId)
    requires Undisturbed(x, Decimal(x.now(0))) && MakesDirectories(x)
    ensures var run := ExecPlan(o, d, plan, plan.evidence, x);
            var sc := SceneOfRun(o, d, plan, x);
            && (run.end == Completed <==>
                  StillSealed(o, d.fs, plan) && RoomFor(d.fs, plan.root.dir, plan.operationId) && Identified(plan))
            && (run.end == Completed ==>
                  && run.moved == |MoversOf(plan)| == |sc.items|
                  && FullyQuarantined(sc, LastDisk(d, run.trace))
                  && NodeAt(LastDisk(d, run.trace).fs, KeeperSlot(d.fs, plan)) == NodeAt(d.fs, KeeperSlot(d.fs, plan))
                       == Some(FileNode(KeeperFile(o, d.fs, plan))))
            && (run.end != Completed ==> run.moved == 0 && NothingMoved(d, LastDisk(d, run.trace)))
  {
    hide Sane, Tree, Loaded, Independent, Typed, ValidateGroup, Undisturbed, FilesDirRun, OperationDirRun,
         StableBinding, Write, FullyQuarantined, SceneOfRun, ExecPlan, RoomFor, Identified, MakesDirectories, FromPlan,
         NothingMoved, StillSealed;
    SealedIsConfirmed(o, d.fs, plan);
    BaseOf(o, d, plan, x);
    if StillSealed(o, d.fs, plan) {
      var sc := SceneOfRun(o, d, plan, x);
      RunSetsUp(o, d, plan, x);
      FirstManifestWritten(o, d, plan, x, sc.base, sc.site.opDir);
      if Prepared(o, d, plan, x) {
        PreparedCompletes(o, d, plan, x, rank);
      } else {
        UnpreparedStops(o, d, plan, x);
      }
    } else {
      Answers.ChangedGroupIsRefused(o, d, plan, plan.evidence, x);
      StartIsUntouched(d);
    }
  }

  lemma StartIsUntouched(d: Disk)
    requires Sane(d.fs)
    ensures LastDisk(d, []) == d && NothingMoved(d, d)
  {
  }

  lemma UndisturbedIsCalm(x: Adversary, created: string)
    requires Undisturbed(x, created)
    ensures CalmRun(x)
  {
    forall i
      ensures Calm(x.moves(i))
    {
      assert Faultless(x.moves(i));
    }
  }

  lemma BoundsStart(plan: Plan, m: OperationManifest)
    requires Loaded(plan.evidence) && |m.files| == |MoversOf(plan)|
    ensures LoopBounds(plan, m, 0)
  {
  }
}
