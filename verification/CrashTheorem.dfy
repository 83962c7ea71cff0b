/** Quarantine then restore is the identity on the user's files, through any crash. */
module CrashTheorem {
  import opened Wrappers
  import opened Text
  import opened FileSystem
  import opened Paths
  import opened Manifest
  import opened Quarantine
  import opened QuarantineRuns
  import opened Recovery
  import opened CrashRecovery
  import opened OperationSetup

  /** Every state `execute_plan` can be stopped in: nothing moved and no manifest, or midway with a valid
      manifest that lists every file. */
  ghost predicate Interrupted(o: Oracle, d: Disk, plan: Plan, x: Adversary, later: Disk)
    requires Loaded(plan.evidence)
  {
    var sc := SceneOfRun(o, d, plan, x);
    NothingMoved(d, later) || (Grown(d.fs, sc.base) && Midway(sc, later))
  }

  lemma MidwayTrace(o: Oracle, d: Disk, plan: Plan, x: Adversary, trace: seq<Disk>)
    requires Loaded(plan.evidence) && Grown(d.fs, SceneOfRun(o, d, plan, x).base)
    requires AllMidway(SceneOfRun(o, d, plan, x), trace)
    ensures forall k :: 0 <= k < |trace| ==> Interrupted(o, d, plan, x, trace[k])
  {
    hide Grown, Midway, SceneOfRun, Loaded;
  }

  lemma NothingMovedTrace(o: Oracle, d: Disk, plan: Plan, x: Adversary)
    requires Sane(d.fs) && Loaded(plan.evidence)
    ensures var trace := FilesDirRun(d.fs, plan.root, plan.operationId, x).trace;
            && (forall k :: 0 <= k < |trace| ==> Interrupted(o, d, plan, x, Lift(d, trace)[k]))
            && LastDisk(d, Lift(d, trace)) == Disk(Last(d.fs, trace), d.manifests)
  {
    SetupMade(d.fs, plan.root, plan.operationId, x);
    LiftNothingMoved(d, FilesDirRun(d.fs, plan.root, plan.operationId, x).trace);
    hide Sane, Loaded, Grown, FilesDirRun, OperationDirRun, NothingMoved, SceneOfRun, Midway;
  }

  /** How `execute_plan` decomposes: directories, first manifest, move loop. */
  lemma ExecPlanUnfolds(o: Oracle, d: Disk, plan: Plan, current: GroupEvidence, x: Adversary)
    requires Loaded(plan.evidence)
    requires LastDisk(d, Lift(d, FilesDirRun(d.fs, plan.root, plan.operationId, x).trace)).fs
             == Last(d.fs, FilesDirRun(d.fs, plan.root, plan.operationId, x).trace)
    ensures var run := ExecPlan(o, d, plan, current, x);
            var sc := SceneOfRun(o, d, plan, x);
            var made := Lift(d, FilesDirRun(d.fs, plan.root, plan.operationId, x).trace);
            || run.trace == [] || run.trace == made
            || (&& current == plan.evidence && ValidateGroup(o, d.fs, plan.root, plan.evidence) == Some(plan.digest)
                && FilesDirRun(d.fs, plan.root, plan.operationId, x).dir.Some? && StableBinding(sc.base, plan.root)
                && var w := Write(LastDisk(d, made), sc.site.opDir, sc.template, x, 1);
                   && w.Some? && LoopBounds(plan, Stamp(sc.template, x.now(1)), 0)
                   && (|| run.trace == made + [w.value]
                       || run.trace == made + [w.value]
                                       + ExecFrom(o, w.value, plan, sc.site, Stamp(sc.template, x.now(1)), 0, x).trace))
  {
    MoversNonNegative(plan.evidence);
    hide Write, FilesDirRun, OperationDirRun, ValidateGroup, ExecFrom, StableBinding, Loaded;
  }

  /** Whatever fails in `execute_plan`, and wherever it is cut, the state left is one of the two kinds. */
  lemma ExecPlanStates(o: Oracle, d: Disk, plan: Plan, current: GroupEvidence, x: Adversary, rank: DirId -> nat)
    requires Sane(d.fs) && Tree(d.fs, rank) && Loaded(plan.evidence) && CalmRun(x)
    ensures forall k :: 0 <= k < |ExecPlan(o, d, plan, current, x).trace| ==>
              Interrupted(o, d, plan, x, ExecPlan(o, d, plan, current, x).trace[k])
  {
    hide ExecPlan, Sane, Tree, Loaded, CalmRun, FilesDirRun, OperationDirRun, SceneOfRun, Interrupted, Write,
         ValidateGroup, StableBinding, ExecFrom, LoopReady, Grown, SceneOK, Midway;
    NothingMovedTrace(o, d, plan, x);
    ExecPlanUnfolds(o, d, plan, current, x);
    var run := ExecPlan(o, d, plan, current, x);
    var sc := SceneOfRun(o, d, plan, x);
    var made := Lift(d, FilesDirRun(d.fs, plan.root, plan.operationId, x).trace);
    SceneBase(o, d, plan, x);
    if run.trace != [] && run.trace != made {
      LoopStarts(o, d, plan, x, rank);
      var w := Write(LastDisk(d, made), sc.site.opDir, sc.template, x, 1).value;
      var m := Stamp(sc.template, x.now(1));
      ExecFromMidway(sc, w, plan, m, 0, x);
      var rest := ExecFrom(o, w, plan, sc.site, m, 0, x).trace;
      AllMidwayAppend(sc, [w], rest);
      MidwayTrace(o, d, plan, x, [w] + rest);
      assert ([w] + rest)[0] == w;
      assert made + [w] + rest == made + ([w] + rest);
    }
  }

  lemma SceneBase(o: Oracle, d: Disk, plan: Plan, x: Adversary)
    requires Loaded(plan.evidence)
    ensures SceneOfRun(o, d, plan, x).base == Last(d.fs, FilesDirRun(d.fs, plan.root, plan.operationId, x).trace)
    ensures SceneOfRun(o, d, plan, x).o == o
  {
    hide FilesDirRun, OperationDirRun;
  }

  // ------------------------------------------------------ the identity

  /** The user's files: every file entry, everywhere, with the same object, metadata and bytes, and no
      entry lost. Only empty private directories and change times may differ. */
  ghost predicate SameUserTree(a: Fs, b: Fs) {
    && (forall s :: FileAt(b, s) == FileAt(a, s))
    && (forall s :: s in a.entries ==> s in b.entries && b.entries[s] == a.entries[s])
    && SameFiles(a, b)
  }

  lemma GrownSameTree(a: Fs, b: Fs)
    requires Grown(a, b)
    ensures SameUserTree(a, b)
  {
  }

  lemma HomeSameTree(a: Fs, base: Fs, items: seq<Item>, fs: Fs)
    requires Grown(a, base) && Placed(base, items, base, {}) && Placed(base, items, fs, {})
    ensures SameUserTree(a, fs)
  {
    forall s
      ensures NodeAt(fs, s) == NodeAt(base, s)
    {
      if ItemSlot(items, s) {
        var i :| 0 <= i < |items| && (items[i].slot == s || items[i].held == s);
        assert ItemPlaced(base, items[i], false) && ItemPlaced(fs, items[i], false);
      }
    }
    forall s
      ensures FileAt(fs, s) == FileAt(a, s)
    {
      assert NodeAt(fs, s) == NodeAt(base, s);
    }
    forall s | s in a.entries
      ensures s in fs.entries && fs.entries[s] == a.entries[s]
    {
      assert NodeAt(fs, s) == NodeAt(base, s) == Some(a.entries[s]);
    }
  }

  lemma RecoverableKnown(sc: Scene, d: Disk)
    requires Recoverable(sc, d)
    ensures KnownStates(d.manifests[sc.site.opDir])
  {
    hide SceneOK, Scattered, SameOperation, DistinctUpTo;
    var m := d.manifests[sc.site.opDir];
    assert ValidUpTo(m.files, |m.files|);
  }

  /** A path that did not exist and now does ends in a new directory. */
  lemma {:induction false} NewPathEndsNew(a: Fs, b: Fs, start: DirId, components: seq<Name>)
    requires Sane(a) && Grown(a, b) && Walk(a, start, components).None? && Walk(b, start, components).Some?
    ensures Walk(b, start, components).value >= a.nextDir
  {
    if components != [] {
      var init, name := components[..|components| - 1], components[|components| - 1];
      if Walk(a, start, init).None? {
        NewPathEndsNew(a, b, start, init);
      } else {
        WalkGrown(a, b, start, init);
      }
    }
  }

  lemma NoSiteWithoutManifest(d: Disk, later: Disk, root: Root, operationId: string)
    requires Sane(d.fs) && ManifestsSane(d) && NothingMoved(d, later)
    requires Walk(d.fs, root.dir, FilesPath(operationId)[..3]).None?
    ensures FindSite(later, root, operationId).None?
  {
    var path := FilesPath(operationId)[..3];
    if Walk(later.fs, root.dir, path).Some? {
      NewPathEndsNew(d.fs, later.fs, root.dir, path);
    }
    hide Walk, StableBinding, ValidManifest, Grown, Sane;
  }

  lemma {:induction false} AttemptsRefused(o: Oracle, d: Disk, root: Root, operationId: string, attempts: seq<Attempt>)
    requires FindSite(d, root, operationId).None?
    ensures AfterAttempts(o, d, root, operationId, attempts) == d
  {
    if attempts != [] {
      AttemptsRefused(o, d, root, operationId, attempts[..|attempts| - 1]);
    }
    hide FindSite;
  }

  lemma CutInterrupted(o: Oracle, d: Disk, plan: Plan, x: Adversary, trace: seq<Disk>, steps: nat)
    requires Loaded(plan.evidence) && Sane(d.fs)
    requires forall k :: 0 <= k < |trace| ==> Interrupted(o, d, plan, x, trace[k])
    ensures Interrupted(o, d, plan, x, Cut(d, trace, steps))
  {
    assert Grown(d.fs, d.fs);
    hide Interrupted, Grown, Sane, Loaded, SceneOfRun;
    assert Cut(d, trace, steps) != d ==> exists k :: 0 <= k < |trace| && trace[k] == Cut(d, trace, steps);
    if Cut(d, trace, steps) == d {
      InterruptedAtStart(o, d, plan, x);
    }
  }

  lemma InterruptedAtStart(o: Oracle, d: Disk, plan: Plan, x: Adversary)
    requires Loaded(plan.evidence) && Sane(d.fs)
    ensures Interrupted(o, d, plan, x, d)
  {
    hide SceneOfRun, Loaded, Midway;
  }

  /** From a midway crash: any number of failing or crashing restores, then one undisturbed one. */
  lemma MidwayRestores(o: Oracle, d: Disk, plan: Plan, x: Adversary, start: Disk, attempts: seq<Attempt>,
                       last: Adversary)
    requires Loaded(plan.evidence) && Grown(d.fs, SceneOfRun(o, d, plan, x).base)
    requires Midway(SceneOfRun(o, d, plan, x), start)
    requires CalmAttempts(attempts) && Undisturbed(last, Decimal(x.now(0)))
    ensures var resumed := AfterAttempts(o, start, plan.root, plan.operationId, attempts);
            var run := RestoreOp(o, resumed, plan.root, plan.operationId, last);
            && run.end == RestoreDone && run.verified == |MoversOf(plan)|
            && FullyRestored(SceneOfRun(o, d, plan, x), LastDisk(resumed, run.trace))
            && SameUserTree(d.fs, LastDisk(resumed, run.trace).fs)
  {
    var sc := SceneOfRun(o, d, plan, x);
    SceneBase(o, d, plan, x);
    SceneOperation(o, d, plan, x);
    MidwayIsRecoverable(sc, start);
    assert sc.o == o;
    AttemptsRecoverable(sc, start, attempts);
    var resumed := AfterAttempts(o, start, plan.root, plan.operationId, attempts);
    RecoverableKnown(sc, resumed);
    RestoreOpCompletes(sc, resumed, last);
    var run := RestoreOp(o, resumed, plan.root, plan.operationId, last);
    assert Placed(sc.base, sc.items, sc.base, {}) && Placed(sc.base, sc.items, LastDisk(resumed, run.trace).fs, {}) by {
      hide RestoreOp, AfterAttempts, SceneOfRun, Placed, Described, Grown;
    }
    hide *;
    HomeSameTree(d.fs, sc.base, sc.items, LastDisk(resumed, run.trace).fs);
  }

  lemma SceneOperation(o: Oracle, d: Disk, plan: Plan, x: Adversary)
    requires Loaded(plan.evidence)
    ensures var sc := SceneOfRun(o, d, plan, x);
            && sc.site.root == plan.root && sc.site.operationId == plan.operationId
            && sc.template.created == Decimal(x.now(0)) && |sc.items| == |MoversOf(plan)|
  {
    hide FilesDirRun, OperationDirRun;
  }

  /** Quarantine, crash after any durable step with any I/O failure before it, restore as often as it
      takes with failures and crashes of its own, then restore once undisturbed: every file is back
      exactly where it was. If a manifest had reached the disk, the last run reports full success. */
  lemma QuarantineThenRestoreIsIdentity(
      o: Oracle, d: Disk, plan: Plan, current: GroupEvidence, x: Adversary, rank: DirId -> nat,
      steps: nat, attempts: seq<Attempt>, last: Adversary)
    requires Sane(d.fs) && Tree(d.fs, rank) && ManifestsSane(d) && Loaded(plan.evidence)
    requires Walk(d.fs, plan.root.dir, FilesPath(plan.operationId)[..3]).None?
    requires CalmRun(x) && CalmAttempts(attempts) && Undisturbed(last, Decimal(x.now(0)))
    ensures var crashed := Cut(d, ExecPlan(o, d, plan, current, x).trace, steps);
            var resumed := AfterAttempts(o, crashed, plan.root, plan.operationId, attempts);
            var run := RestoreOp(o, resumed, plan.root, plan.operationId, last);
            && SameUserTree(d.fs, LastDisk(resumed, run.trace).fs)
            && (crashed.manifests != d.manifests ==>
                  run.end == RestoreDone && run.verified == |MoversOf(plan)|
                  && FullyRestored(SceneOfRun(o, d, plan, x), LastDisk(resumed, run.trace)))
  {
    hide SameUserTree, Sane, Tree, ManifestsSane, Loaded, CalmRun, CalmAttempts, Undisturbed, ExecPlan, RestoreOp,
         AfterAttempts, FullyRestored, SceneOfRun, Midway, Grown, Walk, FilesPath;
    ExecPlanStates(o, d, plan, current, x, rank);
    var trace := ExecPlan(o, d, plan, current, x).trace;
    CutInterrupted(o, d, plan, x, trace, steps);
    var crashed := Cut(d, trace, steps);
    if NothingMoved(d, crashed) {
      NoSiteWithoutManifest(d, crashed, plan.root, plan.operationId);
      AttemptsRefused(o, crashed, plan.root, plan.operationId, attempts);
      RefusedRestoresNothing(o, crashed, plan.root, plan.operationId, last);
      GrownSameTree(d.fs, crashed.fs);
    } else {
      MidwayRestores(o, d, plan, x, crashed, attempts, last);
    }
  }

  lemma RefusedRestoresNothing(o: Oracle, d: Disk, root: Root, operationId: string, x: Adversary)
    requires FindSite(d, root, operationId).None?
    ensures RestoreOp(o, d, root, operationId, x).trace == []
  {
    hide FindSite;
  }
}
