/** Any sequence of quarantine commands on one volume: executing plans, restoring operations, crashing
    in the middle of either, and other processes acting in between. */
module Sessions {
  import opened Wrappers
  import opened Text
  import opened FileSystem
  import opened Paths
  import opened Manifest
  import opened Quarantine
  import opened QuarantineRuns
  import opened ManifestShape
  import opened OperationSetup

  /** One manifest is replaced as a whole by a valid one; no file and no directory entry changes. */
  ghost predicate ManifestWrite(a: Disk, b: Disk, dir: DirId) {
    && a.fs == b.fs && dir in b.manifests
    && b.manifests == a.manifests[dir := b.manifests[dir]]
    && ValidManifest(b.manifests[dir], b.manifests[dir].operationId)
  }

  /** `at` are the directories whose manifest may be written. */
  ghost predicate DiskStep(a: Disk, b: Disk, at: iset<DirId>) {
    (a.manifests == b.manifests && Step(a.fs, b.fs)) || exists dir :: dir in at && ManifestWrite(a, b, dir)
  }

  ghost predicate DiskRun(d: Disk, trace: seq<Disk>, at: iset<DirId>) {
    || trace == []
    || (DiskRun(d, trace[..|trace| - 1], at) && DiskStep(LastDisk(d, trace[..|trace| - 1]), trace[|trace| - 1], at))
  }

  ghost const ANYWHERE: iset<DirId> := iset dir: DirId | true

  lemma {:induction false} DiskRunAnywhere(d: Disk, trace: seq<Disk>, at: iset<DirId>)
    requires DiskRun(d, trace, at)
    ensures DiskRun(d, trace, ANYWHERE)
  {
    hide Step, ManifestWrite;
    if trace != [] {
      DiskRunAnywhere(d, trace[..|trace| - 1], at);
    }
  }

  lemma {:induction false} DiskRunAppend(d: Disk, first: seq<Disk>, second: seq<Disk>, at: iset<DirId>)
    requires DiskRun(d, first, at) && DiskRun(LastDisk(d, first), second, at)
    ensures DiskRun(d, first + second, at) && LastDisk(d, first + second) == LastDisk(LastDisk(d, first), second)
  {
    hide DiskStep;
    var all := first + second;
    if second == [] {
      assert all == first;
    } else {
      DiskRunAppend(d, first, second[..|second| - 1], at);
      assert all[..|all| - 1] == first + second[..|second| - 1];
    }
  }

  lemma OneDiskStep(d: Disk, next: Disk, at: iset<DirId>)
    requires DiskStep(d, next, at)
    ensures DiskRun(d, [next], at)
  {
    assert [next][..0] == [];
    hide DiskStep;
  }

  lemma {:induction false} LiftRun(d: Disk, trace: seq<Fs>, at: iset<DirId>)
    requires Steps(d.fs, trace)
    ensures DiskRun(d, Lift(d, trace), at) && LastDisk(d, Lift(d, trace)) == Disk(Last(d.fs, trace), d.manifests)
  {
    hide Step;
    if trace != [] {
      var init := trace[..|trace| - 1];
      LiftRun(d, init, at);
      assert Lift(d, trace)[..|trace| - 1] == Lift(d, init);
    }
  }

  lemma WriteRun(d: Disk, opDir: DirId, m: OperationManifest, x: Adversary, index: nat)
    requires Write(d, opDir, m, x, index).Some?
    ensures DiskRun(d, [Write(d, opDir, m, x, index).value], iset{opDir})
  {
    hide ValidManifest;
    var w := Write(d, opDir, m, x, index).value;
    assert ManifestWrite(d, w, opDir);
    OneDiskStep(d, w, iset{opDir});
  }

  // --------------------------------------------------- commands are runs

  lemma NewDirSteps(fs: Fs, at: Slot, fails: bool, rejects: bool)
    ensures Steps(fs, NewDir(fs, at, fails, rejects).trace)
  {
    if NewDir(fs, at, fails, rejects).trace != [] {
      assert NewDirectory(fs, Mkdir(fs, at));
      OneStep(fs, Mkdir(fs, at));
    }
  }

  lemma BelowSteps(fs: Fs, previous: MkdirRun, name: Name, exclusive: bool, fails: bool, rejects: bool)
    requires Steps(fs, previous.trace)
    ensures Steps(fs, Below(fs, previous, name, exclusive, fails, rejects).trace)
  {
    if previous.dir.Some? {
      var here := Last(fs, previous.trace);
      var at := Slot(previous.dir.value, name);
      NewDirSteps(here, at, fails, rejects);
      var next := if exclusive then NewDir(here, at, fails, rejects) else EnsureDir(here, at, fails, rejects);
      StepsAppend(fs, previous.trace, next.trace);
    }
  }

  lemma SetupSteps(fs: Fs, root: Root, operationId: string, x: Adversary)
    ensures Steps(fs, OperationDirRun(fs, root, operationId, x).trace)
    ensures Steps(fs, FilesDirRun(fs, root, operationId, x).trace)
  {
    hide Steps, NewDir, Below;
    var quarantine := EnsureDir(fs, Slot(root.dir, QUARANTINE_DIRECTORY), x.mkdirFails(0), x.mkdirRejects(0));
    NewDirSteps(fs, Slot(root.dir, QUARANTINE_DIRECTORY), x.mkdirFails(0), x.mkdirRejects(0));
    assert Steps(fs, []) by {
      EnvTraceSteps(fs, []);
    }
    BelowSteps(fs, quarantine, OPERATIONS_DIRECTORY, false, x.mkdirFails(1), x.mkdirRejects(1));
    var operations := Below(fs, quarantine, OPERATIONS_DIRECTORY, false, x.mkdirFails(1), x.mkdirRejects(1));
    BelowSteps(fs, operations, operationId, true, x.mkdirFails(2), x.mkdirRejects(2));
    BelowSteps(fs, OperationDirRun(fs, root, operationId, x), FILES_DIRECTORY, true, x.mkdirFails(3),
               x.mkdirRejects(3));
  }

  lemma {:induction false} ExecFromRuns(o: Oracle, d: Disk, plan: Plan, site: Site, m: OperationManifest, i: nat,
                                        x: Adversary)
    requires Loaded(plan.evidence)
    requires i <= |m.files| == |Movers(plan.evidence.members, plan.evidence.keeperOrdinal)|
    ensures DiskRun(d, ExecFrom(o, d, plan, site, m, i, x).trace, iset{site.opDir})
    decreases |m.files| - i
  {
    hide MoveOne, Write, DiskStep;
    if i == |m.files| {
      var w := Write(d, site.opDir, m.(status := AllQuarantined), x, i + 2);
      if w.Some? {
        WriteRun(d, site.opDir, m.(status := AllQuarantined), x, i + 2);
      }
    } else {
      var task := MoveTaskFor(plan, site, m, i);
      var move := MoveOne(o, d.fs, task, x.moves(i));
      MoveSteps(o, d.fs, task, x.moves(i));
      LiftRun(d, move.trace, iset{site.opDir});
      var moved := Lift(d, move.trace);
      var here := LastDisk(d, moved);
      var after := AfterMove(m, i, move.outcome);
      var w := Write(here, site.opDir, after, x, i + 2);
      if w.Some? {
        WriteRun(here, site.opDir, after, x, i + 2);
        DiskRunAppend(d, moved, [w.value], iset{site.opDir});
        if move.outcome.Moved? && !x.syncFails(i + 2) {
          ExecFromRuns(o, w.value, plan, site, Stamp(after, x.now(i + 2)), i + 1, x);
          DiskRunAppend(d, moved + [w.value],
                        ExecFrom(o, w.value, plan, site, Stamp(after, x.now(i + 2)), i + 1, x).trace,
                        iset{site.opDir});
        }
      }
    }
  }

  /** The operation directory an execution would write to; any other number when it creates none. */
  function PlanDir(d: Disk, plan: Plan, x: Adversary): DirId {
    var dir := OperationDirRun(d.fs, plan.root, plan.operationId, x).dir;
    if dir.Some? then dir.value else d.fs.nextDir
  }

  lemma ExecPlanRuns(o: Oracle, d: Disk, plan: Plan, current: GroupEvidence, x: Adversary)
    requires Loaded(plan.evidence)
    ensures DiskRun(d, ExecPlan(o, d, plan, current, x).trace, iset{PlanDir(d, plan, x)})
  {
    hide Write, DiskStep, FilesDirRun, OperationDirRun, ValidateGroup, StableBinding, ExecFrom, Steps, Loaded, FromPlan;
    var at := iset{PlanDir(d, plan, x)};
    SetupSteps(d.fs, plan.root, plan.operationId, x);
    var files := FilesDirRun(d.fs, plan.root, plan.operationId, x);
    LiftRun(d, files.trace, at);
    var made := Lift(d, files.trace);
    var here := LastDisk(d, made);
    var run := ExecPlan(o, d, plan, current, x);
    if run.trace != [] && run.trace != made {
      var operation := OperationDirRun(d.fs, plan.root, plan.operationId, x);
      var site := Site(plan.root, plan.operationId, operation.dir.value, files.dir.value);
      var m := FromPlan(plan.operationId, plan.digest, current, x.now(0));
      MoversNonNegative(current);
      var w := Write(here, site.opDir, m, x, 1).value;
      WriteRun(here, site.opDir, m, x, 1);
      DiskRunAppend(d, made, [w], at);
      ExecFromRuns(o, w, plan, site, Stamp(m, x.now(1)), 0, x);
      DiskRunAppend(d, made + [w], ExecFrom(o, w, plan, site, Stamp(m, x.now(1)), 0, x).trace, at);
    }
  }

  lemma CloseRuns(d: Disk, site: Site, m: OperationManifest, i: nat, x: Adversary)
    ensures DiskRun(d, CloseRestore(d, site, m, i, x).trace, iset{site.opDir})
  {
    hide Write, DiskStep;
    var status := if i == |m.files| then AllRestored else PartiallyRestored;
    if Write(d, site.opDir, m.(status := status), x, |m.files| + 1).Some? {
      WriteRun(d, site.opDir, m.(status := status), x, |m.files| + 1);
    }
  }

  lemma {:induction false} RestoreFromRuns(o: Oracle, d: Disk, site: Site, m: OperationManifest, digest: seq<byte>,
                                           i: nat, x: Adversary)
    requires i <= |m.files|
    ensures DiskRun(d, RestoreFrom(o, d, site, m, digest, i, x).trace, iset{site.opDir})
    decreases |m.files| - i
  {
    hide RestoreOne, Write, DiskStep, CloseRestore;
    if i == |m.files| {
      CloseRuns(d, site, m, i, x);
    } else {
      var task := RestoreTaskFor(site, m, i, digest);
      var one := RestoreOne(o, d.fs, task, x.moves(i));
      RestoreSteps(o, d.fs, task, x.moves(i));
      LiftRun(d, one.trace, iset{site.opDir});
      var lifted := Lift(d, one.trace);
      var here := LastDisk(d, lifted);
      if !one.restored {
        CloseRuns(here, site, m, i, x);
        DiskRunAppend(d, lifted, CloseRestore(here, site, m, i, x).trace, iset{site.opDir});
      } else {
        var after := SetState(m, i, Restored);
        var w := Write(here, site.opDir, after, x, i + 1);
        if w.Some? {
          WriteRun(here, site.opDir, after, x, i + 1);
          DiskRunAppend(d, lifted, [w.value], iset{site.opDir});
        }
        if w.Some? && !x.syncFails(i + 1) {
          RestoreFromRuns(o, w.value, site, Stamp(after, x.now(i + 1)), digest, i + 1, x);
          DiskRunAppend(d, lifted + [w.value],
                        RestoreFrom(o, w.value, site, Stamp(after, x.now(i + 1)), digest, i + 1, x).trace,
                        iset{site.opDir});
        }
      }
    }
  }

  lemma RestoreOpRuns(o: Oracle, d: Disk, root: Root, operationId: string, x: Adversary)
    ensures var site := FindSite(d, root, operationId);
            DiskRun(d, RestoreOp(o, d, root, operationId, x).trace, if site.Some? then iset{site.value.opDir}
                    else iset{})
  {
    hide RestoreFrom, Write, DiskStep, FindSite;
    var site := FindSite(d, root, operationId);
    if site.Some? {
      SiteHasManifest(d, root, operationId);
      var m := d.manifests[site.value.opDir].(status := Restoring);
      var digest := Unhex32(m.contentDigestHex).value;
      var w := Write(d, site.value.opDir, m, x, 0);
      if w.Some? {
        WriteRun(d, site.value.opDir, m, x, 0);
        RestoreFromRuns(o, w.value, site.value, Stamp(m, x.now(0)), digest, 0, x);
        DiskRunAppend(d, [w.value], RestoreFrom(o, w.value, site.value, Stamp(m, x.now(0)), digest, 0, x).trace,
                      iset{site.value.opDir});
      }
    }
  }

  lemma SiteHasManifest(d: Disk, root: Root, operationId: string)
    requires FindSite(d, root, operationId).Some?
    ensures var site := FindSite(d, root, operationId).value;
            && site.operationId == operationId && site.root == root && site.opDir in d.manifests
            && ValidManifest(d.manifests[site.opDir], operationId)
            && Unhex32(d.manifests[site.opDir].contentDigestHex).Some?
  {
  }

  // ------------------------------------------------------------ sessions

  /** Each command may be cut by a crash after `steps` durable steps. */
  datatype Command =
    | Execute(plan: Plan, current: GroupEvidence, x: Adversary, steps: nat)
    | Restore(root: Root, operationId: string, x: Adversary, steps: nat)
    | Elsewhere(batch: seq<EnvOp>)

  predicate Issuable(c: Command) { c.Execute? ==> Loaded(c.plan.evidence) }

  function UpToCrash(trace: seq<Disk>, steps: nat): seq<Disk> { if steps <= |trace| then trace[..steps] else trace }

  function CommandTrace(o: Oracle, d: Disk, c: Command): seq<Disk>
    requires Issuable(c)
  {
    match c
    case Execute(plan, current, x, steps) => UpToCrash(ExecPlan(o, d, plan, current, x).trace, steps)
    case Restore(root, operationId, x, steps) => UpToCrash(RestoreOp(o, d, root, operationId, x).trace, steps)
    case Elsewhere(batch) => Lift(d, EnvTrace(d.fs, batch))
  }

  /** Every durable state of a session, oldest first. */
  function SessionTrace(o: Oracle, d: Disk, commands: seq<Command>): seq<Disk>
    requires forall i :: 0 <= i < |commands| ==> Issuable(commands[i])
  {
    if commands == [] then []
    else
      var init := SessionTrace(o, d, commands[..|commands| - 1]);
      init + CommandTrace(o, LastDisk(d, init), commands[|commands| - 1])
  }

  lemma {:induction false} DiskRunPrefix(d: Disk, trace: seq<Disk>, at: iset<DirId>, i: nat)
    requires DiskRun(d, trace, at) && i <= |trace|
    ensures DiskRun(d, trace[..i], at)
    decreases |trace| - i
  {
    hide DiskStep;
    if i == |trace| {
      assert trace[..i] == trace;
    } else {
      DiskRunPrefix(d, trace, at, i + 1);
      assert trace[..i + 1][..i] == trace[..i];
    }
  }

  /** The only directory whose manifest a command may write. */
  ghost function CommandDirs(d: Disk, c: Command): iset<DirId> {
    match c
    case Execute(plan, _, x, _) => iset{PlanDir(d, plan, x)}
    case Restore(root, operationId, _, _) =>
      var site := FindSite(d, root, operationId);
      if site.Some? then iset{site.value.opDir} else iset{}
    case Elsewhere(_) => iset{}
  }

  lemma CommandRuns(o: Oracle, d: Disk, c: Command)
    requires Issuable(c)
    ensures DiskRun(d, CommandTrace(o, d, c), CommandDirs(d, c))
  {
    hide DiskRun, ExecPlan, RestoreOp, Loaded, FindSite, PlanDir;
    match c
    case Execute(plan, current, x, steps) =>
      ExecPlanRuns(o, d, plan, current, x);
      var trace := ExecPlan(o, d, plan, current, x).trace;
      DiskRunPrefix(d, trace, CommandDirs(d, c), if steps <= |trace| then steps else |trace|);
    case Restore(root, operationId, x, steps) =>
      RestoreOpRuns(o, d, root, operationId, x);
      var trace := RestoreOp(o, d, root, operationId, x).trace;
      DiskRunPrefix(d, trace, CommandDirs(d, c), if steps <= |trace| then steps else |trace|);
    case Elsewhere(batch) =>
      EnvTraceSteps(d.fs, batch);
      LiftRun(d, EnvTrace(d.fs, batch), CommandDirs(d, c));
  }

  /** Every durable state change of a whole session is an exclusive rename, a new directory, an action
      of another process, or the replacement of one manifest by a valid one. */
  lemma {:induction false} SessionRuns(o: Oracle, d: Disk, commands: seq<Command>)
    requires forall i :: 0 <= i < |commands| ==> Issuable(commands[i])
    ensures DiskRun(d, SessionTrace(o, d, commands), ANYWHERE)
  {
    hide DiskStep, CommandTrace;
    if commands != [] {
      var init := commands[..|commands| - 1];
      SessionRuns(o, d, init);
      var before := SessionTrace(o, d, init);
      var last := commands[|commands| - 1];
      CommandRuns(o, LastDisk(d, before), last);
      var trace := CommandTrace(o, LastDisk(d, before), last);
      DiskRunAnywhere(LastDisk(d, before), trace, CommandDirs(LastDisk(d, before), last));
      DiskRunAppend(d, before, trace, ANYWHERE);
    }
  }

  lemma EvolvesReflexive(fs: Fs)
    ensures Evolves(fs, fs)
  {
  }

  lemma DiskStepEvolves(a: Disk, b: Disk, at: iset<DirId>)
    requires Sane(a.fs) && DiskStep(a, b, at)
    ensures Sane(b.fs) && Evolves(a.fs, b.fs)
  {
    hide Sane, Evolves, Step;
    EvolvesReflexive(a.fs);
    if a.manifests == b.manifests && Step(a.fs, b.fs) {
      StepEvolves(a.fs, b.fs);
    }
  }

  lemma {:induction false} DiskRunEvolves(d: Disk, trace: seq<Disk>, at: iset<DirId>, i: nat)
    requires Sane(d.fs) && DiskRun(d, trace, at) && i <= |trace|
    ensures Sane(LastDisk(d, trace).fs)
    ensures Evolves(LastDisk(d, trace[..i]).fs, LastDisk(d, trace).fs)
    decreases |trace|
  {
    hide DiskStep, Sane, Evolves;
    if i == |trace| {
      assert trace[..i] == trace;
      EvolvesReflexive(LastDisk(d, trace).fs);
    }
    if trace != [] {
      var init := trace[..|trace| - 1];
      DiskRunEvolves(d, init, at, if i < |trace| then i else |init|);
      DiskStepEvolves(LastDisk(d, init), trace[|trace| - 1], at);
      if i < |trace| {
        assert init[..i] == trace[..i];
        EvolvesTransitive(LastDisk(d, trace[..i]).fs, LastDisk(d, init).fs, trace[|trace| - 1].fs);
      }
    }
  }

  /** Conservation over whole sessions: between any two durable states no media object is lost or left
      without a name, and an object with an unchanged change time is unchanged and gained no name. */
  lemma SessionConserves(o: Oracle, d: Disk, commands: seq<Command>, i: nat, j: nat)
    requires Sane(d.fs) && forall k :: 0 <= k < |commands| ==> Issuable(commands[k])
    requires i <= j < |SessionTrace(o, d, commands)|
    ensures var trace := SessionTrace(o, d, commands);
            Evolves(d.fs, trace[i].fs) && Evolves(trace[i].fs, trace[j].fs)
  {
    hide DiskStep, Sane, Evolves, SessionTrace, Issuable;
    var trace := SessionTrace(o, d, commands);
    SessionRuns(o, d, commands);
    DiskRunPrefix(d, trace, ANYWHERE, j + 1);
    var upto := trace[..j + 1];
    assert upto[..i + 1][i] == trace[i] && upto[j] == trace[j] && upto[..0] == [];
    DiskRunEvolves(d, upto, ANYWHERE, i + 1);
    DiskRunPrefix(d, trace, ANYWHERE, i + 1);
    var first := trace[..i + 1];
    assert first[..0] == [] && first[i] == trace[i];
    DiskRunEvolves(d, first, ANYWHERE, 0);
  }

  // --------------------------------------------- manifests over a session

  /** Every manifest on the volume is valid, ordered and truthful, and sits in an existing directory. */
  ghost predicate AllOrderly(d: Disk) {
    forall dir :: dir in d.manifests ==> dir < d.fs.nextDir && Orderly(d.manifests[dir], d.manifests[dir].operationId)
  }

  /** No manifest is lost or given to another operation, and no restored prefix shrinks. */
  ghost predicate Progressed(a: Disk, b: Disk) {
    forall dir :: dir in a.manifests ==>
      && dir in b.manifests && b.manifests[dir].operationId == a.manifests[dir].operationId
      && RestoredCount(a.manifests[dir]) <= RestoredCount(b.manifests[dir])
  }

  ghost predicate OrderlyProgress(d: Disk, trace: seq<Disk>) {
    && (forall k :: 0 <= k < |trace| ==> AllOrderly(trace[k]) && Progressed(d, trace[k]))
    && (forall k, l :: 0 <= k <= l < |trace| ==> Progressed(trace[k], trace[l]))
  }

  lemma OrderlyHasId(m: OperationManifest, id: string)
    requires Orderly(m, id)
    ensures m.operationId == id
  {
  }

  lemma OrderlyProgressAppend(d: Disk, first: seq<Disk>, second: seq<Disk>)
    requires OrderlyProgress(d, first) && OrderlyProgress(LastDisk(d, first), second)
    ensures OrderlyProgress(d, first + second)
  {
    hide AllOrderly;
    var all := first + second;
    forall k | 0 <= k < |all|
      ensures AllOrderly(all[k]) && Progressed(d, all[k])
    {
    }
    forall k, l | 0 <= k <= l < |all|
      ensures Progressed(all[k], all[l])
    {
      if k < |first| <= l {
        assert Progressed(first[k], first[|first| - 1]);
      }
    }
  }

  lemma {:induction false} RunLeavesOthers(d: Disk, trace: seq<Disk>, at: iset<DirId>, k: nat)
    requires DiskRun(d, trace, at) && k < |trace|
    ensures forall dir :: dir !in at ==>
              (dir in trace[k].manifests <==> dir in d.manifests) &&
              (dir in d.manifests ==> trace[k].manifests[dir] == d.manifests[dir])
    decreases |trace|
  {
    hide Step, ValidManifest;
    var init := trace[..|trace| - 1];
    if k < |init| {
      RunLeavesOthers(d, init, at, k);
    } else if init != [] {
      RunLeavesOthers(d, init, at, k - 1);
    }
  }

  lemma NextDirGrows(d: Disk, trace: seq<Disk>, at: iset<DirId>, k: nat)
    requires Sane(d.fs) && DiskRun(d, trace, at) && k < |trace|
    ensures Sane(trace[k].fs) && d.fs.nextDir <= trace[k].fs.nextDir
  {
    hide DiskStep, Sane;
    DiskRunPrefix(d, trace, at, k + 1);
    var upto := trace[..k + 1];
    assert upto[k] == trace[k] && upto[..0] == [];
    DiskRunEvolves(d, upto, at, 0);
  }

  /** A trace that writes one manifest, always orderly and climbing there, is orderly progress. */
  lemma OneWriterProgress(d: Disk, trace: seq<Disk>, opDir: DirId, id: string, least: nat)
    requires Sane(d.fs) && AllOrderly(d) && DiskRun(d, trace, iset{opDir})
    requires opDir in d.manifests && d.manifests[opDir].operationId == id && RestoredCount(d.manifests[opDir]) <= least
    requires OrderlyTrace(trace, opDir, id, least) && Climbing(trace, opDir, id)
    ensures OrderlyProgress(d, trace)
  {
    hide DiskRun, Sane, Orderly, RestoredCount;
    forall k | 0 <= k < |trace|
      ensures AllOrderly(trace[k]) && Progressed(d, trace[k])
    {
      RunLeavesOthers(d, trace, iset{opDir}, k);
      NextDirGrows(d, trace, iset{opDir}, k);
      assert OrderlyDisk(trace[k], opDir, id, least);
      OrderlyHasId(trace[k].manifests[opDir], id);
    }
    forall k, l | 0 <= k <= l < |trace|
      ensures Progressed(trace[k], trace[l])
    {
      RunLeavesOthers(d, trace, iset{opDir}, k);
      RunLeavesOthers(d, trace, iset{opDir}, l);
      assert OrderlyDisk(trace[k], opDir, id, least) && OrderlyDisk(trace[l], opDir, id, least);
      OrderlyHasId(trace[k].manifests[opDir], id);
      OrderlyHasId(trace[l].manifests[opDir], id);
    }
  }

  lemma RestartOrderly(d: Disk, opDir: DirId, id: string, x: Adversary)
    requires OrderlyDisk(d, opDir, id, 0)
    ensures var m := d.manifests[opDir].(status := Restoring);
            var w := Write(d, opDir, m, x, 0);
            w.Some? ==>
              && OrderlyDisk(w.value, opDir, id, RestoredCount(m)) && w.value.manifests[opDir] == Stamp(m, x.now(0))
              && RestoredCount(Stamp(m, x.now(0))) == RestoredCount(m) == RestoredCount(d.manifests[opDir])
  {
    hide Write, Shape, ValidManifest;
    var m := d.manifests[opDir].(status := Restoring);
    OrderlyHasId(d.manifests[opDir], id);
    WriteOrderly(d, opDir, id, m, x, 0, RestoredCount(m), QuarantinedCount(m));
  }

  /** Any restore run, whatever fails and whatever other processes do: the manifest stays orderly and its restored
      prefix never shrinks; with a response, the files recorded as restored are those recorded before and those
      verified now, whichever are more. */
  lemma RestoreOpOrderly(o: Oracle, d: Disk, root: Root, operationId: string, x: Adversary)
    requires FindSite(d, root, operationId).Some?
    requires OrderlyDisk(d, FindSite(d, root, operationId).value.opDir, operationId, 0)
    ensures var opDir := FindSite(d, root, operationId).value.opDir;
            var run := RestoreOp(o, d, root, operationId, x);
            && OrderlyTrace(run.trace, opDir, operationId, RestoredCount(d.manifests[opDir]))
            && Climbing(run.trace, opDir, operationId)
            && 0 <= RemainingCount(d.manifests[opDir], run)
            && (Responds(run) ==>
                  RestoredCount(LastDisk(d, run.trace).manifests[opDir])
                  == Max(RestoredCount(d.manifests[opDir]), run.verified))
  {
    hide FindSite, RestoreFrom, Write, Orderly, RestoredCount;
    SiteHasManifest(d, root, operationId);
    var site := FindSite(d, root, operationId).value;
    var m := d.manifests[site.opDir].(status := Restoring);
    var digest := Unhex32(m.contentDigestHex).value;
    RestartOrderly(d, site.opDir, operationId, x);
    OrderlyHasId(d.manifests[site.opDir], operationId);
    var w := Write(d, site.opDir, m, x, 0);
    if w.Some? {
      var next := Stamp(m, x.now(0));
      RestoreFromOrderly(o, w.value, site, next, digest, 0, x);
      var rest := RestoreFrom(o, w.value, site, next, digest, 0, x);
      OrderlyAppend([w.value], rest.trace, site.opDir, operationId, RestoredCount(m), RestoredCount(m));
    }
  }

  // -------------------------------------------------- executing a command

  lemma PlanDirFresh(d: Disk, plan: Plan, x: Adversary)
    requires Sane(d.fs)
    ensures d.fs.nextDir <= PlanDir(d, plan, x)
    ensures var files := FilesDirRun(d.fs, plan.root, plan.operationId, x);
            files.dir.Some? ==> PlanDir(d, plan, x) < Last(d.fs, files.trace).nextDir && files.trace != []
  {
    hide EnsureDir, Below, Sane, AllGrown, DirAt, EmptyDir;
    var quarantineSlot := Slot(plan.root.dir, QUARANTINE_DIRECTORY);
    var quarantine := EnsureDir(d.fs, quarantineSlot, x.mkdirFails(0), x.mkdirRejects(0));
    var operations := Below(d.fs, quarantine, OPERATIONS_DIRECTORY, false, x.mkdirFails(1), x.mkdirRejects(1));
    var operation := OperationDirRun(d.fs, plan.root, plan.operationId, x);
    EnsureDirMade(d.fs, quarantineSlot, x.mkdirFails(0), x.mkdirRejects(0));
    BelowMade(d.fs, quarantine, quarantineSlot, OPERATIONS_DIRECTORY, false, x.mkdirFails(1), x.mkdirRejects(1));
    BelowNone(d.fs, operations, plan.operationId, true, x.mkdirFails(2), x.mkdirRejects(2));
    BelowNone(d.fs, operation, FILES_DIRECTORY, true, x.mkdirFails(3), x.mkdirRejects(3));
    if operations.dir.Some? {
      BelowMade(d.fs, operations, Slot(quarantine.dir.value, OPERATIONS_DIRECTORY), plan.operationId, true,
                x.mkdirFails(2), x.mkdirRejects(2));
      if operation.dir.Some? {
        BelowMade(d.fs, operation, Slot(operations.dir.value, plan.operationId), FILES_DIRECTORY, true, x.mkdirFails(3),
                  x.mkdirRejects(3));
      }
    }
  }

  /** A trace that may only add a manifest in a directory that is new to the volume. */
  lemma NewWriterProgress(d: Disk, trace: seq<Disk>, opDir: DirId, id: string)
    requires Sane(d.fs) && AllOrderly(d) && DiskRun(d, trace, iset{opDir}) && opDir !in d.manifests
    requires forall k :: 0 <= k < |trace| && opDir in trace[k].manifests ==>
               && Orderly(trace[k].manifests[opDir], id) && RestoredCount(trace[k].manifests[opDir]) == 0
               && opDir < trace[k].fs.nextDir
    requires forall k, l :: 0 <= k <= l < |trace| && opDir in trace[k].manifests ==> opDir in trace[l].manifests
    ensures OrderlyProgress(d, trace)
  {
    hide DiskRun, Sane, Orderly, RestoredCount;
    forall k | 0 <= k < |trace|
      ensures AllOrderly(trace[k]) && Progressed(d, trace[k])
    {
      RunLeavesOthers(d, trace, iset{opDir}, k);
      NextDirGrows(d, trace, iset{opDir}, k);
      if opDir in trace[k].manifests {
        OrderlyHasId(trace[k].manifests[opDir], id);
      }
    }
    forall k, l | 0 <= k <= l < |trace|
      ensures Progressed(trace[k], trace[l])
    {
      RunLeavesOthers(d, trace, iset{opDir}, k);
      RunLeavesOthers(d, trace, iset{opDir}, l);
      if opDir in trace[k].manifests {
        OrderlyHasId(trace[k].manifests[opDir], id);
        OrderlyHasId(trace[l].manifests[opDir], id);
      }
    }
  }

  /** Manifests stay where they are. */
  lemma {:induction false} ManifestsStay(d: Disk, trace: seq<Disk>, at: iset<DirId>, k: nat, l: nat)
    requires DiskRun(d, trace, at) && k <= l < |trace|
    ensures forall dir :: dir in trace[k].manifests ==> dir in trace[l].manifests
    decreases |trace|
  {
    hide Step, ValidManifest;
    var init := trace[..|trace| - 1];
    if l < |init| {
      ManifestsStay(d, init, at, k, l);
    } else if k < l {
      ManifestsStay(d, init, at, k, l - 1);
    }
  }

  lemma ExecPlanStarts(o: Oracle, d: Disk, plan: Plan, current: GroupEvidence, x: Adversary, k: nat)
    requires Loaded(plan.evidence) && k < |ExecPlan(o, d, plan, current, x).trace|
    ensures var files := FilesDirRun(d.fs, plan.root, plan.operationId, x);
            var operation := OperationDirRun(d.fs, plan.root, plan.operationId, x);
            var trace := ExecPlan(o, d, plan, current, x).trace;
            && (k < |files.trace| ==> trace[k].manifests == d.manifests)
            && (k >= |files.trace| ==> files.dir.Some? && operation.dir.Some?)
            && (|files.trace| > 0 && k >= |files.trace| ==> trace[|files.trace| - 1].fs == Last(d.fs, files.trace))
  {
    hide FilesDirRun, OperationDirRun, ValidateGroup, StableBinding, ExecFrom, Write, FromPlan, Loaded;
  }

  lemma NextDirBetween(d: Disk, trace: seq<Disk>, at: iset<DirId>, j: nat, k: nat)
    requires Sane(d.fs) && DiskRun(d, trace, at) && j <= k < |trace|
    ensures trace[j].fs.nextDir <= trace[k].fs.nextDir
  {
    hide DiskStep, Sane;
    DiskRunPrefix(d, trace, at, k + 1);
    var upto := trace[..k + 1];
    assert upto[k] == trace[k] && upto[..j + 1][j] == trace[j];
    DiskRunEvolves(d, upto, at, j + 1);
  }

  lemma ExecPlanManifest(o: Oracle, d: Disk, plan: Plan, current: GroupEvidence, x: Adversary, k: nat)
    requires Sane(d.fs) && AllOrderly(d) && Loaded(plan.evidence) && k < |ExecPlan(o, d, plan, current, x).trace|
    requires PlanDir(d, plan, x) in ExecPlan(o, d, plan, current, x).trace[k].manifests
    ensures var later := ExecPlan(o, d, plan, current, x).trace[k];
            && Orderly(later.manifests[PlanDir(d, plan, x)], plan.operationId)
            && RestoredCount(later.manifests[PlanDir(d, plan, x)]) == 0
            && PlanDir(d, plan, x) < later.fs.nextDir
  {
    hide ExecPlan, Sane, Loaded, FilesDirRun, OperationDirRun, Orderly, RestoredCount, DiskRun;
    var opDir := PlanDir(d, plan, x);
    var trace := ExecPlan(o, d, plan, current, x).trace;
    var files := FilesDirRun(d.fs, plan.root, plan.operationId, x);
    PlanDirFresh(d, plan, x);
    ExecPlanStarts(o, d, plan, current, x, k);
    ExecPlanOrderly(o, d, plan, current, x, k, opDir);
    ExecPlanRuns(o, d, plan, current, x);
    NextDirBetween(d, trace, iset{opDir}, |files.trace| - 1, k);
  }

  lemma ExecPlanProgress(o: Oracle, d: Disk, plan: Plan, current: GroupEvidence, x: Adversary)
    requires Sane(d.fs) && AllOrderly(d) && Loaded(plan.evidence)
    ensures OrderlyProgress(d, ExecPlan(o, d, plan, current, x).trace)
  {
    hide ExecPlan, Sane, Loaded, PlanDir, Orderly, RestoredCount, DiskRun, OrderlyProgress;
    var opDir := PlanDir(d, plan, x);
    var trace := ExecPlan(o, d, plan, current, x).trace;
    PlanDirFresh(d, plan, x);
    ExecPlanRuns(o, d, plan, current, x);
    forall k | 0 <= k < |trace| && opDir in trace[k].manifests
      ensures Orderly(trace[k].manifests[opDir], plan.operationId)
      ensures RestoredCount(trace[k].manifests[opDir]) == 0 && opDir < trace[k].fs.nextDir
    {
      ExecPlanManifest(o, d, plan, current, x, k);
    }
    forall k, l | 0 <= k <= l < |trace| && opDir in trace[k].manifests
      ensures opDir in trace[l].manifests
    {
      ManifestsStay(d, trace, iset{opDir}, k, l);
    }
    NewWriterProgress(d, trace, opDir, plan.operationId);
  }

  lemma QuietProgress(d: Disk, trace: seq<Disk>)
    requires Sane(d.fs) && AllOrderly(d) && DiskRun(d, trace, iset{})
    ensures OrderlyProgress(d, trace)
  {
    hide DiskRun, Sane, Orderly, RestoredCount;
    forall k | 0 <= k < |trace|
      ensures trace[k].manifests == d.manifests && AllOrderly(trace[k])
    {
      RunLeavesOthers(d, trace, iset{}, k);
      NextDirGrows(d, trace, iset{}, k);
    }
  }

  lemma RestoreOpProgress(o: Oracle, d: Disk, root: Root, operationId: string, x: Adversary)
    requires Sane(d.fs) && AllOrderly(d)
    ensures OrderlyProgress(d, RestoreOp(o, d, root, operationId, x).trace)
  {
    hide RestoreOp, Sane, Orderly, RestoredCount, DiskRun, FindSite, OrderlyProgress, ValidManifest;
    RestoreOpRuns(o, d, root, operationId, x);
    var trace := RestoreOp(o, d, root, operationId, x).trace;
    if FindSite(d, root, operationId).None? {
      QuietProgress(d, trace);
    } else {
      SiteHasManifest(d, root, operationId);
      var opDir := FindSite(d, root, operationId).value.opDir;
      OrderlyUnderId(d, opDir, operationId);
      RestoreOpOrderly(o, d, root, operationId, x);
      OneWriterProgress(d, trace, opDir, operationId, RestoredCount(d.manifests[opDir]));
    }
  }

  lemma OrderlyUnderId(d: Disk, opDir: DirId, id: string)
    requires AllOrderly(d) && opDir in d.manifests && ValidManifest(d.manifests[opDir], id)
    ensures d.manifests[opDir].operationId == id && OrderlyDisk(d, opDir, id, 0)
  {
  }

  lemma ProgressPrefix(d: Disk, trace: seq<Disk>, steps: nat)
    requires OrderlyProgress(d, trace)
    ensures OrderlyProgress(d, UpToCrash(trace, steps))
  {
    hide AllOrderly, Progressed;
  }

  lemma CommandProgress(o: Oracle, d: Disk, c: Command)
    requires Sane(d.fs) && AllOrderly(d) && Issuable(c)
    ensures OrderlyProgress(d, CommandTrace(o, d, c))
  {
    hide ExecPlan, RestoreOp, Loaded, Sane, AllOrderly, OrderlyProgress, UpToCrash;
    match c
    case Execute(plan, current, x, steps) =>
      ExecPlanProgress(o, d, plan, current, x);
      ProgressPrefix(d, ExecPlan(o, d, plan, current, x).trace, steps);
    case Restore(root, operationId, x, steps) =>
      RestoreOpProgress(o, d, root, operationId, x);
      ProgressPrefix(d, RestoreOp(o, d, root, operationId, x).trace, steps);
    case Elsewhere(batch) =>
      EnvTraceSteps(d.fs, batch);
      LiftRun(d, EnvTrace(d.fs, batch), iset{});
      QuietProgress(d, Lift(d, EnvTrace(d.fs, batch)));
  }

  lemma ProgressEnds(d: Disk, trace: seq<Disk>)
    requires AllOrderly(d) && OrderlyProgress(d, trace)
    ensures AllOrderly(LastDisk(d, trace))
  {
    hide AllOrderly;
  }

  /** Whatever sequence of executions, restores, crashes and outside interference happens to a volume: every
      manifest on it stays valid and reads restored, quarantined, planned; a final status is never claimed
      early; and no restored prefix ever shrinks. */
  lemma {:induction false} SessionProgress(o: Oracle, d: Disk, commands: seq<Command>)
    requires Sane(d.fs) && AllOrderly(d) && forall i :: 0 <= i < |commands| ==> Issuable(commands[i])
    ensures OrderlyProgress(d, SessionTrace(o, d, commands))
  {
    hide Sane, AllOrderly, CommandTrace, DiskStep, Issuable, Progressed;
    if commands != [] {
      var init, last := commands[..|commands| - 1], commands[|commands| - 1];
      SessionProgress(o, d, init);
      var before := SessionTrace(o, d, init);
      SessionRuns(o, d, init);
      assert before[..0] == [];
      DiskRunEvolves(d, before, ANYWHERE, 0);
      ProgressEnds(d, before);
      CommandProgress(o, LastDisk(d, before), last);
      OrderlyProgressAppend(d, before, CommandTrace(o, LastDisk(d, before), last));
    }
  }
}
