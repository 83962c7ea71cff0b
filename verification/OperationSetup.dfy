/** From an eligible group on an ordinary volume to the first move: the private directories, the
    first manifest, and the scene the recovery argument starts from. */
module OperationSetup {
  import opened Wrappers
  import opened Text
  import opened FileSystem
  import opened Paths
  import opened Manifest
  import opened Quarantine
  import opened QuarantineRuns
  import opened Recovery
  import opened CrashRecovery

  /** Only directories have been added. */
  ghost predicate Grown(a: Fs, b: Fs) {
    && b.files == a.files && b.slash == a.slash && a.nextDir <= b.nextDir && Sane(b)
    && (forall s :: s in a.entries ==> s in b.entries && b.entries[s] == a.entries[s])
    && (forall s :: s in b.entries && s !in a.entries ==> b.entries[s].DirNode? && b.entries[s].dir >= a.nextDir)
  }

  ghost predicate AllGrown(a: Fs, trace: seq<Fs>) { forall k :: 0 <= k < |trace| ==> Grown(a, trace[k]) }

  lemma GrownTransitive(a: Fs, b: Fs, c: Fs)
    requires Grown(a, b) && Grown(b, c)
    ensures Grown(a, c)
  {
  }

  lemma {:induction false} WalkGrown(a: Fs, b: Fs, start: DirId, components: seq<Name>)
    requires Grown(a, b) && Walk(a, start, components).Some?
    ensures Walk(b, start, components) == Walk(a, start, components)
  {
    if components != [] {
      WalkGrown(a, b, start, components[..|components| - 1]);
    }
  }

  lemma ResolveGrown(a: Fs, b: Fs, root: DirId, path: string)
    requires Grown(a, b) && Resolve(a, root, path).Some?
    ensures Resolve(b, root, path) == Resolve(a, root, path)
  {
    var parts := SplitRelative(path).value;
    WalkGrown(a, b, root, parts[..|parts| - 1]);
  }

  /** What one directory step guarantees. */
  ghost predicate DirMade(fs: Fs, run: MkdirRun, at: Slot) {
    && AllGrown(fs, run.trace)
    && Grown(fs, Last(fs, run.trace))
    && (run.dir.Some? ==> DirAt(Last(fs, run.trace), at) == run.dir && run.dir.value < Last(fs, run.trace).nextDir)
  }

  ghost predicate EmptyDir(fs: Fs, dir: DirId) { forall s :: s in fs.entries ==> s.dir != dir }

  lemma NewDirMade(fs: Fs, at: Slot, fails: bool, rejects: bool)
    requires Sane(fs)
    ensures DirMade(fs, NewDir(fs, at, fails, rejects), at)
    ensures var run := NewDir(fs, at, fails, rejects);
            run.dir.Some? ==> run.dir.value == fs.nextDir && EmptyDir(Last(fs, run.trace), run.dir.value)
  {
    if at !in fs.entries && at.dir < fs.nextDir {
      MkdirEvolves(fs, at);
    }
  }

  lemma EnsureDirMade(fs: Fs, at: Slot, fails: bool, rejects: bool)
    requires Sane(fs)
    ensures DirMade(fs, EnsureDir(fs, at, fails, rejects), at)
  {
    NewDirMade(fs, at, fails, rejects);
  }

  lemma BelowMade(fs: Fs, previous: MkdirRun, before: Slot, name: Name, exclusive: bool, fails: bool, rejects: bool)
    requires Sane(fs) && DirMade(fs, previous, before)
    ensures var run := Below(fs, previous, name, exclusive, fails, rejects);
            && AllGrown(fs, run.trace) && Grown(fs, Last(fs, run.trace))
            && (run.dir.Some? ==>
                  && previous.dir.Some? && DirMade(fs, run, Slot(previous.dir.value, name))
                  && Grown(Last(fs, previous.trace), Last(fs, run.trace))
                  && (exclusive ==> EmptyDir(Last(fs, run.trace), run.dir.value)
                                    && run.dir.value >= Last(fs, previous.trace).nextDir))
  {
    if previous.dir.Some? {
      var here := Last(fs, previous.trace);
      var at := Slot(previous.dir.value, name);
      NewDirMade(here, at, fails, rejects);
      EnsureDirMade(here, at, fails, rejects);
      var next := if exclusive then NewDir(here, at, fails, rejects) else EnsureDir(here, at, fails, rejects);
      LastAppend(fs, previous.trace, next.trace);
      hide NewDir, EnsureDir, Sane;
      forall k | 0 <= k < |next.trace|
        ensures Grown(fs, next.trace[k])
      {
        GrownTransitive(fs, here, next.trace[k]);
      }
      GrownTransitive(fs, here, Last(here, next.trace));
    }
  }

  lemma WalkFour(fs: Fs, root: DirId, operationId: string, quarantine: DirId, operations: DirId, operation: DirId,
                 files: DirId)
    requires DirAt(fs, Slot(root, QUARANTINE_DIRECTORY)) == Some(quarantine)
    requires DirAt(fs, Slot(quarantine, OPERATIONS_DIRECTORY)) == Some(operations)
    requires DirAt(fs, Slot(operations, operationId)) == Some(operation)
    requires DirAt(fs, Slot(operation, FILES_DIRECTORY)) == Some(files)
    ensures Walk(fs, root, FilesPath(operationId)[..3]) == Some(operation)
    ensures Walk(fs, root, FilesPath(operationId)) == Some(files)
  {
    var p := FilesPath(operationId);
    hide DirAt;
    assert p[..0] == [] && p[..1][..0] == [];
    assert p[..2][..1] == p[..1];
    assert p[..3][..2] == p[..2];
    assert Walk(fs, root, p[..1]) == Some(quarantine);
    assert Walk(fs, root, p[..2]) == Some(operations);
    assert Walk(fs, root, p[..3]) == Some(operation);
  }

  lemma BelowNone(fs: Fs, previous: MkdirRun, name: Name, exclusive: bool, fails: bool, rejects: bool)
    ensures previous.dir.None? ==> Below(fs, previous, name, exclusive, fails, rejects) == previous
  {
  }

  /** The private directories are in place below the root, the last one new and empty. */
  lemma SetupMade(fs: Fs, root: Root, operationId: string, x: Adversary)
    requires Sane(fs)
    ensures var files := FilesDirRun(fs, root, operationId, x);
            var operation := OperationDirRun(fs, root, operationId, x);
            var base := Last(fs, files.trace);
            && AllGrown(fs, files.trace) && Grown(fs, base)
            && (files.dir.Some? ==>
                  && operation.dir.Some?
                  && Walk(base, root.dir, FilesPath(operationId)) == files.dir
                  && Walk(base, root.dir, FilesPath(operationId)[..3]) == operation.dir
                  && EmptyDir(base, files.dir.value)
                  && fs.nextDir <= files.dir.value < base.nextDir)
  {
    var quarantine := EnsureDir(fs, Slot(root.dir, QUARANTINE_DIRECTORY), x.mkdirFails(0), x.mkdirRejects(0));
    var operations := Below(fs, quarantine, OPERATIONS_DIRECTORY, false, x.mkdirFails(1), x.mkdirRejects(1));
    var operation := OperationDirRun(fs, root, operationId, x);
    var files := FilesDirRun(fs, root, operationId, x);
    hide EnsureDir, Below, Sane, AllGrown, Walk, FilesPath, EmptyDir, DirAt;
    EnsureDirMade(fs, Slot(root.dir, QUARANTINE_DIRECTORY), x.mkdirFails(0), x.mkdirRejects(0));
    BelowMade(fs, quarantine, Slot(root.dir, QUARANTINE_DIRECTORY), OPERATIONS_DIRECTORY, false, x.mkdirFails(1),
              x.mkdirRejects(1));
    BelowNone(fs, operations, operationId, true, x.mkdirFails(2), x.mkdirRejects(2));
    BelowNone(fs, operation, FILES_DIRECTORY, true, x.mkdirFails(3), x.mkdirRejects(3));
    if operations.dir.Some? {
      BelowMade(fs, operations, Slot(quarantine.dir.value, OPERATIONS_DIRECTORY), operationId, true, x.mkdirFails(2),
                x.mkdirRejects(2));
      if operation.dir.Some? {
        BelowMade(fs, operation, Slot(operations.dir.value, operationId), FILES_DIRECTORY, true, x.mkdirFails(3),
                  x.mkdirRejects(3));
        if files.dir.Some? {
          var base := Last(fs, files.trace);
          GrownDir(Last(fs, operation.trace), base, Slot(operations.dir.value, operationId));
          GrownDir(Last(fs, operations.trace), Last(fs, operation.trace),
                   Slot(quarantine.dir.value, OPERATIONS_DIRECTORY));
          GrownDir(Last(fs, operation.trace), base, Slot(quarantine.dir.value, OPERATIONS_DIRECTORY));
          GrownDir(Last(fs, quarantine.trace), Last(fs, operations.trace), Slot(root.dir, QUARANTINE_DIRECTORY));
          GrownDir(Last(fs, operations.trace), Last(fs, operation.trace), Slot(root.dir, QUARANTINE_DIRECTORY));
          GrownDir(Last(fs, operation.trace), base, Slot(root.dir, QUARANTINE_DIRECTORY));
          WalkFour(base, root.dir, operationId, quarantine.dir.value, operations.dir.value, operation.dir.value,
                   files.dir.value);
        }
      }
    }
  }

  /** There is room for a new operation: each of the two outer directories is missing or a directory, and the
      operation's own name is not taken. */
  predicate RoomFor(fs: Fs, root: DirId, operationId: string) {
    var quarantine := Slot(root, QUARANTINE_DIRECTORY);
    || quarantine !in fs.entries
    || (&& DirAt(fs, quarantine).Some?
        && var operations := Slot(DirAt(fs, quarantine).value, OPERATIONS_DIRECTORY);
           || operations !in fs.entries
           || (DirAt(fs, operations).Some? && Slot(DirAt(fs, operations).value, operationId) !in fs.entries))
  }

  ghost predicate MakesDirectories(x: Adversary) { forall i :: !x.mkdirFails(i) && !x.mkdirRejects(i) }

  /** With calls that do not fail, the private directories are created exactly if there is room for them. */
  lemma SetupSucceeds(fs: Fs, root: Root, operationId: string, x: Adversary)
    requires Sane(fs) && root.dir < fs.nextDir && MakesDirectories(x)
    ensures FilesDirRun(fs, root, operationId, x).dir.Some? <==> RoomFor(fs, root.dir, operationId)
  {
    var at := Slot(root.dir, QUARANTINE_DIRECTORY);
    var quarantine := EnsureDir(fs, at, x.mkdirFails(0), x.mkdirRejects(0));
    EnsureDirMade(fs, at, x.mkdirFails(0), x.mkdirRejects(0));
    var operations := Below(fs, quarantine, OPERATIONS_DIRECTORY, false, x.mkdirFails(1), x.mkdirRejects(1));
    BelowMade(fs, quarantine, at, OPERATIONS_DIRECTORY, false, x.mkdirFails(1), x.mkdirRejects(1));
    var operation := OperationDirRun(fs, root, operationId, x);
    if quarantine.dir.Some? {
      LastEnsured(fs, quarantine, OPERATIONS_DIRECTORY, x.mkdirFails(1), x.mkdirRejects(1));
    }
    if operations.dir.Some? {
      var slot := Slot(quarantine.dir.value, OPERATIONS_DIRECTORY);
      BelowMade(fs, operations, slot, operationId, true, x.mkdirFails(2), x.mkdirRejects(2));
    }
    hide Grown, AllGrown, FilesPath;
  }

  lemma LastEnsured(fs: Fs, previous: MkdirRun, name: Name, fails: bool, rejects: bool)
    requires previous.dir.Some?
    ensures var here := Last(fs, previous.trace);
            Last(fs, Below(fs, previous, name, false, fails, rejects).trace)
            == Last(here, EnsureDir(here, Slot(previous.dir.value, name), fails, rejects).trace)
  {
  }

  lemma GrownDir(a: Fs, b: Fs, s: Slot)
    requires Grown(a, b) && DirAt(a, s).Some?
    ensures DirAt(b, s) == DirAt(a, s)
  {
  }

  // ------------------------------------------------------------- the scene

  /** The plan passed its checks on this volume and its manifest was written. */
  ghost predicate Launched(o: Oracle, fs: Fs, plan: Plan, base: Fs, site: Site, now: nat, rank: DirId -> nat) {
    && Sane(fs) && Tree(fs, rank) && Loaded(plan.evidence)
    && ValidateGroup(o, fs, plan.root, plan.evidence) == Some(plan.digest)
    && Grown(fs, base) && StableBinding(base, plan.root)
    && site.root == plan.root && site.operationId == plan.operationId
    && Walk(base, plan.root.dir, FilesPath(plan.operationId)) == Some(site.filesDir)
    && Walk(base, plan.root.dir, FilesPath(plan.operationId)[..3]) == Some(site.opDir)
    && EmptyDir(base, site.filesDir) && fs.nextDir <= site.filesDir < base.nextDir
    && ValidManifest(FromPlan(plan.operationId, plan.digest, plan.evidence, now), plan.operationId)
  }

  function MoversOf(plan: Plan): seq<MemberEvidence> { Movers(plan.evidence.members, plan.evidence.keeperOrdinal) }

  /** Where the i-th mover was found, and where it goes. */
  function ItemOf(o: Oracle, fs: Fs, plan: Plan, site: Site, i: nat): Item
    requires i < |MoversOf(plan)| && MoversOf(plan)[i].ordinal >= 0
  {
    var m := MoversOf(plan)[i];
    var slot := Resolve(fs, plan.root.dir, m.path);
    var file := MemberFile(o, fs, plan.root, m);
    Item(if slot.Some? then slot.value else Slot(0, ""), Slot(site.filesDir, MemberName(m.ordinal)),
         if file.Some? then file.value else 0)
  }

  lemma MoverReady(o: Oracle, fs: Fs, plan: Plan, i: nat)
    requires Loaded(plan.evidence) && i < |MoversOf(plan)|
    requires ValidateGroup(o, fs, plan.root, plan.evidence) == Some(plan.digest)
    ensures MoversOf(plan)[i].ordinal >= 0
    ensures var m := MoversOf(plan)[i];
            && MemberReady(o, fs, plan.root, m) && |m.key| == 32
            && var content := MemberContent(o, fs, plan.root, m);
               content.Some? && o.digest(content.value) == plan.digest
  {
    hide MemberReady, MemberContent;
    MoverAt(plan.evidence, i);
    var e := plan.evidence;
    var j: nat := if i < e.keeperOrdinal then i else i + 1;
    assert MemberReady(o, fs, plan.root, e.members[j]);
  }

  lemma ItemFound(o: Oracle, fs: Fs, plan: Plan, base: Fs, site: Site, now: nat, rank: DirId -> nat, i: nat)
    requires Launched(o, fs, plan, base, site, now, rank) && i < |MoversOf(plan)|
    ensures MoversOf(plan)[i].ordinal >= 0
    ensures var it := ItemOf(o, fs, plan, site, i);
            var m := MoversOf(plan)[i];
            && Resolve(fs, plan.root.dir, m.path) == Some(it.slot)
            && FileAt(fs, it.slot) == Some(it.file) && it.file in fs.files && MemberMatches(o, fs, it.file, m)
            && o.digest(fs.files[it.file].content) == plan.digest
            && ValidMediaPath(m.path) && |m.key| == 32
  {
    MoverReady(o, fs, plan, i);
    hide Launched, ValidMediaPath, NoCompanion, Resolve, ValidateGroup;
  }

  lemma ItemFileValid(o: Oracle, fs: Fs, plan: Plan, base: Fs, site: Site, now: nat, rank: DirId -> nat, i: nat)
    requires Launched(o, fs, plan, base, site, now, rank) && i < |MoversOf(plan)|
    ensures MoversOf(plan)[i].ordinal >= 0
    ensures var files := FromPlan(plan.operationId, plan.digest, plan.evidence, now).files;
            i < |files| && files[i] == PlannedFile(MoversOf(plan)[i]) && ValidFile(files[i])
  {
    hide ValidateGroup, Tree, Walk, StableBinding, ValidFile;
    MoversNonNegative(plan.evidence);
    var files := FromPlan(plan.operationId, plan.digest, plan.evidence, now).files;
    assert ValidUpTo(files, |files|);
  }

  lemma ItemDescribed(o: Oracle, fs: Fs, plan: Plan, base: Fs, site: Site, now: nat, rank: DirId -> nat, i: nat)
    requires Launched(o, fs, plan, base, site, now, rank) && i < |MoversOf(plan)|
    ensures MoversOf(plan)[i].ordinal >= 0
    ensures i < |FromPlan(plan.operationId, plan.digest, plan.evidence, now).files|
    ensures Described(o, base, site, FromPlan(plan.operationId, plan.digest, plan.evidence, now).files[i],
                      ItemOf(o, fs, plan, site, i), plan.digest)
    ensures ItemPlaced(base, ItemOf(o, fs, plan, site, i), false)
    ensures ItemOf(o, fs, plan, site, i).slot.dir < fs.nextDir
  {
    hide ValidMediaPath, Resolve, Walk, ValidateGroup, ValidManifest, StableBinding, Tree, FromPlan;
    ItemFound(o, fs, plan, base, site, now, rank, i);
    ItemFileValid(o, fs, plan, base, site, now, rank, i);
    var m := MoversOf(plan)[i];
    var it := ItemOf(o, fs, plan, site, i);
    ResolveGrown(fs, base, plan.root.dir, m.path);
    HexText(m.key);
    SizeText(m.size);
    assert it.held !in base.entries;
  }

  lemma SizeText(n: int)
    requires n >= 0 && IsU64Text(SignedDecimal(n))
    ensures ParseCanonicalU64(SignedDecimal(n)) == Some(n)
  {
    DecimalInjective(n, ParseCanonicalU64(Decimal(n)).value);
  }

  function SceneOf(o: Oracle, fs: Fs, plan: Plan, base: Fs, site: Site, now: nat): Scene
    requires Loaded(plan.evidence)
  {
    MoversNonNegative(plan.evidence);
    Scene(o, site, base, seq(|MoversOf(plan)|, i requires 0 <= i < |MoversOf(plan)| => ItemOf(o, fs, plan, site, i)),
          FromPlan(plan.operationId, plan.digest, plan.evidence, now), plan.digest)
  }

  lemma SceneItems(o: Oracle, fs: Fs, plan: Plan, base: Fs, site: Site, now: nat, i: nat)
    requires Loaded(plan.evidence) && i < |MoversOf(plan)|
    ensures MoversOf(plan)[i].ordinal >= 0
    ensures var sc := SceneOf(o, fs, plan, base, site, now);
            |sc.items| == |MoversOf(plan)| == |sc.template.files| && sc.items[i] == ItemOf(o, fs, plan, site, i)
            && sc.template.files[i] == PlannedFile(MoversOf(plan)[i])
  {
    MoversNonNegative(plan.evidence);
  }

  /** Different members have different places: a valid manifest names each path once, and in a directory
      tree different paths are different slots. */
  lemma ItemsDiffer(o: Oracle, fs: Fs, plan: Plan, base: Fs, site: Site, now: nat, rank: DirId -> nat, i: nat, j: nat)
    requires Launched(o, fs, plan, base, site, now, rank) && i < j < |MoversOf(plan)|
    ensures MoversOf(plan)[i].ordinal >= 0 && MoversOf(plan)[j].ordinal >= 0
    ensures ItemOf(o, fs, plan, site, i).slot != ItemOf(o, fs, plan, site, j).slot
    ensures ItemOf(o, fs, plan, site, i).held != ItemOf(o, fs, plan, site, j).held
  {
    ItemFound(o, fs, plan, base, site, now, rank, i);
    ItemFound(o, fs, plan, base, site, now, rank, j);
    NamesFromPlan(plan.evidence, i, j);
    SceneItems(o, fs, plan, base, site, now, i);
    SceneItems(o, fs, plan, base, site, now, j);
    var files := FromPlan(plan.operationId, plan.digest, plan.evidence, now).files;
    assert OriginalPaths(files)[i] != OriginalPaths(files)[j];
    hide Walk, Resolve, ValidateGroup, ValidManifest, StableBinding, ValidMediaPath, MemberMatches;
    if ItemOf(o, fs, plan, site, i).slot == ItemOf(o, fs, plan, site, j).slot {
      ResolveInjective(fs, rank, plan.root.dir, MoversOf(plan)[i].path, MoversOf(plan)[j].path);
    }
  }

  lemma SceneItemOK(o: Oracle, fs: Fs, plan: Plan, base: Fs, site: Site, now: nat, rank: DirId -> nat, i: nat)
    requires Launched(o, fs, plan, base, site, now, rank) && i < |MoversOf(plan)|
    ensures var sc := SceneOf(o, fs, plan, base, site, now);
            && |sc.items| == |sc.template.files| == |MoversOf(plan)|
            && Described(o, base, site, sc.template.files[i], sc.items[i], plan.digest)
            && ItemPlaced(base, sc.items[i], false)
            && sc.items[i].slot.dir < fs.nextDir <= sc.items[i].held.dir
  {
    hide Described, ItemPlaced, ValidManifest, ValidateGroup, Walk;
    ItemDescribed(o, fs, plan, base, site, now, rank, i);
    SceneItems(o, fs, plan, base, site, now, i);
  }

  lemma ScenePairOK(o: Oracle, fs: Fs, plan: Plan, base: Fs, site: Site, now: nat, rank: DirId -> nat, i: nat, j: nat)
    requires Launched(o, fs, plan, base, site, now, rank) && i < j < |MoversOf(plan)|
    ensures var items := SceneOf(o, fs, plan, base, site, now).items;
            |items| == |MoversOf(plan)| && items[i].slot != items[j].slot && items[i].held != items[j].held
  {
    ItemsDiffer(o, fs, plan, base, site, now, rank, i, j);
    SceneItems(o, fs, plan, base, site, now, i);
    SceneItems(o, fs, plan, base, site, now, j);
    hide ItemOf, FromPlan, ValidateGroup, Walk, ValidManifest;
  }

  lemma SceneDistinct(o: Oracle, fs: Fs, plan: Plan, base: Fs, site: Site, now: nat, rank: DirId -> nat)
    requires Launched(o, fs, plan, base, site, now, rank)
    ensures DistinctItems(SceneOf(o, fs, plan, base, site, now).items)
  {
    SceneLength(o, fs, plan, base, site, now);
    var items := SceneOf(o, fs, plan, base, site, now).items;
    hide Launched, Described, Loaded, SceneOf, ItemPlaced;
    forall i, j | 0 <= i < j < |items|
      ensures items[i].slot != items[j].slot && items[i].held != items[j].held
    {
      ScenePairOK(o, fs, plan, base, site, now, rank, i, j);
    }
    forall i, j | 0 <= i < |items| && 0 <= j < |items|
      ensures items[i].slot != items[j].held
    {
      SceneItemOK(o, fs, plan, base, site, now, rank, i);
      SceneItemOK(o, fs, plan, base, site, now, rank, j);
    }
  }

  lemma SceneLength(o: Oracle, fs: Fs, plan: Plan, base: Fs, site: Site, now: nat)
    requires Loaded(plan.evidence)
    ensures var sc := SceneOf(o, fs, plan, base, site, now); |sc.items| == |sc.template.files| == |MoversOf(plan)|
  {
    MoversNonNegative(plan.evidence);
  }

  lemma LaunchedLoaded(o: Oracle, fs: Fs, plan: Plan, base: Fs, site: Site, now: nat, rank: DirId -> nat)
    requires Launched(o, fs, plan, base, site, now, rank)
    ensures Loaded(plan.evidence)
  {
  }

  lemma NothingTouched(base: Fs, items: seq<Item>)
    ensures OthersUntouched(base, base, items) && SameFiles(base, base)
  {
  }

  lemma ScenePlaced(o: Oracle, fs: Fs, plan: Plan, base: Fs, site: Site, now: nat, rank: DirId -> nat)
    requires Launched(o, fs, plan, base, site, now, rank)
    ensures Placed(base, SceneOf(o, fs, plan, base, site, now).items, base, {})
    ensures var sc := SceneOf(o, fs, plan, base, site, now);
            |sc.items| == |sc.template.files|
            && forall i :: 0 <= i < |sc.items| ==>
                 Described(o, base, site, sc.template.files[i], sc.items[i], plan.digest)
  {
    LaunchedLoaded(o, fs, plan, base, site, now, rank);
    hide Launched, Described, Loaded, SceneOf, ItemPlaced, OthersUntouched, SameFiles;
    SceneLength(o, fs, plan, base, site, now);
    var sc := SceneOf(o, fs, plan, base, site, now);
    NothingTouched(base, sc.items);
    forall i | 0 <= i < |sc.items|
      ensures ItemPlaced(base, sc.items[i], i in {})
      ensures Described(o, base, site, sc.template.files[i], sc.items[i], plan.digest)
    {
      SceneItemOK(o, fs, plan, base, site, now, rank, i);
    }
  }

  lemma SceneReady(o: Oracle, fs: Fs, plan: Plan, base: Fs, site: Site, now: nat, rank: DirId -> nat)
    requires Launched(o, fs, plan, base, site, now, rank)
    ensures SceneOK(SceneOf(o, fs, plan, base, site, now))
  {
    ScenePlaced(o, fs, plan, base, site, now, rank);
    SceneDistinct(o, fs, plan, base, site, now, rank);
    HexText(plan.digest);
    hide Placed, DistinctItems, Described, ValidateGroup, Tree, Grown, Sane, Walk, Loaded;
  }

  // ------------------------------------------------- execution, all states

  /** Manifests live in existing directories. */
  ghost predicate ManifestsSane(d: Disk) { forall dir :: dir in d.manifests ==> dir < d.fs.nextDir }

  /** Nothing has been moved and no manifest written: at most some private directories exist. */
  ghost predicate NothingMoved(d: Disk, later: Disk) { Grown(d.fs, later.fs) && later.manifests == d.manifests }

  lemma LiftNothingMoved(d: Disk, trace: seq<Fs>)
    requires AllGrown(d.fs, trace) && Grown(d.fs, Last(d.fs, trace))
    ensures forall k :: 0 <= k < |trace| ==> NothingMoved(d, Lift(d, trace)[k])
    ensures LastDisk(d, Lift(d, trace)) == Disk(Last(d.fs, trace), d.manifests)
  {
    hide Grown;
  }

  /** The scene an execution sets up, with the clock reading its manifest was created at. */
  function SceneOfRun(o: Oracle, d: Disk, plan: Plan, x: Adversary): Scene
    requires Loaded(plan.evidence)
  {
    var operation := OperationDirRun(d.fs, plan.root, plan.operationId, x);
    var files := FilesDirRun(d.fs, plan.root, plan.operationId, x);
    SceneOf(o, d.fs, plan, Last(d.fs, files.trace),
            Site(plan.root, plan.operationId, if operation.dir.Some? then operation.dir.value else 0,
                 if files.dir.Some? then files.dir.value else 0), x.now(0))
  }

  lemma ValidUnstamped(m: OperationManifest, now: nat, id: string)
    requires ValidManifest(Stamp(m, now), id) && m.updated == m.created
    ensures ValidManifest(m, id)
  {
  }

  lemma RunLaunches(o: Oracle, d: Disk, plan: Plan, x: Adversary, rank: DirId -> nat)
    requires Sane(d.fs) && Tree(d.fs, rank) && Loaded(plan.evidence)
    requires ValidateGroup(o, d.fs, plan.root, plan.evidence) == Some(plan.digest)
    requires var sc := SceneOfRun(o, d, plan, x);
             && FilesDirRun(d.fs, plan.root, plan.operationId, x).dir.Some? && StableBinding(sc.base, plan.root)
             && Write(Disk(sc.base, d.manifests), sc.site.opDir, sc.template, x, 1).Some?
    ensures var sc := SceneOfRun(o, d, plan, x);
            && Launched(o, d.fs, plan, sc.base, sc.site, x.now(0), rank)
            && sc == SceneOf(o, d.fs, plan, sc.base, sc.site, x.now(0))
  {
    var sc := SceneOfRun(o, d, plan, x);
    SetupMade(d.fs, plan.root, plan.operationId, x);
    ValidUnstamped(sc.template, x.now(1), plan.operationId);
    hide Sane, Tree, Loaded, ValidateGroup, Grown, StableBinding, Walk, EmptyDir, FilesDirRun, OperationDirRun,
         ValidManifest;
  }

  lemma SameAsItself(m: OperationManifest)
    ensures SameOperation(m, m)
  {
  }

  lemma LaunchedIsWriteReady(o: Oracle, fs: Fs, plan: Plan, base: Fs, site: Site, now: nat, rank: DirId -> nat, d: Disk)
    requires Launched(o, fs, plan, base, site, now, rank) && d.fs == base
    ensures var sc := SceneOf(o, fs, plan, base, site, now);
            WriteReady(sc, d, sc.template, 0, 0) && PlanOf(sc, plan) && LoopBounds(plan, sc.template, 0)
  {
    var sc := SceneOf(o, fs, plan, base, site, now);
    SceneReady(o, fs, plan, base, site, now, rank);
    ScenePlaced(o, fs, plan, base, site, now, rank);
    SceneLength(o, fs, plan, base, site, now);
    SameAsItself(sc.template);
    MoversNonNegative(plan.evidence);
    hide SceneOK, ValidateGroup, Tree, Sane, Grown, Placed, Described, ValidManifest, SameOperation, Walk;
    assert UpTo(0) == {};
    assert Shape(sc.template.files, 0, 0);
  }

  /** Once the first manifest is on disk, the move loop is ready to run on the scene. */
  lemma LoopStarts(o: Oracle, d: Disk, plan: Plan, x: Adversary, rank: DirId -> nat)
    requires Sane(d.fs) && Tree(d.fs, rank) && Loaded(plan.evidence) && CalmRun(x)
    requires ValidateGroup(o, d.fs, plan.root, plan.evidence) == Some(plan.digest)
    requires var sc := SceneOfRun(o, d, plan, x);
             && FilesDirRun(d.fs, plan.root, plan.operationId, x).dir.Some? && StableBinding(sc.base, plan.root)
             && Write(Disk(sc.base, d.manifests), sc.site.opDir, sc.template, x, 1).Some?
    ensures var sc := SceneOfRun(o, d, plan, x);
            var w := Write(Disk(sc.base, d.manifests), sc.site.opDir, sc.template, x, 1).value;
            && Grown(d.fs, sc.base) && SceneOK(sc) && Midway(sc, w)
            && LoopReady(sc, w, plan, Stamp(sc.template, x.now(1)), 0, x)
  {
    RunLaunches(o, d, plan, x, rank);
    var sc := SceneOfRun(o, d, plan, x);
    var here := Disk(sc.base, d.manifests);
    LaunchedIsWriteReady(o, d.fs, plan, sc.base, sc.site, x.now(0), rank, here);
    SceneReady(o, d.fs, plan, sc.base, sc.site, x.now(0), rank);
    hide WriteReady, PlanOf, LoopBounds, SceneOK, LoopReady, Write, SceneOfRun, SceneOf, Midway, Sane, Tree, Loaded,
         ValidateGroup, Grown, Walk, CalmRun;
    LoopWrite(sc, here, plan, sc.template, 0, 0, x, 1);
  }
}
