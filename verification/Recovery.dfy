/** Crash recovery of quarantine operations in the absence of other processes: any I/O call may
    fail, any step may be the last before a crash, and one undisturbed restore still puts every
    file back. */
module Recovery {
  import opened Wrappers
  import opened Text
  import opened FileSystem
  import opened Paths
  import opened Manifest
  import opened Quarantine
  import opened QuarantineRuns

  /** One file of an operation: its original slot, its slot in quarantine, and the object itself. */
  datatype Item = Item(slot: Slot, held: Slot, file: FileId)

  /** What an operation looked like before its first move: the volume with the private directories in
      place, the files it is about, and the manifest first written. */
  datatype Scene = Scene(o: Oracle, site: Site, base: Fs, items: seq<Item>, template: OperationManifest,
                         digest: seq<byte>)

  function NodeAt(fs: Fs, s: Slot): Option<Node> { if s in fs.entries then Some(fs.entries[s]) else None }

  predicate ItemPlaced(fs: Fs, it: Item, away: bool) {
    if away then NodeAt(fs, it.held) == Some(FileNode(it.file)) && NodeAt(fs, it.slot) == None
    else NodeAt(fs, it.slot) == Some(FileNode(it.file)) && NodeAt(fs, it.held) == None
  }

  ghost predicate ItemSlot(items: seq<Item>, s: Slot) {
    exists i :: 0 <= i < |items| && (items[i].slot == s || items[i].held == s)
  }

  /** Same objects with the same metadata and bytes; only change times may differ. */
  ghost predicate SameFiles(a: Fs, b: Fs) {
    && a.files.Keys == b.files.Keys
    && forall f :: f in a.files ==>
         f in b.files && a.files[f].attrs == b.files[f].attrs && a.files[f].content == b.files[f].content
  }

  ghost predicate OthersUntouched(base: Fs, fs: Fs, items: seq<Item>) {
    forall s :: !ItemSlot(items, s) ==> NodeAt(fs, s) == NodeAt(base, s)
  }

  /** The volume differs from the base exactly by the items in `away` sitting in quarantine. */
  ghost predicate Placed(base: Fs, items: seq<Item>, fs: Fs, away: set<nat>) {
    && fs.slash == base.slash && fs.nextDir == base.nextDir
    && SameFiles(base, fs)
    && OthersUntouched(base, fs, items)
    && forall i :: 0 <= i < |items| ==> ItemPlaced(fs, items[i], i in away)
  }

  predicate DistinctItems(items: seq<Item>) {
    && (forall i, j :: 0 <= i < j < |items| ==> items[i].slot != items[j].slot && items[i].held != items[j].held)
    && (forall i, j :: 0 <= i < |items| && 0 <= j < |items| ==> items[i].slot != items[j].held)
  }

  /** The manifest entry describes the item truthfully. */
  predicate Described(o: Oracle, base: Fs, site: Site, f: ManifestFile, it: Item, digest: seq<byte>) {
    && it.file in base.files
    && it.slot.dir < base.nextDir && it.held.dir < base.nextDir
    && it.held == Slot(site.filesDir, f.quarantineName)
    && Resolve(base, site.root.dir, f.path) == Some(it.slot)
    && base.files[it.file].attrs.links == 1
    && ParseCanonicalU64(f.sizeBytes) == Some(base.files[it.file].attrs.size)
    && |base.files[it.file].content| == base.files[it.file].attrs.size
    && Unhex32(f.keyHex) == Some(o.objectKey(it.file))
    && o.digest(base.files[it.file].content) == digest
    && ValidMediaPath(f.path)
  }

  ghost predicate SceneOK(sc: Scene) {
    && |sc.items| == |sc.template.files|
    && DistinctItems(sc.items)
    && Placed(sc.base, sc.items, sc.base, {})
    && (forall i :: 0 <= i < |sc.items| ==>
          Described(sc.o, sc.base, sc.site, sc.template.files[i], sc.items[i], sc.digest))
    && ValidOperationId(sc.site.operationId) && sc.template.operationId == sc.site.operationId
    && FilesBinding(sc.base, sc.site.root, sc.site.operationId, sc.site.filesDir)
    && Walk(sc.base, sc.site.root.dir, FilesPath(sc.site.operationId)[..3]) == Some(sc.site.opDir)
    && Unhex32(sc.template.contentDigestHex) == Some(sc.digest)
  }

  lemma PlacedDirectories(base: Fs, items: seq<Item>, fs: Fs, away: set<nat>)
    requires Placed(base, items, base, {}) && Placed(base, items, fs, away)
    ensures SameDirectories(base, fs)
  {
    forall s
      ensures DirAt(base, s) == DirAt(fs, s)
    {
      if ItemSlot(items, s) {
        var i :| 0 <= i < |items| && (items[i].slot == s || items[i].held == s);
        assert ItemPlaced(base, items[i], false) && ItemPlaced(fs, items[i], i in away);
      } else {
        assert NodeAt(fs, s) == NodeAt(base, s);
      }
    }
  }

  lemma PlacedBindings(sc: Scene, fs: Fs, away: set<nat>)
    requires SceneOK(sc) && Placed(sc.base, sc.items, fs, away)
    ensures SameDirectories(sc.base, fs)
    ensures StableBinding(fs, sc.site.root)
    ensures FilesBinding(fs, sc.site.root, sc.site.operationId, sc.site.filesDir)
    ensures Walk(fs, sc.site.root.dir, FilesPath(sc.site.operationId)[..3]) == Some(sc.site.opDir)
  {
    PlacedDirectories(sc.base, sc.items, fs, away);
    WalkSame(sc.base, fs, fs.slash, sc.site.root.selected);
    WalkSame(sc.base, fs, sc.site.root.dir, FilesPath(sc.site.operationId));
    WalkSame(sc.base, fs, sc.site.root.dir, FilesPath(sc.site.operationId)[..3]);
  }

  /** Renaming one item between its two slots changes its place and nothing else. */
  lemma PlacedOut(base: Fs, items: seq<Item>, fs: Fs, away: set<nat>, i: nat)
    requires Placed(base, items, fs, away) && DistinctItems(items) && i < |items| && i !in away
    requires items[i].held.dir < base.nextDir && items[i].file in base.files
    ensures CanRename(fs, items[i].slot, items[i].held)
    ensures Placed(base, items, Rename(fs, items[i].slot, items[i].held), away + {i})
  {
    assert ItemPlaced(fs, items[i], false);
    var next := Rename(fs, items[i].slot, items[i].held);
    forall j | 0 <= j < |items|
      ensures ItemPlaced(next, items[j], j in away + {i})
    {
      assert ItemPlaced(fs, items[j], j in away);
      if j != i {
        assert items[j].slot != items[i].slot && items[j].held != items[i].held;
      }
    }
  }

  lemma PlacedBack(base: Fs, items: seq<Item>, fs: Fs, away: set<nat>, i: nat)
    requires Placed(base, items, fs, away) && DistinctItems(items) && i < |items| && i in away
    requires items[i].slot.dir < base.nextDir && items[i].file in base.files
    ensures CanRename(fs, items[i].held, items[i].slot)
    ensures Placed(base, items, Rename(fs, items[i].held, items[i].slot), away - {i})
  {
    assert ItemPlaced(fs, items[i], true);
    var next := Rename(fs, items[i].held, items[i].slot);
    forall j | 0 <= j < |items|
      ensures ItemPlaced(next, items[j], j in away - {i})
    {
      assert ItemPlaced(fs, items[j], j in away);
      if j != i {
        assert items[j].slot != items[i].slot && items[j].held != items[i].held;
      }
    }
  }

  // ------------------------------------------------ one undisturbed restore

  /** A restore of the i-th item of the scene. */
  predicate TaskOf(sc: Scene, t: RestoreTask, i: nat)
    requires i < |sc.template.files|
  {
    && t.root == sc.site.root && t.filesDir == sc.site.filesDir && t.operationId == sc.site.operationId
    && t.digest == sc.digest
    && t.file.(state := sc.template.files[i].state) == sc.template.files[i]
  }

  lemma ItemMatches(sc: Scene, fs: Fs, away: set<nat>, t: RestoreTask, i: nat)
    requires SceneOK(sc) && Placed(sc.base, sc.items, fs, away) && i < |sc.items| && TaskOf(sc, t, i)
    ensures var it := sc.items[i];
            && Destination(fs, t) == Some(it.slot) && HeldAt(t) == it.held
            && it.file in fs.files && MatchesManifest(sc.o, fs, it.file, t)
            && ItemPlaced(fs, it, i in away)
            && ParentBinding(fs, t.root, t.file.path, it.slot.dir)
            && FilesBinding(fs, t.root, t.operationId, t.filesDir)
  {
    var it := sc.items[i];
    assert Described(sc.o, sc.base, sc.site, sc.template.files[i], it, sc.digest);
    PlacedBindings(sc, fs, away);
    ResolveSame(sc.base, fs, sc.site.root.dir, t.file.path);
    assert fs.files[it.file].attrs == sc.base.files[it.file].attrs
           && fs.files[it.file].content == sc.base.files[it.file].content;
    assert t.file.path == sc.template.files[i].path && t.file.sizeBytes == sc.template.files[i].sizeBytes
           && t.file.keyHex == sc.template.files[i].keyHex
           && t.file.quarantineName == sc.template.files[i].quarantineName;
    hide Resolve, ValidMediaPath, Walk;
    assert IsU64Text(t.file.sizeBytes);
  }

  lemma RestoreHome(sc: Scene, fs: Fs, away: set<nat>, t: RestoreTask, i: nat, x: Interference)
    requires SceneOK(sc) && Placed(sc.base, sc.items, fs, away) && i < |sc.items| && TaskOf(sc, t, i) && i !in away
    ensures RestoreOne(sc.o, fs, t, x) == RestoreRun([], !x.prepareFails)
  {
    ItemMatches(sc, fs, away, t, i);
    hide Destination, MatchesManifest, Placed, SceneOK, CommitRestore;
  }

  lemma RestoreAway(sc: Scene, fs: Fs, away: set<nat>, t: RestoreTask, i: nat, x: Interference)
    requires SceneOK(sc) && Placed(sc.base, sc.items, fs, away) && i < |sc.items| && TaskOf(sc, t, i) && i in away
    requires Calm(x)
    ensures var run := RestoreOne(sc.o, fs, t, x);
            var it := sc.items[i];
            && CanRename(fs, it.held, it.slot) && CanRename(Rename(fs, it.held, it.slot), it.slot, it.held)
            && var moved := Rename(fs, it.held, it.slot);
               (|| (run == RestoreRun([], false) && !Faultless(x))
                || run == RestoreRun([moved], true)
                || (run == RestoreRun([moved], false) && !Faultless(x))
                || (run == RestoreRun([moved, Rename(moved, it.slot, it.held)], false) && !Faultless(x)))
  {
    var it := sc.items[i];
    assert Described(sc.o, sc.base, sc.site, sc.template.files[i], it, sc.digest);
    ItemMatches(sc, fs, away, t, i);
    PlacedBack(sc.base, sc.items, fs, away, i);
    var moved := Rename(fs, it.held, it.slot);
    ItemMatches(sc, moved, away - {i}, t, i);
    PlacedOut(sc.base, sc.items, moved, away - {i}, i);
    var id := IdentityOf(fs, it.file);
    hide Placed, SceneOK, ParentBinding, FilesBinding, Described, Destination;
    assert EnvTrace(fs, x.before) == [] && EnvTrace(moved, x.after) == [];
    assert SameObject(IdentityOf(moved, it.file), id) && moved.files[it.file].content == fs.files[it.file].content;
    assert RestoreVerified(sc.o, moved, t, it.slot, id);
  }

  // ------------------------------------------------ whole restore runs

  /** Some of the items are in quarantine, all others at home, and nothing else has changed. */
  ghost predicate Scattered(sc: Scene, fs: Fs) { exists away: set<nat> :: Placed(sc.base, sc.items, fs, away) }

  /** The state of an interrupted operation: some items in quarantine, and on disk a valid manifest of
      this very operation. */
  ghost predicate Recoverable(sc: Scene, d: Disk) {
    && SceneOK(sc)
    && Scattered(sc, d.fs)
    && sc.site.opDir in d.manifests
    && ManifestOf(sc, d.manifests[sc.site.opDir])
  }

  predicate ManifestOf(sc: Scene, m: OperationManifest) {
    ValidManifest(m, sc.site.operationId) && SameOperation(sc.template, m)
  }

  lemma WriteRecoverable(sc: Scene, d: Disk, m: OperationManifest, x: Adversary, index: nat)
    requires SceneOK(sc) && SameOperation(sc.template, m) && sc.template.operationId == sc.site.operationId
    ensures var w := Write(d, sc.site.opDir, m, x, index);
            w.Some? ==> w.value.fs == d.fs && sc.site.opDir in w.value.manifests
                        && w.value.manifests[sc.site.opDir] == Stamp(m, x.now(index))
                        && ManifestOf(sc, w.value.manifests[sc.site.opDir])
  {
    hide SceneOK, ValidManifest;
  }

  lemma UpdatesSameOperation(a: OperationManifest, m: OperationManifest, i: nat, state: FileState, status: Status,
                             now: nat)
    requires SameOperation(a, m)
    ensures SameOperation(a, m.(status := status)) && SameOperation(a, Stamp(m, now))
    ensures i < |m.files| ==>
              SameOperation(a, SetState(m, i, state)) && SameOperation(a, Stamp(SetState(m, i, state), now))
  {
  }

  /** A clock that never reads less than the creation time, and calls that do not fail. */
  ghost predicate Undisturbed(x: Adversary, created: string) {
    && (forall i :: Faultless(x.moves(i)))
    && !x.openFails
    && (forall i :: !x.writeFails(i) && !x.syncFails(i))
    && (forall i :: x.now(i) <= U64_MAX)
    && IsU64Text(created)
    && (forall i :: ParseCanonicalU64(created).value <= x.now(i))
  }

  ghost predicate AllRecoverable(sc: Scene, trace: seq<Disk>) {
    forall k :: 0 <= k < |trace| ==> Recoverable(sc, trace[k])
  }

  lemma RecoverableAppend(sc: Scene, first: seq<Disk>, second: seq<Disk>)
    requires AllRecoverable(sc, first) && AllRecoverable(sc, second)
    ensures AllRecoverable(sc, first + second)
  {
  }

  /** The items a restore has dealt with are home. */
  predicate HomeUpTo(away: set<nat>, i: nat) { forall j :: 0 <= j < i ==> j !in away }

  ghost predicate AllScattered(sc: Scene, trace: seq<Fs>) {
    forall k :: 0 <= k < |trace| ==> Scattered(sc, trace[k])
  }

  lemma PlacedThereAndBack(sc: Scene, fs: Fs, away: set<nat>, i: nat)
    requires SceneOK(sc) && Placed(sc.base, sc.items, fs, away) && i < |sc.items| && i in away
    ensures var it := sc.items[i];
            && CanRename(fs, it.held, it.slot) && CanRename(Rename(fs, it.held, it.slot), it.slot, it.held)
            && var moved := Rename(fs, it.held, it.slot);
               Placed(sc.base, sc.items, moved, away - {i})
               && Placed(sc.base, sc.items, Rename(moved, it.slot, it.held), away)
  {
    var it := sc.items[i];
    assert Described(sc.o, sc.base, sc.site, sc.template.files[i], it, sc.digest);
    PlacedBack(sc.base, sc.items, fs, away, i);
    PlacedOut(sc.base, sc.items, Rename(fs, it.held, it.slot), away - {i}, i);
    assert away - {i} + {i} == away;
  }

  lemma FaultlessMeans(x: Interference)
    ensures Faultless(x) ==> Calm(x) && !x.prepareFails
  {
  }

  lemma OneRestoreScattered(sc: Scene, fs: Fs, away: set<nat>, t: RestoreTask, i: nat, x: Interference)
    returns (after: set<nat>)
    requires SceneOK(sc) && Placed(sc.base, sc.items, fs, away) && i < |sc.items| && TaskOf(sc, t, i) && Calm(x)
    ensures var run := RestoreOne(sc.o, fs, t, x);
            && AllScattered(sc, run.trace)
            && Placed(sc.base, sc.items, Last(fs, run.trace), after)
            && (run.restored ==> after == away - {i})
            && (Faultless(x) ==> run.restored)
  {
    hide RestoreOne, Placed, SceneOK, Rename, CanRename, TaskOf, Faultless, Calm;
    var run := RestoreOne(sc.o, fs, t, x);
    if i !in away {
      RestoreHome(sc, fs, away, t, i, x);
      FaultlessMeans(x);
      after := away;
      assert away - {i} == away;
    } else {
      var it := sc.items[i];
      RestoreAway(sc, fs, away, t, i, x);
      PlacedThereAndBack(sc, fs, away, i);
      var moved := Rename(fs, it.held, it.slot);
      after := if run.trace == [moved] then away - {i} else away;
      assert Scattered(sc, moved) && Scattered(sc, Rename(moved, it.slot, it.held));
    }
  }

  lemma LiftRecoverable(sc: Scene, d: Disk, trace: seq<Fs>)
    requires SceneOK(sc) && AllScattered(sc, trace)
    requires sc.site.opDir in d.manifests && ManifestOf(sc, d.manifests[sc.site.opDir])
    ensures AllRecoverable(sc, Lift(d, trace))
    ensures LastDisk(d, Lift(d, trace)) == Disk(Last(d.fs, trace), d.manifests)
  {
    hide SceneOK, ManifestOf, Scattered;
    forall k | 0 <= k < |trace|
      ensures Recoverable(sc, Lift(d, trace)[k])
    {
      assert Scattered(sc, trace[k]);
    }
  }

  lemma CloseRecoverable(sc: Scene, d: Disk, m: OperationManifest, i: nat, x: Adversary)
    requires SceneOK(sc) && Scattered(sc, d.fs) && SameOperation(sc.template, m)
    requires sc.template.operationId == sc.site.operationId && i <= |m.files|
    ensures AllRecoverable(sc, CloseRestore(d, sc.site, m, i, x).trace)
    ensures forall k :: 0 <= k < |CloseRestore(d, sc.site, m, i, x).trace| ==>
              CloseRestore(d, sc.site, m, i, x).trace[k].fs == d.fs
  {
    hide SceneOK, ManifestOf, Scattered, Write, SameOperation;
    var status := if i == |m.files| then AllRestored else PartiallyRestored;
    UpdatesSameOperation(sc.template, m, 0, Restored, status, 0);
    WriteRecoverable(sc, d, m.(status := status), x, |m.files| + 1);
  }

  /** Every state a restore run passes through can be recovered again, whatever fails on the way. */
  lemma {:induction false} RestoreFromRecoverable(sc: Scene, d: Disk, m: OperationManifest, away: set<nat>, i: nat,
                                                  x: Adversary)
    requires SceneOK(sc) && sc.template.operationId == sc.site.operationId
    requires Placed(sc.base, sc.items, d.fs, away) && HomeUpTo(away, i)
    requires sc.site.opDir in d.manifests && ManifestOf(sc, d.manifests[sc.site.opDir])
    requires SameOperation(sc.template, m) && i <= |m.files| && CalmRun(x)
    ensures AllRecoverable(sc, RestoreFrom(sc.o, d, sc.site, m, sc.digest, i, x).trace)
    decreases |m.files| - i
  {
    hide RestoreOne, CloseRestore, Placed, SceneOK, ManifestOf, SameOperation, Write;
    assert Scattered(sc, d.fs);
    if i == |m.files| {
      CloseRecoverable(sc, d, m, i, x);
    } else {
      SameLength(sc.template, m);
      var one := RestoreOne(sc.o, d.fs, RestoreTaskFor(sc.site, m, i, sc.digest), x.moves(i));
      var lifted := Lift(d, one.trace);
      var here := LastDisk(d, lifted);
      TaskOfManifest(sc, m, i);
      var after := OneRestoreScattered(sc, d.fs, away, RestoreTaskFor(sc.site, m, i, sc.digest), i, x.moves(i));
      LiftRecoverable(sc, d, one.trace);
      assert Scattered(sc, here.fs);
      if !one.restored {
        CloseRecoverable(sc, here, m, i, x);
        RecoverableAppend(sc, lifted, CloseRestore(here, sc.site, m, i, x).trace);
      } else {
        var next := SetState(m, i, Restored);
        UpdatesSameOperation(sc.template, m, i, Restored, m.status, x.now(i + 1));
        WriteRecoverable(sc, here, next, x, i + 1);
        var w := Write(here, sc.site.opDir, next, x, i + 1);
        if w.Some? {
          RecoverableAppend(sc, lifted, [w.value]);
        }
        if w.Some? && !x.syncFails(i + 1) {
          RestoreFromRecoverable(sc, w.value, Stamp(next, x.now(i + 1)), after, i + 1, x);
          RecoverableAppend(sc, lifted + [w.value],
                            RestoreFrom(sc.o, w.value, sc.site, Stamp(next, x.now(i + 1)), sc.digest, i + 1, x).trace);
        }
      }
    }
  }

  lemma SameLength(a: OperationManifest, m: OperationManifest)
    requires SameOperation(a, m)
    ensures |a.files| == |m.files|
  {
  }

  lemma TaskOfManifest(sc: Scene, m: OperationManifest, i: nat)
    requires SceneOK(sc) && SameOperation(sc.template, m) && i < |m.files|
    ensures |sc.items| == |sc.template.files| == |m.files|
    ensures TaskOf(sc, RestoreTaskFor(sc.site, m, i, sc.digest), i)
  {
  }

  // --------------------------------------------- one undisturbed full restore

  lemma NothingFails(x: Adversary, created: string, index: nat)
    requires Undisturbed(x, created)
    ensures !x.openFails && !x.writeFails(index) && !x.syncFails(index) && Faultless(x.moves(index))
  {
    hide Faultless;
  }

  lemma SameOperationEuclidean(t: OperationManifest, a: OperationManifest, b: OperationManifest)
    requires SameOperation(t, a) && SameOperation(t, b)
    ensures SameOperation(a, b) && a.operationId == t.operationId && a.created == t.created
  {
    forall i | 0 <= i < |a.files|
      ensures a.files[i].(state := b.files[i].state) == b.files[i]
    {
      assert t.files[i].(state := a.files[i].state) == a.files[i]
             && t.files[i].(state := b.files[i].state) == b.files[i];
    }
  }

  lemma WriteSucceeds(sc: Scene, d: Disk, m: OperationManifest, x: Adversary, index: nat)
    requires sc.site.opDir in d.manifests && ManifestOf(sc, d.manifests[sc.site.opDir])
    requires SameOperation(sc.template, m) && KnownStates(m) && sc.template.operationId == sc.site.operationId
    requires Undisturbed(x, sc.template.created)
    ensures Write(d, sc.site.opDir, m, x, index).Some?
  {
    var current := d.manifests[sc.site.opDir];
    SameOperationEuclidean(sc.template, current, m);
    hide SameOperation, KnownStates, ValidManifest;
    UpdateValid(current, m, x.now(index));
  }

  lemma PlacedHome(base: Fs, items: seq<Item>, fs: Fs, away: set<nat>)
    requires Placed(base, items, fs, away) && HomeUpTo(away, |items|)
    ensures Placed(base, items, fs, {})
  {
    forall i | 0 <= i < |items|
      ensures ItemPlaced(fs, items[i], i in {})
    {
      assert ItemPlaced(fs, items[i], i in away);
    }
  }

  ghost predicate FullyRestored(sc: Scene, d: Disk) {
    && Placed(sc.base, sc.items, d.fs, {})
    && sc.site.opDir in d.manifests
    && ManifestOf(sc, d.manifests[sc.site.opDir])
    && var m := d.manifests[sc.site.opDir];
       m.status == AllRestored && forall i :: 0 <= i < |m.files| ==> m.files[i].state == Restored
  }

  predicate RestoredUpTo(m: OperationManifest, i: nat) {
    i <= |m.files| && forall j :: 0 <= j < i ==> m.files[j].state == Restored
  }

  lemma SetRestored(m: OperationManifest, i: nat)
    requires RestoredUpTo(m, i) && i < |m.files| && KnownStates(m)
    ensures RestoredUpTo(SetState(m, i, Restored), i + 1) && KnownStates(SetState(m, i, Restored))
  {
  }

  lemma CloseCompletes(sc: Scene, d: Disk, m: OperationManifest, x: Adversary)
    requires sc.template.operationId == sc.site.operationId && SameOperation(sc.template, m)
    requires sc.site.opDir in d.manifests && ManifestOf(sc, d.manifests[sc.site.opDir])
    requires Placed(sc.base, sc.items, d.fs, {}) && SceneOK(sc)
    requires KnownStates(m) && RestoredUpTo(m, |m.files|) && Undisturbed(x, sc.template.created)
    ensures var run := CloseRestore(d, sc.site, m, |m.files|, x);
            run.end == RestoreDone && run.verified == |m.files| && FullyRestored(sc, LastDisk(d, run.trace))
  {
    hide SceneOK, ManifestOf, Placed, SameOperation, Undisturbed, Write;
    UpdatesSameOperation(sc.template, m, 0, Restored, AllRestored, 0);
    var done := m.(status := AllRestored);
    NothingFails(x, sc.template.created, |m.files| + 1);
    PlacedBindings(sc, d.fs, {});
    WriteSucceeds(sc, d, done, x, |m.files| + 1);
    WriteRecoverable(sc, d, done, x, |m.files| + 1);
  }

  lemma {:induction false} RestoreFromCompletes(sc: Scene, d: Disk, m: OperationManifest, away: set<nat>, i: nat,
                                                x: Adversary)
    requires SceneOK(sc) && sc.template.operationId == sc.site.operationId
    requires Placed(sc.base, sc.items, d.fs, away) && HomeUpTo(away, i)
    requires sc.site.opDir in d.manifests && ManifestOf(sc, d.manifests[sc.site.opDir])
    requires SameOperation(sc.template, m) && KnownStates(m) && RestoredUpTo(m, i)
    requires Undisturbed(x, sc.template.created)
    ensures var run := RestoreFrom(sc.o, d, sc.site, m, sc.digest, i, x);
            run.end == RestoreDone && run.verified == |m.files| && FullyRestored(sc, LastDisk(d, run.trace))
    decreases |m.files| - i
  {
    SameLength(sc.template, m);
    TaskCount(sc);
    if i == |m.files| {
      PlacedHome(sc.base, sc.items, d.fs, away);
      CloseCompletes(sc, d, m, x);
    } else {
      TaskOfManifest(sc, m, i);
      NothingFails(x, sc.template.created, i);
      NothingFails(x, sc.template.created, i + 1);
      var one := RestoreOne(sc.o, d.fs, RestoreTaskFor(sc.site, m, i, sc.digest), x.moves(i));
      var after := OneRestoreScattered(sc, d.fs, away, RestoreTaskFor(sc.site, m, i, sc.digest), i, x.moves(i));
      hide RestoreOne, CloseRestore, Placed, SceneOK, ManifestOf, SameOperation, Write, FullyRestored, Undisturbed,
           KnownStates, RestoredUpTo, HomeUpTo;
      assert one.restored;
      LiftRecoverable(sc, d, one.trace);
      var here := LastDisk(d, Lift(d, one.trace));
      var next := SetState(m, i, Restored);
      SetRestored(m, i);
      UpdatesSameOperation(sc.template, m, i, Restored, m.status, x.now(i + 1));
      WriteSucceeds(sc, here, next, x, i + 1);
      WriteRecoverable(sc, here, next, x, i + 1);
      var w := Write(here, sc.site.opDir, next, x, i + 1).value;
      StampKeeps(next, x.now(i + 1), i + 1);
      HomeNext(away, i);
      RestoreFromCompletes(sc, w, Stamp(next, x.now(i + 1)), after, i + 1, x);
      RestoreFromUnfoldsOnce(sc, d, m, i, x);
    }
  }

  lemma TaskCount(sc: Scene)
    requires SceneOK(sc)
    ensures |sc.items| == |sc.template.files|
  {
  }

  lemma HomeNext(away: set<nat>, i: nat)
    requires HomeUpTo(away, i)
    ensures HomeUpTo(away - {i}, i + 1)
  {
  }

  lemma StampKeeps(m: OperationManifest, now: nat, i: nat)
    ensures KnownStates(m) ==> KnownStates(Stamp(m, now))
    ensures RestoredUpTo(m, i) ==> RestoredUpTo(Stamp(m, now), i)
    ensures |Stamp(m, now).files| == |m.files|
  {
  }

  lemma RestoreFromUnfoldsOnce(sc: Scene, d: Disk, m: OperationManifest, i: nat, x: Adversary)
    requires i < |m.files|
    requires RestoreOne(sc.o, d.fs, RestoreTaskFor(sc.site, m, i, sc.digest), x.moves(i)).restored
    ensures var one := RestoreOne(sc.o, d.fs, RestoreTaskFor(sc.site, m, i, sc.digest), x.moves(i));
            var w := Write(LastDisk(d, Lift(d, one.trace)), sc.site.opDir, SetState(m, i, Restored), x, i + 1);
            w.Some? && !x.syncFails(i + 1) ==>
              var rest := RestoreFrom(sc.o, w.value, sc.site, Stamp(SetState(m, i, Restored), x.now(i + 1)), sc.digest,
                                      i + 1, x);
              var run := RestoreFrom(sc.o, d, sc.site, m, sc.digest, i, x);
              && run.end == rest.end && run.verified == rest.verified
              && LastDisk(d, run.trace) == LastDisk(w.value, rest.trace)
  {
    hide RestoreOne, Write;
  }
}
