/** What the remaining count in the response of a restore says, and when it can be relied on. */
module RestoreResponses {
  import opened Wrappers
  import opened Text
  import opened FileSystem
  import opened Paths
  import opened Manifest
  import opened Quarantine
  import opened QuarantineRuns
  import opened ManifestShape
  import opened OperationSetup
  import opened Sessions

  /** What the response calls remaining is what the manifest does not record as restored. */
  predicate RemainingExact(d: Disk, opDir: DirId, run: RestoreAll)
    requires opDir in d.manifests && opDir in LastDisk(d, run.trace).manifests
  {
    RemainingCount(d.manifests[opDir], run)
    == |d.manifests[opDir].files| - RestoredCount(LastDisk(d, run.trace).manifests[opDir])
  }

  /** When the remaining count of a response is the number of files still to restore: exactly when the run verified at
      least the files that were recorded as restored before it. Otherwise it is more. */
  lemma RemainingIsExact(o: Oracle, d: Disk, root: Root, operationId: string, x: Adversary)
    requires FindSite(d, root, operationId).Some?
    requires OrderlyDisk(d, FindSite(d, root, operationId).value.opDir, operationId, 0)
    requires Responds(RestoreOp(o, d, root, operationId, x))
    ensures var opDir := FindSite(d, root, operationId).value.opDir;
            var run := RestoreOp(o, d, root, operationId, x);
            && opDir in LastDisk(d, run.trace).manifests
            && (RemainingExact(d, opDir, run) <==> RestoredCount(d.manifests[opDir]) <= run.verified)
            && |d.manifests[opDir].files| - RestoredCount(LastDisk(d, run.trace).manifests[opDir])
               <= RemainingCount(d.manifests[opDir], run)
  {
    hide RestoreOp, FindSite, Orderly, RestoredCount;
    RestoreOpOrderly(o, d, root, operationId, x);
    var run := RestoreOp(o, d, root, operationId, x);
    var opDir := FindSite(d, root, operationId).value.opDir;
    if run.trace != [] {
      assert OrderlyDisk(run.trace[|run.trace| - 1], opDir, operationId, RestoredCount(d.manifests[opDir]));
    }
  }

  /** Every response of a restore of this operation, whatever fails and whoever interferes, reports the exact count. */
  ghost predicate AlwaysExact(o: Oracle, d: Disk, root: Root, operationId: string)
    requires FindSite(d, root, operationId).Some?
  {
    var opDir := FindSite(d, root, operationId).value.opDir;
    forall x: Adversary :: Responds(RestoreOp(o, d, root, operationId, x)) ==>
      && opDir in d.manifests && opDir in LastDisk(d, RestoreOp(o, d, root, operationId, x).trace).manifests
      && RemainingExact(d, opDir, RestoreOp(o, d, root, operationId, x))
  }

  /** The condition a caller can check beforehand, in the listing of the operation: the reported count can be relied
      on exactly if no file is recorded as restored yet. */
  lemma RemainingReliable(o: Oracle, d: Disk, root: Root, operationId: string)
    requires FindSite(d, root, operationId).Some?
    requires OrderlyDisk(d, FindSite(d, root, operationId).value.opDir, operationId, 0)
    ensures AlwaysExact(o, d, root, operationId)
            <==> RestoredCount(d.manifests[FindSite(d, root, operationId).value.opDir]) == 0
  {
    hide RestoreOp, FindSite, RestoredCount, RemainingExact, Orderly;
    var opDir := FindSite(d, root, operationId).value.opDir;
    forall x: Adversary | Responds(RestoreOp(o, d, root, operationId, x))
      ensures opDir in LastDisk(d, RestoreOp(o, d, root, operationId, x).trace).manifests
      ensures RestoredCount(d.manifests[opDir]) == 0 ==> RemainingExact(d, opDir, RestoreOp(o, d, root, operationId, x))
    {
      RemainingIsExact(o, d, root, operationId, x);
    }
    if RestoredCount(d.manifests[opDir]) > 0 {
      OverstatingRun(o, d, root, operationId);
      RemainingIsExact(o, d, root, operationId, FirstUnreadable(d.manifests[opDir]));
    }
  }

  /** Nothing fails but the check of the first file, and the clock reads the time of creation. */
  function FirstUnreadable(m: OperationManifest): Adversary {
    var now := if IsU64Text(m.created) then ParseCanonicalU64(m.created).value else 0;
    Adversary(false, i => false, i => false, i => Interference([], [], i == 0, false, false, false, false),
              i => false, i => false, i => now)
  }

  /** Such a run responds, having verified nothing. */
  lemma OverstatingRun(o: Oracle, d: Disk, root: Root, operationId: string)
    requires FindSite(d, root, operationId).Some?
    requires OrderlyDisk(d, FindSite(d, root, operationId).value.opDir, operationId, 0)
    ensures var run := RestoreOp(o, d, root, operationId,
                                 FirstUnreadable(d.manifests[FindSite(d, root, operationId).value.opDir]));
            run.end == RestoreStopped && run.verified == 0
  {
    hide Write, ValidManifest, StableBinding, Walk, RestoredCount, Shape;
    var site := FindSite(d, root, operationId).value;
    SiteHasManifest(d, root, operationId);
    var m := d.manifests[site.opDir];
    var x := FirstUnreadable(m);
    ValidHasFiles(m, operationId);
    ClockOfCreation(m, operationId);
    var first := m.(status := Restoring);
    StillValid(d, site.opDir, m, first, x, 0);
    var w := Write(d, site.opDir, first, x, 0).value;
    var stamped := Stamp(first, x.now(0));
    StillValid(w, site.opDir, m, stamped.(status := PartiallyRestored), x, |m.files| + 1);
    WriteKeeps(d, site.opDir, first, x, 0);
    FirstFileFails(o, w, site, stamped, Unhex32(m.contentDigestHex).value, x);
  }

  lemma WriteKeeps(d: Disk, opDir: DirId, m: OperationManifest, x: Adversary, index: nat)
    requires Write(d, opDir, m, x, index).Some?
    ensures Write(d, opDir, m, x, index).value.fs == d.fs
  {
    hide ValidManifest;
  }

  lemma ClockOfCreation(m: OperationManifest, id: string)
    requires ValidManifest(m, id)
    ensures m.operationId == id && IsU64Text(m.created) && ParseCanonicalU64(m.created).value <= U64_MAX
  {
    ParseDigitsBounded(m.created);
  }

  lemma StillValid(d: Disk, opDir: DirId, m: OperationManifest, next: OperationManifest, x: Adversary, index: nat)
    requires ValidManifest(m, m.operationId) && x == FirstUnreadable(m)
    requires next == m.(status := next.status, updated := next.updated) && !next.status.UnknownStatus?
    ensures Write(d, opDir, next, x, index).Some?
  {
    ClockOfCreation(m, m.operationId);
    assert ValidUpTo(m.files, |m.files|);
    UpdateValid(m, next, x.now(index));
  }

  lemma ValidHasFiles(m: OperationManifest, id: string)
    requires ValidManifest(m, id)
    ensures |m.files| > 0
  {
  }

  lemma FirstFileFails(o: Oracle, d: Disk, site: Site, m: OperationManifest, digest: seq<byte>, x: Adversary)
    requires |m.files| > 0 && x.moves(0).prepareFails && StableBinding(d.fs, site.root)
    requires Write(d, site.opDir, m.(status := PartiallyRestored), x, |m.files| + 1).Some?
    requires !x.syncFails(|m.files| + 1)
    ensures var run := RestoreFrom(o, d, site, m, digest, 0, x); run.verified == 0 && run.end == RestoreStopped
  {
    hide Write, StableBinding;
    assert Lift(d, []) == [];
  }

  // An operation of one file, already recorded as restored: the smallest state in which a response can overstate.

  const ZEROS: seq<byte> := seq(32, _ => 0)
  const SAMPLE_ID: string := OPERATION_ID_PREFIX + HexOf(ZEROS)
  const SAMPLE_FILE: ManifestFile :=
    ManifestFile(Decimal(1), Decimal(1), "a.jpg", MemberName(1), Decimal(0), HexOf(ZEROS), Restored)
  const SAMPLE_MANIFEST: OperationManifest :=
    OperationManifest(1, SAMPLE_ID, Decimal(1), Decimal(1), Decimal(0), HexOf(ZEROS), HexOf(ZEROS), "blake3",
                      HexOf(ZEROS),
                      Decimal(0), Decimal(0), AllRestored, [SAMPLE_FILE])
  const SAMPLE_ROOT: Root := Root([], 0)
  const SAMPLE_DISK: Disk :=
    Disk(Fs(map[Slot(0, QUARANTINE_DIRECTORY) := DirNode(1), Slot(1, OPERATIONS_DIRECTORY) := DirNode(2),
                Slot(2, SAMPLE_ID) := DirNode(3), Slot(3, FILES_DIRECTORY) := DirNode(4)],
            map[], 0, 0, 5, 0), map[3 := SAMPLE_MANIFEST])

  lemma SamplePath(p: string)
    requires p == "a.jpg"
    ensures ValidMediaPath(p)
  {
    OneComponent(p);
    ExtensionStarts(p, 2);
    SampleExtension();
    assert SplitRelative(p) == Some([p]) by {
      hide Split, AfterLastDot, LowerAll, MEDIA_EXTENSIONS;
    }
    hide Split, AfterLastDot, LowerAll, MEDIA_EXTENSIONS, SplitRelative;
    assert p[0] != QUARANTINE_DIRECTORY[0];
  }

  lemma SampleExtension()
    ensures LowerAll("a.jpg"[2..]) in MEDIA_EXTENSIONS
  {
    assert "a.jpg"[2..] == "jpg";
    assert LowerAll("jpg") == "jpg";
  }

  lemma SampleFileValid()
    ensures ValidFile(SAMPLE_FILE)
  {
    SamplePath("a.jpg");
    MemberNameValid(1);
    HexText(ZEROS);
    SignedDecimalText(0);
    SignedDecimalText(1);
    hide ValidMediaPath, ValidInternalName, Decimal, MemberName, HexOf, ParseCanonicalU64, Unhex32;
  }

  lemma SampleHeaderValid()
    ensures ValidHeader(SAMPLE_MANIFEST, SAMPLE_ID)
  {
    HexText(ZEROS);
    SignedDecimalText(0);
    SignedDecimalText(1);
    hide Decimal, ParseCanonicalU64, Unhex32, SAMPLE_FILE, ValidFile;
  }

  lemma SampleValid()
    ensures ValidManifest(SAMPLE_MANIFEST, SAMPLE_ID)
  {
    SampleFileValid();
    SampleHeaderValid();
    hide ValidFile, ValidHeader;
  }

  lemma SiteFound(d: Disk, root: Root, operationId: string, opDir: DirId, filesDir: DirId)
    requires Walk(d.fs, d.fs.slash, root.selected) == Some(root.dir)
    requires Walk(d.fs, root.dir, FilesPath(operationId)[..3]) == Some(opDir)
    requires Walk(d.fs, root.dir, FilesPath(operationId)) == Some(filesDir)
    requires opDir in d.manifests && ValidManifest(d.manifests[opDir], operationId)
    ensures FindSite(d, root, operationId) == Some(Site(root, operationId, opDir, filesDir))
  {
    hide Walk, FilesPath, ValidManifest;
  }

  lemma SampleFound()
    ensures FindSite(SAMPLE_DISK, SAMPLE_ROOT, SAMPLE_ID) == Some(Site(SAMPLE_ROOT, SAMPLE_ID, 3, 4))
  {
    hide Walk, FilesPath, ValidManifest, FindSite;
    SampleValid();
    WalkFour(SAMPLE_DISK.fs, 0, SAMPLE_ID, 1, 2, 3, 4);
    WalkNowhere(SAMPLE_DISK.fs, 0);
    SiteFound(SAMPLE_DISK, SAMPLE_ROOT, SAMPLE_ID, 3, 4);
  }

  lemma WalkNowhere(fs: Fs, start: DirId)
    ensures Walk(fs, start, []) == Some(start)
  {
  }

  lemma SampleOrderly()
    ensures OrderlyDisk(SAMPLE_DISK, 3, SAMPLE_ID, 0) && RestoredCount(SAMPLE_MANIFEST) == |SAMPLE_MANIFEST.files| == 1
  {
    SampleValid();
    hide ValidManifest;
    assert Shape(SAMPLE_MANIFEST.files, 1, 0);
    OrderlyFromShape(SAMPLE_MANIFEST, SAMPLE_ID, 1, 0);
  }

  /** An overstated count: if any file is recorded as restored and the first cannot be read, the response calls every
      file remaining, although fewer are. */
  lemma FirstUnreadableOverstates(o: Oracle, d: Disk, root: Root, operationId: string)
    requires FindSite(d, root, operationId).Some?
    requires OrderlyDisk(d, FindSite(d, root, operationId).value.opDir, operationId, 0)
    ensures var opDir := FindSite(d, root, operationId).value.opDir;
            var m := d.manifests[opDir];
            var run := RestoreOp(o, d, root, operationId, FirstUnreadable(m));
            && Responds(run) && RemainingCount(m, run) == |m.files| && opDir in LastDisk(d, run.trace).manifests
            && RestoredCount(LastDisk(d, run.trace).manifests[opDir]) == RestoredCount(m)
  {
    hide RestoreOp, FindSite, RestoredCount, Orderly;
    var m := d.manifests[FindSite(d, root, operationId).value.opDir];
    OverstatingRun(o, d, root, operationId);
    RemainingIsExact(o, d, root, operationId, FirstUnreadable(m));
    RestoreOpOrderly(o, d, root, operationId, FirstUnreadable(m));
  }

  /** The failing input: every file is recorded as back, and a run that cannot read the first calls one remaining. */
  lemma RemainingMayOverstate(o: Oracle)
    ensures FindSite(SAMPLE_DISK, SAMPLE_ROOT, SAMPLE_ID) == Some(Site(SAMPLE_ROOT, SAMPLE_ID, 3, 4))
    ensures 3 in SAMPLE_DISK.manifests
    ensures var m := SAMPLE_DISK.manifests[3];
            var run := RestoreOp(o, SAMPLE_DISK, SAMPLE_ROOT, SAMPLE_ID, FirstUnreadable(m));
            && Responds(run) && RestoredCount(m) == |m.files| == 1 && RemainingCount(m, run) == 1
            && 3 in LastDisk(SAMPLE_DISK, run.trace).manifests
            && RestoredCount(LastDisk(SAMPLE_DISK, run.trace).manifests[3]) == 1
  {
    hide RestoreOp, FindSite, RestoredCount, Orderly, FirstUnreadable, Responds, RemainingCount;
    SampleFound();
    SampleOrderly();
    FirstUnreadableOverstates(o, SAMPLE_DISK, SAMPLE_ROOT, SAMPLE_ID);
  }
}
