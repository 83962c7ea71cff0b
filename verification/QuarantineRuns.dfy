/** Whole runs of `execute_plan` and `restore_operation`: every durable state they pass through. */
module QuarantineRuns {
  import opened Wrappers
  import opened Text
  import opened FileSystem
  import opened Paths
  import opened Manifest
  import opened Quarantine

  /** The volume and, for each operation directory, the manifest it holds. A manifest write is one
      atomic replacement, so a crash leaves either the old manifest or the new one. */
  datatype Disk = Disk(fs: Fs, manifests: map<DirId, OperationManifest>)

  /** Everything outside the program: which calls fail, what other processes do, what the clock says.
      A private directory may be made and then refused or not made durable (`mkdirRejects`), and a manifest may be
      replaced before the call that replaces it fails (`syncFails`). */
  datatype Adversary = Adversary(
    openFails: bool, mkdirFails: nat -> bool, mkdirRejects: nat -> bool, moves: nat -> Interference,
    writeFails: nat -> bool, syncFails: nat -> bool, now: nat -> nat)

  ghost predicate CalmRun(x: Adversary) { forall i :: Calm(x.moves(i)) }

  datatype Plan = Plan(root: Root, operationId: string, evidence: GroupEvidence, digest: seq<byte>)

  datatype Site = Site(root: Root, operationId: string, opDir: DirId, filesDir: DirId)

  function Lift(d: Disk, trace: seq<Fs>): (disks: seq<Disk>)
    ensures |disks| == |trace| && forall i :: 0 <= i < |trace| ==> disks[i] == Disk(trace[i], d.manifests)
  {
    seq(|trace|, i requires 0 <= i < |trace| => Disk(trace[i], d.manifests))
  }

  /** `write_manifest`: stamp, validate, replace; `None` when nothing was replaced. The caller still gets an error
      when the directory sync after the replacement fails. */
  function Write(d: Disk, opDir: DirId, m: OperationManifest, x: Adversary, index: nat): Option<Disk> {
    var stamped := Stamp(m, x.now(index));
    if x.writeFails(index) || !ValidManifest(stamped, stamped.operationId) then None
    else Some(d.(manifests := d.manifests[opDir := stamped]))
  }

  /** The durable states of a manifest write: one when something was replaced, none otherwise. */
  function Written(d: Disk, opDir: DirId, m: OperationManifest, x: Adversary, index: nat): seq<Disk> {
    match Write(d, opDir, m, x, index)
    case None => []
    case Some(written) => [written]
  }

  // ------------------------------------------------------------ executing

  function KeeperOf(e: GroupEvidence): MemberEvidence
    requires Loaded(e)
  {
    e.members[e.keeperOrdinal]
  }

  predicate MemberReady(o: Oracle, fs: Fs, root: Root, m: MemberEvidence) {
    && ValidMediaPath(m.path)
    && MemberFile(o, fs, root, m).Some?
    && Resolve(fs, root.dir, m.path).Some? && NoCompanion(fs, Resolve(fs, root.dir, m.path).value)
  }

  function MemberContent(o: Oracle, fs: Fs, root: Root, m: MemberEvidence): Option<seq<byte>> {
    var f := MemberFile(o, fs, root, m);
    if f.Some? && f.value in fs.files then Some(fs.files[f.value].content) else None
  }

  /** `validate_group_before_mutation`: the digest all members share, or nothing. */
  function ValidateGroup(o: Oracle, fs: Fs, root: Root, e: GroupEvidence): Option<seq<byte>>
    requires Loaded(e)
  {
    var keeper := KeeperOf(e);
    var content := MemberContent(o, fs, root, keeper);
    if && StableBinding(fs, root)
       && (forall i :: 0 <= i < |e.members| ==> MemberReady(o, fs, root, e.members[i]))
       && keeper.size * (e.memberCount - 1) == e.logicalBytes
       && content.Some? && |content.value| == keeper.size
       && (forall i :: 0 <= i < |e.members| ==> MemberContent(o, fs, root, e.members[i]) == content)
    then Some(o.digest(content.value)) else None
  }

  datatype MkdirRun = MkdirRun(trace: seq<Fs>, dir: Option<DirId>)

  /** `create_private_directory_exclusive`. */
  function NewDir(fs: Fs, at: Slot, fails: bool, rejects: bool): MkdirRun {
    if at in fs.entries || at.dir >= fs.nextDir || fails then MkdirRun([], None)
    else MkdirRun([Mkdir(fs, at)], if rejects then None else Some(fs.nextDir))
  }

  /** `ensure_private_directory_at`. */
  function EnsureDir(fs: Fs, at: Slot, fails: bool, rejects: bool): MkdirRun {
    if at in fs.entries then MkdirRun([], if rejects then None else DirAt(fs, at)) else NewDir(fs, at, fails, rejects)
  }

  /** Create `name` below the directory the previous step produced. */
  function Below(fs: Fs, previous: MkdirRun, name: Name, exclusive: bool, fails: bool, rejects: bool): MkdirRun {
    match previous.dir
    case None => previous
    case Some(parent) =>
      var here := Last(fs, previous.trace);
      var at := Slot(parent, name);
      var next := if exclusive then NewDir(here, at, fails, rejects) else EnsureDir(here, at, fails, rejects);
      MkdirRun(previous.trace + next.trace, next.dir)
  }

  /** The private directories, down to the new operation directory. */
  function OperationDirRun(fs: Fs, root: Root, operationId: string, x: Adversary): MkdirRun {
    var quarantine := EnsureDir(fs, Slot(root.dir, QUARANTINE_DIRECTORY), x.mkdirFails(0), x.mkdirRejects(0));
    var operations := Below(fs, quarantine, OPERATIONS_DIRECTORY, false, x.mkdirFails(1), x.mkdirRejects(1));
    Below(fs, operations, operationId, true, x.mkdirFails(2), x.mkdirRejects(2))
  }

  function FilesDirRun(fs: Fs, root: Root, operationId: string, x: Adversary): MkdirRun {
    Below(fs, OperationDirRun(fs, root, operationId, x), FILES_DIRECTORY, true, x.mkdirFails(3), x.mkdirRejects(3))
  }

  datatype ExecEnd = Refused | Completed | MoveStopped | WriteStopped

  datatype ExecRun = ExecRun(trace: seq<Disk>, moved: nat, end: ExecEnd)

  function MoveTaskFor(plan: Plan, site: Site, m: OperationManifest, i: nat): MoveTask
    requires Loaded(plan.evidence) && i < |m.files| == |Movers(plan.evidence.members, plan.evidence.keeperOrdinal)|
  {
    var e := plan.evidence;
    MoveTask(plan.root, KeeperOf(e), Movers(e.members, e.keeperOrdinal)[i], site.filesDir, plan.operationId,
             m.files[i].quarantineName, plan.digest)
  }

  /** The manifest after the i-th move, or after its failure. */
  function AfterMove(m: OperationManifest, i: nat, outcome: MoveOutcome): OperationManifest
    requires i < |m.files|
  {
    match outcome
    case Moved => SetState(m, i, Quarantined)
    case NotMoved => m.(status := NeedsRecovery)
    case MoveFailed(_, committed) =>
      (if committed then SetState(m, i, Quarantined) else m).(status := NeedsRecovery)
  }

  function LastDisk(d: Disk, trace: seq<Disk>): Disk { if trace == [] then d else trace[|trace| - 1] }

  /** The move loop of `execute_plan` from the i-th mover on, and its closing write. */
  function ExecFrom(o: Oracle, d: Disk, plan: Plan, site: Site, m: OperationManifest, i: nat, x: Adversary): ExecRun
    requires Loaded(plan.evidence)
    requires i <= |m.files| == |Movers(plan.evidence.members, plan.evidence.keeperOrdinal)|
    decreases |m.files| - i
  {
    if i == |m.files| then
      match Write(d, site.opDir, m.(status := AllQuarantined), x, i + 2)
      case None => ExecRun([], i, WriteStopped)
      case Some(written) =>
        ExecRun([written], i, if x.syncFails(i + 2) || !StableBinding(d.fs, site.root) then WriteStopped else Completed)
    else
      var move := MoveOne(o, d.fs, MoveTaskFor(plan, site, m, i), x.moves(i));
      var moved := Lift(d, move.trace);
      var after := AfterMove(m, i, move.outcome);
      match Write(LastDisk(d, moved), site.opDir, after, x, i + 2)
      case None => ExecRun(moved, i, if move.outcome.Moved? then WriteStopped else MoveStopped)
      case Some(written) =>
        if !move.outcome.Moved? then ExecRun(moved + [written], i, MoveStopped)
        else if x.syncFails(i + 2) then ExecRun(moved + [written], i, WriteStopped)
        else
          var rest := ExecFrom(o, written, plan, site, Stamp(after, x.now(i + 2)), i + 1, x);
          ExecRun(moved + [written] + rest.trace, rest.moved, rest.end)
  }

  /** `execute_plan`. */
  function ExecPlan(o: Oracle, d: Disk, plan: Plan, current: GroupEvidence, x: Adversary): ExecRun
    requires Loaded(plan.evidence)
  {
    if x.openFails || current != plan.evidence || ValidateGroup(o, d.fs, plan.root, current) != Some(plan.digest)
    then ExecRun([], 0, Refused)
    else
      var operation := OperationDirRun(d.fs, plan.root, plan.operationId, x);
      var files := FilesDirRun(d.fs, plan.root, plan.operationId, x);
      var made := Lift(d, files.trace);
      var here := LastDisk(d, made);
      if files.dir.None? || operation.dir.None? || !StableBinding(here.fs, plan.root) then ExecRun(made, 0, Refused)
      else
        var site := Site(plan.root, plan.operationId, operation.dir.value, files.dir.value);
        var m := FromPlan(plan.operationId, plan.digest, current, x.now(0));
        match Write(here, site.opDir, m, x, 1)
        case None => ExecRun(made, 0, WriteStopped)
        case Some(written) =>
          MoversNonNegative(current);
          if x.syncFails(1) then ExecRun(made + [written], 0, WriteStopped)
          else
            var rest := ExecFrom(o, written, plan, site, Stamp(m, x.now(1)), 0, x);
            ExecRun(made + [written] + rest.trace, rest.moved, rest.end)
  }

  // ------------------------------------------------------------ restoring

  datatype RestoreEnd = RestoreRefused | RestoreDone | RestoreStopped | RestoreWriteStopped

  /** `verified` counts the files this run found or put back at home, from the first one on. */
  datatype RestoreAll = RestoreAll(trace: seq<Disk>, verified: nat, end: RestoreEnd)

  function RestoreTaskFor(site: Site, m: OperationManifest, i: nat, digest: seq<byte>): RestoreTask
    requires i < |m.files|
  {
    RestoreTask(site.root, site.filesDir, site.operationId, m.files[i], digest)
  }

  /** The closing write of `restore_operation`, after all files or after the first that failed. */
  function CloseRestore(d: Disk, site: Site, m: OperationManifest, i: nat, x: Adversary): RestoreAll {
    var done := i == |m.files|;
    var status := if done then AllRestored else PartiallyRestored;
    match Write(d, site.opDir, m.(status := status), x, |m.files| + 1)
    case None => RestoreAll([], i, RestoreWriteStopped)
    case Some(written) =>
      RestoreAll([written], i, if x.syncFails(|m.files| + 1) || !StableBinding(d.fs, site.root) then RestoreWriteStopped
                               else if done then RestoreDone else RestoreStopped)
  }

  /** The restore loop from the i-th file on, and the closing write. */
  function RestoreFrom(o: Oracle, d: Disk, site: Site, m: OperationManifest, digest: seq<byte>, i: nat,
                       x: Adversary): RestoreAll
    requires i <= |m.files|
    decreases |m.files| - i
  {
    if i == |m.files| then CloseRestore(d, site, m, i, x)
    else
      var one := RestoreOne(o, d.fs, RestoreTaskFor(site, m, i, digest), x.moves(i));
      var lifted := Lift(d, one.trace);
      var here := LastDisk(d, lifted);
      if !one.restored then
        var close := CloseRestore(here, site, m, i, x);
        RestoreAll(lifted + close.trace, i, close.end)
      else
        var after := SetState(m, i, Restored);
        match Write(here, site.opDir, after, x, i + 1)
        case None => RestoreAll(lifted, i + 1, RestoreWriteStopped)
        case Some(written) =>
          if x.syncFails(i + 1) then RestoreAll(lifted + [written], i + 1, RestoreWriteStopped)
          else
            var rest := RestoreFrom(o, written, site, Stamp(after, x.now(i + 1)), digest, i + 1, x);
            RestoreAll(lifted + [written] + rest.trace, rest.verified, rest.end)
  }

  /** Reopening an operation below the authorised root, with the manifest its directory holds. */
  function FindSite(d: Disk, root: Root, operationId: string): Option<Site> {
    var opDir := Walk(d.fs, root.dir, FilesPath(operationId)[..3]);
    var filesDir := Walk(d.fs, root.dir, FilesPath(operationId));
    if StableBinding(d.fs, root) && opDir.Some? && filesDir.Some? && opDir.value in d.manifests
       && ValidManifest(d.manifests[opDir.value], operationId)
    then Some(Site(root, operationId, opDir.value, filesDir.value)) else None
  }

  /** `restore_operation`. */
  function RestoreOp(o: Oracle, d: Disk, root: Root, operationId: string, x: Adversary): RestoreAll {
    match FindSite(d, root, operationId)
    case None => RestoreAll([], 0, RestoreRefused)
    case Some(site) =>
      if x.openFails then RestoreAll([], 0, RestoreRefused) else
      var m := d.manifests[site.opDir].(status := Restoring);
      var digest := Unhex32(m.contentDigestHex).value;
      match Write(d, site.opDir, m, x, 0)
      case None => RestoreAll([], 0, RestoreWriteStopped)
      case Some(written) =>
        if x.syncFails(0) then RestoreAll([written], 0, RestoreWriteStopped)
        else
          var rest := RestoreFrom(o, written, site, Stamp(m, x.now(0)), digest, 0, x);
          RestoreAll([written] + rest.trace, rest.verified, rest.end)
  }

  /** The run ends with a response rather than an error. */
  predicate Responds(run: RestoreAll) { run.end == RestoreDone || run.end == RestoreStopped }

  /** The count the response reports as still to do. */
  function RemainingCount(m: OperationManifest, run: RestoreAll): int { |m.files| - run.verified }
}
