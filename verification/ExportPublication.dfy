/** Publishing a finished export: a private temporary file, the cancel/commit gate, and a link that never
    replaces anything, while other threads cancel and other processes change the directory. */
module ExportPublication {
  import opened Wrappers
  import opened FileSystem
  import Csv
  import ExportDigest
  import Encoding = ExportEncoder

  // ---------------------------------------------------------- the gate

  datatype Gate = Gate(cancelled: bool, committed: bool)

  const OPEN_GATE: Gate := Gate(false, false)

  /** What threads ask of the gate, one at a time under its lock. `works` says whether the operation a
      commit runs under the lock would succeed. */
  datatype Request = AskCancel | TryCommit(works: bool)

  /** The answer: "this call cancelled the export" or "this call committed it". */
  function Answer(g: Gate, q: Request): bool {
    match q
    case AskCancel => !g.committed && !g.cancelled
    case TryCommit(works) => !g.committed && !g.cancelled && works
  }

  function NextGate(g: Gate, q: Request): Gate {
    match q
    case AskCancel => if g.committed then g else g.(cancelled := true)
    case TryCommit(works) => if g.committed || g.cancelled || !works then g else g.(committed := true)
  }

  function GateAfter(g: Gate, requests: seq<Request>): Gate {
    if requests == [] then g else NextGate(GateAfter(g, requests[..|requests| - 1]), requests[|requests| - 1])
  }

  function AnswerAt(requests: seq<Request>, i: nat): bool
    requires i < |requests|
  {
    Answer(GateAfter(OPEN_GATE, requests[..i]), requests[i])
  }

  lemma {:induction false} GateRemembers(requests: seq<Request>, i: nat)
    requires i < |requests| && AnswerAt(requests, i)
    ensures var g := GateAfter(OPEN_GATE, requests);
            g == if requests[i].AskCancel? then Gate(true, false) else Gate(false, true)
    decreases |requests|
  {
    var n := |requests| - 1;
    GateNeverBoth(requests[..n]);
    if i < n {
      assert requests[..n][..i] == requests[..i];
      GateRemembers(requests[..n], i);
    }
  }

  lemma {:induction false} GateNeverBoth(requests: seq<Request>)
    ensures var g := GateAfter(OPEN_GATE, requests); !(g.cancelled && g.committed)
  {
    if requests != [] {
      GateNeverBoth(requests[..|requests| - 1]);
    }
  }

  /** Over every interleaving of cancels and commits at most one call gets a positive answer: at most one
      commit, at most one successful cancel, and never both. */
  lemma GateAnswersOnce(requests: seq<Request>, i: nat, j: nat)
    requires i < j < |requests| && AnswerAt(requests, i)
    ensures !AnswerAt(requests, j)
  {
    assert requests[..j][..i] == requests[..i];
    GateRemembers(requests[..j], i);
  }

  /** `ExportCancellation`. */
  class ExportCancellation {
    var cancelled: bool
    var committed: bool
    /** Everything ever asked of this gate, in the order its lock was taken. */
    ghost var requests: seq<Request>

    ghost predicate Valid()
      reads this
    {
      Gate(cancelled, committed) == GateAfter(OPEN_GATE, requests)
    }

    constructor ()
      ensures Valid() && requests == []
    {
      cancelled, committed := false, false;
      requests := [];
    }

    method Cancel() returns (first: bool)
      requires Valid()
      modifies this
      ensures Valid() && requests == old(requests) + [AskCancel]
      ensures first == AnswerAt(requests, |requests| - 1)
    {
      requests := requests + [AskCancel];
      assert requests[..|requests| - 1] == old(requests);
      if committed {
        return false;
      }
      first := !cancelled;
      cancelled := true;
    }
  }

  // ------------------------------------------------------ the directory

  datatype OwnStep =
    | Created(name: Name, file: FileId)
    | Linked(before: map<Name, Node>, source: Name, target: Name)
    | Unlinked(name: Name)

  predicate Binds(names: map<Name, Node>, name: Name, file: FileId) { name in names && names[name] == FileNode(file) }

  /** The directory bound when the target was selected. Before each call other processes may turn its
      contents into anything; each call may fail; `private` says whether a file still looks private. */
  class TargetDirectory {
    const others: (nat, map<Name, Node>) -> map<Name, Node>
    const faults: nat -> bool
    const private: nat -> bool
    var calls: nat
    var names: map<Name, Node>
    var nextFile: FileId
    /** What this program did to the directory, in order. */
    ghost var steps: seq<OwnStep>

    constructor (others: (nat, map<Name, Node>) -> map<Name, Node>, faults: nat -> bool, private: nat -> bool,
                 names: map<Name, Node>, nextFile: FileId)
      ensures this.others == others && this.faults == faults && this.private == private
      ensures calls == 0 && this.names == names && this.nextFile == nextFile && steps == []
    {
      this.others, this.faults, this.private, this.names, this.nextFile := others, faults, private, names, nextFile;
      calls, steps := 0, [];
    }

    /** Nobody else touches the directory. */
    ghost predicate Quiet() { forall n: nat, m: map<Name, Node> :: others(n, m) == m }

    /** Nor does any call fail, and files stay private. */
    ghost predicate Smooth() { Quiet() && forall n: nat :: !faults(n) && private(n) }

    method Call() returns (ok: bool)
      modifies this`calls, this`names
      ensures ok == !faults(old(calls)) && calls == old(calls) + 1
      ensures Quiet() ==> names == old(names)
    {
      ok := !faults(calls);
      names := others(calls, names);
      calls := calls + 1;
    }

    /** `entry_matches_identity`: false also when the entry cannot be examined. */
    method Matches(name: Name, file: FileId) returns (r: bool, ghost fault: bool)
      modifies this`calls, this`names
      ensures calls > old(calls)
      ensures fault == faults(old(calls)) && r == (!fault && Binds(names, name, file))
      ensures Quiet() ==> names == old(names)
    {
      var ok := Call();
      fault := !ok;
      r := ok && name in names && names[name] == FileNode(file);
    }

    /** `ensure_absent`. */
    method EnsureAbsent(name: Name) returns (r: Result<(), ExportError>)
      modifies this`calls, this`names
      ensures r.Err? ==> r.error in {UnsafeTarget, TargetExists}
      ensures calls == old(calls) + 1
      ensures Quiet() ==>
                && names == old(names)
                && r == if faults(old(calls)) then Err(UnsafeTarget) else if name in names then Err(TargetExists)
                        else Ok(())
    {
      var ok := Call();
      return if !ok then Err(UnsafeTarget) else if name in names then Err(TargetExists) else Ok(());
    }

    method Create(name: Name) returns (r: Result<FileId, CreateError>)
      modifies this`calls, this`names, this`nextFile, this`steps
      ensures r.Ok? ==> Binds(names, name, r.value) && steps == old(steps) + [Created(name, r.value)]
      ensures r.Err? ==> steps == old(steps)
      ensures calls == old(calls) + 1 && nextFile == old(nextFile) + if r.Ok? then 1 else 0
      ensures Quiet() ==>
                r == if name in old(names) then Err(Exists) else if faults(old(calls)) then Err(CreateFailed)
                     else Ok(old(nextFile))
      ensures Quiet() ==> names == if r.Ok? then old(names)[name := FileNode(r.value)] else old(names)
    {
      var ok := Call();
      if name in names {
        return Err(Exists);
      }
      if !ok {
        return Err(CreateFailed);
      }
      names := names[name := FileNode(nextFile)];
      steps := steps + [Created(name, nextFile)];
      r := Ok(nextFile);
      nextFile := nextFile + 1;
    }

    /** `link_no_replace`. */
    method Link(source: Name, target: Name) returns (r: Result<(), ExportError>)
      modifies this`calls, this`names, this`steps
      ensures calls == old(calls) + 1
      ensures r.Ok? ==> |steps| == |old(steps)| + 1 && steps[..|old(steps)|] == old(steps)
      ensures r.Ok? ==> var step := steps[|old(steps)|];
                        && step.Linked? && step.source == source && step.target == target
                        && source in step.before && target !in step.before
                        && names == step.before[target := step.before[source]]
      ensures r.Err? ==> steps == old(steps) && r.error in {PublishFailed, TargetExists}
      ensures Quiet() ==>
                r == if faults(old(calls)) || source !in old(names) then Err(PublishFailed)
                     else if target in old(names) then Err(TargetExists) else Ok(())
      ensures Quiet() ==> names == if r.Ok? then old(names)[target := old(names)[source]] else old(names)
    {
      var ok := Call();
      if !ok || source !in names {
        return Err(PublishFailed);
      }
      if target in names {
        return Err(TargetExists);
      }
      steps := steps + [Linked(names, source, target)];
      names := names[target := names[source]];
      return Ok(());
    }

    method Unlink(name: Name) returns (ok: bool, ghost fault: bool)
      modifies this`calls, this`names, this`steps
      ensures fault ==> faults(old(calls)) && !ok
      ensures !fault ==> name !in names
      ensures Quiet() ==> ok == (!faults(old(calls)) && name in old(names))
      ensures Quiet() ==> names == if ok then old(names) - {name} else old(names)
      ensures steps == old(steps) + if ok then [Unlinked(name)] else []
    {
      ok := Call();
      fault := !ok;
      if ok && name in names {
        names := names - {name};
        steps := steps + [Unlinked(name)];
      } else {
        ok := false;
      }
    }

    /** `verify_temp_identity`: the handle and the name still agree on one private regular file. */
    method VerifyTemp(name: Name, file: FileId) returns (ok: bool)
      modifies this`calls, this`names
      ensures Quiet() ==> names == old(names)
      ensures Smooth() ==> ok == Binds(names, name, file)
      ensures ok ==> Binds(names, name, file) && private(calls) && calls > old(calls)
    {
      var statOk := Call();
      var bound, fault := Matches(name, file);
      return statOk && bound && private(calls);
    }
  }

  datatype CreateError = Exists | CreateFailed

  datatype ExportError =
    | TargetExists | UnsafeTarget | RandomUnavailable | OpenFailed | WriteFailed | OutputLimitExceeded
    | Cancelled | DeadlineExceeded | StoreFailed | EncodeFailed | PublishFailed

  datatype Publication = Committed | CommittedWithWarning(code: string) | CommitUncertain(code: string)

  const TEMP_NAME_ATTEMPTS: nat := 8

  /** `publication_outcome`. */
  function PublicationOutcome(linkVerified: bool, targetVerified: bool, cleanupFailed: bool,
                              syncFailed: bool): (p: Publication)
    ensures p.Committed? <==> linkVerified && targetVerified && !cleanupFailed && !syncFailed
    ensures p.CommitUncertain? <==> !linkVerified || !targetVerified
    ensures p == CommitUncertain("TARGET_REVALIDATION_UNCERTAIN") <==> !targetVerified
    ensures p == CommittedWithWarning("TEMP_CLEANUP_DEFERRED")
            <==> linkVerified && targetVerified && cleanupFailed && !syncFailed
    ensures p == CommittedWithWarning("DIRECTORY_SYNC_UNAVAILABLE")
            <==> linkVerified && targetVerified && !cleanupFailed && syncFailed
  {
    if !targetVerified then CommitUncertain("TARGET_REVALIDATION_UNCERTAIN")
    else if !linkVerified then CommitUncertain("TARGET_IDENTITY_UNCERTAIN")
    else
      match (cleanupFailed, syncFailed)
      case (false, false) => Committed
      case (true, false) => CommittedWithWarning("TEMP_CLEANUP_DEFERRED")
      case (false, true) => CommittedWithWarning("DIRECTORY_SYNC_UNAVAILABLE")
      case (true, true) => CommittedWithWarning("TEMP_CLEANUP_AND_DIRECTORY_SYNC_UNAVAILABLE")
  }

  /** A temporary file whose name and identity have been verified together. */
  datatype OwnedTemp = OwnedTemp(name: Name, file: FileId)

  /** None of these steps made a link. */
  ghost predicate NoLink(steps: seq<OwnStep>) { forall i :: 0 <= i < |steps| ==> !steps[i].Linked? }

  ghost predicate NoUnlink(steps: seq<OwnStep>) { forall i :: 0 <= i < |steps| ==> !steps[i].Unlinked? }

  /** Exactly one link, of the temporary name to the target name, and the target name was vacant. */
  ghost predicate OneLink(steps: seq<OwnStep>, temp: Name, target: Name) {
    exists i :: 0 <= i < |steps| && NoLink(steps[..i]) && NoLink(steps[i + 1..]) && LinksVacant(steps[i], temp, target)
  }

  ghost predicate LinksVacant(step: OwnStep, temp: Name, target: Name) {
    step.Linked? && step.source == temp && step.target == target && temp in step.before && target !in step.before
  }

  /** What is to be exported: the format and the names the encoder puts in the file, and the limits of the scope. */
  datatype Task = Task(
    format: Encoding.Format, rendering: Encoding.Rendering, scope: ExportDigest.Scope,
    projection: ExportDigest.Projection,
    maxRecords: nat, outputLimit: nat)

  /** The store's snapshot: the number of records it announces, the batches it hands out, and where it fails. */
  datatype Snapshot = Snapshot(
    opens: bool, expected: nat, batches: seq<seq<Csv.Bytes>>, batchFails: nat -> bool, closes: bool)

  function AllRecords(batches: seq<seq<Csv.Bytes>>): seq<Csv.Bytes> {
    if batches == [] then [] else AllRecords(batches[..|batches| - 1]) + batches[|batches| - 1]
  }

  /** What a complete export of these records is. */
  function WholeExport(task: Task, records: seq<Csv.Bytes>): Csv.Bytes {
    Encoding.ExportText(task.format, task.rendering, task.scope, task.projection, records)
  }

  /** Why writing some records, as far as they are announced, must fail on a working file. */
  function WritingFails(task: Task, records: seq<Csv.Bytes>, expected: nat): Option<ExportError> {
    var n := if |records| < expected then |records| else expected;
    var text := Encoding.BodyText(task.format, task.rendering, task.scope, task.projection, records[..n]);
    if |text| > task.outputLimit then Some(OutputLimitExceeded)
    else if |records| > expected then Some(WriteFailed)
    else None
  }

  /** Why exporting this snapshot must fail on a working file: too many records are announced, or not as many are
      delivered, or the export grows too long. */
  function ExportFails(task: Task, snapshot: Snapshot): Option<ExportError> {
    var records := AllRecords(snapshot.batches);
    if snapshot.expected > task.maxRecords then Some(StoreFailed)
    else if WritingFails(task, records, snapshot.expected).Some? then WritingFails(task, records, snapshot.expected)
    else if |records| < snapshot.expected then Some(WriteFailed)
    else if |WholeExport(task, records)| > task.outputLimit then Some(OutputLimitExceeded)
    else None
  }

  /** An export fails for its snapshot exactly if the snapshot is not what it announces or a limit is exceeded. */
  lemma ExportFailsExactly(task: Task, snapshot: Snapshot)
    ensures var records := AllRecords(snapshot.batches);
            ExportFails(task, snapshot).None? <==>
              |records| == snapshot.expected <= task.maxRecords && |WholeExport(task, records)| <= task.outputLimit
  {
    var records := AllRecords(snapshot.batches);
    Encoding.BodyGrows(task.format, task.rendering, task.scope, task.projection, records, |records|);
    hide Encoding.BodyText, Encoding.ExportText, AllRecords;
    assert records[..|records|] == records;
  }

  lemma NextFails(task: Task, records: seq<Csv.Bytes>, next: Csv.Bytes, expected: nat)
    requires |records| <= expected && WritingFails(task, records, expected).None?
    ensures WritingFails(task, records + [next], expected)
            == if |records| == expected then Some(WriteFailed)
               else if |Encoding.BodyText(task.format, task.rendering, task.scope, task.projection, records + [next])|
                       > task.outputLimit then Some(OutputLimitExceeded)
               else None
  {
    hide Encoding.BodyText;
    var all := records + [next];
    assert all[..|records|] == records[..|records|] && all[..|all|] == all;
  }

  /** A batch that cannot be written cannot be written as part of more. */
  lemma WritingKeepsFailing(task: Task, first: seq<Csv.Bytes>, records: seq<Csv.Bytes>, expected: nat)
    requires first <= records && WritingFails(task, first, expected).Some?
    ensures WritingFails(task, records, expected) == WritingFails(task, first, expected)
  {
    hide Encoding.BodyText;
    var n := if |records| < expected then |records| else expected;
    var m := if |first| < expected then |first| else expected;
    assert records[..n][..m] == first[..m];
    Encoding.BodyGrows(task.format, task.rendering, task.scope, task.projection, records[..n], m);
    hide Encoding.ExportText;
    assert |first| > expected ==> records[..n] == first[..m];
  }

  lemma NothingWritten(task: Task, expected: nat)
    ensures WritingFails(task, [], expected)
            == if |Encoding.BodyText(task.format, task.rendering, task.scope, task.projection, [])| > task.outputLimit
               then Some(OutputLimitExceeded) else None
  {
    hide Encoding.BodyText;
    var none: seq<Csv.Bytes> := [];
    assert none[..0] == none;
  }

  lemma NextBatch(batches: seq<seq<Csv.Bytes>>)
    ensures AllRecords(batches[..0]) == []
    ensures forall i :: 0 <= i < |batches| ==> AllRecords(batches[..i + 1]) == AllRecords(batches[..i]) + batches[i]
  {
    forall i | 0 <= i < |batches|
      ensures AllRecords(batches[..i + 1]) == AllRecords(batches[..i]) + batches[i]
    {
      assert batches[..i + 1][..i] == batches[..i];
    }
  }

  lemma {:induction false} FirstBatches(batches: seq<seq<Csv.Bytes>>, i: nat)
    requires i <= |batches|
    ensures AllRecords(batches[..i]) <= AllRecords(batches)
  {
    if i < |batches| {
      FirstBatches(batches[..|batches| - 1], i);
      assert batches[..|batches| - 1][..i] == batches[..i];
    } else {
      assert batches[..i] == batches;
    }
  }

  datatype Artifact = Artifact(result: Encoding.EncoderResult, publication: Publication)

  /** `callback_failure_from_target` and `map_callback_failure` on what the encoder can report. */
  function EncoderFailure(e: Encoding.ExportError): ExportError {
    if e.OutputLimitExceeded? then OutputLimitExceeded else WriteFailed
  }

  /** Everything outside the export that decides how it goes. */
  datatype Circumstances = Circumstances(
    entropy: nat -> Name, deadlinePassed: nat -> bool, cancelsBefore: nat -> nat, snapshot: Snapshot, flushes: bool)

  /** The first of the eight candidate names that is not taken. */
  function FirstFree(names: map<Name, Node>, entropy: nat -> Name, attempt: nat): (name: Option<Name>)
    requires attempt <= TEMP_NAME_ATTEMPTS
    ensures name.Some? ==> name.value !in names
    ensures name.None? <==> forall i :: attempt <= i < TEMP_NAME_ATTEMPTS ==> entropy(i) in names
    decreases TEMP_NAME_ATTEMPTS - attempt
  {
    if attempt == TEMP_NAME_ATTEMPTS then None
    else if entropy(attempt) !in names then Some(entropy(attempt))
    else FirstFree(names, entropy, attempt + 1)
  }

  class Export {
    const dir: TargetDirectory
    const gate: ExportCancellation
    const target: Name
    const task: Task
    /** The bytes of the temporary file. */
    const sink: Encoding.Sink
    const circumstances: Circumstances
    var moments: nat

    constructor (dir: TargetDirectory, gate: ExportCancellation, target: Name, task: Task, sink: Encoding.Sink,
                 circumstances: Circumstances)
      ensures this.dir == dir && this.gate == gate && this.target == target && this.task == task && this.sink == sink
      ensures this.circumstances == circumstances && moments == 0
    {
      this.dir, this.gate, this.target, this.task, this.sink := dir, gate, target, task, sink;
      this.circumstances := circumstances;
      moments := 0;
    }

    /** Other threads ask to cancel any number of times. */
    method Interleave()
      requires gate.Valid()
      modifies this`moments, gate
      ensures gate.Valid() && (gate.committed <==> old(gate.committed)) && |old(gate.requests)| <= |gate.requests|
      ensures old(gate.cancelled) ==> gate.cancelled
      ensures circumstances.cancelsBefore(old(moments)) == 0 ==> gate.cancelled == old(gate.cancelled)
      ensures moments == old(moments) + 1
    {
      for i := 0 to circumstances.cancelsBefore(moments)
        invariant gate.Valid() && (gate.committed <==> old(gate.committed)) && |old(gate.requests)| <= |gate.requests|
        invariant old(gate.cancelled) ==> gate.cancelled
        invariant i == 0 ==> gate.cancelled == old(gate.cancelled)
        invariant moments == old(moments)
      {
        var first := gate.Cancel();
        assert gate.requests[..|gate.requests| - 1] <= gate.requests;
      }
      moments := moments + 1;
    }

    /** Nobody has cancelled, nobody is about to, and the deadline is ahead. */
    ghost predicate StartsFreely()
      reads this, gate
    {
      circumstances.cancelsBefore(moments) == 0 && !gate.cancelled && !circumstances.deadlinePassed(moments + 1)
    }

    /** Nothing outside gets in the way: the volume and the file work, nobody else touches the directory or cancels, the
        deadline stays ahead, and the store delivers its snapshot. */
    ghost predicate Undisturbed() {
      && dir.Smooth() && sink.Faultless()
      && (forall n: nat :: circumstances.cancelsBefore(n) == 0 && !circumstances.deadlinePassed(n))
      && circumstances.flushes && circumstances.snapshot.opens && circumstances.snapshot.closes
      && forall n: nat :: !circumstances.snapshot.batchFails(n)
    }

    /** At every look after the first number and up to the last the deadline was ahead. */
    ghost predicate InTime(first: nat, last: nat) {
      forall n :: first < n <= last ==> !circumstances.deadlinePassed(n)
    }

    /** `ExportControl::check`. */
    method Check() returns (r: Result<(), ExportError>)
      requires gate.Valid()
      modifies this`moments, gate
      ensures moments == old(moments) + 1 && (r.Ok? ==> InTime(old(moments), moments))
      ensures gate.Valid() && (gate.committed <==> old(gate.committed))
      ensures old(gate.cancelled) ==> gate.cancelled
      ensures r.Err? ==> r.error in {Cancelled, DeadlineExceeded}
      ensures r == if gate.cancelled then Err(Cancelled)
                   else if circumstances.deadlinePassed(moments) then Err(DeadlineExceeded) else Ok(())
      ensures old(StartsFreely()) ==> r.Ok?
      ensures Undisturbed() && !old(gate.cancelled) ==> r.Ok? && !gate.cancelled
    {
      Interleave();
      if gate.cancelled {
        return Err(Cancelled);
      }
      return if circumstances.deadlinePassed(moments) then Err(DeadlineExceeded) else Ok(());
    }

    /** The first candidate name can be created, and then the new file cannot be secured. */
    ghost predicate SecuringFails()
      reads dir
    {
      && dir.Quiet() && target !in dir.names && circumstances.entropy(0) !in dir.names
      && !dir.faults(dir.calls) && !dir.faults(dir.calls + 1) && !dir.faults(dir.calls + 2) && dir.faults(dir.calls + 3)
    }

    /** `create_temp`. A file that was created but could not be secured or verified (`unowned`) is not owned, and
        nobody removes it. */
    method CreateTemp() returns (r: Result<OwnedTemp, ExportError>, ghost unowned: Option<OwnedTemp>)
      modifies dir
      ensures r.Ok? ==> unowned.None? && dir.steps == old(dir.steps) + [Created(r.value.name, r.value.file)]
      ensures r.Err? ==>
                dir.steps == old(dir.steps) + match unowned case None => [] case Some(t) => [Created(t.name, t.file)]
      ensures r.Err? ==> r.error in {TargetExists, UnsafeTarget, RandomUnavailable, OpenFailed}
      ensures dir.Quiet() && r.Ok? ==> Binds(dir.names, r.value.name, r.value.file)
      ensures dir.Quiet() && unowned.Some? ==> Binds(dir.names, unowned.value.name, unowned.value.file)
      ensures old(SecuringFails()) ==> r == Err(UnsafeTarget) && unowned.Some?
      ensures dir.Smooth() ==>
                var free := FirstFree(old(dir.names), circumstances.entropy, 0);
                && r == (if target in old(dir.names) then Err(TargetExists)
                         else if free.None? then Err(RandomUnavailable)
                         else Ok(OwnedTemp(free.value, old(dir.nextFile))))
                && dir.names == if r.Ok? then old(dir.names)[free.value := FileNode(r.value.file)] else old(dir.names)
    {
      unowned := None;
      var revalidated := dir.Call();
      if !revalidated {
        return Err(UnsafeTarget), unowned;
      }
      var absent := dir.EnsureAbsent(target);
      if absent.Err? {
        return Err(if absent.error == TargetExists then TargetExists else UnsafeTarget), unowned;
      }
      for attempt := 0 to TEMP_NAME_ATTEMPTS
        invariant dir.steps == old(dir.steps) && unowned.None?
        invariant old(SecuringFails()) ==>
                    attempt == 0 && dir.names == old(dir.names) && dir.calls == old(dir.calls) + 2
        invariant dir.Smooth() ==> dir.names == old(dir.names) && dir.nextFile == old(dir.nextFile)
        invariant dir.Smooth() ==>
                    FirstFree(old(dir.names), circumstances.entropy, 0)
                    == FirstFree(old(dir.names), circumstances.entropy, attempt)
      {
        var name := circumstances.entropy(attempt);
        var file := dir.Create(name);
        match file
        case Err(Exists) =>
        case Err(CreateFailed) => return Err(OpenFailed), unowned;
        case Ok(id) =>
          var secured := dir.Call();
          if !secured {
            return Err(UnsafeTarget), Some(OwnedTemp(name, id));
          }
          var verified := dir.VerifyTemp(name, id);
          if !verified {
            return Err(UnsafeTarget), Some(OwnedTemp(name, id));
          }
          return Ok(OwnedTemp(name, id)), None;
      }
      return Err(RandomUnavailable), unowned;
    }

    /** Dropping an owned temporary file: its name is removed if it still is that file's name. */
    method DropTemp(temp: OwnedTemp) returns (ghost fault: bool)
      modifies dir
      ensures !fault ==> !Binds(dir.names, temp.name, temp.file)
      ensures fault && dir.Quiet() ==> dir.names == old(dir.names)
      ensures dir.Smooth() ==>
                !fault && dir.names == if Binds(old(dir.names), temp.name, temp.file) then old(dir.names) - {temp.name}
                                       else old(dir.names)
      ensures dir.steps == old(dir.steps) || dir.steps == old(dir.steps) + [Unlinked(temp.name)]
    {
      var ours, statFault := dir.Matches(temp.name, temp.file);
      fault := statFault;
      if ours {
        var removed, unlinkFault := dir.Unlink(temp.name);
        fault := unlinkFault;
      }
    }

    /** `BoundExportTarget::commit_link`, run under the gate's lock. */
    method LinkTarget(temp: OwnedTemp) returns (r: Result<bool, ExportError>)
      modifies dir
      ensures r.Err? ==> dir.steps == old(dir.steps) && r.error in {UnsafeTarget, TargetExists, PublishFailed}
      ensures r.Err? && dir.Quiet() ==> dir.names == old(dir.names)
      ensures r.Ok? ==> |dir.steps| == |old(dir.steps)| + 1 && dir.steps[..|old(dir.steps)|] == old(dir.steps)
      ensures r.Ok? ==> LinksVacant(dir.steps[|old(dir.steps)|], temp.name, target)
      // only while the temporary name led to the file and the file looked private
      ensures r.Ok? ==> exists n :: old(dir.calls) < n <= dir.calls && dir.private(n)
      ensures r.Ok? && dir.Quiet() ==> Binds(old(dir.names), temp.name, temp.file)
      ensures dir.Smooth() && Binds(old(dir.names), temp.name, temp.file) ==>
                && r == (if target in old(dir.names) then Err(TargetExists) else Ok(true))
                && (r.Ok? ==> dir.names == old(dir.names)[target := FileNode(temp.file)])
    {
      var revalidated := dir.Call();
      if !revalidated {
        return Err(UnsafeTarget);
      }
      var absent := dir.EnsureAbsent(target);
      if absent.Err? {
        return Err(absent.error);
      }
      var verified := dir.VerifyTemp(temp.name, temp.file);
      if !verified {
        return Err(UnsafeTarget);
      }
      var linked := dir.Link(temp.name, target);
      if linked.Err? {
        return Err(linked.error);
      }
      var matches, fault := dir.Matches(target, temp.file);
      return Ok(matches);
    }

    /** `ExportCancellation::commit_link`: the whole operation happens under the lock that cancels need. */
    method CommitLink(temp: OwnedTemp) returns (r: Result<bool, ExportError>)
      requires gate.Valid()
      modifies gate, dir
      ensures gate.Valid()
      ensures r.Ok? ==> gate.committed && !gate.cancelled && !old(gate.committed)
      ensures r.Err? ==> (gate.committed <==> old(gate.committed)) && (gate.cancelled <==> old(gate.cancelled))
      ensures |gate.requests| == |old(gate.requests)| + 1 && gate.requests[..|old(gate.requests)|] == old(gate.requests)
      ensures gate.requests[|old(gate.requests)|].TryCommit? && r.Ok? == AnswerAt(gate.requests, |old(gate.requests)|)
      ensures r.Err? && dir.Quiet() ==> dir.names == old(dir.names)
      ensures r.Err? ==> dir.steps == old(dir.steps) && (r.error == Cancelled ==> gate.cancelled)
      ensures r.Ok? ==> |dir.steps| == |old(dir.steps)| + 1 && dir.steps[..|old(dir.steps)|] == old(dir.steps)
      ensures r.Ok? ==> LinksVacant(dir.steps[|old(dir.steps)|], temp.name, target)
      ensures dir.Smooth() && Binds(old(dir.names), temp.name, temp.file) && old(!gate.cancelled && !gate.committed) ==>
                && r == (if target in old(dir.names) then Err(TargetExists) else Ok(true))
                && (r.Ok? ==> dir.names == old(dir.names)[target := FileNode(temp.file)])
    {
      ghost var asked := gate.requests;
      if gate.committed || gate.cancelled {
        gate.requests := asked + [TryCommit(false)];
        assert gate.requests[..|asked|] == asked;
        return Err(if gate.committed then PublishFailed else Cancelled);
      }
      r := LinkTarget(temp);
      gate.requests := gate.requests + [TryCommit(r.Ok?)];
      assert gate.requests[..|gate.requests| - 1] == old(gate.requests);
      if r.Ok? {
        gate.committed := true;
      }
    }

    /** `finish_committed`. An outcome other than uncertain was seen: the target name led to this file at the end. */
    method FinishCommitted(temp: OwnedTemp, linkVerified: bool) returns (p: Publication)
      modifies dir
      ensures dir.steps == old(dir.steps) || dir.steps == old(dir.steps) + [Unlinked(temp.name)]
      ensures !p.CommitUncertain? ==> linkVerified && Binds(dir.names, target, temp.file)
      ensures p.Committed? ==> dir.steps == old(dir.steps) + [Unlinked(temp.name)]
      ensures dir.Smooth() && linkVerified && target != temp.name && Binds(old(dir.names), temp.name, temp.file)
              && Binds(old(dir.names), target, temp.file) ==>
                p == Committed && dir.names == old(dir.names) - {temp.name}
    {
      var ours, statFault := dir.Matches(temp.name, temp.file);
      var removed := false;
      if ours {
        ghost var fault: bool;
        removed, fault := dir.Unlink(temp.name);
      }
      var synced := dir.Call();
      var revalidated := dir.Call();
      var matches, fault := dir.Matches(target, temp.file);
      return PublicationOutcome(linkVerified, revalidated && matches, !removed, !synced);
    }

    /** `write_history_export`. `temp` is the owned temporary file, once there is one; `unowned` a file that was created
        and never owned; `seen` the directory when the target was last looked at; `fault` tells whether the kernel
        refused to examine or remove the temporary name at the end. */
    method WriteHistoryExport()
      returns (r: Result<Artifact, ExportError>, ghost temp: Option<OwnedTemp>, ghost unowned: Option<OwnedTemp>,
               ghost seen: map<Name, Node>, ghost fault: bool)
      requires gate.Valid() && !gate.committed && dir.steps == [] && sink.accepted == []
      modifies this`moments, gate, dir, sink
      ensures gate.Valid() && (gate.committed <==> r.Ok?)
      // success means: its link was made, exactly once, under a name that was vacant, and nobody had cancelled
      ensures r.Ok? ==> temp.Some? && OneLink(dir.steps, temp.value.name, target) && !gate.cancelled
      // the file holds the whole export of the snapshot's records, and the artifact describes it
      ensures r.Ok? ==> && sink.accepted == WholeExport(task, AllRecords(circumstances.snapshot.batches))
                        && |sink.accepted| <= task.outputLimit
                        && |AllRecords(circumstances.snapshot.batches)| == circumstances.snapshot.expected
                             <= task.maxRecords
                        && r.value.result == Encoding.EncoderResult(
                             |sink.accepted|, |AllRecords(circumstances.snapshot.batches)|,
                             Encoding.Digest(task.rendering, task.scope, task.projection,
                                             AllRecords(circumstances.snapshot.batches)))
      ensures r.Ok? ==> circumstances.flushes && circumstances.snapshot.opens && circumstances.snapshot.closes
      // the deadline was ahead whenever it was looked at: before each batch and record, and around them
      ensures r.Ok? ==> moments == old(moments) + Looks() + 4 && InTime(old(moments), moments - 1)
      // unless reported uncertain, the target name was seen to lead to that file
      ensures r.Ok? && !r.value.publication.CommitUncertain? ==> Binds(seen, target, temp.value.file)
      // failure means: no link was made, and an owned temporary name does not lead to our file any more
      ensures r.Err? ==> NoLink(dir.steps)
      ensures r.Err? && temp.Some? && !fault ==> !Binds(dir.names, temp.value.name, temp.value.file)
      // a file that never became owned is not removed by anyone; if nobody else acts it stays
      ensures temp.None? ==>
                r.Err? && dir.steps == match unowned case None => [] case Some(t) => [Created(t.name, t.file)]
      ensures temp.Some? ==>
                unowned.None? && |dir.steps| > 0 && dir.steps[0] == Created(temp.value.name, temp.value.file)
      ensures dir.Quiet() && unowned.Some? ==> Binds(dir.names, unowned.value.name, unowned.value.file)
      ensures dir.Quiet() && r.Err? && temp.Some? && fault ==> Binds(dir.names, temp.value.name, temp.value.file)
      // which does happen
      ensures old(SecuringFails() && StartsFreely()) ==> r == Err(UnsafeTarget) && unowned.Some?
      ensures r == Err(Cancelled) ==> gate.cancelled
      ensures old(gate.cancelled) ==> r == Err(Cancelled)
      // undisturbed, the answer is what the directory and the snapshot call for, and the directory gains the target
      // or nothing
      ensures Undisturbed() && !old(gate.cancelled) ==>
                && r.Ok? == UndisturbedAnswer(old(dir.names)).None?
                && (r.Err? ==> r.error == UndisturbedAnswer(old(dir.names)).value && dir.names == old(dir.names))
                && (r.Ok? ==> r.value.publication == Committed
                              && dir.names == old(dir.names)[target := FileNode(old(dir.nextFile))])
    {
      hide OneLink, WholeExport, ExportFails, FirstFree;
      fault, temp, unowned, seen := false, None, None, map[];
      var checked := Check();
      if checked.Err? {
        return Err(checked.error), temp, unowned, seen, fault;
      }
      var owned: Result<OwnedTemp, ExportError>;
      owned, unowned := CreateTemp();
      if owned.Err? {
        return Err(owned.error), temp, unowned, seen, fault;
      }
      temp := Some(owned.value);
      r, seen, fault := ExportThrough(owned.value);
      if owned.value.name !in old(dir.names) {
        NameGone(old(dir.names), owned.value.name, target, owned.value.file);
      }
    }

    /** Writing, publishing and dropping an owned temporary file. */
    method ExportThrough(temp: OwnedTemp)
      returns (r: Result<Artifact, ExportError>, ghost seen: map<Name, Node>, ghost fault: bool)
      requires gate.Valid() && !gate.committed && sink.accepted == []
      requires dir.steps == [Created(temp.name, temp.file)]
      modifies this`moments, gate, dir, sink
      ensures gate.Valid() && (gate.committed <==> r.Ok?)
      ensures |dir.steps| > 0 && dir.steps[0] == Created(temp.name, temp.file)
      ensures r.Ok? ==> OneLink(dir.steps, temp.name, target) && !gate.cancelled && Exported(r.value.result)
                        && circumstances.flushes
      ensures r.Ok? ==> moments == old(moments) + Looks() + 3 && InTime(old(moments), moments - 1)
      ensures r.Ok? && !r.value.publication.CommitUncertain? ==> Binds(seen, target, temp.file)
      ensures r.Err? ==> NoLink(dir.steps) && (r.error == Cancelled ==> gate.cancelled)
      ensures r.Err? && !fault ==> !Binds(dir.names, temp.name, temp.file)
      ensures dir.Quiet() && r.Err? && fault ==> dir.names == old(dir.names)
      ensures Undisturbed() && Binds(old(dir.names), temp.name, temp.file) && !old(gate.cancelled) ==>
                && r.Ok? == (ExportFails(task, circumstances.snapshot).None? && target !in old(dir.names))
                && (r.Err? ==> r.error == if ExportFails(task, circumstances.snapshot).None? then TargetExists
                                          else ExportFails(task, circumstances.snapshot).value)
                && (r.Err? ==> dir.names == old(dir.names) - {temp.name})
                && (r.Ok? ==> r.value.publication == Committed
                              && dir.names == old(dir.names)[target := FileNode(temp.file)] - {temp.name})
    {
      hide OneLink, WholeExport, ExportFails;
      var ready := BeforeCommit(temp);
      match ready {
        case Ok(result) =>
          var p := Publish(temp);
          r := if p.Ok? then Ok(Artifact(result, p.value)) else Err(p.error);
        case Err(e) => r := Err(e);
      }
      seen := dir.names;
      ghost var steps := dir.steps;
      fault := DropTemp(temp);
      LinkKept(steps, dir.steps, temp.name, target);
    }

    /** Why an undisturbed export fails: the target name or all temporary names are taken, the snapshot cannot be
        exported, or the temporary name is the target name. */
    ghost function UndisturbedAnswer(names: map<Name, Node>): Option<ExportError> {
      var free := FirstFree(names, circumstances.entropy, 0);
      if target in names then Some(TargetExists)
      else if free.None? then Some(RandomUnavailable)
      else if ExportFails(task, circumstances.snapshot).Some? then ExportFails(task, circumstances.snapshot)
      else if free.value == target then Some(TargetExists)
      else None
    }

    /** The commit and what follows it. */
    method Publish(temp: OwnedTemp) returns (r: Result<Publication, ExportError>)
      requires gate.Valid() && !gate.committed && dir.steps == [Created(temp.name, temp.file)]
      modifies this`moments, gate, dir
      ensures moments == old(moments) + 1
      ensures gate.Valid() && (gate.committed <==> r.Ok?)
      ensures |dir.steps| > 0 && dir.steps[0] == Created(temp.name, temp.file)
      ensures r.Ok? ==> OneLink(dir.steps, temp.name, target) && !gate.cancelled
      ensures r.Ok? && !r.value.CommitUncertain? ==> Binds(dir.names, target, temp.file)
      ensures r.Err? ==> dir.steps == old(dir.steps) && (r.error == Cancelled ==> gate.cancelled)
      ensures r.Err? && dir.Quiet() ==> dir.names == old(dir.names)
      ensures Undisturbed() && Binds(old(dir.names), temp.name, temp.file) && !old(gate.cancelled) ==>
                && r == (if target in old(dir.names) then Err(TargetExists) else Ok(Committed))
                && (r.Ok? ==> dir.names == old(dir.names)[target := FileNode(temp.file)] - {temp.name})
    {
      hide OneLink;
      Interleave();
      var link := CommitLink(temp);
      if link.Err? {
        return Err(link.error);
      }
      ghost var made := dir.steps;
      LinkedNow(made, temp.name, target);
      var p := FinishCommitted(temp, link.value);
      LinkKept(made, dir.steps, temp.name, target);
      return Ok(p);
    }

    /** Writing the records, then the checks up to the commit. */
    method BeforeCommit(temp: OwnedTemp) returns (r: Result<Encoding.EncoderResult, ExportError>)
      requires gate.Valid() && sink.accepted == []
      modifies this`moments, gate, dir`calls, dir`names, sink
      ensures gate.Valid() && (gate.committed <==> old(gate.committed))
      ensures r == Err(Cancelled) ==> gate.cancelled
      ensures r.Ok? ==> Exported(r.value)
      ensures r.Ok? ==> moments == old(moments) + Looks() + 2 && InTime(old(moments), moments)
      ensures dir.Quiet() ==> dir.names == old(dir.names)
      // only a flushed file that the temporary name led to and that looked private is handed on
      ensures r.Ok? ==> circumstances.flushes && exists n :: old(dir.calls) < n <= dir.calls && dir.private(n)
      ensures r.Ok? && dir.Quiet() ==> Binds(old(dir.names), temp.name, temp.file)
      ensures Undisturbed() && Binds(old(dir.names), temp.name, temp.file) && !old(gate.cancelled) ==>
                && !gate.cancelled && (r.Ok? <==> ExportFails(task, circumstances.snapshot).None?)
                && (r.Err? ==> r.error == ExportFails(task, circumstances.snapshot).value)
    {
      hide WholeExport;
      r := WriteRecords();
      if r.Err? {
        return;
      }
      var checked := Check();
      if checked.Err? {
        return Err(checked.error);
      }
      if !circumstances.flushes {
        return Err(WriteFailed);
      }
      var verified := dir.VerifyTemp(temp.name, temp.file);
      if !verified {
        return Err(UnsafeTarget);
      }
      checked := Check();
      if checked.Err? {
        return Err(checked.error);
      }
    }

    /** The file holds the whole export of the snapshot, within the limits, and the result describes it. */
    ghost predicate Exported(result: Encoding.EncoderResult)
      reads sink
    {
      var records := AllRecords(circumstances.snapshot.batches);
      && sink.accepted == WholeExport(task, records) && |sink.accepted| <= task.outputLimit
      && |records| == circumstances.snapshot.expected <= task.maxRecords
      && circumstances.snapshot.opens && circumstances.snapshot.closes
      && result == Encoding.EncoderResult(|sink.accepted|, |records|, Encoding.Digest(task.rendering, task.scope,
                                                                                     task.projection, records))
    }

    /** How often the gate and the deadline are looked at while the records are written: before each batch, before each
        record, and before the end of the snapshot is found. */
    ghost function Looks(): nat {
      |circumstances.snapshot.batches| + 1 + |AllRecords(circumstances.snapshot.batches)|
    }

    /** The snapshot callback: begin, encode batch after batch, checking before each batch and each record, finish. */
    method WriteRecords() returns (r: Result<Encoding.EncoderResult, ExportError>)
      requires gate.Valid() && sink.accepted == []
      modifies this`moments, gate, sink
      ensures gate.Valid() && (gate.committed <==> old(gate.committed))
      ensures r == Err(Cancelled) ==> gate.cancelled
      ensures r.Ok? ==> Exported(r.value)
      ensures r.Ok? ==> moments == old(moments) + Looks() && InTime(old(moments), moments)
      ensures Undisturbed() && !old(gate.cancelled) ==>
                && !gate.cancelled && (r.Ok? <==> ExportFails(task, circumstances.snapshot).None?)
                && (r.Err? ==> r.error == ExportFails(task, circumstances.snapshot).value)
    {
      hide Encoding.BodyText, Encoding.ExportText, Encoding.Digest, ExportDigest.HeadStream, ExportDigest.RecordStream,
        GateAfter, WritingFails, AllRecords;
      NextBatch(circumstances.snapshot.batches);
      var snapshot := circumstances.snapshot;
      if !snapshot.opens || snapshot.expected > task.maxRecords {
        return Err(StoreFailed);
      }
      var writer := new Encoding.CountingWriter(sink, task.outputLimit);
      var encoder := new Encoding.Encoder(writer, task.format, task.rendering, task.scope, task.projection,
                                          snapshot.expected);
      var begun := encoder.WriteManifest();
      NothingWritten(task, snapshot.expected);
      if begun.Err? {
        if Undisturbed() {
          WritingKeepsFailing(task, [], AllRecords(snapshot.batches), snapshot.expected);
        }
        return Err(EncoderFailure(begun.error));
      }
      var i := 0;
      while i <= |snapshot.batches|
        invariant 0 <= i <= |snapshot.batches| + 1
        invariant gate.Valid() && (gate.committed <==> old(gate.committed))
        invariant fresh(encoder) && fresh(writer) && encoder.writer == writer && writer.sink == sink && encoder.Valid()
        invariant encoder.records
                  == AllRecords(snapshot.batches[..if i <= |snapshot.batches| then i else |snapshot.batches|])
        invariant Undisturbed() && !old(gate.cancelled) ==> !gate.cancelled
        invariant WritingFails(task, encoder.records, snapshot.expected).None?
        invariant moments == old(moments) + i + |encoder.records| && InTime(old(moments), moments)
      {
        var checked := Check();
        if checked.Err? {
          return Err(checked.error);
        }
        if snapshot.batchFails(i) {
          return Err(StoreFailed);
        }
        if i < |snapshot.batches| {
          FirstBatches(snapshot.batches, i + 1);
          var written := WriteBatch(encoder, snapshot.batches[i]);
          if written.Err? {
            if Undisturbed() && !old(gate.cancelled) {
              WritingKeepsFailing(task, AllRecords(snapshot.batches[..i + 1]), AllRecords(snapshot.batches),
                                  snapshot.expected);
            }
            return Err(written.error);
          }
        }
        i := i + 1;
      }
      assert snapshot.batches[..|snapshot.batches|] == snapshot.batches;
      var finished := encoder.Finish();
      if finished.Err? {
        return Err(EncoderFailure(finished.error));
      }
      return if snapshot.closes then Ok(finished.value) else Err(StoreFailed);
    }

    /** This encoder writes the export of the task. */
    ghost predicate Writes(encoder: Encoding.Encoder) {
      && encoder.format == task.format && encoder.rendering == task.rendering && encoder.scope == task.scope
      && encoder.projection == task.projection && encoder.writer.limit == task.outputLimit
    }

    lemma WritingWorks(encoder: Encoding.Encoder)
      requires encoder.Valid() && Writes(encoder)
      ensures WritingFails(task, encoder.records, encoder.expectedRecords).None?
    {
      hide Encoding.BodyText, ExportDigest.HeadStream, ExportDigest.RecordStream;
      assert encoder.records[..|encoder.records|] == encoder.records;
    }

    /** One batch, record by record. */
    method WriteBatch(encoder: Encoding.Encoder, batch: seq<Csv.Bytes>) returns (r: Result<(), ExportError>)
      requires gate.Valid() && encoder.Valid() && encoder.writer.sink == sink && Writes(encoder)
      modifies this`moments, gate, encoder, encoder.writer, sink
      ensures gate.Valid() && (gate.committed <==> old(gate.committed))
      ensures r == Err(Cancelled) ==> gate.cancelled
      ensures r.Ok? ==> encoder.Valid() && encoder.records == old(encoder.records) + batch
      ensures r.Ok? ==> WritingFails(task, encoder.records, encoder.expectedRecords).None?
      // one look at the gate and the deadline before each record
      ensures r.Ok? ==> moments == old(moments) + |batch| && InTime(old(moments), moments)
      ensures Undisturbed() && !old(gate.cancelled) ==>
                var fails := WritingFails(task, old(encoder.records) + batch, encoder.expectedRecords);
                !gate.cancelled && r == if fails.Some? then Err(fails.value) else Ok(())
    {
      hide Encoding.BodyText, ExportDigest.HeadStream, ExportDigest.RecordStream, GateAfter, WritingFails;
      WritingWorks(encoder);
      for j := 0 to |batch|
        invariant gate.Valid() && (gate.committed <==> old(gate.committed))
        invariant encoder.Valid() && encoder.records == old(encoder.records) + batch[..j]
        invariant WritingFails(task, encoder.records, encoder.expectedRecords).None?
        invariant moments == old(moments) + j && InTime(old(moments), moments)
        invariant Undisturbed() && !old(gate.cancelled) ==> !gate.cancelled
      {
        var checked := Check();
        if checked.Err? {
          return Err(checked.error);
        }
        assert batch[..j + 1] == batch[..j] + [batch[j]];
        ghost var before := encoder.records;
        var written := encoder.WriteRecord(batch[j]);
        if written.Err? {
          NextFails(task, before, batch[j], encoder.expectedRecords);
          if Undisturbed() {
            WritingKeepsFailing(task, before + [batch[j]], old(encoder.records) + batch, encoder.expectedRecords);
          }
          return Err(EncoderFailure(written.error));
        }
        WritingWorks(encoder);
      }
      assert batch[..|batch|] == batch;
      return Ok(());
    }
  }

  /** A file left behind: on a quiet volume, in an empty directory, the new file cannot be secured, the export fails,
      and the name it was created under still leads to it. */
  method LeavesFileBehind(task: Task, snapshot: Snapshot)
    returns (dir: TargetDirectory, r: Result<Artifact, ExportError>)
    ensures fresh(dir) && r == Err(UnsafeTarget) && exists name, file :: Binds(dir.names, name, file)
  {
    hide WholeExport, OneLink, ExportFails, FirstFree, NoLink, AllRecords, Encoding.Digest;
    dir := new TargetDirectory((_, m) => m, n => n == 3, _ => true, map[], 0);
    var gate := new ExportCancellation();
    assert gate.Valid() && !gate.committed && !gate.cancelled;
    hide GateAfter;
    var sink := new Encoding.Sink([]);
    var circumstances := Circumstances(_ => "temp", _ => false, _ => 0, snapshot, true);
    var history := new Export(dir, gate, "target", task, sink, circumstances);
    ghost var temp: Option<OwnedTemp>, unowned: Option<OwnedTemp>, seen: map<Name, Node>, fault: bool;
    r, temp, unowned, seen, fault := history.WriteHistoryExport();
    assert Binds(dir.names, unowned.value.name, unowned.value.file);
  }

  /** Removing the temporary name leaves the directory as it was, with the target if it was linked. */
  lemma NameGone(names: map<Name, Node>, temp: Name, target: Name, file: FileId)
    requires temp !in names
    ensures var created := names[temp := FileNode(file)];
            && created - {temp} == names
            && (temp != target ==> created[target := FileNode(file)] - {temp} == names[target := FileNode(file)])
  {
  }

  lemma LinkedNow(steps: seq<OwnStep>, temp: Name, target: Name)
    requires |steps| == 2 && steps[0].Created? && LinksVacant(steps[1], temp, target)
    ensures OneLink(steps, temp, target)
  {
    assert NoLink(steps[..1]) && NoLink(steps[1 + 1..]);
  }

  /** Removing a name afterwards leaves the one link the one link, or no link no link. */
  lemma LinkKept(before: seq<OwnStep>, after: seq<OwnStep>, temp: Name, target: Name)
    requires after == before || exists n :: after == before + [Unlinked(n)]
    ensures OneLink(before, temp, target) ==> OneLink(after, temp, target)
    ensures NoLink(before) ==> NoLink(after)
  {
    if OneLink(before, temp, target) && after != before {
      var i :| 0 <= i < |before| && NoLink(before[..i]) && NoLink(before[i + 1..])
      && LinksVacant(before[i], temp, target);
      assert after[..i] == before[..i] && after[i] == before[i];
      assert forall k :: i < k < |before| ==> before[i + 1..][k - i - 1] == before[k];
      assert NoLink(after[i + 1..]);
    }
  }
}
