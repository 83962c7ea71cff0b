/** Pausing, resuming and cancelling a scan: the job registry behind one lock, the worker's control behind
    another, and a worker that blocks on a condition variable. A step is one critical section; a command that
    takes both locks holds the registry while it takes the control, so it is two steps. */
module JobControl {
  import opened Wrappers

  datatype Directive = Continue | Pause | Cancel

  datatype Phase = Running | Pausing | Paused | Resuming | Cancelling

  datatype Stage = Enumeration | Fingerprinting | ExactVerification | CaptureTime | Finished

  // --------------------------------------------------- the worker control

  /** `WorkerControlState`, and whether the worker sleeps on the condition variable. */
  datatype Control = Control(directive: Directive, enumerationActive: bool, asleep: bool)

  function PauseRequested(c: Control): Control {
    if c.enumerationActive && c.directive != Cancel then c.(directive := Pause) else c
  }

  function ResumeRequested(c: Control): Control {
    if c.directive == Pause then c.(directive := Continue, asleep := false) else c
  }

  function CancelRequested(c: Control): Control { c.(directive := Cancel, asleep := false) }

  function EnumerationFinished(c: Control): Control {
    if c.directive == Pause then Control(Continue, false, false) else c.(enumerationActive := false)
  }

  /** `ScanWorkerControl`; every method is one critical section of its lock. */
  class ScanWorkerControl {
    var directive: Directive
    var enumerationActive: bool
    /** A notification clears it; only a waiting worker sets it. */
    var asleep: bool

    function Value(): Control
      reads this
    {
      Control(directive, enumerationActive, asleep)
    }

    constructor ()
      ensures Value() == Control(Continue, true, false)
    {
      directive, enumerationActive, asleep := Continue, true, false;
    }

    method NotifyAll()
      modifies this`asleep
      ensures !asleep
    {
      asleep := false;
    }

    method RequestPause() returns (accepted: bool)
      modifies this
      ensures Value() == PauseRequested(old(Value()))
      ensures accepted <==> old(enumerationActive) && old(directive) != Cancel
    {
      if enumerationActive && directive != Cancel {
        directive := Pause;
        return true;
      }
      return false;
    }

    method FinishEnumeration()
      modifies this
      ensures Value() == EnumerationFinished(old(Value()))
    {
      enumerationActive := false;
      if directive == Pause {
        directive := Continue;
        NotifyAll();
      }
    }

    method RequestResume()
      modifies this
      ensures Value() == ResumeRequested(old(Value()))
    {
      if directive == Pause {
        directive := Continue;
        NotifyAll();
      }
    }

    method RequestCancel() returns (changed: bool)
      modifies this
      ensures Value() == CancelRequested(old(Value()))
      ensures changed <==> old(directive) != Cancel
    {
      changed := directive != Cancel;
      directive := Cancel;
      NotifyAll();
    }
  }

  // ------------------------------------------------------- one scan job

  /** What the holder of the registry lock still has to do. */
  datatype Holder = Nobody | CancelPending | PausePending | ResumePending

  datatype EnumerationEnd = EnumeratedAll | EnumerationCancelled | EnumerationInterrupted

  /** Where the worker is. */
  datatype Worker =
    | Enumerating                      // in the traversal, polling the directive
    | SawPause                         // the traversal stopped at a pause; `Paused` not yet reported
    | WaitCheck                        // in `wait_while_paused`, at the loop condition
    | Woken                            // left `wait_while_paused`; about to resume the traversal
    | ResumeSeen                       // resuming; `on_enumeration_resumed` not yet reported
    | Ended(end: EnumerationEnd)       // the traversal is over; `finish_enumeration` not yet called
    | Closed(end: EnumerationEnd)      // the control knows that enumeration is over
    | InStage(stage: Stage)            // about to report this stage, or working in the one before it
    | Done                             // returned its outcome; `finish` not yet called

  datatype Job = Job(phase: Phase, stage: Stage, control: Control, holder: Holder, worker: Worker, active: bool)

  function NewJob(): Job { Job(Running, Enumeration, Control(Continue, true, false), Nobody, Enumerating, true) }

  datatype Action =
    | CancelControl | CancelPhase                 // cancel, and cancellation on window close
    | PauseControl | PausePhase                   // pause_for_owner
    | ResumePhase | ResumeControl                 // resume_for_owner
    | PollPause | EndEnumeration(end: EnumerationEnd) | ReportPaused
    | Sleep | Wake | LeaveWait | ReadDirective | ReportResumed
    | FinishEnumeration | ReportRunning | ReportStage | StageCancelled | WorkerFails | FinishJob

  /** `record_worker_phase`: cancelling is never overwritten. */
  function Recorded(phase: Phase, reported: Phase): Phase { if phase == Cancelling then phase else reported }

  /** A pause takes effect now. */
  predicate CanPause(j: Job) {
    && j.active && j.stage == Enumeration && j.phase == Running
    && j.control.enumerationActive && j.control.directive != Cancel
  }

  /** A resume takes effect now. */
  predicate CanResume(j: Job) { j.active && j.stage == Enumeration && j.phase == Paused }

  function NextStage(s: Stage): Stage {
    match s
    case Enumeration => Fingerprinting
    case Fingerprinting => ExactVerification
    case ExactVerification => CaptureTime
    case CaptureTime | Finished => Finished
  }

  /** The state after an action, or `None` where the action cannot happen. */
  function Step(j: Job, a: Action): Option<Job> {
    var free := j.holder == Nobody;
    match a
    case CancelControl =>
      if free && j.active then Some(j.(control := CancelRequested(j.control), holder := CancelPending)) else None
    case CancelPhase =>
      if j.holder == CancelPending then Some(j.(phase := Cancelling, holder := Nobody)) else None
    case PauseControl =>
      if free && CanPause(j)
      then Some(j.(control := PauseRequested(j.control), holder := PausePending)) else None
    case PausePhase =>
      if j.holder == PausePending then Some(j.(phase := Pausing, holder := Nobody)) else None
    case ResumePhase =>
      if free && CanResume(j) then Some(j.(phase := Resuming, holder := ResumePending)) else None
    case ResumeControl =>
      if j.holder == ResumePending then Some(j.(control := ResumeRequested(j.control), holder := Nobody)) else None
    case PollPause =>
      if j.worker == Enumerating && j.control.directive == Pause then Some(j.(worker := SawPause)) else None
    case EndEnumeration(end) =>
      if j.worker == Enumerating && (end == EnumerationCancelled ==> j.control.directive == Cancel)
      then Some(j.(worker := Ended(end))) else None
    case ReportPaused =>
      if j.worker == SawPause && free then Some(j.(phase := Recorded(j.phase, Paused), worker := WaitCheck)) else None
    case Sleep =>
      if j.worker == WaitCheck && j.control.directive == Pause && !j.control.asleep
      then Some(j.(control := j.control.(asleep := true))) else None
    case Wake =>
      if j.worker == WaitCheck && j.control.asleep then Some(j.(control := j.control.(asleep := false))) else None
    case LeaveWait =>
      if j.worker == WaitCheck && !j.control.asleep && j.control.directive != Pause
        then Some(j.(worker := Woken)) else None
    case ReadDirective =>
      if j.worker == Woken then
        match j.control.directive
        case Cancel => Some(j.(worker := Ended(EnumerationCancelled)))
        case Pause => Some(j.(worker := SawPause))
        case Continue => Some(j.(worker := ResumeSeen))
      else None
    case ReportResumed =>
      if j.worker == ResumeSeen && free
        then Some(j.(phase := Recorded(j.phase, Running), worker := Enumerating)) else None
    case FinishEnumeration =>
      if j.worker.Ended?
        then Some(j.(control := EnumerationFinished(j.control), worker := Closed(j.worker.end))) else None
    case ReportRunning =>
      if j.worker.Closed? && j.worker.end != EnumeratedAll then Some(j.(worker := Done))
      else if j.worker.Closed? && free
      then Some(j.(phase := Recorded(j.phase, Running), worker := InStage(Fingerprinting))) else None
    case ReportStage =>
      if j.worker.InStage? && free && j.active
      then Some(j.(stage := j.worker.stage,
                   worker := if j.worker.stage == Finished then Done else InStage(NextStage(j.worker.stage)))) else None
    case StageCancelled =>
      if j.worker.InStage? && j.control.directive == Cancel then Some(j.(worker := Done)) else None
    case WorkerFails =>
      if j.worker in {Enumerating, Woken} || j.worker.InStage? then Some(j.(worker := Done)) else None
    case FinishJob =>
      if j.worker == Done && free && j.active then Some(j.(active := false)) else None
  }

  // ------------------------------------------------------------ invariant

  /** The worker may still observe a pause. */
  predicate BeforeClose(w: Worker) { w in {Enumerating, SawPause, WaitCheck, Woken, ResumeSeen} || w.Ended? }

  /** What holds whenever the registry lock is free. */
  predicate Settled(j: Job) {
    && (j.phase == Cancelling <==> j.control.directive == Cancel)
    && (j.phase == Paused ==> j.control.directive == Pause)
    && (j.phase == Pausing ==> j.control.directive == Pause || !j.control.enumerationActive)
    && (j.phase == Resuming ==> j.control.directive == Continue)
    && (j.control.directive == Pause ==> j.phase in {Pausing, Paused})
  }

  /** What the worker's position says about the rest. */
  predicate Consistent(j: Job) {
    && (j.control.enumerationActive ==> BeforeClose(j.worker) || j.worker == Done)
    && (BeforeClose(j.worker) ==> j.control.enumerationActive && j.stage == Enumeration)
    && (j.worker.Closed? ==> j.stage == Enumeration)
    && (j.control.directive == Pause ==> j.control.enumerationActive)
    && (j.control.asleep ==> j.worker == WaitCheck && j.control.directive == Pause)
    && (j.worker == SawPause ==> j.phase in {Running, Pausing, Cancelling} && j.control.directive != Continue)
    && (j.worker == SawPause && j.phase == Running ==> j.holder != Nobody)
    && (j.worker == WaitCheck ==> j.phase in {Paused, Resuming, Cancelling})
    && (j.worker in {Woken, ResumeSeen} ==> j.phase in {Paused, Resuming, Cancelling} && j.control.directive != Pause)
    && (j.worker in {Enumerating} ==> j.phase in {Running, Pausing, Cancelling})
    && (j.phase in {Paused, Resuming} && j.worker != Done ==>
          j.worker in {WaitCheck, Woken, ResumeSeen} || j.worker.Ended? || j.worker.Closed?)
    && (j.phase in {Paused, Resuming} && (j.worker.Ended? || j.worker.Closed?) ==> j.control.directive == Cancel)
    && (j.worker.InStage? ==> j.phase in {Running, Cancelling} && j.holder != PausePending)
    && (j.stage != Enumeration ==>
          j.phase in {Running, Cancelling} && j.holder != PausePending && !BeforeClose(j.worker))
    && (j.worker in {Ended(EnumerationCancelled), Closed(EnumerationCancelled)} ==> j.control.directive == Cancel)
  }

  predicate Invariant(j: Job) {
    && Consistent(j)
    && match j.holder
       case Nobody => Settled(j)
       case CancelPending => j.control.directive == Cancel
       case PausePending =>
         j.phase == Running && j.stage == Enumeration &&
         (j.control.directive == Pause || (j.control.directive == Continue && !j.control.enumerationActive))
       case ResumePending => j.phase == Resuming && j.control.directive == Pause
  }

  lemma StepKeepsInvariant(j: Job, a: Action)
    requires Invariant(j) && Step(j, a).Some?
    ensures Invariant(Step(j, a).value)
  {
  }

  function Run(j: Job, actions: seq<Action>): Option<Job> {
    if actions == [] then Some(j)
    else
      var before := Run(j, actions[..|actions| - 1]);
      if before.None? then None else Step(before.value, actions[|actions| - 1])
  }

  lemma {:induction false} RunsKeepInvariant(j: Job, actions: seq<Action>)
    requires Invariant(j) && Run(j, actions).Some?
    ensures Invariant(Run(j, actions).value)
  {
    if actions != [] {
      RunsKeepInvariant(j, actions[..|actions| - 1]);
      StepKeepsInvariant(Run(j, actions[..|actions| - 1]).value, actions[|actions| - 1]);
    }
  }

  /** In every state a job can reach, with commands and worker interleaved in any way:
      the phase reads cancelling exactly when the worker has been told to cancel, paused and pausing are backed
      by the directive, later stages are never shown paused, and a sleeping worker has a reason to sleep. */
  lemma ReachableStatesAgree(actions: seq<Action>)
    requires Run(NewJob(), actions).Some?
    ensures var j := Run(NewJob(), actions).value;
            && (j.holder == Nobody ==> (j.phase == Cancelling <==> j.control.directive == Cancel))
            && (j.holder == Nobody && j.phase == Paused ==> j.control.directive == Pause)
            && (j.holder == Nobody && j.phase == Pausing ==>
                  j.control.directive == Pause || !j.control.enumerationActive)
            && (j.stage != Enumeration ==> j.phase in {Running, Cancelling})
            && (j.control.asleep ==> j.worker == WaitCheck && j.control.directive == Pause)
            && (j.worker in {Ended(EnumerationCancelled), Closed(EnumerationCancelled)} ==>
                  j.control.directive == Cancel)
  {
    RunsKeepInvariant(NewJob(), actions);
  }

  lemma RunStep(j: Job, actions: seq<Action>, a: Action)
    ensures Run(j, actions + [a]) == if Run(j, actions).None? then None else Step(Run(j, actions).value, a)
  {
    assert (actions + [a])[..|actions|] == actions;
  }

  lemma RunTwo(j: Job, a: Action, b: Action)
    requires Step(j, a).Some?
    ensures Run(j, [a, b]) == Step(Step(j, a).value, b)
  {
    RunStep(j, [], a);
    RunStep(j, [a], b);
    assert [] + [a] == [a] && [a] + [b] == [a, b];
  }

  /** Whenever the worker is blocked by a pause and no command is under way, resume and cancel are both
      accepted, and each of them ends the worker's sleep and lets it go on to the right place. */
  lemma BlockedWorkerCanGoOn(actions: seq<Action>)
    requires Run(NewJob(), actions).Some?
    requires var j := Run(NewJob(), actions).value;
             j.active && j.holder == Nobody && j.worker == WaitCheck && j.control.directive == Pause
    ensures var j := Run(NewJob(), actions).value;
            && CanResume(j) && j.phase != Cancelling
            && (var resumed := Run(j, [ResumePhase, ResumeControl]);
                && resumed.Some? && !resumed.value.control.asleep
                && Run(resumed.value, [LeaveWait, ReadDirective]).Some?
                && Run(resumed.value, [LeaveWait, ReadDirective]).value.worker == ResumeSeen)
            && (var cancelled := Run(j, [CancelControl, CancelPhase]);
                && cancelled.Some? && !cancelled.value.control.asleep && cancelled.value.phase == Cancelling
                && Run(cancelled.value, [LeaveWait, ReadDirective]).Some?
                && Run(cancelled.value, [LeaveWait, ReadDirective]).value.worker == Ended(EnumerationCancelled))
  {
    RunsKeepInvariant(NewJob(), actions);
    hide Invariant, Run, Step;
    var j := Run(NewJob(), actions).value;
    BlockedMeansPaused(j);
    ResumeGoesOn(j);
    CancelGoesOn(j);
  }

  lemma ResumeGoesOn(j: Job)
    requires j.active && j.holder == Nobody && j.worker == WaitCheck && j.control.directive == Pause
    requires j.phase == Paused && j.stage == Enumeration
    ensures var resumed := Run(j, [ResumePhase, ResumeControl]);
            && CanResume(j) && resumed.Some? && !resumed.value.control.asleep
            && Run(resumed.value, [LeaveWait, ReadDirective]).Some?
            && Run(resumed.value, [LeaveWait, ReadDirective]).value.worker == ResumeSeen
  {
    hide Run;
    RunTwo(j, ResumePhase, ResumeControl);
    RunTwo(Run(j, [ResumePhase, ResumeControl]).value, LeaveWait, ReadDirective);
  }

  lemma CancelGoesOn(j: Job)
    requires j.active && j.holder == Nobody && j.worker == WaitCheck && j.phase == Paused
    ensures var cancelled := Run(j, [CancelControl, CancelPhase]);
            && j.active && j.phase != Cancelling && cancelled.Some?
            && !cancelled.value.control.asleep && cancelled.value.phase == Cancelling
            && Run(cancelled.value, [LeaveWait, ReadDirective]).Some?
            && Run(cancelled.value, [LeaveWait, ReadDirective]).value.worker == Ended(EnumerationCancelled)
  {
    hide Run;
    RunTwo(j, CancelControl, CancelPhase);
    RunTwo(Run(j, [CancelControl, CancelPhase]).value, LeaveWait, ReadDirective);
  }

  lemma BlockedMeansPaused(j: Job)
    requires Invariant(j) && j.holder == Nobody && j.worker == WaitCheck && j.control.directive == Pause
    ensures j.phase == Paused && j.stage == Enumeration
  {
  }

  /** Nothing a command or the worker does ever takes a cancellation back. */
  lemma {:induction false} CancellationSticks(j: Job, actions: seq<Action>)
    requires Invariant(j) && j.control.directive == Cancel && Run(j, actions).Some?
    ensures Run(j, actions).value.control.directive == Cancel
    ensures j.phase == Cancelling ==> Run(j, actions).value.phase == Cancelling
  {
    if actions != [] {
      var before := Run(j, actions[..|actions| - 1]).value;
      RunsKeepInvariant(j, actions[..|actions| - 1]);
      CancellationSticks(j, actions[..|actions| - 1]);
    }
  }

  /** Steps of the worker and of a command already under way: none of them waits for a user. */
  predicate Unprompted(a: Action) { a !in {CancelControl, PauseControl, ResumePhase, Wake} }

  /** The job is never stuck: while it is active, something can happen without a user, or the worker is
      blocked in a pause that a user can end. */
  lemma NeverStuck(actions: seq<Action>) returns (a: Action)
    requires Run(NewJob(), actions).Some? && Run(NewJob(), actions).value.active
    ensures var j := Run(NewJob(), actions).value;
            || (Unprompted(a) && Step(j, a).Some?)
            || (j.worker == WaitCheck && j.control.asleep && j.phase == Paused && j.holder == Nobody)
  {
    RunsKeepInvariant(NewJob(), actions);
    hide Run;
    a := Unblocked(Run(NewJob(), actions).value);
  }

  lemma Unblocked(j: Job) returns (a: Action)
    requires Invariant(j) && j.active
    ensures || (Unprompted(a) && Step(j, a).Some?)
            || (j.worker == WaitCheck && j.control.asleep && j.phase == Paused && j.holder == Nobody)
  {
    match j.holder
    case CancelPending => a := CancelPhase;
    case PausePending => a := PausePhase;
    case ResumePending => a := ResumeControl;
    case Nobody =>
      match j.worker
      case Enumerating => a := EndEnumeration(EnumeratedAll);
      case SawPause => a := ReportPaused;
      case WaitCheck => a := if j.control.directive == Pause then Sleep else LeaveWait;
      case Woken => a := ReadDirective;
      case ResumeSeen => a := ReportResumed;
      case Ended(_) => a := FinishEnumeration;
      case Closed(_) => a := ReportRunning;
      case InStage(_) => a := ReportStage;
      case Done => a := FinishJob;
  }

  /** What a worker that has been told to cancel does next. */
  function WayOut(w: Worker): Action {
    match w
    case Enumerating => EndEnumeration(EnumerationCancelled)
    case SawPause => ReportPaused
    case WaitCheck => LeaveWait
    case Woken => ReadDirective
    case ResumeSeen => ReportResumed
    case Ended(_) => FinishEnumeration
    case Closed(_) => ReportRunning
    case InStage(_) => StageCancelled
    case Done => FinishJob
  }

  function StepsLeft(w: Worker): nat {
    match w
    case SawPause => 6
    case WaitCheck | ResumeSeen => 5
    case Enumerating | Woken => 4
    case Ended(_) => 3
    case Closed(_) => 2
    case InStage(_) => 1
    case Done => 0
  }

  lemma {:induction false} RunFirst(j: Job, a: Action, rest: seq<Action>)
    requires Step(j, a).Some?
    ensures Run(j, [a] + rest) == Run(Step(j, a).value, rest)
    decreases |rest|
  {
    hide Step;
    if rest == [] {
      RunStep(j, [], a);
      assert [] + [a] == [a] == [a] + rest;
    } else {
      var init := rest[..|rest| - 1];
      RunFirst(j, a, init);
      assert ([a] + rest)[..|rest|] == [a] + init;
    }
  }

  /** From wherever it is, a cancelled worker reaches the end of the job by its own steps alone. */
  lemma {:induction false} CancelledJobEnds(j: Job) returns (actions: seq<Action>)
    requires Invariant(j) && j.active && j.holder == Nobody && j.control.directive == Cancel
    ensures Run(j, actions).Some? && !Run(j, actions).value.active
    ensures |actions| <= StepsLeft(j.worker) + 1 && forall i :: 0 <= i < |actions| ==> Unprompted(actions[i])
    decreases StepsLeft(j.worker)
  {
    hide Run;
    var a := WayOut(j.worker);
    StepKeepsInvariant(j, a);
    var next := Step(j, a).value;
    var rest := [];
    if j.worker == Done {
      EmptyRun(next);
    } else {
      rest := CancelledJobEnds(next);
    }
    actions := [a] + rest;
    RunFirst(j, a, rest);
  }

  lemma EmptyRun(j: Job)
    ensures Run(j, []) == Some(j)
  {
  }

  // -------------------------------------------------------- the commands

  datatype CommandError = JobNotFound | OwnerMismatch | PauseUnavailable | ResumeUnavailable

  /** The registry's side of the commands. Each method runs under the registry lock; `w` is where the worker
      happens to be. When nothing interferes between its two halves, a command is the two steps above. */
  class ScanJobs {
    const control: ScanWorkerControl
    const jobId: nat
    const owner: string
    var phase: Phase
    var stage: Stage
    var active: bool
    var lastTerminal: Option<nat>

    constructor (jobId: nat, owner: string)
      ensures fresh(control) && this.jobId == jobId && this.owner == owner
      ensures forall w :: Snapshot(w) == NewJob().(worker := w)
    {
      this.jobId := jobId;
      this.owner := owner;
      control := new ScanWorkerControl();
      phase, stage, active := Running, Enumeration, true;
      lastTerminal := None;
    }

    function Snapshot(w: Worker): Job
      reads this, control
    {
      Job(phase, stage, control.Value(), Nobody, w, active)
    }

    method PauseForOwner(caller: string, id: nat, ghost w: Worker) returns (r: Result<bool, CommandError>)
      modifies this`phase, control
      ensures r == Err(JobNotFound) <==> !active || id != jobId
      ensures r == Err(OwnerMismatch) <==> active && id == jobId && caller != owner
      // a new pause: a running job in its enumeration, which can still be paused and has not been cancelled
      ensures r == Ok(true) <==>
                && active && id == jobId && caller == owner && stage == Enumeration && old(phase) == Running
                && old(control.enumerationActive) && old(control.directive) != Cancel
      ensures r == Ok(false) <==>
                && active && id == jobId && caller == owner && stage == Enumeration && old(phase) in {Pausing, Paused}
      ensures r.Ok? || r.error in {JobNotFound, OwnerMismatch, PauseUnavailable}
      ensures r == Ok(true) ==> && phase == Pausing && control.directive == Pause
                                && control.enumerationActive && control.asleep == old(control.asleep)
      ensures if r == Ok(true) then Run(old(Snapshot(w)), [PauseControl, PausePhase]) == Some(Snapshot(w))
              else Snapshot(w) == old(Snapshot(w))
    {
      if !active || id != jobId {
        return Err(JobNotFound);
      }
      if caller != owner {
        return Err(OwnerMismatch);
      }
      if stage != Enumeration {
        return Err(PauseUnavailable);
      }
      match phase
      case Running =>
        ghost var before := Snapshot(w);
        var accepted := control.RequestPause();
        if !accepted {
          return Err(PauseUnavailable);
        }
        phase := Pausing;
        RunTwo(before, PauseControl, PausePhase);
        return Ok(true);
      case Pausing | Paused => return Ok(false);
      case Resuming | Cancelling => return Err(PauseUnavailable);
    }

    method ResumeForOwner(caller: string, id: nat, ghost w: Worker) returns (r: Result<bool, CommandError>)
      modifies this`phase, control
      ensures r == Err(JobNotFound) <==> !active || id != jobId
      ensures r == Err(OwnerMismatch) <==> active && id == jobId && caller != owner
      // only a pause that has been reached can be ended
      ensures r == Ok(true) <==>
                active && id == jobId && caller == owner && stage == Enumeration && old(phase) == Paused
      ensures r == Ok(false) <==>
                && active && id == jobId && caller == owner && stage == Enumeration && old(phase) in {Resuming, Running}
      ensures r.Ok? || r.error in {JobNotFound, OwnerMismatch, ResumeUnavailable}
      ensures r == Ok(true) ==>
                && phase == Resuming && control.enumerationActive == old(control.enumerationActive)
                && control.directive == (if old(control.directive) == Pause then Continue else old(control.directive))
                && (old(control.directive) == Pause ==> !control.asleep)
      ensures if r == Ok(true) then Run(old(Snapshot(w)), [ResumePhase, ResumeControl]) == Some(Snapshot(w))
              else Snapshot(w) == old(Snapshot(w))
    {
      if !active || id != jobId {
        return Err(JobNotFound);
      }
      if caller != owner {
        return Err(OwnerMismatch);
      }
      if stage != Enumeration {
        return Err(ResumeUnavailable);
      }
      match phase
      case Paused =>
        ghost var before := Snapshot(w);
        phase := Resuming;
        control.RequestResume();
        RunTwo(before, ResumePhase, ResumeControl);
        return Ok(true);
      case Resuming | Running => return Ok(false);
      case Pausing | Cancelling => return Err(ResumeUnavailable);
    }

    method CancelJob(id: nat, ghost w: Worker) returns (r: Result<bool, CommandError>)
      modifies this`phase, control
      ensures old(active) && id == jobId ==>
                && r == Ok(old(phase) != Cancelling)
                && phase == Cancelling && control.directive == Cancel && !control.asleep
                && Run(old(Snapshot(w)), [CancelControl, CancelPhase]) == Some(Snapshot(w))
      ensures !(old(active) && id == jobId) ==>
                Snapshot(w) == old(Snapshot(w)) && r == if lastTerminal == Some(id) then Ok(false) else Err(JobNotFound)
    {
      if active && id == jobId {
        ghost var before := Snapshot(w);
        var told := control.RequestCancel();
        var changed := phase != Cancelling;
        if changed {
          phase := Cancelling;
        }
        RunTwo(before, CancelControl, CancelPhase);
        return Ok(changed);
      }
      return if lastTerminal == Some(id) then Ok(false) else Err(JobNotFound);
    }

    /** `record_worker_phase`. */
    method RecordWorkerPhase(id: nat, reported: Phase)
      modifies this`phase
      ensures phase == if active && id == jobId then Recorded(old(phase), reported) else old(phase)
    {
      if active && id == jobId && phase != Cancelling {
        phase := reported;
      }
    }
  }
}
