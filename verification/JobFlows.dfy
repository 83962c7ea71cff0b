/** What the commands and the worker of a scan achieve: a pause leads to a sleeping worker, a resume back to work, a
    cancellation to the end, and an undisturbed scan through its stages. */
module JobFlows {
  import opened Wrappers
  import opened JobControl

  lemma RunOnwards(j: Job, first: seq<Action>, rest: seq<Action>)
    requires Run(j, first).Some?
    ensures Run(j, first + rest) == Run(Run(j, first).value, rest)
    decreases |rest|
  {
    hide Step;
    if rest == [] {
      assert first + rest == first;
    } else {
      RunOnwards(j, first, rest[..|rest| - 1]);
      assert (first + rest)[..|first + rest| - 1] == first + rest[..|rest| - 1];
    }
  }

  lemma RunThree(j: Job, a: Action, b: Action, c: Action)
    requires Step(j, a).Some? && Step(Step(j, a).value, b).Some?
    ensures Run(j, [a, b, c]) == Step(Step(Step(j, a).value, b).value, c)
  {
    hide Step;
    RunTwo(j, a, b);
    RunStep(j, [a, b], c);
    assert [a, b] + [c] == [a, b, c];
  }

  /** Whenever a scan is shown running in its enumeration, no command is under way and the enumeration can still be
      paused, a pause is accepted and shown; and from the traversal the worker gets to sleep in it, shown as paused, by
      its own steps. */
  lemma PauseLeadsToSleep(actions: seq<Action>)
    requires Run(NewJob(), actions).Some?
    requires var j := Run(NewJob(), actions).value;
             && j.active && j.holder == Nobody && j.stage == Enumeration && j.phase == Running
             && j.control.enumerationActive
    ensures var j := Run(NewJob(), actions).value;
            var paused := Run(j, [PauseControl, PausePhase]);
            && paused.Some? && paused.value.phase == Pausing && paused.value.control.directive == Pause
            && paused.value.active && paused.value.holder == Nobody && paused.value.worker == j.worker
            && (j.worker == Enumerating ==>
                  var asleep := Run(paused.value, [PollPause, ReportPaused, Sleep]);
                  && asleep.Some? && asleep.value.worker == WaitCheck && asleep.value.control.asleep
                  && asleep.value.phase == Paused && asleep.value.active)
  {
    RunsKeepInvariant(NewJob(), actions);
    hide Run;
    var j := Run(NewJob(), actions).value;
    RunTwo(j, PauseControl, PausePhase);
    hide Step;
    if j.worker == Enumerating {
      assert !Run(j, [PauseControl, PausePhase]).value.control.asleep;
      PausedSleeps(Run(j, [PauseControl, PausePhase]).value);
    }
  }

  lemma PausedSleeps(j: Job)
    requires j.active && j.phase == Pausing && j.control.directive == Pause && j.worker == Enumerating
    requires j.holder == Nobody && !j.control.asleep
    ensures var asleep := Run(j, [PollPause, ReportPaused, Sleep]);
            && asleep.Some? && asleep.value.worker == WaitCheck && asleep.value.control.asleep
            && asleep.value.phase == Paused && asleep.value.active
  {
    hide Run;
    RunThree(j, PollPause, ReportPaused, Sleep);
  }

  /** A sleeping worker that is resumed gets back to the traversal and is shown running. */
  lemma ResumeLeadsToWork(actions: seq<Action>)
    requires Run(NewJob(), actions).Some?
    requires var j := Run(NewJob(), actions).value;
             j.active && j.holder == Nobody && j.worker == WaitCheck && j.control.asleep
    ensures var j := Run(NewJob(), actions).value;
            var resumed := Run(j, [ResumePhase, ResumeControl]);
            && resumed.Some? && resumed.value.phase == Resuming && resumed.value.control.directive == Continue
            && var working := Run(resumed.value, [LeaveWait, ReadDirective, ReportResumed]);
               && working.Some? && working.value.worker == Enumerating && working.value.phase == Running
  {
    RunsKeepInvariant(NewJob(), actions);
    hide Run, Step, Invariant;
    SleeperResumes(Run(NewJob(), actions).value);
  }

  lemma SleeperResumes(j: Job)
    requires Invariant(j) && j.active && j.holder == Nobody && j.worker == WaitCheck && j.control.asleep
    ensures var resumed := Run(j, [ResumePhase, ResumeControl]);
            && resumed.Some? && resumed.value.phase == Resuming && resumed.value.control.directive == Continue
            && var working := Run(resumed.value, [LeaveWait, ReadDirective, ReportResumed]);
               && working.Some? && working.value.worker == Enumerating && working.value.phase == Running
  {
    SleepMeansPause(j);
    BlockedMeansPaused(j);
    hide Run, Invariant;
    RunTwo(j, ResumePhase, ResumeControl);
    var resumed := Run(j, [ResumePhase, ResumeControl]).value;
    hide Step;
    ResumedWorks(resumed);
  }

  lemma ResumedWorks(j: Job)
    requires j.active && j.holder == Nobody && j.phase == Resuming && j.worker == WaitCheck
    requires j.control.directive == Continue && !j.control.asleep
    ensures var working := Run(j, [LeaveWait, ReadDirective, ReportResumed]);
            working.Some? && working.value.worker == Enumerating && working.value.phase == Running
  {
    hide Run;
    RunThree(j, LeaveWait, ReadDirective, ReportResumed);
  }

  lemma SleepMeansPause(j: Job)
    requires Invariant(j) && j.control.asleep
    ensures j.control.directive == Pause
  {
  }

  /** An active job can be cancelled whenever no command is under way, wherever its worker is, and from there it
      ends. */
  lemma CancelLeadsToTheEnd(actions: seq<Action>) returns (ending: seq<Action>)
    requires Run(NewJob(), actions).Some?
    requires var j := Run(NewJob(), actions).value; j.active && j.holder == Nobody
    ensures var j := Run(NewJob(), actions).value;
            var cancelled := Run(j, [CancelControl, CancelPhase]);
            && cancelled.Some? && cancelled.value.phase == Cancelling && cancelled.value.control.directive == Cancel
            && !cancelled.value.control.asleep
            && (forall i :: 0 <= i < |ending| ==> Unprompted(ending[i]))
            && Run(cancelled.value, ending).Some? && !Run(cancelled.value, ending).value.active
  {
    RunsKeepInvariant(NewJob(), actions);
    var j := Run(NewJob(), actions).value;
    RunsKeepInvariant(j, [CancelControl, CancelPhase]) by {
      RunTwo(j, CancelControl, CancelPhase);
    }
    hide Run, Invariant;
    RunTwo(j, CancelControl, CancelPhase);
    ending := CancelledJobEnds(Run(j, [CancelControl, CancelPhase]).value);
  }

  function Ordinal(s: Stage): nat {
    match s
    case Enumeration => 0
    case Fingerprinting => 1
    case ExactVerification => 2
    case CaptureTime => 3
    case Finished => 4
  }

  /** Where the stage reports have got to: the next one in order. */
  predicate StagesInOrder(j: Job) { j.worker.InStage? ==> Ordinal(j.worker.stage) == Ordinal(j.stage) + 1 }

  /** Stages are shown one after another: no report goes back or leaves one out. */
  lemma StageAdvances(j: Job, a: Action)
    requires Invariant(j) && StagesInOrder(j) && Step(j, a).Some?
    ensures StagesInOrder(Step(j, a).value)
    ensures var k := Ordinal(Step(j, a).value.stage); k == Ordinal(j.stage) || k == Ordinal(j.stage) + 1
  {
  }

  lemma {:induction false} StagesStayInOrder(actions: seq<Action>)
    requires Run(NewJob(), actions).Some?
    ensures StagesInOrder(Run(NewJob(), actions).value)
  {
    if actions != [] {
      var init := actions[..|actions| - 1];
      StagesStayInOrder(init);
      RunsKeepInvariant(NewJob(), init);
      hide Step, Invariant;
      StageAdvances(Run(NewJob(), init).value, actions[|actions| - 1]);
    }
  }

  /** An undisturbed scan: it enumerates everything, closes the enumeration, reports its stages and ends. */
  function WholeScan(): seq<Action> {
    [EndEnumeration(EnumeratedAll), Action.FinishEnumeration, ReportRunning] + [ReportStage, ReportStage, ReportStage]
    + [ReportStage, FinishJob]
  }

  lemma UndisturbedScanFinishes()
    ensures var j := Run(NewJob(), WholeScan());
            && j.Some? && !j.value.active && j.value.stage == Finished && j.value.phase == Running
            && !j.value.control.enumerationActive
  {
    hide Run;
    var enumerated := [EndEnumeration(EnumeratedAll), Action.FinishEnumeration, ReportRunning];
    var three := [ReportStage, ReportStage, ReportStage];
    RunThree(NewJob(), EndEnumeration(EnumeratedAll), Action.FinishEnumeration, ReportRunning);
    var first := Run(NewJob(), enumerated).value;
    RunThree(first, ReportStage, ReportStage, ReportStage);
    RunOnwards(NewJob(), enumerated, three);
    RunTwo(Run(first, three).value, ReportStage, FinishJob);
    RunOnwards(NewJob(), enumerated + three, [ReportStage, FinishJob]);
  }

  /** A pause that comes too late, after the end of the enumeration but before it was closed, is lifted: the job goes on
      to its next stage and is shown running. */
  lemma LatePauseIsLifted(j: Job)
    requires Invariant(j) && j.active && j.holder == Nobody && j.worker == Ended(EnumeratedAll)
    requires j.control.directive == Pause
    ensures var next := Run(j, [Action.FinishEnumeration, ReportRunning]);
            && next.Some? && next.value.phase == Running && next.value.control.directive == Continue
            && next.value.worker == InStage(Fingerprinting)
  {
    hide Run;
    RunTwo(j, Action.FinishEnumeration, ReportRunning);
  }

  /** A worker that fails on its own ends the job as well. */
  lemma FailedWorkerEnds(j: Job)
    requires j.active && j.holder == Nobody && (j.worker in {Enumerating, Woken} || j.worker.InStage?)
    ensures Run(j, [WorkerFails, FinishJob]).Some? && !Run(j, [WorkerFails, FinishJob]).value.active
  {
    hide Run;
    RunTwo(j, WorkerFails, FinishJob);
  }
}
