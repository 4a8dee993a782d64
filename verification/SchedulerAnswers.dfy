/**
 * Why starts of the worker scheduler (internal/server/scheduler.go) answer as they do, what its lock and its wait
 * group keep apart, and that stop returns.
 */
module SchedulerAnswers {
  import opened Scheduler

  // ---- One step ----

  // A step leaves the other starts as they were, and adds only fresh ones.
  lemma OthersAreKept(w: World, s: Step, i: nat)
    requires Enabled(w, s) ==> !(OneStart(s) && s.i == i)
    ensures i < |w.jobs| ==> i < |Apply(w, s).jobs| && Apply(w, s).jobs[i] == w.jobs[i]
    ensures |w.jobs| <= i < |Apply(w, s).jobs| ==>
      Enabled(w, s) && s.New? && Apply(w, s).jobs[i] == Fresh(s.worker, s.origin)
  {
    hide Moved, JobEnabled, JobStep, CronDone, Fresh;
    if Enabled(w, s) && OneStart(s) {
      OwnIsMoved(w, s);
    }
  }

  lemma OwnIsMoved(w: World, s: Step)
    requires OneStart(s) && s.i < |w.jobs|
    ensures JobStep(w, s, w.jobs[s.i]).jobs == w.jobs[s.i := Moved(w, s, w.jobs[s.i])]
    ensures JobStep(w, s, w.jobs[s.i]).stop == w.stop && JobStep(w, s, w.jobs[s.i]).cronOn == w.cronOn
  {
    hide Moved, SlotsAfter, WgAfter, MutexAfter, WaitingAfter, RunningAfter, LiveAfter, LogAfter;
  }

  // ---- Errors and their causes ----

  // The start is bound to answer with an error.
  predicate Doomed(j: Job) {
    j.pc.Dropped? || j.pc.Refused? || j.pc.Quit? || (j.pc.Ending? && !j.started) || j.failed
  }

  predicate AnotherWaits(w: World, i: nat)
    requires i < |w.jobs|
  {
    exists m | 0 <= m < |w.jobs| :: m != i && InQueue(w.jobs[m]) && w.jobs[m].worker == w.jobs[i].worker
  }

  predicate AnotherRuns(w: World, i: nat)
    requires i < |w.jobs|
  {
    exists m | 0 <= m < |w.jobs| :: m != i && HasClaim(w.jobs[m]) && w.jobs[m].worker == w.jobs[i].worker
  }

  // The cause of an error, where start i takes step s: the workspace cannot be opened, a request finds every slot
  // taken, a scheduled start finds the worker waiting already, the scheduler has stopped, the worker cannot be
  // loaded or has a run going, or its session fails.
  predicate HasCause(max: nat, w: World, s: Step, i: nat)
    requires i < |w.jobs|
  {
    var j := w.jobs[i];
    match j.pc
    case Asked =>
      s.OpenFails? || if j.origin.Request? then w.slots == Limit(max) else AnotherWaits(w, i)
    case Wanting => w.cancelled
    case Queued => w.cancelled && !s.TakeSlot?
    case Slotted => w.cancelled
    case Loading => s.LoadFails? || AnotherRuns(w, i)
    case Claimed => s.SessionFails?
    case _ => false
  }

  predicate Refuses(max: nat, w: World, s: Step, i: nat) {
    Enabled(w, s) && OneStart(s) && s.i == i && i < |w.jobs| && HasCause(max, w, s, i)
  }

  lemma MarksShowOthers(w: World, i: nat)
    requires Valid(w) && i < |w.jobs|
    ensures !InQueue(w.jobs[i]) ==> (w.jobs[i].worker in w.waiting <==> AnotherWaits(w, i))
    ensures !HasClaim(w.jobs[i]) ==> (w.jobs[i].worker in w.running <==> AnotherRuns(w, i))
  {
    hide InQueue, HasClaim, JobValid, CountsValid, ListsValid, MutexValid;
  }

  lemma OwnStepDooms(max: nat, w: World, s: Step)
    requires Valid(w) && w.max == Limit(max) && OneStart(s) && s.i < |w.jobs| && JobEnabled(w, s, w.jobs[s.i])
    ensures Doomed(Moved(w, s, w.jobs[s.i])) <==> Doomed(w.jobs[s.i]) || HasCause(max, w, s, s.i)
  {
    hide Valid, Doomed, HasCause, AnotherWaits, AnotherRuns, Moved, JobEnabled, InQueue, HasClaim;
    MarksShowOthers(w, s.i);
    ValidSpeaks(w, s.i);
    if BeforeRun(s) {
      EarlyStepDooms(max, w, s);
    } else {
      LateStepDooms(max, w, s);
    }
  }

  lemma ValidSpeaks(w: World, i: nat)
    requires Valid(w) && i < |w.jobs|
    ensures w.slots <= w.max && MessagesFit(w.jobs[i]) && AnswerFits(w.jobs[i])
  {
    hide CountsValid, QueueValid, ClaimsValid, ListsValid, MutexValid, MessagesFit, AnswerFits, SlotsFit;
    OneJob(w.jobs, i);
  }

  lemma EarlyStepDooms(max: nat, w: World, s: Step)
    requires OneStart(s) && BeforeRun(s) && s.i < |w.jobs| && JobEnabled(w, s, w.jobs[s.i])
    requires w.slots <= w.max == Limit(max) && MessagesFit(w.jobs[s.i])
    requires !InQueue(w.jobs[s.i]) ==> (w.jobs[s.i].worker in w.waiting <==> AnotherWaits(w, s.i))
    ensures Doomed(Moved(w, s, w.jobs[s.i])) <==> Doomed(w.jobs[s.i]) || HasCause(max, w, s, s.i)
  {
    hide AnotherWaits, AnotherRuns, Limit;
  }

  lemma LateStepDooms(max: nat, w: World, s: Step)
    requires OneStart(s) && !BeforeRun(s) && s.i < |w.jobs| && JobEnabled(w, s, w.jobs[s.i])
    requires MessagesFit(w.jobs[s.i]) && AnswerFits(w.jobs[s.i])
    requires !HasClaim(w.jobs[s.i]) ==> (w.jobs[s.i].worker in w.running <==> AnotherRuns(w, s.i))
    ensures Doomed(Moved(w, s, w.jobs[s.i])) <==> Doomed(w.jobs[s.i]) || HasCause(max, w, s, s.i)
  {
    hide AnotherWaits, AnotherRuns, Limit;
  }

  lemma StepDooms(max: nat, w: World, s: Step, i: nat)
    requires Valid(w) && w.max == Limit(max)
    ensures i < |Apply(w, s).jobs| && Doomed(Apply(w, s).jobs[i]) <==>
            (i < |w.jobs| && Doomed(w.jobs[i])) || Refuses(max, w, s, i)
  {
    hide Valid, HasCause, Moved, JobEnabled, Doomed, CronDone, JobStep;
    if Enabled(w, s) && OneStart(s) && s.i == i {
      OwnStepDooms(max, w, s);
      OwnIsMoved(w, s);
    } else {
      OthersAreKept(w, s, i);
      if s.New? {
        FreshIsHopeful(s.worker, s.origin);
      }
      hide Apply, Enabled, Fresh;
    }
  }

  lemma FreshIsHopeful(worker: Worker, origin: Origin)
    ensures !Doomed(Fresh(worker, origin))
  {
  }

  ghost predicate WasRefused(max: nat, steps: seq<Step>, i: nat) {
    exists k | 0 <= k < |steps| :: Refuses(max, Run(max, steps[..k]), steps[k], i)
  }

  lemma RefusedEarlier(max: nat, steps: seq<Step>, i: nat)
    requires steps != []
    ensures var n := |steps| - 1;
      WasRefused(max, steps, i) <==>
      WasRefused(max, steps[..n], i) || Refuses(max, Run(max, steps[..n]), steps[n], i)
  {
    hide Refuses, Run;
    var n := |steps| - 1;
    var fewer := steps[..n];
    forall k | 0 <= k < n ensures fewer[..k] == steps[..k] && fewer[k] == steps[k] {
    }
    if WasRefused(max, fewer, i) {
      var k :| 0 <= k < n && Refuses(max, Run(max, fewer[..k]), fewer[k], i);
      assert Refuses(max, Run(max, steps[..k]), steps[k], i);
    }
    if WasRefused(max, steps, i) {
      var k :| 0 <= k <= n && Refuses(max, Run(max, steps[..k]), steps[k], i);
      assert k < n ==> Refuses(max, Run(max, fewer[..k]), fewer[k], i);
    }
  }

  lemma {:induction false} DoomedIfRefused(max: nat, steps: seq<Step>, i: nat)
    ensures (i < |Run(max, steps).jobs| && Doomed(Run(max, steps).jobs[i])) <==> WasRefused(max, steps, i)
  {
    hide Refuses, Doomed, Apply, Valid, WasRefused;
    if steps == [] {
      NothingRefused(max, i);
    } else {
      var n := |steps| - 1;
      DoomedIfRefused(max, steps[..n], i);
      RunsAreValid(max, steps[..n]);
      StepDooms(max, Run(max, steps[..n]), steps[n], i);
      RefusedEarlier(max, steps, i);
    }
  }

  lemma NothingRefused(max: nat, i: nat)
    ensures |Run(max, []).jobs| == 0 && !WasRefused(max, [], i)
  {
  }

  // A start that has returned failed exactly if it met one of the causes on its way, and otherwise has its run.
  lemma ErrorsHaveCauses(max: nat, steps: seq<Step>, i: nat)
    requires var w := Run(max, steps); i < |w.jobs| && w.jobs[i].answer != NoneYet
    ensures Run(max, steps).jobs[i].answer.GotError? <==>
            exists k | 0 <= k < |steps| :: Refuses(max, Run(max, steps[..k]), steps[k], i)
  {
    hide Run, CountsValid, QueueValid, ClaimsValid, ListsValid, MutexValid, Refuses, SlotsFit;
    DoomedIfRefused(max, steps, i);
    RunsAreValid(max, steps);
    OneJob(Run(max, steps).jobs, i);
  }

  // ---- Who waits ----

  predicate WaitsFit(w: World, i: nat) {
    i < |w.jobs| && InQueue(w.jobs[i]) ==> !w.jobs[i].origin.Request?
  }

  lemma StepWaits(w: World, s: Step, i: nat)
    requires WaitsFit(w, i)
    ensures WaitsFit(Apply(w, s), i)
  {
    hide JobStep, JobEnabled, CronDone;
    if Enabled(w, s) && OneStart(s) && s.i == i {
      MovedWaits(w, s);
    } else {
      OthersAreKept(w, s, i);
      hide Apply, Enabled;
    }
  }

  lemma MovedWaits(w: World, s: Step)
    requires OneStart(s) && s.i < |w.jobs| && JobEnabled(w, s, w.jobs[s.i]) && WaitsFit(w, s.i)
    ensures WaitsFit(JobStep(w, s, w.jobs[s.i]), s.i)
  {
    hide SlotsAfter, WgAfter, MutexAfter, WaitingAfter, RunningAfter, LiveAfter, LogAfter;
  }

  // A request for a run never waits for a slot.
  lemma {:induction false} RequestsNeverWait(max: nat, steps: seq<Step>, i: nat)
    requires var w := Run(max, steps); i < |w.jobs| && w.jobs[i].origin.Request?
    ensures !InQueue(Run(max, steps).jobs[i])
  {
    hide InQueue, Run;
    AllWaitsFit(max, steps, i);
  }

  lemma {:induction false} AllWaitsFit(max: nat, steps: seq<Step>, i: nat)
    ensures WaitsFit(Run(max, steps), i)
  {
    hide WaitsFit, Apply;
    if steps == [] {
      NobodyWaits(max, i);
    } else {
      AllWaitsFit(max, steps[..|steps| - 1], i);
      StepWaits(Run(max, steps[..|steps| - 1]), steps[|steps| - 1], i);
    }
  }

  lemma NobodyWaits(max: nat, i: nat)
    ensures WaitsFit(Start(max), i)
  {
  }

  // ---- The lock and the wait group ----

  // While one start holds the lock, no step but its own changes what the lock guards.
  lemma LockExcludes(max: nat, steps: seq<Step>, s: Step)
    requires var w := Run(max, steps); w.mutex != -1 && !(OneStart(s) && s.i == w.mutex)
    ensures var (w, w') := (Run(max, steps), Apply(Run(max, steps), s));
      w'.mutex == w.mutex && w'.waiting == w.waiting && w'.live == w.live && w'.stop == w.stop
      && (w'.cancelled != w.cancelled ==> s.CancelBase?)
  {
    hide Run, CountsValid, QueueValid, ClaimsValid, ListsValid, JobsValid, CronDone, JobEnabled, HoldsMutex;
    hide Moved, SlotsAfter, WgAfter, MutexAfter, WaitingAfter, RunningAfter, LiveAfter, LogAfter;
    RunsAreValid(max, steps);
    var w := Run(max, steps);
    if Enabled(w, s) && OneStart(s) {
      OutsiderLeavesBe(w, s);
    }
  }

  lemma OutsiderLeavesBe(w: World, s: Step)
    requires OneStart(s) && s.i < |w.jobs| && JobEnabled(w, s, w.jobs[s.i])
    requires w.mutex != -1 && !HoldsMutex(w.jobs[s.i])
    ensures MutexAfter(w, s) == w.mutex && WaitingAfter(w, s, w.jobs[s.i]) == w.waiting && LiveAfter(w, s) == w.live
  {
  }

  lemma StepAddsNothing(w: World, s: Step)
    requires Valid(w) && w.stop != NotStopped
    ensures Apply(w, s).stop != NotStopped && Apply(w, s).wg <= w.wg
  {
    hide JobsValid, CountsValid, QueueValid, ClaimsValid, ListsValid, HoldsMutex, JobEnabled, CronDone;
    hide Moved, SlotsAfter, WgAfter, MutexAfter, WaitingAfter, RunningAfter, LiveAfter, LogAfter;
    if Enabled(w, s) && OneStart(s) {
      OutsiderAddsNothing(w, s);
    }
  }

  lemma OutsiderAddsNothing(w: World, s: Step)
    requires OneStart(s) && s.i < |w.jobs| && JobEnabled(w, s, w.jobs[s.i]) && !HoldsMutex(w.jobs[s.i])
    ensures WgAfter(w, s) <= w.wg
  {
  }

  // Once stop has had the lock, nothing is added to the wait group: its wait never races an addition.
  lemma {:induction false} NothingIsAddedAfterStop(max: nat, before: seq<Step>, after: seq<Step>)
    requires Run(max, before).stop != NotStopped
    ensures var end := RunFrom(Run(max, before), after);
      Valid(end) && end.stop != NotStopped && end.wg <= Run(max, before).wg
  {
    hide Run, Apply, Valid;
    RunsAreValid(max, before);
    if after != [] {
      var n := |after| - 1;
      NothingIsAddedAfterStop(max, before, after[..n]);
      StepAddsNothing(RunFrom(Run(max, before), after[..n]), after[n]);
      StepKeeps(RunFrom(Run(max, before), after[..n]), after[n]);
    }
  }

  // ---- Stop ----

  predicate CronQuiet(w: World) {
    w.stop.CronStopped? || w.stop.Stopped? ==> CronDone(w.jobs)
  }

  lemma OriginStays(w: World, s: Step)
    requires OneStart(s) && s.i < |w.jobs|
    ensures Moved(w, s, w.jobs[s.i]).origin == w.jobs[s.i].origin
  {
  }

  lemma AnswerStays(w: World, s: Step)
    requires OneStart(s) && s.i < |w.jobs|
    ensures w.jobs[s.i].answer != NoneYet ==> Moved(w, s, w.jobs[s.i]).answer != NoneYet
  {
  }

  lemma OwnStepStaysQuiet(w: World, s: Step)
    requires OneStart(s) && s.i < |w.jobs| && JobEnabled(w, s, w.jobs[s.i]) && CronQuiet(w)
    ensures CronQuiet(JobStep(w, s, w.jobs[s.i]))
  {
    hide JobEnabled, JobStep, Moved;
    OriginStays(w, s);
    AnswerStays(w, s);
    OwnIsMoved(w, s);
  }

  lemma SharedStepStaysQuiet(w: World, s: Step)
    requires Enabled(w, s) && !OneStart(s) && CronQuiet(w) && (w.stop.CronStopped? || w.stop.Stopped? ==> !w.cronOn)
    ensures CronQuiet(Apply(w, s))
  {
    hide JobEnabled, JobStep;
  }

  lemma StepStaysQuiet(w: World, s: Step)
    requires Valid(w) && CronQuiet(w)
    ensures CronQuiet(Apply(w, s))
  {
    hide JobsValid, CountsValid, QueueValid, ClaimsValid, ListsValid, MutexValid, JobEnabled, JobStep, CronQuiet;
    if Enabled(w, s) && OneStart(s) {
      OwnStepStaysQuiet(w, s);
    } else if Enabled(w, s) {
      hide Apply;
      SharedStepStaysQuiet(w, s);
    }
  }

  lemma {:induction false} RunsAreQuiet(max: nat, steps: seq<Step>)
    ensures CronQuiet(Run(max, steps))
  {
    hide CronQuiet, Apply, Valid;
    if steps == [] {
      StartIsQuiet(max);
    } else {
      RunsAreQuiet(max, steps[..|steps| - 1]);
      RunsAreValid(max, steps[..|steps| - 1]);
      StepStaysQuiet(Run(max, steps[..|steps| - 1]), steps[|steps| - 1]);
    }
  }

  lemma StartIsQuiet(max: nat)
    ensures CronQuiet(Start(max))
  {
  }

  lemma {:induction false} NoMoreCron(max: nat, before: seq<Step>, after: seq<Step>, i: nat)
    requires Run(max, before).stop == Stopped && |Run(max, before).jobs| <= i
    ensures var end := RunFrom(Run(max, before), after); i < |end.jobs| ==> !end.jobs[i].origin.Cron?
  {
    hide Run, Apply, Valid, JobEnabled, CronDone;
    if after != [] {
      var n := |after| - 1;
      NoMoreCron(max, before, after[..n], i);
      StopIsFinal(max, before, after[..n]);
      CronIsOff(RunFrom(Run(max, before), after[..n]));
      StepMakesNoCron(RunFrom(Run(max, before), after[..n]), after[n], i);
    }
  }

  lemma CronIsOff(w: World)
    requires Valid(w) && w.stop == Stopped
    ensures !w.cronOn
  {
    hide JobsValid, CountsValid, QueueValid, ClaimsValid, ListsValid, MutexValid;
  }

  lemma StepMakesNoCron(w: World, s: Step, i: nat)
    requires !w.cronOn && (i < |w.jobs| ==> !w.jobs[i].origin.Cron?)
    ensures i < |Apply(w, s).jobs| ==> !Apply(w, s).jobs[i].origin.Cron?
  {
    hide JobEnabled, JobStep, CronDone, Moved;
    if Enabled(w, s) && OneStart(s) && s.i == i {
      OriginStays(w, s);
      OwnIsMoved(w, s);
    } else {
      OthersAreKept(w, s, i);
      FreshIsNotCron(w, s);
      hide Apply, Enabled, Fresh;
    }
  }

  lemma FreshIsNotCron(w: World, s: Step)
    requires !w.cronOn
    ensures Enabled(w, s) && s.New? ==> !Fresh(s.worker, s.origin).origin.Cron?
  {
    hide JobEnabled, CronDone;
  }

  // When stop has returned, every start that cron made has returned too, and cron makes no more.
  lemma CronHasEnded(max: nat, before: seq<Step>, after: seq<Step>)
    requires Run(max, before).stop == Stopped
    ensures var (w, end) := (Run(max, before), RunFrom(Run(max, before), after));
      forall i | 0 <= i < |end.jobs| && end.jobs[i].origin.Cron? :: i < |w.jobs| && end.jobs[i].answer != NoneYet
  {
    hide Run, RunFrom, Valid;
    RunFromIsRun(max, before, after);
    RunsAreQuiet(max, before + after);
    StopIsFinal(max, before, after);
    var (w, end) := (Run(max, before), RunFrom(Run(max, before), after));
    forall i | 0 <= i < |end.jobs| && end.jobs[i].origin.Cron? ensures i < |w.jobs| {
      if i >= |w.jobs| {
        NoMoreCron(max, before, after, i);
      }
    }
  }

  // What stop does next.
  function NextOfStop(stop: StopPc): Step {
    match stop
    case NotStopped => StopSweep
    case Swept => StopCronOff
    case CronOff => StopCron
    case _ => StopWait
  }

  function StopLeft(stop: StopPc): nat {
    match stop
    case NotStopped => 4
    case Swept => 3
    case CronOff => 2
    case CronStopped => 1
    case Stopped => 0
  }

  lemma {:induction false} SettledIsUntracked(jobs: seq<Job>)
    requires forall i | 0 <= i < |jobs| :: !Unfinished(jobs[i])
    ensures SumTracked(jobs) == 0 && CronDone(jobs)
  {
    if jobs != [] {
      SettledIsUntracked(jobs[..|jobs| - 1]);
      assert !Unfinished(jobs[|jobs| - 1]);
    }
  }

  // Stop goes on whenever the starts have nothing left to do, and each of its steps brings it nearer to returning;
  // its first needs only the lock.
  lemma StopGoesOn(max: nat, steps: seq<Step>)
    requires var w := Run(max, steps); w.stop != Stopped
    ensures var w := Run(max, steps);
      (exists k | 0 <= k < |w.jobs| :: CanGoOn(w, k)) || Enabled(w, NextOfStop(w.stop))
    ensures var w := Run(max, steps);
      Enabled(w, NextOfStop(w.stop)) ==> StopLeft(Apply(w, NextOfStop(w.stop)).stop) == StopLeft(w.stop) - 1
    ensures var w := Run(max, steps); w.stop == NotStopped && w.mutex == -1 ==> Enabled(w, StopSweep)
  {
    hide Run, CanGoOn, Unfinished, SumTracked, CronDone, JobEnabled, QueueValid, ClaimsValid, ListsValid, JobsValid;
    RunsAreValid(max, steps);
    var w := Run(max, steps);
    if i :| 0 <= i < |w.jobs| && Unfinished(w.jobs[i]) {
      NothingIsStuck(max, steps, i);
    } else {
      SettledIsUntracked(w.jobs);
      if w.mutex != -1 {
        HolderIsUnfinished(w);
      }
    }
  }

  lemma HolderIsUnfinished(w: World)
    requires Valid(w) && w.mutex != -1
    ensures 0 <= w.mutex < |w.jobs| && Unfinished(w.jobs[w.mutex])
  {
    hide CountsValid, QueueValid, ClaimsValid, ListsValid, JobsValid;
  }

  // Cancelling is always possible, and lets go of everyone waiting for a slot.
  lemma CancellingReleases(w: World, i: nat)
    requires i < |w.jobs| && w.jobs[i].pc.Queued?
    ensures Enabled(Apply(w, CancelBase), GiveUp(i))
    ensures Enabled(w, StopSweep) ==> Enabled(Apply(w, StopSweep), GiveUp(i))
  {
    hide JobStep, CronDone;
  }

  // The workspace, the worker and the session may each fail a start, which is then bound to answer with an error and
  // leaves its worker free.
  lemma AnythingMayFail(w: World, i: nat)
    requires i < |w.jobs| && !w.jobs[i].started
    ensures w.jobs[i].pc.Asked? ==> Doomed(Apply(w, OpenFails(i)).jobs[i])
    ensures w.jobs[i].pc.Loading? ==> Doomed(Apply(w, LoadFails(i)).jobs[i])
    ensures w.jobs[i].pc.Claimed? ==>
      Doomed(Apply(w, SessionFails(i)).jobs[i]) && w.jobs[i].worker !in Apply(w, SessionFails(i)).running
  {
  }
}
