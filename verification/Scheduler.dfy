/**
 * The worker scheduler (internal/server/scheduler.go) and the part of a run it relies on
 * (internal/app/workers.go), as the steps of any number of starts, their runs, and one stop.
 */
module Scheduler {
  type Worker = nat

  // Who called start: an API request, cron, or the catch-up of a missed run.
  datatype Origin = Request | Cron | CatchUp

  datatype Pc =
    | Wanting     // a catch-up about to be tracked
    | Registering // it found the scheduler going, and holds the mutex
    | Asked       // start called
    | Queued      // marked as waiting for a slot
    | Granted     // got a slot; the mark still to be cleared
    | Dropped     // gave up on a slot; the mark still to be cleared
    | Slotted     // holds a slot, about to be tracked
    | Tracking    // found the scheduler going, and holds the mutex
    | Refused     // found it stopped; the slot still to be given back
    | Loading     // the run's goroutine: reading the worker
    | Claimed     // marked as the worker's run
    | Running     // announced to the caller, and listed as live
    | Recorded    // over, and appended to the run log
    | Ending      // RunWorker returned; the mark cleared
    | Finishing   // the Finished event added
    | Unlisted    // no longer live, or failed; the slot still held
    | Freed       // the slot given back; still counted by the wait group
    | Over
    | Quit        // start returned without a goroutine

  datatype Answer = NoneYet | GotRun | GotError

  // taken and freed count the slots a start took and gave back; started and failed are the messages its
  // goroutine sent; closed says that a catch-up's own goroutine has ended.
  datatype Job = Job(worker: Worker, origin: Origin, pc: Pc, taken: nat, freed: nat,
                     started: bool, failed: bool, answer: Answer, closed: bool, logged: bool)

  datatype StopPc = NotStopped | Swept | CronOff | CronStopped | Stopped

  // mutex is the start that holds the scheduler's lock, when one holds it across a step.
  datatype World = World(max: nat, slots: nat, wg: int, cancelled: bool, mutex: int, waiting: set<Worker>,
                         running: set<Worker>,
                         live: set<nat>, log: set<nat>, cronOn: bool, stop: StopPc, jobs: seq<Job>)

  datatype Step =
    | New(worker: Worker, origin: Origin)
    | CheckCatchUp(i: nat)
    | AddCatchUp(i: nat)
    | OpenFails(i: nat)
    | TrySlot(i: nat)
    | Mark(i: nat)
    | TakeSlot(i: nat)
    | GiveUp(i: nat)
    | Unmark(i: nat)
    | CheckTrack(i: nat)
    | AddTrack(i: nat)
    | ReturnSlot(i: nat)
    | LoadFails(i: nat)
    | Claim(i: nat)
    | SessionFails(i: nat)
    | Announce(i: nat)
    | Record(i: nat, ok: bool)
    | Unclaim(i: nat)
    | AddFinished(i: nat)
    | Unlist(i: nat)
    | SayFailed(i: nat)
    | FreeSlot(i: nat)
    | WgDone(i: nat)
    | Return(i: nat)
    | CloseCatchUp(i: nat)
    | CancelBase
    | StopSweep   // cancel under the mutex
    | StopCronOff // cron starts no more jobs
    | StopCron    // and its jobs have ended
    | StopWait

  function Start(max: nat): World {
    World(if max < 1 then 1 else max, 0, 0, false, -1, {}, {}, {}, {}, true, NotStopped, [])
  }

  function Fresh(worker: Worker, origin: Origin): Job {
    Job(worker, origin, if origin.CatchUp? then Wanting else Asked, 0, 0, false, false, NoneYet, false, false)
  }

  predicate InQueue(j: Job) { j.pc.Queued? || j.pc.Granted? || j.pc.Dropped? }

  predicate HasClaim(j: Job) { j.pc.Claimed? || j.pc.Running? || j.pc.Recorded? }

  predicate IsLive(j: Job) { j.pc.Running? || j.pc.Recorded? || (j.pc.Ending? && j.started) || j.pc.Finishing? }

  // The start's goroutine exists.
  predicate Alive(j: Job) {
    j.pc.Loading? || j.pc.Claimed? || j.pc.Running? || j.pc.Recorded? || j.pc.Ending? || j.pc.Finishing? ||
    j.pc.Unlisted? || j.pc.Freed?
  }

  predicate HoldsMutex(j: Job) { j.pc.Tracking? || j.pc.Registering? }

  predicate Settled(j: Job) { j.pc.Over? || j.pc.Quit? }

  predicate CronDone(jobs: seq<Job>) {
    forall i | 0 <= i < |jobs| :: jobs[i].origin.Cron? ==> jobs[i].answer != NoneYet
  }

  predicate Enabled(w: World, s: Step) {
    match s
    case New(_, origin) => origin.Cron? ==> w.cronOn
    case CancelBase => true
    case StopSweep => w.stop == NotStopped && w.mutex == -1
    case StopCronOff => w.stop == Swept
    case StopCron => w.stop == CronOff && CronDone(w.jobs)
    case StopWait => w.stop == CronStopped && w.wg == 0
    case _ => s.i < |w.jobs| && JobEnabled(w, s, w.jobs[s.i])
  }

  predicate JobEnabled(w: World, s: Step, j: Job) {
    match s
    case CheckCatchUp(_) => j.pc.Wanting? && w.mutex == -1
    case AddCatchUp(_) => j.pc.Registering?
    case OpenFails(_) => j.pc.Asked?
    case TrySlot(_) => j.pc.Asked? && j.origin.Request?
    case Mark(_) => j.pc.Asked? && !j.origin.Request? && w.mutex == -1
    case TakeSlot(_) => j.pc.Queued? && w.slots < w.max
    case GiveUp(_) => j.pc.Queued? && w.cancelled
    case Unmark(_) => (j.pc.Granted? || j.pc.Dropped?) && w.mutex == -1
    case CheckTrack(_) => j.pc.Slotted? && w.mutex == -1
    case AddTrack(_) => j.pc.Tracking?
    case ReturnSlot(_) => j.pc.Refused?
    case LoadFails(_) => j.pc.Loading?
    case Claim(_) => j.pc.Loading?
    case SessionFails(_) => j.pc.Claimed?
    case Announce(_) => j.pc.Claimed? && w.mutex == -1
    case Record(_, _) => j.pc.Running?
    case Unclaim(_) => j.pc.Recorded?
    case AddFinished(_) => j.pc.Ending? && j.started
    case SayFailed(_) => j.pc.Ending? && !j.started
    case Unlist(_) => j.pc.Finishing? && w.mutex == -1
    case FreeSlot(_) => j.pc.Unlisted?
    case WgDone(_) => j.pc.Freed?
    case Return(_) => j.answer.NoneYet? && (j.started || j.failed)
    case CloseCatchUp(_) => j.origin.CatchUp? && j.answer != NoneYet && !j.closed
    case _ => false
  }

  function Apply(w: World, s: Step): World {
    if !Enabled(w, s) then w
    else match s
      case New(worker, origin) => w.(jobs := w.jobs + [Fresh(worker, origin)])
      case CancelBase => w.(cancelled := true)
      case StopSweep => w.(cancelled := true, stop := Swept)
      case StopCronOff => w.(stop := CronOff, cronOn := false)
      case StopCron => w.(stop := CronStopped)
      case StopWait => w.(stop := Stopped)
      case _ => JobStep(w, s, w.jobs[s.i])
  }

  // A step of one start, as opposed to a new one, an outside cancellation or a step of stop.
  predicate OneStart(s: Step) {
    !s.New? && !s.CancelBase? && !s.StopSweep? && !s.StopCronOff? && !s.StopCron? && !s.StopWait?
  }

  // What a step makes of its start.
  function Moved(w: World, s: Step, j: Job): Job {
    match s
    case CheckCatchUp(_) =>
      if w.cancelled then j.(pc := Quit, answer := GotError, closed := true) else j.(pc := Registering)
    case AddCatchUp(_) => j.(pc := Asked)
    case OpenFails(_) => j.(pc := Quit, answer := GotError)
    case TrySlot(_) =>
      if w.slots < w.max then j.(pc := Slotted, taken := j.taken + 1) else j.(pc := Quit, answer := GotError)
    case Mark(_) => if j.worker in w.waiting then j.(pc := Quit, answer := GotError) else j.(pc := Queued)
    case TakeSlot(_) => j.(pc := Granted, taken := j.taken + 1)
    case GiveUp(_) => j.(pc := Dropped)
    case Unmark(_) => if j.pc.Granted? then j.(pc := Slotted) else j.(pc := Quit, answer := GotError)
    case CheckTrack(_) => j.(pc := if w.cancelled then Refused else Tracking)
    case AddTrack(_) => j.(pc := Loading)
    case ReturnSlot(_) => j.(pc := Quit, freed := j.freed + 1, answer := GotError)
    case LoadFails(_) => j.(pc := Ending)
    case Claim(_) => j.(pc := if j.worker in w.running then Ending else Claimed)
    case SessionFails(_) => j.(pc := Ending)
    case Announce(_) => j.(pc := Running, started := true)
    case Record(_, ok) => j.(pc := Recorded, logged := ok)
    case Unclaim(_) => j.(pc := Ending)
    case AddFinished(_) => j.(pc := Finishing)
    case SayFailed(_) => j.(pc := Unlisted, failed := true)
    case Unlist(_) => j.(pc := Unlisted)
    case FreeSlot(_) => j.(pc := Freed, freed := j.freed + 1)
    case WgDone(_) => j.(pc := Over)
    case Return(_) => j.(answer := if j.started then GotRun else GotError)
    case CloseCatchUp(_) => j.(closed := true)
    case _ => j
  }

  // And of each thing the starts share.
  function SlotsAfter(w: World, s: Step): nat {
    if (s.TrySlot? && w.slots < w.max) || s.TakeSlot? then w.slots + 1
    else if (s.ReturnSlot? || s.FreeSlot?) && w.slots > 0 then w.slots - 1
    else w.slots
  }

  function WgAfter(w: World, s: Step): int {
    if s.AddCatchUp? || s.AddTrack? then w.wg + 1 else if s.WgDone? || s.CloseCatchUp? then w.wg - 1 else w.wg
  }

  function MutexAfter(w: World, s: Step): int {
    match s
    case CheckCatchUp(i) => if w.cancelled then w.mutex else i
    case CheckTrack(i) => if w.cancelled then w.mutex else i
    case AddCatchUp(_) => -1
    case AddTrack(_) => -1
    case _ => w.mutex
  }

  function WaitingAfter(w: World, s: Step, j: Job): set<Worker> {
    if s.Mark? then w.waiting + {j.worker} else if s.Unmark? then w.waiting - {j.worker} else w.waiting
  }

  function RunningAfter(w: World, s: Step, j: Job): set<Worker> {
    if s.Claim? then w.running + {j.worker}
    else if s.SessionFails? || s.Unclaim? then w.running - {j.worker}
    else w.running
  }

  function LiveAfter(w: World, s: Step): set<nat> {
    match s
    case Announce(i) => w.live + {i}
    case Unlist(i) => w.live - {i}
    case _ => w.live
  }

  function LogAfter(w: World, s: Step): set<nat> {
    match s
    case Record(i, ok) => if ok then w.log + {i} else w.log
    case _ => w.log
  }

  function JobStep(w: World, s: Step, j: Job): World
    requires OneStart(s)
    requires s.i < |w.jobs|
  {
    World(w.max, SlotsAfter(w, s), WgAfter(w, s), w.cancelled, MutexAfter(w, s), WaitingAfter(w, s, j),
          RunningAfter(w, s, j),
          LiveAfter(w, s), LogAfter(w, s), w.cronOn, w.stop, w.jobs[s.i := Moved(w, s, j)])
  }

  function Run(max: nat, steps: seq<Step>): World {
    if steps == [] then Start(max) else Apply(Run(max, steps[..|steps| - 1]), steps[|steps| - 1])
  }

  // ---- What a start may have done by each point ----

  predicate SlotsFit(j: Job) {
    match j.pc
    case Wanting => j.taken == j.freed == 0
    case Registering => j.taken == j.freed == 0
    case Asked => j.taken == j.freed == 0
    case Queued => j.taken == j.freed == 0
    case Dropped => j.taken == j.freed == 0
    case Freed => j.taken == j.freed == 1
    case Over => j.taken == j.freed == 1
    case Quit => j.taken == j.freed <= 1
    case _ => j.taken == 1 && j.freed == 0
  }

  predicate MessagesFit(j: Job) {
    match j.pc
    case Running => j.started && !j.failed
    case Recorded => j.started && !j.failed
    case Ending => !j.failed
    case Finishing => j.started && !j.failed
    case Unlisted => j.started != j.failed
    case Freed => j.started != j.failed
    case Over => j.started != j.failed
    case _ => !j.started && !j.failed
  }

  predicate AnswerFits(j: Job) {
    match j.answer
    case NoneYet => !j.pc.Quit?
    case GotRun => j.started
    case GotError => j.failed || j.pc.Quit?
  }

  predicate LogFits(j: Job) {
    j.logged ==> j.started && !j.pc.Running?
  }

  predicate ClosedFits(j: Job) {
    j.closed ==> j.answer != NoneYet && j.origin.CatchUp?
  }

  predicate JobValid(j: Job) {
    SlotsFit(j) && MessagesFit(j) && AnswerFits(j) && LogFits(j) && ClosedFits(j)
    && ((j.pc.Wanting? || j.pc.Registering?) ==> j.origin.CatchUp?)
  }

  // ---- Counts ----

  function Slots(j: Job): int { j.taken - j.freed }

  // What the wait group counts a start for: its run, and a catch-up's own goroutine.
  function Tracked(j: Job): int {
    (if Alive(j) then 1 else 0) +
      if j.origin.CatchUp? && !j.pc.Wanting? && !j.pc.Registering? && !j.closed then 1 else 0
  }

  function SumSlots(jobs: seq<Job>): int {
    if jobs == [] then 0 else SumSlots(jobs[..|jobs| - 1]) + Slots(jobs[|jobs| - 1])
  }

  function SumTracked(jobs: seq<Job>): int {
    if jobs == [] then 0 else SumTracked(jobs[..|jobs| - 1]) + Tracked(jobs[|jobs| - 1])
  }

  lemma {:induction false} SumsUpdate(jobs: seq<Job>, i: nat, j: Job)
    requires i < |jobs|
    ensures SumSlots(jobs[i := j]) == SumSlots(jobs) - Slots(jobs[i]) + Slots(j)
    ensures SumTracked(jobs[i := j]) == SumTracked(jobs) - Tracked(jobs[i]) + Tracked(j)
  {
    hide Slots, Tracked;
    var n := |jobs| - 1;
    if i == n {
      assert jobs[i := j][..n] == jobs[..n];
    } else {
      assert jobs[i := j][..n] == jobs[..n][i := j];
      SumsUpdate(jobs[..n], i, j);
    }
  }

  lemma SumsMore(jobs: seq<Job>, j: Job)
    ensures SumSlots(jobs + [j]) == SumSlots(jobs) + Slots(j)
    ensures SumTracked(jobs + [j]) == SumTracked(jobs) + Tracked(j)
  {
    assert (jobs + [j])[..|jobs|] == jobs;
  }

  predicate JobsValid(jobs: seq<Job>) {
    forall i | 0 <= i < |jobs| :: JobValid(jobs[i])
  }

  lemma {:induction false} SumsAtLeast(jobs: seq<Job>, i: nat)
    requires JobsValid(jobs) && i < |jobs|
    ensures SumSlots(jobs) >= Slots(jobs[i]) >= 0 && SumTracked(jobs) >= Tracked(jobs[i]) >= 0
  {
    hide JobValid, Tracked;
    OneJob(jobs, i);
    OneJob(jobs, |jobs| - 1);
    JobNatural(jobs[i]);
    JobNatural(jobs[|jobs| - 1]);
    if i < |jobs| - 1 {
      SumsAtLeast(jobs[..|jobs| - 1], i);
    } else if i > 0 {
      SumsAtLeast(jobs[..|jobs| - 1], 0);
    }
  }

  lemma OneJob(jobs: seq<Job>, i: nat)
    requires JobsValid(jobs) && i < |jobs|
    ensures JobValid(jobs[i])
  {
  }

  lemma JobNatural(j: Job)
    requires JobValid(j)
    ensures Slots(j) >= 0 && Tracked(j) >= 0
  {
  }

  // ---- The invariant ----

  predicate CountsValid(jobs: seq<Job>, slots: nat, wg: int) {
    slots == SumSlots(jobs) && wg == SumTracked(jobs)
  }

  // The marks name exactly the workers of the starts in that state, one each.
  predicate QueueValid(jobs: seq<Job>, waiting: set<Worker>) {
    && (forall i | 0 <= i < |jobs| && InQueue(jobs[i]) :: jobs[i].worker in waiting)
    && (forall i, k | 0 <= i < k < |jobs| && InQueue(jobs[i]) && InQueue(jobs[k]) :: jobs[i].worker != jobs[k].worker)
    && (forall x | x in waiting :: exists i | 0 <= i < |jobs| :: InQueue(jobs[i]) && jobs[i].worker == x)
  }

  predicate ClaimsValid(jobs: seq<Job>, running: set<Worker>) {
    && (forall i | 0 <= i < |jobs| && HasClaim(jobs[i]) :: jobs[i].worker in running)
    && (forall i, k | 0 <= i < k < |jobs| && HasClaim(jobs[i]) && HasClaim(jobs[k]) :: jobs[i].worker != jobs[k].worker)
    && (forall x | x in running :: exists i | 0 <= i < |jobs| :: HasClaim(jobs[i]) && jobs[i].worker == x)
  }

  ghost predicate ListsValid(jobs: seq<Job>, live: set<nat>, log: set<nat>) {
    && (forall i: nat :: i in live <==> i < |jobs| && IsLive(jobs[i]))
    && (forall i: nat :: i in log <==> i < |jobs| && jobs[i].logged)
  }

  predicate MutexValid(jobs: seq<Job>, mutex: int) {
    forall i | 0 <= i < |jobs| :: HoldsMutex(jobs[i]) <==> i == mutex
  }

  predicate StopValid(w: World) {
    && (w.stop != NotStopped ==> w.cancelled && w.mutex == -1)
    && (w.stop != NotStopped && w.stop != Swept ==> !w.cronOn)
    && (w.stop == Stopped ==> w.wg == 0)
    && (-1 <= w.mutex < |w.jobs|)
  }

  ghost predicate Valid(w: World) {
    && w.slots <= w.max && JobsValid(w.jobs) && CountsValid(w.jobs, w.slots, w.wg)
    && QueueValid(w.jobs, w.waiting) && ClaimsValid(w.jobs, w.running) && ListsValid(w.jobs, w.live, w.log)
    && MutexValid(w.jobs, w.mutex) && StopValid(w)
  }

  // ---- Keeping it ----

  // A mark set by a start that now has it, cleared by one that had it, or left alone.
  predicate MarkFits(had: bool, has: bool, x: Worker, marks: set<Worker>, marks': set<Worker>) {
    if had == has then marks' == marks
    else if has then x !in marks && marks' == marks + {x}
    else marks' == marks - {x}
  }

  predicate ListFits(has: bool, i: nat, list: set<nat>, list': set<nat>) {
    list' == if has then list + {i} else list - {i}
  }

  predicate MutexFits(had: bool, has: bool, i: nat, mutex: int, mutex': int) {
    && (has && !had ==> mutex == -1)
    && mutex' == if has then i else if had then -1 else mutex
  }

  // What changes along with one start's move.
  predicate Fits(w: World, i: nat, j: Job, w': World)
    requires i < |w.jobs|
  {
    var b := w.jobs[i];
    && w'.jobs == w.jobs[i := j] && JobValid(j) && j.worker == b.worker
    && w'.max == w.max && w'.cancelled == w.cancelled && w'.cronOn == w.cronOn && w'.stop == w.stop
    && w'.slots == w.slots - Slots(b) + Slots(j) <= w.max
    && w'.wg == w.wg - Tracked(b) + Tracked(j)
    && MarkFits(InQueue(b), InQueue(j), b.worker, w.waiting, w'.waiting)
    && MarkFits(HasClaim(b), HasClaim(j), b.worker, w.running, w'.running)
    && ListFits(IsLive(j), i, w.live, w'.live) && ListFits(j.logged, i, w.log, w'.log)
    && MutexFits(HoldsMutex(b), HoldsMutex(j), i, w.mutex, w'.mutex)
    && (w.stop != NotStopped ==> !HoldsMutex(j) || HoldsMutex(b))
    && (w.stop == Stopped ==> Tracked(j) <= Tracked(b))
  }

  lemma QueueKept(jobs: seq<Job>, i: nat, j: Job, waiting: set<Worker>, waiting': set<Worker>)
    requires QueueValid(jobs, waiting) && i < |jobs| && j.worker == jobs[i].worker
    requires MarkFits(InQueue(jobs[i]), InQueue(j), j.worker, waiting, waiting')
    ensures QueueValid(jobs[i := j], waiting')
  {
    hide InQueue;
    var jobs' := jobs[i := j];
    forall x | x in waiting' ensures exists k | 0 <= k < |jobs'| :: InQueue(jobs'[k]) && jobs'[k].worker == x {
      if x in waiting {
        var k :| 0 <= k < |jobs| && InQueue(jobs[k]) && jobs[k].worker == x;
        assert k != i ==> InQueue(jobs'[k]) && jobs'[k].worker == x;
        assert k == i ==> InQueue(jobs'[i]);
      } else {
        assert InQueue(jobs'[i]) && jobs'[i].worker == x;
      }
    }
  }

  lemma ClaimsKept(jobs: seq<Job>, i: nat, j: Job, running: set<Worker>, running': set<Worker>)
    requires ClaimsValid(jobs, running) && i < |jobs| && j.worker == jobs[i].worker
    requires MarkFits(HasClaim(jobs[i]), HasClaim(j), j.worker, running, running')
    ensures ClaimsValid(jobs[i := j], running')
  {
    hide HasClaim;
    var jobs' := jobs[i := j];
    forall x | x in running' ensures exists k | 0 <= k < |jobs'| :: HasClaim(jobs'[k]) && jobs'[k].worker == x {
      if x in running {
        var k :| 0 <= k < |jobs| && HasClaim(jobs[k]) && jobs[k].worker == x;
        assert k != i ==> HasClaim(jobs'[k]) && jobs'[k].worker == x;
        assert k == i ==> HasClaim(jobs'[i]);
      } else {
        assert HasClaim(jobs'[i]) && jobs'[i].worker == x;
      }
    }
  }

  lemma PutKeeps(w: World, i: nat, j: Job, w': World)
    requires Valid(w) && i < |w.jobs| && Fits(w, i, j, w')
    ensures Valid(w')
  {
    hide JobValid, Slots, Tracked, InQueue, HasClaim, IsLive, HoldsMutex, MarkFits, QueueValid, ClaimsValid, SumSlots;
    hide SumTracked;
    SumsUpdate(w.jobs, i, j);
    QueueKept(w.jobs, i, j, w.waiting, w'.waiting);
    ClaimsKept(w.jobs, i, j, w.running, w'.running);
    if w.stop == Stopped {
      StoppedKept(w, i, j);
    }
  }

  lemma StoppedKept(w: World, i: nat, j: Job)
    requires JobsValid(w.jobs) && w.wg == 0 == SumTracked(w.jobs) && i < |w.jobs| && JobValid(j) &&
             Tracked(j) <= Tracked(w.jobs[i])
    ensures Tracked(j) == Tracked(w.jobs[i]) == 0
  {
    hide JobValid, Tracked;
    SumsAtLeast(w.jobs, i);
    JobNatural(j);
  }

  // What the invariant says of one start.
  predicate Local(w: World, i: nat) {
    && i < |w.jobs|
    && var j := w.jobs[i];
       && JobValid(j) && Slots(j) <= w.slots <= w.max
       && (HoldsMutex(j) <==> i == w.mutex)
       && (w.stop != NotStopped ==> w.cancelled && w.mutex == -1)
       && (w.stop == Stopped ==> Tracked(j) == 0)
       && (IsLive(j) <==> i in w.live) && (j.logged <==> i in w.log)
  }

  lemma ValidIsLocal(w: World, i: nat)
    requires Valid(w) && i < |w.jobs|
    ensures Local(w, i)
  {
    hide JobValid, Slots, Tracked, QueueValid, ClaimsValid, IsLive, HoldsMutex;
    OneJob(w.jobs, i);
    SumsAtLeast(w.jobs, i);
  }

  lemma SlotsStayFit(w: World, s: Step)
    requires OneStart(s) && Local(w, s.i) && JobEnabled(w, s, w.jobs[s.i])
    ensures SlotsFit(Moved(w, s, w.jobs[s.i])) && Moved(w, s, w.jobs[s.i]).worker == w.jobs[s.i].worker
  {
    hide MessagesFit, AnswerFits, LogFits, ClosedFits;
  }

  lemma MessagesStayFit(w: World, s: Step)
    requires OneStart(s) && Local(w, s.i) && JobEnabled(w, s, w.jobs[s.i])
    ensures var j := Moved(w, s, w.jobs[s.i]); MessagesFit(j) && AnswerFits(j)
  {
    hide SlotsFit, LogFits;
  }

  lemma JobStaysValid(w: World, s: Step)
    requires OneStart(s) && Local(w, s.i) && JobEnabled(w, s, w.jobs[s.i])
    ensures var (b, j) := (w.jobs[s.i], Moved(w, s, w.jobs[s.i])); JobValid(j) && j.worker == b.worker
  {
    SlotsStayFit(w, s);
    MessagesStayFit(w, s);
    hide SlotsFit, AnswerFits;
  }

  lemma SlotsFollow(w: World, s: Step)
    requires OneStart(s) && Local(w, s.i) && JobEnabled(w, s, w.jobs[s.i])
    ensures var (b, j) := (w.jobs[s.i], Moved(w, s, w.jobs[s.i]));
      SlotsAfter(w, s) == w.slots - Slots(b) + Slots(j) <= w.max
  {
  }

  lemma WgFollows(w: World, s: Step)
    requires OneStart(s) && Local(w, s.i) && JobEnabled(w, s, w.jobs[s.i])
    ensures var (b, j) := (w.jobs[s.i], Moved(w, s, w.jobs[s.i]));
      WgAfter(w, s) == w.wg - Tracked(b) + Tracked(j) && (w.stop == Stopped ==> Tracked(j) <= Tracked(b))
  {
  }

  lemma WaitingFollows(w: World, s: Step)
    requires OneStart(s) && Local(w, s.i) && JobEnabled(w, s, w.jobs[s.i])
    ensures var (b, j) := (w.jobs[s.i], Moved(w, s, w.jobs[s.i]));
      MarkFits(InQueue(b), InQueue(j), b.worker, w.waiting, WaitingAfter(w, s, b))
  {
  }

  lemma RunningFollows(w: World, s: Step)
    requires OneStart(s) && Local(w, s.i) && JobEnabled(w, s, w.jobs[s.i])
    ensures var (b, j) := (w.jobs[s.i], Moved(w, s, w.jobs[s.i]));
      MarkFits(HasClaim(b), HasClaim(j), b.worker, w.running, RunningAfter(w, s, b))
  {
  }

  lemma LiveFollows(w: World, s: Step)
    requires OneStart(s) && Local(w, s.i) && JobEnabled(w, s, w.jobs[s.i])
    ensures var (b, j) := (w.jobs[s.i], Moved(w, s, w.jobs[s.i]));
      ListFits(IsLive(j), s.i, w.live, LiveAfter(w, s))
  {
  }

  lemma LogFollows(w: World, s: Step)
    requires OneStart(s) && Local(w, s.i) && JobEnabled(w, s, w.jobs[s.i])
    ensures var (b, j) := (w.jobs[s.i], Moved(w, s, w.jobs[s.i]));
      ListFits(j.logged, s.i, w.log, LogAfter(w, s))
  {
  }

  lemma MutexFollows(w: World, s: Step)
    requires OneStart(s) && Local(w, s.i) && JobEnabled(w, s, w.jobs[s.i])
    ensures var (b, j) := (w.jobs[s.i], Moved(w, s, w.jobs[s.i]));
      MutexFits(HoldsMutex(b), HoldsMutex(j), s.i, w.mutex, MutexAfter(w, s))
      && (w.stop != NotStopped ==> !HoldsMutex(j) || HoldsMutex(b))
  {
  }

  lemma NewKeeps(w: World, worker: Worker, origin: Origin)
    requires Valid(w)
    ensures Valid(w.(jobs := w.jobs + [Fresh(worker, origin)]))
  {
    hide SumSlots, SumTracked;
    var jobs := w.jobs + [Fresh(worker, origin)];
    SumsMore(w.jobs, Fresh(worker, origin));
    MarksMore(w.jobs, Fresh(worker, origin), w.waiting, w.running);
    hide QueueValid, ClaimsValid;
  }

  lemma MarksMore(jobs: seq<Job>, j: Job, waiting: set<Worker>, running: set<Worker>)
    requires QueueValid(jobs, waiting) && ClaimsValid(jobs, running) && !InQueue(j) && !HasClaim(j)
    ensures QueueValid(jobs + [j], waiting) && ClaimsValid(jobs + [j], running)
  {
    hide InQueue, HasClaim;
    var jobs' := jobs + [j];
    forall x | x in waiting ensures exists k | 0 <= k < |jobs'| :: InQueue(jobs'[k]) && jobs'[k].worker == x {
      var k :| 0 <= k < |jobs| && InQueue(jobs[k]) && jobs[k].worker == x;
      assert InQueue(jobs'[k]);
    }
    forall x | x in running ensures exists k | 0 <= k < |jobs'| :: HasClaim(jobs'[k]) && jobs'[k].worker == x {
      var k :| 0 <= k < |jobs| && HasClaim(jobs[k]) && jobs[k].worker == x;
      assert HasClaim(jobs'[k]);
    }
  }

  lemma JobStepKeeps(w: World, s: Step)
    requires Valid(w) && OneStart(s) && s.i < |w.jobs| && JobEnabled(w, s, w.jobs[s.i])
    ensures Valid(JobStep(w, s, w.jobs[s.i]))
  {
    hide Valid, Local, JobEnabled, Moved, JobValid, Slots, Tracked, InQueue, HasClaim, IsLive, HoldsMutex, MarkFits;
    hide ListFits, MutexFits,
         SlotsAfter, WgAfter, MutexAfter, WaitingAfter, RunningAfter, LiveAfter, LogAfter;
    ValidIsLocal(w, s.i);
    JobStaysValid(w, s);
    SlotsFollow(w, s);
    WgFollows(w, s);
    WaitingFollows(w, s);
    RunningFollows(w, s);
    LiveFollows(w, s);
    LogFollows(w, s);
    MutexFollows(w, s);
    PutKeeps(w, s.i, Moved(w, s, w.jobs[s.i]), JobStep(w, s, w.jobs[s.i]));
  }

  lemma SharedStepKeeps(w: World, s: Step)
    requires Valid(w) && Enabled(w, s) && !OneStart(s) && !s.New?
    ensures Valid(Apply(w, s))
  {
    hide JobsValid, QueueValid, ClaimsValid, ListsValid, MutexValid, JobEnabled, JobStep, SumSlots, SumTracked;
  }

  lemma StepKeeps(w: World, s: Step)
    requires Valid(w)
    ensures Valid(Apply(w, s))
  {
    hide Valid, JobEnabled, JobStep;
    if Enabled(w, s) {
      if s.New? {
        NewKeeps(w, s.worker, s.origin);
      } else if OneStart(s) {
        JobStepKeeps(w, s);
      } else {
        SharedStepKeeps(w, s);
      }
    }
  }

  // The slots there are.
  function Limit(max: nat): nat { if max < 1 then 1 else max }

  lemma {:induction false} RunsAreValid(max: nat, steps: seq<Step>)
    ensures Valid(Run(max, steps)) && Run(max, steps).max == Limit(max)
  {
    hide Valid, Apply;
    if steps == [] {
      StartIsValid(max);
    } else {
      MaxStays(Run(max, steps[..|steps| - 1]), steps[|steps| - 1]);
      RunsAreValid(max, steps[..|steps| - 1]);
      StepKeeps(Run(max, steps[..|steps| - 1]), steps[|steps| - 1]);
    }
  }

  lemma MaxStays(w: World, s: Step)
    ensures Apply(w, s).max == w.max
  {
    hide Enabled, Moved, SlotsAfter, WgAfter, MutexAfter, WaitingAfter, RunningAfter, LiveAfter, LogAfter;
  }

  lemma StartIsValid(max: nat)
    ensures Valid(Start(max)) && Start(max).max == Limit(max)
  {
  }

  // ---- What every run keeps ----

  // At most max slots are held, one by each start that has taken and not given back its own; a start takes
  // one at most, gives back no more than it took, and has given it back by the time it is over.
  lemma SlotsAreBounded(max: nat, steps: seq<Step>, i: nat)
    ensures var w := Run(max, steps); w.slots == SumSlots(w.jobs) && w.slots <= Limit(max)
    ensures var w := Run(max, steps); i < |w.jobs| ==> 0 <= w.jobs[i].freed <= w.jobs[i].taken <= 1
    ensures var w := Run(max, steps); i < |w.jobs| && Settled(w.jobs[i]) ==> w.jobs[i].freed == w.jobs[i].taken
  {
    hide Run, SumSlots, SumTracked, QueueValid, ClaimsValid;
    RunsAreValid(max, steps);
    var w := Run(max, steps);
    if i < |w.jobs| {
      OneJob(w.jobs, i);
    }
  }

  // At most one start per worker waits for a slot, and at most one run per worker is going.
  lemma OnePerWorker(max: nat, steps: seq<Step>, i: nat, k: nat)
    requires var w := Run(max, steps); i < |w.jobs| && k < |w.jobs| && w.jobs[i].worker == w.jobs[k].worker
    ensures var w := Run(max, steps); InQueue(w.jobs[i]) && InQueue(w.jobs[k]) ==> i == k
    ensures var w := Run(max, steps); HasClaim(w.jobs[i]) && HasClaim(w.jobs[k]) ==> i == k
  {
    hide Run, InQueue, HasClaim, SumSlots, SumTracked;
    RunsAreValid(max, steps);
  }

  // A mark never outlives its start: a worker is kept from waiting, or from running, only by one that is.
  lemma MarksAreOwned(max: nat, steps: seq<Step>, x: Worker)
    ensures var w := Run(max, steps);
            x in w.waiting <==> exists i | 0 <= i < |w.jobs| :: InQueue(w.jobs[i]) && w.jobs[i].worker == x
    ensures var w := Run(max, steps);
            x in w.running <==> exists i | 0 <= i < |w.jobs| :: HasClaim(w.jobs[i]) && w.jobs[i].worker == x
  {
    hide Run, InQueue, HasClaim, SumSlots, SumTracked;
    RunsAreValid(max, steps);
  }

  // A start answers with the run or with an error, as its goroutine said exactly one of the two; one that never
  // had a goroutine answers with an error.
  lemma ExactlyOneAnswer(max: nat, steps: seq<Step>, i: nat)
    requires i < |Run(max, steps).jobs|
    ensures var j := Run(max, steps).jobs[i];
      && !(j.started && j.failed)
      && (j.pc.Over? ==> j.started != j.failed)
      && (j.answer.GotRun? ==> j.started)
      && (j.answer.GotError? ==> !j.started)
      && (j.pc.Quit? ==> j.answer.GotError? && !j.started && !j.failed)
  {
    hide Run, CountsValid, QueueValid, ClaimsValid, ListsValid, MutexValid;
    RunsAreValid(max, steps);
    OneJob(Run(max, steps).jobs, i);
  }

  // Writing start i's record to the run log does not fail.
  predicate AppendSucceeds(steps: seq<Step>, i: nat) {
    forall k | 0 <= k < |steps| && steps[k].Record? && steps[k].i == i :: steps[k].ok
  }

  // A run that was announced and is no longer going has been logged.
  predicate Accounted(w: World, i: nat) {
    i < |w.jobs| && w.jobs[i].started && !w.jobs[i].pc.Running? ==> w.jobs[i].logged
  }

  // A step leaves every start but its own as it was.
  lemma OthersStay(w: World, s: Step, i: nat)
    requires Enabled(w, s) ==> !(OneStart(s) && s.i == i)
    ensures i < |w.jobs| ==> i < |Apply(w, s).jobs| && Apply(w, s).jobs[i] == w.jobs[i]
    ensures |w.jobs| <= i < |Apply(w, s).jobs| ==> !Apply(w, s).jobs[i].started
  {
    hide Moved, JobEnabled, SlotsAfter, WgAfter, MutexAfter, WaitingAfter, RunningAfter, LiveAfter, LogAfter, CronDone;
  }

  lemma StepAccounts(w: World, s: Step, i: nat)
    requires Accounted(w, i) && (s.Record? && s.i == i ==> s.ok)
    requires i < |w.jobs| && w.jobs[i].pc.Claimed? ==> !w.jobs[i].started
    ensures Accounted(Apply(w, s), i)
  {
    hide JobStep, JobEnabled;
    if Enabled(w, s) && OneStart(s) && s.i == i {
      JobAccounts(w, s);
    } else {
      OthersStay(w, s, i);
      hide Apply, Enabled;
    }
  }

  lemma JobAccounts(w: World, s: Step)
    requires OneStart(s) && s.i < |w.jobs| && JobEnabled(w, s, w.jobs[s.i])
    requires Accounted(w, s.i) && (s.Record? ==> s.ok)
    requires w.jobs[s.i].pc.Claimed? ==> !w.jobs[s.i].started
    ensures Accounted(JobStep(w, s, w.jobs[s.i]), s.i)
  {
    hide SlotsAfter, WgAfter, MutexAfter, WaitingAfter, RunningAfter, LiveAfter, LogAfter;
  }

  lemma {:induction false} RunsAreAccounted(max: nat, steps: seq<Step>, i: nat)
    requires AppendSucceeds(steps, i)
    ensures Accounted(Run(max, steps), i)
  {
    hide Accounted, Apply, Valid;
    if steps == [] {
      NothingToAccount(max, i);
    } else {
      var n := |steps| - 1;
      RunsAreAccounted(max, steps[..n], i);
      RunsAreValid(max, steps[..n]);
      ClaimedIsSilent(Run(max, steps[..n]), i);
      StepAccounts(Run(max, steps[..n]), steps[n], i);
    }
  }

  lemma NothingToAccount(max: nat, i: nat)
    ensures Accounted(Start(max), i)
  {
  }

  lemma ClaimedIsSilent(w: World, i: nat)
    requires Valid(w)
    ensures i < |w.jobs| && w.jobs[i].pc.Claimed? ==> !w.jobs[i].started
  {
    hide CountsValid, QueueValid, ClaimsValid, ListsValid, MutexValid;
    if i < |w.jobs| {
      OneJob(w.jobs, i);
    }
  }

  // A run that was announced can always be found, if its record could be written: it is live or it is in the log.
  lemma StartedRunsAreFound(max: nat, steps: seq<Step>, i: nat)
    requires AppendSucceeds(steps, i)
    requires var w := Run(max, steps); i < |w.jobs| && w.jobs[i].started
    ensures var w := Run(max, steps); i in w.live || i in w.log
  {
    hide Run, CountsValid, QueueValid, ClaimsValid, MutexValid;
    RunsAreValid(max, steps);
    RunsAreAccounted(max, steps, i);
    OneJob(Run(max, steps).jobs, i);
  }

  function RunFrom(w: World, steps: seq<Step>): World {
    if steps == [] then w else Apply(RunFrom(w, steps[..|steps| - 1]), steps[|steps| - 1])
  }

  lemma {:induction false} RunFromIsRun(max: nat, before: seq<Step>, after: seq<Step>)
    ensures RunFrom(Run(max, before), after) == Run(max, before + after)
  {
    hide Apply;
    if after == [] {
      assert before + after == before;
    } else {
      RunFromIsRun(max, before, after[..|after| - 1]);
      assert (before + after)[..|before + after| - 1] == before + after[..|after| - 1];
    }
  }

  lemma {:induction false} LogOnlyGrows(w: World, steps: seq<Step>)
    ensures w.log <= RunFrom(w, steps).log
  {
    hide Apply;
    if steps != [] {
      LogOnlyGrows(w, steps[..|steps| - 1]);
      StepKeepsLog(RunFrom(w, steps[..|steps| - 1]), steps[|steps| - 1]);
    }
  }

  lemma StepKeepsLog(w: World, s: Step)
    ensures w.log <= Apply(w, s).log
  {
    hide Enabled, Moved, SlotsAfter, WgAfter, MutexAfter, WaitingAfter, RunningAfter, LiveAfter;
  }

  // Looking an announced run up among the live ones and then, whatever happened in between, in the log finds it, if
  // its record could be written.
  lemma LookUpFindsIt(max: nat, before: seq<Step>, between: seq<Step>, i: nat)
    requires AppendSucceeds(before, i)
    requires var w := Run(max, before); i < |w.jobs| && w.jobs[i].started
    ensures i in Run(max, before).live || i in Run(max, before + between).log
  {
    hide Run, RunFrom;
    StartedRunsAreFound(max, before, i);
    LogOnlyGrows(Run(max, before), between);
    RunFromIsRun(max, before, between);
  }

  // ---- Stopping ----

  lemma StoppedMeansIdle(w: World, i: nat)
    requires Valid(w) && w.stop == Stopped && i < |w.jobs|
    ensures Tracked(w.jobs[i]) == 0 && !Alive(w.jobs[i])
  {
    hide JobValid, Slots, QueueValid, ClaimsValid, ListsValid, MutexValid, Alive;
    SumsAtLeast(w.jobs, i);
  }

  lemma IdleSaysNothing(w: World, s: Step)
    requires OneStart(s) && s.i < |w.jobs| && JobEnabled(w, s, w.jobs[s.i]) && !Alive(w.jobs[s.i])
    ensures Moved(w, s, w.jobs[s.i]).started == w.jobs[s.i].started
  {
  }

  lemma StoppedStartsNothing(w: World, s: Step)
    requires Valid(w) && w.stop == Stopped
    ensures Apply(w, s).stop == Stopped
    ensures |w.jobs| <= |Apply(w, s).jobs|
    ensures forall i | 0 <= i < |w.jobs| :: Apply(w, s).jobs[i].started == w.jobs[i].started
    ensures forall i | |w.jobs| <= i < |Apply(w, s).jobs| :: !Apply(w, s).jobs[i].started
  {
    hide JobValid, Slots, Tracked, QueueValid, ClaimsValid, ListsValid, MutexValid, SumSlots, SumTracked,
         SlotsAfter, WgAfter, MutexAfter, WaitingAfter, RunningAfter, LiveAfter, LogAfter, Moved, JobEnabled, Alive;
    if Enabled(w, s) && OneStart(s) {
      StoppedMeansIdle(w, s.i);
      IdleSaysNothing(w, s);
    }
  }

  // Once stop has returned no run is going, and none ever starts again.
  lemma {:induction false} StopIsFinal(max: nat, before: seq<Step>, after: seq<Step>)
    requires Run(max, before).stop == Stopped
    ensures var (w, end) := (Run(max, before), RunFrom(Run(max, before), after));
      && Valid(end) && end.stop == Stopped && |w.jobs| <= |end.jobs|
      && (forall i | 0 <= i < |end.jobs| :: !Alive(end.jobs[i]))
      && (forall i | 0 <= i < |w.jobs| :: end.jobs[i].started == w.jobs[i].started)
      && (forall i | |w.jobs| <= i < |end.jobs| :: !end.jobs[i].started)
  {
    hide Valid, Run, Apply, Alive;
    var w := Run(max, before);
    RunsAreValid(max, before);
    if after != [] {
      StopIsFinal(max, before, after[..|after| - 1]);
      var mid := RunFrom(w, after[..|after| - 1]);
      StoppedStartsNothing(mid, after[|after| - 1]);
      StepKeeps(mid, after[|after| - 1]);
    }
    var end := RunFrom(w, after);
    forall i | 0 <= i < |end.jobs| ensures !Alive(end.jobs[i]) {
      StoppedMeansIdle(end, i);
    }
  }

  // ---- Nothing gets stuck ----

  // What a start, or its goroutine, does next; a queued one waits for a slot until the scheduler stops.
  function NextStep(w: World, j: Job, i: nat): Step {
    match j.pc
    case Wanting => CheckCatchUp(i)
    case Registering => AddCatchUp(i)
    case Asked => if j.origin.Request? then TrySlot(i) else Mark(i)
    case Queued => if w.cancelled then GiveUp(i) else TakeSlot(i)
    case Granted => Unmark(i)
    case Dropped => Unmark(i)
    case Slotted => CheckTrack(i)
    case Tracking => AddTrack(i)
    case Refused => ReturnSlot(i)
    case Loading => Claim(i)
    case Claimed => Announce(i)
    case Running => Record(i, true)
    case Recorded => Unclaim(i)
    case Ending => if j.started then AddFinished(i) else SayFailed(i)
    case Finishing => Unlist(i)
    case Unlisted => FreeSlot(i)
    case Freed => WgDone(i)
    case Over => if j.answer.NoneYet? then Return(i) else CloseCatchUp(i)
    case Quit => CloseCatchUp(i)
  }

  predicate Unfinished(j: Job) {
    !Settled(j) || j.answer.NoneYet? || (j.origin.CatchUp? && !j.closed)
  }

  predicate CanGoOn(w: World, i: nat) {
    i < |w.jobs| && Unfinished(w.jobs[i]) && Enabled(w, NextStep(w, w.jobs[i], i))
  }

  lemma HolderCanGoOn(w: World)
    requires Valid(w) && w.mutex != -1
    ensures CanGoOn(w, w.mutex)
  {
    hide JobValid, CountsValid, QueueValid, ClaimsValid, ListsValid;
  }

  lemma OnlyQueuedBlocks(w: World, i: nat)
    requires Valid(w) && i < |w.jobs| && Unfinished(w.jobs[i]) && w.mutex == -1 && !CanGoOn(w, i)
    ensures w.jobs[i].pc.Queued? && w.slots == w.max
  {
    hide CountsValid, QueueValid, ClaimsValid, ListsValid;
    OneJob(w.jobs, i);
  }

  lemma {:induction false} SomeSlotHolder(jobs: seq<Job>) returns (i: nat)
    requires SumSlots(jobs) > 0
    ensures i < |jobs| && Slots(jobs[i]) > 0
  {
    hide Slots;
    if Slots(jobs[|jobs| - 1]) > 0 {
      i := |jobs| - 1;
    } else {
      i := SomeSlotHolder(jobs[..|jobs| - 1]);
    }
  }

  lemma SlotHolderIsUnfinished(w: World, i: nat)
    requires Valid(w) && i < |w.jobs| && Slots(w.jobs[i]) > 0
    ensures Unfinished(w.jobs[i]) && !w.jobs[i].pc.Queued?
  {
    hide CountsValid, QueueValid, ClaimsValid, ListsValid;
    OneJob(w.jobs, i);
  }

  // While any start is unfinished something can be done: whoever has the mutex gives it up, and when every slot
  // is taken whoever has one goes on towards giving it back.
  lemma NothingIsStuck(max: nat, steps: seq<Step>, i: nat)
    requires var w := Run(max, steps); i < |w.jobs| && Unfinished(w.jobs[i])
    ensures var w := Run(max, steps); exists k | 0 <= k < |w.jobs| :: CanGoOn(w, k)
  {
    hide Run, JobsValid, QueueValid, ClaimsValid, ListsValid, MutexValid, CanGoOn, Slots, Unfinished, SumTracked;
    RunsAreValid(max, steps);
    var w := Run(max, steps);
    if w.mutex != -1 {
      HolderCanGoOn(w);
    } else if !CanGoOn(w, i) {
      OnlyQueuedBlocks(w, i);
      var k := SomeSlotHolder(w.jobs);
      SlotHolderIsUnfinished(w, k);
      if !CanGoOn(w, k) {
        OnlyQueuedBlocks(w, k);
        assert false;
      }
    }
  }

  // ---- Every start returns ----

  // The steps a start and its goroutine have left, at most.
  function Left(j: Job): nat {
    (match j.pc
     case Wanting => 16
     case Registering => 15
     case Asked => 14
     case Queued => 13
     case Granted => 12
     case Dropped => 12
     case Slotted => 11
     case Tracking => 10
     case Refused => 10
     case Loading => 9
     case Claimed => 8
     case Running => 7
     case Recorded => 6
     case Ending => 5
     case Finishing => 4
     case Unlisted => 3
     case Freed => 2
     case Over => 0
     case Quit => 0)
    + (if j.answer.NoneYet? then 1 else 0) + if j.origin.CatchUp? && !j.closed then 1 else 0
  }

  function AllLeft(jobs: seq<Job>): nat {
    if jobs == [] then 0 else AllLeft(jobs[..|jobs| - 1]) + Left(jobs[|jobs| - 1])
  }

  lemma {:induction false} LeftUpdate(jobs: seq<Job>, i: nat, j: Job)
    requires i < |jobs|
    ensures AllLeft(jobs[i := j]) == AllLeft(jobs) - Left(jobs[i]) + Left(j)
  {
    hide Left;
    var n := |jobs| - 1;
    if i == n {
      assert jobs[i := j][..n] == jobs[..n];
    } else {
      assert jobs[i := j][..n] == jobs[..n][i := j];
      LeftUpdate(jobs[..n], i, j);
    }
  }

  predicate BeforeRun(s: Step) {
    s.CheckCatchUp? || s.AddCatchUp? || s.OpenFails? || s.TrySlot? || s.Mark? || s.TakeSlot? || s.GiveUp? || s.Unmark?
    || s.CheckTrack? || s.AddTrack? || s.ReturnSlot?
  }

  lemma EarlyStepUsesLeft(w: World, s: Step)
    requires OneStart(s) && BeforeRun(s) && s.i < |w.jobs| && JobEnabled(w, s, w.jobs[s.i])
    ensures Left(Moved(w, s, w.jobs[s.i])) < Left(w.jobs[s.i])
  {
  }

  lemma LateStepUsesLeft(w: World, s: Step)
    requires OneStart(s) && !BeforeRun(s) && s.i < |w.jobs| && JobEnabled(w, s, w.jobs[s.i])
    ensures Left(Moved(w, s, w.jobs[s.i])) < Left(w.jobs[s.i])
  {
  }

  lemma StepUsesLeft(w: World, s: Step)
    requires OneStart(s) && s.i < |w.jobs| && JobEnabled(w, s, w.jobs[s.i])
    ensures Left(Moved(w, s, w.jobs[s.i])) < Left(w.jobs[s.i])
  {
    hide BeforeRun, Moved, JobEnabled, Left;
    if BeforeRun(s) {
      EarlyStepUsesLeft(w, s);
    } else {
      LateStepUsesLeft(w, s);
    }
  }

  // How many of the steps are a start's own.
  function OwnSteps(steps: seq<Step>): nat {
    if steps == [] then 0 else OwnSteps(steps[..|steps| - 1]) + if OneStart(steps[|steps| - 1]) then 1 else 0
  }

  // Every step really happens, and none is a new start. Cancellations and the steps of stop may come in at any time.
  predicate Real(w: World, steps: seq<Step>) {
    forall k | 0 <= k < |steps| :: !steps[k].New? && Enabled(RunFrom(w, steps[..k]), steps[k])
  }

  lemma StepLeaves(w: World, s: Step)
    requires Enabled(w, s) && !s.New?
    ensures AllLeft(Apply(w, s).jobs) + (if OneStart(s) then 1 else 0) <= AllLeft(w.jobs)
  {
    hide Moved, JobEnabled, Left, AllLeft, SlotsAfter, WgAfter, MutexAfter, WaitingAfter, RunningAfter, LiveAfter;
    hide LogAfter;
    if OneStart(s) {
      StepUsesLeft(w, s);
      LeftUpdate(w.jobs, s.i, Moved(w, s, w.jobs[s.i]));
    }
  }

  lemma {:induction false} OwnStepsAreBounded(w: World, steps: seq<Step>)
    requires Valid(w) && Real(w, steps)
    ensures Valid(RunFrom(w, steps)) && OwnSteps(steps) + AllLeft(RunFrom(w, steps).jobs) <= AllLeft(w.jobs)
  {
    hide Valid, AllLeft, Enabled, Apply, OneStart;
    if steps != [] {
      var before := steps[..|steps| - 1];
      forall k | 0 <= k < |before| ensures !before[k].New? && Enabled(RunFrom(w, before[..k]), before[k]) {
        assert before[..k] == steps[..k] && before[k] == steps[k];
      }
      OwnStepsAreBounded(w, before);
      StepKeeps(RunFrom(w, before), steps[|steps| - 1]);
      StepLeaves(RunFrom(w, before), steps[|steps| - 1]);
    }
  }

  // Every call of start returns: from any reachable world, however the starts interleave among themselves and with
  // cancellation and stop, they take no more steps than they had left; and where none can go on, each has returned
  // exactly one of the run and an error, and its goroutine, if it had one, has said just that and ended.
  lemma EveryStartReturns(max: nat, before: seq<Step>, steps: seq<Step>)
    requires Real(Run(max, before), steps)
    ensures var (w, end) := (Run(max, before), RunFrom(Run(max, before), steps));
      && OwnSteps(steps) <= AllLeft(w.jobs)
      && ((forall i | 0 <= i < |end.jobs| :: !CanGoOn(end, i)) ==>
            forall i | 0 <= i < |end.jobs| ::
              Settled(end.jobs[i]) && end.jobs[i].answer != NoneYet
              && (end.jobs[i].answer.GotRun? <==> end.jobs[i].started) && !(end.jobs[i].started && end.jobs[i].failed))
  {
    hide Run, RunFrom, Valid, AllLeft, Real, CanGoOn, Unfinished;
    var w := Run(max, before);
    RunsAreValid(max, before);
    OwnStepsAreBounded(w, steps);
    RunFromIsRun(max, before, steps);
    var end := RunFrom(w, steps);
    if forall i | 0 <= i < |end.jobs| :: !CanGoOn(end, i) {
      forall i | 0 <= i < |end.jobs|
        ensures Settled(end.jobs[i]) && end.jobs[i].answer != NoneYet
        ensures (end.jobs[i].answer.GotRun? <==> end.jobs[i].started) && !(end.jobs[i].started && end.jobs[i].failed)
      {
        if Unfinished(end.jobs[i]) {
          NothingIsStuck(max, before + steps, i);
        }
        FinishedMeans(end.jobs[i]);
        ExactlyOneAnswer(max, before + steps, i);
      }
    }
  }

  lemma FinishedMeans(j: Job)
    requires !Unfinished(j)
    ensures Settled(j) && j.answer != NoneYet
  {
  }
}
