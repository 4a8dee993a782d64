/** Streaming a run's events to its watchers (internal/server/scheduler.go, internal/server/worker.go). */
module LiveRuns {
  import opened Results

  datatype Event = Turn(v: nat) | Finished(status: nat)

  // The events so far, whether the run is over, and how often the changed channel has been closed and replaced.
  datatype RunState = RunState(events: seq<Event>, done: bool, generation: nat)

  function Added(r: RunState, ev: Option<Event>, done: bool): RunState {
    RunState(if ev.Some? then r.events + [ev.value] else r.events, r.done || done, r.generation + 1)
  }

  class LiveRun {
    var events: seq<Event>
    var done: bool
    var generation: nat

    ghost function View(): RunState
      reads this
    {
      RunState(events, done, generation)
    }

    constructor ()
      ensures View() == RunState([], false, 0)
    {
      events, done, generation := [], false, 0;
    }

    // A run that goes on stays valid, what its watchers saw stays true of it, and all of them that wait are woken.
    method Add(ev: Option<Event>, finished: bool)
      modifies this
      ensures View() == Added(old(View()), ev, finished) && Prefix(old(events), events)
      ensures old(RunValid(View())) && !old(done) && (finished <==> ev.Some? && ev.value.Finished?)
        ==> RunValid(View()) && forall x | WatcherValid(old(View()), x) :: WatcherValid(View(), x)
      ensures forall x, i | WatcherValid(old(View()), x) && x.pc.Waiting? :: WatcherEnabled(View(), Wake(i), x)
    {
      if ev.Some? {
        events := events + [ev.value];
      }
      done := done || finished;
      generation := generation + 1;
      if old(RunValid(View())) && !old(done) {
        forall x | WatcherValid(old(View()), x) ensures WatcherValid(View(), x) {
          AddKeepsWatcher(old(View()), ev, finished, x);
        }
      }
    }
  }

  // ---- Watchers ----

  datatype Pc = Snapping | Sending | Waiting | Ended | Failed

  // What a watcher has sent, and what its last look under the lock saw.
  datatype Watcher = Watcher(sent: seq<Event>, pending: seq<Event>, done: bool, generation: nat, pc: Pc)

  datatype World = World(run: RunState, watchers: seq<Watcher>)

  datatype Step =
    | AddEvent(v: Option<nat>) // OnEvent; an event with no message adds nothing
    | AddFinished(status: nat) // the last addition of a run
    | Join
    | Snap(i: nat)
    | Send(i: nat)
    | SendFails(i: nat)
    | EndPending(i: nat)
    | Wake(i: nat)
    | Cancel(i: nat)

  predicate Enabled(w: World, s: Step) {
    match s
    case AddEvent(_) => !w.run.done
    case AddFinished(_) => !w.run.done
    case Join => true
    case _ => s.i < |w.watchers| && WatcherEnabled(w.run, s, w.watchers[s.i])
  }

  predicate WatcherEnabled(run: RunState, s: Step, x: Watcher) {
    match s
    case Snap(_) => x.pc.Snapping?
    case Send(_) => x.pc.Sending? && x.pending != []
    case SendFails(_) => x.pc.Sending? && x.pending != []
    case EndPending(_) => x.pc.Sending? && x.pending == []
    case Wake(_) => x.pc.Waiting? && x.generation != run.generation
    case Cancel(_) => x.pc.Waiting?
    case _ => false
  }

  // The loop asks for events[sent:]; it has sent as many as it counts.
  function Moved(run: RunState, s: Step, x: Watcher): Watcher {
    match s
    case Snap(_) =>
      Watcher(x.sent, if |x.sent| <= |run.events| then run.events[|x.sent|..] else [],
              run.done, run.generation, Sending)
    case Send(_) => if x.pending == [] then x else x.(sent := x.sent + [x.pending[0]], pending := x.pending[1..])
    case SendFails(_) => x.(pc := Failed)
    case EndPending(_) => x.(pc := if x.done then Ended else Waiting)
    case Wake(_) => x.(pc := Snapping)
    case Cancel(_) => x.(pc := Failed)
    case _ => x
  }

  function Apply(w: World, s: Step): World {
    if !Enabled(w, s) then w
    else match s
      case AddEvent(v) => w.(run := Added(w.run, if v.Some? then Some(Turn(v.value)) else None, false))
      case AddFinished(status) => w.(run := Added(w.run, Some(Finished(status)), true))
      case Join => w.(watchers := w.watchers + [Watcher([], [], false, 0, Snapping)])
      case _ => w.(watchers := w.watchers[s.i := Moved(w.run, s, w.watchers[s.i])])
  }

  function Run(steps: seq<Step>): World {
    if steps == [] then World(RunState([], false, 0), []) else Apply(Run(steps[..|steps| - 1]), steps[|steps| - 1])
  }

  // ---- What every interleaving keeps ----

  // A run's only Finished event is its last, once it is over.
  predicate RunValid(r: RunState) {
    && (forall i | 0 <= i < |r.events| :: r.events[i].Finished? ==> r.done && i == |r.events| - 1)
    && (r.done ==> r.events != [] && r.events[|r.events| - 1].Finished?)
  }

  predicate Prefix(a: seq<Event>, b: seq<Event>) {
    |a| <= |b| && a == b[..|a|]
  }

  // A watcher has sent a prefix, and what it last saw continues it; unless the channel it watches has been
  // closed since, it saw everything there is.
  predicate WatcherValid(r: RunState, x: Watcher) {
    && Prefix(x.sent, r.events)
    && (x.pc.Sending? ==>
          Prefix(x.sent + x.pending, r.events) && x.generation <= r.generation &&
          (x.done ==> r.done && x.sent + x.pending == r.events)
          && (x.generation == r.generation ==> x.done == r.done && x.sent + x.pending == r.events))
    && (x.pc.Waiting? ==>
          !x.done && x.generation <= r.generation && (x.generation == r.generation ==> !r.done && x.sent == r.events))
    && (x.pc.Ended? ==> r.done && x.sent == r.events)
  }

  predicate Valid(w: World) {
    RunValid(w.run) && forall i | 0 <= i < |w.watchers| :: WatcherValid(w.run, w.watchers[i])
  }

  lemma AddKeepsWatcher(r: RunState, ev: Option<Event>, done: bool, x: Watcher)
    requires RunValid(r) && WatcherValid(r, x) && !r.done
    ensures WatcherValid(Added(r, ev, done), x)
  {
  }

  lemma AddKeeps(w: World, ev: Option<Event>, done: bool)
    requires Valid(w) && !w.run.done
    requires done <==> ev.Some? && ev.value.Finished?
    ensures Valid(w.(run := Added(w.run, ev, done)))
  {
    forall i | 0 <= i < |w.watchers| ensures WatcherValid(Added(w.run, ev, done), w.watchers[i]) {
      AddKeepsWatcher(w.run, ev, done, w.watchers[i]);
    }
  }

  lemma MoveKeeps(r: RunState, s: Step, x: Watcher)
    requires WatcherValid(r, x) && WatcherEnabled(r, s, x)
    ensures WatcherValid(r, Moved(r, s, x))
  {
    match s
    case Snap(_) => assert x.sent + r.events[|x.sent|..] == r.events;
    case Send(_) => assert x.sent + [x.pending[0]] + x.pending[1..] == x.sent + x.pending;
    case EndPending(_) => assert x.sent + x.pending == x.sent;
    case _ =>
  }

  lemma StepKeeps(w: World, s: Step)
    requires Valid(w)
    ensures Valid(Apply(w, s))
  {
    hide RunValid, WatcherValid;
    if Enabled(w, s) {
      match s
      case AddEvent(v) => AddKeeps(w, if v.Some? then Some(Turn(v.value)) else None, false);
      case AddFinished(status) => AddKeeps(w, Some(Finished(status)), true);
      case Join => NewWatcher(w.run);
      case _ => MoveKeeps(w.run, s, w.watchers[s.i]);
    }
  }

  lemma NewWatcher(r: RunState)
    ensures WatcherValid(r, Watcher([], [], false, 0, Snapping))
  {
  }

  lemma {:induction false} RunsAreValid(steps: seq<Step>)
    ensures Valid(Run(steps))
  {
    hide Valid, Apply;
    if steps == [] {
      NothingYet();
    } else {
      RunsAreValid(steps[..|steps| - 1]);
      StepKeeps(Run(steps[..|steps| - 1]), steps[|steps| - 1]);
    }
  }

  lemma NothingYet()
    ensures Valid(World(RunState([], false, 0), []))
  {
  }

  // Every watcher has sent the run's events from the start, each once and in order.
  lemma SentInOrder(steps: seq<Step>, i: nat)
    requires i < |Run(steps).watchers|
    ensures Prefix(Run(steps).watchers[i].sent, Run(steps).run.events)
  {
    hide Run;
    RunsAreValid(steps);
  }

  // A watcher that waits and is not woken has sent everything, and the run goes on.
  lemma NoMissedWakeUp(steps: seq<Step>, i: nat)
    requires i < |Run(steps).watchers| && Run(steps).watchers[i].pc.Waiting? && !Enabled(Run(steps), Wake(i))
    ensures !Run(steps).run.done && Run(steps).watchers[i].sent == Run(steps).run.events
  {
    hide Run;
    RunsAreValid(steps);
  }

  // An addition wakes every watcher that waits, whatever it had seen.
  lemma AddWakesEveryone(steps: seq<Step>, s: Step, i: nat)
    requires (s.AddEvent? || s.AddFinished?) && Enabled(Run(steps), s)
    requires var w := Run(steps); i < |w.watchers| && w.watchers[i].pc.Waiting?
    ensures Enabled(Run(steps + [s]), Wake(i))
  {
    RunsAreValid(steps);
    assert (steps + [s])[..|steps|] == steps;
    assert WatcherValid(Run(steps).run, Run(steps).watchers[i]);
  }

  lemma {:induction false} EventsStay(steps: seq<Step>, more: seq<Step>)
    ensures Prefix(Run(steps).run.events, Run(steps + more).run.events)
  {
    if more == [] {
      assert steps + more == steps;
    } else {
      var all := steps + more;
      assert all[..|all| - 1] == steps + more[..|more| - 1];
      EventsStay(steps, more[..|more| - 1]);
      StepGrows(Run(all[..|all| - 1]), all[|all| - 1]);
    }
  }

  lemma StepGrows(w: World, s: Step)
    ensures Prefix(w.run.events, Apply(w, s).run.events)
  {
  }

  // No event is missed: whatever happens after it was added, a watcher that has nothing more to do until it is woken
  // has sent it, and so has one whose stream has ended well.
  lemma AddedIsDelivered(steps: seq<Step>, more: seq<Step>, i: nat)
    requires i < |Run(steps + more).watchers|
    requires var (w, x) := (Run(steps + more), Run(steps + more).watchers[i]);
      x.pc.Ended? || (x.pc.Waiting? && !Enabled(w, Wake(i)))
    ensures Prefix(Run(steps).run.events, Run(steps + more).watchers[i].sent)
  {
    hide Run;
    EventsStay(steps, more);
    RunsAreValid(steps + more);
    assert WatcherValid(Run(steps + more).run, Run(steps + more).watchers[i]);
  }

  // A watcher's stream ends well only with the Finished event, which comes once.
  lemma EndsWithFinished(steps: seq<Step>, i: nat)
    requires i < |Run(steps).watchers| && Run(steps).watchers[i].pc.Ended?
    ensures var sent := Run(steps).watchers[i].sent;
      && sent == Run(steps).run.events && sent != [] && sent[|sent| - 1].Finished?
      && forall k | 0 <= k < |sent| - 1 :: sent[k].Turn?
  {
    hide Run;
    RunsAreValid(steps);
  }

  // ---- A run that is over lets its watchers go ----

  predicate Closed(x: Watcher) { x.pc.Ended? || x.pc.Failed? }

  // The steps a watcher of a finished run has left.
  function Left(r: RunState, x: Watcher): int {
    |r.events| - |x.sent| +
    match x.pc
    case Sending => if x.done then 1 else 4
    case Waiting => 3
    case Snapping => 2
    case _ => 0
  }

  // Once the run is over a watcher is never blocked, and each step it takes brings it nearer to its end.
  lemma WatchersFinish(steps: seq<Step>, i: nat, s: Step)
    requires var w := Run(steps); w.run.done && i < |w.watchers| && !Closed(w.watchers[i])
    ensures var w := Run(steps); Left(w.run, w.watchers[i]) > 0
    ensures var w := Run(steps);
            Enabled(w, Snap(i)) || Enabled(w, Send(i)) || Enabled(w, EndPending(i)) || Enabled(w, Wake(i))
    ensures var w := Run(steps);
      (s.Snap? || s.Send? || s.EndPending? || s.Wake?) && s.i == i && Enabled(w, s)
      ==> Left(Apply(w, s).run, Apply(w, s).watchers[i]) < Left(w.run, w.watchers[i])
  {
    hide Run;
    RunsAreValid(steps);
    var w := Run(steps);
    assert WatcherValid(w.run, w.watchers[i]);
  }

  // ---- Who gives up, and who is woken ----

  predicate GivesUp(w: World, s: Step, i: nat) {
    (s == SendFails(i) || s == Cancel(i)) && Enabled(w, s)
  }

  ghost predicate GaveUp(steps: seq<Step>, i: nat) {
    exists k | 0 <= k < |steps| :: GivesUp(Run(steps[..k]), steps[k], i)
  }

  lemma GaveUpEarlier(steps: seq<Step>, i: nat)
    requires steps != []
    ensures var n := |steps| - 1;
      GaveUp(steps, i) <==> GaveUp(steps[..n], i) || GivesUp(Run(steps[..n]), steps[n], i)
  {
    hide GivesUp, Run;
    var n := |steps| - 1;
    var fewer := steps[..n];
    forall k | 0 <= k < n ensures fewer[..k] == steps[..k] && fewer[k] == steps[k] {
    }
    if GaveUp(fewer, i) {
      var k :| 0 <= k < n && GivesUp(Run(fewer[..k]), fewer[k], i);
      assert GivesUp(Run(steps[..k]), steps[k], i);
    }
    if GaveUp(steps, i) {
      var k :| 0 <= k <= n && GivesUp(Run(steps[..k]), steps[k], i);
      assert k < n ==> GivesUp(Run(fewer[..k]), fewer[k], i);
    }
  }

  lemma StepFails(w: World, s: Step, i: nat)
    ensures (i < |Apply(w, s).watchers| && Apply(w, s).watchers[i].pc.Failed?) <==>
            (i < |w.watchers| && w.watchers[i].pc.Failed?) || GivesUp(w, s, i)
  {
  }

  // A stream fails exactly if one of its sends failed or its reader went away while it waited.
  lemma {:induction false} FailsExactlyIfGivenUp(steps: seq<Step>, i: nat)
    ensures (i < |Run(steps).watchers| && Run(steps).watchers[i].pc.Failed?) <==> GaveUp(steps, i)
  {
    hide GaveUp, GivesUp, Apply;
    if steps == [] {
      NobodyGaveUp(i);
    } else {
      var n := |steps| - 1;
      FailsExactlyIfGivenUp(steps[..n], i);
      StepFails(Run(steps[..n]), steps[n], i);
      GaveUpEarlier(steps, i);
    }
  }

  lemma NobodyGaveUp(i: nat)
    ensures !GaveUp([], i) && Run([]).watchers == []
  {
  }

  predicate UpToDate(w: World, i: nat) {
    i < |w.watchers| && w.watchers[i].generation == w.run.generation
  }

  lemma StepStaysUpToDate(w: World, s: Step, i: nat)
    requires UpToDate(w, i) && !s.AddEvent? && !s.AddFinished?
    ensures UpToDate(Apply(w, s), i)
  {
  }

  // A watcher is woken only by what was added since it last looked.
  lemma {:induction false} OnlyAdditionsWake(steps: seq<Step>, more: seq<Step>, i: nat)
    requires i < |Run(steps).watchers| && Run(steps).watchers[i].pc.Snapping?
    requires forall k | 0 <= k < |more| :: !more[k].AddEvent? && !more[k].AddFinished?
    ensures UpToDate(Run(steps + [Snap(i)] + more), i) && !Enabled(Run(steps + [Snap(i)] + more), Wake(i))
  {
    var all := steps + [Snap(i)] + more;
    if more == [] {
      assert all[..|all| - 1] == steps;
    } else {
      hide Apply;
      assert all[..|all| - 1] == steps + [Snap(i)] + more[..|more| - 1];
      OnlyAdditionsWake(steps, more[..|more| - 1], i);
      StepStaysUpToDate(Run(all[..|all| - 1]), all[|all| - 1], i);
    }
  }
}
