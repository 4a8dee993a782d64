/** The producer, workers and consumer of a parallel search, step by step (internal/tools/grep.go). */
module GrepSchedule {
  import opened Results
  import opened Grep

  // One file's result channel and the goroutine that fills it, or closes it with nothing sent if it is cancelled first.
  datatype Slot = Idle | Queued | Working | Sent(out: Option<seq<Match>>) | Closed(out: Option<seq<Match>>)

  datatype Producer = Pushing(i: nat) | NeedsWorker(i: nat) | Finished

  datatype Consumer = Fetching | Awaiting(i: nat) | Returned

  // order is the bounded queue of result channels, by file; sem counts the workers at work; taken, which the
  // program does not keep, counts the files gathered.
  datatype World = World(producer: Producer, consumer: Consumer, slots: seq<Slot>, order: seq<nat>, orderClosed: bool,
                         sem: nat, matches: seq<Match>, taken: nat)

  // What is searched: each file's own matches, the cap, and how many workers there are.
  datatype Search = Search(found: seq<seq<Match>>, max: nat, workers: nat)

  datatype Step =
    | Push         // hand the next file's channel to the consumer's queue
    | Spawn        // take a worker's place and start it
    | CloseOrder
    | Finish(i: nat)  // a worker sends what it found
    | Release(i: nat)
    | Fetch
    | FetchNone    // the queue is closed and empty
    | Receive
    | StopProducer // the consumer has returned, which cancels the rest
    | Skip(i: nat)

  function Start(s: Search): World {
    World(Pushing(0), Fetching, seq(|s.found|, _ => Idle), [], false, 0, [], 0)
  }

  predicate Enabled(s: Search, w: World, step: Step) {
    match step
    case Push => w.producer.Pushing? && w.producer.i < |w.slots| && |w.order| < 2 * s.workers
    case Spawn => w.producer.NeedsWorker? && w.producer.i < |w.slots| && w.sem < s.workers
    case CloseOrder => w.producer.Pushing? && w.producer.i >= |w.slots|
    case Finish(i) => i < |w.slots| && i < |s.found| && w.slots[i].Working?
    case Release(i) => i < |w.slots| && w.slots[i].Sent? && w.sem > 0
    case Fetch => w.consumer.Fetching? && w.order != []
    case FetchNone => w.consumer.Fetching? && w.order == [] && w.orderClosed
    case Receive => w.consumer.Awaiting? && w.consumer.i < |w.slots|
                    && (w.slots[w.consumer.i].Sent? || w.slots[w.consumer.i].Closed?)
    case StopProducer => w.consumer.Returned? && !w.producer.Finished?
    case Skip(i) => w.consumer.Returned? && i < |w.slots| && w.slots[i].Working?
  }

  function Apply(s: Search, w: World, step: Step): World {
    if !Enabled(s, w, step) then w
    else match step
      case Push =>
        w.(producer := NeedsWorker(w.producer.i), order := w.order + [w.producer.i],
           slots := w.slots[w.producer.i := Queued])
      case Spawn =>
        w.(producer := Pushing(w.producer.i + 1), sem := w.sem + 1, slots := w.slots[w.producer.i := Working])
      case CloseOrder => w.(producer := Finished, orderClosed := true)
      case Finish(i) => w.(slots := w.slots[i := Sent(Some(First(s.max, s.found[i])))])
      case Release(i) => w.(slots := w.slots[i := Closed(w.slots[i].out)], sem := w.sem - 1)
      case Fetch => w.(consumer := Awaiting(w.order[0]), order := w.order[1..])
      case FetchNone => w.(consumer := Returned)
      case Receive =>
        var out := w.slots[w.consumer.i].out;
        if out.None? then w.(taken := w.taken + 1, consumer := Fetching)
        else
          var all := w.matches + out.value;
          w.(matches := First(s.max, all), taken := w.taken + 1,
             consumer := if |all| >= s.max then Returned else Fetching)
      case StopProducer => w.(producer := Finished, orderClosed := true)
      case Skip(i) => w.(slots := w.slots[i := Sent(None)])
  }

  function Run(s: Search, steps: seq<Step>): World {
    if steps == [] then Start(s) else Apply(s, Run(s, steps[..|steps| - 1]), steps[|steps| - 1])
  }

  // ---- What every schedule keeps ----

  // The first file whose channel the consumer has not taken off the queue.
  function Ahead(w: World, n: nat): nat {
    match w.producer
    case Pushing(i) => i
    case NeedsWorker(i) => i + 1
    case Finished => n
  }

  function Busy(slots: seq<Slot>): nat {
    if slots == [] then 0
    else Busy(slots[..|slots| - 1]) + if slots[|slots| - 1].Working? || slots[|slots| - 1].Sent? then 1 else 0
  }

  // While the consumer is going: the files before taken have been gathered, and those up to the producer's are
  // in the queue, in order.
  predicate QueueFits(w: World) {
    var ahead := Ahead(w, |w.slots|);
    var from := if w.consumer.Awaiting? then w.taken + 1 else w.taken;
    && from <= ahead <= |w.slots|
    && (w.consumer.Awaiting? ==> w.consumer.i == w.taken)
    && w.order == Range(from, ahead)
  }

  // The files not handed over are untouched, and the producer starts the worker of the one it just handed over.
  predicate ProducerFits(w: World) {
    && (w.orderClosed <==> w.producer.Finished?)
    && Ahead(w, |w.slots|) <= |w.slots|
    && (w.producer.NeedsWorker? ==> w.producer.i < |w.slots| && w.slots[w.producer.i].Queued?)
    && (!w.producer.Finished? ==> forall i | Ahead(w, |w.slots|) <= i < |w.slots| :: w.slots[i].Idle?)
  }

  // Every other file handed over has its worker.
  predicate WorkersFit(w: World) {
    forall i | 0 <= i < Ahead(w, |w.slots|) && i < |w.slots| && !(w.producer.NeedsWorker? && i == w.producer.i) ::
      !w.slots[i].Idle? && !w.slots[i].Queued?
  }

  // A worker that ended before the search returned has sent its file's first matches.
  predicate ResultsFit(s: Search, w: World) {
    forall i | 0 <= i < |w.slots| && i < |s.found| && (w.slots[i].Sent? || w.slots[i].Closed?) ::
      w.slots[i].out == Some(First(s.max, s.found[i]))
  }

  predicate Gathered(s: Search, w: World) {
    w.taken <= |s.found| && |w.matches| < s.max && w.matches == First(s.max, Flat(Capped(s.max, s.found[..w.taken])))
  }

  function Range(a: nat, b: nat): (r: seq<nat>)
    ensures |r| == if a < b then b - a else 0
    ensures forall k | 0 <= k < |r| :: r[k] == a + k
    decreases b - a
  {
    if a < b then [a] + Range(a + 1, b) else []
  }

  // The sequential search: the first max of every file's matches, in walk order.
  function Sequential(s: Search): seq<Match> {
    First(s.max, Flat(s.found))
  }

  predicate Valid(s: Search, w: World) {
    && |w.slots| == |s.found| && w.sem == Busy(w.slots) <= s.workers && ProducerFits(w)
    && if w.consumer.Returned? then w.matches == Sequential(s)
       else QueueFits(w) && WorkersFit(w) && ResultsFit(s, w) && Gathered(s, w)
  }

  // ---- Counting workers ----

  predicate IsBusy(x: Slot) { x.Working? || x.Sent? }

  lemma {:induction false} BusyUpdate(slots: seq<Slot>, i: nat, x: Slot)
    requires i < |slots|
    ensures Busy(slots[i := x]) == Busy(slots) - (if IsBusy(slots[i]) then 1 else 0) + if IsBusy(x) then 1 else 0
  {
    var n := |slots| - 1;
    if i == n {
      assert slots[i := x][..n] == slots[..n];
    } else {
      assert slots[i := x][..n] == slots[..n][i := x];
      BusyUpdate(slots[..n], i, x);
    }
  }

  lemma {:induction false} IdleIsFree(slots: seq<Slot>)
    requires forall i | 0 <= i < |slots| :: slots[i].Idle?
    ensures Busy(slots) == 0
  {
    if slots != [] {
      IdleIsFree(slots[..|slots| - 1]);
    }
  }

  // ---- Gathering in order ----

  lemma {:induction false} FlatPrefix<T>(parts: seq<seq<T>>, n: nat)
    requires n <= |parts|
    ensures Flat(parts[..n]) <= Flat(parts)
    decreases |parts|
  {
    if n < |parts| {
      var m := |parts| - 1;
      FlatPrefix(parts[..m], n);
      assert parts[..m][..n] == parts[..n];
    } else {
      assert parts[..n] == parts;
    }
  }

  lemma FirstOfPrefix<T>(max: nat, a: seq<T>, b: seq<T>)
    requires a <= b && |a| >= max
    ensures First(max, a) == First(max, b)
  {
  }

  lemma FlatMore<T>(parts: seq<seq<T>>, part: seq<T>)
    ensures Flat(parts + [part]) == Flat(parts) + part
  {
    assert (parts + [part])[..|parts|] == parts;
  }

  lemma GatherNext(s: Search, w: World)
    requires Gathered(s, w) && w.taken < |s.found|
    ensures First(s.max, w.matches + First(s.max, s.found[w.taken])) ==
              First(s.max, Flat(Capped(s.max, s.found[..w.taken + 1])))
  {
    var before := Capped(s.max, s.found[..w.taken]);
    assert Capped(s.max, s.found[..w.taken + 1]) == before + [First(s.max, s.found[w.taken])];
    FlatMore(before, First(s.max, s.found[w.taken]));
    assert |Flat(before)| < s.max;
  }

  lemma GatheredEnough(s: Search, n: nat)
    requires n <= |s.found| && |Flat(Capped(s.max, s.found[..n]))| >= s.max
    ensures First(s.max, Flat(Capped(s.max, s.found[..n]))) == Sequential(s)
  {
    var capped := Capped(s.max, s.found);
    assert capped[..n] == Capped(s.max, s.found[..n]);
    FlatPrefix(capped, n);
    FirstOfPrefix(s.max, Flat(capped[..n]), Flat(capped));
    CappingChangesNothing(s.max, s.found);
  }

  lemma GatheredAll(s: Search, w: World)
    requires Gathered(s, w) && w.taken == |s.found|
    ensures w.matches == Sequential(s)
  {
    assert s.found[..w.taken] == s.found;
    CappingChangesNothing(s.max, s.found);
  }

  // ---- Steps ----

  lemma {:induction false} RangeMore(a: nat, b: nat)
    requires a <= b
    ensures Range(a, b) + [b] == Range(a, b + 1)
    decreases b - a
  {
    if a < b {
      RangeMore(a + 1, b);
      assert [a] + Range(a + 1, b) + [b] == [a] + (Range(a + 1, b) + [b]);
    }
  }

  lemma PushKeeps(s: Search, w: World)
    requires Valid(s, w) && Enabled(s, w, Push)
    ensures Valid(s, Apply(s, w, Push))
  {
    hide Busy, Gathered, Range;
    BusyUpdate(w.slots, w.producer.i, Queued);
    if !w.consumer.Returned? {
      RangeMore(if w.consumer.Awaiting? then w.taken + 1 else w.taken, w.producer.i);
    }
    PushKeepsGathered(s, w);
  }

  lemma SpawnKeeps(s: Search, w: World)
    requires Valid(s, w) && Enabled(s, w, Spawn)
    ensures Valid(s, Apply(s, w, Spawn))
  {
    hide Busy, Gathered, Range;
    BusyUpdate(w.slots, w.producer.i, Working);
    SpawnKeepsGathered(s, w);
  }

  lemma CloseKeeps(s: Search, w: World)
    requires Valid(s, w) && Enabled(s, w, CloseOrder)
    ensures Valid(s, Apply(s, w, CloseOrder))
  {
    hide Busy, Gathered, Range;
    CloseKeepsGathered(s, w);
  }

  lemma PushKeepsGathered(s: Search, w: World)
    requires Enabled(s, w, Push)
    ensures Gathered(s, w) ==> Gathered(s, Apply(s, w, Push))
  {
  }

  lemma SpawnKeepsGathered(s: Search, w: World)
    requires Enabled(s, w, Spawn)
    ensures Gathered(s, w) ==> Gathered(s, Apply(s, w, Spawn))
  {
  }

  lemma CloseKeepsGathered(s: Search, w: World)
    ensures Gathered(s, w) ==> Gathered(s, Apply(s, w, CloseOrder))
  {
  }

  lemma WorkerKeeps(s: Search, w: World, i: nat, x: Slot, sem: nat)
    requires Valid(s, w) && i < |w.slots| && !w.slots[i].Idle? && !w.slots[i].Queued? && !x.Idle? && !x.Queued?
    requires sem == w.sem - (if IsBusy(w.slots[i]) then 1 else 0) + if IsBusy(x) then 1 else 0
    requires sem <= s.workers
    requires !w.consumer.Returned? && (x.Sent? || x.Closed?) ==> x.out == Some(First(s.max, s.found[i]))
    ensures Valid(s, w.(slots := w.slots[i := x], sem := sem))
  {
    hide Busy, Range, Flat, Capped;
    BusyUpdate(w.slots, i, x);
  }

  lemma ConsumerKeeps(s: Search, w: World, step: Step)
    requires Valid(s, w) && Enabled(s, w, step) && (step.Fetch? || step.FetchNone? || step.Receive?)
    ensures Valid(s, Apply(s, w, step))
  {
    hide Busy, Capped, Flat, First, Sequential;
    match step
    case Fetch =>
      assert w.order == [w.order[0]] + w.order[1..];
    case FetchNone => GatheredAll(s, w);
    case Receive => ReceiveKeeps(s, w);
  }

  lemma ReceiveKeeps(s: Search, w: World)
    requires Valid(s, w) && Enabled(s, w, Receive)
    ensures Valid(s, Apply(s, w, Receive))
  {
    hide Busy, Capped, Flat, First, Sequential;
    GatherNext(s, w);
    FirstLength(s.max, w.matches + First(s.max, s.found[w.taken]));
    FirstLength(s.max, Flat(Capped(s.max, s.found[..w.taken + 1])));
    if |w.matches + First(s.max, s.found[w.taken])| >= s.max {
      GatheredEnough(s, w.taken + 1);
    }
  }

  lemma FirstLength<T>(max: nat, x: seq<T>)
    ensures |First(max, x)| <= max && (|First(max, x)| < max <==> |x| < max)
  {
  }

  lemma StepKeeps(s: Search, w: World, step: Step)
    requires Valid(s, w)
    ensures Valid(s, Apply(s, w, step))
  {
    hide Valid, Sequential;
    if Enabled(s, w, step) {
      if step.Push? {
        PushKeeps(s, w);
      } else if step.Spawn? {
        SpawnKeeps(s, w);
      } else if step.CloseOrder? {
        CloseKeeps(s, w);
      } else if step.Fetch? || step.FetchNone? || step.Receive? {
        ConsumerKeeps(s, w, step);
      } else if step.StopProducer? {
        StopKeeps(s, w);
      } else {
        WorkerBound(s, w);
        WorkerResult(s, w, step.i);
        WorkerKeeps(s, w, step.i, Apply(s, w, step).slots[step.i], Apply(s, w, step).sem);
      }
    }
  }

  lemma WorkerResult(s: Search, w: World, i: nat)
    requires Valid(s, w) && i < |w.slots|
    ensures !w.consumer.Returned? && w.slots[i].Sent? ==> w.slots[i].out == Some(First(s.max, s.found[i]))
  {
  }

  lemma WorkerBound(s: Search, w: World)
    requires Valid(s, w)
    ensures |w.slots| == |s.found| && w.sem <= s.workers
  {
  }

  lemma StopKeeps(s: Search, w: World)
    requires Valid(s, w) && Enabled(s, w, StopProducer)
    ensures Valid(s, Apply(s, w, StopProducer))
  {
  }

  lemma {:induction false} RunsAreValid(s: Search, steps: seq<Step>)
    requires s.max >= 1
    ensures Valid(s, Run(s, steps))
  {
    hide Valid, Apply;
    if steps == [] {
      StartIsValid(s);
    } else {
      RunsAreValid(s, steps[..|steps| - 1]);
      StepKeeps(s, Run(s, steps[..|steps| - 1]), steps[|steps| - 1]);
    }
  }

  lemma StartIsValid(s: Search)
    requires s.max >= 1
    ensures Valid(s, Start(s))
  {
    IdleIsFree(Start(s).slots);
    assert Capped(s.max, s.found[..0]) == [];
  }

  // However producer, workers and consumer interleave, a search that returns has the first max matches of all
  // files in walk order.
  lemma ParallelEqualsSequential(s: Search, steps: seq<Step>)
    requires s.max >= 1 && Run(s, steps).consumer.Returned?
    ensures Run(s, steps).matches == First(s.max, Flat(s.found))
  {
    hide Run;
    RunsAreValid(s, steps);
  }

  // ---- Every search returns ----

  // What is still to be done before the consumer returns, at most.
  function Left(w: World, n: nat): int {
    (match w.producer
     case Pushing(i) => 2 * (n - i) + 1
     case NeedsWorker(i) => 2 * (n - i)
     case Finished => 0)
    + Unsent(w.slots)
    + match w.consumer
      case Fetching => 2 * (n - w.taken) + 1
      case Awaiting(_) => 2 * (n - w.taken)
      case Returned => 0
  }

  function Unsent(slots: seq<Slot>): nat {
    if slots == [] then 0
    else Unsent(slots[..|slots| - 1]) + Weight(slots[|slots| - 1])
  }

  function Weight(x: Slot): nat {
    match x
    case Closed(_) => 0
    case Sent(_) => 1
    case _ => 2
  }

  lemma {:induction false} UnsentUpdate(slots: seq<Slot>, i: nat, x: Slot)
    requires i < |slots|
    ensures Unsent(slots[i := x]) == Unsent(slots) - Weight(slots[i]) + Weight(x)
  {
    var n := |slots| - 1;
    if i == n {
      assert slots[i := x][..n] == slots[..n];
    } else {
      assert slots[i := x][..n] == slots[..n][i := x];
      UnsentUpdate(slots[..n], i, x);
    }
  }

  // Until the consumer has returned some step can be taken, whatever the sizes of the queue and the pool.
  lemma NeverStuck(s: Search, steps: seq<Step>)
    requires s.max >= 1 && s.workers >= 1 && !Run(s, steps).consumer.Returned?
    ensures exists step: Step :: !step.StopProducer? && !step.Skip? && Enabled(s, Run(s, steps), step)
  {
    hide Run, Gathered;
    RunsAreValid(s, steps);
    ValidIsNeverStuck(s, Run(s, steps));
  }

  lemma {:induction false} SomeBusy(slots: seq<Slot>) returns (i: nat)
    requires Busy(slots) > 0
    ensures i < |slots| && IsBusy(slots[i])
  {
    var n := |slots| - 1;
    if IsBusy(slots[n]) {
      i := n;
    } else {
      i := SomeBusy(slots[..n]);
    }
  }

  lemma SomeWorkerGoesOn(s: Search, w: World)
    requires Valid(s, w) && w.sem > 0
    ensures exists step: Step :: !step.StopProducer? && !step.Skip? && Enabled(s, w, step)
  {
    hide Gathered, Busy, Range;
    var i := SomeBusy(w.slots);
    assert Enabled(s, w, if w.slots[i].Working? then Finish(i) else Release(i));
  }

  lemma ValidIsNeverStuck(s: Search, w: World)
    requires Valid(s, w) && s.workers >= 1 && !w.consumer.Returned?
    ensures exists step: Step :: !step.StopProducer? && !step.Skip? && Enabled(s, w, step)
  {
    hide Gathered, Busy, Range;
    if w.sem > 0 {
      SomeWorkerGoesOn(s, w);
    } else if w.consumer.Fetching? && w.order != [] {
      assert Enabled(s, w, Fetch);
    } else if w.consumer.Fetching? && w.orderClosed {
      assert Enabled(s, w, FetchNone);
    } else if w.producer.NeedsWorker? {
      assert Enabled(s, w, Spawn);
    } else if w.consumer.Fetching? {
      assert w.producer.Pushing?;
      assert Enabled(s, w, if w.producer.i < |w.slots| then Push else CloseOrder);
    } else {
      NotBusy(w.slots, w.taken);
      assert w.slots[w.taken].Closed?;
      assert Enabled(s, w, Receive);
    }
  }

  lemma {:induction false} NotBusy(slots: seq<Slot>, i: nat)
    requires Busy(slots) == 0 && i < |slots|
    ensures !IsBusy(slots[i])
  {
    if i < |slots| - 1 {
      NotBusy(slots[..|slots| - 1], i);
    }
  }

  lemma SlotStepUsesUp(s: Search, w: World, step: Step)
    requires Valid(s, w) && Enabled(s, w, step)
    requires step.Push? || step.Spawn? || step.Finish? || step.Release? || step.Skip?
    ensures Left(Apply(s, w, step), |s.found|) < Left(w, |s.found|)
  {
    hide QueueFits, WorkersFit, ResultsFit, Gathered, Sequential, Unsent, Busy, First;
    var e := Apply(s, w, step);
    match step
    case Push => UnsentUpdate(w.slots, w.producer.i, Queued);
    case Spawn => UnsentUpdate(w.slots, w.producer.i, Working);
    case Finish(i) => UnsentUpdate(w.slots, i, e.slots[i]);
    case Release(i) => UnsentUpdate(w.slots, i, e.slots[i]);
    case Skip(i) => UnsentUpdate(w.slots, i, e.slots[i]);
    case _ =>
  }

  lemma OtherStepUsesUp(s: Search, w: World, step: Step)
    requires Valid(s, w) && Enabled(s, w, step)
    requires !step.Push? && !step.Spawn? && !step.Finish? && !step.Release? && !step.Skip?
    ensures Left(Apply(s, w, step), |s.found|) < Left(w, |s.found|)
  {
    hide Gathered, WorkersFit, ResultsFit, Busy, Range, Unsent, First, Capped, Flat, Sequential, Weight;
    assert !w.consumer.Returned? ==> w.taken <= |s.found|;
  }

  // Each step is one fewer to come.
  lemma StepsUseThemselvesUp(s: Search, w: World, step: Step)
    requires Valid(s, w) && Enabled(s, w, step)
    ensures Left(Apply(s, w, step), |s.found|) < Left(w, |s.found|)
  {
    hide Valid, Enabled, Apply, Left;
    if step.Push? || step.Spawn? || step.Finish? || step.Release? || step.Skip? {
      SlotStepUsesUp(s, w, step);
    } else {
      OtherStepUsesUp(s, w, step);
    }
  }

  // Every step could be taken when it was.
  predicate Real(s: Search, steps: seq<Step>) {
    forall k | 0 <= k < |steps| :: Enabled(s, Run(s, steps[..k]), steps[k])
  }

  lemma {:induction false} AllUnsent(slots: seq<Slot>)
    requires forall i | 0 <= i < |slots| :: slots[i].Idle?
    ensures Unsent(slots) == 2 * |slots|
  {
    if slots != [] {
      AllUnsent(slots[..|slots| - 1]);
    }
  }

  lemma {:induction false} StepsAreBounded(s: Search, steps: seq<Step>)
    requires s.max >= 1 && Real(s, steps)
    ensures |steps| + Left(Run(s, steps), |s.found|) <= 6 * |s.found| + 2
  {
    hide Valid, Apply, Enabled, Left;
    if steps == [] {
      StartLeaves(s);
    } else {
      var before := steps[..|steps| - 1];
      forall k | 0 <= k < |before| ensures Enabled(s, Run(s, before[..k]), before[k]) {
        assert before[..k] == steps[..k] && before[k] == steps[k];
      }
      StepsAreBounded(s, before);
      RunsAreValid(s, before);
      StepsUseThemselvesUp(s, Run(s, before), steps[|steps| - 1]);
    }
  }

  lemma StartLeaves(s: Search)
    ensures Left(Start(s), |s.found|) == 6 * |s.found| + 2
  {
    AllUnsent(Start(s).slots);
  }

  // Every search ends: no schedule is longer than this, and where nothing can be done the consumer has returned, the
  // producer has stopped and every worker that was started has given its place back.
  lemma SearchesEnd(s: Search, steps: seq<Step>)
    requires s.max >= 1 && s.workers >= 1 && Real(s, steps)
    ensures |steps| <= 6 * |s.found| + 2
    ensures var w := Run(s, steps);
      (forall step: Step :: !Enabled(s, w, step)) ==>
        w.consumer.Returned? && w.producer.Finished? && w.orderClosed && w.sem == 0
        && forall i | 0 <= i < |w.slots| :: !w.slots[i].Working? && !w.slots[i].Sent?
  {
    hide Run, Real, Left, Gathered, Range;
    StepsAreBounded(s, steps);
    RunsAreValid(s, steps);
    var w := Run(s, steps);
    LeftIsNatural(s, w);
    if forall step: Step :: !Enabled(s, w, step) {
      if !w.consumer.Returned? {
        NeverStuck(s, steps);
      }
      assert !Enabled(s, w, StopProducer);
      if w.sem > 0 {
        SomeWorkerGoesOn(s, w);
      }
      forall i | 0 <= i < |w.slots| ensures !w.slots[i].Working? && !w.slots[i].Sent? {
        NotBusy(w.slots, i);
      }
    }
  }

  lemma LeftIsNatural(s: Search, w: World)
    requires Valid(s, w)
    ensures Left(w, |s.found|) >= 0
  {
    hide Gathered, Busy, Range, Sequential, Unsent;
  }

  // Few files are in flight, however many there are: each worker scans one, and until the search returns no file is
  // touched that is further on than the queue's length from those gathered.
  lemma FewAreInFlight(s: Search, steps: seq<Step>)
    requires s.max >= 1
    ensures Busy(Run(s, steps).slots) <= s.workers
    ensures var w := Run(s, steps);
      !w.consumer.Returned? ==> forall i | w.taken + 2 * s.workers < i < |w.slots| :: w.slots[i].Idle?
  {
    hide Run, Gathered, Busy;
    RunsAreValid(s, steps);
    QueueIsShort(s, steps);
  }

  lemma {:induction false} QueueIsShort(s: Search, steps: seq<Step>)
    ensures |Run(s, steps).order| <= 2 * s.workers
  {
    hide Apply;
    if steps != [] {
      QueueIsShort(s, steps[..|steps| - 1]);
      StepKeepsQueueShort(s, Run(s, steps[..|steps| - 1]), steps[|steps| - 1]);
    }
  }

  lemma StepKeepsQueueShort(s: Search, w: World, step: Step)
    requires |w.order| <= 2 * s.workers
    ensures |Apply(s, w, step).order| <= 2 * s.workers
  {
    hide First;
  }
}
