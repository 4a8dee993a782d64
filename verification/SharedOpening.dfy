/** Opening each workspace once, however many callers ask for it (internal/server/server.go). */
module SharedOpening {
  type Dir = nat

  datatype Answer = Opened(ws: nat) | OpenFailed | Busy | ShuttingDown

  // Where one call of the opener has got to.
  datatype OpPc =
    | Opening
    | Returned(ws: nat)  // it opened ws, which nobody else knows of yet
    | Refused(busy: bool)
    | Settled            // its outcome is decided and it is out of the map; waiters not yet told
    | Signalled

  datatype Op = Op(dir: Dir, pc: OpPc, outcome: Answer)

  datatype Caller = Waiting(op: nat) | Told(op: nat, answer: Answer) | Cancelled | AtOnce(answer: Answer)

  // closes counts, for every workspace ever opened, the calls of its Close; toClose are those a close of the
  // server or of one directory has taken out of the map and is about to close.
  datatype World = World(closed: bool, workspaces: map<Dir, nat>, opening: map<Dir, nat>, ops: seq<Op>,
                         callers: seq<Caller>,
                         closes: seq<nat>, openers: seq<nat>, toClose: set<nat>)

  datatype Step =
    | Call(dir: Dir)
    | OpenerOpens(op: nat)
    | OpenerFails(op: nat, busy: bool)
    | Settle(op: nat)
    | Signal(op: nat)
    | Receive(caller: nat)
    | Cancel(caller: nat)
    | CloseServer
    | CloseDir(dir: Dir)
    | CloseOne(ws: nat)

  function Start(): World {
    World(false, map[], map[], [], [], [], [], {})
  }

  predicate Enabled(w: World, s: Step) {
    match s
    case OpenerOpens(o) => o < |w.ops| && w.ops[o].pc.Opening?
    case OpenerFails(o, _) => o < |w.ops| && w.ops[o].pc.Opening?
    case Settle(o) => o < |w.ops| && (w.ops[o].pc.Refused? || (w.ops[o].pc.Returned? && w.ops[o].pc.ws < |w.closes|))
    case Signal(o) => o < |w.ops| && w.ops[o].pc.Settled?
    case Receive(c) => c < |w.callers| && w.callers[c].Waiting? && w.callers[c].op < |w.ops| &&
                       w.ops[w.callers[c].op].pc.Signalled?
    case Cancel(c) => c < |w.callers| && w.callers[c].Waiting?
    case CloseOne(ws) => ws in w.toClose && ws < |w.closes|
    case _ => true
  }

  function SetOp(w: World, o: nat, pc: OpPc, outcome: Answer): World
    requires o < |w.ops|
  {
    w.(ops := w.ops[o := w.ops[o].(pc := pc, outcome := outcome)])
  }

  function Asked(w: World, dir: Dir): World {
    if w.closed then w.(callers := w.callers + [AtOnce(ShuttingDown)])
    else if dir in w.workspaces then w.(callers := w.callers + [AtOnce(Opened(w.workspaces[dir]))])
    else if dir in w.opening then w.(callers := w.callers + [Waiting(w.opening[dir])])
    else w.(callers := w.callers + [Waiting(|w.ops|)], opening := w.opening[dir := |w.ops|],
            ops := w.ops + [Op(dir, Opening, OpenFailed)])
  }

  function SettledWorld(w: World, o: nat): World
    requires o < |w.ops|
  {
    var op := w.ops[o];
    var rest := w.(opening := w.opening - {op.dir});
    match op.pc
    case Refused(busy) => SetOp(rest, o, Settled, if busy then Busy else OpenFailed)
    case Returned(ws) =>
      if ws >= |w.closes| then w
      else if w.closed then SetOp(rest.(closes := w.closes[ws := w.closes[ws] + 1]), o, Settled, ShuttingDown)
      else SetOp(rest.(workspaces := w.workspaces[op.dir := ws]), o, Settled, Opened(ws))
    case _ => w
  }

  function Apply(w: World, s: Step): World {
    if !Enabled(w, s) then w
    else match s
      case Call(dir) => Asked(w, dir)
      case OpenerOpens(o) =>
        SetOp(w, o, Returned(|w.closes|), OpenFailed).(closes := w.closes + [0], openers := w.openers + [o])
      case OpenerFails(o, busy) => SetOp(w, o, Refused(busy), OpenFailed)
      case Settle(o) => SettledWorld(w, o)
      case Signal(o) => SetOp(w, o, Signalled, w.ops[o].outcome)
      case Receive(c) => w.(callers := w.callers[c := Told(w.callers[c].op, w.ops[w.callers[c].op].outcome)])
      case Cancel(c) => w.(callers := w.callers[c := Cancelled])
      case CloseServer => w.(closed := true, workspaces := map[], toClose := w.toClose + w.workspaces.Values)
      case CloseDir(dir) =>
        if dir in w.workspaces then w.(workspaces := w.workspaces - {dir}, toClose := w.toClose + {w.workspaces[dir]})
        else w
      case CloseOne(ws) => w.(toClose := w.toClose - {ws}, closes := w.closes[ws := w.closes[ws] + 1])
  }

  function Run(steps: seq<Step>): World {
    if steps == [] then Start() else Apply(Run(steps[..|steps| - 1]), steps[|steps| - 1])
  }

  // ---- What every interleaving keeps ----

  predicate InFlight(op: Op) { op.pc.Opening? || op.pc.Returned? || op.pc.Refused? }

  // The directories being opened are those of the opener calls in flight, one each, and none is open.
  predicate OpeningValid(w: World) {
    && (forall d | d in w.opening ::
          d !in w.workspaces && w.opening[d] < |w.ops| && w.ops[w.opening[d]].dir == d && InFlight(w.ops[w.opening[d]]))
    && (forall o | 0 <= o < |w.ops| && InFlight(w.ops[o]) :: w.ops[o].dir in w.opening && w.opening[w.ops[o].dir] == o)
    && (w.closed ==> w.workspaces == map[])
  }

  // Where a workspace that was opened is, and how many places that makes.
  predicate Held(w: World, ws: nat)
    requires |w.openers| == |w.closes| && ws < |w.closes|
  {
    w.openers[ws] < |w.ops| && w.ops[w.openers[ws]].pc == Returned(ws)
  }

  predicate Registered(w: World, ws: nat)
    requires |w.openers| == |w.closes| && ws < |w.closes|
  {
    w.openers[ws] < |w.ops| && var d := w.ops[w.openers[ws]].dir; d in w.workspaces && w.workspaces[d] == ws
  }

  function Places(w: World, ws: nat): nat
    requires |w.openers| == |w.closes| && ws < |w.closes|
  {
    (if Held(w, ws) then 1 else 0) + (if Registered(w, ws) then 1 else 0) + (if ws in w.toClose then 1 else 0) +
      w.closes[ws]
  }

  predicate PlacesValid(w: World) {
    && |w.openers| == |w.closes|
    && (forall ws | 0 <= ws < |w.openers| :: w.openers[ws] < |w.ops| && !w.ops[w.openers[ws]].pc.Opening?)
    && (forall ws | 0 <= ws < |w.closes| :: Places(w, ws) == 1)
    && (forall ws | ws in w.toClose :: ws < |w.closes|)
    && (forall d | d in w.workspaces :: w.workspaces[d] < |w.closes| && w.ops[w.openers[w.workspaces[d]]].dir == d)
    && (forall o | 0 <= o < |w.ops| && w.ops[o].pc.Returned? ::
          w.ops[o].pc.ws < |w.closes| && w.openers[w.ops[o].pc.ws] == o)
  }

  // A caller waits on a call that exists, and one that was told was told its outcome.
  predicate CallersValid(w: World) {
    forall c | 0 <= c < |w.callers| ::
      match w.callers[c]
      case Waiting(o) => o < |w.ops|
      case Told(o, a) => o < |w.ops| && w.ops[o].pc.Signalled? && a == w.ops[o].outcome
      case _ => true
  }

  predicate Valid(w: World) {
    OpeningValid(w) && PlacesValid(w) && CallersValid(w)
  }

  // ---- Keeping it ----

  lemma CallKeepsOpening(w: World, dir: Dir)
    requires OpeningValid(w)
    ensures OpeningValid(Asked(w, dir))
  {
  }

  lemma SettleKeepsOpening(w: World, o: nat)
    requires OpeningValid(w) && Enabled(w, Settle(o))
    ensures OpeningValid(SettledWorld(w, o))
  {
    assert InFlight(w.ops[o]);
  }

  // An opener call that stays on its side of being settled.
  lemma OpKeepsOpening(w: World, o: nat, pc: OpPc, outcome: Answer)
    requires OpeningValid(w) && o < |w.ops| && (InFlight(w.ops[o]) <==> InFlight(w.ops[o].(pc := pc)))
    ensures OpeningValid(SetOp(w, o, pc, outcome))
  {
  }

  lemma OpeningKept(w: World, s: Step)
    requires OpeningValid(w)
    ensures OpeningValid(Apply(w, s))
  {
    if Enabled(w, s) {
      match s
      case Call(dir) => CallKeepsOpening(w, dir);
      case Settle(o) => SettleKeepsOpening(w, o);
      case OpenerOpens(o) => OpKeepsOpening(w, o, Returned(|w.closes|), OpenFailed);
      case OpenerFails(o, busy) => OpKeepsOpening(w, o, Refused(busy), OpenFailed);
      case Signal(o) => OpKeepsOpening(w, o, Signalled, w.ops[o].outcome);
      case _ =>
    }
  }

  lemma CallersKept(w: World, s: Step)
    requires Valid(w)
    ensures CallersValid(Apply(w, s))
  {
    hide PlacesValid;
  }

  // A step that leaves a workspace's opener, its entry, its close and its count alone leaves it where it is.
  predicate Unmoved(w: World, w': World, ws: nat)
    requires |w.openers| == |w.closes| && ws < |w.closes| && |w'.openers| == |w'.closes| && ws < |w'.closes|
  {
    && (Held(w, ws) <==> Held(w', ws)) && (Registered(w, ws) <==> Registered(w', ws))
    && (ws in w.toClose <==> ws in w'.toClose) && w'.closes[ws] == w.closes[ws]
  }

  lemma CallKeepsPlaces(w: World, dir: Dir)
    requires Valid(w)
    ensures PlacesValid(Apply(w, Call(dir)))
  {
    hide CallersValid, OpeningValid;
    var w' := Apply(w, Call(dir));
    forall ws | 0 <= ws < |w'.closes| ensures Places(w', ws) == 1 {
      assert Places(w, ws) == 1;
      assert Unmoved(w, w', ws);
    }
  }

  lemma OpenKeepsPlaces(w: World, o: nat)
    requires Valid(w) && Enabled(w, OpenerOpens(o))
    ensures PlacesValid(Apply(w, OpenerOpens(o)))
  {
    hide CallersValid, OpeningValid;
    var w' := Apply(w, OpenerOpens(o));
    forall ws | 0 <= ws < |w'.closes| ensures Places(w', ws) == 1 {
      if ws < |w.closes| {
        assert Places(w, ws) == 1;
        assert Unmoved(w, w', ws);
      } else {
        assert Held(w', ws);
      }
    }
  }

  lemma FailKeepsPlaces(w: World, o: nat, busy: bool)
    requires Valid(w) && Enabled(w, OpenerFails(o, busy))
    ensures PlacesValid(Apply(w, OpenerFails(o, busy)))
  {
    hide CallersValid, OpeningValid;
    var w' := Apply(w, OpenerFails(o, busy));
    forall ws | 0 <= ws < |w'.closes| ensures Places(w', ws) == 1 {
      assert Places(w, ws) == 1;
      assert Unmoved(w, w', ws);
    }
  }

  lemma SignalKeepsPlaces(w: World, o: nat)
    requires Valid(w) && Enabled(w, Signal(o))
    ensures PlacesValid(Apply(w, Signal(o)))
  {
    hide CallersValid, OpeningValid;
    var w' := Apply(w, Signal(o));
    forall ws | 0 <= ws < |w'.closes| ensures Places(w', ws) == 1 {
      assert Places(w, ws) == 1;
      assert Unmoved(w, w', ws);
    }
  }

  lemma SettleKeepsPlaces(w: World, o: nat)
    requires Valid(w) && Enabled(w, Settle(o))
    ensures PlacesValid(Apply(w, Settle(o)))
  {
    hide CallersValid;
    var w' := Apply(w, Settle(o));
    assert InFlight(w.ops[o]) && w.ops[o].dir !in w.workspaces;
    hide OpeningValid;
    forall ws | 0 <= ws < |w'.closes| ensures Places(w', ws) == 1 {
      SettleKeepsPlace(w, o, ws);
    }
  }

  lemma SettleKeepsPlace(w: World, o: nat, ws: nat)
    requires PlacesValid(w) && Enabled(w, Settle(o)) && ws < |w.closes|
    requires InFlight(w.ops[o]) && w.ops[o].dir !in w.workspaces
    ensures Places(Apply(w, Settle(o)), ws) == 1
  {
    var w' := Apply(w, Settle(o));
    assert Places(w, ws) == 1;
    if w.ops[o].pc == Returned(ws) {
      assert Held(w, ws) && !Held(w', ws);
    } else {
      assert Unmoved(w, w', ws);
    }
  }

  lemma CloseKeepsPlaces(w: World, s: Step)
    requires Valid(w) && Enabled(w, s) && (s.CloseServer? || s.CloseDir? || s.CloseOne?)
    ensures PlacesValid(Apply(w, s))
  {
    hide CallersValid, OpeningValid;
    var w' := Apply(w, s);
    forall ws | 0 <= ws < |w'.closes| ensures Places(w', ws) == 1 {
      assert Places(w, ws) == 1;
      assert Registered(w, ws) ==> w.ops[w.openers[ws]].dir in w.workspaces;
      if s.CloseServer? && ws in w.workspaces.Values {
        var d :| d in w.workspaces && w.workspaces[d] == ws;
        assert Registered(w, ws);
      }
    }
  }

  lemma StepKeeps(w: World, s: Step)
    requires Valid(w)
    ensures Valid(Apply(w, s))
  {
    hide OpeningValid, PlacesValid, CallersValid;
    OpeningKept(w, s);
    CallersKept(w, s);
    if Enabled(w, s) {
      match s
      case Call(dir) => CallKeepsPlaces(w, dir);
      case OpenerOpens(o) => OpenKeepsPlaces(w, o);
      case OpenerFails(o, busy) => FailKeepsPlaces(w, o, busy);
      case Settle(o) => SettleKeepsPlaces(w, o);
      case Signal(o) => SignalKeepsPlaces(w, o);
      case Receive(c) => CallersMovePlaces(w, Apply(w, s).callers);
      case Cancel(c) => CallersMovePlaces(w, Apply(w, s).callers);
      case _ => CloseKeepsPlaces(w, s);
    }
  }

  lemma CallersMovePlaces(w: World, callers: seq<Caller>)
    requires PlacesValid(w)
    ensures PlacesValid(w.(callers := callers))
  {
    var w' := w.(callers := callers);
    forall ws | 0 <= ws < |w'.closes| ensures Places(w', ws) == 1 {
      assert Places(w, ws) == 1;
      assert Unmoved(w, w', ws);
    }
  }

  lemma {:induction false} RunsAreValid(steps: seq<Step>)
    ensures Valid(Run(steps))
  {
    hide Valid, Apply;
    if steps == [] {
      StartIsValid();
    } else {
      RunsAreValid(steps[..|steps| - 1]);
      StepKeeps(Run(steps[..|steps| - 1]), steps[|steps| - 1]);
    }
  }

  lemma StartIsValid()
    ensures Valid(Start())
  {
  }

  // ---- What that promises ----

  // At most one opener call per directory is in flight, and none for a directory that is open.
  lemma OneOpenerPerDirectory(steps: seq<Step>, o: nat, p: nat)
    requires var w := Run(steps);
             o < |w.ops| && p < |w.ops| && InFlight(w.ops[o]) && InFlight(w.ops[p]) && w.ops[o].dir == w.ops[p].dir
    ensures o == p && Run(steps).ops[o].dir !in Run(steps).workspaces
  {
    hide Run, PlacesValid, CallersValid;
    RunsAreValid(steps);
  }

  lemma {:induction false} OpeningAndOpenAreDisjoint(steps: seq<Step>)
    ensures Run(steps).opening.Keys !! Run(steps).workspaces.Keys
  {
    hide Run, PlacesValid, CallersValid;
    RunsAreValid(steps);
  }

  // Everyone who waited for one call of the opener and did not give up is told the same.
  lemma WaitersAgree(steps: seq<Step>, c: nat, d: nat)
    requires var w := Run(steps);
             c < |w.callers| && d < |w.callers| && w.callers[c].Told? && w.callers[d].Told? &&
             w.callers[c].op == w.callers[d].op
    ensures Run(steps).callers[c].answer == Run(steps).callers[d].answer
  {
    hide Run, PlacesValid, OpeningValid;
    RunsAreValid(steps);
  }

  // Nobody waits in vain: the opener is still at work, or something can be done to tell the caller.
  lemma WaitersAreServed(steps: seq<Step>, c: nat)
    requires c < |Run(steps).callers| && Run(steps).callers[c].Waiting?
    ensures var w := Run(steps); var o := w.callers[c].op;
      o < |w.ops| && (w.ops[o].pc.Opening? || Enabled(w, Settle(o)) || Enabled(w, Signal(o)) || Enabled(w, Receive(c)))
  {
    hide Run, OpeningValid;
    RunsAreValid(steps);
  }

  lemma ClosedStays(w: World, s: Step)
    requires w.closed
    ensures Apply(w, s).closed
  {
  }

  // After Close nothing is registered, then or ever.
  lemma {:induction false} NothingOpensAfterClose(before: seq<Step>, after: seq<Step>)
    requires Run(before).closed
    ensures Run(before + after).closed && Run(before + after).workspaces == map[]
  {
    hide Apply, PlacesValid, CallersValid;
    RunsAreValid(before + after);
    if after == [] {
      assert before + after == before;
    } else {
      var last := |after| - 1;
      NothingOpensAfterClose(before, after[..last]);
      assert (before + after)[..|before + after| - 1] == before + after[..last];
      ClosedStays(Run(before + after[..last]), after[last]);
    }
  }

  // A workspace is never closed twice.
  lemma NeverClosedTwice(steps: seq<Step>, ws: nat)
    requires ws < |Run(steps).closes|
    ensures Run(steps).closes[ws] <= 1
  {
    hide Run, OpeningValid, CallersValid, Held, Registered;
    RunsAreValid(steps);
    assert Places(Run(steps), ws) == 1;
  }

  // A workspace that no opener is about to hand over and no close is about to reach is open or was closed once;
  // after Close, it was closed once.
  lemma EveryWorkspaceIsClosedOnce(steps: seq<Step>, ws: nat)
    requires var w := Run(steps);
             ws < |w.closes| && ws !in w.toClose && forall o | 0 <= o < |w.ops| :: w.ops[o].pc != Returned(ws)
    ensures var w := Run(steps); (w.closes[ws] == 1 <==> ws !in w.workspaces.Values) && (w.closed ==> w.closes[ws] == 1)
  {
    hide Run, CallersValid;
    RunsAreValid(steps);
    var w := Run(steps);
    assert Places(w, ws) == 1;
    if ws in w.workspaces.Values {
      var d :| d in w.workspaces && w.workspaces[d] == ws;
      assert Registered(w, ws);
    }
    if Registered(w, ws) {
      assert w.workspaces[w.ops[w.openers[ws]].dir] in w.workspaces.Values;
    }
  }
}
