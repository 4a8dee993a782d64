/** What callers of a shared opening are told, and why (internal/server/server.go). */
module SharedOpeningAnswers {
  import opened SharedOpening

  // ---- Closing the server, and a directory ----

  // The server is closed exactly once somebody has closed it.
  lemma {:induction false} ClosedExactlyOnceAsked(steps: seq<Step>)
    ensures Run(steps).closed <==> CloseServer in steps
  {
    hide Apply;
    if steps != [] {
      var n := |steps| - 1;
      ClosedExactlyOnceAsked(steps[..n]);
      StepCloses(Run(steps[..n]), steps[n]);
      assert steps == steps[..n] + [steps[n]];
    } else {
      assert Run(steps) == Start();
    }
  }

  lemma StepCloses(w: World, s: Step)
    ensures Apply(w, s).closed <==> w.closed || s.CloseServer?
  {
  }

  // Closing a directory forgets it, with its workspace the next to be closed, and no other.
  lemma DirectoryIsForgotten(w: World, dir: Dir)
    ensures var e := Apply(w, CloseDir(dir));
      && dir !in e.workspaces
      && (forall d | d != dir :: (d in e.workspaces <==> d in w.workspaces)
                                 && (d in w.workspaces ==> e.workspaces[d] == w.workspaces[d]))
      && (forall x :: x in e.toClose <==> x in w.toClose || (dir in w.workspaces && x == w.workspaces[dir]))
  {
  }

  // ---- Whom a call waits for ----

  lemma StepKeepsCalls(w: World, s: Step)
    ensures |w.ops| <= |Apply(w, s).ops| && |w.callers| <= |Apply(w, s).callers|
    ensures forall o | 0 <= o < |w.ops| :: Apply(w, s).ops[o].dir == w.ops[o].dir
  {
  }

  lemma StepMovesCaller(w: World, s: Step, c: nat)
    requires c < |w.callers| <= |Apply(w, s).callers|
    ensures var (b, a) := (w.callers[c], Apply(w, s).callers[c]);
      || (a == b && (b.Waiting? ==> s != Cancel(c)))
      || (b.Waiting? && s == Cancel(c) && a == Cancelled)
      || (b.Waiting? && b.op < |w.ops| && w.ops[b.op].pc.Signalled? && a == Told(b.op, w.ops[b.op].outcome))
  {
  }

  // What becomes of a caller that asked for dir when the world was w.
  predicate Answered(w: World, dir: Dir, e: World, c: nat, gaveUp: bool) {
    && c < |e.callers|
    && var o := if dir in w.opening then w.opening[dir] else |w.ops|;
       match e.callers[c]
       case AtOnce(a) => if w.closed then a == ShuttingDown else dir in w.workspaces && a == Opened(w.workspaces[dir])
       case Waiting(p) => !w.closed && dir !in w.workspaces && p == o < |e.ops| && e.ops[o].dir == dir && !gaveUp
       case Told(p, a) => !w.closed && dir !in w.workspaces && p == o < |e.ops| && e.ops[o].dir == dir
       case Cancelled => !w.closed && dir !in w.workspaces && gaveUp
  }

  lemma CallIsAnswered(w: World, dir: Dir)
    requires OpeningValid(w)
    ensures Answered(w, dir, Apply(w, Call(dir)), |w.callers|, false)
  {
  }

  lemma AnswerGoesOn(w: World, dir: Dir, e: World, c: nat, gaveUp: bool, s: Step)
    requires Answered(w, dir, e, c, gaveUp)
    ensures Answered(w, dir, Apply(e, s), c, gaveUp || s == Cancel(c))
  {
    hide Apply;
    StepKeepsCalls(e, s);
    StepMovesCaller(e, s, c);
  }

  // A caller is refused at once if the server has closed, gets the workspace at once if the directory is open, and
  // otherwise shares the opening in flight for that directory, or starts one; it is told nothing else, and stops
  // waiting unanswered exactly if it gives up.
  lemma {:induction false} EveryCallIsAnswered(before: seq<Step>, dir: Dir, after: seq<Step>)
    ensures Answered(Run(before), dir, Run(before + [Call(dir)] + after), |Run(before).callers|,
                     Cancel(|Run(before).callers|) in after)
  {
    hide Apply, Answered, OpeningValid, PlacesValid, CallersValid;
    var all := before + [Call(dir)] + after;
    var n := |all| - 1;
    var c := |Run(before).callers|;
    if after == [] {
      assert all[..n] == before && all[n] == Call(dir);
      RunsAreValid(before);
      CallIsAnswered(Run(before), dir);
      assert Run(all) == Apply(Run(before), Call(dir));
    } else {
      var m := |after| - 1;
      assert all[..n] == before + [Call(dir)] + after[..m] && all[n] == after[m];
      EveryCallIsAnswered(before, dir, after[..m]);
      assert after == after[..m] + [after[m]];
      AnswerGoesOn(Run(before), dir, Run(all[..n]), c, Cancel(c) in after[..m], after[m]);
      assert Run(all) == Apply(Run(all[..n]), all[n]);
    }
  }

  // ---- Why an opening ends as it does ----

  ghost predicate Took(steps: seq<Step>, k: nat, s: Step) {
    k < |steps| && steps[k] == s && Enabled(Run(steps[..k]), s)
  }

  ghost predicate FailedAs(steps: seq<Step>, o: nat, busy: bool) {
    exists k: nat :: Took(steps, k, OpenerFails(o, busy))
  }

  ghost predicate DidOpen(steps: seq<Step>, o: nat) {
    exists k: nat :: Took(steps, k, OpenerOpens(o))
  }

  // It was settled when the server was, or was not, closed.
  ghost predicate SettledWhen(steps: seq<Step>, o: nat, closed: bool) {
    exists k: nat :: Took(steps, k, Settle(o)) && Run(steps[..k]).closed == closed
  }

  lemma TookEarlier(steps: seq<Step>, k: nat, s: Step)
    requires steps != []
    ensures var n := |steps| - 1;
      Took(steps, k, s) <==> Took(steps[..n], k, s) || (k == n && s == steps[n] && Enabled(Run(steps[..n]), s))
    ensures k < |steps| - 1 ==> Run(steps[..|steps| - 1][..k]) == Run(steps[..k])
  {
    hide Enabled, Run;
    var n := |steps| - 1;
    if k < n {
      assert steps[..n][..k] == steps[..k];
    }
  }

  lemma EarlierStory(steps: seq<Step>, o: nat)
    requires steps != []
    ensures var n := |steps| - 1; var (b, w, s) := (steps[..n], Run(steps[..n]), steps[n]);
      && (forall busy ::
            FailedAs(steps, o, busy) <==> FailedAs(b, o, busy) || (s == OpenerFails(o, busy) && Enabled(w, s)))
      && (DidOpen(steps, o) <==> DidOpen(b, o) || (s == OpenerOpens(o) && Enabled(w, s)))
      && (forall closed ::
            SettledWhen(steps, o, closed) <==>
            SettledWhen(b, o, closed) || (s == Settle(o) && Enabled(w, s) && w.closed == closed))
  {
    hide Enabled, Run, Took;
    var n := |steps| - 1;
    var b := steps[..n];
    forall k: nat, s ensures Took(steps, k, s) <==> Took(b, k, s) || (k == n && s == steps[n] && Enabled(Run(b), s))
                     ensures k < n ==> Run(b[..k]) == Run(steps[..k])
    {
      TookEarlier(steps, k, s);
    }
    forall k: nat, s | Took(b, k, s) ensures k < n {
      TookInside(b, k, s);
    }
  }

  lemma TookInside(steps: seq<Step>, k: nat, s: Step)
    requires Took(steps, k, s)
    ensures k < |steps|
  {
  }

  // What an opening has come to, by what its opener did and by whether the server was closed as it was settled.
  predicate Comes(op: Op, failed: bool, busy: bool, did: bool, settledOpen: bool, settledClosed: bool) {
    match op.pc
    case Opening => !failed && !busy && !did && !settledOpen && !settledClosed
    case Returned(_) => !failed && !busy && did && !settledOpen && !settledClosed
    case Refused(b) => failed == !b && busy == b && !did && !settledOpen && !settledClosed
    case _ =>
      && settledOpen != settledClosed
      && if did then !failed && !busy && (if settledOpen then op.outcome.Opened? else op.outcome == ShuttingDown)
         else failed != busy && op.outcome == if busy then Busy else OpenFailed
  }

  ghost predicate Story(steps: seq<Step>, o: nat) {
    if o < |Run(steps).ops| then
      Comes(Run(steps).ops[o], FailedAs(steps, o, false), FailedAs(steps, o, true), DidOpen(steps, o),
            SettledWhen(steps, o, false), SettledWhen(steps, o, true))
    else
      !FailedAs(steps, o, false) && !FailedAs(steps, o, true) && !DidOpen(steps, o)
      && !SettledWhen(steps, o, false) && !SettledWhen(steps, o, true)
  }

  // One step of it, where it is the opening's own.
  lemma StepComes(w: World, s: Step, o: nat, failed: bool, busy: bool, did: bool, open: bool, closed: bool)
    requires if o < |w.ops| then Comes(w.ops[o], failed, busy, did, open, closed)
             else !failed && !busy && !did && !open && !closed
    ensures var e := Apply(w, s);
      var (failed', busy') := (failed || (s == OpenerFails(o, false) && Enabled(w, s)),
                               busy || (s == OpenerFails(o, true) && Enabled(w, s)));
      var did' := did || (s == OpenerOpens(o) && Enabled(w, s));
      var (open', closed') := (open || (s == Settle(o) && Enabled(w, s) && w.closed == false),
                               closed || (s == Settle(o) && Enabled(w, s) && w.closed == true));
      if o < |e.ops| then Comes(e.ops[o], failed', busy', did', open', closed')
      else !failed' && !busy' && !did' && !open' && !closed'
  {
  }

  lemma {:induction false} EveryOpeningHasAStory(steps: seq<Step>, o: nat)
    ensures Story(steps, o)
  {
    hide Apply, Enabled, Comes, FailedAs, DidOpen, SettledWhen;
    if steps == [] {
      NoStoryYet(o);
    } else {
      var n := |steps| - 1;
      var b := steps[..n];
      EveryOpeningHasAStory(b, o);
      EarlierStory(steps, o);
      StepComes(Run(b), steps[n], o, FailedAs(b, o, false), FailedAs(b, o, true), DidOpen(b, o),
                SettledWhen(b, o, false), SettledWhen(b, o, true));
    }
  }

  lemma NoStoryYet(o: nat)
    ensures Story([], o)
  {
  }

  // An opening whose outcome is known was busy, or failed, exactly if its opener said so; otherwise the opener did
  // open the directory, and those who wait get the workspace exactly if the server was not closed meanwhile.
  lemma OutcomesHaveCauses(steps: seq<Step>, o: nat)
    requires o < |Run(steps).ops| && (Run(steps).ops[o].pc.Settled? || Run(steps).ops[o].pc.Signalled?)
    ensures var outcome := Run(steps).ops[o].outcome;
      && (outcome == Busy <==> FailedAs(steps, o, true))
      && (outcome == OpenFailed <==> FailedAs(steps, o, false))
      && (outcome == ShuttingDown <==> DidOpen(steps, o) && SettledWhen(steps, o, true))
      && (outcome.Opened? <==> DidOpen(steps, o) && SettledWhen(steps, o, false))
  {
    hide Run, FailedAs, DidOpen, SettledWhen;
    EveryOpeningHasAStory(steps, o);
  }

  // ---- Whose workspace it is ----

  predicate CameFrom(op: Op, o: nat, openers: seq<nat>) {
    && (op.pc.Returned? ==> op.pc.ws < |openers| && openers[op.pc.ws] == o)
    && (op.outcome.Opened? ==> op.outcome.ws < |openers| && openers[op.outcome.ws] == o)
  }

  predicate OpenedFor(w: World, d: Dir, ws: nat) {
    ws < |w.openers| && w.openers[ws] < |w.ops| && w.ops[w.openers[ws]].dir == d
  }

  predicate Owned(w: World) {
    && (forall o | 0 <= o < |w.ops| :: CameFrom(w.ops[o], o, w.openers))
    && (forall d | d in w.workspaces :: OpenedFor(w, d, w.workspaces[d]))
    && |w.openers| == |w.closes|
  }

  lemma OtherStepStaysOwned(w: World, s: Step)
    requires Owned(w) && !(s.OpenerOpens? || s.OpenerFails? || s.Settle? || s.Signal?)
    ensures Owned(Apply(w, s))
  {
  }

  lemma OwnOpComesFrom(w: World, s: Step)
    requires Owned(w) && Enabled(w, s) && (s.OpenerOpens? || s.OpenerFails? || s.Settle? || s.Signal?)
    ensures var e := Apply(w, s);
      && |e.ops| == |w.ops| && s.op < |w.ops| && CameFrom(e.ops[s.op], s.op, e.openers)
      && w.openers <= e.openers && |e.openers| == |e.closes|
      && forall o | 0 <= o < |w.ops| && o != s.op :: e.ops[o] == w.ops[o]
  {
  }

  lemma OwnOpOpensFor(w: World, s: Step)
    requires Owned(w) && Enabled(w, s) && (s.OpenerOpens? || s.OpenerFails? || s.Settle? || s.Signal?)
    ensures var e := Apply(w, s); forall d | d in e.workspaces :: OpenedFor(e, d, e.workspaces[d])
  {
  }

  // A step of one opening's own.
  lemma OpStepStaysOwned(w: World, s: Step)
    requires Owned(w) && Enabled(w, s) && (s.OpenerOpens? || s.OpenerFails? || s.Settle? || s.Signal?)
    ensures Owned(Apply(w, s))
  {
    OwnOpComesFrom(w, s);
    OwnOpOpensFor(w, s);
    hide Apply, OpenedFor;
    var e := Apply(w, s);
    forall o | 0 <= o < |e.ops| ensures CameFrom(e.ops[o], o, e.openers) {
      if o != s.op {
        assert CameFrom(w.ops[o], o, w.openers);
      }
    }
  }

  lemma StepStaysOwned(w: World, s: Step)
    requires Owned(w)
    ensures Owned(Apply(w, s))
  {
    hide Owned, Apply;
    if s.OpenerOpens? || s.OpenerFails? || s.Settle? || s.Signal? {
      if Enabled(w, s) {
        OpStepStaysOwned(w, s);
      } else {
        NoStep(w, s);
      }
    } else {
      OtherStepStaysOwned(w, s);
    }
  }

  lemma NoStep(w: World, s: Step)
    requires !Enabled(w, s)
    ensures Apply(w, s) == w
  {
  }

  // A workspace that an opening came to, or that is open for a directory, was opened for that directory.
  lemma {:induction false} WorkspacesAreTheirOwn(steps: seq<Step>)
    ensures Owned(Run(steps))
  {
    hide Owned, Apply;
    if steps == [] {
      NothingOwned();
    } else {
      WorkspacesAreTheirOwn(steps[..|steps| - 1]);
      StepStaysOwned(Run(steps[..|steps| - 1]), steps[|steps| - 1]);
    }
  }

  lemma NothingOwned()
    ensures Owned(Start())
  {
  }
}
