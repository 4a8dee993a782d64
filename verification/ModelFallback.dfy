/** Trying models in order behind their circuit breakers (internal/runtime/fallback.go). */
module ModelFallback {
  import opened Results
  import opened CircuitBreaker

  // What a model's stream would produce; nothing is read after a failure. cancelled says whether
  // the turn was cancelled by then.
  datatype Item = Response(v: nat) | Failed(err: nat, cancelled: bool)

  // What the consumer is given. marked says that the response carries the primary's name.
  datatype Out = Answer(from: nat, v: nat, marked: bool) | Error(err: nat) | AllFailed(errs: seq<(nat, nat)>)

  datatype Verdict = Succeeded | Faulted | Abandoned

  // A model that was called, and what its breaker was told.
  datatype Attempt = Attempt(model: nat, verdict: Verdict, err: nat)

  function ReportOf(v: Verdict, at: int): Call {
    match v
    case Succeeded => Success
    case Faulted => Failure(at)
    case Abandoned => Abandon
  }

  // A model that fails before producing anything, with the turn still wanted: the next one is tried.
  predicate Skips(script: seq<Item>) {
    script != [] && script[0].Failed? && !script[0].cancelled
  }

  predicate AllResponses(script: seq<Item>, n: nat) {
    n <= |script| && forall k | 0 <= k < n :: script[k].Response?
  }

  predicate Delivers(i: nat, script: seq<Item>, n: nat, outs: seq<Out>) {
    AllResponses(script, n) && n <= |outs| && forall k | 0 <= k < n :: outs[k] == Answer(i, script[k].v, i > 0)
  }

  // The consumer went on after each of the first n outputs.
  predicate Keeps(keep: seq<Out> -> bool, outs: seq<Out>, n: nat) {
    n <= |outs| && forall k | 1 <= k <= n :: keep(outs[..k])
  }

  // A call that ended with model i: it read n responses, then the stream ended, the consumer stopped, or an
  // error came that could not be hidden.
  predicate EndedWith(i: nat, script: seq<Item>, keep: seq<Out> -> bool, n: nat, outs: seq<Out>, a: Attempt) {
    && a.model == i
    && Delivers(i, script, n, outs)
    && ( || (|outs| == n == |script| && Keeps(keep, outs, n) && a.verdict == Succeeded)
         || (|outs| == n && n > 0 && Keeps(keep, outs, n - 1) && !keep(outs) && a.verdict == Succeeded)
         || (&& n < |script| && script[n].Failed? && Keeps(keep, outs, n)
             && outs == outs[..n] + [Error(script[n].err)]
             && (script[n].cancelled || n > 0)
             && a.verdict == if script[n].cancelled then Abandoned else Faulted))
  }

  predicate Ended(i: nat, script: seq<Item>, keep: seq<Out> -> bool, outs: seq<Out>, a: Attempt) {
    exists n | 0 <= n <= |script| :: EndedWith(i, script, keep, n, outs, a)
  }

  predicate SkippedAll(scripts: seq<seq<Item>>, log: seq<Attempt>) {
    forall k | 0 <= k < |log| ::
      log[k].model < |scripts| && Skips(scripts[log[k].model]) && log[k].verdict == Faulted
      && log[k].err == scripts[log[k].model][0].err
  }

  // The positions of the models let through, in order.
  function Indices(grants: seq<bool>): seq<nat> {
    if grants == [] then []
    else Indices(grants[..|grants| - 1]) + if grants[|grants| - 1] then [|grants| - 1] else []
  }

  function Models(log: seq<Attempt>): seq<nat> {
    seq(|log|, k requires 0 <= k < |log| => log[k].model)
  }

  function Errors(log: seq<Attempt>): seq<(nat, nat)> {
    seq(|log|, k requires 0 <= k < |log| => (log[k].model, log[k].err))
  }

  // One pass over the chain: which models it was let through to, and how it ended.
  predicate Passed(scripts: seq<seq<Item>>, keep: seq<Out> -> bool, grants: seq<bool>, log: seq<Attempt>,
                   outs: seq<Out>, done: bool) {
    && |grants| <= |scripts|
    && Models(log) == Indices(grants)
    && if done then
         && grants != [] && grants[|grants| - 1] && log != []
         && SkippedAll(scripts, log[..|log| - 1])
         && Ended(|grants| - 1, scripts[|grants| - 1], keep, outs, log[|log| - 1])
       else
         |grants| == |scripts| && SkippedAll(scripts, log) && outs == []
  }

  predicate NoneAllowed(asked: seq<bool>) {
    forall i | 0 <= i < |asked| :: !asked[i]
  }

  // A whole call: asked are the breakers' answers in the first pass, grants the models let through.
  predicate Completed(scripts: seq<seq<Item>>, keep: seq<Out> -> bool, asked: seq<bool>, grants: seq<bool>,
                      log: seq<Attempt>, outs: seq<Out>) {
    && (grants == asked || (NoneAllowed(asked) && |asked| == |scripts| && forall i | 0 <= i < |grants| :: grants[i]))
    && (grants == asked && |asked| == |scripts| > 0 ==> !NoneAllowed(asked))
    && (Passed(scripts, keep, grants, log, outs, true)
        || (Passed(scripts, keep, grants, log, [], false) && outs == [AllFailed(Errors(log))]))
  }

  function AfterAsk(s: State, asked: bool, at: int): State {
    if asked then Next(s, Allow(at)) else s
  }

  // What one call leaves of breaker j: at most one Allow, then the report of its attempt if there was one.
  function AfterCall(s: State, j: nat, asks: nat, askAt: nat -> int, log: seq<Attempt>, endAt: nat -> int): State {
    AfterLog(AfterAsk(s, j < asks, askAt(j)), j, log, endAt)
  }

  function AfterLog(s: State, j: nat, log: seq<Attempt>, endAt: nat -> int): State {
    if log == [] then s
    else
      var before := AfterLog(s, j, log[..|log| - 1], endAt);
      var a := log[|log| - 1];
      if a.model == j then Next(before, ReportOf(a.verdict, endAt(j))) else before
  }

  predicate Below(log: seq<Attempt>, n: nat) {
    forall k | 0 <= k < |log| :: log[k].model < n
  }

  lemma {:induction false} Untouched(s: State, j: nat, log: seq<Attempt>, endAt: nat -> int)
    requires Below(log, j)
    ensures AfterLog(s, j, log, endAt) == s
  {
    if log != [] {
      Untouched(s, j, log[..|log| - 1], endAt);
    }
  }

  lemma LogGrows(s: State, j: nat, log: seq<Attempt>, a: Attempt, endAt: nat -> int)
    ensures AfterLog(s, j, log + [a], endAt)
         == if a.model == j then Next(AfterLog(s, j, log, endAt), ReportOf(a.verdict, endAt(j)))
            else AfterLog(s, j, log, endAt)
  {
    assert (log + [a])[..|log|] == log;
  }

  // A pass so far: settled, or every model let through was skipped.
  predicate GoingOn(scripts: seq<seq<Item>>, keep: seq<Out> -> bool, grants: seq<bool>, log: seq<Attempt>,
                    outs: seq<Out>, done: bool) {
    && |grants| <= |scripts| && Below(log, |grants|)
    && if done then Passed(scripts, keep, grants, log, outs, true)
       else Models(log) == Indices(grants) && SkippedAll(scripts, log) && outs == []
  }

  lemma PassStarts(scripts: seq<seq<Item>>, keep: seq<Out> -> bool)
    ensures GoingOn(scripts, keep, [], [], [], false)
  {
  }

  lemma PassGoesOn(scripts: seq<seq<Item>>, keep: seq<Out> -> bool, grants: seq<bool>, log: seq<Attempt>,
                   ok: bool, a: Attempt, outs: seq<Out>, done: bool)
    requires GoingOn(scripts, keep, grants, log, [], false) && |grants| < |scripts| && a.model == |grants|
    requires !done ==> outs == []
    requires !ok ==> !done
    requires ok && !done ==> Skips(scripts[|grants|]) && a.verdict == Faulted && a.err == scripts[|grants|][0].err
    requires ok && done ==> Ended(|grants|, scripts[|grants|], keep, outs, a)
    ensures GoingOn(scripts, keep, grants + [ok], if ok then log + [a] else log, outs, done)
  {
    hide Ended, Skips;
    assert (grants + [ok])[..|grants|] == grants;
    assert (log + [a])[..|log|] == log;
    assert Models(log + [a]) == Models(log) + [a.model];
  }

  lemma PassEnds(scripts: seq<seq<Item>>, keep: seq<Out> -> bool, grants: seq<bool>, log: seq<Attempt>,
                 outs: seq<Out>, done: bool)
    requires GoingOn(scripts, keep, grants, log, outs, done) && (done || |grants| == |scripts|)
    ensures Passed(scripts, keep, grants, log, outs, done)
  {
    hide Ended, SkippedAll, Indices, Models;
  }

  class FallbackModel {
    const health: seq<Breaker>

    ghost predicate Valid() {
      forall i, j | 0 <= i < j < |health| :: health[i] != health[j]
    }

    constructor (health: seq<Breaker>)
      requires forall i, j | 0 <= i < j < |health| :: health[i] != health[j]
      ensures Valid() && this.health == health
    {
      this.health := health;
    }

    // Runs one model and reports exactly one verdict on it.
    method Try(i: nat, script: seq<Item>, keep: seq<Out> -> bool, at: int)
      returns (done: bool, outs: seq<Out>, a: Attempt)
      requires i < |health|
      modifies health[i]
      ensures health[i].View() == Next(old(health[i].View()), ReportOf(a.verdict, at))
      ensures a.model == i
      ensures !done ==> Skips(script) && outs == [] && a.verdict == Faulted && a.err == script[0].err
      ensures done ==> Ended(i, script, keep, outs, a)
    {
      outs := [];
      var n := 0;
      while n < |script|
        invariant n <= |script| && |outs| == n
        invariant Delivers(i, script, n, outs) && Keeps(keep, outs, n)
        invariant health[i].View() == old(health[i].View())
      {
        match script[n]
        case Failed(err, cancelled) =>
          if cancelled {
            health[i].Abandon();
            a := Attempt(i, Abandoned, err);
          } else if n > 0 {
            var _, _, _ := health[i].Failure(at);
            a := Attempt(i, Faulted, err);
          } else {
            var _, _, _ := health[i].Failure(at);
            return false, [], Attempt(i, Faulted, err);
          }
          ghost var before := outs;
          outs := outs + [Error(err)];
          assert outs[..n] == before;
          assert forall k | 1 <= k <= n :: outs[..k] == before[..k];
          assert EndedWith(i, script, keep, n, outs, a);
          return true, outs, a;
        case Response(v) =>
          ghost var before := outs;
          outs := outs + [Answer(i, v, i > 0)];
          n := n + 1;
          assert forall k | 1 <= k < n :: outs[..k] == before[..k];
          assert outs[..n] == outs;
          if !keep(outs) {
            var _ := health[i].Success();
            a := Attempt(i, Succeeded, 0);
            assert EndedWith(i, script, keep, n, outs, a);
            return true, outs, a;
          }
      }
      var _ := health[i].Success();
      a := Attempt(i, Succeeded, 0);
      assert EndedWith(i, script, keep, n, outs, a);
      return true, outs, a;
    }

    // One model's turn: its breaker is asked just before, unless the pass is forced.
    method Offer(i: nat, force: bool, script: seq<Item>, keep: seq<Out> -> bool, ask: int, at: int)
      returns (ok: bool, done: bool, outs: seq<Out>, a: Attempt)
      requires i < |health|
      modifies health[i]
      ensures ok == (force || Allowed(old(health[i].View()), ask))
      ensures var asked := AfterAsk(old(health[i].View()), !force, ask);
        health[i].View() == if ok then Next(asked, ReportOf(a.verdict, at)) else asked
      ensures a.model == i
      ensures !done ==> outs == []
      ensures !ok ==> !done
      ensures ok && !done ==> Skips(script) && a.verdict == Faulted && a.err == script[0].err
      ensures ok && done ==> Ended(i, script, keep, outs, a)
    {
      hide Ended, Next;
      ok, done, outs, a := true, false, [], Attempt(i, Abandoned, 0);
      if !force {
        var retryIn;
        ok, retryIn := health[i].Allow(ask);
      }
      if ok {
        done, outs, a := Try(i, script, keep, at);
      }
    }

    // One pass over the chain, ending early when a model settles the call.
    method Pass(force: bool, scripts: seq<seq<Item>>, keep: seq<Out> -> bool, askAt: nat -> int, endAt: nat -> int)
      returns (done: bool, outs: seq<Out>, grants: seq<bool>, log: seq<Attempt>)
      requires Valid() && |scripts| == |health|
      modifies health
      ensures Passed(scripts, keep, grants, log, outs, done)
      ensures force ==> forall i | 0 <= i < |grants| :: grants[i]
      ensures !force ==> forall i | 0 <= i < |grants| :: grants[i] == Allowed(old(health[i].View()), askAt(i))
      ensures forall j | 0 <= j < |health| ::
        health[j].View() == AfterCall(old(health[j].View()), j, if force then 0 else |grants|, askAt, log, endAt)
    {
      hide Skips, Ended, Next, Allowed, AfterLog, Indices, SkippedAll, Models, Passed;
      done, outs, grants, log := false, [], [], [];
      assert GoingOn(scripts, keep, grants, log, outs, done) by { PassStarts(scripts, keep); }
      while |grants| < |scripts| && !done
        invariant |grants| <= |scripts| && GoingOn(scripts, keep, grants, log, outs, done)
        invariant forall k | 0 <= k < |grants| :: grants[k] == (force || Allowed(old(health[k].View()), askAt(k)))
        invariant forall j | |grants| <= j < |health| :: health[j].View() == old(health[j].View())
        invariant forall j | 0 <= j < |grants| ::
          health[j].View() == AfterLog(AfterAsk(old(health[j].View()), !force, askAt(j)), j, log, endAt)
      {
        var i := |grants|;
        assert |grants| < |scripts| && Below(log, i);
        var ok, a;
        ok, done, outs, a := Offer(i, force, scripts[i], keep, askAt(i), endAt(i));
        PassGoesOn(scripts, keep, grants, log, ok, a, outs, done);
        forall j | 0 <= j <= i
          ensures var s := AfterAsk(old(health[j].View()), !force, askAt(j));
            AfterLog(s, j, if ok then log + [a] else log, endAt)
            == if j < i then AfterLog(s, j, log, endAt) else if ok then Next(s, ReportOf(a.verdict, endAt(j))) else s
        {
          var s := AfterAsk(old(health[j].View()), !force, askAt(j));
          Untouched(s, i, log, endAt);
          LogGrows(s, j, log, a, endAt);
        }
        grants := grants + [ok];
        log := if ok then log + [a] else log;
      }
      forall j | |grants| <= j < |health|
        ensures AfterLog(old(health[j].View()), j, log, endAt) == old(health[j].View())
      {
        Untouched(old(health[j].View()), j, log, endAt);
      }
      PassEnds(scripts, keep, grants, log, outs, done);
    }

    // A call: the models whose breakers allow it, or, when none did, all of them.
    method GenerateContent(scripts: seq<seq<Item>>, keep: seq<Out> -> bool, askAt: nat -> int, endAt: nat -> int)
      returns (outs: seq<Out>, asked: seq<bool>, grants: seq<bool>, log: seq<Attempt>)
      requires Valid() && |scripts| == |health|
      modifies health
      ensures Completed(scripts, keep, asked, grants, log, outs)
      ensures |asked| <= |health|
      ensures forall i | 0 <= i < |asked| :: asked[i] == Allowed(old(health[i].View()), askAt(i))
      ensures forall j | 0 <= j < |health| ::
        health[j].View() == AfterCall(old(health[j].View()), j, |asked|, askAt, log, endAt)
    {
      hide Passed, Completed, Next, Allowed, AfterLog;
      var done;
      done, outs, grants, log := Pass(false, scripts, keep, askAt, endAt);
      asked := grants;
      if done {
        FirstPassAnswers(scripts, keep, asked, log, outs);
        return;
      }
      FirstPassFails(scripts, keep, asked, log, outs);
      if log != [] {
        outs := [AllFailed(Errors(log))];
        return;
      }
      forall j | 0 <= j < |health| ensures health[j].View() == AfterAsk(old(health[j].View()), true, askAt(j)) {
        Untouched(AfterAsk(old(health[j].View()), true, askAt(j)), j, [], endAt);
      }
      done, outs, grants, log := Pass(true, scripts, keep, askAt, endAt);
      ForcedPassCompletes(scripts, keep, asked, grants, log, outs, done);
      if !done {
        outs := [AllFailed(Errors(log))];
      }
    }
  }

  lemma FirstPassAnswers(scripts: seq<seq<Item>>, keep: seq<Out> -> bool, asked: seq<bool>, log: seq<Attempt>,
                         outs: seq<Out>)
    requires Passed(scripts, keep, asked, log, outs, true)
    ensures Completed(scripts, keep, asked, asked, log, outs) && |asked| <= |scripts|
  {
    hide Ended, Skips, SkippedAll, Indices;
    assert asked[|asked| - 1];
  }

  lemma FirstPassFails(scripts: seq<seq<Item>>, keep: seq<Out> -> bool, asked: seq<bool>, log: seq<Attempt>,
                       outs: seq<Out>)
    requires Passed(scripts, keep, asked, log, outs, false)
    ensures log != [] ==> Completed(scripts, keep, asked, asked, log, [AllFailed(Errors(log))])
    ensures log == [] ==> NoneAllowed(asked)
    ensures |asked| == |scripts|
  {
    hide Ended, Skips, SkippedAll;
    if log == [] {
      NothingTried(asked);
    } else {
      SomethingTried(asked, log);
      assert Passed(scripts, keep, asked, log, [], false);
    }
  }

  lemma ForcedPassCompletes(scripts: seq<seq<Item>>, keep: seq<Out> -> bool, asked: seq<bool>, grants: seq<bool>,
                            log: seq<Attempt>, outs: seq<Out>, done: bool)
    requires NoneAllowed(asked) && |asked| == |scripts|
    requires Passed(scripts, keep, grants, log, outs, done) && forall i | 0 <= i < |grants| :: grants[i]
    ensures Completed(scripts, keep, asked, grants, log, if done then outs else [AllFailed(Errors(log))])
  {
    hide Ended, Skips, SkippedAll, Indices;
    if !done {
      assert Passed(scripts, keep, grants, log, [], false);
    }
    if asked != [] && grants != [] {
      assert grants[0] != asked[0];
    }
  }

  lemma {:induction false} IndicesAre(grants: seq<bool>)
    ensures forall i | 0 <= i < |grants| :: grants[i] ==> i in Indices(grants)
    ensures forall k | 0 <= k < |Indices(grants)| :: Indices(grants)[k] < |grants| && grants[Indices(grants)[k]]
    ensures forall j, k | 0 <= j < k < |Indices(grants)| :: Indices(grants)[j] < Indices(grants)[k]
  {
    if grants != [] {
      IndicesAre(grants[..|grants| - 1]);
    }
  }

  lemma NothingTried(grants: seq<bool>)
    requires Indices(grants) == []
    ensures NoneAllowed(grants)
  {
    IndicesAre(grants);
  }

  lemma SomethingTried(grants: seq<bool>, log: seq<Attempt>)
    requires log != [] && Models(log) == Indices(grants)
    ensures !NoneAllowed(grants)
  {
    IndicesAre(grants);
    assert Models(log)[0] == Indices(grants)[0];
  }

  // ---- What a call promises ----

  // One model answers: everything the consumer is given, errors apart, is from the last model tried, and it
  // is marked exactly when that is not the primary.
  lemma OneModelAnswers(scripts: seq<seq<Item>>, keep: seq<Out> -> bool, asked: seq<bool>, grants: seq<bool>,
                        log: seq<Attempt>, outs: seq<Out>, k: nat)
    requires Completed(scripts, keep, asked, grants, log, outs)
    requires k < |outs| && outs[k].Answer?
    ensures log != [] && outs[k].from == log[|log| - 1].model < |scripts| && outs[k].marked == (outs[k].from > 0)
    ensures k < |scripts[outs[k].from]| && scripts[outs[k].from][k] == Response(outs[k].v)
  {
    hide Skips, Keeps, SkippedAll, Indices;
  }

  // Nothing is yielded once the consumer has stopped or an error has been given.
  lemma NothingAfterTheEnd(scripts: seq<seq<Item>>, keep: seq<Out> -> bool, asked: seq<bool>, grants: seq<bool>,
                           log: seq<Attempt>, outs: seq<Out>, k: nat)
    requires Completed(scripts, keep, asked, grants, log, outs)
    requires k + 1 < |outs|
    ensures outs[k].Answer? && keep(outs[..k + 1])
  {
    hide Skips, SkippedAll, Indices;
    var last := |grants| - 1;
    var n :| 0 <= n <= |scripts[last]| && EndedWith(last, scripts[last], keep, n, outs, log[|log| - 1]);
    assert k < n;
  }

  // Each model is tried at most once and in order, and exactly the ones let through are.
  lemma TriedOnceInOrder(scripts: seq<seq<Item>>, keep: seq<Out> -> bool, asked: seq<bool>, grants: seq<bool>,
                         log: seq<Attempt>, outs: seq<Out>)
    requires Completed(scripts, keep, asked, grants, log, outs)
    ensures forall j, k | 0 <= j < k < |log| :: log[j].model < log[k].model
    ensures forall k | 0 <= k < |log| :: log[k].model < |grants| && grants[log[k].model]
    ensures forall i | 0 <= i < |grants| && grants[i] :: exists k | 0 <= k < |log| :: log[k].model == i
  {
    hide Skips, Ended, SkippedAll, Indices;
    IndicesAre(grants);
    var models := Models(log);
    forall k | 0 <= k < |log| ensures log[k].model == Indices(grants)[k] {
      assert models[k] == log[k].model;
    }
    forall i | 0 <= i < |grants| && grants[i] ensures exists k | 0 <= k < |log| :: log[k].model == i {
      assert i in Indices(grants);
      var k :| 0 <= k < |models| && models[k] == i;
      assert log[k].model == i;
    }
  }

  // An open breaker is overridden only when every breaker in the chain refused.
  lemma ForcedOnlyWhenNoneAllowed(scripts: seq<seq<Item>>, keep: seq<Out> -> bool, asked: seq<bool>,
                                  grants: seq<bool>, log: seq<Attempt>, outs: seq<Out>, k: nat)
    requires Completed(scripts, keep, asked, grants, log, outs)
    requires k < |log|
    ensures log[k].model < |asked|
    ensures !asked[log[k].model] ==> |asked| == |scripts| && NoneAllowed(asked)
  {
    hide Skips, Ended, SkippedAll, Indices;
    TriedOnceInOrder(scripts, keep, asked, grants, log, outs);
  }

  // A call fails altogether exactly when every model of its last pass was asked and every one it was let through to
  // failed before producing anything; it then names them all, in order, and yields nothing else.
  lemma FailsOnlyWhenAllFail(scripts: seq<seq<Item>>, keep: seq<Out> -> bool, asked: seq<bool>, grants: seq<bool>,
                             log: seq<Attempt>, outs: seq<Out>)
    requires Completed(scripts, keep, asked, grants, log, outs)
    ensures (exists k | 0 <= k < |outs| :: outs[k].AllFailed?) <==> |grants| == |scripts| && SkippedAll(scripts, log)
    ensures (exists k | 0 <= k < |outs| :: outs[k].AllFailed?) ==> outs == [AllFailed(Errors(log))]
  {
    hide Indices;
    if Passed(scripts, keep, grants, log, outs, true) {
      var i := |grants| - 1;
      var n :| 0 <= n <= |scripts[i]| && EndedWith(i, scripts[i], keep, n, outs, log[|log| - 1]);
      assert forall k | 0 <= k < |outs| :: !outs[k].AllFailed?;
      assert !Skips(scripts[i]) by { EndedIsNoSkip(i, scripts[i], keep, n, outs, log[|log| - 1]); }
    } else {
      assert outs[0].AllFailed?;
    }
  }

  lemma EndedIsNoSkip(i: nat, script: seq<Item>, keep: seq<Out> -> bool, n: nat, outs: seq<Out>, a: Attempt)
    requires EndedWith(i, script, keep, n, outs, a)
    ensures !Skips(script)
  {
    hide Keeps;
    if n > 0 {
      assert script[0].Response?;
    }
  }

  // A chain is never failed unasked: if it has a model at all, some model is tried.
  lemma SomebodyIsTried(scripts: seq<seq<Item>>, keep: seq<Out> -> bool, asked: seq<bool>, grants: seq<bool>,
                        log: seq<Attempt>, outs: seq<Out>)
    requires Completed(scripts, keep, asked, grants, log, outs)
    ensures log != [] <==> scripts != []
  {
    hide Skips, Ended, SkippedAll;
    IndicesAre(grants);
    if log == [] && scripts != [] {
      assert |grants| == |scripts| && Models(log) == [];
      NothingTried(grants);
    }
  }

  // A call moves on from a model exactly when the model failed, with the turn still wanted, before it produced
  // anything; and such a failure is what its breaker hears and what the call keeps of it.
  lemma MovesOnExactlyFromFailures(scripts: seq<seq<Item>>, keep: seq<Out> -> bool, asked: seq<bool>,
                                   grants: seq<bool>, log: seq<Attempt>, outs: seq<Out>, k: nat)
    requires Completed(scripts, keep, asked, grants, log, outs) && k < |log|
    ensures log[k].model < |scripts|
    ensures var script := scripts[log[k].model];
      (k < |log| - 1 || (exists e | 0 <= e < |outs| :: outs[e].AllFailed?)) <==>
      script != [] && script[0].Failed? && !script[0].cancelled
    ensures var script := scripts[log[k].model];
      script != [] && script[0].Failed? && !script[0].cancelled ==>
        log[k].verdict == Faulted && log[k].err == script[0].err
  {
    hide Indices;
    TriedOnceInOrder(scripts, keep, asked, grants, log, outs);
    FailsOnlyWhenAllFail(scripts, keep, asked, grants, log, outs);
    if k == |log| - 1 && Passed(scripts, keep, grants, log, outs, true) {
      var i := |grants| - 1;
      var n :| 0 <= n <= |scripts[i]| && EndedWith(i, scripts[i], keep, n, outs, log[k]);
      EndedIsNoSkip(i, scripts[i], keep, n, outs, log[k]);
    }
  }

  // What is yielded, where some model settles the call: its responses as long as the consumer goes on, and after
  // them the error that ended its stream, if one did before the consumer stopped. The breaker hears of an error only
  // if the turn is still wanted, and otherwise that the model was answering.
  lemma YieldsWhatTheModelSaid(scripts: seq<seq<Item>>, keep: seq<Out> -> bool, asked: seq<bool>,
                               grants: seq<bool>, log: seq<Attempt>, outs: seq<Out>)
    requires Completed(scripts, keep, asked, grants, log, outs)
    requires log != [] && forall e | 0 <= e < |outs| :: !outs[e].AllFailed?
    ensures log[|log| - 1].model < |scripts|
    ensures var (a, script) := (log[|log| - 1], scripts[log[|log| - 1].model]);
      if outs != [] && outs[|outs| - 1].Error? then
        var n := |outs| - 1;
        && n < |script| && script[n] == Failed(outs[n].err, a.verdict.Abandoned?) && !a.verdict.Succeeded?
        && (forall k | 0 <= k < n :: script[k].Response? && outs[k] == Answer(a.model, script[k].v, a.model > 0))
        && (forall k | 1 <= k <= n :: keep(outs[..k]))
      else
        && |outs| <= |script| && a.verdict.Succeeded?
        && (forall k | 0 <= k < |outs| :: script[k].Response? && outs[k] == Answer(a.model, script[k].v, a.model > 0))
        && (forall k | 1 <= k < |outs| :: keep(outs[..k]))
        && (|outs| < |script| ==> outs != [] && !keep(outs))
  {
    hide Skips, SkippedAll, Indices, Models, Keeps;
    var (a, i) := (log[|log| - 1], |grants| - 1);
    assert Passed(scripts, keep, grants, log, outs, true) by { SettledByLast(scripts, keep, asked, grants, log, outs); }
    var n :| 0 <= n <= |scripts[i]| && EndedWith(i, scripts[i], keep, n, outs, a);
    SettledMeans(i, scripts[i], keep, n, outs, a);
  }

  lemma SettledByLast(scripts: seq<seq<Item>>, keep: seq<Out> -> bool, asked: seq<bool>,
                      grants: seq<bool>, log: seq<Attempt>, outs: seq<Out>)
    requires Completed(scripts, keep, asked, grants, log, outs)
    requires forall e | 0 <= e < |outs| :: !outs[e].AllFailed?
    ensures Passed(scripts, keep, grants, log, outs, true)
  {
    hide Passed;
    assert [AllFailed(Errors(log))][0].AllFailed?;
  }

  lemma SettledMeans(i: nat, script: seq<Item>, keep: seq<Out> -> bool, n: nat, outs: seq<Out>, a: Attempt)
    requires EndedWith(i, script, keep, n, outs, a)
    ensures a.model == i
    ensures if outs != [] && outs[|outs| - 1].Error? then
        && n == |outs| - 1 < |script| && script[n] == Failed(outs[n].err, a.verdict.Abandoned?) && !a.verdict.Succeeded?
        && (forall k | 0 <= k < n :: script[k].Response? && outs[k] == Answer(i, script[k].v, i > 0))
        && (forall k | 1 <= k <= n :: keep(outs[..k]))
      else
        && |outs| == n <= |script| && a.verdict.Succeeded?
        && (forall k | 0 <= k < n :: script[k].Response? && outs[k] == Answer(i, script[k].v, i > 0))
        && (forall k | 1 <= k < n :: keep(outs[..k]))
        && (|outs| < |script| ==> outs != [] && !keep(outs))
  {
    if |outs| == n {
      assert n > 0 ==> outs[n - 1].Answer?;
    } else {
      assert outs[n].Error?;
    }
  }

  lemma {:induction false} LogClears(s: State, j: nat, log: seq<Attempt>, endAt: nat -> int)
    requires s.trial ==> s.isOpen
    ensures (!s.trial || exists k | 0 <= k < |log| :: log[k].model == j) ==> !AfterLog(s, j, log, endAt).trial
    ensures AfterLog(s, j, log, endAt).trial ==> AfterLog(s, j, log, endAt).isOpen
  {
    if log != [] {
      var before := log[..|log| - 1];
      LogClears(s, j, before, endAt);
      if log[|log| - 1].model != j && exists k | 0 <= k < |log| :: log[k].model == j {
        var k :| 0 <= k < |log| && log[k].model == j;
        assert before[k].model == j;
      }
    }
  }

  // A call that ran alone leaves no trial reserved behind it.
  lemma NoTrialLeftBehind(s: State, j: nat, scripts: seq<seq<Item>>, keep: seq<Out> -> bool, asked: seq<bool>,
                          grants: seq<bool>,
                          log: seq<Attempt>, outs: seq<Out>, askAt: nat -> int, endAt: nat -> int)
    requires Completed(scripts, keep, asked, grants, log, outs)
    requires j < |asked| ==> asked[j] == Allowed(s, askAt(j))
    requires !s.trial
    ensures !AfterCall(s, j, |asked|, askAt, log, endAt).trial
  {
    hide Completed, AfterLog;
    LogClears(AfterAsk(s, j < |asked|, askAt(j)), j, log, endAt);
    if j < |asked| && asked[j] {
      GrantedIsTried(scripts, keep, asked, grants, log, outs, j);
    }
  }

  lemma GrantedIsTried(scripts: seq<seq<Item>>, keep: seq<Out> -> bool, asked: seq<bool>, grants: seq<bool>,
                       log: seq<Attempt>, outs: seq<Out>, j: nat)
    requires Completed(scripts, keep, asked, grants, log, outs) && j < |asked| && asked[j]
    ensures exists k | 0 <= k < |log| :: log[k].model == j
  {
    hide Passed;
    TriedOnceInOrder(scripts, keep, asked, grants, log, outs);
    assert grants == asked;
  }

  // ---- Calls that overlap ----

  // What concurrent calls do to one breaker: a call is let through or refused, goes ahead regardless, or ends
  // with its one report.
  datatype Move = Enter(id: nat, now: int) | Override(id: nat) | Leave(id: nat, verdict: Verdict, at: int)

  datatype Traffic = Traffic(breaker: State, flying: set<nat>)

  predicate CanMove(t: Traffic, m: Move) {
    if m.Leave? then m.id in t.flying else m.id !in t.flying
  }

  function After(t: Traffic, m: Move): Traffic {
    if !CanMove(t, m) then t
    else match m
      case Enter(id, now) => Traffic(Next(t.breaker, Allow(now)),
                                     if Allowed(t.breaker, now) then t.flying + {id} else t.flying)
      case Override(id) => t.(flying := t.flying + {id})
      case Leave(id, v, at) => Traffic(Next(t.breaker, ReportOf(v, at)), t.flying - {id})
  }

  function Flow(threshold: int, moves: seq<Move>): Traffic {
    if moves == [] then Traffic(Initial(threshold), {})
    else After(Flow(threshold, moves[..|moves| - 1]), moves[|moves| - 1])
  }

  // The call that the open breaker let through last.
  function LastTrial(threshold: int, moves: seq<Move>): Option<nat> {
    if moves == [] then None
    else
      var t, m := Flow(threshold, moves[..|moves| - 1]), moves[|moves| - 1];
      if m.Enter? && CanMove(t, m) && t.breaker.isOpen && Allowed(t.breaker, m.now) then Some(m.id)
      else LastTrial(threshold, moves[..|moves| - 1])
  }

  // A reserved trial belongs to the call it was granted to, and that call is still in flight.
  lemma {:induction false} TrialMeansInFlight(threshold: int, moves: seq<Move>)
    ensures var (t, last) := (Flow(threshold, moves), LastTrial(threshold, moves));
      t.breaker.trial ==> t.breaker.isOpen && last.Some? && last.value in t.flying
  {
    if moves != [] {
      var before := Flow(threshold, moves[..|moves| - 1]);
      TrialMeansInFlight(threshold, moves[..|moves| - 1]);
      var m := moves[|moves| - 1];
      assert m.Leave? ==> !Next(before.breaker, ReportOf(m.verdict, m.at)).trial;
    }
  }

  // No breaker stays half open: with nothing in flight, a caller is let through once the cooldown has ended.
  lemma {:induction false} NeverStuck(threshold: int, moves: seq<Move>, now: int)
    requires Flow(threshold, moves).flying == {} && Flow(threshold, moves).breaker.openUntil <= now
    ensures Allowed(Flow(threshold, moves).breaker, now)
  {
    TrialMeansInFlight(threshold, moves);
  }

  // ---- A call of the chain is one such flight, for each breaker ----

  function AttemptOn(log: seq<Attempt>, j: nat): Option<Attempt> {
    if log == [] then None
    else if log[|log| - 1].model == j then Some(log[|log| - 1])
    else AttemptOn(log[..|log| - 1], j)
  }

  // What a call with these answers and attempts does to breaker j.
  function CallMoves(id: nat, j: nat, asked: seq<bool>, log: seq<Attempt>, askAt: nat -> int,
                     endAt: nat -> int): seq<Move> {
    (if j < |asked| then [Enter(id, askAt(j))] else [])
    + match AttemptOn(log, j)
      case None => []
      case Some(a) => (if j < |asked| && asked[j] then [] else [Override(id)]) + [Leave(id, a.verdict, endAt(j))]
  }

  function FlowFrom(t: Traffic, moves: seq<Move>): Traffic
    decreases |moves|
  {
    if moves == [] then t else FlowFrom(After(t, moves[0]), moves[1..])
  }

  lemma {:induction false} OneAttemptEach(s: State, j: nat, log: seq<Attempt>, endAt: nat -> int)
    requires forall a, b | 0 <= a < b < |log| :: log[a].model < log[b].model
    ensures AfterLog(s, j, log, endAt) == match AttemptOn(log, j)
      case None => s
      case Some(a) => Next(s, ReportOf(a.verdict, endAt(j)))
  {
    if log != [] {
      var before := log[..|log| - 1];
      if log[|log| - 1].model == j {
        Untouched(s, j, before, endAt);
      } else {
        OneAttemptEach(s, j, before, endAt);
      }
    }
  }

  // What a call does to the breaker of model j: nothing if the model was not tried; one that answered is in use again
  // at once; one that was cut short is as it was, with no trial out; and one that was let through and failed, with
  // a breaker that opens at the first failure, is let through by nobody for the cooldown.
  lemma BreakersAfterACall(s: State, j: nat, scripts: seq<seq<Item>>, keep: seq<Out> -> bool, asked: seq<bool>,
                           grants: seq<bool>, log: seq<Attempt>, outs: seq<Out>,
                           askAt: nat -> int, endAt: nat -> int, k: nat, t: int)
    requires Completed(scripts, keep, asked, grants, log, outs)
    requires j < |asked| ==> asked[j] == Allowed(s, askAt(j))
    requires s.isOpen ==> s.cooldown >= INITIAL_COOLDOWN
    ensures (forall m | 0 <= m < |log| :: log[m].model != j) ==> AfterCall(s, j, |asked|, askAt, log, endAt) == s
    ensures k < |log| && log[k].model == j ==>
      var after := AfterCall(s, j, |asked|, askAt, log, endAt);
      match log[k].verdict
      case Succeeded => Allowed(after, t) && after.failures == 0
      case Abandoned => after == s.(trial := false)
      case Faulted =>
        after.failures == s.failures + 1 &&
        (j < |asked| && asked[j] && s.threshold <= 1 && t < endAt(j) + INITIAL_COOLDOWN ==> !Allowed(after, t))
  {
    hide Passed, AfterLog, AttemptOn;
    TriedOnceInOrder(scripts, keep, asked, grants, log, outs);
    OneAttemptEach(AfterAsk(s, j < |asked|, askAt(j)), j, log, endAt);
    if k < |log| && log[k].model == j {
      TheAttempt(log, j, k);
    }
    if forall m | 0 <= m < |log| :: log[m].model != j {
      NoAttempt(log, j);
      if j < |asked| && asked[j] {
        GrantedIsTried(scripts, keep, asked, grants, log, outs, j);
      }
    }
  }

  lemma {:induction false} TheAttempt(log: seq<Attempt>, j: nat, k: nat)
    requires k < |log| && log[k].model == j && forall a, b | 0 <= a < b < |log| :: log[a].model < log[b].model
    ensures AttemptOn(log, j) == Some(log[k])
  {
    if k < |log| - 1 {
      TheAttempt(log[..|log| - 1], j, k);
    }
  }

  lemma {:induction false} NoAttempt(log: seq<Attempt>, j: nat)
    requires forall m | 0 <= m < |log| :: log[m].model != j
    ensures AttemptOn(log, j) == None
  {
    if log != [] {
      NoAttempt(log[..|log| - 1], j);
    }
  }

  // A whole call enters breaker j at most once, goes ahead regardless only if it was not let through, leaves exactly
  // once if it went ahead, and does nothing else to it.
  lemma CallIsOneFlight(t: Traffic, id: nat, j: nat, scripts: seq<seq<Item>>, keep: seq<Out> -> bool, asked: seq<bool>,
                        grants: seq<bool>, log: seq<Attempt>, outs: seq<Out>, askAt: nat -> int, endAt: nat -> int)
    requires Completed(scripts, keep, asked, grants, log, outs) && id !in t.flying
    requires j < |asked| ==> asked[j] == Allowed(t.breaker, askAt(j))
    ensures FlowFrom(t, CallMoves(id, j, asked, log, askAt, endAt))
         == Traffic(AfterCall(t.breaker, j, |asked|, askAt, log, endAt), t.flying)
  {
    hide Passed, AfterLog, AttemptOn, Next, Allowed;
    TriedOnceInOrder(scripts, keep, asked, grants, log, outs);
    OneAttemptEach(AfterAsk(t.breaker, j < |asked|, askAt(j)), j, log, endAt);
    var a := AttemptOn(log, j);
    if j < |asked| && asked[j] {
      GrantedHasAttempt(scripts, keep, asked, grants, log, outs, j);
      FlightGranted(t, id, askAt(j), a.value.verdict, endAt(j));
    } else if a.Some? {
      FlightForced(t, id, j < |asked|, askAt(j), a.value.verdict, endAt(j));
    } else if j < |asked| {
      FlightRefused(t, id, askAt(j));
    }
  }

  lemma {:induction false} AttemptIsFound(log: seq<Attempt>, j: nat, k: nat)
    requires k < |log| && log[k].model == j
    ensures AttemptOn(log, j).Some?
  {
    if k < |log| - 1 {
      AttemptIsFound(log[..|log| - 1], j, k);
    }
  }

  lemma GrantedHasAttempt(scripts: seq<seq<Item>>, keep: seq<Out> -> bool, asked: seq<bool>, grants: seq<bool>,
                          log: seq<Attempt>, outs: seq<Out>, j: nat)
    requires Completed(scripts, keep, asked, grants, log, outs) && j < |asked| && asked[j]
    ensures AttemptOn(log, j).Some?
  {
    hide Completed, AttemptOn;
    GrantedIsTried(scripts, keep, asked, grants, log, outs, j);
    var k :| 0 <= k < |log| && log[k].model == j;
    AttemptIsFound(log, j, k);
  }

  lemma FlightGranted(t: Traffic, id: nat, ask: int, v: Verdict, end: int)
    requires id !in t.flying && Allowed(t.breaker, ask)
    ensures FlowFrom(t, [Enter(id, ask)] + ([] + [Leave(id, v, end)]))
         == Traffic(Next(Next(t.breaker, Allow(ask)), ReportOf(v, end)), t.flying)
  {
    hide Next, Allowed;
    var moves := [Enter(id, ask)] + ([] + [Leave(id, v, end)]);
    assert moves[1..] == [Leave(id, v, end)] && moves[1..][1..] == [];
    assert t.flying + {id} - {id} == t.flying;
    var t' := After(t, moves[0]);
    assert t' == Traffic(Next(t.breaker, Allow(ask)), t.flying + {id});
    assert FlowFrom(t', [Leave(id, v, end)]) == After(t', Leave(id, v, end));
  }

  lemma FlightRefused(t: Traffic, id: nat, ask: int)
    requires id !in t.flying && !Allowed(t.breaker, ask)
    ensures FlowFrom(t, [Enter(id, ask)] + []) == Traffic(Next(t.breaker, Allow(ask)), t.flying)
  {
    assert ([Enter(id, ask)] + [])[1..] == [];
  }

  lemma ForcedFlight(t: Traffic, id: nat, v: Verdict, end: int)
    requires id !in t.flying
    ensures FlowFrom(t, [Override(id), Leave(id, v, end)]) == Traffic(Next(t.breaker, ReportOf(v, end)), t.flying)
  {
    hide Next, Allowed;
    var moves := [Override(id), Leave(id, v, end)];
    assert moves[1..] == [Leave(id, v, end)] && moves[1..][1..] == [];
    assert t.flying + {id} - {id} == t.flying;
    var t' := After(t, moves[0]);
    assert t' == Traffic(t.breaker, t.flying + {id});
    assert FlowFrom(t', [Leave(id, v, end)]) == After(t', Leave(id, v, end));
  }

  lemma FlightForced(t: Traffic, id: nat, asks: bool, ask: int, v: Verdict, end: int)
    requires id !in t.flying && (asks ==> !Allowed(t.breaker, ask))
    ensures FlowFrom(t, (if asks then [Enter(id, ask)] else []) + ([Override(id)] + [Leave(id, v, end)]))
         == Traffic(Next(AfterAsk(t.breaker, asks, ask), ReportOf(v, end)), t.flying)
  {
    hide Next, Allowed;
    var rest := [Override(id)] + [Leave(id, v, end)];
    var moves := (if asks then [Enter(id, ask)] else []) + rest;
    assert rest == [Override(id), Leave(id, v, end)];
    if asks {
      assert moves[1..] == rest;
      ForcedFlight(After(t, Enter(id, ask)), id, v, end);
    } else {
      assert moves == rest;
      ForcedFlight(t, id, v, end);
    }
  }
}
