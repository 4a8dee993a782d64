/** The circuit breaker (internal/breaker/breaker.go). Times and durations are in nanoseconds. */
module CircuitBreaker {
  const SECOND: int := 1_000_000_000
  const INITIAL_COOLDOWN: int := 15 * SECOND
  const MAX_COOLDOWN: int := 5 * 60 * SECOND

  datatype State = State(threshold: int, failures: nat, isOpen: bool, trial: bool, openUntil: int, cooldown: int)

  // One call of a method, with the time it reads. Every method holds the lock throughout, so a
  // concurrent history is a sequence of these.
  datatype Call = Allow(now: int) | Success | Failure(now: int) | Abandon

  function Initial(threshold: int): State {
    State(if threshold < 1 then 1 else threshold, 0, false, false, 0, 0)
  }

  predicate Allowed(s: State, now: int) {
    !s.isOpen || (s.openUntil <= now && !s.trial)
  }

  // A failure opens the breaker, or opens it again after a failed trial.
  predicate Trips(s: State) {
    if s.isOpen then s.trial else s.failures + 1 >= s.threshold
  }

  function CooldownAfter(s: State): int {
    if !s.isOpen then INITIAL_COOLDOWN
    else if s.cooldown * 2 < MAX_COOLDOWN then s.cooldown * 2 else MAX_COOLDOWN
  }

  function Next(s: State, call: Call): State {
    match call
    case Allow(now) => if s.isOpen && Allowed(s, now) then s.(trial := true) else s
    case Success => s.(failures := 0, isOpen := false, trial := false, cooldown := 0)
    case Abandon => s.(trial := false)
    case Failure(now) =>
      if Trips(s) then
        s.(failures := s.failures + 1, isOpen := true, trial := false, cooldown := CooldownAfter(s),
           openUntil := now + CooldownAfter(s))
      else s.(failures := s.failures + 1)
  }

  function Run(threshold: int, calls: seq<Call>): State {
    if calls == [] then Initial(threshold)
    else Next(Run(threshold, calls[..|calls| - 1]), calls[|calls| - 1])
  }

  class Breaker {
    const threshold: int
    var failures: nat
    var isOpen: bool
    var trial: bool
    var openUntil: int
    var cooldown: int

    ghost function View(): State
      reads this
    {
      State(threshold, failures, isOpen, trial, openUntil, cooldown)
    }

    constructor (threshold: int)
      ensures View() == Initial(threshold)
    {
      this.threshold := if threshold < 1 then 1 else threshold;
      failures, isOpen, trial, openUntil, cooldown := 0, false, false, 0, 0;
    }

    method Allow(now: int) returns (ok: bool, retryIn: int)
      modifies this
      ensures View() == Next(old(View()), Call.Allow(now))
      ensures ok == Allowed(old(View()), now)
      ensures retryIn >= 0 && (ok ==> retryIn == 0)
      ensures !ok && now < openUntil ==> now + retryIn == openUntil
    {
      if !isOpen {
        return true, 0;
      }
      if now < openUntil || trial {
        return false, if openUntil - now > 0 then openUntil - now else 0;
      }
      trial := true;
      return true, 0;
    }

    method Success() returns (recovered: bool)
      modifies this
      ensures View() == Next(old(View()), Call.Success)
      ensures recovered == old(isOpen)
    {
      recovered := isOpen;
      failures, isOpen, trial, cooldown := 0, false, false, 0;
    }

    method Failure(now: int) returns (streak: nat, tripped: bool, applied: int)
      modifies this
      ensures View() == Next(old(View()), Call.Failure(now))
      ensures streak == failures
      ensures tripped == Trips(old(View()))
      ensures applied == if tripped then cooldown else 0
    {
      failures := failures + 1;
      if isOpen && trial {
        cooldown := if cooldown * 2 < MAX_COOLDOWN then cooldown * 2 else MAX_COOLDOWN;
      } else if !isOpen && failures >= threshold {
        cooldown := INITIAL_COOLDOWN;
      } else {
        return failures, false, 0;
      }
      isOpen, trial := true, false;
      openUntil := now + cooldown;
      return failures, true, cooldown;
    }

    method Abandon()
      modifies this
      ensures View() == Next(old(View()), Call.Abandon)
    {
      trial := false;
    }
  }

  // ---- Every history ----

  // A breaker made for less than one failure is made for one.
  function AtLeastOne(threshold: int): int {
    if threshold >= 1 then threshold else 1
  }

  // Failures since the last success.
  function Streak(calls: seq<Call>): nat {
    if calls == [] then 0
    else match calls[|calls| - 1]
      case Success => 0
      case Failure(_) => Streak(calls[..|calls| - 1]) + 1
      case _ => Streak(calls[..|calls| - 1])
  }

  lemma {:induction false} RunCountsFailures(threshold: int, calls: seq<Call>)
    ensures Run(threshold, calls).failures == Streak(calls)
    ensures Run(threshold, calls).threshold == AtLeastOne(threshold)
  {
    if calls != [] {
      RunCountsFailures(threshold, calls[..|calls| - 1]);
    }
  }

  // The breaker is open exactly when the current run of failures has reached the threshold: only a
  // success closes it, and the failure that reaches the threshold is the one that opens it.
  lemma {:induction false} OpenExactlyFromThreshold(threshold: int, calls: seq<Call>)
    ensures Run(threshold, calls).isOpen <==> Streak(calls) >= AtLeastOne(threshold)
  {
    if calls != [] {
      var before := calls[..|calls| - 1];
      OpenExactlyFromThreshold(threshold, before);
      RunCountsFailures(threshold, before);
    }
  }

  lemma OpensAtTheThresholdthFailure(threshold: int, calls: seq<Call>, call: Call)
    requires !Run(threshold, calls).isOpen
    ensures Next(Run(threshold, calls), call).isOpen <==>
              call.Failure? && Streak(calls) + 1 == AtLeastOne(threshold)
  {
    OpenExactlyFromThreshold(threshold, calls);
    RunCountsFailures(threshold, calls);
  }

  // Trials that failed since the breaker last opened from closed.
  function FailedTrials(threshold: int, calls: seq<Call>): nat {
    if calls == [] then 0
    else
      var before := calls[..|calls| - 1];
      match calls[|calls| - 1]
      case Failure(_) =>
        if !Trips(Run(threshold, before)) then FailedTrials(threshold, before)
        else if Run(threshold, before).isOpen then FailedTrials(threshold, before) + 1
        else 0
      case _ => FailedTrials(threshold, before)
  }

  function Doubled(k: nat): (d: int)
    ensures d >= INITIAL_COOLDOWN
  {
    if k == 0 then INITIAL_COOLDOWN else 2 * Doubled(k - 1)
  }

  function Capped(d: int): int {
    if d < MAX_COOLDOWN then d else MAX_COOLDOWN
  }

  // The cooldown doubles with each failed trial, up to its cap, and a trial runs only in an open breaker.
  lemma {:induction false} CooldownDoubles(threshold: int, calls: seq<Call>)
    ensures var s := Run(threshold, calls);
      && (s.isOpen ==> s.cooldown == Capped(Doubled(FailedTrials(threshold, calls))))
      && (!s.isOpen ==> s.cooldown == 0)
      && (s.trial ==> s.isOpen)
  {
    if calls != [] {
      CooldownDoubles(threshold, calls[..|calls| - 1]);
    }
  }

  lemma {:induction false} CooldownBounds(threshold: int, calls: seq<Call>)
    ensures Run(threshold, calls).isOpen ==> INITIAL_COOLDOWN <= Run(threshold, calls).cooldown <= MAX_COOLDOWN
  {
    CooldownDoubles(threshold, calls);
  }

  predicate OnlyAsks(calls: seq<Call>) {
    forall i | 0 <= i < |calls| :: calls[i].Allow?
  }

  // When the breaker was last opened, by a failure that reached the threshold or by a failed trial.
  function LastOpened(threshold: int, calls: seq<Call>): int
    decreases |calls|, 0
  {
    if calls == [] then 0
    else
      var before, last := calls[..|calls| - 1], calls[|calls| - 1];
      if last.Failure? && (Streak(calls) == AtLeastOne(threshold)
                           || (Streak(calls) > AtLeastOne(threshold) && TrialOut(threshold, before)))
      then last.now
      else LastOpened(threshold, before)
  }

  // Since the last outcome somebody was let through although the failures had reached the threshold.
  predicate TrialOut(threshold: int, calls: seq<Call>)
    decreases |calls|, 0
  {
    && calls != []
    && var before, last := calls[..|calls| - 1], calls[|calls| - 1];
       && last.Allow?
       && (TrialOut(threshold, before)
           || (Streak(before) >= AtLeastOne(threshold) && Admits(threshold, before, last.now)))
  }

  // After these calls a caller at that time is let through: too few have failed in a row, or the cooldown since the
  // last opening, doubled for each failed trial, has passed and no trial is out.
  predicate Admits(threshold: int, calls: seq<Call>, now: int)
    decreases |calls|, 1
  {
    || Streak(calls) < AtLeastOne(threshold)
    || (!TrialOut(threshold, calls)
        && LastOpened(threshold, calls) + Capped(Doubled(FailedTrials(threshold, calls))) <= now)
  }

  // Over any history, exactly the callers are let through that should be.
  lemma {:induction false} AllowsExactly(threshold: int, calls: seq<Call>, now: int)
    ensures Allowed(Run(threshold, calls), now) <==> Admits(threshold, calls, now)
    ensures Run(threshold, calls).trial <==> TrialOut(threshold, calls)
    ensures Run(threshold, calls).isOpen ==>
              Run(threshold, calls).openUntil ==
                LastOpened(threshold, calls) + Capped(Doubled(FailedTrials(threshold, calls)))
  {
    OpenExactlyFromThreshold(threshold, calls);
    CooldownDoubles(threshold, calls);
    RunCountsFailures(threshold, calls);
    if calls != [] {
      var before, last := calls[..|calls| - 1], calls[|calls| - 1];
      AllowsExactly(threshold, before, if last.Allow? then last.now else now);
      OpenExactlyFromThreshold(threshold, before);
      CooldownDoubles(threshold, before);
      RunCountsFailures(threshold, before);
    }
  }

  // Between a granted trial and the next outcome nobody else is let through, however late they ask.
  lemma {:induction false} OneTrialAtATime(threshold: int, calls: seq<Call>, now: int, asks: seq<Call>, later: int)
    requires Run(threshold, calls).isOpen && Allowed(Run(threshold, calls), now)
    requires OnlyAsks(asks)
    ensures var s := Run(threshold, calls + [Allow(now)] + asks);
      s.isOpen && s.trial && !Allowed(s, later)
  {
    var all := calls + [Allow(now)] + asks;
    if asks == [] {
      assert all[..|all| - 1] == calls;
    } else {
      assert all[..|all| - 1] == calls + [Allow(now)] + asks[..|asks| - 1];
      OneTrialAtATime(threshold, calls, now, asks[..|asks| - 1], later);
    }
  }

  // An open breaker admits nobody before its cooldown ends, whatever stale outcomes come in, until a success.
  lemma {:induction false} ClosedUntilCooldownEnds(threshold: int, calls: seq<Call>, at: int, later: seq<Call>,
      now: int)
    requires Trips(Run(threshold, calls))
    requires var until := Run(threshold, calls + [Failure(at)]).openUntil;
      now < until && forall i | 0 <= i < |later| :: !later[i].Success? && (later[i].Allow? ==> later[i].now < until)
    ensures var s := Run(threshold, calls + [Failure(at)] + later);
      s.isOpen && !s.trial && s.openUntil == Run(threshold, calls + [Failure(at)]).openUntil && !Allowed(s, now)
  {
    var all := calls + [Failure(at)] + later;
    assert (calls + [Failure(at)])[..|calls|] == calls;
    if later == [] {
      assert all == calls + [Failure(at)];
    } else {
      assert all[..|all| - 1] == calls + [Failure(at)] + later[..|later| - 1];
      ClosedUntilCooldownEnds(threshold, calls, at, later[..|later| - 1], now);
      assert all[|all| - 1] == later[|later| - 1];
    }
  }
}
