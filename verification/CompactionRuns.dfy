/** Whole runs of a conversation: appends and compactions in any order. */
module CompactionRuns {
  import opened Results
  import opened Compaction

  datatype Step =
    | Append(ev: Event)
    | DoCompact(keep: int, answer: seq<Part>, now: int, id: nat, invocation: nat)

  // The session's log; cuts records, for each event that counts, the window of the compaction it holds.
  datatype Conversation = Conversation(log: seq<Event>, cuts: seq<Option<nat>>)

  function Take(c: Conversation, step: Step): Conversation {
    match step
    case Append(ev) =>
      Conversation(c.log + [ev], if ev.partial then c.cuts else c.cuts + [None])
    case DoCompact(keep, answer, now, id, inv) =>
      match Decide(Kept(c.log), keep, answer, now)
      case Err(_) => c
      case Ok(cut) => Conversation(c.log + [CompactionEvent(Kept(c.log), cut, answer, now, id, inv)],
                                   c.cuts + [Some(cut)])
  }

  function Run(steps: seq<Step>): Conversation {
    if steps == [] then Conversation([], [])
    else Take(Run(steps[..|steps| - 1]), steps[|steps| - 1])
  }

  // Only a compaction records a summary.
  predicate OnlyOrdinaryAppends(steps: seq<Step>) {
    forall i | 0 <= i < |steps| :: steps[i].Append? ==> steps[i].ev.summary.None?
  }

  // ---- What every run keeps ----

  // The compaction recorded at j summarised the window before its cut, as the log stood then.
  predicate RecordedAt(events: seq<Event>, cuts: seq<Option<nat>>, j: nat)
    requires |cuts| == |events| && j < |events|
  {
    match cuts[j]
    case None => events[j].summary.None?
    case Some(cut) =>
      && 0 < cut <= j
      && events[j].summary.Some? && events[j].summary.value.content.Some?
      && events[j].summary.value == SummaryOf(events[..j], cut, events[j].summary.value.content.value)
      && events[j].summary.value.end < events[j].time
  }

  predicate Recorded(events: seq<Event>, cuts: seq<Option<nat>>) {
    |cuts| == |events| && forall j | 0 <= j < |events| :: RecordedAt(events, cuts, j)
  }

  lemma RecordedMore(events: seq<Event>, cuts: seq<Option<nat>>, ev: Event, cut: Option<nat>)
    requires Recorded(events, cuts)
    requires RecordedAt(events + [ev], cuts + [cut], |events|)
    ensures Recorded(events + [ev], cuts + [cut])
  {
    hide SummaryOf;
    var events', cuts' := events + [ev], cuts + [cut];
    forall j | 0 <= j < |events'| ensures RecordedAt(events', cuts', j) {
      if j < |events| {
        assert RecordedAt(events, cuts, j);
        assert events'[..j] == events[..j];
      }
    }
  }

  lemma {:induction false} RunsAreRecorded(steps: seq<Step>)
    requires OnlyOrdinaryAppends(steps)
    ensures Recorded(Kept(Run(steps).log), Run(steps).cuts)
  {
    hide Recorded, RecordedAt, Decide, SummaryOf;
    if steps == [] {
      NothingRecorded();
    } else {
      var before := Run(steps[..|steps| - 1]);
      RunsAreRecorded(steps[..|steps| - 1]);
      TakeRecords(before, steps[|steps| - 1]);
    }
  }

  lemma NothingRecorded()
    ensures Recorded(Kept([]), [])
  {
  }

  lemma KeptMore(log: seq<Event>, ev: Event)
    ensures Kept(log + [ev]) == Kept(log) + if ev.partial then [] else [ev]
  {
    assert (log + [ev])[..|log|] == log;
  }

  lemma TakeRecords(c: Conversation, step: Step)
    requires Recorded(Kept(c.log), c.cuts)
    requires step.Append? ==> step.ev.summary.None?
    ensures var c' := Take(c, step); Recorded(Kept(c'.log), c'.cuts)
  {
    hide Recorded, SummaryOf, Kept;
    var events := Kept(c.log);
    assert |c.cuts| == |events| by { SameLength(events, c.cuts); }
    match step
    case Append(ev) =>
      KeptMore(c.log, ev);
      assert events + [] == events;
      if !ev.partial {
        RecordedMore(events, c.cuts, ev, None);
      }
    case DoCompact(keep, answer, now, id, inv) =>
      var r := Decide(events, keep, answer, now);
      if r.Ok? {
        var ev := CompactionEvent(events, r.value, answer, now, id, inv);
        KeptMore(c.log, ev);
        SummarySpan(events, r.value, ProseOnly(answer));
        assert (events + [ev])[..|events|] == events;
        assert ev.summary.value.content == Some(ProseOnly(answer)) by {
          SummaryContent(events, r.value, ProseOnly(answer));
        }
        RecordedMore(events, c.cuts, ev, Some(r.value));
      }
  }

  lemma SameLength(events: seq<Event>, cuts: seq<Option<nat>>)
    requires Recorded(events, cuts)
    ensures |cuts| == |events|
  {
  }

  lemma SummaryContent(events: seq<Event>, cut: nat, content: seq<Part>)
    requires 0 < cut <= |events|
    ensures SummaryOf(events, cut, content).content == Some(content)
  {
  }

  // ---- Where an event ends up ----

  // Event e did not arrive late: no summary recorded before it spans its time.
  predicate InTime(events: seq<Event>, e: nat)
    requires e < |events|
  {
    forall j | 0 <= j < e :: !RollsAt(events[j], events[e].time)
  }

  function RefOf(ev: Event): EventRef {
    EventRef(ev.invocation, ev.time)
  }

  // No other ordinary event goes by the reference of event e.
  predicate OwnReference(events: seq<Event>, e: nat)
    requires e < |events|
  {
    forall i | 0 <= i < |events| && i != e && events[i].summary.None? :: RefOf(events[i]) != RefOf(events[e])
  }

  predicate Nondecreasing(events: seq<Event>) {
    forall i, j | 0 <= i < j < |events| :: events[i].time <= events[j].time
  }

  predicate InTranscript(events: seq<Event>, cut: nat, ev: Event)
    requires cut <= |events|
  {
    ev in Transcript(events[..cut])
  }

  // The compaction at k handed its summarizer the summary recorded at i.
  predicate Fed(events: seq<Event>, cuts: seq<Option<nat>>, i: nat, k: nat)
    requires |cuts| == |events| && k < |events|
  {
    && cuts[k].Some? && i < cuts[k].value <= k
    && events[i].summary.Some? && events[i].summary.value.content.Some?
    && InTranscript(events, cuts[k].value, SummaryEvent(events[i]))
  }

  // Event e was part of what the summary at j was made from, directly or by way of earlier summaries.
  predicate Reaches(events: seq<Event>, cuts: seq<Option<nat>>, e: nat, j: nat)
    requires |cuts| == |events| && e < |events| && j < |events|
    decreases j
  {
    && cuts[j].Some? && cuts[j].value <= j
    && ((e < cuts[j].value && InTranscript(events, cuts[j].value, events[e]))
        || exists i | 0 <= i < j :: Fed(events, cuts, i, j) && Reaches(events, cuts, e, i))
  }

  // No later compaction rolled the summary at j into its own.
  predicate Retained(events: seq<Event>, cuts: seq<Option<nat>>, j: nat)
    requires |cuts| == |events| && j < |events|
  {
    cuts[j].Some? && forall k | 0 <= k < |cuts| :: cuts[k].Some? ==> cuts[k].value <= j
  }

  // Event e is shown raw, or is in a summary that no other replaced.
  predicate Survives(events: seq<Event>, cuts: seq<Option<nat>>, e: nat)
    requires |cuts| == |events| && e < |events|
  {
    events[e] in Transcript(events) ||
    exists j | 0 <= j < |events| :: Retained(events, cuts, j) && Reaches(events, cuts, e, j)
  }

  // ---- Windows, ranges and transcripts ----

  lemma {:induction false} RangeComesFromEvent(window: seq<Event>, r: nat) returns (k: nat)
    requires r < |Ranges(window)|
    ensures k < |window| && window[k].summary == Some(Ranges(window)[r]) && Ranges(window)[r].content.Some?
  {
    var n := |window| - 1;
    if r < |Ranges(window[..n])| {
      k := RangeComesFromEvent(window[..n], r);
    } else {
      k := n;
    }
  }

  lemma {:induction false} EventGivesRange(window: seq<Event>, k: nat) returns (r: nat)
    requires k < |window| && window[k].summary.Some? && window[k].summary.value.content.Some?
    ensures r < |Ranges(window)| && Ranges(window)[r] == window[k].summary.value
  {
    var n := |window| - 1;
    if k < n {
      r := EventGivesRange(window[..n], k);
    } else {
      r := |Ranges(window[..n])|;
    }
  }

  lemma {:induction false} ShownIsInAll(window: seq<Event>, ranges: seq<Summary>, k: nat, x: Event)
    requires k < |window| && x in Shown(window[k], ranges)
    ensures x in ShowAll(window, ranges)
  {
    hide Shown;
    var n := |window| - 1;
    if k < n {
      ShownIsInAll(window[..n], ranges, k, x);
    }
  }

  lemma {:induction false} ExclusionIsListed(all: seq<Event>, cut: nat, n: nat, e: nat)
    requires 0 < cut <= e < n <= |all| && MustExclude(all[..cut], all[e])
    ensures EventRef(all[e].invocation, all[e].time) in Exclusions(all, cut, n)
    decreases n
  {
    hide MustExclude;
    if e < n - 1 {
      ExclusionIsListed(all, cut, n - 1, e);
    }
  }

  // ---- The theorems ----

  // Nothing outside a compaction's window becomes covered by its summary.
  lemma OnlyTheWindowIsCovered(events: seq<Event>, cuts: seq<Option<nat>>, e: nat, j: nat)
    requires Recorded(events, cuts) && e < |events| && events[e].summary.None? && InTime(events, e)
    requires j < |events| && cuts[j].Some? && events[j].summary.Some?
    requires cuts[j].value <= e
    ensures !CoveredBy(events[e], events[j].summary.value)
  {
    hide SummaryOf;
    assert RecordedAt(events, cuts, j);
    var cut, s := cuts[j].value, events[j].summary.value;
    if e > j {
      assert !RollsAt(events[j], events[e].time);
    } else if s.start <= events[e].time <= s.end {
      assert e != j;
      SummaryParts(events[..j], cut, s.content.value);
      assert events[..j][..cut] == events[..cut];
      NotRolledUp(events, cut, e);
      ExclusionIsListed(events[..j], cut, j, e);
      assert events[..j][e] == events[e];
    }
  }

  lemma SummaryParts(all: seq<Event>, cut: nat, content: seq<Part>)
    requires 0 < cut <= |all|
    ensures var s := SummaryOf(all, cut, content);
      s.start == Earliest(all[..cut]) && s.end == Latest(all[..cut]) && s.excluded == Exclusions(all, cut, |all|)
  {
  }

  lemma NotRolledUp(events: seq<Event>, cut: nat, e: nat)
    requires cut <= e < |events| && InTime(events, e)
    ensures !RolledUp(events[..cut], events[e].time)
  {
    forall k | 0 <= k < cut ensures !RollsAt(events[..cut][k], events[e].time) {
      assert events[..cut][k] == events[k];
    }
  }

  // An ordinary event a summary covers was read by its summarizer, or is in a summary that was.
  lemma {:induction false} CoveredIsReached(events: seq<Event>, cuts: seq<Option<nat>>, e: nat, j: nat)
    requires Recorded(events, cuts) && e < |events| && events[e].summary.None? && InTime(events, e)
    requires j < |events| && cuts[j].Some? && events[j].summary.Some?
    requires CoveredBy(events[e], events[j].summary.value)
    ensures Reaches(events, cuts, e, j)
    decreases j
  {
    hide CoveredBy, RecordedAt, InTime;
    if cuts[j].value <= e {
      OnlyTheWindowIsCovered(events, cuts, e, j);
      assert false;
    }
    CutIsBounded(events, cuts, j);
    var window := events[..cuts[j].value];
    if Covered(events[e], Ranges(window)) {
      var r :| 0 <= r < |Ranges(window)| && CoveredBy(events[e], Ranges(window)[r]);
      var k := RangeComesFromEvent(window, r);
      assert window[k] == events[k];
      SummaryHasCut(events, cuts, k);
      CoveredIsReached(events, cuts, e, k);
      SummaryIsFed(events, cuts, k, j);
    } else {
      assert window[e] == events[e];
      ShownIsInAll(window, Ranges(window), e, events[e]);
    }
  }

  lemma CutIsBounded(events: seq<Event>, cuts: seq<Option<nat>>, j: nat)
    requires Recorded(events, cuts) && j < |events| && cuts[j].Some?
    ensures 0 < cuts[j].value <= j && events[j].summary.Some? && events[j].summary.value.content.Some?
  {
    hide SummaryOf;
    assert RecordedAt(events, cuts, j);
  }

  lemma SummaryHasCut(events: seq<Event>, cuts: seq<Option<nat>>, j: nat)
    requires Recorded(events, cuts) && j < |events| && events[j].summary.Some?
    ensures cuts[j].Some?
  {
    hide SummaryOf;
    assert RecordedAt(events, cuts, j);
  }

  lemma SummaryIsFed(events: seq<Event>, cuts: seq<Option<nat>>, i: nat, k: nat)
    requires Recorded(events, cuts) && k < |events| && cuts[k].Some? && i < cuts[k].value
    requires i < |events| && cuts[i].Some?
    ensures Fed(events, cuts, i, k)
  {
    CutIsBounded(events, cuts, i);
    CutIsBounded(events, cuts, k);
    hide Recorded, RecordedAt;
    var window := events[..cuts[k].value];
    assert window[i] == events[i];
    ShownIsInAll(window, Ranges(window), i, SummaryEvent(events[i]));
  }

  // A summary rolled into a later one hands on everything it was made from.
  lemma {:induction false} ReachesRetained(events: seq<Event>, cuts: seq<Option<nat>>, e: nat, j: nat) returns (k: nat)
    requires Recorded(events, cuts) && e < |events| && j < |events| && Reaches(events, cuts, e, j)
    ensures k < |events| && Retained(events, cuts, k) && Reaches(events, cuts, e, k)
    decreases |events| - j
  {
    hide RecordedAt, Fed;
    if Retained(events, cuts, j) {
      k := j;
    } else {
      var m :| 0 <= m < |cuts| && cuts[m].Some? && cuts[m].value > j;
      CutIsBounded(events, cuts, m);
      SummaryIsFed(events, cuts, j, m);
      k := ReachesRetained(events, cuts, e, m);
    }
  }

  // Every ordinary event that did not arrive late is still shown raw, or is in a summary that no other replaced.
  lemma NothingIsLost(steps: seq<Step>, e: nat)
    requires OnlyOrdinaryAppends(steps)
    requires var events := Kept(Run(steps).log); e < |events| && events[e].summary.None? && InTime(events, e)
    ensures var (events, cuts) := (Kept(Run(steps).log), Run(steps).cuts);
      && |cuts| == |events|
      && ((!Covered(events[e], Ranges(events)) && events[e] in Transcript(events))
          || exists j | 0 <= j < |events| :: Retained(events, cuts, j) && Reaches(events, cuts, e, j))
  {
    hide CoveredBy, RecordedAt, InTime, Run, Kept, Retained, Reaches;
    var events, cuts := Kept(Run(steps).log), Run(steps).cuts;
    RunsAreRecorded(steps);
    if Covered(events[e], Ranges(events)) {
      var r :| 0 <= r < |Ranges(events)| && CoveredBy(events[e], Ranges(events)[r]);
      var k := RangeComesFromEvent(events, r);
      SummaryHasCut(events, cuts, k);
      CoveredIsReached(events, cuts, e, k);
      var j := ReachesRetained(events, cuts, e, k);
    } else {
      ShownIsInAll(events, Ranges(events), e, events[e]);
    }
  }

  // A clock that never runs backwards brings nothing in late.
  lemma ClockOrderSuffices(steps: seq<Step>, e: nat)
    requires OnlyOrdinaryAppends(steps) && Nondecreasing(Kept(Run(steps).log)) && e < |Kept(Run(steps).log)|
    ensures InTime(Kept(Run(steps).log), e)
  {
    hide Run, Kept, SummaryOf;
    var events, cuts := Kept(Run(steps).log), Run(steps).cuts;
    RunsAreRecorded(steps);
    forall j | 0 <= j < e ensures !RollsAt(events[j], events[e].time) {
      assert RecordedAt(events, cuts, j);
    }
  }

  lemma NothingIsLostInClockOrder(steps: seq<Step>, e: nat)
    requires OnlyOrdinaryAppends(steps) && Nondecreasing(Kept(Run(steps).log))
    requires e < |Kept(Run(steps).log)| && Kept(Run(steps).log)[e].summary.None?
    ensures var (events, cuts) := (Kept(Run(steps).log), Run(steps).cuts);
      && |cuts| == |events|
      && ((!Covered(events[e], Ranges(events)) && events[e] in Transcript(events))
          || exists j | 0 <= j < |events| :: Retained(events, cuts, j) && Reaches(events, cuts, e, j))
  {
    ClockOrderSuffices(steps, e);
    NothingIsLost(steps, e);
  }

  // ---- An event that arrives late ----

  predicate DistinctIds(events: seq<Event>) {
    forall i, j | 0 <= i < j < |events| :: events[i].id != events[j].id
  }

  // Everything a transcript holds comes from the event of the same id.
  lemma {:induction false} ShownFrom(window: seq<Event>, ranges: seq<Summary>, x: Event) returns (k: nat)
    requires x in ShowAll(window, ranges)
    ensures k < |window| && x.id == window[k].id && x in Shown(window[k], ranges)
  {
    hide Covered;
    var n := |window| - 1;
    if x in ShowAll(window[..n], ranges) {
      k := ShownFrom(window[..n], ranges, x);
    } else {
      k := n;
    }
  }

  // The transcript of a window holds an ordinary event as it is exactly when the window does and no summary in the
  // window covers the event.
  lemma TranscriptHolds(events: seq<Event>, cut: nat, e: nat)
    requires DistinctIds(events) && cut <= |events| && e < |events| && events[e].summary.None?
    ensures InTranscript(events, cut, events[e]) <==> e < cut && !Covered(events[e], Ranges(events[..cut]))
  {
    hide Covered, Ranges, ShowAll;
    var window := events[..cut];
    if InTranscript(events, cut, events[e]) {
      var k := ShownFrom(window, Ranges(window), events[e]);
      assert window[k] == events[k] && k == e;
    } else if e < cut && !Covered(events[e], Ranges(window)) {
      assert window[e] == events[e];
      ShownIsInAll(window, Ranges(window), e, events[e]);
    }
  }

  // The summarizer at k was handed event e itself.
  predicate ReadAt(events: seq<Event>, cuts: seq<Option<nat>>, e: nat, k: nat)
    requires |cuts| == |events| && e < |events| && k < |events|
  {
    cuts[k].Some? && e < cuts[k].value <= k && InTranscript(events, cuts[k].value, events[e])
  }

  // Whatever reaches a summary was handed to some summarizer itself.
  lemma {:induction false} ReachedIsRead(events: seq<Event>, cuts: seq<Option<nat>>, e: nat, j: nat) returns (k: nat)
    requires |cuts| == |events| && e < |events| && j < |events| && Reaches(events, cuts, e, j)
    ensures k < |events| && ReadAt(events, cuts, e, k)
    decreases j
  {
    hide InTranscript, Fed;
    if ReadAt(events, cuts, e, j) {
      k := j;
    } else {
      var i :| 0 <= i < j && Fed(events, cuts, i, j) && Reaches(events, cuts, e, i);
      k := ReachedIsRead(events, cuts, e, i);
    }
  }

  // In any log, early or late: an ordinary event survives exactly when no summary covers it or a summarizer read it.
  lemma SurvivesExactlyIfRead(events: seq<Event>, cuts: seq<Option<nat>>, e: nat)
    requires Recorded(events, cuts) && |cuts| == |events| && DistinctIds(events)
    requires e < |events| && events[e].summary.None?
    ensures Survives(events, cuts, e) <==>
              !Covered(events[e], Ranges(events)) || exists k | 0 <= k < |events| :: ReadAt(events, cuts, e, k)
  {
    hide Covered, Ranges, Retained, Recorded, Transcript;
    assert events[..|events|] == events;
    TranscriptHolds(events, |events|, e);
    if j: nat :| j < |events| && Retained(events, cuts, j) && Reaches(events, cuts, e, j) {
      var k := ReachedIsRead(events, cuts, e, j);
    }
    if k: nat :| k < |events| && ReadAt(events, cuts, e, k) {
      assert Reaches(events, cuts, e, k);
      var j := ReachesRetained(events, cuts, e, k);
    }
  }

  // An event that a summary already covers when it arrives is never read.
  lemma CoveredOnArrivalIsLost(events: seq<Event>, cuts: seq<Option<nat>>, e: nat, j: nat)
    requires Recorded(events, cuts) && |cuts| == |events| && DistinctIds(events)
    requires j < e < |events| && events[e].summary.None? && events[j].summary.Some?
    requires CoveredBy(events[e], events[j].summary.value)
    ensures !Survives(events, cuts, e)
  {
    hide CoveredBy, Recorded, Survives, InTranscript;
    SummaryHasCut(events, cuts, j);
    CutIsBounded(events, cuts, j);
    var r := EventGivesRange(events, j);
    forall k | 0 <= k < |events| ensures !ReadAt(events, cuts, e, k) {
      if cuts[k].Some? && e < cuts[k].value <= k {
        var window := events[..cuts[k].value];
        assert window[j] == events[j];
        var q := EventGivesRange(window, j);
        assert CoveredBy(events[e], Ranges(window)[q]);
        TranscriptHolds(events, cuts[k].value, e);
      }
    }
    SurvivesExactlyIfRead(events, cuts, e);
  }

  // What a summary excludes was there when it was recorded.
  lemma {:induction false} ExcludedWasThere(all: seq<Event>, cut: nat, n: nat, x: EventRef) returns (i: nat)
    requires 0 < cut <= n <= |all| && x in Exclusions(all, cut, n)
    ensures i < n && all[i].summary.None? && RefOf(all[i]) == x
    decreases n
  {
    if x in Exclusions(all, cut, n - 1) {
      i := ExcludedWasThere(all, cut, n - 1, x);
    } else {
      i := n - 1;
    }
  }

  // A summary that spans a late event covers it, unless it excludes another event of the same reference.
  lemma SpannedIsCovered(events: seq<Event>, cuts: seq<Option<nat>>, e: nat, j: nat)
    requires Recorded(events, cuts) && j < e < |events| && OwnReference(events, e)
    requires RollsAt(events[j], events[e].time)
    ensures CoveredBy(events[e], events[j].summary.value)
  {
    hide SummaryOf, Exclusions;
    SummaryHasCut(events, cuts, j);
    assert RecordedAt(events, cuts, j);
    var cut, s := cuts[j].value, events[j].summary.value;
    SummaryParts(events[..j], cut, s.content.value);
    assert forall i | 0 <= i < j :: events[..j][i] == events[i];
    if RefOf(events[e]) in s.excluded {
      var i := ExcludedWasThere(events[..j], cut, j, RefOf(events[e]));
    }
  }

  // Over any run, whatever the clock did: an ordinary event with a reference of its own is still shown raw, or is in
  // a summary that no other replaced, if and only if it did not arrive late.
  lemma LostExactlyIfLate(steps: seq<Step>, e: nat)
    requires OnlyOrdinaryAppends(steps)
    requires var events := Kept(Run(steps).log);
      DistinctIds(events) && e < |events| && events[e].summary.None? && OwnReference(events, e)
    ensures var (events, cuts) := (Kept(Run(steps).log), Run(steps).cuts);
      |cuts| == |events| && (Survives(events, cuts, e) <==> InTime(events, e))
  {
    hide Run, Kept, Recorded, DistinctIds, OwnReference, Retained, Reaches, Transcript, RollsAt, CoveredBy;
    var events, cuts := Kept(Run(steps).log), Run(steps).cuts;
    RunsAreRecorded(steps);
    SameLength(events, cuts);
    if InTime(events, e) {
      NothingIsLost(steps, e);
    } else {
      var j :| 0 <= j < e && RollsAt(events[j], events[e].time);
      HasSummary(events[j], events[e].time);
      SpannedIsCovered(events, cuts, e, j);
      CoveredOnArrivalIsLost(events, cuts, e, j);
    }
  }

  lemma HasSummary(ev: Event, time: int)
    requires RollsAt(ev, time)
    ensures ev.summary.Some?
  {
  }

  // When it arrives, and whatever its reference, the newest event is lost exactly when a summary covers it.
  lemma NewestIsLostIffCovered(events: seq<Event>, cuts: seq<Option<nat>>)
    requires Recorded(events, cuts) && DistinctIds(events)
    requires events != [] && events[|events| - 1].summary.None?
    ensures |cuts| == |events|
    ensures Survives(events, cuts, |events| - 1) <==> !Covered(events[|events| - 1], Ranges(events))
  {
    hide Covered, InTranscript, Recorded;
    var e := |events| - 1;
    SameLength(events, cuts);
    assert forall k | 0 <= k < |events| :: !ReadAt(events, cuts, e, k);
    SurvivesExactlyIfRead(events, cuts, e);
  }

  function Said(id: nat, time: int, author: string): Event {
    Event(id, id, time, author, Some([Text("hi")]), false, None)
  }

  function LateRun(): seq<Step> {
    [Append(Said(0, 0, "user")), Append(Said(1, 10, "blitz")), Append(Said(2, 11, "user")),
     DoCompact(1, [Text("s")], 20, 3, 3), Append(Said(4, 5, "blitz"))]
  }

  lemma RunOneMore(steps: seq<Step>, n: nat)
    requires n < |steps|
    ensures Run(steps[..n + 1]) == Take(Run(steps[..n]), steps[n])
  {
    assert steps[..n + 1][..n] == steps[..n];
  }

  lemma {:induction false} KeptWhole(log: seq<Event>)
    requires forall i | 0 <= i < |log| :: !log[i].partial
    ensures Kept(log) == log
  {
    if log != [] {
      KeptWhole(log[..|log| - 1]);
    }
  }

  // The three events before the compaction, and what it records.
  const EARLY: seq<Event> := [Said(0, 0, "user"), Said(1, 10, "blitz"), Said(2, 11, "user")]
  const MARK: Event := Event(3, 3, 20, "user", None, false, Some(Summary(0, 10, Some([Text("s")]), [])))

  lemma EarlyRun()
    ensures Run([Append(EARLY[0]), Append(EARLY[1]), Append(EARLY[2])]) == Conversation(EARLY, [None, None, None])
    ensures Kept(EARLY) == EARLY
  {
    KeptWhole(EARLY);
    var steps := [Append(EARLY[0]), Append(EARLY[1]), Append(EARLY[2])];
    assert Run([]) == Conversation([], []);
    assert steps[..0] == [] && steps[..3] == steps;
    hide Run, Kept, Decide;
    RunOneMore(steps, 0);
    assert Run(steps[..1]) == Conversation([EARLY[0]], [None]);
    RunOneMore(steps, 1);
    assert Run(steps[..2]) == Conversation([EARLY[0], EARLY[1]], [None, None]);
    RunOneMore(steps, 2);
  }

  lemma LateRunResult()
    ensures Run(LateRun()) == Conversation(EARLY + [MARK] + [Said(4, 5, "blitz")], [None, None, None, Some(2), None])
    ensures Kept(Run(LateRun()).log) == EARLY + [MARK] + [Said(4, 5, "blitz")]
  {
    hide Run, Kept, Decide, SummaryOf, ProseOnly;
    var steps := LateRun();
    EarlyRun();
    LateDecision();
    LateSummary();
    KeptWhole(EARLY + [MARK] + [Said(4, 5, "blitz")]);
    assert steps[..3] == [Append(EARLY[0]), Append(EARLY[1]), Append(EARLY[2])] && steps[..5] == steps;
    RunOneMore(steps, 3);
    RunOneMore(steps, 4);
  }

  lemma LateDecision()
    ensures Decide(EARLY, 1, [Text("s")], 20) == Ok(2)
  {
    EarlyCut();
    EarlyWindow();
    assert HasUncompacted(EARLY[..2]) by { assert EARLY[..2][0].summary.None?; }
    assert ProseOnly([Text("s")]) == [Text("s")];
  }

  lemma EarlyCut()
    ensures CutOf(EARLY, 1, 3) == 2
  {
    assert TurnStarts(EARLY, 3) == 0;
    assert !HasResponse(EARLY[2].content.value);
    assert IsUserTurnStart(EARLY[2]);
    assert TurnStarts(EARLY, 2) == 1;
  }

  lemma EarlyWindow()
    ensures Earliest(EARLY[..2]) == 0 && Latest(EARLY[..2]) == 10 && EARLY[..2] != []
  {
    assert EARLY[..2] == [EARLY[0], EARLY[1]];
    assert EARLY[..2][..1] == [EARLY[0]];
  }

  lemma LateSummary()
    ensures SummaryOf(EARLY, 2, [Text("s")]) == Summary(0, 10, Some([Text("s")]), [])
    ensures ProseOnly([Text("s")]) == [Text("s")]
  {
    EarlyWindow();
    assert Exclusions(EARLY, 2, 2) == [];
    assert !MustExclude(EARLY[..2], EARLY[2]);
  }

  // It does happen: a reply stamped before the cut but recorded after the compaction is gone from both.
  lemma LateArrivalIsLost()
    ensures var (events, cuts) := (Kept(Run(LateRun()).log), Run(LateRun()).cuts);
      && OnlyOrdinaryAppends(LateRun()) && |events| == |cuts| == 5 && events[4] == Said(4, 5, "blitz")
      && !(events[4] in Transcript(events))
      && !exists j | 0 <= j < 5 :: Retained(events, cuts, j) && Reaches(events, cuts, 4, j)
  {
    LateRunResult();
    hide Run, Kept;
    var events, cuts := Kept(Run(LateRun()).log), Run(LateRun()).cuts;
    RunsAreRecorded(LateRun());
    NewestIsLostIffCovered(events, cuts);
    var r := EventGivesRange(events, 3);
    assert CoveredBy(events[4], Ranges(events)[r]);
  }

  // ---- Two events of one reference ----

  // A reply recorded late, and another like it: the same invocation and time.
  function Twin(id: nat): Event {
    Event(id, 7, 5, "blitz", Some([Text("hi")]), false, None)
  }

  function TwinRun(): seq<Step> {
    [Append(EARLY[0]), Append(EARLY[1]), Append(EARLY[2]), Append(Twin(3)), DoCompact(1, [Text("s")], 20, 4, 4),
     Append(Said(5, 21, "user")), Append(Twin(6)), DoCompact(1, [Text("s")], 30, 7, 7)]
  }

  const FIRST_TWIN: seq<Event> := EARLY + [Twin(3)]
  const FIRST_MARK: Event :=
    Event(4, 4, 20, "user", None, false, Some(Summary(0, 10, Some([Text("s")]), [EventRef(7, 5)])))
  const BOTH_TWINS: seq<Event> := FIRST_TWIN + [FIRST_MARK] + [Said(5, 21, "user")] + [Twin(6)]
  const LAST_MARK: Event := Event(7, 7, 30, "user", None, false, Some(Summary(0, 20, Some([Text("s")]), [])))

  lemma TwinCuts()
    ensures CutOf(FIRST_TWIN, 1, 4) == 2 && CutOf(BOTH_TWINS, 1, 7) == 5
  {
    var a, b := FIRST_TWIN, BOTH_TWINS;
    assert a[3] == Twin(3) && a[2] == EARLY[2] && b[6] == Twin(6) && b[5] == Said(5, 21, "user");
    assert !HasResponse(a[2].content.value) && !HasResponse(b[5].content.value);
    assert IsUserTurnStart(a[2]) && IsUserTurnStart(b[5]);
    assert TurnStarts(a, 4) == 0 && TurnStarts(a, 3) == 0 && TurnStarts(a, 2) == 1;
    assert TurnStarts(b, 7) == 0 && TurnStarts(b, 6) == 0 && TurnStarts(b, 5) == 1;
  }

  lemma FirstTwinSummary()
    ensures SummaryOf(FIRST_TWIN, 2, [Text("s")]) == FIRST_MARK.summary.value && FIRST_TWIN[..2] == EARLY[..2]
  {
    var a := FIRST_TWIN;
    EarlyWindow();
    assert a[..2] == EARLY[..2];
    assert a[2] == EARLY[2] && a[3] == Twin(3);
    assert Exclusions(a, 2, 2) == [];
    assert !MustExclude(a[..2], a[2]) && MustExclude(a[..2], a[3]);
    assert Exclusions(a, 2, 3) == [];
    assert Exclusions(a, 2, 4) == [EventRef(7, 5)];
  }

  lemma LastWindow()
    ensures var w := BOTH_TWINS[..5];
      w == FIRST_TWIN + [FIRST_MARK] && Earliest(w) == 0 && Latest(w) == 20 && RolledUp(w, 5)
  {
    var w := BOTH_TWINS[..5];
    assert w == FIRST_TWIN + [FIRST_MARK] && w[..4] == FIRST_TWIN && w[..4][..3] == EARLY;
    assert EARLY[..2] == [EARLY[0], EARLY[1]] && EARLY[..2][..1] == [EARLY[0]];
    EarlyWindow();
    assert Earliest(EARLY) == 0 && Latest(EARLY) == 11;
    assert Earliest(w[..4]) == 0 && Latest(w[..4]) == 11;
    assert RollsAt(w[4], 5);
  }

  lemma LastTwinSummary()
    ensures SummaryOf(BOTH_TWINS, 5, [Text("s")]) == LAST_MARK.summary.value
  {
    var b := BOTH_TWINS;
    LastWindow();
    assert b[5] == Said(5, 21, "user") && b[6] == Twin(6);
    hide RolledUp, Earliest, Latest;
    assert !MustExclude(b[..5], b[5]) && !MustExclude(b[..5], b[6]);
    assert Exclusions(b, 5, 5) == [] && Exclusions(b, 5, 6) == [] && Exclusions(b, 5, 7) == [];
  }

  lemma TwinDecisions()
    ensures Decide(FIRST_TWIN, 1, [Text("s")], 20) == Ok(2) && Decide(BOTH_TWINS, 1, [Text("s")], 30) == Ok(5)
  {
    TwinCuts();
    FirstTwinSummary();
    EarlyWindow();
    LastWindow();
    LateSummary();
    assert FIRST_TWIN[..2][0] == EARLY[0] && BOTH_TWINS[..5][0] == EARLY[0];
    hide CutOf, Earliest, Latest, ProseOnly;
    assert HasUncompacted(FIRST_TWIN[..2]) && HasUncompacted(BOTH_TWINS[..5]);
  }

  lemma TwinRunResult()
    ensures Run(TwinRun()[..7]) == Conversation(BOTH_TWINS, [None, None, None, None, Some(2), None, None])
    ensures Run(TwinRun()) ==
              Conversation(BOTH_TWINS + [LAST_MARK], [None, None, None, None, Some(2), None, None, Some(5)])
    ensures Kept(BOTH_TWINS) == BOTH_TWINS && Kept(BOTH_TWINS + [LAST_MARK]) == BOTH_TWINS + [LAST_MARK]
  {
    hide Run, Kept, Decide, SummaryOf, ProseOnly;
    var steps := TwinRun();
    EarlyRun();
    LateSummary();
    TwinDecisions();
    FirstTwinSummary();
    LastTwinSummary();
    KeptWhole(FIRST_TWIN);
    KeptWhole(BOTH_TWINS);
    KeptWhole(BOTH_TWINS + [LAST_MARK]);
    assert steps[..3] == [Append(EARLY[0]), Append(EARLY[1]), Append(EARLY[2])];
    RunOneMore(steps, 3);
    RunOneMore(steps, 4);
    RunOneMore(steps, 5);
    RunOneMore(steps, 6);
    RunOneMore(steps, 7);
    assert steps[..8] == steps;
  }

  lemma TwinFacts()
    ensures var all := BOTH_TWINS + [LAST_MARK];
      && OnlyOrdinaryAppends(TwinRun()) && BOTH_TWINS[6] == all[6] == Twin(6) && all[7] == LAST_MARK
      && !InTime(BOTH_TWINS, 6) && !OwnReference(BOTH_TWINS, 6) && DistinctIds(BOTH_TWINS) && DistinctIds(all)
  {
    assert RollsAt(BOTH_TWINS[4], BOTH_TWINS[6].time);
    assert RefOf(BOTH_TWINS[3]) == RefOf(BOTH_TWINS[6]);
  }

  lemma TwinNotCovered()
    ensures !Covered(BOTH_TWINS[6], Ranges(BOTH_TWINS))
  {
    var b := BOTH_TWINS;
    assert b[6] == Twin(6) && b[4] == FIRST_MARK && forall k | 0 <= k < 7 && k != 4 :: b[k].summary.None?;
    assert FIRST_MARK.summary.value.excluded[0] == EventRef(7, 5);
    hide Ranges;
    if Covered(b[6], Ranges(b)) {
      var r :| 0 <= r < |Ranges(b)| && CoveredBy(b[6], Ranges(b)[r]);
      var k := RangeComesFromEvent(b, r);
    }
  }

  // An event no window held, which a summary now covers.
  lemma CoveredUnread(events: seq<Event>, cuts: seq<Option<nat>>, e: nat, j: nat)
    requires Recorded(events, cuts) && |cuts| == |events| && DistinctIds(events)
    requires e < |events| && events[e].summary.None? &&
             forall k | 0 <= k < |cuts| && cuts[k].Some? :: cuts[k].value <= e
    requires j < |events| && events[j].summary.Some? && events[j].summary.value.content.Some?
    requires CoveredBy(events[e], events[j].summary.value)
    ensures !Survives(events, cuts, e)
  {
    hide CoveredBy, Recorded, Survives, InTranscript, DistinctIds;
    var r := EventGivesRange(events, j);
    SurvivesExactlyIfRead(events, cuts, e);
  }

  // Of an event whose reference another has, it can go either way: excluded by the summary that spans it, it is still
  // shown when it arrives, and the next compaction, which takes it for one rolled up earlier, loses it unread.
  lemma TwinIsLostLater()
    ensures var (before, after) := (Run(TwinRun()[..7]), Run(TwinRun()));
      && OnlyOrdinaryAppends(TwinRun()) && DistinctIds(Kept(after.log))
      && Kept(before.log) == BOTH_TWINS && Kept(after.log) == BOTH_TWINS + [LAST_MARK] && BOTH_TWINS[6] == Twin(6)
      && !InTime(BOTH_TWINS, 6) && !OwnReference(BOTH_TWINS, 6)
      && |before.cuts| == 7 && Survives(BOTH_TWINS, before.cuts, 6)
      && |after.cuts| == 8 && !Survives(BOTH_TWINS + [LAST_MARK], after.cuts, 6)
  {
    TwinRunResult();
    TwinFacts();
    TwinNotCovered();
    hide Run, Kept, Recorded, RecordedAt, Covered, Survives, InTime, OwnReference, DistinctIds, OnlyOrdinaryAppends;
    TwinHeads();
    RunsAreRecorded(TwinRun()[..7]);
    RunsAreRecorded(TwinRun());
    NewestIsLostIffCovered(BOTH_TWINS, Run(TwinRun()[..7]).cuts);
    CoveredUnread(BOTH_TWINS + [LAST_MARK], Run(TwinRun()).cuts, 6, 7);
  }

  lemma TwinHeads()
    requires OnlyOrdinaryAppends(TwinRun())
    ensures OnlyOrdinaryAppends(TwinRun()[..7])
  {
  }
}
