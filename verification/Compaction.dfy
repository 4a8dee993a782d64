/** Conversation compaction (internal/runtime/compact.go). */
module Compaction {
  import opened Results

  datatype Part = Text(text: string) | Thought(text: string) | Call(id: nat) | Response(id: nat)

  datatype EventRef = EventRef(invocation: nat, time: int)

  // A summary standing in for the events in a span of time, the excluded ones apart.
  datatype Summary = Summary(start: int, end: int, content: Option<seq<Part>>, excluded: seq<EventRef>)

  datatype Event = Event(id: nat, invocation: nat, time: int, author: string,
                         content: Option<seq<Part>>, partial: bool, summary: Option<Summary>)

  datatype CompactError = NothingToCompact | NoText | ClockBehind

  const SUMMARY_HEADING: Part := Text("[Summary of earlier conversation]\n")

  // ---- Cutting ----

  predicate HasResponse(parts: seq<Part>) {
    exists k | 0 <= k < |parts| :: parts[k].Response?
  }

  // Where a turn starts: an event of the user's with content, and with neither a result nor a summary in it.
  predicate IsUserTurnStart(ev: Event) {
    ev.author == "user" && ev.content.Some? && ev.summary.None? && !HasResponse(ev.content.value)
  }

  function TurnStarts(events: seq<Event>, from: nat): nat
    requires from <= |events|
    decreases |events| - from
  {
    if from == |events| then 0
    else (if IsUserTurnStart(events[from]) then 1 else 0) + TurnStarts(events, from + 1)
  }

  // The start of the keep-th most recent user turn, or -1 when there are not so many.
  method FindCut(events: seq<Event>, keep: nat) returns (cut: int)
    requires keep >= 1
    ensures -1 <= cut < |events|
    ensures cut == -1 <==> TurnStarts(events, 0) < keep
    ensures cut != -1 ==> IsUserTurnStart(events[cut]) && TurnStarts(events, cut) == keep
  {
    hide IsUserTurnStart;
    var seen := 0;
    var i := |events|;
    while i > 0
      invariant 0 <= i <= |events|
      invariant seen == TurnStarts(events, i) < keep
    {
      i := i - 1;
      if IsUserTurnStart(events[i]) {
        seen := seen + 1;
        if seen == keep {
          TurnStartsGrow(events, 0, i);
          return i;
        }
      }
    }
    return -1;
  }

  lemma {:induction false} TurnStartsGrow(events: seq<Event>, a: nat, b: nat)
    requires a <= b <= |events|
    ensures TurnStarts(events, a) >= TurnStarts(events, b)
    decreases b - a
  {
    if a < b {
      TurnStartsGrow(events, a + 1, b);
    }
  }

  // The turns that start at an event or later: events of the user's with content and neither a tool's result nor a
  // summary in it.
  ghost function Turns(events: seq<Event>, from: nat): set<nat> {
    set i: nat | from <= i < |events| && events[i].author == "user" && events[i].summary.None?
                 && events[i].content.Some? && forall k | 0 <= k < |events[i].content.value| ::
                                                  !events[i].content.value[k].Response?
  }

  lemma {:induction false} TurnsAreCounted(events: seq<Event>, from: nat)
    requires from <= |events|
    ensures TurnStarts(events, from) == |Turns(events, from)|
    decreases |events| - from
  {
    if from == |events| {
      assert Turns(events, from) == {};
    } else {
      TurnsAreCounted(events, from + 1);
      assert Turns(events, from) == Turns(events, from + 1) + if IsUserTurnStart(events[from]) then {from} else {};
    }
  }

  // The k-th most recent turn starts there.
  ghost predicate IsCut(events: seq<Event>, k: nat, cut: nat) {
    cut in Turns(events, 0) && |Turns(events, cut)| == k
  }

  lemma CutIsStart(events: seq<Event>, k: nat, cut: nat)
    ensures IsCut(events, k, cut) <==> cut < |events| && IsUserTurnStart(events[cut]) && TurnStarts(events, cut) == k
  {
    if cut < |events| {
      TurnsAreCounted(events, cut);
    }
  }

  // ---- Coverage ----

  function Ranges(events: seq<Event>): seq<Summary> {
    if events == [] then []
    else
      var e := events[|events| - 1];
      Ranges(events[..|events| - 1]) +
      if e.summary.Some? && e.summary.value.content.Some? then [e.summary.value] else []
  }

  predicate Excluded(ev: Event, r: Summary) {
    exists k | 0 <= k < |r.excluded| :: r.excluded[k] == EventRef(ev.invocation, ev.time)
  }

  predicate CoveredBy(ev: Event, r: Summary) {
    r.start <= ev.time <= r.end && !Excluded(ev, r)
  }

  predicate Covered(ev: Event, ranges: seq<Summary>) {
    exists k | 0 <= k < |ranges| :: CoveredBy(ev, ranges[k])
  }

  method IsCovered(ev: Event, ranges: seq<Summary>) returns (r: bool)
    ensures r == Covered(ev, ranges)
  {
    for k := 0 to |ranges|
      invariant forall j | 0 <= j < k :: !CoveredBy(ev, ranges[j])
    {
      var s := ranges[k];
      if ev.time < s.start || ev.time > s.end {
        continue;
      }
      var excluded := false;
      for x := 0 to |s.excluded|
        invariant excluded <==> exists j | 0 <= j < x :: s.excluded[j] == EventRef(ev.invocation, ev.time)
      {
        if s.excluded[x].invocation == ev.invocation && s.excluded[x].time == ev.time {
          excluded := true;
        }
      }
      if !excluded {
        return true;
      }
    }
    return false;
  }

  // ---- The summarizer's input ----

  function SummaryEvent(ev: Event): Event
    requires ev.summary.Some? && ev.summary.value.content.Some?
  {
    Event(ev.id, ev.invocation, ev.time, "model", Some([SUMMARY_HEADING] + ev.summary.value.content.value), false, None)
  }

  // What one event of a window contributes.
  function Shown(ev: Event, ranges: seq<Summary>): seq<Event> {
    if ev.summary.Some? then
      if ev.summary.value.content.Some? then [SummaryEvent(ev)] else []
    else if Covered(ev, ranges) then [] else [ev]
  }

  function ShowAll(events: seq<Event>, ranges: seq<Summary>): seq<Event> {
    if events == [] then []
    else ShowAll(events[..|events| - 1], ranges) + Shown(events[|events| - 1], ranges)
  }

  // What a summarizer is given: every summary in the window as text, and each event none of them covers.
  function Transcript(window: seq<Event>): seq<Event> {
    ShowAll(window, Ranges(window))
  }

  method TranscriptEvents(window: seq<Event>) returns (out: seq<Event>)
    ensures out == Transcript(window)
  {
    hide Covered;
    var ranges: seq<Summary> := [];
    for i := 0 to |window|
      invariant ranges == Ranges(window[..i])
    {
      var ev := window[i];
      assert window[..i + 1][..i] == window[..i];
      if ev.summary.Some? && ev.summary.value.content.Some? {
        ranges := ranges + [ev.summary.value];
      }
    }
    assert window[..|window|] == window;
    out := [];
    for i := 0 to |window|
      invariant out == ShowAll(window[..i], ranges)
    {
      var ev := window[i];
      assert window[..i + 1][..i] == window[..i];
      if ev.summary.Some? {
        if ev.summary.value.content.None? {
          continue;
        }
        out := out + [SummaryEvent(ev)];
        continue;
      }
      var covered := IsCovered(ev, ranges);
      if !covered {
        out := out + [ev];
      }
    }
  }

  predicate HasUncompacted(events: seq<Event>) {
    exists k | 0 <= k < |events| :: events[k].summary.None?
  }

  function ProseOnly(parts: seq<Part>): seq<Part> {
    if parts == [] then []
    else (if parts[0].Text? && parts[0].text != "" then [parts[0]] else []) + ProseOnly(parts[1..])
  }

  // ---- The compaction event ----

  function Earliest(window: seq<Event>): int
    requires window != []
  {
    if |window| == 1 then window[0].time
    else
      var t := Earliest(window[..|window| - 1]);
      if window[|window| - 1].time < t then window[|window| - 1].time else t
  }

  function Latest(window: seq<Event>): int
    requires window != []
  {
    if |window| == 1 then window[0].time
    else
      var t := Latest(window[..|window| - 1]);
      if window[|window| - 1].time > t then window[|window| - 1].time else t
  }

  // Whether a summary in the window spans the time.
  predicate RolledUp(window: seq<Event>, time: int) {
    exists k | 0 <= k < |window| :: RollsAt(window[k], time)
  }

  // An event after the window that the new summary's span must not swallow.
  predicate MustExclude(window: seq<Event>, ev: Event)
    requires window != []
  {
    ev.summary.None? && Earliest(window) <= ev.time <= Latest(window) && !RolledUp(window, ev.time)
  }

  function Exclusions(all: seq<Event>, cut: nat, n: nat): seq<EventRef>
    requires 0 < cut <= n <= |all|
    decreases n
  {
    if n == cut then []
    else
      Exclusions(all, cut, n - 1) +
      if MustExclude(all[..cut], all[n - 1]) then [EventRef(all[n - 1].invocation, all[n - 1].time)] else []
  }

  function SummaryOf(all: seq<Event>, cut: nat, content: seq<Part>): Summary
    requires 0 < cut <= |all|
  {
    Summary(Earliest(all[..cut]), Latest(all[..cut]), Some(content), Exclusions(all, cut, |all|))
  }

  method MakeSummary(all: seq<Event>, cut: nat, content: seq<Part>) returns (s: Summary)
    requires 0 < cut <= |all|
    ensures s == SummaryOf(all, cut, content)
  {
    hide RolledUp;
    var window := all[..cut];
    var start, end := window[0].time, window[0].time;
    var rolled: seq<Summary> := [];
    var i := 0;
    while i < |window|
      invariant 0 <= i <= |window|
      invariant i > 0 ==> start == Earliest(window[..i]) && end == Latest(window[..i])
      invariant i == 0 ==> start == end == window[0].time
      invariant Rolls(rolled, window[..i])
    {
      var ev := window[i];
      assert window[..i + 1][..i] == window[..i];
      if ev.time < start {
        start := ev.time;
      }
      if ev.time > end {
        end := ev.time;
      }
      RollsMore(rolled, window, i);
      if ev.summary.Some? {
        rolled := rolled + [ev.summary.value];
      }
      i := i + 1;
    }
    assert window[..|window|] == window;
    var excluded: seq<EventRef> := [];
    var n := cut;
    while n < |all|
      invariant cut <= n <= |all|
      invariant excluded == Exclusions(all, cut, n)
    {
      var ev := all[n];
      if ev.summary.None? && start <= ev.time <= end {
        var covered := false;
        for k := 0 to |rolled|
          invariant covered <==> exists j | 0 <= j < k :: Spans(rolled[j], ev.time)
        {
          if rolled[k].start <= ev.time <= rolled[k].end {
            covered := true;
          }
        }
        RollsMeaning(rolled, window, ev.time);
        if !covered {
          excluded := excluded + [EventRef(ev.invocation, ev.time)];
        }
      }
      n := n + 1;
    }
    s := Summary(start, end, Some(content), excluded);
  }

  // rolled lists the summaries of the window, in order.
  function AllSummaries(window: seq<Event>): seq<Summary> {
    if window == [] then []
    else
      AllSummaries(window[..|window| - 1]) +
      if window[|window| - 1].summary.Some? then [window[|window| - 1].summary.value] else []
  }

  predicate Rolls(rolled: seq<Summary>, window: seq<Event>) {
    rolled == AllSummaries(window)
  }

  lemma RollsMore(rolled: seq<Summary>, window: seq<Event>, i: nat)
    requires i < |window| && Rolls(rolled, window[..i])
    ensures Rolls(if window[i].summary.Some? then rolled + [window[i].summary.value] else rolled, window[..i + 1])
  {
    assert window[..i + 1][..i] == window[..i];
  }

  predicate Spans(s: Summary, time: int) {
    s.start <= time <= s.end
  }

  predicate SomeSpans(rolled: seq<Summary>, time: int) {
    exists j | 0 <= j < |rolled| :: Spans(rolled[j], time)
  }

  predicate RollsAt(ev: Event, time: int) {
    ev.summary.Some? && Spans(ev.summary.value, time)
  }

  lemma SomeSpansMore(rolled: seq<Summary>, s: Summary, time: int)
    ensures SomeSpans(rolled + [s], time) <==> SomeSpans(rolled, time) || Spans(s, time)
  {
    hide Spans;
    var all := rolled + [s];
    assert all[|rolled|] == s;
    assert forall j | 0 <= j < |rolled| :: all[j] == rolled[j];
  }

  lemma RolledUpMore(window: seq<Event>, time: int)
    requires window != []
    ensures RolledUp(window, time) <==> RolledUp(window[..|window| - 1], time) || RollsAt(window[|window| - 1], time)
  {
    hide RollsAt;
    var n := |window| - 1;
    assert forall k | 0 <= k < n :: window[..n][k] == window[k];
    if RolledUp(window, time) {
      var k :| 0 <= k < |window| && RollsAt(window[k], time);
      assert k < n ==> window[..n][k] == window[k];
    }
  }

  lemma NothingRolled(time: int)
    ensures !RolledUp([], time) && !SomeSpans([], time)
  {
  }

  lemma {:induction false} RollsMeaning(rolled: seq<Summary>, window: seq<Event>, time: int)
    requires Rolls(rolled, window)
    ensures RolledUp(window, time) <==> SomeSpans(rolled, time)
    decreases |window|
  {
    hide SomeSpans, RolledUp;
    if window == [] {
      NothingRolled(time);
    } else {
      var n := |window| - 1;
      var before := AllSummaries(window[..n]);
      RollsMeaning(before, window[..n], time);
      RolledUpMore(window, time);
      if window[n].summary.Some? {
        SomeSpansMore(before, window[n].summary.value, time);
      } else {
        assert rolled == before;
      }
    }
  }

  // ---- Compact ----

  function Kept(log: seq<Event>): seq<Event> {
    if log == [] then []
    else Kept(log[..|log| - 1]) + if log[|log| - 1].partial then [] else [log[|log| - 1]]
  }

  // Where the keep most recent turns start.
  function CutOf(events: seq<Event>, keep: nat, i: nat): (cut: int)
    requires i <= |events|
    ensures -1 <= cut < i
  {
    if i == 0 then -1
    else if IsUserTurnStart(events[i - 1]) && TurnStarts(events, i - 1) == keep then i - 1
    else CutOf(events, keep, i - 1)
  }

  // The outcome of a compaction given the summarizer's answer and the clock: the cut, or why not.
  function Decide(events: seq<Event>, keepTurns: int, answer: seq<Part>, now: int): Result<nat, CompactError> {
    var keep := if keepTurns < 1 then 1 else keepTurns;
    var cut := CutOf(events, keep, |events|);
    if cut <= 0 then Err(NothingToCompact)
    else if !HasUncompacted(events[..cut]) then Err(NothingToCompact)
    else if ProseOnly(answer) == [] then Err(NoText)
    else if now <= Latest(events[..cut]) then Err(ClockBehind)
    else Ok(cut)
  }

  // A part of the answer that is recorded.
  predicate IsProse(p: Part) {
    p.Text? && p.text != ""
  }

  // Of parts one after the other, what is recorded of each is, in that order.
  lemma {:induction false} ProseAppends(a: seq<Part>, b: seq<Part>)
    ensures ProseOnly(a + b) == ProseOnly(a) + ProseOnly(b)
  {
    if a == [] {
      assert a + b == b;
      assert [] + ProseOnly(b) == ProseOnly(b);
    } else {
      var first := if a[0].Text? && a[0].text != "" then [a[0]] else [];
      assert ProseOnly(a) == first + ProseOnly(a[1..]);
      assert (a + b)[0] == a[0] && (a + b)[1..] == a[1..] + b;
      assert ProseOnly(a + b) == first + ProseOnly(a[1..] + b);
      hide ProseOnly;
      ProseAppends(a[1..], b);
      assert first + (ProseOnly(a[1..]) + ProseOnly(b)) == first + ProseOnly(a[1..]) + ProseOnly(b);
    }
  }

  // Of each part alone, what is recorded is itself if it is a text that is not empty, and nothing otherwise; so of an
  // answer just those texts, every one, as they come.
  lemma ProseIsTheTexts(a: seq<Part>, p: Part, b: seq<Part>)
    ensures ProseOnly([]) == []
    ensures ProseOnly(a + [p] + b) == ProseOnly(a) + (if p.Text? && p.text != "" then [p] else []) + ProseOnly(b)
  {
    assert ProseOnly([]) == [];
    assert [p][1..] == [];
    assert ProseOnly([p]) == if p.Text? && p.text != "" then [p] else [];
    hide ProseOnly;
    ProseAppends(a + [p], b);
    ProseAppends(a, [p]);
  }

  lemma {:induction false} NoProse(parts: seq<Part>)
    ensures ProseOnly(parts) == [] <==> forall k | 0 <= k < |parts| :: !IsProse(parts[k])
  {
    if parts != [] {
      NoProse(parts[1..]);
      assert forall k | 1 <= k < |parts| :: parts[k] == parts[1..][k - 1];
    }
  }

  // A window with something in it that is no summary yet.
  ghost predicate HasNews(events: seq<Event>, cut: nat) {
    exists i | 0 <= i < cut && i < |events| :: events[i].summary.None?
  }

  // Every event before the cut is before now.
  ghost predicate Behind(events: seq<Event>, cut: nat, now: int) {
    forall i | 0 <= i < cut && i < |events| :: events[i].time < now
  }

  // What a compaction decides: it cuts where the turns to keep start, of which there is at least one; it does not
  // when there is no such place with anything new before it, when the answer has no text, or when the clock is not
  // past every event before the cut.
  lemma DecideMeans(events: seq<Event>, keepTurns: int, answer: seq<Part>, now: int)
    ensures var (r, k) := (Decide(events, keepTurns, answer, now), if keepTurns < 1 then 1 else keepTurns);
      && (r.Ok? ==> IsCut(events, k, r.value) && HasNews(events, r.value)
                    && (exists i | 0 <= i < |answer| :: IsProse(answer[i]))
                    && Behind(events, r.value, now))
      && (r == Err(NothingToCompact) <==> forall cut: nat | IsCut(events, k, cut) :: !HasNews(events, cut))
      && (r == Err(NoText) <==>
            (exists cut: nat :: IsCut(events, k, cut) && HasNews(events, cut))
            && forall i | 0 <= i < |answer| :: !IsProse(answer[i]))
      && (r == Err(ClockBehind) <==>
            (exists i | 0 <= i < |answer| :: IsProse(answer[i]))
            && exists cut: nat :: IsCut(events, k, cut) && HasNews(events, cut) && !Behind(events, cut, now))
  {
    hide IsUserTurnStart, TurnStarts, CutOf, ProseOnly, Turns, IsCut, Behind, Latest;
    var k: nat := if keepTurns < 1 then 1 else keepTurns;
    var c := CutOf(events, k, |events|);
    CutOfIsCut(events, k);
    NoProse(answer);
    if c > 0 {
      NewsInWindow(events, c);
      BehindIsLatest(events, c, now);
      assert IsCut(events, k, c);
    }
    forall cut: nat | IsCut(events, k, cut) ensures cut == c {
      OneCut(events, k, cut);
    }
  }

  lemma NewsInWindow(events: seq<Event>, cut: nat)
    requires cut <= |events|
    ensures HasUncompacted(events[..cut]) <==> HasNews(events, cut)
  {
    assert forall i | 0 <= i < cut :: events[..cut][i] == events[i];
    if HasNews(events, cut) {
      var i :| 0 <= i < cut && i < |events| && events[i].summary.None?;
      assert events[..cut][i].summary.None?;
    }
  }

  // The span of a window: its first and its last time.
  lemma {:induction false} SpanIsExact(window: seq<Event>) returns (first: nat, last: nat)
    requires window != []
    ensures forall i | 0 <= i < |window| :: Earliest(window) <= window[i].time <= Latest(window)
    ensures first < |window| && window[first].time == Earliest(window)
    ensures last < |window| && window[last].time == Latest(window)
  {
    var n := |window| - 1;
    first, last := n, n;
    if n > 0 {
      var before := window[..n];
      var a, b := SpanIsExact(before);
      assert forall i | 0 <= i < n :: before[i] == window[i];
      first := if window[n].time < Earliest(before) then n else a;
      last := if window[n].time > Latest(before) then n else b;
    }
  }

  lemma BehindIsLatest(events: seq<Event>, cut: nat, now: int)
    requires 0 < cut <= |events|
    ensures Latest(events[..cut]) < now <==> Behind(events, cut, now)
  {
    hide Latest, Earliest;
    var _, _ := SpanIsExact(events[..cut]);
    assert forall i | 0 <= i < cut :: events[..cut][i] == events[i];
  }

  // An event of the window is covered by the summary made of it, unless its reference is excluded, as it is only for
  // the sake of a later event with the same one.
  lemma WindowIsCovered(events: seq<Event>, cut: nat, content: seq<Part>, e: nat)
    requires 0 < cut <= |events| && e < cut && events[e].summary.None?
    requires forall i | cut <= i < |events| && events[i].summary.None? ::
      EventRef(events[i].invocation, events[i].time) != EventRef(events[e].invocation, events[e].time)
    ensures CoveredBy(events[e], SummaryOf(events, cut, content))
  {
    hide Earliest, Latest;
    var _, _ := SpanIsExact(events[..cut]);
    assert events[..cut][e] == events[e];
    NotExcluded(events, cut, |events|, EventRef(events[e].invocation, events[e].time));
  }

  lemma {:induction false} NotExcluded(all: seq<Event>, cut: nat, n: nat, x: EventRef)
    requires 0 < cut <= n <= |all|
    requires forall i | cut <= i < n && all[i].summary.None? :: EventRef(all[i].invocation, all[i].time) != x
    ensures x !in Exclusions(all, cut, n)
    decreases n
  {
    hide Earliest, Latest, RolledUp;
    if n > cut {
      NotExcluded(all, cut, n - 1, x);
    }
  }

  lemma CutOfIsCut(events: seq<Event>, k: nat)
    ensures var c := CutOf(events, k, |events|); c >= 0 ==> IsCut(events, k, c)
  {
    CutIsTurnStart(events, k, |events|);
    var c := CutOf(events, k, |events|);
    if c >= 0 {
      CutIsStart(events, k, c);
    }
  }

  lemma OneCut(events: seq<Event>, k: nat, cut: nat)
    requires k >= 1 && IsCut(events, k, cut)
    ensures CutOf(events, k, |events|) == cut
  {
    CutIsStart(events, k, cut);
    CutIsUnique(events, k, |events|, cut);
  }

  function CompactionEvent(events: seq<Event>, cut: nat, answer: seq<Part>, now: int, id: nat, invocation: nat): Event
    requires 0 < cut <= |events|
  {
    Event(id, invocation, now, "user", None, false, Some(SummaryOf(events, cut, ProseOnly(answer))))
  }

  lemma {:induction false} CutIsUnique(events: seq<Event>, keep: nat, i: nat, cut: int)
    requires i <= |events| && -1 <= cut < |events| && keep >= 1
    requires cut == -1 ==> TurnStarts(events, 0) < keep
    requires cut != -1 ==> IsUserTurnStart(events[cut]) && TurnStarts(events, cut) == keep
    requires cut < i
    ensures CutOf(events, keep, i) == cut
    decreases i
  {
    hide IsUserTurnStart;
    if i > 0 {
      if IsUserTurnStart(events[i - 1]) && TurnStarts(events, i - 1) == keep {
        if cut == -1 {
          TurnStartsGrow(events, 0, i - 1);
        } else if cut < i - 1 {
          TurnStartsGrow(events, cut + 1, i - 1);
        }
      } else {
        CutIsUnique(events, keep, i - 1, cut);
      }
    }
  }

  method Compact(log: seq<Event>, keepTurns: int, answer: seq<Part>, now: int, id: nat, invocation: nat)
    returns (log': seq<Event>, input: seq<Event>, r: Result<nat, CompactError>)
    ensures r == Decide(Kept(log), keepTurns, answer, now)
    ensures r.Err? ==> log' == log
    ensures r.Ok? ==>
              r.value <= |Kept(log)| && log' == log + [CompactionEvent(Kept(log), r.value, answer, now, id, invocation)]
    ensures r.Ok? ==> input == Transcript(Kept(log)[..r.value])
    ensures r.Ok? ==> IsCut(Kept(log), if keepTurns < 1 then 1 else keepTurns, r.value)
  {
    hide Transcript, SummaryOf, IsUserTurnStart;
    log', input := log, [];
    var keep := if keepTurns < 1 then 1 else keepTurns;
    var events: seq<Event> := [];
    for i := 0 to |log|
      invariant events == Kept(log[..i]) && log' == log && input == []
    {
      assert log[..i + 1][..i] == log[..i];
      if !log[i].partial {
        events := events + [log[i]];
      }
    }
    assert log[..|log|] == log;
    var cut := FindCut(events, keep);
    CutIsUnique(events, keep, |events|, cut);
    if cut <= 0 {
      return log, [], Err(NothingToCompact);
    }
    var window := events[..cut];
    if !HasUncompacted(window) {
      return log, [], Err(NothingToCompact);
    }
    input := TranscriptEvents(window);
    var summary := ProseOnly(answer);
    if summary == [] {
      return log, input, Err(NoText);
    }
    var s := MakeSummary(events, cut, summary);
    if now <= s.end {
      SummarySpan(events, cut, summary);
      return log, input, Err(ClockBehind);
    }
    SummarySpan(events, cut, summary);
    CutIsStart(events, keep, cut);
    return log + [Event(id, invocation, now, "user", None, false, Some(s))], input, Ok(cut);
  }

  lemma SummarySpan(events: seq<Event>, cut: nat, content: seq<Part>)
    requires 0 < cut <= |events|
    ensures SummaryOf(events, cut, content).end == Latest(events[..cut])
  {
  }

  // ---- The cut keeps calls with their results ----

  predicate Calls(ev: Event, id: nat) {
    ev.content.Some? && Call(id) in ev.content.value
  }

  predicate Responds(ev: Event, id: nat) {
    ev.content.Some? && Response(id) in ev.content.value
  }

  // A call whose result comes before the next user prompt is on the same side of the cut as it.
  lemma CutKeepsCallWithResult(events: seq<Event>, keepTurns: int, answer: seq<Part>, now: int, i: nat, j: nat, id: nat)
    requires i < j < |events| && Calls(events[i], id) && Responds(events[j], id)
    requires forall k: nat | i < k < j :: k !in Turns(events, 0)
    ensures var r := Decide(events, keepTurns, answer, now); r.Ok? ==> (i < r.value <==> j < r.value)
  {
    hide Decide;
    DecideMeans(events, keepTurns, answer, now);
    assert j !in Turns(events, 0);
  }

  lemma {:induction false} CutIsTurnStart(events: seq<Event>, keep: nat, i: nat)
    requires i <= |events|
    ensures var c := CutOf(events, keep, i);
            -1 <= c < i && (c >= 0 ==> IsUserTurnStart(events[c]) && TurnStarts(events, c) == keep)
  {
    hide IsUserTurnStart;
    if i > 0 && !(IsUserTurnStart(events[i - 1]) && TurnStarts(events, i - 1) == keep) {
      CutIsTurnStart(events, keep, i - 1);
    }
  }
}
