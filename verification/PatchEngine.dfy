/** Fuzzy block search and hunk application (internal/tools/patch.go). */
module PatchEngine {
  import opened Results
  import opened GoStrings

  // Lines to find and the lines to put in their stead. hint counts lines from 0, a negative one is none; a search
  // begins at the anchor line, if an anchor is given.
  datatype Hunk = Hunk(anchor: string, hint: int, oldSide: seq<string>, newSide: seq<string>)

  datatype HunkError = AnchorNotFound(n: nat) | BlockNotFound(n: nat)

  // The normalizers a block is compared under, strictest first.
  datatype Norm = Exact | NoTrailingBlanks | Trimmed

  const NORMS: seq<Norm> := [Exact, NoTrailingBlanks, Trimmed]

  function Normalize(n: Norm, s: string): string {
    match n
    case Exact => s
    case NoTrailingBlanks => TrimRightBlank(s)
    case Trimmed => TrimSpace(s)
  }

  function Abs(x: int): nat {
    if x < 0 then -x else x
  }

  // ---- Where a block matches ----

  predicate SameLine(lines: seq<string>, block: seq<string>, at: int, n: Norm, j: int)
    requires 0 <= at && 0 <= j < |block| && at + |block| <= |lines|
  {
    Normalize(n, lines[at + j]) == Normalize(n, block[j])
  }

  predicate Matches(lines: seq<string>, block: seq<string>, at: int, n: Norm) {
    && 0 <= at
    && at + |block| <= |lines|
    && forall j | 0 <= j < |block| :: SameLine(lines, block, at, n, j)
  }

  // The line is that text with blanks after it, or with white space around it.
  ghost predicate BlanksAfter(line: string, text: string) {
    exists b :: line == text + b && AllBlank(b)
  }

  ghost predicate SpaceAround(line: string, text: string) {
    exists a, b :: line == a + text + b && AllSpace(a) && AllSpace(b)
  }

  // Two lines are the same under a normalizer: as they stand, up to blanks at their ends, or up to any white space
  // around them.
  ghost predicate AreSame(n: Norm, x: string, y: string) {
    match n
    case Exact => x == y
    case NoTrailingBlanks => exists text :: BlanksAfter(x, text) && BlanksAfter(y, text)
    case Trimmed => exists text :: SpaceAround(x, text) && SpaceAround(y, text)
  }

  lemma BlanksAfterIsTrimmed(line: string, text: string)
    ensures BlanksAfter(line, TrimRightBlank(line))
    ensures BlanksAfter(line, text) ==> TrimRightBlank(line) == TrimRightBlank(text)
  {
    hide TrimRightBlank, AllBlank;
    var c := TrimRightBlankMeans(line);
    if BlanksAfter(line, text) {
      var b :| line == text + b && AllBlank(b);
      TrimRightBlankOff(text, b);
    }
  }

  lemma SpaceAroundIsTrimmed(line: string, text: string)
    ensures SpaceAround(line, TrimSpace(line))
    ensures SpaceAround(line, text) ==> TrimSpace(line) == TrimSpace(text)
  {
    hide TrimSpace, AllSpace;
    var c, d := TrimSpaceMeans(line);
    if SpaceAround(line, text) {
      var a, b :| line == a + text + b && AllSpace(a) && AllSpace(b);
      TrimSpaceOff(a, text, b);
    }
  }

  lemma SameUpToBlanks(x: string, y: string)
    ensures TrimRightBlank(x) == TrimRightBlank(y) <==> exists text :: BlanksAfter(x, text) && BlanksAfter(y, text)
  {
    hide TrimRightBlank, BlanksAfter;
    BlanksAfterIsTrimmed(x, x);
    BlanksAfterIsTrimmed(y, y);
    if text :| BlanksAfter(x, text) && BlanksAfter(y, text) {
      BlanksAfterIsTrimmed(x, text);
      BlanksAfterIsTrimmed(y, text);
    }
  }

  lemma SameUpToSpace(x: string, y: string)
    ensures TrimSpace(x) == TrimSpace(y) <==> exists text :: SpaceAround(x, text) && SpaceAround(y, text)
  {
    hide TrimSpace, SpaceAround;
    SpaceAroundIsTrimmed(x, x);
    SpaceAroundIsTrimmed(y, y);
    if text :| SpaceAround(x, text) && SpaceAround(y, text) {
      SpaceAroundIsTrimmed(x, text);
      SpaceAroundIsTrimmed(y, text);
    }
  }

  lemma SameLineMeans(lines: seq<string>, block: seq<string>, at: nat, n: Norm, j: nat)
    requires j < |block| && at + |block| <= |lines|
    ensures SameLine(lines, block, at, n, j) <==> AreSame(n, lines[at + j], block[j])
  {
    hide TrimSpace, TrimRightBlank, BlanksAfter, SpaceAround;
    SameUpToBlanks(lines[at + j], block[j]);
    SameUpToSpace(lines[at + j], block[j]);
  }

  // A block matches where each of its lines is the same as the line there.
  lemma MatchesMean(lines: seq<string>, block: seq<string>, at: int, n: Norm)
    ensures Matches(lines, block, at, n) <==>
            0 <= at <= |lines| - |block| && forall j | at <= j < at + |block| :: AreSame(n, lines[j], block[j - at])
  {
    hide SameLine, AreSame;
    if 0 <= at <= |lines| - |block| {
      forall j | 0 <= j < |block|
        ensures SameLine(lines, block, at, n, j) <==> AreSame(n, lines[at + j], block[j])
      {
        SameLineMeans(lines, block, at, n, j);
      }
      if Matches(lines, block, at, n) {
        forall j | at <= j < at + |block| ensures AreSame(n, lines[j], block[j - at]) {
          assert SameLine(lines, block, at, n, j - at);
        }
      }
    }
  }

  ghost predicate MatchesAtOrAfter(lines: seq<string>, block: seq<string>, from: int, n: Norm) {
    exists i :: from <= i && Matches(lines, block, i, n)
  }

  // How far a match is from where it is expected; with no expectation, from the top.
  function Distance(i: int, expected: int): nat {
    if expected < 0 then Abs(i) else Abs(i - expected)
  }

  // r is the match nearest to expected, and the lowest of those equally near.
  ghost predicate IsNearest(lines: seq<string>, block: seq<string>, from: nat, expected: int, n: Norm, r: int) {
    && from <= r && Matches(lines, block, r, n)
    && forall i :: from <= i && Matches(lines, block, i, n) ==>
      Distance(r, expected) < Distance(i, expected) || (Distance(r, expected) == Distance(i, expected) && r <= i)
  }

  function Nearest(lines: seq<string>, block: seq<string>, from: nat, expected: int, n: Norm): (r: int)
    decreases |lines| - from
  {
    if from + |block| > |lines| then -1
    else
      var rest := if from < |lines| then Nearest(lines, block, from + 1, expected, n) else -1;
      if Matches(lines, block, from, n) && (rest < 0 || Distance(from, expected) <= Distance(rest, expected)) then from
      else rest
  }

  // A block cannot match past the end.
  lemma NoMatchPastEnd(lines: seq<string>, block: seq<string>, from: nat, n: Norm)
    requires from + |block| > |lines|
    ensures !MatchesAtOrAfter(lines, block, from, n)
  {
  }

  lemma MatchesFromOrLater(lines: seq<string>, block: seq<string>, from: nat, n: Norm)
    ensures MatchesAtOrAfter(lines, block, from, n) <==>
            Matches(lines, block, from, n) || MatchesAtOrAfter(lines, block, from + 1, n)
  {
    hide Matches;
  }

  lemma {:induction false} NearestMeaning(lines: seq<string>, block: seq<string>, from: nat, expected: int, n: Norm)
    ensures var r := Nearest(lines, block, from, expected, n);
            if MatchesAtOrAfter(lines, block, from, n) then IsNearest(lines, block, from, expected, n, r) else r == -1
    decreases |lines| - from
  {
    hide Matches, Distance, IsNearest, MatchesAtOrAfter;
    if from + |block| > |lines| {
      NoMatchPastEnd(lines, block, from, n);
    } else {
      var rest := if from < |lines| then Nearest(lines, block, from + 1, expected, n) else -1;
      if from < |lines| {
        NearestMeaning(lines, block, from + 1, expected, n);
      } else {
        NoMatchPastEnd(lines, block, from + 1, n);
      }
      OneNearer(lines, block, from, expected, n, rest);
    }
  }

  lemma OneNearer(lines: seq<string>, block: seq<string>, from: nat, expected: int, n: Norm, rest: int)
    requires if MatchesAtOrAfter(lines, block, from + 1, n) then IsNearest(lines, block, from + 1, expected, n, rest)
             else rest == -1
    ensures var near := rest < 0 || Distance(from, expected) <= Distance(rest, expected);
            var here := Matches(lines, block, from, n) && near;
            var r := if here then from else rest;
            if MatchesAtOrAfter(lines, block, from, n) then IsNearest(lines, block, from, expected, n, r) else r == -1
  {
    hide Matches, Distance;
    MatchesFromOrLater(lines, block, from, n);
  }

  lemma NearestIsUnique(lines: seq<string>, block: seq<string>, from: nat, expected: int, n: Norm, r: int)
    requires IsNearest(lines, block, from, expected, n, r)
    ensures r == Nearest(lines, block, from, expected, n)
  {
    assert MatchesAtOrAfter(lines, block, from, n);
    NearestMeaning(lines, block, from, expected, n);
  }

  function FindBlock(lines: seq<string>, block: seq<string>, from: nat, expected: int): int
    decreases from
  {
    var exact := Nearest(lines, block, from, expected, Exact);
    if exact >= 0 then exact
    else
      var loose := Nearest(lines, block, from, expected, NoTrailingBlanks);
      if loose >= 0 then loose
      else
        var trimmed := Nearest(lines, block, from, expected, Trimmed);
        if trimmed >= 0 then trimmed
        else if from > 0 then FindBlock(lines, block, 0, expected)
        else -1
  }

  lemma LooserNormsMatchMore(lines: seq<string>, block: seq<string>, at: int)
    ensures Matches(lines, block, at, Exact) ==> Matches(lines, block, at, NoTrailingBlanks)
    ensures Matches(lines, block, at, NoTrailingBlanks) ==> Matches(lines, block, at, Trimmed)
  {
    if 0 <= at && at + |block| <= |lines| {
      forall j | 0 <= j < |block|
        ensures SameLine(lines, block, at, Exact, j) ==> SameLine(lines, block, at, NoTrailingBlanks, j)
        ensures SameLine(lines, block, at, NoTrailingBlanks, j) ==> SameLine(lines, block, at, Trimmed, j)
      {
        TrimSpaceOfTrimRight(lines[at + j]);
        TrimSpaceOfTrimRight(block[j]);
      }
    }
  }

  // The strictest normalizer under which the block matches somewhere at or after from.
  ghost predicate IsStrictest(lines: seq<string>, block: seq<string>, from: nat, n: Norm) {
    && MatchesAtOrAfter(lines, block, from, n)
    && (n != Exact ==> !MatchesAtOrAfter(lines, block, from, Exact))
    && (n == Trimmed ==> !MatchesAtOrAfter(lines, block, from, NoTrailingBlanks))
  }

  // What findBlock promises: the nearest match under the strictest normalizer that
  // matches at or after from; earlier lines only when nothing matches there; and -1
  // exactly when no trimmed match exists anywhere.
  lemma FindBlockMeaning(lines: seq<string>, block: seq<string>, from: nat, expected: int)
    ensures var r := FindBlock(lines, block, from, expected);
            && (r == -1 <==> !MatchesAtOrAfter(lines, block, 0, Trimmed))
            && (r != -1 ==>
              var start := if MatchesAtOrAfter(lines, block, from, Trimmed) then from else 0;
              exists n :: IsStrictest(lines, block, start, n) && IsNearest(lines, block, start, expected, n, r))
    decreases from
  {
    forall at ensures Matches(lines, block, at, Exact) ==> Matches(lines, block, at, NoTrailingBlanks)
              ensures Matches(lines, block, at, NoTrailingBlanks) ==> Matches(lines, block, at, Trimmed)
    {
      LooserNormsMatchMore(lines, block, at);
    }
    NearestMeaning(lines, block, from, expected, Exact);
    NearestMeaning(lines, block, from, expected, NoTrailingBlanks);
    NearestMeaning(lines, block, from, expected, Trimmed);
    if MatchesAtOrAfter(lines, block, from, Trimmed) {
      if MatchesAtOrAfter(lines, block, from, Exact) {
        assert IsStrictest(lines, block, from, Exact);
      } else if MatchesAtOrAfter(lines, block, from, NoTrailingBlanks) {
        assert IsStrictest(lines, block, from, NoTrailingBlanks);
      } else {
        assert IsStrictest(lines, block, from, Trimmed);
      }
    } else if from > 0 {
      FindBlockMeaning(lines, block, 0, expected);
    }
  }

  method MatchAt(lines: seq<string>, block: seq<string>, at: nat, n: Norm) returns (ok: bool)
    requires at + |block| <= |lines|
    ensures ok == Matches(lines, block, at, n)
  {
    for j := 0 to |block|
      invariant forall k | 0 <= k < j :: SameLine(lines, block, at, n, k)
    {
      if Normalize(n, lines[at + j]) != Normalize(n, block[j]) {
        assert !SameLine(lines, block, at, n, j);
        return false;
      }
    }
    return true;
  }

  // The search under one normalizer.
  method SearchNearest(lines: seq<string>, block: seq<string>, from: nat, expected: int, norm: Norm) returns (best: int)
    ensures best == Nearest(lines, block, from, expected, norm)
  {
    hide Matches, Nearest;
    best := -1;
    var i := from;
    while i + |block| <= |lines|
      invariant from <= i
      invariant best == -1 ==> forall a | from <= a < i :: !Matches(lines, block, a, norm)
      invariant best != -1 ==> expected >= 0 && from <= best < i && Matches(lines, block, best, norm)
      invariant best != -1 ==> forall a | from <= a < i && Matches(lines, block, a, norm) ::
        Distance(best, expected) < Distance(a, expected) ||
        (Distance(best, expected) == Distance(a, expected) && best <= a)
      decreases |lines| - i
    {
      var here := MatchAt(lines, block, i, norm);
      if here {
        if expected < 0 {
          NearestIsUnique(lines, block, from, expected, norm, i);
          return i;
        }
        if best < 0 || Abs(i - expected) < Abs(best - expected) {
          best := i;
        }
      }
      i := i + 1;
    }
    forall a | i <= a ensures !Matches(lines, block, a, norm) {
      MatchesInRange(lines, block, a, norm);
    }
    if best >= 0 {
      NearestIsUnique(lines, block, from, expected, norm, best);
    } else {
      NearestMeaning(lines, block, from, expected, norm);
    }
  }

  lemma MatchesInRange(lines: seq<string>, block: seq<string>, at: int, n: Norm)
    ensures Matches(lines, block, at, n) ==> 0 <= at && at + |block| <= |lines|
  {
  }

  method SearchBlock(lines: seq<string>, block: seq<string>, from: nat, expected: int) returns (r: int)
    ensures r == FindBlock(lines, block, from, expected)
    decreases from
  {
    hide Nearest;
    for k := 0 to |NORMS|
      invariant forall m | 0 <= m < k :: Nearest(lines, block, from, expected, NORMS[m]) < 0
    {
      var best := SearchNearest(lines, block, from, expected, NORMS[k]);
      if best >= 0 {
        assert k > 0 ==> Nearest(lines, block, from, expected, NORMS[0]) < 0;
        assert k > 1 ==> Nearest(lines, block, from, expected, NORMS[1]) < 0;
        return best;
      }
    }
    assert Nearest(lines, block, from, expected, NORMS[0]) < 0;
    assert Nearest(lines, block, from, expected, NORMS[1]) < 0;
    assert Nearest(lines, block, from, expected, NORMS[2]) < 0;
    // The lines before `from` have not been searched yet.
    if from > 0 {
      r := SearchBlock(lines, block, 0, expected);
    } else {
      r := -1;
    }
  }

  // ---- Anchors ----

  function FirstEqual(lines: seq<string>, t: string, from: nat): (r: int)
    ensures -1 <= r < |lines|
    decreases |lines| - from
  {
    if from >= |lines| then -1
    else if TrimSpace(lines[from]) == t then from
    else FirstEqual(lines, t, from + 1)
  }

  function FirstContaining(lines: seq<string>, t: string, from: nat): (r: int)
    ensures -1 <= r < |lines|
    decreases |lines| - from
  {
    if from >= |lines| then -1
    else if Contains(lines[from], t) then from
    else FirstContaining(lines, t, from + 1)
  }

  function FindLine(lines: seq<string>, target: string, from: nat): (r: int)
    ensures -1 <= r < |lines|
  {
    var t := TrimSpace(target);
    var equal := FirstEqual(lines, t, from);
    if equal >= 0 then equal else FirstContaining(lines, t, from)
  }

  method SearchLine(lines: seq<string>, target: string, from: nat) returns (r: int)
    ensures r == FindLine(lines, target, from)
  {
    var t := TrimSpace(target);
    var i := from;
    while i < |lines|
      invariant from <= i
      invariant FirstEqual(lines, t, from) == FirstEqual(lines, t, i)
    {
      if TrimSpace(lines[i]) == t {
        return i;
      }
      i := i + 1;
    }
    i := from;
    while i < |lines|
      invariant from <= i
      invariant FirstContaining(lines, t, from) == FirstContaining(lines, t, i)
    {
      if Contains(lines[i], t) {
        return i;
      }
      i := i + 1;
    }
    return -1;
  }

  // ---- Applying hunks to lines ----

  function Max(a: int, b: int): int { if a < b then b else a }
  function Min(a: int, b: int): int { if a < b then a else b }

  // Where a hunk goes in the lines as they are after the hunks before it.
  function Place(lines: seq<string>, h: Hunk, n: nat, pos: nat, delta: int): (r: Result<nat, HunkError>)
    ensures r.Ok? ==> r.value + |h.oldSide| <= |lines|
  {
    var idx := if h.anchor == "" then pos else FindLine(lines, h.anchor, pos);
    if idx < 0 then Err(AnchorNotFound(n))
    else if h.oldSide == [] then
      if h.hint >= 0 then Ok(Min(Max(h.hint + delta, 0), |lines|))
      else if h.anchor != "" then Ok(idx + 1)
      else Ok(|lines|)
    else
      var expected := if h.hint >= 0 then h.hint + delta else -1;
      var at := FindBlock(lines, h.oldSide, idx, expected);
      FindBlockInRange(lines, h.oldSide, idx, expected);
      if at < 0 then Err(BlockNotFound(n)) else Ok(at)
  }

  lemma FindBlockInRange(lines: seq<string>, block: seq<string>, from: nat, expected: int)
    ensures var r := FindBlock(lines, block, from, expected); r >= 0 ==> r + |block| <= |lines|
  {
    FindBlockMeaning(lines, block, from, expected);
  }

  function Splice(lines: seq<string>, at: nat, h: Hunk): (r: seq<string>)
    requires at + |h.oldSide| <= |lines|
  {
    lines[..at] + h.newSide + lines[at + |h.oldSide|..]
  }

  function ApplyLines(lines: seq<string>, hunks: seq<Hunk>, n: nat, pos: nat, delta: int): Result<seq<string>,
                      HunkError>
    decreases |hunks| - n
  {
    if n >= |hunks| then Ok(lines)
    else
      var h := hunks[n];
      match Place(lines, h, n + 1, pos, delta)
      case Err(e) => Err(e)
      case Ok(at) =>
        ApplyLines(Splice(lines, at, h), hunks, n + 1, at + |h.newSide|, delta + |h.newSide| - |h.oldSide|)
  }

  function Growth(hunks: seq<Hunk>, n: nat): int
    decreases |hunks| - n
  {
    if n >= |hunks| then 0 else |hunks[n].newSide| - |hunks[n].oldSide| + Growth(hunks, n + 1)
  }

  // Wherever the hunks land, the line count changes by what they add less what they remove.
  lemma {:induction false} ApplyChangesLineCount(lines: seq<string>, hunks: seq<Hunk>, n: nat, pos: nat, delta: int)
    ensures var r := ApplyLines(lines, hunks, n, pos, delta);
            r.Ok? ==> |r.value| == |lines| + Growth(hunks, n)
    decreases |hunks| - n
  {
    hide Place;
    if n < |hunks| {
      var h := hunks[n];
      var place := Place(lines, h, n + 1, pos, delta);
      if place.Ok? {
        ApplyChangesLineCount(Splice(lines, place.value, h), hunks, n + 1, place.value + |h.newSide|,
                              delta + |h.newSide| - |h.oldSide|);
      }
    }
  }

  // ---- Where hunks land, and when they do not ----

  // The line an anchor names: the first from there on that equals it, both trimmed; if none does, the first that
  // contains it.
  ghost predicate IsAnchor(lines: seq<string>, anchor: string, from: nat, a: nat) {
    var t := TrimSpace(anchor);
    && from <= a < |lines|
    && if exists i | from <= i < |lines| :: TrimSpace(lines[i]) == t
       then TrimSpace(lines[a]) == t && forall i | from <= i < a :: TrimSpace(lines[i]) != t
       else Contains(lines[a], t) && forall i | from <= i < a :: !Contains(lines[i], t)
  }

  ghost predicate NoAnchor(lines: seq<string>, anchor: string, from: nat) {
    var t := TrimSpace(anchor);
    forall i | from <= i < |lines| :: TrimSpace(lines[i]) != t && !Contains(lines[i], t)
  }

  lemma {:induction false} FirstEqualMeaning(lines: seq<string>, t: string, from: nat)
    ensures var r := FirstEqual(lines, t, from);
      if r < 0 then forall i | from <= i < |lines| :: TrimSpace(lines[i]) != t
      else from <= r < |lines| && TrimSpace(lines[r]) == t && forall i | from <= i < r :: TrimSpace(lines[i]) != t
    decreases |lines| - from
  {
    hide TrimSpace;
    if from < |lines| {
      FirstEqualMeaning(lines, t, from + 1);
    }
  }

  lemma {:induction false} FirstContainingMeaning(lines: seq<string>, t: string, from: nat)
    ensures var r := FirstContaining(lines, t, from);
      if r < 0 then forall i | from <= i < |lines| :: !Contains(lines[i], t)
      else from <= r < |lines| && Contains(lines[r], t) && forall i | from <= i < r :: !Contains(lines[i], t)
    decreases |lines| - from
  {
    hide Contains;
    if from < |lines| {
      FirstContainingMeaning(lines, t, from + 1);
    }
  }

  lemma FindLineMeaning(lines: seq<string>, anchor: string, from: nat)
    ensures var r := FindLine(lines, anchor, from);
      if r < 0 then NoAnchor(lines, anchor, from) else IsAnchor(lines, anchor, from, r)
  {
    hide TrimSpace, Contains, FirstEqual, FirstContaining;
    FirstEqualMeaning(lines, TrimSpace(anchor), from);
    FirstContainingMeaning(lines, TrimSpace(anchor), from);
  }

  // Where the search for a hunk's lines starts: at its anchor, or where the hunk before it ended.
  ghost predicate SearchesFrom(lines: seq<string>, h: Hunk, pos: nat, s: nat) {
    if h.anchor == "" then s == pos else IsAnchor(lines, h.anchor, pos, s)
  }

  // The match nearest to expected under the strictest normalizer that matches from there on, or, when none does, in
  // all the lines.
  ghost predicate IsBlockAt(lines: seq<string>, block: seq<string>, from: nat, expected: int, at: nat) {
    var start := if MatchesAtOrAfter(lines, block, from, Trimmed) then from else 0;
    exists n :: IsStrictest(lines, block, start, n) && IsNearest(lines, block, start, expected, n, at)
  }

  // The hunk's lines are replaced at its match. A hunk without lines to replace goes where its hint says, moved by
  // what the hunks before it added; without a hint, below its anchor; without that too, at the end.
  ghost predicate LandsAt(lines: seq<string>, h: Hunk, s: nat, delta: int, at: nat) {
    && at + |h.oldSide| <= |lines|
    && (h.oldSide != [] ==> IsBlockAt(lines, h.oldSide, s, if h.hint >= 0 then h.hint + delta else -1, at))
    && (h.oldSide == [] && h.hint >= 0 ==>
          if h.hint + delta < 0 then at == 0
          else if h.hint + delta > |lines| then at == |lines| else at == h.hint + delta)
    && (h.oldSide == [] && h.hint < 0 && h.anchor != "" ==> at == s + 1)
    && (h.oldSide == [] && h.hint < 0 && h.anchor == "" ==> at == |lines|)
  }

  // The lines become out by replacing each hunk's old side, where it lands, by its new side, one hunk after another.
  ghost predicate Becomes(lines: seq<string>, hunks: seq<Hunk>, n: nat, pos: nat, delta: int, out: seq<string>)
    decreases |hunks| - n
  {
    if n >= |hunks| then out == lines
    else
      var h := hunks[n];
      exists s: nat, at: nat | SearchesFrom(lines, h, pos, s) && LandsAt(lines, h, s, delta, at) ::
        Becomes(lines[..at] + h.newSide + lines[at + |h.oldSide|..], hunks, n + 1,
                at + |h.newSide|, delta + |h.newSide| - |h.oldSide|, out)
  }

  // Hunk n has no place: its anchor is nowhere from pos on, or its lines are nowhere at all.
  ghost predicate Homeless(lines: seq<string>, h: Hunk, n: nat, pos: nat, e: HunkError) {
    || (h.anchor != "" && NoAnchor(lines, h.anchor, pos) && e == AnchorNotFound(n))
    || (h.oldSide != [] && (exists s: nat :: SearchesFrom(lines, h, pos, s))
        && !MatchesAtOrAfter(lines, h.oldSide, 0, Trimmed) && e == BlockNotFound(n))
  }

  // After the hunks before it have landed, one has no place.
  ghost predicate Fails(lines: seq<string>, hunks: seq<Hunk>, n: nat, pos: nat, delta: int, e: HunkError)
    decreases |hunks| - n
  {
    && n < |hunks|
    && var h := hunks[n];
       || Homeless(lines, h, n + 1, pos, e)
       || exists s: nat, at: nat | SearchesFrom(lines, h, pos, s) && LandsAt(lines, h, s, delta, at) ::
            Fails(lines[..at] + h.newSide + lines[at + |h.oldSide|..], hunks, n + 1,
                  at + |h.newSide|, delta + |h.newSide| - |h.oldSide|, e)
  }

  lemma PlaceMeans(lines: seq<string>, h: Hunk, n: nat, pos: nat, delta: int) returns (s: nat)
    ensures match Place(lines, h, n, pos, delta)
      case Ok(at) => SearchesFrom(lines, h, pos, s) && LandsAt(lines, h, s, delta, at)
      case Err(e) => Homeless(lines, h, n, pos, e)
  {
    hide FindLine, FindBlock, IsAnchor, NoAnchor, IsBlockAt, MatchesAtOrAfter;
    FindLineMeaning(lines, h.anchor, pos);
    var idx := if h.anchor == "" then pos else FindLine(lines, h.anchor, pos);
    s := if idx < 0 then 0 else idx;
    if idx >= 0 {
      assert SearchesFrom(lines, h, pos, s);
      if h.anchor != "" {
        AnchorBelow(lines, h, pos, s);
      }
      FindBlockPlaces(lines, h.oldSide, s, if h.hint >= 0 then h.hint + delta else -1);
    }
  }

  lemma AnchorBelow(lines: seq<string>, h: Hunk, pos: nat, s: nat)
    requires SearchesFrom(lines, h, pos, s) && h.anchor != ""
    ensures s < |lines|
  {
  }

  lemma FindBlockPlaces(lines: seq<string>, block: seq<string>, from: nat, expected: int)
    ensures var r := FindBlock(lines, block, from, expected);
      if r < 0 then !MatchesAtOrAfter(lines, block, 0, Trimmed)
      else r + |block| <= |lines| && IsBlockAt(lines, block, from, expected, r)
  {
    hide FindBlock, MatchesAtOrAfter, IsStrictest, Distance;
    FindBlockMeaning(lines, block, from, expected);
    FindBlockInRange(lines, block, from, expected);
  }

  // What applying hunks does, and why it does not: anchors, hints, blocks and insertions, each taken by its meaning.
  lemma {:induction false} ApplyMeans(lines: seq<string>, hunks: seq<Hunk>, n: nat, pos: nat, delta: int)
    ensures match ApplyLines(lines, hunks, n, pos, delta)
      case Ok(out) => Becomes(lines, hunks, n, pos, delta, out)
      case Err(e) => Fails(lines, hunks, n, pos, delta, e)
    decreases |hunks| - n
  {
    hide Place, SearchesFrom, LandsAt, Homeless;
    if n < |hunks| {
      var h := hunks[n];
      var s := PlaceMeans(lines, h, n + 1, pos, delta);
      var place := Place(lines, h, n + 1, pos, delta);
      if place.Ok? {
        var at := place.value;
        assert Splice(lines, at, h) == lines[..at] + h.newSide + lines[at + |h.oldSide|..];
        ApplyMeans(Splice(lines, at, h), hunks, n + 1, at + |h.newSide|, delta + |h.newSide| - |h.oldSide|);
      }
    }
  }

  // One hunk with an anchor found at a, or with none and no hint.
  lemma OneHunkWithoutHint(lines: seq<string>, h: Hunk, a: nat)
    requires h.hint < 0 && if h.anchor == "" then a == 0 else IsAnchor(lines, h.anchor, 0, a)
    ensures var r := ApplyLines(lines, [h], 0, 0, 0);
      && (h.oldSide == [] && h.anchor != "" ==> r == Ok(lines[..a + 1] + h.newSide + lines[a + 1..]))
      && (h.oldSide == [] && h.anchor == "" ==> r == Ok(lines + h.newSide))
      && (h.oldSide != [] && MatchesAtOrAfter(lines, h.oldSide, a, Trimmed) ==>
            exists at: nat, m | IsStrictest(lines, h.oldSide, a, m) && a <= at && Matches(lines, h.oldSide, at, m) ::
              && (forall i | a <= i < at :: !Matches(lines, h.oldSide, i, m)) && at + |h.oldSide| <= |lines|
              && r == Ok(lines[..at] + h.newSide + lines[at + |h.oldSide|..]))
  {
    hide Place, IsStrictest, MatchesAtOrAfter, Matches, IsAnchor;
    var s := PlaceMeans(lines, h, 1, 0, 0);
    var place := Place(lines, h, 1, 0, 0);
    if h.anchor != "" {
      AnchorIsOne(lines, h.anchor, 0, a);
      if place.Ok? {
        SameAnchor(lines, h.anchor, 0, a, s);
      }
    }
    if place.Ok? {
      var at := place.value;
      LastHunk(Splice(lines, at, h), h, at + |h.newSide|, |h.newSide| - |h.oldSide|);
      if h.oldSide == [] && h.anchor == "" {
        assert lines[..at] == lines && lines[at..] == [];
        assert lines + h.newSide + [] == lines + h.newSide;
      }
      if h.oldSide != [] && MatchesAtOrAfter(lines, h.oldSide, a, Trimmed) {
        var m :| IsStrictest(lines, h.oldSide, a, m) && IsNearest(lines, h.oldSide, a, -1, m, at);
        NearestIsFirst(lines, h.oldSide, a, m, at);
      }
    } else if h.oldSide != [] {
      EarlierMatches(lines, h.oldSide, a);
    }
  }

  lemma LastHunk(lines: seq<string>, h: Hunk, pos: nat, delta: int)
    ensures ApplyLines(lines, [h], 1, pos, delta) == Ok(lines)
  {
  }

  lemma EarlierMatches(lines: seq<string>, block: seq<string>, from: nat)
    ensures MatchesAtOrAfter(lines, block, from, Trimmed) ==> MatchesAtOrAfter(lines, block, 0, Trimmed)
  {
    hide Matches;
  }

  lemma NearestIsFirst(lines: seq<string>, block: seq<string>, from: nat, n: Norm, at: nat)
    requires IsNearest(lines, block, from, -1, n, at)
    ensures from <= at && Matches(lines, block, at, n) && forall i | from <= i < at :: !Matches(lines, block, i, n)
  {
    hide Matches;
  }

  lemma AnchorIsOne(lines: seq<string>, anchor: string, from: nat, a: nat)
    requires IsAnchor(lines, anchor, from, a)
    ensures !NoAnchor(lines, anchor, from)
  {
    hide TrimSpace, Contains;
  }

  lemma SameAnchor(lines: seq<string>, anchor: string, from: nat, a: nat, b: nat)
    requires IsAnchor(lines, anchor, from, a) && IsAnchor(lines, anchor, from, b)
    ensures a == b
  {
    hide TrimSpace, Contains;
  }

  // ---- Strict line-number patching, and its inverse ----

  // The hunks name their lines exactly: in order, not overlapping, each old side where its hint says.
  ghost predicate InOrder(lines: seq<string>, hunks: seq<Hunk>, from: nat) {
    hunks == [] ||
    var h := hunks[0];
    && h.anchor == ""
    && from <= h.hint
    && h.hint + |h.oldSide| <= |lines|
    && lines[h.hint..h.hint + |h.oldSide|] == h.oldSide
    && InOrder(lines, hunks[1..], h.hint + |h.oldSide|)
  }

  // Patching by line numbers alone, with no search.
  ghost function Strict(lines: seq<string>, hunks: seq<Hunk>, from: nat): seq<string>
    requires from <= |lines| && InOrder(lines, hunks, from)
    decreases |hunks|
  {
    if hunks == [] then lines[from..]
    else
      var h := hunks[0];
      lines[from..h.hint] + h.newSide + Strict(lines, hunks[1..], h.hint + |h.oldSide|)
  }

  // The reverse patch: sides exchanged, and hints moved to where the hunks ended up.
  ghost function Swapped(hunks: seq<Hunk>, delta: int): (r: seq<Hunk>)
    ensures |r| == |hunks|
  {
    if hunks == [] then []
    else
      var h := hunks[0];
      [Hunk("", h.hint + delta, h.newSide, h.oldSide)] + Swapped(hunks[1..], delta + |h.newSide| - |h.oldSide|)
  }

  // A block that occurs where it is expected is the nearest match.
  lemma ExactIsNearest(lines: seq<string>, block: seq<string>, from: nat, at: nat)
    requires from <= at && at + |block| <= |lines| && lines[at..at + |block|] == block
    ensures Nearest(lines, block, from, at, Exact) == at
  {
    forall j | 0 <= j < |block| ensures SameLine(lines, block, at, Exact, j) {
      assert lines[at..at + |block|][j] == lines[at + j];
    }
    assert Matches(lines, block, at, Exact);
    hide Nearest, Matches;
    NearestMeaning(lines, block, from, at, Exact);
  }

  lemma PlaceOfExact(lines: seq<string>, h: Hunk, n: nat, pos: nat, delta: int)
    requires h.anchor == "" && 0 <= h.hint && pos <= h.hint + delta && h.hint + delta + |h.oldSide| <= |lines|
    requires lines[h.hint + delta..h.hint + delta + |h.oldSide|] == h.oldSide
    ensures Place(lines, h, n, pos, delta) == Ok(h.hint + delta)
  {
    hide Nearest;
    if h.oldSide != [] {
      ExactIsNearest(lines, h.oldSide, pos, h.hint + delta);
    }
  }

  // An exact splice extends the part already patched by one hunk.
  lemma SpliceExact(lines: seq<string>, h: Hunk, from: nat, done: seq<string>)
    requires from <= h.hint && h.hint + |h.oldSide| <= |lines|
    ensures var cur := done + lines[from..];
            var at := h.hint + |done| - from;
            && at + |h.oldSide| <= |cur|
            && cur[at..at + |h.oldSide|] == lines[h.hint..h.hint + |h.oldSide|]
            && Splice(cur, at, h) == done + lines[from..h.hint] + h.newSide + lines[h.hint + |h.oldSide|..]
  {
  }

  lemma ApplyStep(lines: seq<string>, hunks: seq<Hunk>, n: nat, pos: nat, delta: int)
    requires n < |hunks|
    ensures var h := hunks[n];
            var place := Place(lines, h, n + 1, pos, delta);
            place.Ok? ==>
              ApplyLines(lines, hunks, n, pos, delta) ==
              ApplyLines(Splice(lines, place.value, h), hunks, n + 1, place.value + |h.newSide|,
                         delta + |h.newSide| - |h.oldSide|)
  {
    hide Place, Splice;
  }

  lemma ApplyNothing(lines: seq<string>, hunks: seq<Hunk>, from: nat, done: seq<string>)
    requires from <= |lines|
    ensures ApplyLines(done + lines[from..], hunks, |hunks|, |done|, |done| - from) ==
              Ok(done + Strict(lines, [], from))
  {
  }

  lemma {:induction false} ApplyIsStrictFrom(lines: seq<string>, hunks: seq<Hunk>, n: nat, from: nat, done: seq<string>)
    requires n <= |hunks| && from <= |lines| && InOrder(lines, hunks[n..], from)
    ensures ApplyLines(done + lines[from..], hunks, n, |done|, |done| - from) ==
              Ok(done + Strict(lines, hunks[n..], from))
    decreases |hunks| - n
  {
    hide Place, Splice;
    hide ApplyLines, InOrder, Strict;
    if n == |hunks| {
      assert hunks[n..] == [];
      ApplyNothing(lines, hunks, from, done);
    } else {
      StrictUncons(lines, hunks[n..], from);
      ExactAnchor(lines, hunks[n..], from);
      var h := hunks[n];
      assert hunks[n..][0] == h && hunks[n..][1..] == hunks[n + 1..];
      var cur := done + lines[from..];
      SpliceExact(lines, h, from, done);
      PlaceOfExact(cur, h, n + 1, |done|, |done| - from);
      var done' := done + lines[from..h.hint] + h.newSide;
      var from' := h.hint + |h.oldSide|;
      ApplyStep(cur, hunks, n, |done|, |done| - from);
      assert Splice(cur, h.hint + |done| - from, h) == done' + lines[from'..];
      ApplyIsStrictFrom(lines, hunks, n + 1, from', done');
      assert done' + Strict(lines, hunks[n + 1..], from') == done + Strict(lines, hunks[n..], from);
    }
  }

  // When every old side occurs where its hint says, the fuzzy search changes nothing:
  // applying the hunks is strict line-number patching.
  lemma ApplyIsStrict(lines: seq<string>, hunks: seq<Hunk>)
    requires InOrder(lines, hunks, 0)
    ensures ApplyLines(lines, hunks, 0, 0, 0) == Ok(Strict(lines, hunks, 0))
  {
    hide ApplyLines, InOrder, Strict;
    assert hunks[0..] == hunks;
    ApplyIsStrictFrom(lines, hunks, 0, 0, []);
    assert [] + lines[0..] == lines;
    assert [] + Strict(lines, hunks, 0) == Strict(lines, hunks, 0);
  }

  // One hunk in the result: its new side, after the untouched lines before it.
  lemma SwapOne(lines: seq<string>, h: Hunk, from: nat, done: seq<string>, tail: seq<string>)
    requires from <= h.hint && h.hint + |h.oldSide| <= |lines|
    requires lines[h.hint..h.hint + |h.oldSide|] == h.oldSide
    ensures var res := done + lines[from..h.hint] + h.newSide + tail;
            var at := h.hint + |done| - from;
            && at + |h.newSide| <= |res|
            && res[at..at + |h.newSide|] == h.newSide
            && res[|done|..at] == lines[from..h.hint]
            && lines[from..h.hint] + h.oldSide + lines[h.hint + |h.oldSide|..] == lines[from..]
  {
  }

  lemma StrictUncons(lines: seq<string>, hunks: seq<Hunk>, from: nat)
    requires hunks != [] && from <= |lines| && InOrder(lines, hunks, from)
    ensures var h := hunks[0];
            && from <= h.hint && h.hint + |h.oldSide| <= |lines|
            && lines[h.hint..h.hint + |h.oldSide|] == h.oldSide
            && InOrder(lines, hunks[1..], h.hint + |h.oldSide|)
            && Strict(lines, hunks, from) ==
                 lines[from..h.hint] + h.newSide + Strict(lines, hunks[1..], h.hint + |h.oldSide|)
  {
  }

  lemma ExactAnchor(lines: seq<string>, hunks: seq<Hunk>, from: nat)
    requires hunks != [] && InOrder(lines, hunks, from)
    ensures hunks[0].anchor == ""
  {
  }

  lemma StrictUnfolds(lines: seq<string>, hunks: seq<Hunk>, from: nat)
    requires hunks != [] && hunks[0].anchor == "" && from <= hunks[0].hint
    requires hunks[0].hint + |hunks[0].oldSide| <= |lines|
    requires lines[hunks[0].hint..hunks[0].hint + |hunks[0].oldSide|] == hunks[0].oldSide
    requires InOrder(lines, hunks[1..], hunks[0].hint + |hunks[0].oldSide|)
    ensures InOrder(lines, hunks, from)
    ensures Strict(lines, hunks, from) ==
              lines[from..hunks[0].hint] + hunks[0].newSide
              + Strict(lines, hunks[1..], hunks[0].hint + |hunks[0].oldSide|)
  {
  }

  lemma StrictCons(lines: seq<string>, h: Hunk, rest: seq<Hunk>, from: nat)
    requires h.anchor == "" && from <= h.hint && h.hint + |h.oldSide| <= |lines|
    requires lines[h.hint..h.hint + |h.oldSide|] == h.oldSide
    requires InOrder(lines, rest, h.hint + |h.oldSide|)
    ensures InOrder(lines, [h] + rest, from)
    ensures Strict(lines, [h] + rest, from) ==
              lines[from..h.hint] + h.newSide + Strict(lines, rest, h.hint + |h.oldSide|)
  {
    hide InOrder, Strict;
    var hunks := [h] + rest;
    assert hunks[0] == h && hunks[1..] == rest;
    StrictUnfolds(lines, hunks, from);
  }

  // Undoing one hunk, given that the hunks after it are undone.
  lemma SwapStep(lines: seq<string>, h: Hunk, from: nat, done: seq<string>, tail: seq<string>, rest: seq<Hunk>)
    requires from <= h.hint && h.hint + |h.oldSide| <= |lines|
    requires lines[h.hint..h.hint + |h.oldSide|] == h.oldSide
    requires var done' := done + lines[from..h.hint] + h.newSide;
             InOrder(done' + tail, rest, |done'|) &&
             Strict(done' + tail, rest, |done'|) == lines[h.hint + |h.oldSide|..]
    ensures var res := done + lines[from..h.hint] + h.newSide + tail;
            var back := [Hunk("", h.hint + |done| - from, h.newSide, h.oldSide)] + rest;
            InOrder(res, back, |done|) && Strict(res, back, |done|) == lines[from..]
  {
    hide InOrder, Strict;
    var res := done + lines[from..h.hint] + h.newSide + tail;
    SwapOne(lines, h, from, done, tail);
    StrictCons(res, Hunk("", h.hint + |done| - from, h.newSide, h.oldSide), rest, |done|);
  }

  lemma SwapNothing(lines: seq<string>, from: nat, done: seq<string>)
    requires from <= |lines|
    ensures var res := done + Strict(lines, [], from);
            InOrder(res, [], |done|) && Strict(res, [], |done|) == lines[from..]
  {
  }

  lemma {:induction false} SwapUndoesFrom(lines: seq<string>, hunks: seq<Hunk>, from: nat, done: seq<string>)
    requires from <= |lines| && InOrder(lines, hunks, from)
    ensures var res := done + Strict(lines, hunks, from);
            var back := Swapped(hunks, |done| - from);
            InOrder(res, back, |done|) && Strict(res, back, |done|) == lines[from..]
    decreases |hunks|
  {
    hide InOrder, Strict;
    if hunks == [] {
      SwapNothing(lines, from, done);
    } else {
      StrictUncons(lines, hunks, from);
      var h := hunks[0];
      var from' := h.hint + |h.oldSide|;
      var done' := done + lines[from..h.hint] + h.newSide;
      var tail := Strict(lines, hunks[1..], from');
      SwapUndoesFrom(lines, hunks[1..], from', done');
      assert |done'| - from' == |done| - from + |h.newSide| - |h.oldSide|;
      SwapStep(lines, h, from, done, tail, Swapped(hunks[1..], |done'| - from'));
      assert done + (lines[from..h.hint] + h.newSide + tail) == done' + tail;
    }
  }

  // Patching and then applying the reverse patch gives the lines back, and the reverse
  // patch is itself in order, so it too is applied exactly.
  lemma SwapUndoes(lines: seq<string>, hunks: seq<Hunk>)
    requires InOrder(lines, hunks, 0)
    ensures var res := Strict(lines, hunks, 0);
            && ApplyLines(lines, hunks, 0, 0, 0) == Ok(res)
            && InOrder(res, Swapped(hunks, 0), 0)
            && ApplyLines(res, Swapped(hunks, 0), 0, 0, 0) == Ok(lines)
  {
    hide ApplyLines, InOrder, Strict, Swapped;
    var res := Strict(lines, hunks, 0);
    ApplyIsStrict(lines, hunks);
    SwapUndoesFrom(lines, hunks, 0, []);
    assert [] + res == res && lines[0..] == lines;
    ApplyIsStrict(res, Swapped(hunks, 0));
  }

  // ---- Text ----

  function SplitLines(s: string): (r: seq<string>)
    ensures NoNewlines(r)
  {
    if s == "" then [] else Split(TrimSuffix(s, "\n"))
  }

  function JoinLines(lines: seq<string>, trailingNewline: bool): string {
    Join(lines) + (if trailingNewline && |lines| > 0 then "\n" else "")
  }

  lemma JoinUndoesSplit(s: string)
    ensures JoinLines(SplitLines(s), HasSuffix(s, "\n")) == s
  {
    if s != "" {
      JoinOfSplit(TrimSuffix(s, "\n"));
    }
  }

  // Splitting undoes joining unless the last line is empty and nothing ends it.
  lemma SplitUndoesJoin(lines: seq<string>, trailingNewline: bool)
    requires NoNewlines(lines)
    ensures SplitLines(JoinLines(lines, trailingNewline)) == lines <==>
            lines == [] || trailingNewline || lines[|lines| - 1] != ""
  {
    if lines != [] {
      var s := JoinLines(lines, trailingNewline);
      SplitOfJoin(lines);
      SplitLast(Join(lines));
      EndsInNewline(s);
      if trailingNewline {
        assert TrimSuffix(s, "\n") == Join(lines);
      } else {
        assert s == Join(lines);
      }
      if !trailingNewline && lines[|lines| - 1] == "" && s != "" {
        var t := TrimSuffix(s, "\n");
        assert s == t + "\n";
        SplitAppendNewline(t);
      }
    }
  }

  lemma {:induction false} SplitAppendNewline(t: string)
    ensures Split(t + "\n") == Split(t) + [""]
  {
    if t == "" {
      assert "" + "\n" == "\n";
      assert Split("\n") == [""] + Split("\n"[1..]);
    } else {
      var s := t + "\n";
      assert s[1..] == t[1..] + "\n";
      SplitAppendNewline(t[1..]);
    }
  }

  function ApplyText(content: string, hunks: seq<Hunk>): Result<string, HunkError>
    decreases |content|
  {
    if HasCRLF(content) then
      match ApplyText(ToLF(content), hunks)
      case Ok(out) => Ok(ToCRLF(out))
      case Err(e) => Err(e)
    else
      match ApplyLines(SplitLines(content), hunks, 0, 0, 0)
      case Ok(lines) => Ok(JoinLines(lines, HasSuffix(content, "\n") || content == ""))
      case Err(e) => Err(e)
  }

  method PlaceHunk(lines: seq<string>, h: Hunk, n: nat, pos: nat, delta: int) returns (r: Result<nat, HunkError>)
    ensures r == Place(lines, h, n, pos, delta)
  {
    hide FindBlock, FindLine;
    var searchFrom := pos;
    if h.anchor != "" {
      var idx := SearchLine(lines, h.anchor, pos);
      if idx < 0 {
        return Err(AnchorNotFound(n));
      }
      searchFrom := idx;
    }
    if h.oldSide == [] {
      // Nothing to search for.
      if h.hint >= 0 {
        return Ok(Min(Max(h.hint + delta, 0), |lines|));
      } else if h.anchor != "" {
        return Ok(searchFrom + 1);
      }
      return Ok(|lines|);
    }
    var expected := -1;
    if h.hint >= 0 {
      expected := h.hint + delta;
    }
    var at := SearchBlock(lines, h.oldSide, searchFrom, expected);
    if at < 0 {
      return Err(BlockNotFound(n));
    }
    return Ok(at);
  }

  method ApplyHunks(content: string, hunks: seq<Hunk>) returns (r: Result<string, HunkError>)
    ensures r == ApplyText(content, hunks)
    decreases |content|
  {
    hide Place, SplitLines, JoinLines, ToCRLF, HasCRLF;
    if HasCRLF(content) {
      var out := ApplyHunks(ToLF(content), hunks);
      match out
      case Ok(text) => return Ok(ToCRLF(text));
      case Err(e) => return Err(e);
    }
    var hadNewline := HasSuffix(content, "\n");
    var lines := SplitLines(content);
    var pos: nat, delta := 0, 0;
    var n := 0;
    while n < |hunks|
      invariant 0 <= n <= |hunks|
      invariant ApplyLines(SplitLines(content), hunks, 0, 0, 0) == ApplyLines(lines, hunks, n, pos, delta)
    {
      var h := hunks[n];
      var place := PlaceHunk(lines, h, n + 1, pos, delta);
      if place.Err? {
        return Err(place.error);
      }
      var at := place.value;
      lines := Splice(lines, at, h);
      delta := delta + |h.newSide| - |h.oldSide|;
      pos := at + |h.newSide|;
      n := n + 1;
    }
    return Ok(JoinLines(lines, hadNewline || content == ""));
  }

  // Patch lines never carry line ends.
  ghost predicate CleanHunks(hunks: seq<Hunk>) {
    forall i | 0 <= i < |hunks| ::
      NoNewlines(hunks[i].oldSide) && NoNewlines(hunks[i].newSide) && NoCRs(hunks[i].newSide)
  }

  lemma SliceIsClean(lines: seq<string>, a: nat, b: nat)
    requires a <= b <= |lines| && NoNewlines(lines) && NoCRs(lines)
    ensures NoNewlines(lines[a..b]) && NoCRs(lines[a..b])
  {
    assert forall i | 0 <= i < b - a :: lines[a..b][i] == lines[a + i];
  }

  lemma ConcatIsClean(a: seq<string>, b: seq<string>)
    requires NoNewlines(a) && NoCRs(a) && NoNewlines(b) && NoCRs(b)
    ensures NoNewlines(a + b) && NoCRs(a + b)
  {
    assert forall i | 0 <= i < |a + b| :: (a + b)[i] == if i < |a| then a[i] else b[i - |a|];
  }

  lemma {:induction false} StrictIsClean(lines: seq<string>, hunks: seq<Hunk>, from: nat)
    requires from <= |lines| && InOrder(lines, hunks, from)
    requires NoNewlines(lines) && NoCRs(lines) && CleanHunks(hunks)
    ensures NoNewlines(Strict(lines, hunks, from)) && NoCRs(Strict(lines, hunks, from))
    decreases |hunks|
  {
    if hunks == [] {
      SliceIsClean(lines, from, |lines|);
      assert lines[from..|lines|] == lines[from..];
    } else {
      var h := hunks[0];
      assert forall i | 0 <= i < |hunks[1..]| :: hunks[1..][i] == hunks[i + 1];
      StrictIsClean(lines, hunks[1..], h.hint + |h.oldSide|);
      SliceIsClean(lines, from, h.hint);
      ConcatIsClean(lines[from..h.hint], h.newSide);
      ConcatIsClean(lines[from..h.hint] + h.newSide, Strict(lines, hunks[1..], h.hint + |h.oldSide|));
    }
  }

  lemma {:induction false} JoinNoCR(lines: seq<string>)
    requires NoCRs(lines)
    ensures NoCR(Join(lines))
  {
    if |lines| > 1 {
      assert NoCR(lines[0]);
      assert forall i | 0 <= i < |lines[1..]| :: lines[1..][i] == lines[i + 1];
      JoinNoCR(lines[1..]);
    } else if |lines| == 1 {
      assert NoCR(lines[0]);
    }
  }

  lemma {:induction false} SplitNoCR(s: string)
    requires NoCR(s)
    ensures NoCRs(Split(s))
  {
    if s != "" {
      SplitNoCR(s[1..]);
      var t := Split(s[1..]);
      assert NoCR(t[0]);
      if s[0] != '\n' {
        assert forall i | 1 <= i < |t| :: Split(s)[i] == t[i];
      }
    }
  }

  lemma NoCRMeansNoCRLF(s: string)
    requires NoCR(s)
    ensures !HasCRLF(s)
  {
  }

  // On whole texts the reverse patch gives the text back exactly when the original text is
  // empty or ended in a newline, or the patched text is not empty and does not end in one:
  // whether a text ends in a newline is read off the text being patched, so a patch that
  // leaves an unterminated file with a blank last line, or with no lines, loses it.
  lemma TextRoundTrip(content: string, hunks: seq<Hunk>)
    requires NoCR(content) && CleanHunks(hunks)
    requires InOrder(SplitLines(content), hunks, 0)
    ensures var out := ApplyText(content, hunks);
            && out == Ok(JoinLines(Strict(SplitLines(content), hunks, 0), HasSuffix(content, "\n") || content == ""))
            && (ApplyText(out.value, Swapped(hunks, 0)) == Ok(content) <==>
                (content == "" || HasSuffix(content, "\n") || (out.value != "" && !HasSuffix(out.value, "\n"))))
  {
    hide InOrder, Strict, Swapped, ApplyLines, HasCRLF, CleanHunks;
    var lines := SplitLines(content);
    var res := Strict(lines, hunks, 0);
    var back := Swapped(hunks, 0);
    var ends := HasSuffix(content, "\n") || content == "";
    var text := JoinLines(res, ends);
    NoCRMeansNoCRLF(content);
    SwapUndoes(lines, hunks);
    SplitLinesNoCR(content);
    StrictIsClean(lines, hunks, 0);
    JoinNoCR(res);
    NoCRMeansNoCRLF(text);
    JoinUndoesSplit(content);
    JoinedEnd(res, ends);
    if !(ends || (text != "" && !HasSuffix(text, "\n"))) {
      EndsLikeItsFlag(ApplyLines(SplitLines(text), back, 0, 0, 0));
    }
  }

  lemma SplitLinesNoCR(s: string)
    requires NoCR(s)
    ensures NoCRs(SplitLines(s))
  {
    SplitNoCR(TrimSuffix(s, "\n"));
  }

  // What a joined text says about the lines it came from.
  lemma JoinedEnd(lines: seq<string>, ends: bool)
    requires NoNewlines(lines)
    ensures var text := JoinLines(lines, ends);
            && (ends || (text != "" && !HasSuffix(text, "\n")) ==> SplitLines(text) == lines)
            && (ends ==> HasSuffix(text, "\n") || text == "")
  {
    assert Join([]) == "";
    hide Join, SplitLines, NoNewline;
    var text := JoinLines(lines, ends);
    SplitUndoesJoin(lines, ends);
    EndsInNewline(text);
    if lines != [] {
      SplitOfJoin(lines);
      SplitLast(Join(lines));
    }
  }

  lemma EndsLikeItsFlag(r: Result<seq<string>, HunkError>)
    ensures r.Ok? ==> var s := JoinLines(r.value, true); s == "" || HasSuffix(s, "\n")
  {
  }

  // CRLF texts are patched as their LF form would be.
  lemma CRLFCommutes(content: string, hunks: seq<Hunk>)
    requires NoCR(content) && '\n' in content
    ensures ApplyText(ToCRLF(content), hunks) ==
            match ApplyText(content, hunks) { case Ok(out) => Ok(ToCRLF(out)) case Err(e) => Err(e) }
  {
    ToLFOfToCRLF(content);
    ToCRLFHasCRLF(content);
  }
}
