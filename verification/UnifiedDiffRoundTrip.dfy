/** Printing a list of file diffs and parsing the text gives the same list back. */
module UnifiedDiffRoundTrip {
  import opened Results
  import opened GoStrings
  import opened PatchEngine
  import opened UnifiedDiff

  // ---- Header lines ----

  lemma {:induction false} LeadingDigitsOf(digits: string, rest: string)
    requires AllDigits(digits) && (rest == "" || !IsDigit(rest[0]))
    ensures LeadingDigits(digits + rest) == |digits|
  {
    if digits == "" {
      assert digits + rest == rest;
    } else {
      LeadingDigitsOf(digits[1..], rest);
      assert (digits + rest)[1..] == digits[1..] + rest;
    }
  }

  predicate IsNumber(s: string) {
    s != "" && AllDigits(s)
  }

  predicate IsCount(s: string) {
    s == "" || (s[0] == ',' && IsNumber(s[1..]))
  }

  // -l,s or +l,s, where ,s may be left out.
  lemma SkipsCount(count: string, rest: string)
    requires IsCount(count) && rest != "" && !IsDigit(rest[0]) && rest[0] != ','
    ensures SkipCount(count + rest) == rest
  {
    hide LeadingDigits;
    var s := count + rest;
    if count == "" {
      assert s == rest;
    } else {
      assert s[1..] == count[1..] + rest;
      LeadingDigitsOf(count[1..], rest);
      assert s[1 + |count[1..]|..] == rest;
    }
  }

  lemma RangeParses(digits: string, count: string, rest: string)
    requires IsNumber(digits) && IsCount(count) && rest != "" && !IsDigit(rest[0]) && rest[0] != ','
    ensures var r := digits + count + rest;
            var n := LeadingDigits(r);
            n > 0 && r[..n] == digits && SkipCount(r[n..]) == rest
  {
    hide LeadingDigits, SkipCount;
    var tail := count + rest;
    var r := digits + count + rest;
    assert r == digits + tail;
    LeadingDigitsOf(digits, tail);
    assert r[|digits|..] == tail && r[..|digits|] == digits;
    SkipsCount(count, rest);
  }

  // @@ -l,s +l,s @@ and any text.
  predicate IsHunkHeader(line: string, start: string, c1: string, newStart: string, c2: string, rest: string) {
    && IsNumber(start) && IsCount(c1) && IsNumber(newStart) && IsCount(c2)
    && line == "@@ -" + (start + c1 + (" +" + (newStart + c2 + (" @@" + rest))))
  }

  lemma HeaderMatches(line: string, start: string, c1: string, newStart: string, c2: string, rest: string)
    requires IsHunkHeader(line, start, c1, newStart, c2, rest)
    ensures MatchHunkHeader(line) == Some(start)
  {
    hide LeadingDigits, SkipCount, IsNumber, IsCount;
    var end := " @@" + rest;
    var r2 := newStart + c2 + end;
    var tail := " +" + r2;
    var r0 := start + c1 + tail;
    assert line[4..] == r0 && tail[2..] == r2 && end[..3] == " @@";
    RangeParses(start, c1, tail);
    RangeParses(newStart, c2, end);
  }

  lemma SkippedIsCount(s: string) returns (count: string)
    ensures s == count + SkipCount(s) && IsCount(count)
  {
    hide LeadingDigits;
    if s != "" && s[0] == ',' && LeadingDigits(s[1..]) > 0 {
      LeadingAreDigits(s[1..]);
      count := s[..1 + LeadingDigits(s[1..])];
      assert count[1..] == s[1..][..LeadingDigits(s[1..])];
    } else {
      count := "";
    }
  }

  lemma RangeSplits(s: string) returns (count: string)
    requires LeadingDigits(s) > 0
    ensures var n := LeadingDigits(s); n <= |s| && s == s[..n] + count + SkipCount(s[n..])
    ensures IsNumber(s[..LeadingDigits(s)]) && IsCount(count)
  {
    hide LeadingDigits, SkipCount, IsCount;
    LeadingAreDigits(s);
    var n := LeadingDigits(s);
    count := SkippedIsCount(s[n..]);
    assert s == s[..n] + s[n..];
  }

  lemma MatchedIsHeader(line: string) returns (c1: string, newStart: string, c2: string, rest: string)
    requires MatchHunkHeader(line).Some?
    ensures IsHunkHeader(line, MatchHunkHeader(line).value, c1, newStart, c2, rest)
  {
    hide LeadingDigits, SkipCount, IsCount, IsNumber;
    var r0 := line[4..];
    c1 := RangeSplits(r0);
    var r1 := SkipCount(r0[LeadingDigits(r0)..]);
    var r2 := r1[2..];
    c2 := RangeSplits(r2);
    newStart := r2[..LeadingDigits(r2)];
    var end := SkipCount(r2[LeadingDigits(r2)..]);
    rest := end[3..];
    assert end == " @@" + rest && r1 == " +" + r2 && line == "@@ -" + r0;
  }

  // A line is taken for a hunk header exactly when it has that form, and its first number is the start line.
  lemma HeaderIsRead(line: string, start: string)
    ensures MatchHunkHeader(line) == Some(start) <==>
            exists c1, newStart, c2, rest :: IsHunkHeader(line, start, c1, newStart, c2, rest)
  {
    hide MatchHunkHeader, IsHunkHeader;
    if MatchHunkHeader(line) == Some(start) {
      var c1, newStart, c2, rest := MatchedIsHeader(line);
    }
    if c1, newStart, c2, rest :| IsHunkHeader(line, start, c1, newStart, c2, rest) {
      HeaderMatches(line, start, c1, newStart, c2, rest);
    }
  }

  lemma CountIsCount(count: nat)
    ensures IsCount(PrintCount(count))
  {
    hide Decimal, Value;
    if count != 1 {
      assert PrintCount(count)[1..] == Decimal(count);
    }
  }

  lemma HeaderParses(start: nat, oldCount: nat, newStart: nat, newCount: nat, heading: string)
    ensures MatchHunkHeader(PrintHunkHeader(start, oldCount, newStart, newCount) + heading) == Some(Decimal(start))
  {
    hide Decimal, Value, PrintCount, IsCount, MatchHunkHeader;
    var c1, c2 := PrintCount(oldCount), PrintCount(newCount);
    CountIsCount(oldCount);
    CountIsCount(newCount);
    var line := PrintHunkHeader(start, oldCount, newStart, newCount) + heading;
    assert line == "@@ -" + (Decimal(start) + c1 + (" +" + (Decimal(newStart) + c2 + (" @@" + heading))));
    HeaderMatches(line, Decimal(start), c1, Decimal(newStart), c2, heading);
  }

  lemma {:induction false} BeforeTabOf(s: string, stamp: string)
    requires '\t' !in s && Stamp(stamp)
    ensures BeforeTab(s + stamp) == s
  {
    if s != "" {
      BeforeTabOf(s[1..], stamp);
      assert (s + stamp)[1..] == s[1..] + stamp;
    }
  }

  lemma TrimNothing(s: string)
    requires s != "" && !IsSpace(s[0]) && !IsSpace(s[|s| - 1])
    ensures TrimSpace(s) == s
  {
  }

  lemma DiffPathOf(p: string, prefix: string, stamp: string)
    requires PrintablePath(p) && prefix in {"a/", "b/"} && Stamp(stamp)
    ensures DiffPath(prefix + p + stamp, prefix) == p
  {
    hide TrimSpace, IsSpace;
    var s := prefix + p;
    BeforeTabOf(s, stamp);
    assert !IsSpace('a') && !IsSpace('b') && !IsSpace('/') by { PlainChars(); }
    assert p != "" ==> s[|s| - 1] == p[|p| - 1];
    TrimNothing(s);
    assert s[0] != DEV_NULL[0];
    assert s[2..] == p;
  }

  lemma PlainChars()
    ensures !IsSpace('a') && !IsSpace('b') && !IsSpace('/') && !IsSpace('l')
  {
  }

  lemma DiffPathOfNull(prefix: string, stamp: string)
    requires Stamp(stamp)
    ensures DiffPath(DEV_NULL + stamp, prefix) == DEV_NULL
  {
    hide TrimSpace, IsSpace;
    BeforeTabOf(DEV_NULL, stamp);
    PlainChars();
    assert DEV_NULL[0] == '/' && DEV_NULL[|DEV_NULL| - 1] == 'l';
    TrimNothing(DEV_NULL);
  }

  // ---- Runs of lines ----

  ghost predicate At(lines: seq<string>, i: nat, chunk: seq<string>) {
    i + |chunk| <= |lines| && lines[i..i + |chunk|] == chunk
  }

  lemma AtConcat(lines: seq<string>, i: nat, a: seq<string>, b: seq<string>)
    requires At(lines, i, a + b)
    ensures At(lines, i, a) && At(lines, i + |a|, b)
  {
    var c := a + b;
    assert lines[i..i + |a|] == c[..|a|] by { assert c == lines[i..i + |c|]; }
    assert lines[i + |a|..i + |a| + |b|] == c[|a|..] by { assert c == lines[i..i + |c|]; }
  }

  // The line at i exists and could not be the second line of a file header.
  ghost predicate Fences(lines: seq<string>, i: nat) {
    i < |lines| && !("+++ " <= lines[i])
  }

  // ---- Lines that are no diff's own ----

  lemma NoteStart(l: string)
    requires PlainNote(l)
    ensures !("--- " <= l) && !("+++ " <= l) && !("@@" <= l)
  {
    PrefixTail("--- ", l);
    PrefixTail("+++ ", l);
  }

  // Such a line ends the open hunk.
  ghost function Closed(st: ParseState, notes: seq<string>): (r: ParseState)
    requires st.hunk.Some? ==> st.cur.Some?
    ensures r.hunk.Some? ==> r.cur.Some?
  {
    if notes == [] || st.hunk.None? then st else st.(cur := Some(CloseHunk(st.cur.value, st.hunk)), hunk := None)
  }

  lemma ClosedSettles(st: ParseState, notes: seq<string>)
    requires st.hunk.Some? ==> st.cur.Some?
    ensures Flush(Closed(st, notes)) == Flush(st)
    ensures st.cur.Some? ==> var c := Closed(st, notes);
      c.cur.Some? && c.patches == st.patches && CloseHunk(c.cur.value, c.hunk) == CloseHunk(st.cur.value, st.hunk)
  {
  }

  lemma PlainNoteCloses(st: ParseState, l: string, last: bool)
    requires PlainNote(l) && (st.hunk.Some? ==> st.cur.Some?)
    ensures PlainLine(st, l, last) == Closed(st, [l])
  {
  }

  lemma {:induction false} ParseNotes(lines: seq<string>, base: nat, notes: seq<string>, st: ParseState)
    requires PlainNotes(notes) && At(lines, base, notes) && (st.hunk.Some? ==> st.cur.Some?)
    ensures ParseFrom(lines, base, st) == ParseFrom(lines, base + |notes|, Closed(st, notes))
    decreases |notes|
  {
    hide PlainLine, PlainNote, FileHeader, MatchHunkHeader, DiffPath, CloseHunk;
    if notes != [] {
      var l := notes[0];
      assert notes == [l] + notes[1..];
      AtConcat(lines, base, [l], notes[1..]);
      assert lines[base] == lines[base..base + 1][0] == l;
      NoteStart(l);
      PlainNoteCloses(st, l, base == |lines| - 1);
      var st' := Closed(st, [l]);
      assert ParseFrom(lines, base, st) == ParseFrom(lines, base + 1, st');
      ParseNotes(lines, base + 1, notes[1..], st');
    }
  }

  // The line after the notes fences if the notes do not.
  lemma NotesFence(lines: seq<string>, i: nat, notes: seq<string>)
    requires PlainNotes(notes) && At(lines, i, notes) && Fences(lines, i + |notes|)
    ensures Fences(lines, i)
  {
    hide PlainNote;
    if notes != [] {
      assert lines[i] == lines[i..i + |notes|][0] == notes[0];
      NoteStart(notes[0]);
    }
  }

  // ---- Hunk bodies ----

  ghost predicate BodyAt(lines: seq<string>, base: nat, body: seq<BodyLine>) {
    base + |body| < |lines| && forall j | 0 <= j < |body| :: lines[base + j] == PrintBody(body[j])
  }

  lemma BodyLineStart(b: BodyLine)
    ensures !("@@" <= PrintBody(b))
    ensures "--- " <= PrintBody(b) <==> b.Removed? && "-- " <= b.text
    ensures "+++ " <= PrintBody(b) <==> b.Added? && "++ " <= b.text
  {
    var s := PrintBody(b);
    if s != "" {
      PrefixTail("@@", s);
      PrefixTail("--- ", s);
      PrefixTail("+++ ", s);
      assert b.Removed? || b.Added? ==> s[1..] == b.text;
    }
  }

  lemma PrefixTail(p: string, s: string)
    requires p != "" && s != ""
    ensures p <= s <==> p[0] == s[0] && p[1..] <= s[1..]
  {
    if p[0] == s[0] && p[1..] <= s[1..] {
      assert forall k | 1 <= k < |p| :: p[k] == p[1..][k - 1] == s[1..][k - 1] == s[k];
    }
    if p <= s {
      assert forall k | 0 <= k < |p| - 1 :: p[1..][k] == p[k + 1] == s[k + 1] == s[1..][k];
    }
  }

  // A printed body line reads as a file header exactly when it is a false header.
  lemma BodyHeader(lines: seq<string>, base: nat, body: seq<BodyLine>, k: nat)
    requires BodyAt(lines, base, body) && k < |body| && Fences(lines, base + |body|)
    ensures IsFileHeader(lines, base + k) <==> LooksLikeHeader(body, k)
  {
    BodyLineStart(body[k]);
    if k + 1 < |body| {
      BodyLineStart(body[k + 1]);
      assert lines[base + k + 1] == PrintBody(body[k + 1]);
    }
  }

  ghost function AddBody(h: Hunk, body: seq<BodyLine>, k: nat): Hunk {
    h.(oldSide := h.oldSide + OldSide(body, k), newSide := h.newSide + NewSide(body, k))
  }

  lemma BodyLineParses(st: ParseState, b: BodyLine)
    requires st.cur.Some? && st.hunk.Some?
    ensures PlainLine(st, PrintBody(b), false) ==
            var h := st.hunk.value;
            st.(hunk := Some(h.(oldSide := h.oldSide + OldPart(b), newSide := h.newSide + NewPart(b))))
  {
    var s := PrintBody(b);
    var h := st.hunk.value;
    if b.Context? || b.Removed? || b.Added? {
      assert s[1..] == b.text;
      assert s[0] != '\\';
    }
    assert h.oldSide + [] == h.oldSide && h.newSide + [] == h.newSide;
  }

  lemma ParseBodyLine(lines: seq<string>, base: nat, body: seq<BodyLine>, k: nat, st: ParseState)
    requires st.cur.Some? && st.hunk.Some? && k < |body|
    requires BodyAt(lines, base, body) && Fences(lines, base + |body|) && !LooksLikeHeader(body, k)
    ensures ParseFrom(lines, base + k, st) == ParseFrom(lines, base + k + 1, PlainLine(st, PrintBody(body[k]), false))
  {
    hide PlainLine, LooksLikeHeader, FileHeader, MatchHunkHeader, DiffPath, PrintBody;
    BodyHeader(lines, base, body, k);
    BodyLineStart(body[k]);
  }

  lemma AddNothing(h: Hunk, body: seq<BodyLine>)
    ensures AddBody(h, body, |body|) == h
  {
    assert h.oldSide + [] == h.oldSide && h.newSide + [] == h.newSide;
  }

  lemma {:induction false} ParseBody(lines: seq<string>, base: nat, body: seq<BodyLine>, k: nat, st: ParseState)
    requires st.cur.Some? && st.hunk.Some? && k <= |body|
    requires BodyAt(lines, base, body) && Fences(lines, base + |body|)
    requires forall j: nat | j < |body| :: !LooksLikeHeader(body, j)
    ensures ParseFrom(lines, base + k, st) ==
            ParseFrom(lines, base + |body|, st.(hunk := Some(AddBody(st.hunk.value, body, k))))
    decreases |body| - k
  {
    hide PlainLine, LooksLikeHeader, ParseFrom, PrintBody, OldSide, NewSide;
    var h := st.hunk.value;
    if k == |body| {
      AddNothing(h, body);
    } else {
      var st' := PlainLine(st, PrintBody(body[k]), false);
      ParseBodyLine(lines, base, body, k, st);
      BodyLineParses(st, body[k]);
      ParseBody(lines, base, body, k + 1, st');
      AddBodyStep(h, body, k);
    }
  }

  lemma AddBodyStep(h: Hunk, body: seq<BodyLine>, k: nat)
    requires k < |body|
    ensures AddBody(h, body, k) ==
            AddBody(h.(oldSide := h.oldSide + OldPart(body[k]), newSide := h.newSide + NewPart(body[k])), body, k + 1)
  {
    var o, n := OldPart(body[k]), NewPart(body[k]);
    assert h.oldSide + (o + OldSide(body, k + 1)) == h.oldSide + o + OldSide(body, k + 1);
    assert h.newSide + (n + NewSide(body, k + 1)) == h.newSide + n + NewSide(body, k + 1);
  }

  // ---- Hunks ----

  lemma RangeClean(start: nat, count: nat)
    ensures NoNewline(PrintRange(start, count))
  {
    hide Decimal, Value;
    DigitsNoNewline(Decimal(start));
    DigitsNoNewline(Decimal(count));
  }

  lemma HeaderLineShape(h: DiffHunk)
    ensures var s := HunkHeader(h);
      "@@" <= s && !("--- " <= s) && !("+++ " <= s) && (NoNewline(h.heading) ==> NoNewline(s))
  {
    hide PrintRange, OldSide, NewSide, HunkStart;
    var s := HunkHeader(h);
    assert s[0] == '@' && s[1] == '@';
    RangeClean(HunkStart(h), |OldSide(h.body, 0)|);
    RangeClean(h.newStart, |NewSide(h.body, 0)|);
  }

  lemma DigitsNoNewline(s: string)
    requires AllDigits(s)
    ensures NoNewline(s)
  {
  }

  lemma PrintedLine(h: DiffHunk, j: nat)
    requires j < |h.body|
    ensures PrintHunk(h)[j + 1] == PrintBody(h.body[j])
  {
    hide HunkHeader, PrintBody;
  }

  lemma HunkChunk(lines: seq<string>, i: nat, h: DiffHunk)
    requires At(lines, i, PrintHunk(h)) && i + |h.body| + 1 < |lines|
    ensures lines[i] == HunkHeader(h)
    ensures BodyAt(lines, i + 1, h.body)
  {
    hide HunkHeader, PrintBody;
    var p := PrintHunk(h);
    assert lines[i] == lines[i..i + |p|][0] == p[0];
    hide PrintHunk;
    forall j | 0 <= j < |h.body| ensures lines[i + 1 + j] == PrintBody(h.body[j]) {
      assert lines[i + 1 + j] == lines[i..i + |p|][j + 1] == p[j + 1];
      PrintedLine(h, j);
    }
  }

  lemma ReadStart(h: DiffHunk)
    requires PrintableHunk(h)
    ensures Max(Atoi(Decimal(HunkStart(h))) - 1, 0) == HunkMeaning(h).hint
  {
  }

  lemma ParseHunk(lines: seq<string>, i: nat, h: DiffHunk, st: ParseState)
    requires st.cur.Some? && PrintableHunk(h) && NoFalseHeader(h)
    requires At(lines, i, PrintHunk(h)) && Fences(lines, i + |h.body| + 1)
    ensures ParseFrom(lines, i, st) == ParseFrom(lines, i + |h.body| + 1, OpenHunk(st, HunkMeaning(h)))
  {
    hide Decimal, Atoi, MatchHunkHeader, PrintHunkHeader, OldSide, NewSide, CloseHunk, FileHeader, PlainLine, DiffPath;
    var oldCount, newCount := |OldSide(h.body, 0)|, |NewSide(h.body, 0)|;
    HunkChunk(lines, i, h);
    HeaderLineShape(h);
    HeaderParses(HunkStart(h), oldCount, h.newStart, newCount, h.heading);
    hide HunkHeader;
    ReadStart(h);
    var begun := Hunk("", HunkMeaning(h).hint, [], []);
    assert ParseFrom(lines, i, st) == ParseFrom(lines, i + 1, OpenHunk(st, begun));
    ParseBody(lines, i + 1, h.body, 0, OpenHunk(st, begun));
    assert [] + OldSide(h.body, 0) == OldSide(h.body, 0) && [] + NewSide(h.body, 0) == NewSide(h.body, 0);
    assert AddBody(begun, h.body, 0) == HunkMeaning(h);
  }

  ghost function AfterHunks(st: ParseState, hs: seq<DiffHunk>, k: nat): (r: ParseState)
    requires st.cur.Some?
    ensures r.cur.Some?
    decreases |hs| - k
  {
    if k >= |hs| then st else AfterHunks(Closed(OpenHunk(st, HunkMeaning(hs[k])), hs[k].notes), hs, k + 1)
  }

  lemma {:induction false} AfterHunksCloses(st: ParseState, hs: seq<DiffHunk>, k: nat)
    requires st.cur.Some? && k <= |hs|
    ensures var r := AfterHunks(st, hs, k);
            var c := CloseHunk(st.cur.value, st.hunk);
            && r.patches == st.patches
            && CloseHunk(r.cur.value, r.hunk) == c.(hunks := c.hunks + HunkMeanings(hs, k))
    decreases |hs| - k
  {
    hide HunkMeaning, Closed, Flush;
    var c := CloseHunk(st.cur.value, st.hunk);
    if k == |hs| {
      assert c.hunks + [] == c.hunks;
    } else {
      var m := HunkMeaning(hs[k]);
      ClosedSettles(OpenHunk(st, m), hs[k].notes);
      AfterHunksCloses(Closed(OpenHunk(st, m), hs[k].notes), hs, k + 1);
      assert c.hunks + ([m] + HunkMeanings(hs, k + 1)) == c.hunks + [m] + HunkMeanings(hs, k + 1);
    }
  }

  lemma HunkParts(lines: seq<string>, i: nat, hs: seq<DiffHunk>, k: nat)
    requires k < |hs| && At(lines, i, PrintHunks(hs, k))
    ensures var (p, notes) := (PrintHunk(hs[k]), hs[k].notes);
      && |PrintHunks(hs, k)| == |p| + |notes| + |PrintHunks(hs, k + 1)|
      && At(lines, i, p) && At(lines, i + |p|, notes) && At(lines, i + |p| + |notes|, PrintHunks(hs, k + 1))
  {
    hide PrintHunk, At;
    var p, notes, rest := PrintHunk(hs[k]), hs[k].notes, PrintHunks(hs, k + 1);
    AtConcat(lines, i, p + notes, rest);
    AtConcat(lines, i, p, notes);
  }

  lemma FirstHunkLine(lines: seq<string>, i: nat, hs: seq<DiffHunk>, k: nat)
    requires At(lines, i, PrintHunks(hs, k)) && Fences(lines, i + |PrintHunks(hs, k)|)
    ensures Fences(lines, i)
  {
    hide HunkHeader, PrintHunk, PrintBody;
    if k < |hs| {
      HunkParts(lines, i, hs, k);
      hide PrintHunks;
      HunkChunk(lines, i, hs[k]);
      HeaderLineShape(hs[k]);
    }
  }

  // The lines after hunk k's body cannot make a header of its last line.
  lemma HunkFences(lines: seq<string>, i: nat, hs: seq<DiffHunk>, k: nat)
    requires k < |hs| && PrintableHunks(hs)
    requires At(lines, i, PrintHunks(hs, k)) && Fences(lines, i + |PrintHunks(hs, k)|)
    ensures var (p, notes) := (PrintHunk(hs[k]), hs[k].notes);
      Fences(lines, i + |p|) && Fences(lines, i + |p| + |notes|)
  {
    hide PrintHunk, At, Fences;
    HunkParts(lines, i, hs, k);
    var j := i + |PrintHunk(hs[k])|;
    FirstHunkLine(lines, j + |hs[k].notes|, hs, k + 1);
    assert PrintableHunk(hs[k]);
    NotesFence(lines, j, hs[k].notes);
  }

  lemma {:induction false} ParseHunks(lines: seq<string>, i: nat, hs: seq<DiffHunk>, k: nat, st: ParseState)
    requires st.cur.Some? && k <= |hs| && PrintableHunks(hs) && NoFalseHeaders(hs)
    requires At(lines, i, PrintHunks(hs, k)) && Fences(lines, i + |PrintHunks(hs, k)|)
    ensures ParseFrom(lines, i, st) == ParseFrom(lines, i + |PrintHunks(hs, k)|, AfterHunks(st, hs, k))
    decreases |hs| - k
  {
    hide ParseFrom, PrintHunk, HunkMeaning, CloseHunk, At, Fences, NoFalseHeader;
    if k < |hs| {
      var h := hs[k];
      HunkParts(lines, i, hs, k);
      HunkFences(lines, i, hs, k);
      var begun := OpenHunk(st, HunkMeaning(h));
      assert PrintableHunk(h) && NoFalseHeader(h);
      ParseHunk(lines, i, h, st);
      ParseNotes(lines, i + |PrintHunk(h)|, h.notes, begun);
      ParseHunks(lines, i + |PrintHunk(h)| + |h.notes|, hs, k + 1, Closed(begun, h.notes));
    }
  }

  // ---- Files ----

  ghost function Header(d: FileDiff): FilePatch {
    match d
    case EditFile(path, moveTo, _, _) => FilePatch(Update, path, moveTo, [], "")
    case CreateFile(path, _, _, _) => FilePatch(Add, path, "", [], "")
    case DeleteFile(path, _, _) => FilePatch(Delete, path, "", [], "")
  }

  ghost function Raw(d: FileDiff): FilePatch {
    Header(d).(hunks := HunkMeanings(ShownHunks(d), 0))
  }

  ghost function Raws(ds: seq<FileDiff>, k: nat): (r: seq<FilePatch>)
    requires k <= |ds|
    ensures |r| == |ds| - k
    decreases |ds| - k
  {
    if k == |ds| then [] else [Raw(ds[k])] + Raws(ds, k + 1)
  }

  lemma FileParts(lines: seq<string>, i: nat, d: FileDiff)
    requires At(lines, i, PrintFile(d))
    ensures var (lead, notes, hunks) := (d.margin.lead, d.margin.notes, PrintHunks(ShownHunks(d), 0));
      && |PrintFile(d)| == |lead| + 2 + |notes| + |hunks|
      && At(lines, i, lead) && At(lines, i + |lead|, PrintHeader(d))
      && At(lines, i + |lead| + 2, notes) && At(lines, i + |lead| + 2 + |notes|, hunks)
  {
    hide At, PrintHeader, PrintHunks, ShownHunks;
    var (lead, notes, hunks) := (d.margin.lead, d.margin.notes, PrintHunks(ShownHunks(d), 0));
    AtConcat(lines, i, lead, PrintHeader(d) + (notes + hunks));
    AtConcat(lines, i + |lead|, PrintHeader(d), notes + hunks);
    AtConcat(lines, i + |lead| + 2, notes, hunks);
  }

  lemma NamesRead(d: FileDiff)
    requires Printable(d)
    ensures FileHeader(DiffPath(OldName(d) + d.margin.oldStamp, "a/"), DiffPath(NewName(d) + d.margin.newStamp, "b/"))
         == Some(Header(d))
  {
    hide DiffPath, PrintableHunk, ShownHunks;
    if d.CreateFile? {
      DiffPathOfNull("a/", d.margin.oldStamp);
    } else {
      DiffPathOf(d.path, "a/", d.margin.oldStamp);
    }
    if d.DeleteFile? {
      DiffPathOfNull("b/", d.margin.newStamp);
    } else {
      DiffPathOf(if d.EditFile? && d.moveTo != "" then d.moveTo else d.path, "b/", d.margin.newStamp);
    }
  }

  lemma FileHeaderParses(lines: seq<string>, i: nat, d: FileDiff, st: ParseState)
    requires Printable(d) && At(lines, i, PrintHeader(d)) && (st.hunk.Some? ==> st.cur.Some?)
    ensures i + 2 <= |lines| && IsFileHeader(lines, i)
    ensures ParseFrom(lines, i, st) == ParseFrom(lines, i + 2, ParseState(Flush(st).patches, Some(Header(d)), None))
  {
    hide Printable, DiffPath, PlainLine, MatchHunkHeader, FileHeader, OldName, NewName;
    var head := PrintHeader(d);
    assert lines[i] == lines[i..i + 2][0] == head[0];
    assert lines[i + 1] == lines[i..i + 2][1] == head[1];
    assert head[0][4..] == OldName(d) + d.margin.oldStamp && head[1][4..] == NewName(d) + d.margin.newStamp;
    NamesRead(d);
  }

  lemma ParseFile(lines: seq<string>, i: nat, d: FileDiff, st: ParseState) returns (st': ParseState)
    requires Printable(d) && NoFalseHeaders(ShownHunks(d)) && (st.hunk.Some? ==> st.cur.Some?)
    requires At(lines, i, PrintFile(d)) && Fences(lines, i + |PrintFile(d)|)
    ensures st'.cur.Some?
    ensures ParseFrom(lines, i, st) == ParseFrom(lines, i + |PrintFile(d)|, st')
    ensures Flush(st') == ParseState(Flush(st).patches + [Raw(d)], None, None)
  {
    hide ParseFrom, ShownHunks, AfterHunks, HunkMeanings, PrintHunks, PrintableHunk, NoFalseHeader, At, Fences;
    hide PrintFile;
    hide PrintHeader, PlainNote, Closed, CloseHunk;
    var hs, lead, notes := ShownHunks(d), d.margin.lead, d.margin.notes;
    FileParts(lines, i, d);
    ParseNotes(lines, i, lead, st);
    ClosedSettles(st, lead);
    FileHeaderParses(lines, i + |lead|, d, Closed(st, lead));
    var begun := ParseState(Flush(st).patches, Some(Header(d)), None);
    ParseNotes(lines, i + |lead| + 2, notes, begun);
    ClosedSettles(begun, notes);
    var ready := Closed(begun, notes);
    ParseHunks(lines, i + |lead| + 2 + |notes|, hs, 0, ready);
    AfterHunksCloses(ready, hs, 0);
    st' := AfterHunks(ready, hs, 0);
    NothingOpen(Header(d));
    assert [] + HunkMeanings(hs, 0) == HunkMeanings(hs, 0);
  }

  lemma NothingOpen(fp: FilePatch)
    ensures CloseHunk(fp, None) == fp
  {
  }

  lemma FileFences(lines: seq<string>, i: nat, d: FileDiff)
    requires Printable(d) && At(lines, i, PrintFile(d))
    ensures Fences(lines, i)
  {
    hide ShownHunks, PrintHunks, PrintFile, NoNewline, PlainNote, PrintablePath, PrintableHunk, OldName, NewName;
    FileParts(lines, i, d);
    var j := i + |d.margin.lead|;
    assert lines[j] == lines[j..j + 2][0] == PrintHeader(d)[0];
    assert PrintHeader(d)[0][0] == '-';
    PrefixTail("+++ ", PrintHeader(d)[0]);
    NotesFence(lines, i, d.margin.lead);
  }

  lemma NextFileLine(lines: seq<string>, i: nat, ds: seq<FileDiff>, k: nat)
    requires AllPrintable(ds) && At(lines, i, PrintFiles(ds, k) + [""])
    ensures Fences(lines, i)
  {
    hide PrintFile, Printable;
    if k < |ds| {
      var p := PrintFile(ds[k]);
      assert PrintFiles(ds, k) + [""] == p + (PrintFiles(ds, k + 1) + [""]);
      AtConcat(lines, i, p, PrintFiles(ds, k + 1) + [""]);
      FileFences(lines, i, ds[k]);
    } else {
      assert lines[i] == lines[i..i + 1][0] == "";
    }
  }

  lemma FirstFile(lines: seq<string>, i: nat, ds: seq<FileDiff>, k: nat)
    requires AllPrintable(ds) && k < |ds| && At(lines, i, PrintFiles(ds, k) + [""])
    ensures var p := PrintFile(ds[k]);
            && At(lines, i, p)
            && Fences(lines, i + |p|)
            && At(lines, i + |p|, PrintFiles(ds, k + 1) + [""])
            && |PrintFiles(ds, k)| == |p| + |PrintFiles(ds, k + 1)|
  {
    hide PrintFile, Printable, Fences;
    var p := PrintFile(ds[k]);
    var rest := PrintFiles(ds, k + 1) + [""];
    assert PrintFiles(ds, k) + [""] == p + rest;
    AtConcat(lines, i, p, rest);
    NextFileLine(lines, i + |p|, ds, k + 1);
  }

  // The empty piece after the final newline closes the last file.
  lemma ParseEnd(lines: seq<string>, i: nat, st: ParseState)
    requires At(lines, i, [""]) && i + 1 == |lines| && (st.hunk.Some? ==> st.cur.Some?)
    ensures ParseFrom(lines, i, st) == Ok(ParseState(Flush(st).patches, None, None))
  {
    hide MatchHunkHeader, FileHeader, CloseHunk, DiffPath;
    assert lines[i] == lines[i..i + 1][0] == "";
    assert ParseFrom(lines, i, st) == ParseFrom(lines, i + 1, st);
  }

  lemma {:induction false} ParseFiles(lines: seq<string>, i: nat, ds: seq<FileDiff>, k: nat, st: ParseState)
    requires k <= |ds| && AllPrintable(ds) && Unambiguous(ds) && (st.hunk.Some? ==> st.cur.Some?)
    requires At(lines, i, PrintFiles(ds, k) + [""]) && i + |PrintFiles(ds, k)| + 1 == |lines|
    ensures ParseFrom(lines, i, st) == Ok(ParseState(Flush(st).patches + Raws(ds, k), None, None))
    decreases |ds| - k
  {
    hide PrintFile, Printable, NoFalseHeaders, Raw, Flush, ParseFrom;
    if k == |ds| {
      assert PrintFiles(ds, k) + [""] == [""];
      ParseEnd(lines, i, st);
      assert Flush(st).patches + [] == Flush(st).patches;
    } else {
      var d := ds[k];
      FirstFile(lines, i, ds, k);
      var st' := ParseFile(lines, i, d, st);
      ParseFiles(lines, i + |PrintFile(d)|, ds, k + 1, st');
      var done := Flush(st).patches;
      assert done + [Raw(d)] + Raws(ds, k + 1) == done + ([Raw(d)] + Raws(ds, k + 1));
    }
  }

  // ---- The second pass ----

  lemma {:induction false} SidesOfAdded(lines: seq<string>, k: nat)
    requires k <= |lines|
    ensures OldSide(AddedLines(lines), k) == [] && NewSide(AddedLines(lines), k) == lines[k..]
    decreases |lines| - k
  {
    if k < |lines| {
      SidesOfAdded(lines, k + 1);
      assert [lines[k]] + lines[k + 1..] == lines[k..];
    }
  }

  lemma SettleRaw(d: FileDiff)
    requires Printable(d)
    ensures Settle(Raw(d)) == Ok(Meaning(d))
  {
    match d
    case EditFile(_, _, _, _) =>
    case DeleteFile(_, _, _) =>
    case CreateFile(_, lines, _, _) =>
      if lines != [] {
        SidesOfAdded(lines, 0);
        var h := HunkMeaning(ShownHunks(d)[0]);
        assert h.newSide == lines;
        assert HunkMeanings(ShownHunks(d), 0) == [h];
        assert [h][1..] == [];
        assert NewLines([h]) == lines + [] == lines;
      } else {
        assert HunkMeanings(ShownHunks(d), 0) == [];
      }
  }

  lemma {:induction false} SettleRaws(ds: seq<FileDiff>, k: nat)
    requires k <= |ds| && AllPrintable(ds)
    ensures SettleAll(Raws(ds, k)) == Ok(Meanings(ds, k))
    decreases |ds| - k
  {
    hide Settle, Raw, Meaning, Printable;
    if k < |ds| {
      SettleRaw(ds[k]);
      SettleRaws(ds, k + 1);
      assert Raws(ds, k)[0] == Raw(ds[k]) && Raws(ds, k)[1..] == Raws(ds, k + 1);
    }
  }

  // ---- The printed text ----

  lemma BodyLineClean(b: BodyLine)
    requires PrintableLine(b)
    ensures NoNewline(PrintBody(b))
  {
  }

  lemma PrintHunkClean(h: DiffHunk)
    requires PrintableHunk(h)
    ensures NoNewlines(PrintHunk(h))
  {
    hide HunkHeader, PrintBody, NoNewline, PrintableLine;
    HeaderLineShape(h);
    var p := PrintHunk(h);
    assert NoNewline(p[0]);
    hide PrintHunk;
    forall j | 0 < j < |p| ensures NoNewline(p[j]) {
      PrintedLine(h, j - 1);
      BodyLineClean(h.body[j - 1]);
    }
  }

  lemma {:induction false} PrintHunksClean(hs: seq<DiffHunk>, k: nat)
    requires k <= |hs| && PrintableHunks(hs)
    ensures NoNewlines(PrintHunks(hs, k))
    decreases |hs| - k
  {
    hide PrintHunk, PrintableHunk;
    if k < |hs| {
      PrintHunkClean(hs[k]);
      PrintHunksClean(hs, k + 1);
      HunkNotesClean(hs[k]);
      NoNewlinesConcat(PrintHunk(hs[k]), hs[k].notes);
      NoNewlinesConcat(PrintHunk(hs[k]) + hs[k].notes, PrintHunks(hs, k + 1));
    }
  }

  lemma NotesClean(notes: seq<string>)
    requires PlainNotes(notes)
    ensures NoNewlines(notes)
  {
  }

  lemma HunkNotesClean(h: DiffHunk)
    requires PrintableHunk(h)
    ensures NoNewlines(h.notes)
  {
    NotesClean(h.notes);
  }

  lemma HeaderClean(d: FileDiff)
    requires Printable(d)
    ensures NoNewlines(PrintHeader(d)) && NoNewlines(d.margin.lead) && NoNewlines(d.margin.notes)
  {
    hide ShownHunks, PrintableHunks, PlainNote;
    assert NoNewline(DEV_NULL);
    NotesClean(d.margin.lead);
    NotesClean(d.margin.notes);
  }

  lemma NoNewlinesConcat(a: seq<string>, b: seq<string>)
    requires NoNewlines(a) && NoNewlines(b)
    ensures NoNewlines(a + b)
  {
  }

  lemma {:induction false} PrintFilesClean(ds: seq<FileDiff>, k: nat)
    requires k <= |ds| && AllPrintable(ds)
    ensures NoNewlines(PrintFiles(ds, k))
    decreases |ds| - k
  {
    assert NoNewlines([]);
    hide PrintHunks, ShownHunks, PrintableHunks, PrintHeader, NoNewlines, PrintableMargin;
    if k < |ds| {
      var d := ds[k];
      PrintFilesClean(ds, k + 1);
      PrintHunksClean(ShownHunks(d), 0);
      HeaderClean(d);
      var rest := d.margin.notes + PrintHunks(ShownHunks(d), 0);
      NoNewlinesConcat(d.margin.notes, PrintHunks(ShownHunks(d), 0));
      NoNewlinesConcat(PrintHeader(d), rest);
      NoNewlinesConcat(d.margin.lead, PrintHeader(d) + rest);
      NoNewlinesConcat(PrintFile(d), PrintFiles(ds, k + 1));
    }
  }

  lemma SplitOfPrint(ds: seq<FileDiff>)
    requires AllPrintable(ds)
    ensures Split(Print(ds)) == PrintFiles(ds, 0) + [""]
  {
    hide PrintFiles, Printable;
    PrintFilesClean(ds, 0);
    NoNewlinesConcat(PrintFiles(ds, 0), [""]);
    SplitOfJoin(PrintFiles(ds, 0) + [""]);
  }

  lemma ParseOfPrint(ds: seq<FileDiff>)
    requires ds != [] && AllPrintable(ds) && Unambiguous(ds)
    ensures ParseUnified(Print(ds)) == Ok(Meanings(ds, 0))
  {
    hide Printable, NoFalseHeaders, PrintFiles, Print, Meaning, Raw;
    var lines := PrintFiles(ds, 0) + [""];
    SplitOfPrint(ds);
    assert lines[0..0 + |lines|] == lines;
    ParseFiles(lines, 0, ds, 0, START);
    assert [] + Raws(ds, 0) == Raws(ds, 0);
    SettleRaws(ds, 0);
  }

  // ---- False headers ----

  // How many file headers a scan of the lines from i on meets.
  ghost function Headers(lines: seq<string>, i: nat): nat
    decreases |lines| - i
  {
    if i >= |lines| then 0
    else if IsFileHeader(lines, i) then 1 + Headers(lines, i + 2)
    else Headers(lines, i + 1)
  }

  // Every header met becomes one file patch.
  lemma {:induction false} OnePatchPerHeader(lines: seq<string>, i: nat, st: ParseState)
    requires st.hunk.Some? ==> st.cur.Some?
    ensures var r := ParseFrom(lines, i, st);
            r.Ok? ==> |r.value.patches| == |Flush(st).patches| + Headers(lines, i)
    decreases |lines| - i
  {
    hide MatchHunkHeader, FileHeader, DiffPath, Atoi, CloseHunk;
    if i < |lines| {
      if IsFileHeader(lines, i) {
        var fp := FileHeader(DiffPath(lines[i][4..], "a/"), DiffPath(lines[i + 1][4..], "b/"));
        if fp.Some? {
          OnePatchPerHeader(lines, i + 2, Flush(st).(cur := Some(fp.value)));
        }
      } else if "@@" <= lines[i] {
        var m := MatchHunkHeader(lines[i]);
        if st.cur.Some? && m.Some? {
          OnePatchPerHeader(lines, i + 1, OpenHunk(st, Hunk("", Max(Atoi(m.value) - 1, 0), [], [])));
        }
      } else {
        OnePatchPerHeader(lines, i + 1, PlainLine(st, lines[i], i == |lines| - 1));
      }
    }
  }

  ghost predicate FalseAfter(body: seq<BodyLine>, k: nat) {
    exists j: nat :: k <= j < |body| && LooksLikeHeader(body, j)
  }

  lemma FalseHeaderPair(body: seq<BodyLine>, k: nat)
    requires k < |body|
    ensures LooksLikeHeader(body, k) ==> k + 1 < |body|
  {
  }

  lemma {:induction false} HeadersInBody(lines: seq<string>, base: nat, body: seq<BodyLine>, k: nat)
    requires k <= |body| && BodyAt(lines, base, body) && Fences(lines, base + |body|)
    ensures Headers(lines, base + k) >= Headers(lines, base + |body|) + if FalseAfter(body, k) then 1 else 0
    decreases |body| - k
  {
    hide PrintBody, LooksLikeHeader, IsFileHeader;
    if k < |body| {
      BodyHeader(lines, base, body, k);
      FalseHeaderPair(body, k);
      if LooksLikeHeader(body, k) {
        HeadersInBody(lines, base, body, k + 2);
        assert Headers(lines, base + k) == 1 + Headers(lines, base + k + 2);
      } else {
        HeadersInBody(lines, base, body, k + 1);
        assert FalseAfter(body, k) ==> FalseAfter(body, k + 1);
      }
    }
  }

  lemma {:induction false} HeadersInNotes(lines: seq<string>, base: nat, notes: seq<string>)
    requires PlainNotes(notes) && At(lines, base, notes)
    ensures Headers(lines, base) == Headers(lines, base + |notes|)
    decreases |notes|
  {
    hide PlainNote;
    if notes != [] {
      var l := notes[0];
      assert notes == [l] + notes[1..];
      AtConcat(lines, base, [l], notes[1..]);
      assert lines[base] == lines[base..base + 1][0] == l;
      NoteStart(l);
      HeadersInNotes(lines, base + 1, notes[1..]);
    }
  }

  lemma HeadersInHunk(lines: seq<string>, i: nat, h: DiffHunk)
    requires At(lines, i, PrintHunk(h)) && Fences(lines, i + |PrintHunk(h)|)
    ensures Headers(lines, i) >= Headers(lines, i + |PrintHunk(h)|) + if !NoFalseHeader(h) then 1 else 0
  {
    hide HunkHeader, LooksLikeHeader;
    HunkChunk(lines, i, h);
    HeaderLineShape(h);
    assert Headers(lines, i) == Headers(lines, i + 1);
    HeadersInBody(lines, i + 1, h.body, 0);
    assert !NoFalseHeader(h) ==> FalseAfter(h.body, 0);
  }

  ghost predicate FalseInHunks(hs: seq<DiffHunk>, k: nat) {
    exists j: nat :: k <= j < |hs| && !NoFalseHeader(hs[j])
  }

  lemma {:induction false} HeadersInHunks(lines: seq<string>, i: nat, hs: seq<DiffHunk>, k: nat)
    requires k <= |hs| && PrintableHunks(hs)
    requires At(lines, i, PrintHunks(hs, k)) && Fences(lines, i + |PrintHunks(hs, k)|)
    ensures Headers(lines, i) >= Headers(lines, i + |PrintHunks(hs, k)|) + if FalseInHunks(hs, k) then 1 else 0
    decreases |hs| - k
  {
    hide PrintHunk, Headers, NoFalseHeader, At, Fences;
    if k < |hs| {
      var h := hs[k];
      HunkParts(lines, i, hs, k);
      HunkFences(lines, i, hs, k);
      assert PrintableHunk(h);
      HeadersInHunk(lines, i, h);
      HeadersInNotes(lines, i + |PrintHunk(h)|, h.notes);
      HeadersInHunks(lines, i + |PrintHunk(h)| + |h.notes|, hs, k + 1);
      assert FalseInHunks(hs, k) ==> !NoFalseHeader(h) || FalseInHunks(hs, k + 1);
    }
  }

  ghost predicate FalseInFiles(ds: seq<FileDiff>, k: nat) {
    exists j: nat :: k <= j < |ds| && !NoFalseHeaders(ShownHunks(ds[j]))
  }

  lemma HeadersInFile(lines: seq<string>, i: nat, d: FileDiff)
    requires Printable(d) && At(lines, i, PrintFile(d)) && Fences(lines, i + |PrintFile(d)|)
    ensures Headers(lines, i) >=
            Headers(lines, i + |PrintFile(d)|) + if NoFalseHeaders(ShownHunks(d)) then 1 else 2
  {
    hide PrintHunks, ShownHunks, NoFalseHeader, ParseFrom, IsFileHeader, PrintFile, At, Fences, PrintHeader, Headers;
    hide PlainNote, PrintablePath, PrintableHunk;
    var hs, lead, notes := ShownHunks(d), d.margin.lead, d.margin.notes;
    FileParts(lines, i, d);
    HeadersInNotes(lines, i, lead);
    FileHeaderParses(lines, i + |lead|, d, START);
    OneHeader(lines, i + |lead|);
    HeadersInNotes(lines, i + |lead| + 2, notes);
    HeadersInHunks(lines, i + |lead| + 2 + |notes|, hs, 0);
    assert !NoFalseHeaders(hs) ==> FalseInHunks(hs, 0);
  }

  lemma OneHeader(lines: seq<string>, i: nat)
    requires i < |lines| && IsFileHeader(lines, i)
    ensures Headers(lines, i) == 1 + Headers(lines, i + 2)
  {
  }

  lemma {:induction false} HeadersInFiles(lines: seq<string>, i: nat, ds: seq<FileDiff>, k: nat)
    requires k <= |ds| && AllPrintable(ds) && At(lines, i, PrintFiles(ds, k) + [""])
    ensures Headers(lines, i) >= |ds| - k + if FalseInFiles(ds, k) then 1 else 0
    decreases |ds| - k
  {
    hide PrintFile, ShownHunks, Printable, NoFalseHeaders, Headers;
    if k < |ds| {
      FirstFile(lines, i, ds, k);
      HeadersInFile(lines, i, ds[k]);
      HeadersInFiles(lines, i + |PrintFile(ds[k])|, ds, k + 1);
      assert FalseInFiles(ds, k) ==> !NoFalseHeaders(ShownHunks(ds[k])) || FalseInFiles(ds, k + 1);
    }
  }

  lemma FalseHeadersAddPatches(ds: seq<FileDiff>)
    requires ds != [] && AllPrintable(ds) && !Unambiguous(ds)
    ensures var r := ParseUnified(Print(ds)); r.Ok? ==> |r.value| > |ds|
  {
    hide Printable, NoFalseHeaders, PrintFiles, Print, ParseFrom, Settle;
    var lines := PrintFiles(ds, 0) + [""];
    SplitOfPrint(ds);
    assert lines[0..0 + |lines|] == lines;
    OnePatchPerHeader(lines, 0, START);
    HeadersInFiles(lines, 0, ds, 0);
    assert FalseInFiles(ds, 0);
  }

  // Printing any list of file diffs and parsing the text gives exactly what the diffs mean,
  // if and only if no removed line starting "-- " is directly followed by an added line
  // starting "++ " (which together read as the header of another file).
  lemma PrintParseRoundTrip(ds: seq<FileDiff>)
    requires ds != [] && AllPrintable(ds)
    requires !HasCRLF(Print(ds)) && !Contains(Print(ds), BEGIN_PATCH)
    ensures ParsePatch(Print(ds)) == Ok(Meanings(ds, 0)) <==> Unambiguous(ds)
  {
    hide Printable, NoFalseHeaders, Print, ParseUnified, HasCRLF, Contains, Meaning;
    if Unambiguous(ds) {
      ParseOfPrint(ds);
    } else {
      FalseHeadersAddPatches(ds);
    }
  }
}
