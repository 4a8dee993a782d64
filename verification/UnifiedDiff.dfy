/** The unified-diff parser (internal/tools/patch.go), and a printer it inverts.
    The printed form is the "Diff -u or -U Output Format" of diff in POSIX.1-2017. */
module UnifiedDiff {
  import opened Results
  import opened GoStrings
  import opened PatchEngine

  datatype PatchOp = Update | Add | Delete

  datatype FilePatch = FilePatch(op: PatchOp, path: string, moveTo: string, hunks: seq<Hunk>, content: string)

  datatype ParseError =
    | BothNull(line: nat)
    | HunkBeforeHeader(line: nat)
    | MalformedHeader(line: nat)
    | NoChanges
    | NoHunks(path: string)
    | BeginPatchFormat

  const DEV_NULL: string := "/dev/null"
  const BEGIN_PATCH: string := "*** Begin Patch"
  const MAX_INT: nat := 0x7fff_ffff_ffff_ffff

  // ---- Header lines ----

  predicate IsDigit(c: char) {
    '0' <= c <= '9'
  }

  function LeadingDigits(s: string): (n: nat)
    ensures n <= |s|
  {
    if s != "" && IsDigit(s[0]) then 1 + LeadingDigits(s[1..]) else 0
  }

  function DigitValue(c: char): nat
    requires IsDigit(c)
  {
    (c - '0') as nat
  }

  predicate AllDigits(s: string) {
    forall i | 0 <= i < |s| :: IsDigit(s[i])
  }

  lemma {:induction false} LeadingAreDigits(s: string)
    ensures AllDigits(s[..LeadingDigits(s)])
  {
    if s != "" && IsDigit(s[0]) {
      LeadingAreDigits(s[1..]);
      var n := LeadingDigits(s[1..]);
      assert s[..n + 1] == [s[0]] + s[1..][..n];
    }
  }

  function Value(s: string): nat
    requires AllDigits(s)
  {
    if s == "" then 0 else 10 * Value(s[..|s| - 1]) + DigitValue(s[|s| - 1])
  }

  // strconv.Atoi with its error dropped: out of range gives the largest int.
  function Atoi(s: string): int
    requires AllDigits(s)
  {
    Min(Value(s), MAX_INT)
  }

  // The optional ",count" of a range.
  function SkipCount(s: string): string {
    if s != "" && s[0] == ',' && LeadingDigits(s[1..]) > 0 then s[1 + LeadingDigits(s[1..])..] else s
  }

  // The first number of "@@ -l,s +l,s @@", or None when the line has another form.
  function MatchHunkHeader(line: string): (r: Option<string>)
    ensures r.Some? ==> AllDigits(r.value)
  {
    if !("@@ -" <= line) then None
    else
      var r0 := line[4..];
      var n0 := LeadingDigits(r0);
      LeadingAreDigits(r0);
      if n0 == 0 then None
      else
        var r1 := SkipCount(r0[n0..]);
        if !(" +" <= r1) then None
        else
          var r2 := r1[2..];
          var n2 := LeadingDigits(r2);
          if n2 == 0 then None
          else if " @@" <= SkipCount(r2[n2..]) then Some(r0[..n0])
          else None
  }

  function BeforeTab(s: string): string {
    if s == "" || s[0] == '\t' then "" else [s[0]] + BeforeTab(s[1..])
  }

  function DiffPath(s: string, prefix: string): string {
    var t := TrimSpace(BeforeTab(s));
    if t == DEV_NULL then t else TrimPrefix(t, prefix)
  }

  // ---- The parser ----

  // The parser's variables between lines: finished patches, the open one and its open hunk.
  datatype ParseState = ParseState(patches: seq<FilePatch>, cur: Option<FilePatch>, hunk: Option<Hunk>)

  predicate IsFileHeader(lines: seq<string>, i: nat)
    requires i < |lines|
  {
    "--- " <= lines[i] && i + 1 < |lines| && "+++ " <= lines[i + 1]
  }

  function CloseHunk(fp: FilePatch, hunk: Option<Hunk>): FilePatch {
    if hunk.Some? then fp.(hunks := fp.hunks + [hunk.value]) else fp
  }

  function Flush(st: ParseState): ParseState {
    if st.cur.Some? then ParseState(st.patches + [CloseHunk(st.cur.value, st.hunk)], None, None) else st
  }

  function FileHeader(oldPath: string, newPath: string): Option<FilePatch> {
    if oldPath == DEV_NULL && newPath == DEV_NULL then None
    else if oldPath == DEV_NULL then Some(FilePatch(Add, newPath, "", [], ""))
    else if newPath == DEV_NULL then Some(FilePatch(Delete, oldPath, "", [], ""))
    else Some(FilePatch(Update, oldPath, if newPath != oldPath then newPath else "", [], ""))
  }

  function OpenHunk(st: ParseState, h: Hunk): ParseState
    requires st.cur.Some?
  {
    st.(cur := Some(CloseHunk(st.cur.value, st.hunk)), hunk := Some(h))
  }

  // One body, metadata or prose line.
  function PlainLine(st: ParseState, line: string, last: bool): ParseState
    requires st.hunk.Some? ==> st.cur.Some?
  {
    if st.hunk.None? then st
    else
      var h := st.hunk.value;
      if "\\" <= line then st
      else if " " <= line || line == "" then
        if line == "" && last then st
        else
          var c := TrimPrefix(line, " ");
          st.(hunk := Some(h.(oldSide := h.oldSide + [c], newSide := h.newSide + [c])))
      else if "-" <= line then st.(hunk := Some(h.(oldSide := h.oldSide + [line[1..]])))
      else if "+" <= line then st.(hunk := Some(h.(newSide := h.newSide + [line[1..]])))
      else st.(cur := Some(CloseHunk(st.cur.value, st.hunk)), hunk := None)
  }

  function ParseFrom(lines: seq<string>, i: nat, st: ParseState): Result<ParseState, ParseError>
    requires st.hunk.Some? ==> st.cur.Some?
    decreases |lines| - i
  {
    if i >= |lines| then Ok(Flush(st))
    else if IsFileHeader(lines, i) then
      match FileHeader(DiffPath(lines[i][4..], "a/"), DiffPath(lines[i + 1][4..], "b/"))
      case None => Err(BothNull(i + 1))
      case Some(fp) => ParseFrom(lines, i + 2, Flush(st).(cur := Some(fp)))
    else if "@@" <= lines[i] then
      if st.cur.None? then Err(HunkBeforeHeader(i + 1))
      else
        match MatchHunkHeader(lines[i])
        case None => Err(MalformedHeader(i + 1))
        case Some(digits) => ParseFrom(lines, i + 1, OpenHunk(st, Hunk("", Max(Atoi(digits) - 1, 0), [], [])))
    else
      ParseFrom(lines, i + 1, PlainLine(st, lines[i], i == |lines| - 1))
  }

  function NewLines(hunks: seq<Hunk>): seq<string> {
    if hunks == [] then [] else hunks[0].newSide + NewLines(hunks[1..])
  }

  function Settle(p: FilePatch): Result<FilePatch, ParseError> {
    if p.op == Add then Ok(p.(content := JoinLines(NewLines(p.hunks), true), hunks := []))
    else if p.op == Update && p.hunks == [] && p.moveTo == "" then Err(NoHunks(p.path))
    else Ok(p)
  }

  function SettleAll(ps: seq<FilePatch>): (r: Result<seq<FilePatch>, ParseError>)
    ensures r.Ok? ==> |r.value| == |ps|
  {
    if ps == [] then Ok([])
    else
      match Settle(ps[0])
      case Err(e) => Err(e)
      case Ok(p) =>
        match SettleAll(ps[1..])
        case Err(e) => Err(e)
        case Ok(rest) => Ok([p] + rest)
  }

  const START: ParseState := ParseState([], None, None)

  function ParseUnified(text: string): Result<seq<FilePatch>, ParseError> {
    match ParseFrom(Split(text), 0, START)
    case Err(e) => Err(e)
    case Ok(st) => if st.patches == [] then Err(NoChanges) else SettleAll(st.patches)
  }

  // The entry point; the other patch format is not part of this model.
  function ParsePatch(text: string): Result<seq<FilePatch>, ParseError> {
    var t := ToLF(text);
    if Contains(t, BEGIN_PATCH) then Err(BeginPatchFormat) else ParseUnified(t)
  }

  method ScanLines(lines: seq<string>) returns (r: Result<seq<FilePatch>, ParseError>)
    ensures r == match ParseFrom(lines, 0, START) { case Err(e) => Err(e) case Ok(st) => Ok(st.patches) }
  {
    hide MatchHunkHeader, DiffPath, Atoi;
    var st := START;
    var i := 0;
    while i < |lines|
      invariant st.hunk.Some? ==> st.cur.Some?
      invariant ParseFrom(lines, 0, START) == ParseFrom(lines, i, st)
    {
      var line := lines[i];
      if "--- " <= line && i + 1 < |lines| && "+++ " <= lines[i + 1] {
        st := Flush(st);
        var oldPath := DiffPath(line[4..], "a/");
        var newPath := DiffPath(lines[i + 1][4..], "b/");
        var fp := FileHeader(oldPath, newPath);
        i := i + 1;
        if fp.None? {
          return Err(BothNull(i));
        }
        st := st.(cur := fp);
      } else if "@@" <= line {
        if st.cur.None? {
          return Err(HunkBeforeHeader(i + 1));
        }
        var m := MatchHunkHeader(line);
        if m.None? {
          return Err(MalformedHeader(i + 1));
        }
        var start := Atoi(m.value);
        st := OpenHunk(st, Hunk("", Max(start - 1, 0), [], []));
      } else {
        st := PlainLine(st, line, i == |lines| - 1);
      }
      i := i + 1;
    }
    return Ok(Flush(st).patches);
  }

  method Parse(text: string) returns (r: Result<seq<FilePatch>, ParseError>)
    ensures r == ParseUnified(text)
  {
    hide ParseFrom, Settle;
    var scanned := ScanLines(Split(text));
    if scanned.Err? {
      return Err(scanned.error);
    }
    var patches := scanned.value;
    if patches == [] {
      return Err(NoChanges);
    }
    ghost var before := patches;
    var k := 0;
    assert before[0..] == before;
    PrependNothing(SettleAll(before));
    while k < |patches|
      invariant 0 <= k <= |patches| == |before|
      invariant patches[k..] == before[k..]
      invariant SettleAll(before) == Prepend(patches[..k], SettleAll(before[k..]))
    {
      var p := Settle(patches[k]);
      assert before[k] == patches[k] by { assert patches[k..][0] == before[k..][0]; }
      SettleStep(before, patches[..k], k);
      if p.Err? {
        return Err(p.error);
      }
      assert patches[..k] + [p.value] == patches[k := p.value][..k + 1];
      assert patches[k + 1..] == before[k + 1..] by { assert patches[k..][1..] == before[k..][1..]; }
      patches := patches[k := p.value];
      k := k + 1;
    }
    assert patches[..k] + [] == patches;
    return Ok(patches);
  }

  ghost function Prepend(done: seq<FilePatch>, r: Result<seq<FilePatch>, ParseError>): Result<seq<FilePatch>,
                         ParseError> {
    if r.Ok? then Ok(done + r.value) else r
  }

  lemma PrependNothing(r: Result<seq<FilePatch>, ParseError>)
    ensures Prepend([], r) == r
  {
    if r.Ok? {
      assert [] + r.value == r.value;
    }
  }

  lemma SettleStep(ps: seq<FilePatch>, done: seq<FilePatch>, k: nat)
    requires k < |ps|
    ensures Prepend(done, SettleAll(ps[k..])) ==
            match Settle(ps[k]) { case Err(e) => Err(e) case Ok(p) => Prepend(done + [p], SettleAll(ps[k + 1..])) }
  {
    assert ps[k..][0] == ps[k] && ps[k..][1..] == ps[k + 1..];
    var p := Settle(ps[k]);
    if p.Ok? && SettleAll(ps[k + 1..]).Ok? {
      assert done + ([p.value] + SettleAll(ps[k + 1..]).value) == done + [p.value] + SettleAll(ps[k + 1..]).value;
    }
  }

  // ---- The printer ----

  // A line of a hunk as a diff shows it. Bare is an empty context line shown without its leading
  // space; Marker is a line that begins with a backslash, as the one does that says a final newline is missing.
  datatype BodyLine = Context(text: string) | Bare | Removed(text: string) | Added(text: string) | Marker(text: string)

  // start is the 0-based line the hunk is at. newStart, the text after the header's second "@@" and the lines that
  // follow the body, none of them a diff's own, are only shown.
  datatype DiffHunk = DiffHunk(start: nat, newStart: nat, body: seq<BodyLine>, heading: string, notes: seq<string>)

  // What else is shown of a file: lines before its header and after it, and what follows the tabs in it.
  datatype Margin = Margin(lead: seq<string>, oldStamp: string, newStamp: string, notes: seq<string>)

  datatype FileDiff =
    | EditFile(path: string, moveTo: string, hunks: seq<DiffHunk>, margin: Margin)
    | CreateFile(path: string, lines: seq<string>, margin: Margin, notes: seq<string>)
    | DeleteFile(path: string, hunks: seq<DiffHunk>, margin: Margin)

  // What a line shows of the old file, and of the new one.
  function OldPart(b: BodyLine): seq<string> {
    match b
    case Context(t) => [t]
    case Bare => [""]
    case Removed(t) => [t]
    case _ => []
  }

  function NewPart(b: BodyLine): seq<string> {
    match b
    case Context(t) => [t]
    case Bare => [""]
    case Added(t) => [t]
    case _ => []
  }

  function OldSide(body: seq<BodyLine>, k: nat): seq<string>
    decreases |body| - k
  {
    if k >= |body| then [] else OldPart(body[k]) + OldSide(body, k + 1)
  }

  function NewSide(body: seq<BodyLine>, k: nat): seq<string>
    decreases |body| - k
  {
    if k >= |body| then [] else NewPart(body[k]) + NewSide(body, k + 1)
  }

  // What a hunk means to the patch engine. A hunk with an empty old side is read one line
  // early, because its header names the line before it.
  function HunkMeaning(h: DiffHunk): Hunk {
    var oldLines := OldSide(h.body, 0);
    Hunk("", if oldLines == [] then Max(h.start - 1, 0) else h.start, oldLines, NewSide(h.body, 0))
  }

  function HunkMeanings(hs: seq<DiffHunk>, k: nat): (r: seq<Hunk>)
    requires k <= |hs|
    ensures |r| == |hs| - k
    decreases |hs| - k
  {
    if k == |hs| then [] else [HunkMeaning(hs[k])] + HunkMeanings(hs, k + 1)
  }

  function Meaning(d: FileDiff): FilePatch {
    match d
    case EditFile(path, moveTo, hs, _) => FilePatch(Update, path, moveTo, HunkMeanings(hs, 0), "")
    case CreateFile(path, lines, _, _) => FilePatch(Add, path, "", [], JoinLines(lines, true))
    case DeleteFile(path, hs, _) => FilePatch(Delete, path, "", HunkMeanings(hs, 0), "")
  }

  function Meanings(ds: seq<FileDiff>, k: nat): (r: seq<FilePatch>)
    requires k <= |ds|
    ensures |r| == |ds| - k
    decreases |ds| - k
  {
    if k == |ds| then [] else [Meaning(ds[k])] + Meanings(ds, k + 1)
  }

  function Digit(d: nat): (c: char)
    requires d < 10
    ensures IsDigit(c) && DigitValue(c) == d
  {
    '0' + d as char
  }

  function Decimal(n: nat): (s: string)
    ensures s != "" && AllDigits(s) && Value(s) == n
  {
    if n < 10 then [Digit(n)] else Decimal(n / 10) + [Digit(n % 10)]
  }

  function PrintBody(b: BodyLine): string {
    match b
    case Context(t) => " " + t
    case Bare => ""
    case Removed(t) => "-" + t
    case Added(t) => "+" + t
    case Marker(s) => "\\" + s
  }

  // A count of one is left out.
  function PrintCount(count: nat): string {
    if count == 1 then "" else "," + Decimal(count)
  }

  function PrintRange(start: nat, count: nat): string {
    Decimal(start) + PrintCount(count)
  }

  function PrintHunkHeader(start: nat, oldCount: nat, newStart: nat, newCount: nat): string {
    "@@ -" + PrintRange(start, oldCount) + " +" + PrintRange(newStart, newCount) + " @@"
  }

  function HunkStart(h: DiffHunk): nat {
    if OldSide(h.body, 0) == [] then h.start else h.start + 1
  }

  function HunkHeader(h: DiffHunk): string {
    PrintHunkHeader(HunkStart(h), |OldSide(h.body, 0)|, h.newStart, |NewSide(h.body, 0)|) + h.heading
  }

  function PrintHunk(h: DiffHunk): (r: seq<string>)
    ensures |r| == |h.body| + 1
  {
    [HunkHeader(h)] + seq(|h.body|, k requires 0 <= k < |h.body| => PrintBody(h.body[k]))
  }

  function PrintHunks(hs: seq<DiffHunk>, k: nat): seq<string>
    decreases |hs| - k
  {
    if k >= |hs| then [] else PrintHunk(hs[k]) + hs[k].notes + PrintHunks(hs, k + 1)
  }

  function AddedLines(lines: seq<string>): (r: seq<BodyLine>)
    ensures |r| == |lines| && forall k | 0 <= k < |lines| :: r[k] == Added(lines[k])
  {
    seq(|lines|, k requires 0 <= k < |lines| => Added(lines[k]))
  }

  // The hunks a file diff is shown with: a new file is one insertion, or none when empty.
  function ShownHunks(d: FileDiff): seq<DiffHunk> {
    match d
    case EditFile(_, _, hs, _) => hs
    case DeleteFile(_, hs, _) => hs
    case CreateFile(_, lines, _, notes) => if lines == [] then [] else [DiffHunk(0, 1, AddedLines(lines), "", notes)]
  }

  function OldName(d: FileDiff): string {
    if d.CreateFile? then DEV_NULL else "a/" + d.path
  }

  function NewName(d: FileDiff): string {
    if d.DeleteFile? then DEV_NULL
    else if d.EditFile? && d.moveTo != "" then "b/" + d.moveTo
    else "b/" + d.path
  }

  function PrintHeader(d: FileDiff): (r: seq<string>)
    ensures |r| == 2
  {
    ["--- " + (OldName(d) + d.margin.oldStamp), "+++ " + (NewName(d) + d.margin.newStamp)]
  }

  function PrintFile(d: FileDiff): seq<string> {
    d.margin.lead + (PrintHeader(d) + (d.margin.notes + PrintHunks(ShownHunks(d), 0)))
  }

  function PrintFiles(ds: seq<FileDiff>, k: nat): seq<string>
    decreases |ds| - k
  {
    if k >= |ds| then [] else PrintFile(ds[k]) + PrintFiles(ds, k + 1)
  }

  function Print(ds: seq<FileDiff>): string {
    Join(PrintFiles(ds, 0) + [""])
  }

  // ---- What can be printed ----

  predicate PrintablePath(p: string) {
    && NoNewline(p)
    && '\t' !in p
    && (p != "" ==> !IsSpace(p[|p| - 1]))
    && p != DEV_NULL
  }

  predicate PrintableLine(b: BodyLine) {
    b.Bare? || NoNewline(b.text)
  }

  // Metadata or prose: no line that a diff has a meaning for.
  predicate PlainNote(l: string) {
    l != "" && NoNewline(l) && l[0] !in " +-\\" && !("@@" <= l)
  }

  predicate PlainNotes(ls: seq<string>) {
    forall k | 0 <= k < |ls| :: PlainNote(ls[k])
  }

  // Nothing, or what a tab sets off.
  predicate Stamp(s: string) {
    NoNewline(s) && (s != "" ==> s[0] == '\t')
  }

  predicate PrintableMargin(m: Margin) {
    PlainNotes(m.lead) && PlainNotes(m.notes) && Stamp(m.oldStamp) && Stamp(m.newStamp)
  }

  predicate PrintableHunk(h: DiffHunk) {
    && h.start < MAX_INT && NoNewline(h.heading) && PlainNotes(h.notes)
    && forall k | 0 <= k < |h.body| :: PrintableLine(h.body[k])
  }

  predicate PrintableHunks(hs: seq<DiffHunk>) {
    forall k | 0 <= k < |hs| :: PrintableHunk(hs[k])
  }

  predicate Printable(d: FileDiff) {
    && PrintablePath(d.path)
    && PrintableHunks(ShownHunks(d))
    && PrintableMargin(d.margin)
    && match d
       case EditFile(path, moveTo, hs, _) => PrintablePath(moveTo) && moveTo != path && (moveTo != "" || hs != [])
       case CreateFile(_, lines, _, _) => NoNewlines(lines)
       case DeleteFile(_, _, _) => true
  }

  predicate AllPrintable(ds: seq<FileDiff>) {
    forall k | 0 <= k < |ds| :: Printable(ds[k])
  }

  // A removed line and the added line after it that together read as a file header.
  predicate LooksLikeHeader(body: seq<BodyLine>, k: nat)
    requires k < |body|
  {
    body[k].Removed? && "-- " <= body[k].text && k + 1 < |body| && body[k + 1].Added? && "++ " <= body[k + 1].text
  }

  predicate NoFalseHeader(h: DiffHunk) {
    forall k: nat | k < |h.body| :: !LooksLikeHeader(h.body, k)
  }

  predicate NoFalseHeaders(hs: seq<DiffHunk>) {
    forall k | 0 <= k < |hs| :: NoFalseHeader(hs[k])
  }

  predicate Unambiguous(ds: seq<FileDiff>) {
    forall k | 0 <= k < |ds| :: NoFalseHeaders(ShownHunks(ds[k]))
  }
}
