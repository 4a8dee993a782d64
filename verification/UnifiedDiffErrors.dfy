/** When parsing a unified diff fails, and with which error (internal/tools/patch.go). */
module UnifiedDiffErrors {
  import opened Results
  import opened GoStrings
  import opened PatchEngine
  import opened UnifiedDiff
  import opened UnifiedDiffRoundTrip

  // ---- The scan ----

  // A scan that is at line i goes on to: a file header takes two lines.
  function AfterLine(lines: seq<string>, i: nat): nat {
    if i < |lines| && IsFileHeader(lines, i) then i + 2 else i + 1
  }

  // A scan that is at line from comes to line i.
  ghost predicate ComesTo(lines: seq<string>, from: nat, i: nat)
    decreases |lines| - from
  {
    from == i || (from < |lines| && ComesTo(lines, AfterLine(lines, from), i))
  }

  // A file header was met before line i.
  ghost predicate InFile(lines: seq<string>, i: nat) {
    exists j: nat | j < i && j < |lines| :: ComesTo(lines, 0, j) && IsFileHeader(lines, j)
  }

  // What is wrong with line i: a header that names no file on either side, or a hunk before any header, or one whose
  // own header has another form.
  ghost predicate Trouble(lines: seq<string>, i: nat, e: ParseError)
    requires i < |lines|
  {
    if IsFileHeader(lines, i) then
      DiffPath(lines[i][4..], "a/") == DiffPath(lines[i + 1][4..], "b/") == DEV_NULL && e == BothNull(i + 1)
    else
      && "@@" <= lines[i]
      && if InFile(lines, i) then MatchHunkHeader(lines[i]).None? && e == MalformedHeader(i + 1)
         else e == HunkBeforeHeader(i + 1)
  }

  ghost predicate NoTrouble(lines: seq<string>, i: nat)
    requires i < |lines|
  {
    forall e :: !Trouble(lines, i, e)
  }

  // From a line on, the first line in trouble.
  ghost predicate FirstTrouble(lines: seq<string>, from: nat, i: nat, e: ParseError) {
    && i < |lines| && ComesTo(lines, from, i) && Trouble(lines, i, e)
    && forall j: nat | j < i && ComesTo(lines, from, j) :: NoTrouble(lines, j)
  }

  lemma {:induction false} ComesOn(lines: seq<string>, from: nat, i: nat)
    requires i < |lines| && ComesTo(lines, from, i)
    ensures ComesTo(lines, from, AfterLine(lines, i))
    decreases |lines| - from
  {
    hide IsFileHeader;
    if from != i {
      ComesOn(lines, AfterLine(lines, from), i);
    }
  }

  lemma {:induction false} ComesForward(lines: seq<string>, from: nat, i: nat)
    requires ComesTo(lines, from, i)
    ensures from <= i
    decreases |lines| - from
  {
    hide IsFileHeader;
    if from != i {
      ComesForward(lines, AfterLine(lines, from), i);
    }
  }

  // A header was met before the next line exactly when one was before this one or this is one.
  lemma InFileNext(lines: seq<string>, i: nat)
    requires i < |lines| && ComesTo(lines, 0, i)
    ensures InFile(lines, AfterLine(lines, i)) <==> InFile(lines, i) || IsFileHeader(lines, i)
  {
    hide IsFileHeader;
    ComesOn(lines, 0, i);
    if InFile(lines, AfterLine(lines, i)) && !InFile(lines, i) {
      var j: nat :| j < AfterLine(lines, i) && j < |lines| && ComesTo(lines, 0, j) && IsFileHeader(lines, j);
      if j == i + 1 {
        NotBetween(lines, 0, i, j);
      }
    }
  }

  // The scan does not come to the second line of a header it met.
  lemma {:induction false} NotBetween(lines: seq<string>, from: nat, i: nat, j: nat)
    requires i < |lines| && i < j < AfterLine(lines, i) && ComesTo(lines, from, i)
    ensures !ComesTo(lines, from, j)
    decreases |lines| - from
  {
    hide IsFileHeader;
    ComesForward(lines, from, i);
    if from != i {
      ComesForward(lines, AfterLine(lines, from), i);
      NotBetween(lines, AfterLine(lines, from), i, j);
    } else if ComesTo(lines, from, j) {
      ComesForward(lines, AfterLine(lines, i), j);
    }
  }

  // One step on, the first trouble is the same, if this line is in none.
  lemma TroubleStaysFirst(lines: seq<string>, from: nat, i: nat, e: ParseError)
    requires from < |lines| && NoTrouble(lines, from) && FirstTrouble(lines, AfterLine(lines, from), i, e)
    ensures FirstTrouble(lines, from, i, e)
  {
    hide Trouble, IsFileHeader, NoTrouble;
    forall j: nat | j < i && ComesTo(lines, from, j) ensures NoTrouble(lines, j) {
      if j != from {
        assert ComesTo(lines, AfterLine(lines, from), j);
      }
    }
  }

  lemma TroubleHere(lines: seq<string>, i: nat, e: ParseError)
    requires i < |lines| && Trouble(lines, i, e)
    ensures FirstTrouble(lines, i, i, e)
  {
    hide Trouble, NoTrouble;
    forall j: nat ensures ComesTo(lines, i, j) ==> i <= j {
      if ComesTo(lines, i, j) {
        ComesForward(lines, i, j);
      }
    }
  }

  // A scan fails at the first line in trouble, with that trouble's error, and not otherwise.
  lemma {:induction false} ScanFails(lines: seq<string>, from: nat, st: ParseState) returns (at: nat)
    requires (st.hunk.Some? ==> st.cur.Some?) && ComesTo(lines, 0, from) && (st.cur.Some? <==> InFile(lines, from))
    ensures match ParseFrom(lines, from, st)
      case Err(e) => FirstTrouble(lines, from, at, e)
      case Ok(_) => forall j: nat | j < |lines| && ComesTo(lines, from, j) :: NoTrouble(lines, j)
    decreases |lines| - from
  {
    hide DiffPath, MatchHunkHeader, Atoi, IsFileHeader, InFile, FirstTrouble;
    at := from;
    if from >= |lines| {
      forall j: nat ensures ComesTo(lines, from, j) ==> from <= j {
        if ComesTo(lines, from, j) {
          ComesForward(lines, from, j);
        }
      }
    } else {
      InFileNext(lines, from);
      ComesOn(lines, 0, from);
      var next := StepOf(lines, from, st);
      if next.Err? {
        TroubleHere(lines, from, next.error);
      } else {
        at := ScanFails(lines, AfterLine(lines, from), next.value);
        if ParseFrom(lines, from, st).Err? {
          TroubleStaysFirst(lines, from, at, ParseFrom(lines, from, st).error);
        } else {
          forall j: nat | j < |lines| && ComesTo(lines, from, j) ensures NoTrouble(lines, j) {
            if j != from {
              assert ComesTo(lines, AfterLine(lines, from), j);
            }
          }
        }
      }
    }
  }

  // What one line makes of the scan, or what is wrong with it.
  lemma StepOf(lines: seq<string>, i: nat, st: ParseState) returns (r: Result<ParseState, ParseError>)
    requires i < |lines| && (st.hunk.Some? ==> st.cur.Some?) && (st.cur.Some? <==> InFile(lines, i))
    ensures r.Err? ==> Trouble(lines, i, r.error) && ParseFrom(lines, i, st) == Err(r.error)
    ensures r.Ok? ==>
              && NoTrouble(lines, i) && (r.value.hunk.Some? ==> r.value.cur.Some?)
              && (r.value.cur.Some? <==> st.cur.Some? || IsFileHeader(lines, i))
              && ParseFrom(lines, i, st) == ParseFrom(lines, AfterLine(lines, i), r.value)
  {
    hide DiffPath, MatchHunkHeader, Atoi, InFile, CloseHunk;
    if IsFileHeader(lines, i) {
      var fp := FileHeader(DiffPath(lines[i][4..], "a/"), DiffPath(lines[i + 1][4..], "b/"));
      r := if fp.None? then Err(BothNull(i + 1)) else Ok(Flush(st).(cur := fp));
    } else if "@@" <= lines[i] {
      var m := MatchHunkHeader(lines[i]);
      r := if st.cur.None? then Err(HunkBeforeHeader(i + 1))
           else if m.None? then Err(MalformedHeader(i + 1))
           else Ok(OpenHunk(st, Hunk("", Max(Atoi(m.value) - 1, 0), [], [])));
    } else {
      r := Ok(PlainLine(st, lines[i], i == |lines| - 1));
    }
  }

  // ---- The whole parse ----

  lemma {:induction false} NoHeaderNoPatch(lines: seq<string>, i: nat)
    ensures Headers(lines, i) == 0 <==> forall j: nat | i <= j < |lines| :: !IsFileHeader(lines, j)
    decreases |lines| - i
  {
    hide IsFileHeader;
    if i < |lines| && !IsFileHeader(lines, i) {
      NoHeaderNoPatch(lines, i + 1);
    }
  }

  // An update that would change nothing.
  predicate Pointless(p: FilePatch) {
    p.op == Update && p.hunks == [] && p.moveTo == ""
  }

  lemma {:induction false} SettlingFails(ps: seq<FilePatch>) returns (k: nat)
    ensures match SettleAll(ps)
      case Ok(_) => forall i | 0 <= i < |ps| :: !Pointless(ps[i])
      case Err(e) => k < |ps| && Pointless(ps[k]) && e == NoHunks(ps[k].path) &&
                     forall i | 0 <= i < k :: !Pointless(ps[i])
  {
    k := 0;
    if ps != [] && !Pointless(ps[0]) {
      k := SettlingFails(ps[1..]);
      assert forall i | 1 <= i < |ps| :: ps[i] == ps[1..][i - 1];
      k := k + 1;
    }
  }

  // A diff is refused for its first line in trouble; else if no line heads a file; else for its first file with
  // nothing to do; and for nothing else.
  lemma ParseFails(text: string) returns (at: nat)
    ensures var (lines, r) := (Split(text), ParseUnified(text));
      var scan := ParseFrom(lines, 0, START);
      && (scan.Err? <==> exists j: nat | j < |lines| && ComesTo(lines, 0, j) :: !NoTrouble(lines, j))
      && (scan.Err? ==> r == Err(scan.error) && FirstTrouble(lines, 0, at, scan.error))
      && (scan.Ok? ==>
            && (r == Err(NoChanges) <==> forall j: nat | j < |lines| :: !IsFileHeader(lines, j))
            && (r.Ok? <==> (exists j: nat | j < |lines| :: IsFileHeader(lines, j))
                           && forall i | 0 <= i < |scan.value.patches| :: !Pointless(scan.value.patches[i]))
            && (r.Err? && r.error != NoChanges ==>
                  && at < |scan.value.patches| && Pointless(scan.value.patches[at])
                  && r.error == NoHunks(scan.value.patches[at].path)
                  && forall i | 0 <= i < at :: !Pointless(scan.value.patches[i])))
  {
    hide ParseFrom, IsFileHeader, Trouble, Split, Pointless, SettleAll, ComesTo;
    var lines := Split(text);
    assert ComesTo(lines, 0, 0) by { ComesHere(lines, 0); }
    at := ScanFails(lines, 0, START);
    var scan := ParseFrom(lines, 0, START);
    if scan.Ok? {
      OnePatchPerHeader(lines, 0, START);
      NoHeaderNoPatch(lines, 0);
      at := SettlingFails(scan.value.patches);
      SettledIsNoOther(scan.value.patches);
    } else {
      TroubleIsNone(lines, at, scan.error);
    }
  }

  lemma ComesHere(lines: seq<string>, i: nat)
    ensures ComesTo(lines, i, i)
  {
  }

  lemma TroubleIsNone(lines: seq<string>, i: nat, e: ParseError)
    requires i < |lines| && Trouble(lines, i, e)
    ensures !NoTrouble(lines, i)
  {
  }

  lemma {:induction false} SettledIsNoOther(ps: seq<FilePatch>)
    ensures SettleAll(ps) != Err(NoChanges)
  {
    if ps != [] {
      SettledIsNoOther(ps[1..]);
    }
  }

  // Line ends of the other kind make no difference.
  lemma CRLFParses(text: string)
    requires NoCR(text)
    ensures ParsePatch(ToCRLF(text)) == ParsePatch(text)
  {
    hide ParseUnified, Contains;
    ToLFOfToCRLF(text);
    NoCRMeansNoCRLF(text);
  }

  // ---- The newline at the end ----

  lemma LastIsHeaderless(lines: seq<string>, i: nat)
    requires i < |lines|
    ensures IsFileHeader(lines + [""], i) <==> IsFileHeader(lines, i)
  {
  }

  lemma {:induction false} EmptyLineAtTheEnd(lines: seq<string>, i: nat, st: ParseState)
    requires (st.hunk.Some? ==> st.cur.Some?) && lines != [] && lines[|lines| - 1] != "" && i <= |lines|
    ensures ParseFrom(lines + [""], i, st) == ParseFrom(lines, i, st)
    decreases |lines| - i
  {
    hide MatchHunkHeader, DiffPath, FileHeader, Flush, CloseHunk, Atoi, IsFileHeader;
    var more := lines + [""];
    if i == |lines| {
      hide ParseFrom;
      EmptyLastLine(lines, st);
    } else {
      assert more[i] == lines[i];
      LastIsHeaderless(lines, i);
      if IsFileHeader(lines, i) {
        HeaderHasTwo(lines, i);
        assert more[i + 1] == lines[i + 1];
        var fp := FileHeader(DiffPath(lines[i][4..], "a/"), DiffPath(lines[i + 1][4..], "b/"));
        if fp.Some? {
          EmptyLineAtTheEnd(lines, i + 2, Flush(st).(cur := fp));
        }
      } else if "@@" <= lines[i] {
        var digits := MatchHunkHeader(lines[i]);
        if st.cur.Some? && digits.Some? {
          EmptyLineAtTheEnd(lines, i + 1, OpenHunk(st, Hunk("", Max(Atoi(digits.value) - 1, 0), [], [])));
        }
      } else {
        LastOnlyMattersIfEmpty(st, lines[i], i == |lines| - 1, i == |more| - 1);
        EmptyLineAtTheEnd(lines, i + 1, PlainLine(st, lines[i], i == |lines| - 1));
      }
    }
  }

  lemma HeaderHasTwo(lines: seq<string>, i: nat)
    requires i < |lines| && IsFileHeader(lines, i)
    ensures i + 1 < |lines| && |lines[i]| >= 4 && |lines[i + 1]| >= 4
  {
  }

  lemma LastOnlyMattersIfEmpty(st: ParseState, line: string, last: bool, last': bool)
    requires (st.hunk.Some? ==> st.cur.Some?) && (line == "" ==> last == last')
    ensures PlainLine(st, line, last) == PlainLine(st, line, last')
  {
  }

  lemma EmptyLastLine(lines: seq<string>, st: ParseState)
    requires st.hunk.Some? ==> st.cur.Some?
    ensures ParseFrom(lines + [""], |lines|, st) == ParseFrom(lines, |lines|, st)
  {
    var more := lines + [""];
    assert more[|lines|] == "" && PlainLine(st, "", true) == st;
  }

  lemma {:induction false} SplitWithNewline(text: string)
    ensures Split(text + "\n") == Split(text) + [""]
    ensures text != "" && text[|text| - 1] != '\n' ==> Split(text)[|Split(text)| - 1] != ""
  {
    if text == "" {
      assert Split("\n")[0] == "" && "\n"[1..] == "";
      assert Split("\n") == [""] + Split("");
    } else {
      assert (text + "\n")[1..] == text[1..] + "\n" && (text + "\n")[0] == text[0];
      SplitWithNewline(text[1..]);
      assert text[1..] != "" ==> text[1..][|text| - 2] == text[|text| - 1];
    }
  }

  // A diff means the same, or fails the same, without the newline at its end.
  lemma FinalNewlineIsOptional(text: string)
    requires text != "" && text[|text| - 1] != '\n'
    ensures ParseUnified(text + "\n") == ParseUnified(text)
  {
    hide ParseFrom, SettleAll;
    SplitWithNewline(text);
    EmptyLineAtTheEnd(Split(text), 0, START);
  }

  // ---- The other format, and added files ----

  lemma NeverTheOther(text: string)
    ensures ParseUnified(text) != Err(BeginPatchFormat)
  {
    hide ParseUnified, ParseFrom, IsFileHeader, SettleAll, ComesTo, NoTrouble, Split, InFile, Pointless;
    var at := ParseFails(text);
  }

  // Only a text with the marker of the other format is left to its parser.
  lemma OtherFormatIsToldApart(text: string)
    ensures ParsePatch(text) == Err(BeginPatchFormat) <==> Contains(ToLF(text), "*** Begin Patch")
  {
    hide Contains, ParseUnified, ToLF;
    NeverTheOther(ToLF(text));
  }

  // The content of an added file is what all its hunks show of the new side, one after the other.
  lemma {:induction false} NewLinesAreAll(a: seq<Hunk>, h: Hunk, b: seq<Hunk>)
    ensures NewLines(a + [h] + b) == NewLines(a) + h.newSide + NewLines(b) && NewLines([]) == []
  {
    var all := a + [h] + b;
    if a == [] {
      assert all == [h] + b && all[1..] == b;
    } else {
      NewLinesAreAll(a[1..], h, b);
      assert all[1..] == a[1..] + [h] + b;
    }
  }
}
