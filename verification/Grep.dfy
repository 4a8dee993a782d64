/** Searching files for a pattern, one file at a time (internal/tools/grep.go). */
module Grep {
  import opened Results
  import opened GoStrings

  const MAX_FILE_SIZE: nat := 5 * 1024 * 1024
  const BINARY_SNIFF_LEN: nat := 8000

  // A literal query, with the folding of a case-insensitive one, or a regular expression.
  datatype Matcher = Literal(needle: string, fold: char -> char) | Regex(accepts: string -> bool)

  datatype Match = Match(file: nat, line: nat, content: string)

  function Folded(s: string, fold: char -> char): string {
    seq(|s|, i requires 0 <= i < |s| => fold(s[i]))
  }

  // Used on a line, and for a literal also on a whole file before looking at its lines.
  predicate Accepts(m: Matcher, text: string) {
    match m
    case Literal(needle, fold) => Contains(Folded(text, fold), Folded(needle, fold))
    case Regex(accepts) => accepts(text)
  }

  predicate Prefilter(m: Matcher, data: string) {
    m.Literal? ==> Accepts(m, data)
  }

  // ---- What a search of one file means ----

  function TrimAll(lines: seq<string>): seq<string> {
    seq(|lines|, i requires 0 <= i < |lines| => TrimSuffix(lines[i], "\r"))
  }

  // The lines of a file, without their endings; a final newline ends the last line and starts no other.
  function Lines(data: string): seq<string> {
    var pieces := Split(data);
    TrimAll(if pieces[|pieces| - 1] == "" then pieces[..|pieces| - 1] else pieces)
  }

  function Matching(file: nat, lines: seq<string>, m: Matcher, show: string -> string): seq<Match> {
    if lines == [] then []
    else
      var n := |lines| - 1;
      Matching(file, lines[..n], m, show) + if Accepts(m, lines[n]) then [Match(file, n + 1, show(lines[n]))] else []
  }

  predicate Searchable(data: string) {
    |data| <= MAX_FILE_SIZE && '\0' !in data[..if |data| < BINARY_SNIFF_LEN then |data| else BINARY_SNIFF_LEN]
  }

  // Every match of a file: none when it cannot be read, is too large or is binary.
  function FileMatches(file: nat, data: Option<string>, m: Matcher, show: string -> string): seq<Match> {
    if data.Some? && Searchable(data.value) then Matching(file, Lines(data.value), m, show) else []
  }

  function First<T>(max: nat, s: seq<T>): seq<T> {
    if |s| <= max then s else s[..max]
  }

  // ---- Lines, one at a time ----

  lemma TrimAllSplit(first: string, rest: seq<string>)
    ensures TrimAll([first] + rest) == [TrimSuffix(first, "\r")] + TrimAll(rest)
  {
    var all := [first] + rest;
    assert forall i | 1 <= i < |all| :: all[i] == rest[i - 1];
  }

  lemma LinesFirst(line: string, rest: string)
    requires NoNewline(line)
    ensures Lines(line + "\n" + rest) == [TrimSuffix(line, "\r")] + Lines(rest)
  {
    hide TrimAll, TrimSuffix;
    SplitFirst(line, rest);
    var pieces := Split(rest);
    var all := [line] + pieces;
    assert all[|all| - 1] == pieces[|pieces| - 1];
    assert all[..|all| - 1] == [line] + pieces[..|pieces| - 1];
    TrimAllSplit(line, if pieces[|pieces| - 1] == "" then pieces[..|pieces| - 1] else pieces);
  }

  lemma LinesLast(line: string)
    requires NoNewline(line) && line != ""
    ensures Lines(line) == [TrimSuffix(line, "\r")]
  {
    hide TrimSuffix;
    SplitOne(line);
    TrimAllSplit(line, []);
  }

  lemma NoLines()
    ensures Lines("") == []
  {
    SplitOne("");
  }

  // ---- The prefilter skips no file that has a match ----

  lemma ContainsWithin(a: string, b: string, c: string, sub: string)
    requires Contains(b, sub)
    ensures Contains(a + b + c, sub)
  {
    var i: nat :| i <= |b| && OccursAt(b, sub, i);
    var all := a + b + c;
    assert all[|a| + i..|a| + i + |sub|] == b[i..i + |sub|];
    assert OccursAt(all, sub, |a| + i);
  }

  lemma FoldedAppend(a: string, b: string, c: string, fold: char -> char)
    ensures Folded(a + b + c, fold) == Folded(a, fold) + Folded(b, fold) + Folded(c, fold)
  {
  }

  lemma LiteralWithin(m: Matcher, a: string, b: string, c: string)
    requires m.Literal? && Accepts(m, b)
    ensures Accepts(m, a + b + c)
  {
    hide Folded;
    FoldedAppend(a, b, c, m.fold);
    ContainsWithin(Folded(a, m.fold), Folded(b, m.fold), Folded(c, m.fold), Folded(m.needle, m.fold));
  }

  lemma TrimmedWithin(m: Matcher, a: string, line: string, c: string)
    requires m.Literal? && Accepts(m, TrimSuffix(line, "\r"))
    ensures Accepts(m, a + line + c)
  {
    hide Accepts;
    var kept := TrimSuffix(line, "\r");
    var cut := line[|kept|..];
    assert line == kept + cut;
    assert a + line + c == a + kept + (cut + c);
    LiteralWithin(m, a, kept, cut + c);
  }

  // Where the first line of a text ends.
  function NewlineAt(data: string, i: nat): (r: nat)
    requires i <= |data| && NoNewline(data[..i])
    ensures i <= r <= |data| && NoNewline(data[..r]) && (r < |data| ==> data[r] == '\n')
    decreases |data| - i
  {
    if i == |data| || data[i] == '\n' then i
    else
      assert data[..i + 1] == data[..i] + [data[i]];
      NewlineAt(data, i + 1)
  }

  lemma {:induction false} LineWithin(m: Matcher, data: string, k: nat)
    requires m.Literal? && k < |Lines(data)| && Accepts(m, Lines(data)[k])
    ensures Accepts(m, data)
    decreases |data|
  {
    hide Lines, Accepts, TrimSuffix, NewlineAt;
    if data == "" {
      NoLines();
      assert false;
    }
    var i := NewlineAt(data, 0);
    var line := data[..i];
    if i == |data| {
      assert line == data && "" + line + "" == data;
      LinesLast(line);
      TrimmedWithin(m, "", line, "");
    } else {
      var rest := data[i + 1..];
      assert data == line + "\n" + rest;
      LinesFirst(line, rest);
      if k == 0 {
        assert "" + line + ("\n" + rest) == data;
        TrimmedWithin(m, "", line, "\n" + rest);
      } else {
        LineWithin(m, rest, k - 1);
        assert line + "\n" + rest + "" == data;
        LiteralWithin(m, line + "\n", rest, "");
      }
    }
  }

  lemma {:induction false} NoneMatching(file: nat, lines: seq<string>, m: Matcher, show: string -> string)
    requires forall k | 0 <= k < |lines| :: !Accepts(m, lines[k])
    ensures Matching(file, lines, m, show) == []
  {
    hide Accepts;
    if lines != [] {
      NoneMatching(file, lines[..|lines| - 1], m, show);
    }
  }

  lemma PrefilterIsSound(file: nat, data: string, m: Matcher, show: string -> string)
    requires !Prefilter(m, data)
    ensures FileMatches(file, Some(data), m, show) == []
  {
    hide Lines, Accepts;
    var lines := Lines(data);
    forall k | 0 <= k < |lines| ensures !Accepts(m, lines[k]) {
      if Accepts(m, lines[k]) {
        LineWithin(m, data, k);
      }
    }
    NoneMatching(file, lines, m, show);
  }

  // ---- What is found ----

  // Line n of the file, counted from 1, is one to find.
  ghost predicate Hit(data: Option<string>, m: Matcher, n: nat) {
    && data.Some? && |data.value| <= MAX_FILE_SIZE
    && (forall i | 0 <= i < |data.value| && i < BINARY_SNIFF_LEN :: data.value[i] != '\0')
    && 1 <= n <= |Lines(data.value)| && Accepts(m, Lines(data.value)[n - 1])
  }

  ghost predicate InOrder(r: seq<Match>) {
    forall i, j | 0 <= i < j < |r| :: r[i].line < r[j].line
  }

  lemma {:induction false} MatchingSound(file: nat, lines: seq<string>, m: Matcher, show: string -> string, x: Match)
    requires x in Matching(file, lines, m, show)
    ensures 1 <= x.line <= |lines| && Accepts(m, lines[x.line - 1]) && x == Match(file, x.line, show(lines[x.line - 1]))
  {
    hide Accepts;
    var n := |lines| - 1;
    if x in Matching(file, lines[..n], m, show) {
      MatchingSound(file, lines[..n], m, show, x);
    }
  }

  lemma {:induction false} MatchingComplete(file: nat, lines: seq<string>, m: Matcher, show: string -> string, k: nat)
    requires k < |lines| && Accepts(m, lines[k])
    ensures Match(file, k + 1, show(lines[k])) in Matching(file, lines, m, show)
  {
    hide Accepts;
    var n := |lines| - 1;
    if k < n {
      MatchingComplete(file, lines[..n], m, show, k);
    }
  }

  lemma {:induction false} MatchingInOrder(file: nat, lines: seq<string>, m: Matcher, show: string -> string)
    ensures InOrder(Matching(file, lines, m, show))
  {
    hide Accepts;
    if lines != [] {
      var n := |lines| - 1;
      var before := Matching(file, lines[..n], m, show);
      MatchingInOrder(file, lines[..n], m, show);
      forall i | 0 <= i < |before| ensures before[i].line <= n {
        MatchingSound(file, lines[..n], m, show, before[i]);
      }
    }
  }

  // A file's matches are exactly the hits, in order; a file that cannot be read, is too large or has a zero byte early
  // on has none.
  lemma FileMatchesMean(file: nat, data: Option<string>, m: Matcher, show: string -> string)
    ensures var r := FileMatches(file, data, m, show);
      && InOrder(r)
      && (forall x | x in r :: Hit(data, m, x.line) && x == Match(file, x.line, show(Lines(data.value)[x.line - 1])))
      && (forall n: nat | Hit(data, m, n) :: Match(file, n, show(Lines(data.value)[n - 1])) in r)
  {
    hide Accepts, Lines, Matching, InOrder, Searchable;
    NothingInOrder();
    if data.Some? {
      TextByBytes(data.value);
      var lines := Lines(data.value);
      MatchingInOrder(file, lines, m, show);
      forall x | x in Matching(file, lines, m, show)
        ensures 1 <= x.line <= |lines| && Accepts(m, lines[x.line - 1])
        ensures x == Match(file, x.line, show(lines[x.line - 1]))
      {
        MatchingSound(file, lines, m, show, x);
      }
      forall n: nat | Hit(data, m, n) ensures Match(file, n, show(lines[n - 1])) in Matching(file, lines, m, show) {
        MatchingComplete(file, lines, m, show, n - 1);
      }
    }
  }

  lemma TextByBytes(data: string)
    ensures Searchable(data) <==>
            |data| <= MAX_FILE_SIZE && forall i | 0 <= i < |data| && i < BINARY_SNIFF_LEN :: data[i] != '\0'
  {
    var n := if |data| < BINARY_SNIFF_LEN then |data| else BINARY_SNIFF_LEN;
    assert forall i | 0 <= i < n :: data[..n][i] == data[i];
  }

  lemma NothingInOrder()
    ensures InOrder([])
  {
  }

  // ---- Searching a file ----

  lemma MatchingMore(file: nat, lines: seq<string>, line: string, m: Matcher, show: string -> string)
    ensures Matching(file, lines + [line], m, show)
         == Matching(file, lines, m, show) + if Accepts(m, line) then [Match(file, |lines| + 1, show(line))] else []
  {
    hide Accepts;
    assert (lines + [line])[..|lines|] == lines;
  }

  lemma {:induction false} MatchingPrefix(file: nat, lines: seq<string>, rest: seq<string>, m: Matcher,
                                          show: string -> string)
    ensures Matching(file, lines, m, show) <= Matching(file, lines + rest, m, show)
  {
    hide Accepts;
    if rest == [] {
      assert lines + rest == lines;
    } else {
      var n := |rest| - 1;
      MatchingPrefix(file, lines, rest[..n], m, show);
      assert lines + rest == lines + rest[..n] + [rest[n]];
      MatchingMore(file, lines + rest[..n], rest[n], m, show);
    }
  }

  // The first max matches of a file, without looking at lines past the last of them.
  method GrepFile(file: nat, contents: Option<string>, m: Matcher, max: nat,
                  show: string -> string) returns (out: seq<Match>)
    requires max >= 1
    ensures out == First(max, FileMatches(file, contents, m, show))
  {
    hide Accepts, Matching, Lines, TrimSuffix, NewlineAt;
    if contents.None? || |contents.value| > MAX_FILE_SIZE {
      return [];
    }
    var data := contents.value;
    if '\0' in data[..if |data| < BINARY_SNIFF_LEN then |data| else BINARY_SNIFF_LEN] {
      return [];
    }
    if m.Literal? && !Accepts(m, data) {
      PrefilterIsSound(file, data, m, show);
      return [];
    }
    out := [];
    var lineNum := 0;
    ghost var seen: seq<string> := [];
    assert Matching(file, [], m, show) == [] by { NoneMatching(file, [], m, show); }
    assert seen + Lines(data) == Lines(data);
    while data != ""
      invariant lineNum == |seen| && seen + Lines(data) == Lines(contents.value)
      invariant out == Matching(file, seen, m, show) && |out| < max
      decreases |data|
    {
      lineNum := lineNum + 1;
      var i := NewlineAt(data, 0);
      var line := data[..i];
      ghost var before, all := seen, data;
      if i < |data| {
        assert data == line + "\n" + data[i + 1..];
        LinesFirst(line, data[i + 1..]);
        data := data[i + 1..];
      } else {
        assert line == data;
        LinesLast(line);
        data := "";
        NoLines();
      }
      line := TrimSuffix(line, "\r");
      assert Lines(all) == [line] + Lines(data);
      seen := seen + [line];
      assert seen + Lines(data) == before + Lines(all);
      MatchingMore(file, before, line, m, show);
      if Accepts(m, line) {
        out := out + [Match(file, lineNum, show(line))];
        if |out| >= max {
          MatchingPrefix(file, seen, Lines(data), m, show);
          return;
        }
      }
    }
    NoLines();
    assert seen == Lines(contents.value);
  }

  // ---- Searching many ----

  function Flat<T>(parts: seq<seq<T>>): seq<T> {
    if parts == [] then [] else Flat(parts[..|parts| - 1]) + parts[|parts| - 1]
  }

  function Capped<T>(max: nat, parts: seq<seq<T>>): seq<seq<T>> {
    seq(|parts|, i requires 0 <= i < |parts| => First(max, parts[i]))
  }

  lemma FirstOfConcat<T>(max: nat, a: seq<T>, a': seq<T>, b: seq<T>)
    requires First(max, a) == First(max, a')
    ensures First(max, a + b) == First(max, a' + First(max, b))
  {
    if |a| < max {
      assert a == a';
    } else {
      assert |a'| >= max;
      assert First(max, a + b) == First(max, a) by { assert (a + b)[..max] == a[..max]; }
      assert First(max, a' + First(max, b)) == First(max, a') by { assert (a' + First(max, b))[..max] == a'[..max]; }
    }
  }

  // Keeping only the first max matches of each file changes nothing in the first max of them all.
  lemma {:induction false} CappingChangesNothing<T>(max: nat, parts: seq<seq<T>>)
    ensures First(max, Flat(Capped(max, parts))) == First(max, Flat(parts))
  {
    hide First;
    if parts == [] {
      assert Capped(max, parts) == [];
    } else {
      var n := |parts| - 1;
      var capped := Capped(max, parts);
      assert capped[..n] == Capped(max, parts[..n]);
      CappingChangesNothing(max, parts[..n]);
      FirstOfConcat(max, Flat(parts[..n]), Flat(capped[..n]), parts[n]);
    }
  }

  // The consumer's loop over one file's matches: full says that it has max and returns.
  method Gather(matches: seq<Match>, found: seq<Match>, max: nat) returns (all: seq<Match>, full: bool)
    requires |matches| < max
    ensures all == First(max, matches + found) && (full <==> |matches + found| >= max)
  {
    all := matches;
    for i := 0 to |found|
      invariant all == matches + found[..i] && |all| < max
    {
      all := all + [found[i]];
      assert all == matches + found[..i + 1];
      if |all| >= max {
        assert all == (matches + found)[..max];
        return all, true;
      }
    }
    assert matches + found[..|found|] == matches + found;
    full := false;
  }
}
