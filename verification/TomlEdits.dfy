/** Editing one assignment of a TOML file in place (internal/config/locale.go, agentmodels.go, modelsettings.go). */
module TomlEdits {
  import opened Results
  import opened GoStrings
  import opened TomlLines

  // ---- Looking an assignment up ----

  predicate IsTableLine(l: string) {
    TableOf(l).Some?
  }

  // Whether the lines before i end inside that table.
  predicate InTable(lines: seq<string>, table: string, i: nat)
    requires i <= |lines|
  {
    if i == 0 then false
    else if IsTableLine(lines[i - 1]) then IsHeader(lines[i - 1], table)
    else InTable(lines, table, i - 1)
  }

  // Line i assigns that key in that table.
  predicate Hit(lines: seq<string>, table: string, key: string, i: nat)
    requires i < |lines|
  {
    !IsTableLine(lines[i]) && InTable(lines, table, i) && KeyAt(key, lines[i])
  }

  function Find(lines: seq<string>, table: string, key: string, i: nat): (r: Option<nat>)
    requires i <= |lines|
    ensures r.Some? ==>
              i <= r.value < |lines| && Hit(lines, table, key, r.value) &&
              forall j | i <= j < r.value :: !Hit(lines, table, key, j)
    ensures r.None? ==> forall j | i <= j < |lines| :: !Hit(lines, table, key, j)
    decreases |lines| - i
  {
    if i == |lines| then None
    else if Hit(lines, table, key, i) then Some(i)
    else Find(lines, table, key, i + 1)
  }

  // The value of the first assignment of the key in the table.
  function Lookup(lines: seq<string>, table: string, key: string): Option<string> {
    match Find(lines, table, key, 0)
    case Some(i) => Some(ValueOf(key, lines[i]))
    case None => None
  }

  lemma FindIs(lines: seq<string>, table: string, key: string, i: nat)
    requires i < |lines| && Hit(lines, table, key, i) && forall j | 0 <= j < i :: !Hit(lines, table, key, j)
    ensures Find(lines, table, key, 0) == Some(i)
  {
    hide Hit;
  }

  lemma FindNone(lines: seq<string>, table: string, key: string)
    requires forall j | 0 <= j < |lines| :: !Hit(lines, table, key, j)
    ensures Find(lines, table, key, 0) == None
  {
    hide Hit;
  }

  // ---- Removing ----

  function Without(lines: seq<string>, i: nat): seq<string>
    requires i < |lines|
  {
    lines[..i] + lines[i + 1..]
  }

  function Removed(lines: seq<string>, table: string, key: string): seq<string> {
    match Find(lines, table, key, 0)
    case Some(i) => Without(lines, i)
    case None => lines
  }

  method RemoveTomlKey(doc: string, table: string, key: string) returns (r: string)
    ensures r == Join(Removed(Split(doc), table, key))
  {
    hide TableOf, KeyAt, TrimSpace, Split, Join, Find;
    var lines := Split(doc);
    var inside := false;
    for i := 0 to |lines|
      invariant inside == InTable(lines, table, i)
      invariant forall j | 0 <= j < i :: !Hit(lines, table, key, j)
    {
      var l := lines[i];
      var m := TableOf(l);
      if m.Some? {
        inside := m.value == table && !("[[" <= TrimSpace(l));
        continue;
      }
      if inside && KeyAt(key, l) {
        FindIs(lines, table, key, i);
        return Join(lines[..i] + lines[i + 1..]);
      }
    }
    FindNone(lines, table, key);
    JoinOfSplit(doc);
    return doc;
  }

  // ---- Setting ----

  function FirstHeader(lines: seq<string>, table: string, i: nat): (r: Option<nat>)
    requires i <= |lines|
    ensures r.Some? ==>
              i <= r.value < |lines| && IsHeader(lines[r.value], table) &&
              forall j | i <= j < r.value :: !IsHeader(lines[j], table)
    ensures r.None? ==> forall j | i <= j < |lines| :: !IsHeader(lines[j], table)
    decreases |lines| - i
  {
    if i == |lines| then None
    else if IsHeader(lines[i], table) then Some(i)
    else FirstHeader(lines, table, i + 1)
  }

  // Where the next table starts, or the end.
  function NextTable(lines: seq<string>, i: nat): (r: nat)
    requires i <= |lines|
    ensures i <= r <= |lines| && (r < |lines| ==> IsTableLine(lines[r])) &&
            forall j | i <= j < r :: !IsTableLine(lines[j])
    decreases |lines| - i
  {
    if i == |lines| || IsTableLine(lines[i]) then i else NextTable(lines, i + 1)
  }

  function FindIn(lines: seq<string>, key: string, i: nat, end: nat): (r: Option<nat>)
    requires i <= end <= |lines|
    ensures r.Some? ==>
              i <= r.value < end && KeyAt(key, lines[r.value]) && forall j | i <= j < r.value :: !KeyAt(key, lines[j])
    ensures r.None? ==> forall j | i <= j < end :: !KeyAt(key, lines[j])
    decreases end - i
  {
    if i == end then None
    else if KeyAt(key, lines[i]) then Some(i)
    else FindIn(lines, key, i + 1, end)
  }

  // After the last line of the stretch that is not blank.
  function AfterText(lines: seq<string>, low: nat, at: nat): (r: nat)
    requires low <= at <= |lines|
    ensures low <= r <= at && forall j | r <= j < at :: TrimSpace(lines[j]) == ""
    ensures r > low ==> TrimSpace(lines[r - 1]) != ""
  {
    if at > low && TrimSpace(lines[at - 1]) == "" then AfterText(lines, low, at - 1) else at
  }

  function Written(line: string, key: string, value: string): string {
    Assignment(Indent(line), key, value, Comment(line))
  }

  function Insert(lines: seq<string>, at: nat, l: string): seq<string>
    requires at <= |lines|
  {
    lines[..at] + [l] + lines[at..]
  }

  function StripEnd(lines: seq<string>): (r: seq<string>)
    ensures r <= lines && forall i | |r| <= i < |lines| :: lines[i] == ""
    ensures r != [] ==> r[|r| - 1] != ""
  {
    if lines != [] && lines[|lines| - 1] == "" then StripEnd(lines[..|lines| - 1]) else lines
  }

  function Appended(lines: seq<string>, table: string, line: string): seq<string> {
    var kept := StripEnd(lines);
    kept + (if kept == [] then [] else [""]) + ["[" + table + "]", line, ""]
  }

  function SetLines(lines: seq<string>, table: string, key: string, value: string): seq<string> {
    var line := Assignment("", key, value, "");
    match FirstHeader(lines, table, 0)
    case None => Appended(lines, table, line)
    case Some(start) =>
      var end := NextTable(lines, start + 1);
      match FindIn(lines, key, start + 1, end)
      case Some(i) => lines[i := Written(lines[i], key, value)]
      case None => Insert(lines, AfterText(lines, start + 1, end), line)
  }

  // strings.TrimRight(doc, "\n")
  function TrimNewlines(doc: string): string {
    if doc != "" && doc[|doc| - 1] == '\n' then TrimNewlines(doc[..|doc| - 1]) else doc
  }

  lemma JoinMore(lines: seq<string>, l: string)
    requires lines != []
    ensures Join(lines + [l]) == Join(lines) + "\n" + l
  {
    if |lines| == 1 {
      assert (lines + [l])[1..] == [l];
    } else {
      assert (lines + [l])[1..] == lines[1..] + [l];
      JoinMore(lines[1..], l);
    }
  }

  lemma {:induction false} TrimmedIsStripped(lines: seq<string>)
    requires NoNewlines(lines)
    ensures TrimNewlines(Join(lines)) == Join(StripEnd(lines))
  {
    if lines != [] {
      var n := |lines| - 1;
      var before, last := lines[..n], lines[n];
      assert lines == before + [last];
      if before != [] {
        JoinMore(before, last);
        if last == "" {
          assert Join(lines)[..|Join(lines)| - 1] == Join(before);
          TrimmedIsStripped(before);
        } else {
          LastCharacter(Join(before) + "\n", last);
        }
      } else if last == "" {
        assert Join(lines) == "" && StripEnd(lines) == [];
      } else {
        LastCharacter("", last);
        assert Join(lines) == "" + last;
      }
    }
  }

  lemma LastCharacter(a: string, last: string)
    requires last != "" && NoNewline(last)
    ensures TrimNewlines(a + last) == a + last
  {
    assert (a + last)[|a + last| - 1] == last[|last| - 1];
  }

  lemma JoinThree(before: seq<string>, hdr: string, line: string)
    requires before != []
    ensures Join(before + [hdr, line, ""]) == Join(before) + "\n" + hdr + "\n" + line + "\n"
  {
    hide Join;
    JoinMore(before, hdr);
    JoinMore(before + [hdr], line);
    JoinMore(before + [hdr] + [line], "");
    assert before + [hdr] + [line] + [""] == before + [hdr, line, ""];
  }

  lemma JoinHeader(hdr: string, line: string)
    ensures Join([hdr, line, ""]) == hdr + "\n" + line + "\n"
  {
    assert Join([hdr]) == hdr;
    hide Join;
    JoinMore([hdr], line);
    JoinMore([hdr] + [line], "");
    assert [hdr] + [line] + [""] == [hdr, line, ""];
  }

  lemma AppendedJoins(lines: seq<string>, table: string, line: string)
    requires NoNewlines(lines)
    ensures var doc := TrimNewlines(Join(lines));
      Join(Appended(lines, table, line)) ==
        (if doc == "" then doc else doc + "\n\n") + ("[" + table + "]\n" + line + "\n")
  {
    hide StripEnd, TrimNewlines;
    TrimmedIsStripped(lines);
    var kept, hdr := StripEnd(lines), "[" + table + "]";
    if kept == [] {
      assert Join(kept) == "";
      hide Join;
      JoinHeader(hdr, line);
      assert kept + [] + [hdr, line, ""] == [hdr, line, ""];
      assert hdr + "\n" + line + "\n" == "[" + table + "]\n" + line + "\n";
    } else {
      JoinIsEmpty(kept);
      hide Join;
      JoinMore(kept, "");
      JoinThree(kept + [""], hdr, line);
      AddText(Join(kept), table, line);
    }
  }

  lemma AddText(doc: string, table: string, line: string)
    ensures doc + "\n" + "" + "\n" + ("[" + table + "]") + "\n" + line + "\n" ==
              doc + "\n\n" + ("[" + table + "]\n" + line + "\n")
  {
    assert "\n" + "" + "\n" == "\n\n" && "]" + "\n" == "]\n";
  }

  lemma JoinIsEmpty(kept: seq<string>)
    requires kept != [] && kept[|kept| - 1] != ""
    ensures Join(kept) != ""
  {
    if |kept| > 1 {
      JoinMore(kept[..|kept| - 1], kept[|kept| - 1]);
      assert kept == kept[..|kept| - 1] + [kept[|kept| - 1]];
    }
  }

  // The first header of the table, or -1, and where the table ends.
  method FindTable(lines: seq<string>, table: string) returns (start: int, end: nat)
    ensures -1 <= start < |lines|
    ensures FirstHeader(lines, table, 0) == if start < 0 then None else Some(start)
    ensures start >= 0 ==> end == NextTable(lines, start + 1)
  {
    hide TableOf, TrimSpace, IsHeader, NextTable, FirstHeader;
    start, end := -1, |lines|;
    for i := 0 to |lines|
      invariant end == |lines| && -1 <= start < i
      invariant start == -1 ==> forall j | 0 <= j < i :: !IsHeader(lines[j], table)
      invariant start >= 0 ==>
                  FirstHeader(lines, table, 0) == Some(start) && forall j | start < j < i :: !IsTableLine(lines[j])
    {
      if TableOf(lines[i]).None? {
        NotTableNotHeader(lines[i], table);
        continue;
      }
      if start >= 0 {
        end := i;
        NextTableIs(lines, start + 1, end);
        return;
      }
      if IsHeader(lines[i], table) {
        start := i;
        FirstHeaderIs(lines, table, i);
      }
    }
    if start < 0 {
      NoHeader(lines, table);
    } else {
      NextTableIs(lines, start + 1, end);
    }
  }

  // Replaces the key's assignment between the lines, or inserts one after their last text.
  method SetBetween(lines: seq<string>, start: nat, end: nat, key: string, value: string) returns (r: seq<string>)
    requires start + 1 <= end <= |lines|
    ensures r == match FindIn(lines, key, start + 1, end)
      case Some(i) => lines[i := Written(lines[i], key, value)]
      case None => Insert(lines, AfterText(lines, start + 1, end), Assignment("", key, value, ""))
  {
    hide KeyAt, TrimSpace, Comment, Indent, FindIn, AfterText;
    var line := key + " = " + value;
    for i := start + 1 to end
      invariant forall j | start + 1 <= j < i :: !KeyAt(key, lines[j])
    {
      if KeyAt(key, lines[i]) {
        FindInIs(lines, key, start + 1, end, i);
        var j := CommentStart(lines[i]);
        CommentIs(lines[i], j);
        var l := Indent(lines[i]) + line + if j >= 0 then "   " + lines[i][j..] else "";
        assert l == Written(lines[i], key, value);
        return lines[i := l];
      }
    }
    assert FindIn(lines, key, start + 1, end).None?;
    assert line == Assignment("", key, value, "");
    var at := end;
    while at > start + 1 && TrimSpace(lines[at - 1]) == ""
      invariant start + 1 <= at <= end && AfterText(lines, start + 1, end) == AfterText(lines, start + 1, at)
    {
      AfterTextStep(lines, start + 1, at);
      at := at - 1;
    }
    AfterTextStep(lines, start + 1, at);
    return lines[..at] + [line] + lines[at..];
  }

  lemma AfterTextStep(lines: seq<string>, low: nat, at: nat)
    requires low <= at <= |lines|
    ensures AfterText(lines, low, at) ==
              if at > low && TrimSpace(lines[at - 1]) == "" then AfterText(lines, low, at - 1) else at
  {
  }

  method SetTomlKey(doc: string, table: string, key: string, value: string) returns (r: string)
    ensures r == Join(SetLines(Split(doc), table, key, value))
  {
    hide FirstHeader, NextTable, FindIn, AfterText, Split, Join, TrimNewlines, SetLines, Insert, Written, Assignment;
    hide Appended, KeyAt, IsHeader, IsTableLine, TrimSpace;
    var lines := Split(doc);
    var start, end := FindTable(lines, table);
    SetLinesIs(lines, table, key, value);
    if start < 0 {
      var line := key + " = " + value;
      AppendedText(doc, table, key, value);
      var kept := TrimNewlines(doc);
      if kept != "" {
        kept := kept + "\n\n";
      }
      return kept + ("[" + table + "]\n" + line + "\n");
    }
    var edited := SetBetween(lines, start, end, key, value);
    return Join(edited);
  }

  lemma AppendedText(doc: string, table: string, key: string, value: string)
    ensures var kept := TrimNewlines(doc);
      Join(Appended(Split(doc), table, Assignment("", key, value, "")))
      == (if kept != "" then kept + "\n\n" else kept) + ("[" + table + "]\n" + (key + " = " + value) + "\n")
  {
    var line := key + " = " + value;
    assert line == Assignment("", key, value, "");
    hide Split, Join, TrimNewlines, Appended, Assignment;
    JoinOfSplit(doc);
    AppendedJoins(Split(doc), table, line);
  }

  lemma SetLinesIs(lines: seq<string>, table: string, key: string, value: string)
    ensures SetLines(lines, table, key, value) ==
      var line := Assignment("", key, value, "");
      match FirstHeader(lines, table, 0)
      case None => Appended(lines, table, line)
      case Some(start) =>
        var end := NextTable(lines, start + 1);
        match FindIn(lines, key, start + 1, end)
        case Some(i) => lines[i := Written(lines[i], key, value)]
        case None => Insert(lines, AfterText(lines, start + 1, end), line)
  {
  }

  lemma NotTableNotHeader(l: string, table: string)
    requires TableOf(l).None?
    ensures !IsHeader(l, table)
  {
  }

  lemma FirstHeaderIs(lines: seq<string>, table: string, i: nat)
    requires i < |lines| && IsHeader(lines[i], table) && forall j | 0 <= j < i :: !IsHeader(lines[j], table)
    ensures FirstHeader(lines, table, 0) == Some(i)
  {
  }

  lemma NoHeader(lines: seq<string>, table: string)
    requires forall j | 0 <= j < |lines| :: !IsHeader(lines[j], table)
    ensures FirstHeader(lines, table, 0) == None
  {
  }

  lemma NextTableIs(lines: seq<string>, i: nat, end: nat)
    requires i <= end <= |lines| && (end < |lines| ==> IsTableLine(lines[end])) &&
             forall j | i <= j < end :: !IsTableLine(lines[j])
    ensures NextTable(lines, i) == end
  {
  }

  lemma FindInIs(lines: seq<string>, key: string, i: nat, end: nat, at: nat)
    requires i <= at < end <= |lines| && KeyAt(key, lines[at]) && forall j | i <= j < at :: !KeyAt(key, lines[j])
    ensures FindIn(lines, key, i, end) == Some(at)
  {
  }

  lemma {:induction false} CommentInside(line: string, i: nat, q: Scan)
    requires i <= |line|
    ensures CommentFrom(line, i, q).Some? ==> i <= CommentFrom(line, i, q).value < |line|
    decreases |line| - i
  {
    if i < |line| {
      forall k, p | i < k <= |line|
        ensures CommentFrom(line, k, p).Some? ==> k <= CommentFrom(line, k, p).value < |line|
      {
        CommentInside(line, k, p);
      }
    }
  }

  lemma CommentIs(line: string, j: int)
    requires j == match CommentFrom(line, 0, Plain) case Some(i) => i case None => -1
    ensures -1 <= j < |line| && Comment(line) == if j >= 0 then line[j..] else ""
    ensures Comment(line) == "" <==> j < 0
  {
    CommentInside(line, 0, Plain);
  }
}
