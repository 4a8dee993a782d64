/** What the edits of a TOML file do to every lookup, and what they leave alone. */
module TomlFrames {
  import opened Results
  import opened GoStrings
  import opened TomlLines
  import opened TomlEdits

  // ---- Tables and positions ----

  lemma {:induction false} InTableSame(a: seq<string>, b: seq<string>, table: string, i: nat)
    requires i <= |a| && i <= |b|
    requires forall j | 0 <= j < i :: a[j] == b[j] || (!IsTableLine(a[j]) && !IsTableLine(b[j]))
    ensures InTable(a, table, i) == InTable(b, table, i)
  {
    hide IsTableLine, IsHeader;
    if i > 0 && !IsTableLine(a[i - 1]) {
      InTableSame(a, b, table, i - 1);
    }
  }

  // A line that heads no table can be put in without moving any line into or out of a table.
  lemma {:induction false} InTableInsert(lines: seq<string>, at: nat, l: string, table: string, i: nat)
    requires at <= i <= |lines| && !IsTableLine(l)
    ensures InTable(Insert(lines, at, l), table, i + 1) == InTable(lines, table, i)
    decreases i
  {
    hide IsTableLine, IsHeader;
    var lines' := Insert(lines, at, l);
    if i == at {
      assert lines'[i] == l;
      InTableSame(lines', lines, table, i);
    } else {
      assert lines'[i] == lines[i - 1];
      if !IsTableLine(lines[i - 1]) {
        InTableInsert(lines, at, l, table, i - 1);
      }
    }
  }

  lemma InsertHits(lines: seq<string>, at: nat, l: string, table: string, key: string, j: nat)
    requires at <= |lines| && !IsTableLine(l) && j <= |lines|
    ensures j < at ==> Hit(Insert(lines, at, l), table, key, j) == Hit(lines, table, key, j)
    ensures j == at ==> Hit(Insert(lines, at, l), table, key, j) == (InTable(lines, table, at) && KeyAt(key, l))
    ensures at <= j < |lines| ==> Hit(Insert(lines, at, l), table, key, j + 1) == Hit(lines, table, key, j)
  {
    hide IsTableLine, IsHeader, KeyAt, InTable;
    var lines' := Insert(lines, at, l);
    if j < at {
      assert lines'[j] == lines[j];
      InTableSame(lines', lines, table, j);
    } else {
      if j == at {
        assert lines'[j] == l;
        InTableSame(lines', lines, table, j);
      }
      if j < |lines| {
        assert lines'[j + 1] == lines[j];
        InTableInsert(lines, at, l, table, j);
      }
    }
  }

  // Putting in a line that assigns nothing to a key where it stands changes no lookup of that key.
  lemma InsertKeepsLookup(lines: seq<string>, at: nat, l: string, table: string, key: string)
    requires at <= |lines| && !IsTableLine(l) && !(InTable(lines, table, at) && KeyAt(key, l))
    ensures Lookup(Insert(lines, at, l), table, key) == Lookup(lines, table, key)
    ensures var r := Find(lines, table, key, 0);
      Find(Insert(lines, at, l), table, key, 0) == if r.Some? && r.value >= at then Some(r.value + 1) else r
  {
    hide Hit, KeyAt, IsTableLine, ValueOf, InTable;
    var lines' := Insert(lines, at, l);
    forall j | 0 <= j < |lines'|
      ensures Hit(lines', table, key, j) == (j != at && Hit(lines, table, key, if j < at then j else j - 1))
    {
      InsertHits(lines, at, l, table, key, if j <= at then j else j - 1);
    }
    match Find(lines, table, key, 0)
    case None => FindNone(lines', table, key);
    case Some(i) =>
      var i' := if i < at then i else i + 1;
      FindIs(lines', table, key, i');
      assert lines'[i'] == lines[i];
  }

  lemma WithoutIsInverse(lines: seq<string>, i: nat)
    requires i < |lines|
    ensures Insert(Without(lines, i), i, lines[i]) == lines
  {
  }

  lemma InsertThenWithout(lines: seq<string>, at: nat, l: string)
    requires at <= |lines|
    ensures Without(Insert(lines, at, l), at) == lines
  {
  }

  // Taking a line out that is no table line and not the key's changes no lookup of the key.
  lemma WithoutKeepsLookup(lines: seq<string>, i: nat, table: string, key: string)
    requires i < |lines| && !IsTableLine(lines[i]) && !Hit(lines, table, key, i)
    ensures Lookup(Without(lines, i), table, key) == Lookup(lines, table, key)
  {
    hide KeyAt, IsTableLine, InTable, Find, Lookup;
    var rest := Without(lines, i);
    WithoutIsInverse(lines, i);
    InTableSame(rest, lines, table, i);
    InsertKeepsLookup(rest, i, lines[i], table, key);
  }

  // ---- Inside one table ----

  lemma {:induction false} InSection(lines: seq<string>, table: string, start: nat, i: nat)
    requires start < i <= |lines| && IsTableLine(lines[start])
    requires forall j | start < j < i :: !IsTableLine(lines[j])
    ensures InTable(lines, table, i) == IsHeader(lines[start], table)
    decreases i
  {
    hide IsTableLine, IsHeader;
    if i > start + 1 {
      InSection(lines, table, start, i - 1);
    }
  }

  lemma {:induction false} BeforeFirstHeader(lines: seq<string>, table: string, i: nat)
    requires i <= |lines| && forall j | 0 <= j < i :: !IsHeader(lines[j], table)
    ensures !InTable(lines, table, i)
  {
    hide IsTableLine, IsHeader;
    if i > 0 && !IsTableLine(lines[i - 1]) {
      BeforeFirstHeader(lines, table, i - 1);
    }
  }

  lemma OneTable(l: string, a: string, b: string)
    requires IsHeader(l, a) && IsHeader(l, b)
    ensures a == b
  {
  }

  lemma HeaderIsTableLine(l: string, table: string)
    requires IsHeader(l, table)
    ensures IsTableLine(l)
  {
  }

  // No line before the first section assigns, nor one in it before where FindIn looks.
  lemma NoEarlierHit(lines: seq<string>, table: string, key: string, start: nat, end: nat, at: nat)
    requires FirstHeader(lines, table, 0) == Some(start) && NextTable(lines, start + 1) == end && start < at <= end
    requires forall j | start < j < at :: !KeyAt(key, lines[j])
    ensures forall j | 0 <= j < at :: !Hit(lines, table, key, j)
    ensures InTable(lines, table, at) && forall t | t != table :: !InTable(lines, t, at)
  {
    hide IsTableLine, KeyAt, IsHeader;
    HeaderIsTableLine(lines[start], table);
    forall j | 0 <= j < at ensures !Hit(lines, table, key, j) {
      if j <= start {
        BeforeFirstHeader(lines, table, j);
      }
    }
    InSection(lines, table, start, at);
    forall t | t != table ensures !InTable(lines, t, at) {
      InSection(lines, t, start, at);
      if IsHeader(lines[start], t) {
        OneTable(lines[start], t, table);
      }
    }
  }

  // ---- Setting a key whose table is there ----

  // The written line is an assignment of the key, with the value given and the comment of the line it replaces.
  lemma WrittenReadsBack(line: string, key: string, value: string)
    requires ValidKey(key) && ValidValue(value)
    ensures var l := Written(line, key, value);
      !IsTableLine(l) && KeyAt(key, l) && ValueOf(key, l) == value && Comment(l) == Comment(line) &&
      Indent(l) == Indent(line)
  {
    hide ValidKey, ValidValue, TableOf, KeyAt, Assignment;
    SkipWhiteSplits(line);
    CommentStarts(line);
    AssignmentReadsBack(Indent(line), key, value, Comment(line));
  }

  lemma {:induction false} CommentFromIsHash(line: string, i: nat, q: Scan)
    requires i <= |line|
    ensures var r := CommentFrom(line, i, q); r.Some? ==> i <= r.value < |line| && line[r.value] == '#'
    decreases |line| - i
  {
    if i < |line| {
      forall k, p | i < k <= |line|
        ensures var r := CommentFrom(line, k, p); r.Some? ==> k <= r.value < |line| && line[r.value] == '#'
      {
        CommentFromIsHash(line, k, p);
      }
    }
  }

  lemma CommentStarts(line: string)
    ensures Comment(line) == "" || Comment(line)[0] == '#'
  {
    CommentFromIsHash(line, 0, Plain);
  }

  lemma ReplaceHits(lines: seq<string>, i: nat, l: string, table: string, key: string, j: nat)
    requires i < |lines| && j < |lines| && !IsTableLine(lines[i]) && !IsTableLine(l)
    ensures j != i ==> Hit(lines[i := l], table, key, j) == Hit(lines, table, key, j)
    ensures Hit(lines[i := l], table, key, i) == (InTable(lines, table, i) && KeyAt(key, l))
  {
    hide IsTableLine, KeyAt, InTable;
    InTableSame(lines[i := l], lines, table, j);
    InTableSame(lines[i := l], lines, table, i);
  }

  // Replacing an assignment by one of the same key leaves every other lookup as it is.
  lemma ReplaceKeepsLookup(lines: seq<string>, i: nat, l: string, table: string, key: string)
    requires i < |lines| && !IsTableLine(lines[i]) && !IsTableLine(l)
    requires !InTable(lines, table, i) || (!KeyAt(key, lines[i]) && !KeyAt(key, l))
    ensures Lookup(lines[i := l], table, key) == Lookup(lines, table, key)
  {
    hide Hit, KeyAt, IsTableLine, ValueOf, InTable;
    var lines' := lines[i := l];
    assert !Hit(lines, table, key, i) by { HitMeans(lines, table, key, i); }
    forall j | 0 <= j < |lines| ensures Hit(lines', table, key, j) == Hit(lines, table, key, j) {
      ReplaceHits(lines, i, l, table, key, j);
    }
    match Find(lines, table, key, 0)
    case None => FindNone(lines', table, key);
    case Some(k) => FindIs(lines', table, key, k);
  }

  lemma HitMeans(lines: seq<string>, table: string, key: string, i: nat)
    requires i < |lines|
    ensures Hit(lines, table, key, i) <==> !IsTableLine(lines[i]) && InTable(lines, table, i) && KeyAt(key, lines[i])
  {
  }

  // After a set the key has the value, wherever its table is.
  lemma SetThenLookup(lines: seq<string>, table: string, key: string, value: string)
    requires ValidTable(table) && ValidKey(key) && ValidValue(value)
    ensures Lookup(SetLines(lines, table, key, value), table, key) == Some(value)
  {
    hide ValidTable, ValidKey, ValidValue, Hit, KeyAt, IsTableLine, ValueOf, InTable, Written, Assignment, Appended;
    hide Lookup, FirstHeader, NextTable, FindIn, AfterText, IsHeader, Insert;
    match FirstHeader(lines, table, 0)
    case None => AppendedLookup(lines, table, key, value);
    case Some(start) =>
      var end := NextTable(lines, start + 1);
      match FindIn(lines, key, start + 1, end)
      case Some(i) =>
        NoEarlierHit(lines, table, key, start, end, i);
        ReplacedLookup(lines, table, key, value, i);
      case None =>
        var at := AfterText(lines, start + 1, end);
        NoEarlierHit(lines, table, key, start, end, at);
        InsertedLookup(lines, table, key, value, at);
  }

  lemma ReplacedLookup(lines: seq<string>, table: string, key: string, value: string, i: nat)
    requires ValidKey(key) && ValidValue(value) && i < |lines| && !IsTableLine(lines[i]) && InTable(lines, table, i)
    requires forall j | 0 <= j < i :: !Hit(lines, table, key, j)
    ensures Lookup(lines[i := Written(lines[i], key, value)], table, key) == Some(value)
  {
    hide ValidKey, ValidValue, Hit, KeyAt, IsTableLine, ValueOf, InTable, Written;
    var l := Written(lines[i], key, value);
    var lines' := lines[i := l];
    WrittenReadsBack(lines[i], key, value);
    forall j | 0 <= j <= i ensures Hit(lines', table, key, j) == (j == i) {
      ReplaceHits(lines, i, l, table, key, j);
    }
    FindIs(lines', table, key, i);
  }

  lemma InsertedLookup(lines: seq<string>, table: string, key: string, value: string, at: nat)
    requires ValidKey(key) && ValidValue(value) && at <= |lines| && InTable(lines, table, at)
    requires forall j | 0 <= j < at :: !Hit(lines, table, key, j)
    ensures !IsTableLine(Assignment("", key, value, ""))
    ensures Lookup(Insert(lines, at, Assignment("", key, value, "")), table, key) == Some(value)
    ensures Find(Insert(lines, at, Assignment("", key, value, "")), table, key, 0) == Some(at)
  {
    hide ValidKey, ValidValue, Hit, KeyAt, IsTableLine, ValueOf, InTable, Assignment;
    var l := Assignment("", key, value, "");
    LineReadsBack(key, value);
    forall j | 0 <= j <= at ensures Hit(Insert(lines, at, l), table, key, j) == (j == at) {
      InsertHits(lines, at, l, table, key, j);
    }
    FindIs(Insert(lines, at, l), table, key, at);
  }

  lemma LineReadsBack(key: string, value: string)
    requires ValidKey(key) && ValidValue(value)
    ensures var l := Assignment("", key, value, ""); !IsTableLine(l) && KeyAt(key, l) && ValueOf(key, l) == value
  {
    hide ValidKey, ValidValue, TableOf, KeyAt, Assignment;
    AssignmentReadsBack("", key, value, "");
  }

  // ---- Setting a key whose table is not there ----

  lemma {:induction false} BlankLinesAssignNothing(lines: seq<string>, n: nat, table: string, key: string)
    requires ValidKey(key) && n <= |lines| && forall i | n <= i < |lines| :: lines[i] == ""
    ensures Lookup(lines[..n], table, key) == Lookup(lines, table, key)
    decreases |lines| - n
  {
    hide ValidKey, Lookup, InTable;
    if n == |lines| {
      assert lines[..n] == lines;
    } else {
      var m := |lines| - 1;
      BlankLinesAssignNothing(lines[..m], n, table, key);
      assert lines[..m][..n] == lines[..n];
      EmptyLine(key);
      InsertKeepsLookup(lines[..m], m, "", table, key);
      assert Insert(lines[..m], m, "") == lines;
    }
  }

  lemma EmptyLine(key: string)
    requires ValidKey(key)
    ensures !IsTableLine("") && !KeyAt(key, "")
  {
    KeyIsClosed(key);
  }

  // A header at the end, with one assignment and an empty line after it.
  lemma AppendedHits(before: seq<string>, table: string, hdr: string, l: string, t: string, k: string, j: nat)
    requires ValidKey(k) && IsHeader(hdr, table) && !IsTableLine(l)
    requires j < |before| + 3
    ensures var lines := before + [hdr, l, ""];
      Hit(lines, t, k, j) ==
        if j < |before| then Hit(before, t, k, j) else j == |before| + 1 && t == table && KeyAt(k, l)
  {
    hide ValidKey, KeyAt, IsHeader;
    var lines := before + [hdr, l, ""];
    HeaderIsTableLine(hdr, table);
    EmptyLine(k);
    if j < |before| {
      InTableSame(lines, before, t, j);
    } else if j == |before| + 1 {
      assert lines[j - 1] == hdr && lines[j] == l;
      if IsHeader(hdr, t) {
        OneTable(hdr, t, table);
      }
    } else if j == |before| {
      assert lines[j] == hdr;
    } else {
      assert lines[j] == "";
    }
  }

  lemma AppendedFind(before: seq<string>, table: string, hdr: string, l: string, t: string, k: string)
    requires ValidKey(k) && IsHeader(hdr, table) && !IsTableLine(l)
    ensures var lines := before + [hdr, l, ""]; var r := Find(before, t, k, 0);
      Find(lines, t, k, 0) == if r.None? && t == table && KeyAt(k, l) then Some(|before| + 1) else r
  {
    hide ValidKey, KeyAt, IsHeader, Hit, IsTableLine;
    var lines := before + [hdr, l, ""];
    forall j | 0 <= j < |lines|
      ensures Hit(lines, t, k, j) ==
                if j < |before| then Hit(before, t, k, j) else j == |before| + 1 && t == table && KeyAt(k, l)
    {
      AppendedHits(before, table, hdr, l, t, k, j);
    }
    match Find(before, t, k, 0)
    case Some(i) => FindIs(lines, t, k, i);
    case None =>
      if t == table && KeyAt(k, l) {
        FindIs(lines, t, k, |before| + 1);
      } else {
        FindNone(lines, t, k);
      }
  }

  // The lines a new table is put after.
  function Kept(lines: seq<string>): seq<string> {
    StripEnd(lines) + if StripEnd(lines) == [] then [] else [""]
  }

  lemma KeptLookup(lines: seq<string>, t: string, k: string)
    requires ValidKey(k)
    ensures Lookup(Kept(lines), t, k) == Lookup(lines, t, k)
  {
    hide Lookup, ValidKey, InTable, KeyAt;
    var kept := StripEnd(lines);
    assert kept == lines[..|kept|];
    BlankLinesAssignNothing(lines, |kept|, t, k);
    if kept == [] {
      assert Kept(lines) == kept;
    } else {
      EmptyLine(k);
      InsertKeepsLookup(kept, |kept|, "", t, k);
      assert Insert(kept, |kept|, "") == kept + [""];
    }
  }

  lemma NoTableNoLookup(lines: seq<string>, table: string, key: string)
    requires FirstHeader(lines, table, 0) == None
    ensures Find(lines, table, key, 0) == None
  {
    hide IsHeader, KeyAt, IsTableLine;
    forall j | 0 <= j < |lines| ensures !Hit(lines, table, key, j) {
      BeforeFirstHeader(lines, table, j);
    }
    FindNone(lines, table, key);
  }

  lemma AppendedLookup(lines: seq<string>, table: string, key: string, value: string)
    requires ValidTable(table) && ValidKey(key) && ValidValue(value) && FirstHeader(lines, table, 0) == None
    ensures Lookup(Appended(lines, table, Assignment("", key, value, "")), table, key) == Some(value)
  {
    hide ValidTable, ValidKey, ValidValue, KeyAt, IsTableLine, ValueOf, Assignment, IsHeader, FirstHeader;
    var l, hdr := Assignment("", key, value, ""), "[" + table + "]";
    HeaderReadsBack(table);
    LineReadsBack(key, value);
    NoTableNoLookup(lines, table, key);
    KeptLookup(lines, table, key);
    AppendedFind(Kept(lines), table, hdr, l, table, key);
    var all := Kept(lines) + [hdr, l, ""];
    assert Appended(lines, table, l) == all;
    assert all[|Kept(lines)| + 1] == l;
  }

  // ---- Every other lookup stays ----

  lemma SetKeepsOtherLookups(lines: seq<string>, table: string, key: string, value: string, t: string, k: string)
    requires ValidTable(table) && ValidKey(key) && ValidValue(value) && ValidKey(k)
    requires t != table || k != key
    ensures Lookup(SetLines(lines, table, key, value), t, k) == Lookup(lines, t, k)
  {
    hide ValidTable, ValidKey, ValidValue, KeyAt, Assignment, Appended, Lookup, IsTableLine, FirstHeader, NextTable;
    hide FindIn;
    var line := Assignment("", key, value, "");
    LineReadsBack(key, value);
    if KeyAt(k, line) {
      OneKeyPerLine(k, key, line);
    }
    match FirstHeader(lines, table, 0)
    case None =>
      KeptLookup(lines, t, k);
      AppendedKeepsLookup(lines, table, line, t, k);
    case Some(start) => SetInSectionKeeps(lines, table, key, value, start, t, k);
  }

  lemma SetInSectionKeeps(lines: seq<string>, table: string, key: string, value: string, start: nat, t: string,
                          k: string)
    requires ValidKey(key) && ValidValue(value) && ValidKey(k) && (t != table || k != key)
    requires FirstHeader(lines, table, 0) == Some(start)
    requires var line := Assignment("", key, value, ""); !IsTableLine(line) && (k != key ==> !KeyAt(k, line))
    ensures Lookup(SetLines(lines, table, key, value), t, k) == Lookup(lines, t, k)
  {
    hide ValidKey, ValidValue, KeyAt, InTable, Written, Assignment, Lookup, IsTableLine, FirstHeader;
    hide NextTable, FindIn, AfterText, IsHeader, Insert;
    var end := NextTable(lines, start + 1);
    match FindIn(lines, key, start + 1, end)
    case Some(i) =>
      NoEarlierHit(lines, table, key, start, end, i);
      ReplacedKeeps(lines, table, key, value, i, t, k);
    case None =>
      var at := AfterText(lines, start + 1, end);
      NoEarlierHit(lines, table, key, start, end, at);
      InsertKeepsLookup(lines, at, Assignment("", key, value, ""), t, k);
  }

  lemma ReplacedKeeps(lines: seq<string>, table: string, key: string, value: string, i: nat, t: string, k: string)
    requires ValidKey(key) && ValidValue(value) && ValidKey(k) && (t != table || k != key)
    requires i < |lines| && !IsTableLine(lines[i]) && KeyAt(key, lines[i]) && (t != table ==> !InTable(lines, t, i))
    ensures Lookup(lines[i := Written(lines[i], key, value)], t, k) == Lookup(lines, t, k)
  {
    hide ValidKey, ValidValue, KeyAt, ValueOf, InTable, Written, Lookup, IsTableLine;
    var l := Written(lines[i], key, value);
    WrittenReadsBack(lines[i], key, value);
    if k != key {
      if KeyAt(k, lines[i]) {
        OneKeyPerLine(k, key, lines[i]);
      }
      if KeyAt(k, l) {
        OneKeyPerLine(k, key, l);
      }
    }
    ReplaceKeepsLookup(lines, i, l, t, k);
  }

  lemma AppendedKeepsLookup(lines: seq<string>, table: string, line: string, t: string, k: string)
    requires ValidTable(table) && ValidKey(k) && !IsTableLine(line) && (t != table || !KeyAt(k, line))
    ensures Lookup(Appended(lines, table, line), t, k) == Lookup(Kept(lines), t, k)
  {
    hide ValidTable, ValidKey, KeyAt, IsHeader, IsTableLine, ValueOf;
    var hdr := "[" + table + "]";
    HeaderReadsBack(table);
    AppendedFind(Kept(lines), table, hdr, line, t, k);
    assert Appended(lines, table, line) == Kept(lines) + [hdr, line, ""];
  }

  // ---- What the edited file looks like ----

  function Texts(lines: seq<string>): seq<string> {
    if lines == [] then []
    else Texts(lines[..|lines| - 1]) + if TrimSpace(lines[|lines| - 1]) != "" then [lines[|lines| - 1]] else []
  }

  lemma {:induction false} TextsAppend(a: seq<string>, b: seq<string>)
    ensures Texts(a + b) == Texts(a) + Texts(b)
  {
    hide TrimSpace;
    if b == [] {
      assert a + b == a;
    } else {
      TextsAppend(a, b[..|b| - 1]);
      assert (a + b)[..|a + b| - 1] == a + b[..|b| - 1];
    }
  }

  lemma {:induction false} NoTexts(lines: seq<string>)
    requires forall i | 0 <= i < |lines| :: lines[i] == ""
    ensures Texts(lines) == []
  {
    if lines != [] {
      NoTexts(lines[..|lines| - 1]);
      assert TrimSpace("") == "";
    }
  }

  lemma {:induction false} TextSurvivesLeft(s: string, c: char)
    requires c in s && !IsSpace(c)
    ensures c in TrimLeftSpace(s)
  {
    if IsSpace(s[0]) {
      TextSurvivesLeft(s[1..], c);
    }
  }

  lemma {:induction false} TextSurvivesRight(s: string, c: char)
    requires c in s && !IsSpace(c)
    ensures c in TrimRightSpace(s)
  {
    if IsSpace(s[|s| - 1]) {
      TextSurvivesRight(s[..|s| - 1], c);
    }
  }

  lemma {:induction false} SkipWhiteIsWithin(s: string, c: char)
    requires c in SkipWhite(s)
    ensures c in s
  {
    if s != "" && IsWhite(s[0]) {
      SkipWhiteIsWithin(s[1..], c);
    }
  }

  // A line that assigns a key is not blank.
  lemma KeyedIsText(key: string, line: string)
    requires KeyAt(key, line)
    ensures TrimSpace(line) != ""
  {
    hide SkipWhite, TrimLeftSpace, TrimRightSpace;
    var t := SkipWhite(line);
    var rest := t[|key|..];
    assert SkipWhite(rest)[0] == '=';
    SkipWhiteIsWithin(rest, '=');
    SkipWhiteIsWithin(line, '=');
    TextSurvivesLeft(line, '=');
    TextSurvivesRight(TrimLeftSpace(line), '=');
  }

  // Line i is replaced by l, and among the lines that are not blank nothing else changes.
  ghost predicate ReplacedAt(lines: seq<string>, lines': seq<string>, i: nat, l: string) {
    && i < |lines| && lines' == lines[i := l]
    && Texts(lines) == Texts(lines[..i]) + [lines[i]] + Texts(lines[i + 1..])
    && Texts(lines') == Texts(lines[..i]) + [l] + Texts(lines[i + 1..])
  }

  // l is put in before line at, and among the lines that are not blank nothing else changes.
  ghost predicate InsertedAt(lines: seq<string>, lines': seq<string>, at: nat, l: string) {
    && at <= |lines| && lines' == Insert(lines, at, l)
    && Texts(lines) == Texts(lines[..at]) + Texts(lines[at..])
    && Texts(lines') == Texts(lines[..at]) + [l] + Texts(lines[at..])
  }

  lemma OneText(l: string)
    requires TrimSpace(l) != ""
    ensures Texts([l]) == [l]
  {
    hide TrimSpace;
    assert [l][..0] == [];
    assert Texts([]) == [];
  }

  lemma ReplacedTexts(lines: seq<string>, i: nat, l: string)
    requires i < |lines| && TrimSpace(lines[i]) != "" && TrimSpace(l) != ""
    ensures ReplacedAt(lines, lines[i := l], i, l)
  {
    hide Texts, TrimSpace;
    var low, high := lines[..i], lines[i + 1..];
    OneText(lines[i]);
    OneText(l);
    assert lines == low + [lines[i]] + high && lines[i := l] == low + [l] + high;
    TextsAppend(low, [lines[i]]);
    TextsAppend(low, [l]);
    TextsAppend(low + [lines[i]], high);
    TextsAppend(low + [l], high);
  }

  lemma InsertedTexts(lines: seq<string>, at: nat, l: string)
    requires at <= |lines| && TrimSpace(l) != ""
    ensures InsertedAt(lines, Insert(lines, at, l), at, l)
  {
    hide Texts, TrimSpace;
    var low, high := lines[..at], lines[at..];
    OneText(l);
    assert lines == low + high;
    TextsAppend(low, high);
    TextsAppend(low, [l]);
    TextsAppend(low + [l], high);
  }

  // The lines between start and end are the first section of the table.
  predicate FirstSection(lines: seq<string>, table: string, start: nat, end: nat) {
    && start < end <= |lines| && IsHeader(lines[start], table) && (end < |lines| ==> IsTableLine(lines[end]))
    && (forall j | 0 <= j < start :: !IsHeader(lines[j], table))
    && (forall j | start < j < end :: !IsTableLine(lines[j]))
  }

  // The key's first assignment in the section is replaced where it stands.
  ghost predicate ReplacedIn(lines: seq<string>, lines': seq<string>, key: string, value: string, start: nat, end: nat)
    requires end <= |lines|
  {
    exists i: nat | start < i < end ::
      && ReplacedAt(lines, lines', i, Written(lines[i], key, value))
      && KeyAt(key, lines[i]) && forall j | start < j < i :: !KeyAt(key, lines[j])
  }

  // The line is put in after the section's last text, with only blank lines between it and the section's end.
  ghost predicate InsertedIn(lines: seq<string>, lines': seq<string>, line: string, start: nat, end: nat)
    requires end <= |lines|
  {
    exists at: nat | start < at <= end ::
      && InsertedAt(lines, lines', at, line)
      && (at > start + 1 ==> TrimSpace(lines[at - 1]) != "") && forall j | at <= j < end :: TrimSpace(lines[j]) == ""
  }

  // With no such table, its header and the assignment follow all that was there. Otherwise one line of the table's
  // first section changes.
  lemma OtherLinesKeepTheirOrder(lines: seq<string>, table: string, key: string, value: string)
    requires ValidTable(table) && ValidKey(key) && ValidValue(value)
    ensures var (lines', line) := (SetLines(lines, table, key, value), Assignment("", key, value, ""));
      if forall j | 0 <= j < |lines| :: !IsHeader(lines[j], table)
      then Texts(lines') == Texts(lines) + ["[" + table + "]", line]
      else exists start: nat, end: nat | FirstSection(lines, table, start, end) ::
        if forall j | start < j < end :: !KeyAt(key, lines[j]) then InsertedIn(lines, lines', line, start, end)
        else ReplacedIn(lines, lines', key, value, start, end)
  {
    hide ValidTable, ValidKey, ValidValue, KeyAt, Written, Assignment, FirstHeader, NextTable, FindIn, IsHeader;
    hide IsTableLine;
    hide AfterText, Appended, ReplacedIn, InsertedIn, SetLines, Insert, TrimSpace;
    SetLinesIs(lines, table, key, value);
    match FirstHeader(lines, table, 0)
    case None =>
      AppendedTexts(lines, table, key, value);
    case Some(start) =>
      var end := NextTable(lines, start + 1);
      assert FirstSection(lines, table, start, end);
      match FindIn(lines, key, start + 1, end)
      case Some(i) => ReplacesOne(lines, key, value, start, end, i);
      case None => PutsOneIn(lines, key, value, start, end);
  }

  lemma ReplacesOne(lines: seq<string>, key: string, value: string, start: nat, end: nat, i: nat)
    requires ValidKey(key) && ValidValue(value) && start < i < end <= |lines|
    requires KeyAt(key, lines[i]) && forall j | start < j < i :: !KeyAt(key, lines[j])
    ensures ReplacedIn(lines, lines[i := Written(lines[i], key, value)], key, value, start, end)
  {
    hide ValidKey, ValidValue, KeyAt, Written, TrimSpace, ReplacedAt;
    WrittenReadsBack(lines[i], key, value);
    KeyedIsText(key, lines[i]);
    KeyedIsText(key, Written(lines[i], key, value));
    ReplacedTexts(lines, i, Written(lines[i], key, value));
  }

  lemma PutsOneIn(lines: seq<string>, key: string, value: string, start: nat, end: nat)
    requires ValidKey(key) && ValidValue(value) && start < end <= |lines|
    ensures var line := Assignment("", key, value, "");
      InsertedIn(lines, Insert(lines, AfterText(lines, start + 1, end), line), line, start, end)
  {
    hide ValidKey, ValidValue, KeyAt, Assignment, TrimSpace, AfterText, InsertedAt;
    var line := Assignment("", key, value, "");
    LineReadsBack(key, value);
    KeyedIsText(key, line);
    InsertedTexts(lines, AfterText(lines, start + 1, end), line);
  }

  lemma AppendedTexts(lines: seq<string>, table: string, key: string, value: string)
    requires ValidTable(table) && ValidKey(key) && ValidValue(value)
    ensures var line := Assignment("", key, value, "");
            Texts(Appended(lines, table, line)) == Texts(lines) + ["[" + table + "]", line]
  {
    hide ValidTable, ValidKey, ValidValue, Assignment, TrimSpace, Texts;
    var line, hdr := Assignment("", key, value, ""), "[" + table + "]";
    var kept := StripEnd(lines);
    var gap: seq<string> := if kept == [] then [] else [""];
    NoTexts(gap);
    NoTexts(lines[|kept|..]);
    assert lines == kept + lines[|kept|..];
    TextsAppend(kept, lines[|kept|..]);
    TextsAppend(kept, gap);
    TextsAppend(kept + gap, [hdr, line, ""]);
    TextsOfPair(table, key, value);
  }

  lemma TextsOfPair(table: string, key: string, value: string)
    requires ValidTable(table) && ValidKey(key) && ValidValue(value)
    ensures Texts(["[" + table + "]", Assignment("", key, value, ""), ""]) ==
              ["[" + table + "]", Assignment("", key, value, "")]
  {
    var line, hdr := Assignment("", key, value, ""), "[" + table + "]";
    KeyIsClosed(key);
    assert TrimSpace(hdr) == hdr;
    assert line[0] == key[0] && line[|line| - 1] == value[|value| - 1];
    assert TrimSpace(line) == line;
    assert TrimSpace("") == "";
    var all := [hdr, line, ""];
    assert all[..2] == [hdr, line] && all[..2][..1] == [hdr] && all[..1] == [hdr] && [hdr][..0] == [];
    assert Texts([]) == [];
    assert Texts([hdr]) == [hdr];
    assert Texts([hdr, line]) == [hdr, line];
  }

  // ---- Removing ----

  predicate AssignedOnce(lines: seq<string>, table: string, key: string) {
    forall i, j | 0 <= i < j < |lines| :: !(Hit(lines, table, key, i) && Hit(lines, table, key, j))
  }

  // A key assigned at most once is gone after a removal.
  lemma RemoveThenLookup(lines: seq<string>, table: string, key: string)
    requires AssignedOnce(lines, table, key)
    ensures Lookup(Removed(lines, table, key), table, key) == None
  {
    hide Hit, KeyAt, IsTableLine, InTable;
    match Find(lines, table, key, 0)
    case None =>
    case Some(i) =>
      var rest := Without(lines, i);
      HitMeans(lines, table, key, i);
      WithoutIsInverse(lines, i);
      forall j | 0 <= j < |rest| ensures !Hit(rest, table, key, j) {
        InsertHits(rest, i, lines[i], table, key, j);
        assert !Hit(lines, table, key, if j < i then j else j + 1);
      }
      FindNone(rest, table, key);
  }

  lemma RemoveKeepsOtherLookups(lines: seq<string>, table: string, key: string, t: string, k: string)
    requires ValidKey(key) && ValidKey(k) && (t != table || k != key)
    ensures Lookup(Removed(lines, table, key), t, k) == Lookup(lines, t, k)
  {
    hide KeyAt, IsTableLine, ValidKey, Lookup;
    match Find(lines, table, key, 0)
    case None =>
    case Some(i) =>
      if Hit(lines, t, k, i) {
        OneKeyPerLine(k, key, lines[i]);
        InOneTable(lines, t, table, i);
      }
      WithoutKeepsLookup(lines, i, t, k);
  }

  lemma {:induction false} InOneTable(lines: seq<string>, a: string, b: string, i: nat)
    requires i <= |lines| && InTable(lines, a, i) && InTable(lines, b, i)
    ensures a == b
    decreases i
  {
    hide IsHeader, IsTableLine;
    if IsTableLine(lines[i - 1]) {
      OneTable(lines[i - 1], a, b);
    } else {
      InOneTable(lines, a, b, i - 1);
    }
  }

  // ---- Removing what was set ----

  // The table is there and its first section does not have the key.
  predicate ReadyFor(lines: seq<string>, table: string, key: string) {
    match FirstHeader(lines, table, 0)
    case None => false
    case Some(start) => FindIn(lines, key, start + 1, NextTable(lines, start + 1)).None?
  }

  lemma LengthTells(lines: seq<string>, table: string, key: string, value: string, start: nat, i: nat)
    requires ValidKey(key) && ValidValue(value) && FirstHeader(lines, table, 0) == Some(start)
    requires FindIn(lines, key, start + 1, NextTable(lines, start + 1)) == Some(i)
    ensures |Removed(lines[i := Written(lines[i], key, value)], table, key)| == |lines| - 1
  {
    hide ValidKey, ValidValue, Hit, KeyAt, IsTableLine, ValueOf, InTable, Written;
    NoEarlierHit(lines, table, key, start, NextTable(lines, start + 1), i);
    ReplacedLookup(lines, table, key, value, i);
  }

  lemma HeaderStays(lines: seq<string>, table: string, key: string, value: string)
    requires ValidTable(table) && ValidKey(key) && ValidValue(value) && FirstHeader(lines, table, 0) == None
    ensures Removed(Appended(lines, table, Assignment("", key, value, "")), table, key) != lines
  {
    hide ValidTable, ValidKey, ValidValue, KeyAt, IsTableLine, ValueOf, Assignment, IsHeader;
    var line, hdr := Assignment("", key, value, ""), "[" + table + "]";
    var before := Kept(lines);
    HeaderReadsBack(table);
    LineReadsBack(key, value);
    NoTableNoLookup(lines, table, key);
    KeptLookup(lines, table, key);
    AppendedFind(before, table, hdr, line, table, key);
    assert Appended(lines, table, line) == before + [hdr, line, ""];
    var rest := Without(before + [hdr, line, ""], |before| + 1);
    assert rest[|before|] == hdr;
    assert |before| < |lines| ==> !IsHeader(lines[|before|], table);
  }

  // Removing a key just set gives the file back exactly when its table was there without it.
  lemma RemoveUndoesSet(lines: seq<string>, table: string, key: string, value: string)
    requires ValidTable(table) && ValidKey(key) && ValidValue(value)
    ensures Removed(SetLines(lines, table, key, value), table, key) == lines <==> ReadyFor(lines, table, key)
  {
    hide ValidTable, ValidKey, ValidValue, Hit, KeyAt, IsTableLine, ValueOf, InTable, Written, Assignment, Appended;
    hide Lookup, FirstHeader, NextTable, FindIn, AfterText, IsHeader, Insert;
    match FirstHeader(lines, table, 0)
    case None => HeaderStays(lines, table, key, value);
    case Some(start) =>
      var end := NextTable(lines, start + 1);
      match FindIn(lines, key, start + 1, end)
      case Some(i) => LengthTells(lines, table, key, value, start, i);
      case None =>
        var at := AfterText(lines, start + 1, end);
        NoEarlierHit(lines, table, key, start, end, at);
        InsertedLookup(lines, table, key, value, at);
        InsertThenWithout(lines, at, Assignment("", key, value, ""));
  }
}
