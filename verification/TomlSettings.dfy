/** Saving one model's settings: its set keys written, the others removed, an empty table dropped
    (internal/config/modelsettings.go). */
module TomlSettings {
  import opened Results
  import opened GoStrings
  import opened TomlLines
  import opened TomlEdits
  import opened TomlFrames

  // ---- A line that says nothing ----

  // Blank, or only a comment.
  predicate Idle(l: string) {
    var t := TrimSpace(l);
    t == "" || t[0] == '#'
  }

  lemma {:induction false} TrimRightKeepsFirst(s: string)
    requires s != "" && !IsSpace(s[0])
    ensures TrimRightSpace(s) != "" && TrimRightSpace(s)[0] == s[0]
  {
    if IsSpace(s[|s| - 1]) {
      TrimRightKeepsFirst(s[..|s| - 1]);
    }
  }

  lemma {:induction false} SkipIsTrim(l: string)
    requires SkipWhite(l) != "" && !IsSpace(SkipWhite(l)[0])
    ensures TrimLeftSpace(l) == SkipWhite(l)
  {
    if IsWhite(l[0]) {
      SkipIsTrim(l[1..]);
    }
  }

  lemma IdleLine(l: string, key: string)
    requires Idle(l) && ValidKey(key)
    ensures !KeyAt(key, l) && !IsTableLine(l)
  {
    var t := SkipWhite(l);
    KeyIsClosed(key);
    if t != "" && !IsSpace(t[0]) {
      SkipIsTrim(l);
      TrimRightKeepsFirst(t);
    }
  }

  // ---- Dropping an empty table ----

  function FirstBusy(lines: seq<string>, i: nat, end: nat): (r: nat)
    requires i <= end <= |lines|
    ensures i <= r <= end && (r < end ==> !Idle(lines[r])) && forall j | i <= j < r :: Idle(lines[j])
    decreases end - i
  {
    if i == end || !Idle(lines[i]) then i else FirstBusy(lines, i + 1, end)
  }

  function DropBlank(lines: seq<string>, i: nat): seq<string> {
    if 0 < i < |lines| && TrimSpace(lines[i - 1]) == "" && TrimSpace(lines[i]) == "" then Without(lines, i) else lines
  }

  function WithoutEmpty(lines: seq<string>, table: string): seq<string> {
    match FirstHeader(lines, table, 0)
    case None => lines
    case Some(i) =>
      var end := NextTable(lines, i + 1);
      if FirstBusy(lines, i + 1, end) < end then lines else DropBlank(Without(lines, i), i)
  }

  method RemoveEmptyTable(doc: string, table: string) returns (r: string)
    ensures r == Join(WithoutEmpty(Split(doc), table))
  {
    hide TableOf, TrimSpace, IsHeader, Idle, Split, Join, FirstHeader, NextTable, FirstBusy;
    var lines := Split(doc);
    for i := 0 to |lines|
      invariant forall j | 0 <= j < i :: !IsHeader(lines[j], table)
    {
      if !IsHeader(lines[i], table) {
        continue;
      }
      FirstHeaderIs(lines, table, i);
      var j := i + 1;
      while j < |lines| && TableOf(lines[j]).None?
        invariant i < j <= |lines|
        invariant forall k | i < k < j :: !IsTableLine(lines[k]) && Idle(lines[k])
      {
        if !Idle(lines[j]) {
          BusyBeforeNext(lines, i + 1, j);
          JoinOfSplit(doc);
          return doc;
        }
        j := j + 1;
      }
      NextTableIs(lines, i + 1, j);
      NothingBusy(lines, i + 1, j);
      var rest := lines[..i] + lines[i + 1..];
      if i > 0 && i < |rest| && TrimSpace(rest[i - 1]) == "" && TrimSpace(rest[i]) == "" {
        rest := rest[..i] + rest[i + 1..];
      }
      return Join(rest);
    }
    NoHeader(lines, table);
    JoinOfSplit(doc);
    return doc;
  }

  // A line that says something: neither blank nor only a comment.
  predicate SaysSomething(l: string) {
    TrimSpace(l) != "" && TrimSpace(l)[0] != '#'
  }

  // Where the table's header is line i and the next table's, or the end, is line end, the header goes exactly when no
  // line between them says anything, and with it a blank line if that leaves two together; all other lines stay.
  lemma WithoutEmptyMeans(lines: seq<string>, table: string, i: nat, end: nat)
    requires i < end <= |lines| && IsHeader(lines[i], table) && forall j | 0 <= j < i :: !IsHeader(lines[j], table)
    requires (end < |lines| ==> IsTableLine(lines[end])) && forall j | i < j < end :: !IsTableLine(lines[j])
    ensures var blanks := 0 < i && i + 1 < |lines| && TrimSpace(lines[i - 1]) == "" && TrimSpace(lines[i + 1]) == "";
      WithoutEmpty(lines, table) ==
        if exists j | i < j < end :: SaysSomething(lines[j]) then lines
        else if blanks then lines[..i] + lines[i + 2..]
        else lines[..i] + lines[i + 1..]
  {
    hide TrimSpace, IsHeader, IsTableLine, FirstHeader, NextTable, FirstBusy;
    FirstHeaderIs(lines, table, i);
    NextTableIs(lines, i + 1, end);
    var rest := Without(lines, i);
    assert i < |rest| ==> rest[i] == lines[i + 1];
    assert i > 0 ==> rest[i - 1] == lines[i - 1];
    if i < |rest| {
      assert Without(rest, i) == lines[..i] + lines[i + 2..];
    }
  }

  // And without a header of that table everything stays.
  lemma NothingToDrop(lines: seq<string>, table: string)
    requires forall j | 0 <= j < |lines| :: !IsHeader(lines[j], table)
    ensures WithoutEmpty(lines, table) == lines
  {
    hide IsHeader, FirstHeader;
    NoHeader(lines, table);
  }

  lemma BusyBeforeNext(lines: seq<string>, i: nat, j: nat)
    requires i <= j < |lines| && !Idle(lines[j]) && forall k | i <= k <= j :: !IsTableLine(lines[k])
    ensures FirstBusy(lines, i, NextTable(lines, i)) < NextTable(lines, i)
  {
    hide Idle, IsTableLine;
    assert NextTable(lines, i) > j;
  }

  lemma NothingBusy(lines: seq<string>, i: nat, end: nat)
    requires i <= end <= |lines| && forall k | i <= k < end :: Idle(lines[k])
    ensures FirstBusy(lines, i, end) == end
  {
    hide Idle;
  }

  // ---- Dropping it changes no lookup ----

  lemma {:induction false} PastNextTable(lines: seq<string>, i: nat, table: string, end: nat, j: nat)
    requires i < end < j <= |lines| && IsTableLine(lines[end])
    ensures InTable(Without(lines, i), table, j - 1) == InTable(lines, table, j)
    decreases j
  {
    hide IsTableLine, IsHeader;
    var rest := Without(lines, i);
    assert rest[j - 2] == lines[j - 1];
    if !IsTableLine(lines[j - 1]) {
      PastNextTable(lines, i, table, end, j - 1);
    }
  }

  lemma HeaderDropHits(lines: seq<string>, i: nat, end: nat, t: string, k: string, j: nat)
    requires i < end <= |lines| && IsTableLine(lines[i]) && ValidKey(k)
    requires end < |lines| ==> IsTableLine(lines[end])
    requires forall x | i < x < end :: Idle(lines[x])
    requires j < |lines| && j != i
    ensures i < j < end ==> !Hit(lines, t, k, j) && !Hit(Without(lines, i), t, k, j - 1)
    ensures j < i ==> Hit(Without(lines, i), t, k, j) == Hit(lines, t, k, j)
    ensures j >= end ==> Hit(Without(lines, i), t, k, j - 1) == Hit(lines, t, k, j)
  {
    hide IsTableLine, IsHeader, KeyAt, InTable, ValidKey, Idle;
    var rest := Without(lines, i);
    if j < i {
      assert rest[j] == lines[j];
      InTableSame(rest, lines, t, j);
    } else {
      assert rest[j - 1] == lines[j];
      if j < end {
        IdleLine(lines[j], k);
      } else if j > end {
        PastNextTable(lines, i, t, end, j);
      }
    }
  }

  lemma HeaderDropKeepsLookup(lines: seq<string>, i: nat, end: nat, t: string, k: string)
    requires i < end <= |lines| && IsTableLine(lines[i]) && ValidKey(k)
    requires end < |lines| ==> IsTableLine(lines[end])
    requires forall x | i < x < end :: Idle(lines[x])
    ensures Lookup(Without(lines, i), t, k) == Lookup(lines, t, k)
  {
    hide IsTableLine, Hit, ValueOf, Idle, ValidKey;
    var rest := Without(lines, i);
    forall j | 0 <= j < |lines| && j != i
      ensures Hit(rest, t, k, if j < i then j else j - 1) == Hit(lines, t, k, j)
    {
      HeaderDropHits(lines, i, end, t, k, j);
    }
    HeaderIsNoHit(lines, i, t, k);
    match Find(lines, t, k, 0)
    case None =>
      forall x | 0 <= x < |rest| ensures !Hit(rest, t, k, x) {
        var j := if x < i then x else x + 1;
        assert !Hit(lines, t, k, j);
      }
      FindNone(rest, t, k);
    case Some(j) =>
      var at := if j < i then j else j - 1;
      forall x | 0 <= x < at ensures !Hit(rest, t, k, x) {
        var y := if x < i then x else x + 1;
        assert !Hit(lines, t, k, y);
      }
      FindIs(rest, t, k, at);
      assert rest[at] == lines[j];
  }

  lemma HeaderIsNoHit(lines: seq<string>, i: nat, t: string, k: string)
    requires i < |lines| && IsTableLine(lines[i])
    ensures !Hit(lines, t, k, i)
  {
  }

  lemma BlankDropKeepsLookup(lines: seq<string>, i: nat, t: string, k: string)
    requires ValidKey(k)
    ensures Lookup(DropBlank(lines, i), t, k) == Lookup(lines, t, k)
  {
    hide ValidKey, KeyAt, IsTableLine, TrimSpace, Lookup, InTable;
    if 0 < i < |lines| && TrimSpace(lines[i - 1]) == "" && TrimSpace(lines[i]) == "" {
      BlankIsIdle(lines[i]);
      IdleLine(lines[i], k);
      WithoutKeepsLookup(lines, i, t, k);
    }
  }

  lemma BlankIsIdle(l: string)
    requires TrimSpace(l) == ""
    ensures Idle(l)
  {
  }

  // Dropping an empty table's header changes no lookup of any key in any table.
  lemma DroppingKeepsLookups(lines: seq<string>, table: string, t: string, k: string)
    requires ValidKey(k)
    ensures Lookup(WithoutEmpty(lines, table), t, k) == Lookup(lines, t, k)
  {
    hide ValidKey, Lookup, Idle, IsTableLine, IsHeader, DropBlank;
    match FirstHeader(lines, table, 0)
    case None =>
    case Some(i) =>
      var end := NextTable(lines, i + 1);
      if FirstBusy(lines, i + 1, end) >= end {
        HeaderIsTableLine(lines[i], table);
        HeaderDropKeepsLookup(lines, i, end, t, k);
        BlankDropKeepsLookup(Without(lines, i), i, t, k);
      }
  }

  // A table that still has an assignment keeps its header.
  lemma BusyTableStays(lines: seq<string>, table: string, key: string, start: nat)
    requires ValidKey(key) && FirstHeader(lines, table, 0) == Some(start)
    requires FindIn(lines, key, start + 1, NextTable(lines, start + 1)).Some?
    ensures WithoutEmpty(lines, table) == lines
  {
    hide ValidKey, KeyAt, Idle, IsTableLine, IsHeader;
    var end := NextTable(lines, start + 1);
    var i := FindIn(lines, key, start + 1, end).value;
    if Idle(lines[i]) {
      IdleLine(lines[i], key);
    }
  }

  // ---- The settings, one after another ----

  function Step(lines: seq<string>, table: string, key: string, value: Option<string>): seq<string> {
    match value
    case Some(v) => SetLines(lines, table, key, v)
    case None => Removed(lines, table, key)
  }

  function Fold(lines: seq<string>, table: string, keys: seq<string>, get: string -> Option<string>): seq<string> {
    if keys == [] then lines
    else
      var key := keys[|keys| - 1];
      Step(Fold(lines, table, keys[..|keys| - 1], get), table, key, get(key))
  }

  function Saved(lines: seq<string>, table: string, keys: seq<string>, get: string -> Option<string>): seq<string> {
    WithoutEmpty(Fold(lines, table, keys, get), table)
  }

  predicate ValidSettings(table: string, keys: seq<string>, get: string -> Option<string>) {
    && ValidTable(table)
    && (forall i | 0 <= i < |keys| :: ValidKey(keys[i]) && (get(keys[i]).Some? ==> ValidValue(get(keys[i]).value)))
    && (forall i, j | 0 <= i < j < |keys| :: keys[i] != keys[j])
  }

  // ---- A key assigned once stays so ----

  lemma OnceInsert(lines: seq<string>, at: nat, l: string, t: string, k: string)
    requires at <= |lines| && !IsTableLine(l) && !(InTable(lines, t, at) && KeyAt(k, l)) && AssignedOnce(lines, t, k)
    ensures AssignedOnce(Insert(lines, at, l), t, k)
  {
    hide Hit, KeyAt, IsTableLine, InTable;
    var lines' := Insert(lines, at, l);
    forall j | 0 <= j < |lines'|
      ensures Hit(lines', t, k, j) == (j != at && Hit(lines, t, k, if j < at then j else j - 1))
    {
      InsertHits(lines, at, l, t, k, if j <= at then j else j - 1);
    }
  }

  lemma OnceWithout(lines: seq<string>, i: nat, t: string, k: string)
    requires i < |lines| && !IsTableLine(lines[i]) && AssignedOnce(lines, t, k)
    ensures AssignedOnce(Without(lines, i), t, k)
  {
    hide Hit, KeyAt, IsTableLine, InTable;
    var rest := Without(lines, i);
    WithoutIsInverse(lines, i);
    forall j | 0 <= j < |rest| ensures Hit(rest, t, k, j) == Hit(lines, t, k, if j < i then j else j + 1) {
      InsertHits(rest, i, lines[i], t, k, j);
    }
  }

  lemma OnceReplace(lines: seq<string>, i: nat, l: string, t: string, k: string)
    requires i < |lines| && !IsTableLine(lines[i]) && !IsTableLine(l) && AssignedOnce(lines, t, k)
    requires !InTable(lines, t, i) || !KeyAt(k, l)
    ensures AssignedOnce(lines[i := l], t, k)
  {
    hide Hit, KeyAt, IsTableLine, InTable;
    var lines' := lines[i := l];
    forall j | 0 <= j < |lines| ensures Hit(lines', t, k, j) ==> Hit(lines, t, k, j) {
      ReplaceHits(lines, i, l, t, k, j);
    }
  }

  lemma {:induction false} OncePrefix(lines: seq<string>, n: nat, t: string, k: string)
    requires n <= |lines| && AssignedOnce(lines, t, k)
    ensures AssignedOnce(lines[..n], t, k)
  {
    hide KeyAt, IsTableLine;
    forall j | 0 <= j < n ensures Hit(lines[..n], t, k, j) == Hit(lines, t, k, j) {
      InTableSame(lines[..n], lines, t, j);
    }
  }

  lemma OnceAppend(lines: seq<string>, table: string, line: string, t: string, k: string)
    requires ValidTable(table) && ValidKey(k) && !IsTableLine(line) && (t != table || !KeyAt(k, line)) &&
             AssignedOnce(lines, t, k)
    ensures AssignedOnce(Appended(lines, table, line), t, k)
  {
    hide ValidTable, ValidKey, KeyAt, IsHeader, IsTableLine, Hit, InTable;
    var hdr := "[" + table + "]";
    HeaderReadsBack(table);
    var kept := StripEnd(lines);
    assert kept == lines[..|kept|];
    OncePrefix(lines, |kept|, t, k);
    EmptyLine(k);
    OnceInsert(kept, |kept|, "", t, k);
    assert Insert(kept, |kept|, "") == kept + [""];
    var before := Kept(lines);
    assert AssignedOnce(before, t, k) by { assert kept + [] == kept; }
    var all := before + [hdr, line, ""];
    assert Appended(lines, table, line) == all;
    forall j | 0 <= j < |all| ensures Hit(all, t, k, j) == (j < |before| && Hit(before, t, k, j)) {
      AppendedHits(before, table, hdr, line, t, k, j);
    }
  }

  lemma OnceKept(lines: seq<string>, table: string, key: string, value: Option<string>, k: string)
    requires ValidTable(table) && ValidKey(key) && (value.Some? ==> ValidValue(value.value)) && ValidKey(k) && k != key
    requires AssignedOnce(lines, table, k)
    ensures AssignedOnce(Step(lines, table, key, value), table, k)
  {
    hide ValidTable, ValidKey, ValidValue, KeyAt, InTable, Written, Assignment, Appended, IsTableLine, AssignedOnce;
    match value
    case None =>
      match Find(lines, table, key, 0) {
        case Some(i) => OnceWithout(lines, i, table, k);
        case None =>
      }
    case Some(v) =>
      var line := Assignment("", key, v, "");
      LineReadsBack(key, v);
      if KeyAt(k, line) {
        OneKeyPerLine(k, key, line);
      }
      match FirstHeader(lines, table, 0)
      case None => OnceAppend(lines, table, line, table, k);
      case Some(start) =>
        var end := NextTable(lines, start + 1);
        match FindIn(lines, key, start + 1, end)
        case None => OnceInsert(lines, AfterText(lines, start + 1, end), line, table, k);
        case Some(i) =>
          var l := Written(lines[i], key, v);
          WrittenReadsBack(lines[i], key, v);
          if KeyAt(k, l) {
            OneKeyPerLine(k, key, l);
          }
          OnceReplace(lines, i, l, table, k);
  }

  lemma StepLookups(lines: seq<string>, table: string, key: string, value: Option<string>, t: string, k: string)
    requires ValidTable(table) && ValidKey(key) && (value.Some? ==> ValidValue(value.value)) && ValidKey(k)
    requires value.None? ==> AssignedOnce(lines, table, key)
    ensures t == table && k == key ==> Lookup(Step(lines, table, key, value), t, k) == value
    ensures t != table || k != key ==> Lookup(Step(lines, table, key, value), t, k) == Lookup(lines, t, k)
  {
    hide ValidTable, ValidKey, ValidValue, Lookup, SetLines, Removed, AssignedOnce;
    match value
    case Some(v) =>
      SetThenLookup(lines, table, key, v);
      if t != table || k != key {
        SetKeepsOtherLookups(lines, table, key, v, t, k);
      }
    case None =>
      RemoveThenLookup(lines, table, key);
      if t != table || k != key {
        RemoveKeepsOtherLookups(lines, table, key, t, k);
      }
  }

  lemma {:induction false} FoldOnce(lines: seq<string>, table: string, keys: seq<string>,
                                    get: string -> Option<string>, k: string)
    requires ValidSettings(table, keys, get) && ValidKey(k) && AssignedOnce(lines, table, k)
    requires forall i | 0 <= i < |keys| :: keys[i] != k
    ensures AssignedOnce(Fold(lines, table, keys, get), table, k)
  {
    hide ValidTable, ValidKey, ValidValue, AssignedOnce, Step;
    if keys != [] {
      var n := |keys| - 1;
      FoldOnce(lines, table, keys[..n], get, k);
      OnceKept(Fold(lines, table, keys[..n], get), table, keys[n], get(keys[n]), k);
    }
  }

  // After the fold each key has exactly its setting, and every other lookup is as it was.
  lemma {:induction false} FoldLookups(lines: seq<string>, table: string, keys: seq<string>,
                                       get: string -> Option<string>, t: string, k: string)
    requires ValidSettings(table, keys, get) && ValidKey(k)
    requires forall i | 0 <= i < |keys| :: AssignedOnce(lines, table, keys[i])
    ensures Lookup(Fold(lines, table, keys, get), t, k) ==
              if t == table && k in keys then get(k) else Lookup(lines, t, k)
  {
    hide ValidTable, ValidKey, ValidValue, AssignedOnce, Step, Lookup;
    if keys != [] {
      var n := |keys| - 1;
      var before := Fold(lines, table, keys[..n], get);
      assert k in keys <==> k in keys[..n] || k == keys[n];
      FoldLookups(lines, table, keys[..n], get, t, k);
      FoldOnce(lines, table, keys[..n], get, keys[n]);
      StepLookups(before, table, keys[n], get(keys[n]), t, k);
    }
  }

  // Saving leaves exactly the set keys in the model's table and changes no other lookup.
  lemma SavingMeans(lines: seq<string>, table: string, keys: seq<string>, get: string -> Option<string>, t: string,
                    k: string)
    requires ValidSettings(table, keys, get) && ValidKey(k)
    requires forall i | 0 <= i < |keys| :: AssignedOnce(lines, table, keys[i])
    ensures Lookup(Saved(lines, table, keys, get), t, k) ==
              if t == table && k in keys then get(k) else Lookup(lines, t, k)
  {
    hide ValidSettings, ValidKey, AssignedOnce, Lookup, Fold, WithoutEmpty;
    FoldLookups(lines, table, keys, get, t, k);
    DroppingKeepsLookups(Fold(lines, table, keys, get), table, t, k);
  }

  // ---- The edit of the document ----

  lemma WrittenHasNoNewline(line: string, key: string, value: string)
    requires NoNewline(line) && NoNewline(key) && NoNewline(value)
    ensures NoNewline(Written(line, key, value))
  {
    CommentInside(line, 0, Plain);
  }

  // Lines a document can be split into.
  predicate Splits(lines: seq<string>) {
    lines != [] && NoNewlines(lines)
  }

  lemma InsertSplits(lines: seq<string>, at: nat, l: string)
    requires Splits(lines) && at <= |lines| && NoNewline(l)
    ensures Splits(Insert(lines, at, l))
  {
    hide NoNewline;
  }

  lemma AppendSplits(lines: seq<string>, table: string, line: string)
    requires Splits(lines) && NoNewline(table) && NoNewline(line)
    ensures Splits(Appended(lines, table, line))
  {
    var kept, hdr := StripEnd(lines), "[" + table + "]";
    assert NoNewline(hdr) && NoNewline("");
    hide NoNewline;
    var gap: seq<string> := if kept == [] then [] else [""];
    assert NoNewlines(kept + gap);
  }

  lemma ReplaceSplits(lines: seq<string>, i: nat, l: string)
    requires Splits(lines) && NoNewline(l) && i < |lines|
    ensures Splits(lines[i := l])
  {
    hide NoNewline;
  }

  lemma SetKeepsLines(lines: seq<string>, table: string, key: string, value: string)
    requires Splits(lines) && NoNewline(table) && NoNewline(key) && NoNewline(value)
    ensures Splits(SetLines(lines, table, key, value))
  {
    var line := Assignment("", key, value, "");
    assert NoNewline(line);
    hide Written, FirstHeader, NextTable, FindIn, AfterText, NoNewline, Appended, Insert, Assignment, IsHeader, KeyAt;
    hide SetLines, IsTableLine;
    SetLinesIs(lines, table, key, value);
    match FirstHeader(lines, table, 0)
    case None => AppendSplits(lines, table, line);
    case Some(start) =>
      var end := NextTable(lines, start + 1);
      match FindIn(lines, key, start + 1, end)
      case Some(i) =>
        WrittenHasNoNewline(lines[i], key, value);
        ReplaceSplits(lines, i, Written(lines[i], key, value));
      case None => InsertSplits(lines, AfterText(lines, start + 1, end), line);
  }

  lemma RemoveKeepsLines(lines: seq<string>, table: string, key: string)
    requires Splits(lines)
    ensures Splits(Removed(lines, table, key))
  {
    hide KeyAt, IsHeader, NoNewline, IsTableLine;
    match Find(lines, table, key, 0)
    case None =>
    case Some(i) =>
      HitMeans(lines, table, key, i);
      assert i > 0;
  }

  lemma StepKeepsLines(lines: seq<string>, table: string, key: string, value: Option<string>)
    requires Splits(lines) && ValidTable(table) && ValidKey(key) && (value.Some? ==> ValidValue(value.value))
    ensures Splits(Step(lines, table, key, value))
  {
    hide SetLines, Removed, Splits, NoNewline;
    match value
    case Some(v) => SetKeepsLines(lines, table, key, v);
    case None => RemoveKeepsLines(lines, table, key);
  }

  lemma SplitBack(lines: seq<string>)
    requires Splits(lines)
    ensures Split(Join(lines)) == lines
  {
    SplitOfJoin(lines);
  }

  lemma SplitGives(doc: string)
    ensures Splits(Split(doc)) && Join(Split(doc)) == doc
  {
    JoinOfSplit(doc);
  }

  // The edit as the program makes it on the text of the file, one key after another.
  method EditSettings(doc: string, table: string, keys: seq<string>, get: string -> Option<string>) returns (r: string)
    requires ValidSettings(table, keys, get)
    ensures r == Join(Saved(Split(doc), table, keys, get))
  {
    hide Splits, Split, Join, Step, ValidTable, ValidKey, ValidValue, WithoutEmpty, SetLines, Removed;
    r := doc;
    SplitGives(doc);
    for i := 0 to |keys|
      invariant Splits(Fold(Split(doc), table, keys[..i], get))
      invariant r == Join(Fold(Split(doc), table, keys[..i], get))
    {
      ghost var before := Fold(Split(doc), table, keys[..i], get);
      SplitBack(before);
      assert keys[..i + 1][..i] == keys[..i];
      StepKeepsLines(before, table, keys[i], get(keys[i]));
      StepIs(before, table, keys[i], get(keys[i]));
      match get(keys[i])
      case Some(v) => r := SetTomlKey(r, table, keys[i], v);
      case None => r := RemoveTomlKey(r, table, keys[i]);
    }
    assert keys[..|keys|] == keys;
    SplitBack(Fold(Split(doc), table, keys, get));
    r := RemoveEmptyTable(r, table);
  }

  lemma StepIs(lines: seq<string>, table: string, key: string, value: Option<string>)
    ensures Step(lines, table, key, value) ==
              match value case Some(v) => SetLines(lines, table, key, v) case None => Removed(lines, table, key)
  {
  }
}
