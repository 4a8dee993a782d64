/** The lines of a TOML configuration file, as internal/config recognises them. */
module TomlLines {
  import opened Results
  import opened GoStrings

  // ---- Whitespace, tables and keys ----

  // \s in a regular expression.
  predicate IsWhite(c: char) {
    c == ' ' || c == '\t' || c == '\n' || c == '\U{000C}' || c == '\r'
  }

  function SkipWhite(s: string): (r: string)
    ensures |r| <= |s|
  {
    if s != "" && IsWhite(s[0]) then SkipWhite(s[1..]) else s
  }

  function DropWhiteEnd(s: string): string {
    if s != "" && IsWhite(s[|s| - 1]) then DropWhiteEnd(s[..|s| - 1]) else s
  }

  // The name the table expression captures from what is between the brackets: at least one character of it.
  function Captured(content: string): string
    requires content != ""
  {
    var name := DropWhiteEnd(SkipWhite(content));
    if name == "" then content[|content| - 1..] else name
  }

  function IndexOf(s: string, c: char): (r: nat)
    ensures r <= |s| && c !in s[..r] && (r < |s| ==> s[r] == c)
  {
    if s == "" || s[0] == c then 0 else
      var r := IndexOf(s[1..], c);
      assert s[..r + 1] == [s[0]] + s[1..][..r];
      r + 1
  }

  // Nothing but white space and a comment.
  predicate OnlyComment(s: string) {
    var t := SkipWhite(s);
    t == "" || t[0] == '#'
  }

  // ^\s*\[\[?\s*([^\]]+?)\s*\]\]?\s*(#.*)?$
  function TableOf(line: string): Option<string> {
    var t := SkipWhite(line);
    if t == "" || t[0] != '[' then None
    else
      var q := IndexOf(t, ']');
      if q <= 1 || q == |t| then None
      else if !OnlyComment(TrimPrefix(t[q + 1..], "]")) then None
      else if t[1] == '[' && q > 2 then Some(Captured(t[2..q]))
      else Some(Captured(t[1..q]))
  }

  // A header of that table, not of an array of tables.
  predicate IsHeader(line: string, table: string) {
    TableOf(line) == Some(table) && !("[[" <= TrimSpace(line))
  }

  // ^\s*key\s*=
  predicate KeyAt(key: string, line: string) {
    var t := SkipWhite(line);
    key <= t && "=" <= SkipWhite(t[|key|..])
  }

  function Indent(line: string): string {
    line[..|line| - |SkipWhite(line)|]
  }

  // ---- Comments ----

  // Where scanning stands: outside strings, or inside one of that quote.
  datatype Scan = Plain | Within(quote: char)

  function CommentFrom(line: string, i: nat, q: Scan): Option<nat>
    requires i <= |line|
    decreases |line| - i
  {
    if i == |line| then None
    else
      var c := line[i];
      if q.Within? && c == '\\' && q.quote == '"' then (if i + 2 <= |line| then CommentFrom(line, i + 2, q) else None)
      else if q.Within? && c == q.quote then CommentFrom(line, i + 1, Plain)
      else if q.Plain? && (c == '"' || c == '\'') then CommentFrom(line, i + 1, Within(c))
      else if q.Plain? && c == '#' then Some(i)
      else CommentFrom(line, i + 1, q)
  }

  method CommentStart(line: string) returns (r: int)
    ensures r == match CommentFrom(line, 0, Plain) case Some(j) => j case None => -1
  {
    var quote: Option<char> := None;
    var i := 0;
    while i < |line|
      invariant 0 <= i
      invariant i <= |line| ==>
                  CommentFrom(line, 0, Plain) ==
                    CommentFrom(line, i, if quote.Some? then Within(quote.value) else Plain)
      invariant i > |line| ==> CommentFrom(line, 0, Plain) == None
      decreases |line| - i
    {
      var c := line[i];
      if quote.Some? && c == '\\' && quote.value == '"' {
        i := i + 1;
      } else if quote.Some? && c == quote.value {
        quote := None;
      } else if quote.None? && (c == '"' || c == '\'') {
        quote := Some(c);
      } else if quote.None? && c == '#' {
        return i;
      }
      i := i + 1;
    }
    return -1;
  }

  // ---- Keys and values that can be written ----

  predicate IsBareChar(c: char) {
    'A' <= c <= 'Z' || 'a' <= c <= 'z' || '0' <= c <= '9' || c == '_' || c == '-'
  }

  predicate IsBare(k: string) {
    k != "" && forall i | 0 <= i < |k| :: IsBareChar(k[i])
  }

  // Where the double-quoted string that s[i..] is inside of ends.
  function StringEnd(s: string, i: nat): (r: nat)
    ensures i <= |s| ==> i <= r
    decreases |s| - i
  {
    if i >= |s| then i
    else if s[i] == '\\' then StringEnd(s, i + 2)
    else if s[i] == '"' then i
    else StringEnd(s, i + 1)
  }

  // A key as config.tomlKey writes it: bare, or one whole quoted string.
  predicate ValidKey(k: string) {
    NoNewline(k) && (IsBare(k) || (|k| >= 2 && k[0] == '"' && StringEnd(k, 1) == |k| - 1))
  }

  // The state scanning s[i..] ends in, when it meets no comment and no escape at its very end.
  function ScanTo(s: string, i: nat, q: Scan): Option<Scan>
    requires i <= |s|
    decreases |s| - i
  {
    if i == |s| then Some(q)
    else
      var c := s[i];
      if q.Within? && c == '\\' && q.quote == '"' then (if i + 2 <= |s| then ScanTo(s, i + 2, q) else None)
      else if q.Within? && c == q.quote then ScanTo(s, i + 1, Plain)
      else if q.Plain? && (c == '"' || c == '\'') then ScanTo(s, i + 1, Within(c))
      else if q.Plain? && c == '#' then None
      else ScanTo(s, i + 1, q)
  }

  // Every string in it is closed and it holds no comment.
  predicate Closed(s: string) {
    ScanTo(s, 0, Plain) == Some(Plain)
  }

  // The text of a value: its strings closed, no comment, nothing to trim.
  predicate ValidValue(v: string) {
    NoNewline(v) && v != "" && Closed(v) && !IsSpace(v[0]) && !IsSpace(v[|v| - 1])
  }

  predicate AllWhite(s: string) {
    forall i | 0 <= i < |s| :: IsWhite(s[i])
  }

  lemma {:induction false} SkipWhiteSplits(s: string)
    ensures |SkipWhite(s)| <= |s| && Indent(s) + SkipWhite(s) == s && AllWhite(Indent(s))
    ensures SkipWhite(s) == "" || !IsWhite(SkipWhite(s)[0])
  {
    if s != "" && IsWhite(s[0]) {
      SkipWhiteSplits(s[1..]);
      var a := s[1..];
      assert Indent(s) == [s[0]] + Indent(a);
    } else {
      assert Indent(s) == "";
    }
  }

  lemma {:induction false} SkipWhiteOver(a: string, b: string)
    requires AllWhite(a) && (b == "" || !IsWhite(b[0]))
    ensures SkipWhite(a + b) == b && Indent(a + b) == a
  {
    if a == "" {
      assert a + b == b;
    } else {
      assert (a + b)[1..] == a[1..] + b;
      SkipWhiteOver(a[1..], b);
      assert Indent(a + b) == a;
    }
  }

  // ---- No line assigns two keys ----

  lemma {:induction false} StringEndInPrefix(k: string, k': string, i: nat)
    requires k <= k' && i <= |k| && StringEnd(k, i) < |k|
    ensures StringEnd(k', i) == StringEnd(k, i)
    decreases |k| - i
  {
    if i < |k| {
      assert k[i] == k'[i];
      if k[i] == '\\' {
        StringEndInPrefix(k, k', i + 2);
      } else if k[i] != '"' {
        StringEndInPrefix(k, k', i + 1);
      }
    }
  }

  lemma ShorterKeyClashes(k: string, k': string, t: string)
    requires ValidKey(k) && ValidKey(k') && k <= t && k' <= t && |k| < |k'|
    ensures !("=" <= SkipWhite(t[|k|..]))
  {
    assert k <= k' by { assert k == t[..|k|] == t[..|k'|][..|k|]; }
    assert k[0] == k'[0];
    if IsBare(k') {
      assert t[|k|..][0] == k'[|k|];
    } else {
      StringEndInPrefix(k, k', 1);
    }
  }

  lemma OneKeyPerLine(k: string, k': string, line: string)
    requires ValidKey(k) && ValidKey(k') && KeyAt(k, line) && KeyAt(k', line)
    ensures k == k'
  {
    hide ValidKey;
    var t := SkipWhite(line);
    if |k| < |k'| {
      ShorterKeyClashes(k, k', t);
    } else if |k'| < |k| {
      ShorterKeyClashes(k', k, t);
    } else {
      assert k == t[..|k|] == k';
    }
  }

  // ---- Assignment lines ----

  function ValueFrom(line: string, from: nat): string {
    match CommentFrom(line, 0, Plain)
    case Some(j) => if from <= j <= |line| then TrimSpace(line[from..j]) else ""
    case None => if from <= |line| then TrimSpace(line[from..]) else ""
  }

  // The value an assignment of that key gives.
  function ValueOf(key: string, line: string): string
    requires KeyAt(key, line)
  {
    var after := SkipWhite(SkipWhite(line)[|key|..]);
    ValueFrom(line, if |line| - |after| + 1 >= 0 then |line| - |after| + 1 else 0)
  }

  function Comment(line: string): string {
    match CommentFrom(line, 0, Plain)
    case Some(j) => if j <= |line| then line[j..] else ""
    case None => ""
  }

  // An assignment as setTOMLKey writes it.
  function Assignment(indent: string, key: string, value: string, comment: string): string {
    indent + key + " = " + value + if comment == "" then "" else "   " + comment
  }

  lemma {:induction false} ScanConcat(a: string, b: string, i: nat, q: Scan)
    requires i <= |a| && ScanTo(a, i, q).Some?
    ensures ScanTo(a + b, i, q) == ScanTo(a + b, |a|, ScanTo(a, i, q).value)
    ensures CommentFrom(a + b, i, q) == CommentFrom(a + b, |a|, ScanTo(a, i, q).value)
    decreases |a| - i
  {
    if i < |a| {
      var c := a[i];
      assert (a + b)[i] == c;
      if q.Within? && c == '\\' && q.quote == '"' {
        ScanConcat(a, b, i + 2, q);
      } else if q.Within? && c == q.quote {
        ScanConcat(a, b, i + 1, Plain);
      } else if q.Plain? && (c == '"' || c == '\'') {
        ScanConcat(a, b, i + 1, Within(c));
      } else {
        ScanConcat(a, b, i + 1, q);
      }
    }
  }

  lemma {:induction false} ScanShift(a: string, b: string, i: nat, q: Scan)
    requires i <= |b|
    ensures ScanTo(a + b, |a| + i, q) == ScanTo(b, i, q)
    decreases |b| - i
  {
    if i < |b| {
      assert (a + b)[|a| + i] == b[i];
      forall k, p | i < k <= |b| ensures ScanTo(a + b, |a| + k, p) == ScanTo(b, k, p) {
        ScanShift(a, b, k, p);
      }
    }
  }

  lemma ClosedConcat(a: string, b: string)
    requires Closed(a) && Closed(b)
    ensures Closed(a + b)
  {
    ScanConcat(a, b, 0, Plain);
    ScanShift(a, b, 0, Plain);
  }

  lemma {:induction false} ClosedPlain(s: string, i: nat)
    requires i <= |s| && forall k | i <= k < |s| :: s[k] !in "\"'#"
    ensures ScanTo(s, i, Plain) == Some(Plain)
    decreases |s| - i
  {
    if i < |s| {
      ClosedPlain(s, i + 1);
    }
  }

  lemma {:induction false} ClosedQuoted(k: string, i: nat)
    requires i < |k| && StringEnd(k, i) == |k| - 1
    ensures ScanTo(k, i, Within('"')) == Some(Plain)
    decreases |k| - i
  {
    if k[i] == '\\' {
      ClosedQuoted(k, i + 2);
    } else if k[i] != '"' {
      ClosedQuoted(k, i + 1);
    } else {
      assert i + 1 == |k|;
    }
  }

  lemma KeyIsClosed(k: string)
    requires ValidKey(k)
    ensures Closed(k) && k != "" && !IsWhite(k[0]) && k[0] != '[' && k[0] != '#' && !IsSpace(k[0])
  {
    if IsBare(k) {
      assert forall i | 0 <= i < |k| :: IsBareChar(k[i]);
      ClosedPlain(k, 0);
    } else {
      ClosedQuoted(k, 1);
    }
  }

  lemma WhiteIsClosed(a: string)
    requires AllWhite(a)
    ensures Closed(a)
  {
    ClosedPlain(a, 0);
  }

  // Any line that assigns a value, with white space wherever there may be some, and a comment after it or none.
  function Assigning(a: string, key: string, b: string, c: string, value: string, d: string, comment: string): string {
    a + key + b + "=" + c + value + d + comment
  }

  lemma AssigningIsClosed(a: string, key: string, b: string, c: string, value: string, d: string)
    requires AllWhite(a) && AllWhite(b) && AllWhite(c) && AllWhite(d) && ValidKey(key) && ValidValue(value)
    ensures Closed(a + key + b + "=" + c + value + d)
  {
    hide Closed, ValidKey, AllWhite;
    WhiteIsClosed(a);
    KeyIsClosed(key);
    ClosedConcat(a, key);
    WhiteIsClosed(b);
    ClosedConcat(a + key, b);
    assert Closed("=") by { ClosedEquals(); }
    ClosedConcat(a + key + b, "=");
    WhiteIsClosed(c);
    ClosedConcat(a + key + b + "=", c);
    ClosedConcat(a + key + b + "=" + c, value);
    WhiteIsClosed(d);
    ClosedConcat(a + key + b + "=" + c + value, d);
  }

  lemma ClosedEquals()
    ensures Closed("=")
  {
    ClosedPlain("=", 0);
  }

  lemma WhiteIsSpace(s: string)
    requires AllWhite(s)
    ensures AllSpace(s)
  {
  }

  lemma TrimmedValue(c: string, v: string, d: string)
    requires AllWhite(c) && AllWhite(d) && v != "" && !IsSpace(v[0]) && !IsSpace(v[|v| - 1])
    ensures TrimSpace(c + v + d) == v
  {
    hide AllWhite, AllSpace;
    WhiteIsSpace(c);
    WhiteIsSpace(d);
    TrimSpaceOff(c, v, d);
    assert TrimLeftSpace(v) == v && TrimRightSpace(v) == v;
  }

  // Where the comment of such a line starts.
  lemma AssigningScans(a: string, key: string, b: string, c: string, value: string, d: string, comment: string)
    requires AllWhite(a) && AllWhite(b) && AllWhite(c) && AllWhite(d) && ValidKey(key) && ValidValue(value)
    requires comment == "" || comment[0] == '#'
    ensures var line := Assigning(a, key, b, c, value, d, comment);
      CommentFrom(line, 0, Plain) == if comment == "" then None else Some(|line| - |comment|)
  {
    hide ValidKey, ValidValue;
    var body := a + key + b + "=" + c + value + d;
    AssigningIsClosed(a, key, b, c, value, d);
    ScanConcat(body, comment, 0, Plain);
    assert Assigning(a, key, b, c, value, d, comment) == body + comment;
  }

  lemma AssigningKey(a: string, key: string, b: string, c: string, value: string, d: string, comment: string)
    requires AllWhite(a) && AllWhite(b) && ValidKey(key)
    ensures var line := Assigning(a, key, b, c, value, d, comment);
      && TableOf(line) == None && KeyAt(key, line) && Indent(line) == a && SkipWhite(line) == line[|a|..]
      && SkipWhite(SkipWhite(line)[|key|..]) == "=" + c + value + d + comment
  {
    hide ValidKey, AllWhite;
    KeyIsClosed(key);
    var tail := "=" + c + value + d + comment;
    var line := Assigning(a, key, b, c, value, d, comment);
    assert line == a + (key + (b + tail));
    SkipWhiteOver(a, key + (b + tail));
    assert (key + (b + tail))[|key|..] == b + tail;
    SkipWhiteOver(b, tail);
  }

  // However it is spaced, an assignment is read as that value, with its comment, by that key.
  lemma AssigningIsRead(a: string, key: string, b: string, c: string, value: string, d: string, comment: string)
    requires AllWhite(a) && AllWhite(b) && AllWhite(c) && AllWhite(d) && ValidKey(key) && ValidValue(value)
    requires comment == "" || comment[0] == '#'
    ensures var line := Assigning(a, key, b, c, value, d, comment);
      && TableOf(line) == None && KeyAt(key, line) && ValueOf(key, line) == value
      && Comment(line) == comment && Indent(line) == a
  {
    hide ValidKey, TableOf, KeyAt, CommentFrom, AllWhite, TrimSpace;
    AssigningKey(a, key, b, c, value, d, comment);
    AssigningScans(a, key, b, c, value, d, comment);
    var line := Assigning(a, key, b, c, value, d, comment);
    var from := |a| + |key| + |b| + 1;
    assert line[from..|line| - |comment|] == c + value + d;
    assert comment == "" ==> line[from..] == c + value + d;
    TrimmedValue(c, value, d);
  }

  // So an assignment written by setTOMLKey reads back.
  lemma AssignmentReadsBack(indent: string, key: string, value: string, comment: string)
    requires AllWhite(indent) && ValidKey(key) && ValidValue(value) && (comment == "" || comment[0] == '#')
    ensures var line := Assignment(indent, key, value, comment);
      && TableOf(line) == None && KeyAt(key, line) && ValueOf(key, line) == value
      && Comment(line) == comment && Indent(line) == indent
  {
    hide ValidKey, ValidValue, TableOf, KeyAt, Comment, ValueOf, Indent;
    var d := if comment == "" then "" else "   ";
    AssigningIsRead(indent, key, " ", " ", value, d, comment);
    assert Assignment(indent, key, value, comment) == Assigning(indent, key, " ", " ", value, d, comment);
  }

  ghost predicate KeyLine(line: string, key: string, a: string, b: string, rest: string) {
    line == a + key + b + "=" + rest && AllWhite(a) && AllWhite(b)
  }

  lemma KeyLineIsKey(line: string, key: string, a: string, b: string, rest: string)
    requires KeyLine(line, key, a, b, rest) && key != "" && !IsWhite(key[0])
    ensures KeyAt(key, line)
  {
    hide AllWhite, SkipWhite;
    assert line == a + (key + (b + ("=" + rest)));
    SkipWhiteOver(a, key + (b + ("=" + rest)));
    assert (key + (b + ("=" + rest)))[|key|..] == b + ("=" + rest);
    SkipWhiteOver(b, "=" + rest);
  }

  lemma KeyHasLine(line: string, key: string) returns (b: string, rest: string)
    requires KeyAt(key, line)
    ensures KeyLine(line, key, Indent(line), b, rest)
  {
    hide AllWhite, SkipWhite;
    SkipWhiteSplits(line);
    var after := SkipWhite(line)[|key|..];
    SkipWhiteSplits(after);
    b, rest := Indent(after), SkipWhite(after)[1..];
    assert SkipWhite(after) == "=" + rest;
    assert SkipWhite(line) == key + after;
  }

  // A line has an assignment of the key exactly when it begins so.
  lemma KeyForm(key: string, line: string)
    requires ValidKey(key)
    ensures KeyAt(key, line) <==> exists a, b, rest :: KeyLine(line, key, a, b, rest)
  {
    hide ValidKey, KeyAt, KeyLine;
    KeyIsClosed(key);
    if KeyAt(key, line) {
      var b, rest := KeyHasLine(line, key);
    } else if a, b, rest :| KeyLine(line, key, a, b, rest) {
      KeyLineIsKey(line, key, a, b, rest);
      assert false;
    }
  }

  // Texts without quotes and number signs are closed, and so are whole strings: a literal one whatever it holds, and
  // a basic one up to its first quote that is not escaped.
  lemma StringsAreClosed(s: string)
    ensures (forall k | 0 <= k < |s| :: s[k] != '\'' && s[k] != '"' && s[k] != '#') ==> Closed(s)
    ensures '\'' !in s ==> Closed("'" + s + "'")
    ensures '"' !in s && '\\' !in s ==> Closed("\"" + s + "\"")
  {
    if forall k | 0 <= k < |s| :: s[k] != '\'' && s[k] != '"' && s[k] != '#' {
      ClosedPlain(s, 0);
    }
    if '\'' !in s {
      WithinOne("'" + s + "'", 1, '\'');
    }
    if '"' !in s && '\\' !in s {
      WithinOne("\"" + s + "\"", 1, '"');
    }
  }

  lemma {:induction false} WithinOne(s: string, i: nat, quote: char)
    requires i < |s| && s[|s| - 1] == quote && (quote == '\'' || quote == '"')
    requires forall k | i <= k < |s| - 1 :: s[k] != quote && (quote == '"' ==> s[k] != '\\')
    ensures ScanTo(s, i, Within(quote)) == Some(Plain)
    decreases |s| - i
  {
    if i < |s| - 1 {
      WithinOne(s, i + 1, quote);
    } else {
      assert i + 1 == |s|;
    }
  }

  // ---- Header lines ----

  // A table name that its own header gives back.
  predicate ValidTable(t: string) {
    NoNewline(t) && t != "" && ']' !in t && t[0] != '[' && !IsWhite(t[0]) && !IsWhite(t[|t| - 1])
  }

  lemma {:induction false} IndexOfFirst(a: string, c: char, b: string)
    requires c !in a
    ensures IndexOf(a + [c] + b, c) == |a|
  {
    var s := a + [c] + b;
    if a != "" {
      assert s[1..] == a[1..] + [c] + b;
      IndexOfFirst(a[1..], c, b);
    }
  }

  lemma {:induction false} DropWhiteEndOver(a: string, b: string)
    requires AllWhite(b) && a != "" && !IsWhite(a[|a| - 1])
    ensures DropWhiteEnd(a + b) == a
  {
    if b == "" {
      assert a + b == a;
    } else {
      DropWhiteEndOver(a, b[..|b| - 1]);
      assert (a + b)[..|a + b| - 1] == a + b[..|b| - 1];
    }
  }

  lemma CapturedName(b: string, name: string, c: string)
    requires AllWhite(b) && AllWhite(c) && name != "" && !IsWhite(name[0]) && !IsWhite(name[|name| - 1])
    ensures Captured(b + name + c) == name
  {
    assert b + name + c == b + (name + c);
    SkipWhiteOver(b, name + c);
    DropWhiteEndOver(name, c);
  }

  // The parts of a table's line, brackets doubled or not, with a comment after them or none.
  ghost predicate TableLine(line: string, a: string, open: string, content: string, close: string, d: string,
                            comment: string) {
    && line == a + open + content + close + d + comment && AllWhite(a) && AllWhite(d)
    && (open == "[" || open == "[[") && content != "" && ']' !in content && (close == "]" || close == "]]")
    && (comment == "" || comment[0] == '#')
  }

  lemma CommentOnly(d: string, comment: string)
    requires AllWhite(d) && (comment == "" || comment[0] == '#')
    ensures OnlyComment(d + comment)
  {
    hide AllWhite, SkipWhite;
    SkipWhiteOver(d, comment);
  }

  lemma TrimmedBracket(close: string, d: string)
    requires OnlyComment(d) && (close == "]" || close == "]]")
    ensures TrimPrefix(close[1..] + d, "]") == d
  {
    assert d == "" || d[0] != ']';
    assert close[1..] + d == if close == "]" then d else "]" + d;
  }

  lemma TableText(open: string, content: string, close: string, d: string)
    requires OnlyComment(d) && (open == "[" || open == "[[") && content != "" && ']' !in content
    requires close == "]" || close == "]]"
    ensures var (t, q) := (open + content + close + d, |open| + |content|);
      && IndexOf(t, ']') == q && TrimPrefix(t[q + 1..], "]") == d && t[|open|..q] == content
      && t[0] == '[' && t[1] == (if open == "[" then content[0] else '[')
      && (open == "[" ==> t[2..q] == content[1..])
  {
    hide OnlyComment, TrimPrefix, IndexOf;
    var (t, q) := (open + content + close + d, |open| + |content|);
    var rest := close[1..] + d;
    assert t == (open + content) + [']'] + rest;
    IndexOfFirst(open + content, ']', rest);
    assert t[q + 1..] == rest;
    TrimmedBracket(close, d);
  }

  lemma InARow(a: string, b: string, c: string, d: string, e: string, f: string)
    ensures a + (b + c + d + (e + f)) == a + b + c + d + e + f
  {
  }

  lemma TableLineIsRead(line: string, a: string, open: string, content: string, close: string, d: string,
                        comment: string)
    requires TableLine(line, a, open, content, close, d, comment)
    ensures TableOf(line) ==
            Some(if open == "[" && content[0] == '[' && |content| > 1 then Captured(content[1..])
                 else Captured(content))
  {
    hide Captured, AllWhite, OnlyComment, IndexOf, TrimPrefix, SkipWhite;
    var t := open + content + close + (d + comment);
    InARow(a, open, content, close, d, comment);
    SkipWhiteOver(a, t);
    CommentOnly(d, comment);
    TableText(open, content, close, d + comment);
  }

  lemma Bracketed(t: string, q: nat)
    requires 1 < q < |t| && t[0] == '[' && t[q] == ']' && ']' !in t[..q]
    ensures var (content, rest) := (t[1..q], t[q + 1..]);
      && t == "[" + content + (if "]" <= rest then "]]" else "]") + TrimPrefix(rest, "]") && ']' !in content
  {
    var (content, rest) := (t[1..q], t[q + 1..]);
    assert t == "[" + content + "]" + rest;
    if "]" <= rest {
      assert rest == "]" + rest[1..];
    }
    forall i | 0 <= i < |content| ensures content[i] != ']' {
      assert t[..q][i + 1] == content[i];
    }
  }

  lemma TableHasForm(line: string) returns (content: string, close: string, d: string, comment: string)
    requires TableOf(line).Some?
    ensures TableLine(line, Indent(line), "[", content, close, d, comment)
  {
    hide Captured, AllWhite, SkipWhite, IndexOf, TrimPrefix;
    SkipWhiteSplits(line);
    var t := SkipWhite(line);
    var q := IndexOf(t, ']');
    Bracketed(t, q);
    close := if "]" <= t[q + 1..] then "]]" else "]";
    content := t[1..q];
    var rest := TrimPrefix(t[q + 1..], "]");
    SkipWhiteSplits(rest);
    d, comment := Indent(rest), SkipWhite(rest);
    InARow(Indent(line), "[", content, close, d, comment);
  }

  // A line is a table's exactly when it has that form.
  lemma TableForm(line: string)
    ensures TableOf(line).Some? <==>
            exists a, open, content, close, d, comment :: TableLine(line, a, open, content, close, d, comment)
  {
    hide TableOf, TableLine;
    if TableOf(line).Some? {
      var content, close, d, comment := TableHasForm(line);
    } else if a, open, content, close, d, comment :| TableLine(line, a, open, content, close, d, comment) {
      TableLineIsRead(line, a, open, content, close, d, comment);
      assert false;
    }
  }

  // And the table is the one named between the brackets, white space around the name apart; it is a header unless the
  // brackets are doubled.
  lemma TableNameIsRead(a: string, open: string, b: string, name: string, c: string, close: string, d: string,
                        comment: string, table: string)
    requires AllWhite(a) && AllWhite(b) && AllWhite(c) && AllWhite(d) && (comment == "" || comment[0] == '#')
    requires (open == "[" || open == "[[") && (close == "]" || close == "]]")
    requires name != "" && ']' !in name && name[0] != '[' && !IsWhite(name[0]) && !IsWhite(name[|name| - 1])
    ensures var line := a + open + b + name + c + close + d + comment;
      TableOf(line) == Some(name) && (IsHeader(line, table) <==> open == "[" && table == name)
  {
    hide Captured;
    var content := b + name + c;
    var line := a + open + b + name + c + close + d + comment;
    assert line == a + open + content + close + d + comment;
    assert content[0] != '[' by { assert content[0] == if b == "" then name[0] else b[0]; }
    assert TableLine(line, a, open, content, close, d, comment);
    TableLineIsRead(line, a, open, content, close, d, comment);
    CapturedName(b, name, c);
    assert line == a + open + content + close + (d + comment);
    DoubledShows(a, open, content, close, d + comment);
  }

  lemma TrimmedFromBracket(a: string, t: string)
    requires AllWhite(a) && t != "" && t[0] == '['
    ensures TrimSpace(a + t) == TrimRightSpace(t)
  {
    hide AllWhite, AllSpace, TrimRightSpace;
    WhiteIsSpace(a);
    TrimLeftOff(a, t);
  }

  lemma DoubledShows(a: string, open: string, content: string, close: string, d: string)
    requires AllWhite(a) && (open == "[" || open == "[[") && content != "" && content[0] != '['
    requires close == "]" || close == "]]"
    ensures "[[" <= TrimSpace(a + open + content + close + d) <==> open == "[["
  {
    hide AllWhite, TrimSpace, TrimRightSpace;
    var front := open + content;
    var t := front + (close + d);
    assert a + open + content + close + d == a + t;
    TrimmedFromBracket(a, t);
    TrimRightKeepsUpTo(front, close + d);
    assert front[1] == if open == "[" then content[0] else '[';
  }

  lemma {:induction false} TrimRightKeepsUpTo(s: string, rest: string)
    requires rest != "" && rest[0] == ']'
    ensures s < TrimRightSpace(s + rest)
  {
    var r := s + rest;
    if |rest| > 1 && IsSpace(r[|r| - 1]) {
      TrimRightKeepsUpTo(s, rest[..|rest| - 1]);
      assert r[..|r| - 1] == s + rest[..|rest| - 1];
    } else {
      assert r[|r| - 1] == rest[|rest| - 1];
    }
  }

  lemma HeaderReadsBack(table: string)
    requires ValidTable(table)
    ensures IsHeader("[" + table + "]", table)
  {
    hide IsHeader, TableOf;
    assert "" + "[" + "" + table + "" + "]" + "" + "" == "[" + table + "]";
    TableNameIsRead("", "[", "", table, "", "]", "", "", table);
  }
}
