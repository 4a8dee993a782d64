/** The functions of Go's strings package that the models rest on, over sequences of characters. */
module GoStrings {

  predicate HasSuffix(s: string, suffix: string) {
    |suffix| <= |s| && s[|s| - |suffix|..] == suffix
  }

  predicate OccursAt(s: string, sub: string, i: nat) {
    i + |sub| <= |s| && s[i..i + |sub|] == sub
  }

  predicate Contains(s: string, sub: string) {
    exists i: nat | i <= |s| :: OccursAt(s, sub, i)
  }

  function TrimPrefix(s: string, prefix: string): string {
    if prefix <= s then s[|prefix|..] else s
  }

  function TrimSuffix(s: string, suffix: string): string {
    if HasSuffix(s, suffix) then s[..|s| - |suffix|] else s
  }

  // Unicode White_Space, which is what strings.TrimSpace cuts.
  predicate IsSpace(c: char) {
    || '\t' <= c <= '\r'
    || c == ' '
    || c in {'\U{0085}', '\U{00A0}', '\U{1680}', '\U{2028}', '\U{2029}', '\U{202F}', '\U{205F}', '\U{3000}'}
    || '\U{2000}' <= c <= '\U{200A}'
  }

  predicate IsBlank(c: char) {
    c == ' ' || c == '\t'
  }

  function TrimLeftSpace(s: string): string {
    if s != "" && IsSpace(s[0]) then TrimLeftSpace(s[1..]) else s
  }

  function TrimRightSpace(s: string): string {
    if s != "" && IsSpace(s[|s| - 1]) then TrimRightSpace(s[..|s| - 1]) else s
  }

  function TrimSpace(s: string): string {
    TrimRightSpace(TrimLeftSpace(s))
  }

  // strings.TrimRight(s, " \t")
  function TrimRightBlank(s: string): string {
    if s != "" && IsBlank(s[|s| - 1]) then TrimRightBlank(s[..|s| - 1]) else s
  }

  lemma TrimLeftOfTrimRight(s: string)
    ensures TrimLeftSpace(TrimRightSpace(s)) == TrimRightSpace(TrimLeftSpace(s))
    decreases |s|
  {
    if s != "" && IsSpace(s[|s| - 1]) {
      var t := s[..|s| - 1];
      TrimLeftOfTrimRight(t);
      TrimLeftDropsLast(s);
    } else if s != "" {
      TrimLeftKeepsLast(s);
    }
  }

  lemma TrimLeftKeepsLast(s: string)
    requires s != "" && !IsSpace(s[|s| - 1])
    ensures TrimRightSpace(TrimLeftSpace(s)) == TrimLeftSpace(s)
  {
    if IsSpace(s[0]) {
      TrimLeftKeepsLast(s[1..]);
    }
  }

  lemma TrimLeftDropsLast(s: string)
    requires s != "" && IsSpace(s[|s| - 1])
    ensures TrimRightSpace(TrimLeftSpace(s)) == TrimRightSpace(TrimLeftSpace(s[..|s| - 1]))
  {
    if IsSpace(s[0]) {
      if |s| > 1 {
        TrimLeftDropsLast(s[1..]);
        assert s[1..][..|s[1..]| - 1] == s[..|s| - 1][1..];
      }
    }
  }

  lemma TrimRightSpaceOfBlank(s: string)
    ensures TrimRightSpace(TrimRightBlank(s)) == TrimRightSpace(s)
  {
  }

  // Cutting trailing blanks first makes no difference to a full trim.
  lemma TrimSpaceOfTrimRight(s: string)
    ensures TrimSpace(TrimRightBlank(s)) == TrimSpace(s)
  {
    TrimLeftOfTrimRight(s);
    TrimLeftOfTrimRight(TrimRightBlank(s));
    TrimRightSpaceOfBlank(s);
  }

  // ---- What trimming leaves ----

  predicate AllSpace(s: string) {
    forall i | 0 <= i < |s| :: IsSpace(s[i])
  }

  predicate AllBlank(s: string) {
    forall i | 0 <= i < |s| :: s[i] == ' ' || s[i] == '\t'
  }

  lemma {:induction false} TrimLeftIsSuffix(s: string) returns (a: string)
    ensures s == a + TrimLeftSpace(s) && AllSpace(a)
    ensures TrimLeftSpace(s) != "" ==> !IsSpace(TrimLeftSpace(s)[0])
  {
    a := "";
    if s != "" && IsSpace(s[0]) {
      var rest := TrimLeftIsSuffix(s[1..]);
      a := [s[0]] + rest;
      assert s == [s[0]] + s[1..];
    }
  }

  lemma {:induction false} TrimRightIsPrefix(s: string) returns (b: string)
    ensures s == TrimRightSpace(s) + b && AllSpace(b)
    ensures TrimRightSpace(s) != "" ==> !IsSpace(TrimRightSpace(s)[|TrimRightSpace(s)| - 1])
  {
    b := "";
    if s != "" && IsSpace(s[|s| - 1]) {
      var rest := TrimRightIsPrefix(s[..|s| - 1]);
      b := rest + [s[|s| - 1]];
      assert s == s[..|s| - 1] + [s[|s| - 1]];
    }
  }

  // Trimming takes off white space at both ends, and all of it.
  lemma TrimSpaceMeans(s: string) returns (a: string, b: string)
    ensures s == a + TrimSpace(s) + b && AllSpace(a) && AllSpace(b)
    ensures var t := TrimSpace(s); t != "" ==> !IsSpace(t[0]) && !IsSpace(t[|t| - 1])
  {
    a := TrimLeftIsSuffix(s);
    b := TrimRightIsPrefix(TrimLeftSpace(s));
    assert TrimSpace(s) != "" ==> TrimSpace(s)[0] == TrimLeftSpace(s)[0];
  }

  lemma {:induction false} TrimRightBlankMeans(s: string) returns (b: string)
    ensures s == TrimRightBlank(s) + b && AllBlank(b)
    ensures var t := TrimRightBlank(s); t != "" ==> t[|t| - 1] != ' ' && t[|t| - 1] != '\t'
  {
    b := "";
    if s != "" && IsBlank(s[|s| - 1]) {
      var rest := TrimRightBlankMeans(s[..|s| - 1]);
      b := rest + [s[|s| - 1]];
      assert s == s[..|s| - 1] + [s[|s| - 1]];
    }
  }

  lemma {:induction false} TrimRightBlankOff(s: string, b: string)
    requires AllBlank(b)
    ensures TrimRightBlank(s + b) == TrimRightBlank(s)
  {
    if b == "" {
      assert s + b == s;
    } else {
      TrimRightBlankOff(s, b[..|b| - 1]);
      assert (s + b)[..|s + b| - 1] == s + b[..|b| - 1];
    }
  }

  lemma {:induction false} TrimRightOff(s: string, b: string)
    requires AllSpace(b)
    ensures TrimRightSpace(s + b) == TrimRightSpace(s)
  {
    if b == "" {
      assert s + b == s;
    } else {
      TrimRightOff(s, b[..|b| - 1]);
      assert (s + b)[..|s + b| - 1] == s + b[..|b| - 1];
    }
  }

  lemma {:induction false} TrimLeftOff(a: string, s: string)
    requires AllSpace(a)
    ensures TrimLeftSpace(a + s) == TrimLeftSpace(s)
  {
    if a == "" {
      assert a + s == s;
    } else {
      TrimLeftOff(a[1..], s);
      assert (a + s)[1..] == a[1..] + s;
    }
  }

  lemma TrimSpaceOff(a: string, s: string, b: string)
    requires AllSpace(a) && AllSpace(b)
    ensures TrimSpace(a + s + b) == TrimSpace(s)
  {
    assert a + s + b == a + (s + b);
    TrimLeftOff(a, s + b);
    TrimLeftOfTrimRight(s + b);
    TrimRightOff(s, b);
    TrimLeftOfTrimRight(s);
  }

  // ---- Lines ----

  predicate NoNewline(s: string) {
    '\n' !in s
  }

  predicate NoNewlines(lines: seq<string>) {
    forall i | 0 <= i < |lines| :: NoNewline(lines[i])
  }

  // strings.Split(s, "\n")
  function Split(s: string): (r: seq<string>)
    ensures |r| >= 1 && NoNewlines(r)
  {
    if s == "" then [""]
    else if s[0] == '\n' then [""] + Split(s[1..])
    else
      var t := Split(s[1..]);
      assert NoNewline([s[0]] + t[0]) by { assert NoNewline(t[0]); }
      assert forall i | 1 <= i < |t| :: t[1..][i - 1] == t[i];
      [[s[0]] + t[0]] + t[1..]
  }

  // strings.Join(lines, "\n")
  function Join(lines: seq<string>): string {
    if |lines| == 0 then ""
    else if |lines| == 1 then lines[0]
    else lines[0] + "\n" + Join(lines[1..])
  }

  lemma {:induction false} JoinOfSplit(s: string)
    ensures Join(Split(s)) == s
  {
    if s != "" {
      JoinOfSplit(s[1..]);
      var t := Split(s[1..]);
      if s[0] == '\n' {
        assert Split(s)[1..] == t;
      } else if |t| > 1 {
        assert Split(s)[1..] == t[1..];
      }
    }
  }

  lemma {:induction false} SplitOne(l: string)
    requires NoNewline(l)
    ensures Split(l) == [l]
  {
    if l != "" {
      SplitOne(l[1..]);
      assert [l[0]] + l[1..] == l;
    }
  }

  lemma {:induction false} SplitFirst(l: string, rest: string)
    requires NoNewline(l)
    ensures Split(l + "\n" + rest) == [l] + Split(rest)
  {
    var s := l + "\n" + rest;
    if l == "" {
      assert s[1..] == rest;
    } else {
      SplitFirst(l[1..], rest);
      assert s[1..] == l[1..] + "\n" + rest;
      assert [l[0]] + l[1..] == l;
    }
  }

  lemma {:induction false} SplitOfJoin(lines: seq<string>)
    requires |lines| >= 1 && NoNewlines(lines)
    ensures Split(Join(lines)) == lines
  {
    if |lines| == 1 {
      SplitOne(lines[0]);
    } else {
      SplitOfJoin(lines[1..]);
      SplitFirst(lines[0], Join(lines[1..]));
    }
  }

  // The last piece of a split is empty exactly when the text is empty or ends in a newline.
  lemma {:induction false} SplitLast(s: string)
    ensures var r := Split(s); r[|r| - 1] == "" <==> s == "" || s[|s| - 1] == '\n'
  {
    if |s| > 1 {
      SplitLast(s[1..]);
    }
  }

  lemma EndsInNewline(s: string)
    ensures HasSuffix(s, "\n") <==> s != "" && s[|s| - 1] == '\n'
  {
    if s != "" {
      assert s[|s| - 1..] == [s[|s| - 1]];
    }
  }

  // ---- Line endings ----

  predicate NoCR(s: string) {
    '\r' !in s
  }

  predicate NoCRs(lines: seq<string>) {
    forall i | 0 <= i < |lines| :: NoCR(lines[i])
  }

  predicate HasCRLF(s: string) {
    exists i | 0 <= i < |s| - 1 :: s[i] == '\r' && s[i + 1] == '\n'
  }

  // strings.ReplaceAll(s, "\r\n", "\n")
  function ToLF(s: string): (r: string)
    ensures |r| <= |s|
    ensures HasCRLF(s) ==> |r| < |s|
    ensures !HasCRLF(s) ==> r == s
  {
    if s == "" then ""
    else if |s| >= 2 && s[0] == '\r' && s[1] == '\n' then
      assert HasCRLF(s);
      "\n" + ToLF(s[2..])
    else
      assert HasCRLF(s) ==> HasCRLF(s[1..]) by { HasCRLFTail(s); }
      assert HasCRLF(s[1..]) ==> HasCRLF(s) by { HasCRLFOfTail(s); }
      [s[0]] + ToLF(s[1..])
  }

  lemma HasCRLFTail(s: string)
    requires s != "" && !(|s| >= 2 && s[0] == '\r' && s[1] == '\n')
    ensures HasCRLF(s) ==> HasCRLF(s[1..])
  {
    if HasCRLF(s) {
      var i :| 0 <= i < |s| - 1 && s[i] == '\r' && s[i + 1] == '\n';
      assert s[1..][i - 1] == '\r' && s[1..][i] == '\n';
    }
  }

  lemma HasCRLFOfTail(s: string)
    requires s != ""
    ensures HasCRLF(s[1..]) ==> HasCRLF(s)
  {
    if HasCRLF(s[1..]) {
      var i :| 0 <= i < |s[1..]| - 1 && s[1..][i] == '\r' && s[1..][i + 1] == '\n';
      assert s[i + 1] == '\r' && s[i + 2] == '\n';
    }
  }

  // strings.ReplaceAll(s, "\n", "\r\n")
  function ToCRLF(s: string): string {
    if s == "" then ""
    else if s[0] == '\n' then "\r\n" + ToCRLF(s[1..])
    else [s[0]] + ToCRLF(s[1..])
  }

  lemma {:induction false} ToLFOfToCRLF(s: string)
    requires NoCR(s)
    ensures ToLF(ToCRLF(s)) == s
  {
    if s != "" {
      ToLFOfToCRLF(s[1..]);
      var c := ToCRLF(s);
      if s[0] == '\n' {
        assert c[2..] == ToCRLF(s[1..]);
      } else {
        assert c[1..] == ToCRLF(s[1..]);
      }
    }
  }

  lemma {:induction false} ToCRLFHasCRLF(s: string)
    requires '\n' in s
    ensures HasCRLF(ToCRLF(s))
  {
    var c := ToCRLF(s);
    if s[0] == '\n' {
      assert c[0] == '\r' && c[1] == '\n';
    } else {
      assert '\n' in s[1..];
      ToCRLFHasCRLF(s[1..]);
      assert c[1..] == ToCRLF(s[1..]);
      HasCRLFOfTail(c);
    }
  }
}
