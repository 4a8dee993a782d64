/** Compiling path globs to regular expressions (internal/tools/pathpolicy.go). Strings are sequences of characters;
    the compiler goes through a glob by bytes, in UTF-8 (RFC 3629, section 3). */
module Globs {
  import opened Results

  // ---- The regular expressions used ----

  // The pieces of an expression: a character, [^/]*, [^/], .*, and (.*/)?
  datatype Node = Lit(c: char) | AnyInSegment | OneInSegment | AnyText | Dirs

  predicate IsMeta(c: char) {
    c in "\\.+*?()|[]{}^$"
  }

  // regexp.QuoteMeta
  function Quote(s: string): string {
    if s == "" then "" else (if IsMeta(s[0]) then "\\" + [s[0]] else [s[0]]) + Quote(s[1..])
  }

  function Cons(n: Node, rest: Option<seq<Node>>): Option<seq<Node>> {
    if rest.Some? then Some([n] + rest.value) else None
  }

  // How regexp reads such an expression; None for syntax that none of them uses.
  function Read(text: string): Option<seq<Node>> {
    if text == "" then Some([])
    else if "(.*/)?" <= text then Cons(Dirs, Read(text[6..]))
    else if ".*" <= text then Cons(AnyText, Read(text[2..]))
    else if "[^/]*" <= text then Cons(AnyInSegment, Read(text[5..]))
    else if "[^/]" <= text then Cons(OneInSegment, Read(text[4..]))
    else if text[0] == '\\' && |text| > 1 && IsMeta(text[1]) then Cons(Lit(text[1]), Read(text[2..]))
    else if IsMeta(text[0]) then None
    else Cons(Lit(text[0]), Read(text[1..]))
  }

  // What one piece matches: . is any character but a newline.
  predicate NodeAccepts(n: Node, s: string) {
    match n
    case Lit(c) => s == [c]
    case OneInSegment => |s| == 1 && s[0] != '/'
    case AnyInSegment => '/' !in s
    case AnyText => '\n' !in s
    case Dirs => s == "" || ('\n' !in s && s[|s| - 1] == '/')
  }

  // What an expression matches from end to end: its pieces one after the other.
  predicate Accepts(nodes: seq<Node>, s: string)
    decreases |nodes|
  {
    if nodes == [] then s == ""
    else exists k | 0 <= k <= |s| :: NodeAccepts(nodes[0], s[..k]) && Accepts(nodes[1..], s[k..])
  }

  // ---- Bytes ----

  // The UTF-8 encoding of a character, each byte as the character of that number, which is what string(c) makes of
  // a byte c.
  function Bytes(c: char): (b: string)
    ensures b != "" && (IsAscii(c) ==> b == [c])
    ensures !IsAscii(c) ==> |b| >= 2 && forall i | 0 <= i < |b| :: !IsAscii(b[i])
  {
    var n := c as int;
    if n < 0x80 then [c]
    else if n < 0x800 then [Byte(0xC0 + n / 64), Byte(0x80 + n % 64)]
    else if n < 0x1_0000 then [Byte(0xE0 + n / 4096), Byte(0x80 + n / 64 % 64), Byte(0x80 + n % 64)]
    else [Byte(0xF0 + n / 0x4_0000), Byte(0x80 + n / 4096 % 64), Byte(0x80 + n / 64 % 64), Byte(0x80 + n % 64)]
  }

  function Byte(n: nat): char
    requires n < 0x100
  {
    n as char
  }

  predicate IsAscii(c: char) {
    c as int < 0x80
  }

  predicate AllAscii(s: string) {
    forall i | 0 <= i < |s| :: IsAscii(s[i])
  }

  function ByteText(s: string): string {
    if s == "" then "" else Bytes(s[0]) + ByteText(s[1..])
  }

  lemma {:induction false} AsciiIsItsBytes(s: string)
    requires AllAscii(s)
    ensures ByteText(s) == s
  {
    hide Bytes;
    if s != "" {
      AsciiIsItsBytes(s[1..]);
    }
  }

  // ---- Compiling ----

  function Compiled(glob: string): string {
    if glob == "" then ""
    else if "**/" <= glob then "(.*/)?" + Compiled(glob[3..])
    else if "**" <= glob then ".*" + Compiled(glob[2..])
    else if glob[0] == '*' then "[^/]*" + Compiled(glob[1..])
    else if glob[0] == '?' then "[^/]" + Compiled(glob[1..])
    else Quote([glob[0]]) + Compiled(glob[1..])
  }

  lemma CompiledDirs(glob: string, i: nat)
    requires i + 2 < |glob| && glob[i] == '*' && glob[i + 1] == '*' && glob[i + 2] == '/'
    ensures Compiled(glob[i..]) == "(.*/)?" + Compiled(glob[i + 3..])
  {
    assert glob[i..][..3] == "**/" && glob[i..][3..] == glob[i + 3..];
  }

  lemma CompiledAnyText(glob: string, i: nat)
    requires i + 1 < |glob| && glob[i] == '*' && glob[i + 1] == '*' && !(i + 2 < |glob| && glob[i + 2] == '/')
    ensures Compiled(glob[i..]) == ".*" + Compiled(glob[i + 2..])
  {
    var rest := glob[i..];
    assert rest[..2] == "**" && rest[2..] == glob[i + 2..];
    assert |rest| > 2 ==> rest[2] != '/';
  }

  lemma CompiledOne(glob: string, i: nat)
    requires i < |glob| && !(glob[i] == '*' && i + 1 < |glob| && glob[i + 1] == '*')
    ensures Compiled(glob[i..])
         == (if glob[i] == '*' then "[^/]*" else if glob[i] == '?' then "[^/]" else Quote([glob[i]])) +
              Compiled(glob[i + 1..])
  {
    var rest := glob[i..];
    assert rest[0] == glob[i] && rest[1..] == glob[i + 1..];
    assert |rest| > 1 ==> rest[1] == glob[i + 1];
  }

  method GlobToRegex(glob: string) returns (text: string)
    ensures text == Compiled(ByteText(glob))
  {
    hide Compiled, Quote, ByteText;
    var bytes := ByteText(glob);
    text := "";
    var i := 0;
    assert bytes[0..] == bytes;
    while i < |bytes|
      invariant 0 <= i <= |bytes| && text + Compiled(bytes[i..]) == Compiled(bytes)
    {
      var c := bytes[i];
      if c == '*' && i + 1 < |bytes| && bytes[i + 1] == '*' {
        if i + 2 < |bytes| && bytes[i + 2] == '/' {
          CompiledDirs(bytes, i);
          Regroup(text, "(.*/)?", Compiled(bytes[i + 3..]));
          text := text + "(.*/)?";
          i := i + 2;
        } else {
          CompiledAnyText(bytes, i);
          Regroup(text, ".*", Compiled(bytes[i + 2..]));
          text := text + ".*";
          i := i + 1;
        }
      } else {
        CompiledOne(bytes, i);
        var piece := if c == '*' then "[^/]*" else if c == '?' then "[^/]" else Quote([c]);
        Regroup(text, piece, Compiled(bytes[i + 1..]));
        text := text + piece;
      }
      i := i + 1;
    }
    assert Compiled(bytes[i..]) == "" by { assert bytes[i..] == ""; CompiledNothing(); }
  }

  lemma CompiledNothing()
    ensures Compiled("") == ""
  {
  }

  lemma Regroup(a: string, b: string, c: string)
    ensures a + (b + c) == a + b + c
  {
  }

  // ---- A direct matcher ----

  function Past(s: string, i: nat): (r: string)
    requires i < |s|
    ensures |r| < |s|
  {
    s[i + 1..]
  }

  // * within a segment, ** across segments, **/ nothing or any directories, ? one character but a slash.
  predicate GlobMatches(glob: string, s: string)
    decreases |glob| + |s|
  {
    if glob == "" then s == ""
    else if "**/" <= glob then
      GlobMatches(glob[3..], s) || exists i | 0 <= i < |s| :: s[i] == '/' && GlobMatches(glob[3..], Past(s, i))
    else if "**" <= glob then
      GlobMatches(glob[2..], s) || (s != "" && GlobMatches(glob, s[1..]))
    else if glob[0] == '*' then
      GlobMatches(glob[1..], s) || (s != "" && s[0] != '/' && GlobMatches(glob, s[1..]))
    else if glob[0] == '?' then
      s != "" && s[0] != '/' && GlobMatches(glob[1..], s[1..])
    else
      s != "" && s[0] == glob[0] && GlobMatches(glob[1..], s[1..])
  }

  // ---- The compiled text reads back as the glob's pieces ----

  function Pieces(glob: string): seq<Node> {
    if glob == "" then []
    else if "**/" <= glob then [Dirs] + Pieces(glob[3..])
    else if "**" <= glob then [AnyText] + Pieces(glob[2..])
    else if glob[0] == '*' then [AnyInSegment] + Pieces(glob[1..])
    else if glob[0] == '?' then [OneInSegment] + Pieces(glob[1..])
    else [Lit(glob[0])] + Pieces(glob[1..])
  }

  predicate StartsClean(text: string) {
    text == "" || (text[0] != '*' && text[0] != '?')
  }

  lemma ReadDirs(text: string)
    ensures Read("(.*/)?" + text) == Cons(Dirs, Read(text))
  {
    var all := "(.*/)?" + text;
    assert all[6..] == text && all[..6] == "(.*/)?";
  }

  lemma ReadAnyText(text: string)
    ensures Read(".*" + text) == Cons(AnyText, Read(text))
  {
    var all := ".*" + text;
    assert all[0] == '.' && all[1] == '*' && all[2..] == text;
  }

  lemma ReadAnyInSegment(text: string)
    ensures Read("[^/]*" + text) == Cons(AnyInSegment, Read(text))
  {
    var all := "[^/]*" + text;
    assert all[0] == '[' && all[5..] == text;
  }

  lemma ReadOneInSegment(text: string)
    requires StartsClean(text)
    ensures Read("[^/]" + text) == Cons(OneInSegment, Read(text))
  {
    var all := "[^/]" + text;
    assert all[0] == '[' && all[4..] == text;
    assert text != "" ==> all[4] == text[0];
  }

  lemma ReadQuoted(c: char, text: string)
    ensures Read(Quote([c]) + text) == Cons(Lit(c), Read(text))
  {
    var all := Quote([c]) + text;
    assert [c][1..] == "" && Quote("") == "";
    if IsMeta(c) {
      assert Quote([c]) == ['\\', c];
      assert all[0] == '\\' && all[1] == c;
      assert all[2..] == text;
    } else {
      assert all == [c] + text;
      assert all[1..] == text;
    }
  }

  lemma CompiledStartsClean(glob: string)
    ensures StartsClean(Compiled(glob))
  {
  }

  lemma {:induction false} CompiledReadsBack(glob: string)
    ensures Read(Compiled(glob)) == Some(Pieces(glob))
  {
    hide Read, Quote;
    if glob == "" {
      ReadNothing();
    } else if "**/" <= glob {
      CompiledReadsBack(glob[3..]);
      ReadDirs(Compiled(glob[3..]));
    } else if "**" <= glob {
      CompiledReadsBack(glob[2..]);
      ReadAnyText(Compiled(glob[2..]));
    } else {
      var rest := Compiled(glob[1..]);
      CompiledReadsBack(glob[1..]);
      if glob[0] == '*' {
        ReadAnyInSegment(rest);
      } else if glob[0] == '?' {
        CompiledStartsClean(glob[1..]);
        ReadOneInSegment(rest);
      } else {
        ReadQuoted(glob[0], rest);
      }
    }
  }

  lemma ReadNothing()
    ensures Read("") == Some([])
  {
  }

  // ---- And accepts what the glob matches ----

  lemma AcceptsSplit(n: Node, rest: seq<Node>, s: string, k: nat)
    requires k <= |s| && NodeAccepts(n, s[..k]) && Accepts(rest, s[k..])
    ensures Accepts([n] + rest, s)
  {
    assert ([n] + rest)[1..] == rest;
  }

  lemma AcceptsInverse(n: Node, rest: seq<Node>, s: string) returns (k: nat)
    requires Accepts([n] + rest, s)
    ensures k <= |s| && NodeAccepts(n, s[..k]) && Accepts(rest, s[k..])
  {
    var nodes := [n] + rest;
    assert nodes[1..] == rest;
    k :| 0 <= k <= |s| && NodeAccepts(nodes[0], s[..k]) && Accepts(nodes[1..], s[k..]);
  }

  // A repeated piece matches nothing, or one more character and then itself again.
  predicate Repeats(n: Node, c: char) {
    (n.AnyInSegment? && c != '/') || (n.AnyText? && c != '\n')
  }

  lemma StarStep(n: Node, rest: seq<Node>, s: string)
    requires n.AnyInSegment? || n.AnyText?
    ensures Accepts([n] + rest, s) <==> Accepts(rest, s) || (s != "" && Repeats(n, s[0]) && Accepts([n] + rest, s[1..]))
  {
    hide Accepts;
    if Accepts(rest, s) {
      assert s[0..] == s && s[..0] == "";
      AcceptsSplit(n, rest, s, 0);
    }
    if s != "" && Repeats(n, s[0]) && Accepts([n] + rest, s[1..]) {
      var k := AcceptsInverse(n, rest, s[1..]);
      assert s[..k + 1] == [s[0]] + s[1..][..k];
      assert s[k + 1..] == s[1..][k..];
      AcceptsSplit(n, rest, s, k + 1);
    }
    if Accepts([n] + rest, s) {
      var k := AcceptsInverse(n, rest, s);
      if k == 0 {
        assert s[0..] == s;
      } else {
        assert s[1..][..k - 1] == s[..k][1..];
        assert s[1..][k - 1..] == s[k..];
        assert s[0] == s[..k][0];
        AcceptsSplit(n, rest, s[1..], k - 1);
      }
    }
  }

  lemma OneStep(n: Node, rest: seq<Node>, s: string)
    requires n.Lit? || n.OneInSegment?
    ensures Accepts([n] + rest, s) <==> s != "" && NodeAccepts(n, [s[0]]) && Accepts(rest, s[1..])
  {
    hide Accepts;
    if s != "" && NodeAccepts(n, [s[0]]) && Accepts(rest, s[1..]) {
      assert s[..1] == [s[0]];
      AcceptsSplit(n, rest, s, 1);
    }
    if Accepts([n] + rest, s) {
      var k := AcceptsInverse(n, rest, s);
      assert k == 1;
      assert s[..1] == [s[0]];
    }
  }

  lemma DirsTake(rest: seq<Node>, s: string, i: nat)
    requires '\n' !in s && i < |s| && s[i] == '/' && Accepts(rest, Past(s, i))
    ensures Accepts([Dirs] + rest, s)
  {
    hide Accepts;
    assert s[..i + 1][i] == '/';
    AcceptsSplit(Dirs, rest, s, i + 1);
  }

  lemma DirsStep(rest: seq<Node>, s: string)
    requires '\n' !in s
    ensures Accepts([Dirs] + rest, s) <==>
              Accepts(rest, s) || exists i | 0 <= i < |s| :: s[i] == '/' && Accepts(rest, Past(s, i))
  {
    hide Accepts;
    assert s[0..] == s;
    if Accepts([Dirs] + rest, s) {
      var k := AcceptsInverse(Dirs, rest, s);
      if k > 0 {
        assert s[..k][k - 1] == s[k - 1];
        assert s[k - 1] == '/' && Accepts(rest, Past(s, k - 1));
      }
    } else {
      if Accepts(rest, s) {
        AcceptsSplit(Dirs, rest, s, 0);
      }
      forall i | 0 <= i < |s| ensures !(s[i] == '/' && Accepts(rest, Past(s, i))) {
        if s[i] == '/' && Accepts(rest, Past(s, i)) {
          DirsTake(rest, s, i);
        }
      }
    }
  }

  lemma {:induction false} PiecesMeanTheGlob(glob: string, s: string)
    requires '\n' !in s
    ensures Accepts(Pieces(glob), s) <==> GlobMatches(glob, s)
    decreases |glob| + |s|
  {
    hide Accepts;
    if glob == "" {
      AcceptsNothing(s);
    } else if "**/" <= glob {
      DirsStep(Pieces(glob[3..]), s);
      PiecesMeanTheGlob(glob[3..], s);
      forall i | 0 <= i < |s| ensures Accepts(Pieces(glob[3..]), Past(s, i)) <==> GlobMatches(glob[3..], Past(s, i)) {
        PiecesMeanTheGlob(glob[3..], Past(s, i));
      }
    } else if "**" <= glob {
      StarStep(AnyText, Pieces(glob[2..]), s);
      PiecesMeanTheGlob(glob[2..], s);
      if s != "" {
        PiecesMeanTheGlob(glob, s[1..]);
      }
    } else {
      var rest := Pieces(glob[1..]);
      if glob[0] == '*' {
        StarStep(AnyInSegment, rest, s);
        PiecesMeanTheGlob(glob[1..], s);
        if s != "" {
          PiecesMeanTheGlob(glob, s[1..]);
        }
      } else {
        OneStep(if glob[0] == '?' then OneInSegment else Lit(glob[0]), rest, s);
        if s != "" {
          PiecesMeanTheGlob(glob[1..], s[1..]);
        }
      }
    }
  }

  lemma AcceptsNothing(s: string)
    ensures Accepts([], s) <==> s == ""
  {
  }

  // The text it compiles to is an expression, and accepts exactly the paths that match.
  lemma CompiledMeans(glob: string, path: string)
    requires '\n' !in path
    ensures Read(Compiled(glob)).Some?
    ensures Accepts(Read(Compiled(glob)).value, path) <==> GlobMatches(glob, path)
  {
    CompiledReadsBack(glob);
    PiecesMeanTheGlob(glob, path);
  }

  // ---- Which globs keep their meaning ----

  // A path that matches, as short as any.
  function Shortest(glob: string): string {
    if glob == "" then ""
    else if "**/" <= glob then Shortest(glob[3..])
    else if "**" <= glob then Shortest(glob[2..])
    else if glob[0] == '*' then Shortest(glob[1..])
    else (if glob[0] == '?' then "a" else [glob[0]]) + Shortest(glob[1..])
  }

  lemma {:induction false} ShortestMatches(glob: string)
    requires '\n' !in glob
    ensures GlobMatches(glob, Shortest(glob)) && '\n' !in Shortest(glob)
  {
    if glob == "" {
    } else if "**/" <= glob {
      ShortestMatches(glob[3..]);
    } else if "**" <= glob {
      ShortestMatches(glob[2..]);
    } else {
      ShortestMatches(glob[1..]);
      if glob[0] != '*' {
        assert Shortest(glob)[1..] == Shortest(glob[1..]);
      }
    }
  }

  lemma {:induction false} NoneIsShorter(glob: string, s: string)
    requires GlobMatches(glob, s)
    ensures |Shortest(glob)| <= |s|
    decreases |glob| + |s|
  {
    if glob == "" {
    } else if "**/" <= glob {
      if GlobMatches(glob[3..], s) {
        NoneIsShorter(glob[3..], s);
      } else {
        var i :| 0 <= i < |s| && s[i] == '/' && GlobMatches(glob[3..], Past(s, i));
        NoneIsShorter(glob[3..], Past(s, i));
      }
    } else if "**" <= glob {
      if GlobMatches(glob[2..], s) {
        NoneIsShorter(glob[2..], s);
      } else {
        NoneIsShorter(glob, s[1..]);
      }
    } else if glob[0] == '*' && !GlobMatches(glob[1..], s) {
      NoneIsShorter(glob, s[1..]);
    } else {
      NoneIsShorter(glob[1..], if glob[0] == '*' then s else s[1..]);
    }
  }

  lemma {:induction false} ShortestOfLiterals(b: string, rest: string)
    requires forall i | 0 <= i < |b| :: b[i] != '*' && b[i] != '?'
    ensures Shortest(b + rest) == b + Shortest(rest)
  {
    if b == "" {
      assert b + rest == rest;
    } else {
      assert (b + rest)[0] == b[0] && (b + rest)[1..] == b[1..] + rest;
      assert Shortest(b + rest) == [b[0]] + Shortest(b[1..] + rest);
      hide Shortest;
      ShortestOfLiterals(b[1..], rest);
      assert [b[0]] + (b[1..] + Shortest(rest)) == b + Shortest(rest);
    }
  }

  lemma BytesStart(s: string, c: char)
    requires IsAscii(c)
    ensures s != "" <==> ByteText(s) != ""
    ensures s != "" ==> (ByteText(s)[0] == c <==> s[0] == c)
  {
    hide Bytes;
  }

  // The bytes after an ASCII character are those of the rest.
  lemma BytesAfter(s: string)
    requires s != "" && IsAscii(s[0])
    ensures ByteText(s) == [s[0]] + ByteText(s[1..]) && ByteText(s)[1..] == ByteText(s[1..])
  {
    hide Bytes;
  }

  lemma BytesOfStars(glob: string)
    ensures var b := ByteText(glob);
      && ("**/" <= b <==> "**/" <= glob) && ("**" <= b <==> "**" <= glob)
      && ("**/" <= glob ==> b[3..] == ByteText(glob[3..])) && ("**" <= glob ==> b[2..] == ByteText(glob[2..]))
  {
    hide ByteText;
    var b := ByteText(glob);
    BytesStart(glob, '*');
    if glob != "" && glob[0] == '*' {
      BytesAfter(glob);
      var g1 := glob[1..];
      BytesStart(g1, '*');
      if g1 != "" && g1[0] == '*' {
        BytesAfter(g1);
        assert glob[2..] == g1[1..] && b[2..] == b[1..][1..];
        BytesStart(g1[1..], '/');
        if g1[1..] != "" && g1[1..][0] == '/' {
          BytesAfter(g1[1..]);
          assert glob[3..] == g1[1..][1..] && b[3..] == b[2..][1..];
        }
      }
    }
  }

  // Read by bytes, a glob that is not ASCII asks for more characters.
  lemma {:induction false} BytesAskForMore(glob: string)
    ensures var (n, b) := (|Shortest(glob)|, |Shortest(ByteText(glob))|); b >= n && (!AllAscii(glob) ==> b > n)
  {
    assert AllAscii("");
    hide ByteText, Bytes, AllAscii;
    BytesOfStars(glob);
    if glob == "" {
    } else if "**/" <= glob {
      AsciiFrom(glob, 3);
      BytesAskForMore(glob[3..]);
    } else if "**" <= glob {
      AsciiFrom(glob, 2);
      BytesAskForMore(glob[2..]);
    } else {
      BytesAskForMore(glob[1..]);
      BytesStart(glob, '*');
      BytesStart(glob, '?');
      if IsAscii(glob[0]) {
        AsciiFrom(glob, 1);
        BytesAfter(glob);
      } else {
        BytesOfFirst(glob);
        ShortestOfLiterals(Bytes(glob[0]), ByteText(glob[1..]));
      }
    }
  }

  lemma AsciiFrom(s: string, n: nat)
    requires n <= |s| && forall i | 0 <= i < n :: IsAscii(s[i])
    ensures AllAscii(s) <==> AllAscii(s[n..])
  {
    assert forall i | n <= i < |s| :: s[i] == s[n..][i - n];
  }

  lemma BytesOfFirst(s: string)
    requires s != ""
    ensures ByteText(s) == Bytes(s[0]) + ByteText(s[1..])
  {
  }

  // Compiling keeps a glob's meaning, for every path, if and only if the glob is ASCII: any other is compiled byte by
  // byte, to an expression that no path as short as the shortest match can satisfy.
  lemma CompilingKeepsMeaning(glob: string)
    requires '\n' !in glob
    ensures Read(Compiled(ByteText(glob))).Some?
    ensures (forall path | '\n' !in path ::
               Accepts(Read(Compiled(ByteText(glob))).value, path) <==> GlobMatches(glob, path))
      <==> AllAscii(glob)
  {
    hide Accepts, Read, Compiled, GlobMatches, ByteText, Shortest, AllAscii;
    var b := ByteText(glob);
    CompiledMeans(b, "");
    if AllAscii(glob) {
      AsciiIsItsBytes(glob);
      forall path | '\n' !in path ensures Accepts(Read(Compiled(b)).value, path) <==> GlobMatches(glob, path) {
        CompiledMeans(b, path);
      }
    } else {
      var path := Shortest(glob);
      ShortestMatches(glob);
      BytesAskForMore(glob);
      if GlobMatches(b, path) {
        NoneIsShorter(b, path);
      }
      CompiledMeans(b, path);
    }
  }
}
