/** Blocked-path rules made from glob patterns (internal/tools/pathpolicy.go). */
module PathPolicy {
  import opened Results
  import opened GoStrings
  import opened Globs

  // An expression body, held to the start of the path or not; in either case it must be followed by the end of
  // the path or by a slash and anything.
  datatype Rule = Rule(pattern: string, anchored: bool, body: string)

  // What the matcher is told of its surroundings: the roots relative patterns are anchored at, what a leading
  // tilde stands for, and where symbolic links in a pattern's literal prefix lead.
  datatype Setting = Setting(roots: seq<string>, expand: string -> string, canonical: string -> string)

  datatype PolicyError = InvalidPattern(raw: string)

  // (/.*)?$
  predicate Tail(rest: string) {
    rest == "" || (rest[0] == '/' && '\n' !in rest)
  }

  predicate Spans(rule: Rule, path: string, j: nat, k: nat)
    requires j <= k <= |path|
  {
    var nodes := Read(rule.body);
    (rule.anchored ==> j == 0) && nodes.Some? && Accepts(nodes.value, path[j..k]) && Tail(path[k..])
  }

  predicate RuleMatches(rule: Rule, path: string) {
    exists j, k | 0 <= j <= k <= |path| :: Spans(rule, path, j, k)
  }

  // ---- Making the rules ----

  predicate Unusable(p: string) {
    '"' in p || '\n' in p
  }

  function Cleaned(raw: string, env: Setting): string {
    TrimSuffix(env.expand(TrimSpace(raw)), "/")
  }

  function RootRules(raw: string, p: string, roots: seq<string>): seq<Rule> {
    seq(|roots|,
        i requires 0 <= i < |roots| => Rule(raw, true, Quote(roots[i]) + "/" + Compiled(ByteText(TrimPrefix(p, "./")))))
  }

  function RulesOf(raw: string, env: Setting): seq<Rule> {
    var p := Cleaned(raw, env);
    if "/" <= p then
      [Rule(raw, true, Compiled(ByteText(p)))] +
        if env.canonical(p) != p then [Rule(raw, true, Compiled(ByteText(env.canonical(p))))] else []
    else if '/' !in p then
      [Rule(raw, false, "/" + Compiled(ByteText(p)))]
    else
      RootRules(raw, p, env.roots)
  }

  function AllRules(patterns: seq<string>, env: Setting): Result<seq<Rule>, PolicyError> {
    if patterns == [] then Ok([])
    else
      var before := AllRules(patterns[..|patterns| - 1], env);
      var raw := patterns[|patterns| - 1];
      if before.Err? then before
      else if TrimSpace(raw) == "" then before
      else if Unusable(TrimSpace(raw)) then Err(InvalidPattern(raw))
      else Ok(before.value + RulesOf(raw, env))
  }

  lemma AllStep(patterns: seq<string>, env: Setting, i: nat)
    requires i < |patterns|
    ensures var (before, raw) := (AllRules(patterns[..i], env), patterns[i]);
      AllRules(patterns[..i + 1], env) ==
        if before.Err? || TrimSpace(raw) == "" then before
        else if Unusable(TrimSpace(raw)) then Err(InvalidPattern(raw))
        else Ok(before.value + RulesOf(raw, env))
  {
    hide Unusable, TrimSpace, RulesOf;
    assert patterns[..i + 1][..i] == patterns[..i];
  }

  lemma {:induction false} ErrStays(patterns: seq<string>, env: Setting, n: nat)
    requires n <= |patterns| && AllRules(patterns[..n], env).Err?
    ensures AllRules(patterns, env) == AllRules(patterns[..n], env)
    decreases |patterns|
  {
    hide AllRules, RulesOf, Unusable, TrimSpace;
    if n == |patterns| {
      assert patterns[..n] == patterns;
    } else {
      var m := |patterns| - 1;
      assert patterns[..m][..n] == patterns[..n] && patterns[..m + 1] == patterns;
      ErrStays(patterns[..m], env, n);
      AllStep(patterns, env, m);
    }
  }

  // The rules of one pattern, whose cleaned form is p.
  method MakeRules(raw: string, p: string, env: Setting) returns (made: seq<Rule>)
    requires p == Cleaned(raw, env)
    ensures made == RulesOf(raw, env)
  {
    hide Compiled, ByteText, Quote, TrimPrefix, Cleaned;
    if "/" <= p {
      var text := GlobToRegex(p);
      made := [Rule(raw, true, text)];
      var canon := env.canonical(p);
      if canon != p {
        text := GlobToRegex(canon);
        made := made + [Rule(raw, true, text)];
      }
    } else if '/' !in p {
      var text := GlobToRegex(p);
      made := [Rule(raw, false, "/" + text)];
    } else {
      made := [];
      for k := 0 to |env.roots|
        invariant made == RootRules(raw, p, env.roots)[..k]
      {
        var text := GlobToRegex(TrimPrefix(p, "./"));
        made := made + [Rule(raw, true, Quote(env.roots[k]) + "/" + text)];
      }
      assert made == RootRules(raw, p, env.roots);
    }
  }

  method NewPathMatcher(patterns: seq<string>, env: Setting) returns (r: Result<seq<Rule>, PolicyError>)
    ensures r == AllRules(patterns, env)
  {
    assert AllRules([], env) == Ok([]);
    hide RulesOf, TrimSpace, TrimSuffix, AllRules, Unusable;
    var rules: seq<Rule> := [];
    for i := 0 to |patterns|
      invariant AllRules(patterns[..i], env) == Ok(rules)
    {
      var raw := patterns[i];
      AllStep(patterns, env, i);
      var p := TrimSpace(raw);
      if p == "" {
        continue;
      }
      if Unusable(p) {
        ErrStays(patterns, env, i + 1);
        return Err(InvalidPattern(raw));
      }
      p := TrimSuffix(env.expand(p), "/");
      var made := MakeRules(raw, p, env);
      rules := rules + made;
    }
    assert patterns[..|patterns|] == patterns;
    return Ok(rules);
  }

  // The pattern of the first rule that matches.
  method Match(rules: seq<Rule>, path: string) returns (r: Option<string>)
    ensures r.None? <==> forall i | 0 <= i < |rules| :: !RuleMatches(rules[i], path)
    ensures r.Some? ==> exists i | 0 <= i < |rules| ::
      RuleMatches(rules[i], path) && r.value == rules[i].pattern &&
      forall k | 0 <= k < i :: !RuleMatches(rules[k], path)
  {
    hide RuleMatches;
    for i := 0 to |rules|
      invariant forall k | 0 <= k < i :: !RuleMatches(rules[k], path)
    {
      if RuleMatches(rules[i], path) {
        return Some(rules[i].pattern);
      }
    }
    return None;
  }

  // ---- What a pattern blocks ----

  predicate EndsAt(path: string, k: nat)
    requires k <= |path|
  {
    k == |path| || path[k] == '/'
  }

  // The part of the path from j on, up to its end or to a slash, is as the glob says.
  predicate GlobFrom(glob: string, path: string, j: nat)
    requires j <= |path|
  {
    exists k | j <= k <= |path| :: EndsAt(path, k) && GlobMatches(glob, path[j..k])
  }

  lemma TailIsAnEnd(path: string, k: nat)
    requires '\n' !in path && k <= |path|
    ensures Tail(path[k..]) <==> EndsAt(path, k)
  {
  }

  // A glob as it is written, or as the compiler goes through it.
  datatype Reading = AsText | AsBytes

  function Spelled(glob: string, how: Reading): string {
    if how.AsBytes? then ByteText(glob) else glob
  }

  // An absolute pattern blocks the paths it matches and everything under them; one without a slash does so
  // after any slash; any other does so under each root.
  predicate Blocks(raw: string, env: Setting, how: Reading, path: string) {
    var p := Cleaned(raw, env);
    if TrimSpace(raw) == "" then false
    else if "/" <= p then GlobFrom(Spelled(p, how), path, 0) || GlobFrom(Spelled(env.canonical(p), how), path, 0)
    else if '/' !in p then exists j | 0 <= j < |path| :: path[j] == '/' && GlobFrom(Spelled(p, how), path, j + 1)
    else exists i | 0 <= i < |env.roots| :: UnderRoot(env.roots[i], Spelled(TrimPrefix(p, "./"), how), path)
  }

  predicate UnderRoot(root: string, glob: string, path: string) {
    root + "/" <= path && GlobFrom(glob, path, |root| + 1)
  }

  // ---- Literal text in front of a glob ----

  function Lits(s: string): seq<Node> {
    seq(|s|, i requires 0 <= i < |s| => Lit(s[i]))
  }

  lemma {:induction false} QuotedReads(s: string, text: string)
    requires Read(text).Some?
    ensures Read(Quote(s) + text) == Some(Lits(s) + Read(text).value)
  {
    hide Read;
    if s == "" {
      assert Quote(s) + text == text;
      assert Lits(s) + Read(text).value == Read(text).value;
    } else {
      QuotedReads(s[1..], text);
      var rest := Quote(s[1..]) + text;
      assert [s[0]][1..] == "";
      assert Quote(s) + text == Quote([s[0]]) + rest;
      ReadQuoted(s[0], rest);
      assert Lits(s) == [Lit(s[0])] + Lits(s[1..]);
      assert [Lit(s[0])] + (Lits(s[1..]) + Read(text).value) == Lits(s) + Read(text).value;
    }
  }

  lemma PrefixStep(s: string, path: string)
    requires s != "" && path != ""
    ensures s <= path <==> s[0] == path[0] && s[1..] <= path[1..]
    ensures s <= path ==> path[1..][|s| - 1..] == path[|s|..]
  {
    if s[0] == path[0] && s[1..] <= path[1..] {
      assert path[..|s|] == [path[0]] + path[1..][..|s| - 1];
      assert s == [s[0]] + s[1..];
    }
  }

  lemma {:induction false} LitsAccept(s: string, nodes: seq<Node>, path: string)
    ensures Accepts(Lits(s) + nodes, path) <==> s <= path && Accepts(nodes, path[|s|..])
    decreases |s|
  {
    hide Accepts;
    if s == "" {
      assert Lits(s) + nodes == nodes;
      assert path[0..] == path;
    } else {
      var rest := Lits(s[1..]) + nodes;
      assert Lits(s) + nodes == [Lit(s[0])] + rest;
      OneStep(Lit(s[0]), rest, path);
      if path != "" {
        LitsAccept(s[1..], nodes, path[1..]);
        PrefixStep(s, path);
      }
    }
  }

  // The body of a rule with literal text in front matches that text and then what the glob matches.
  lemma BodyMeans(text: string, glob: string, path: string)
    requires '\n' !in path
    ensures var nodes := Read(Quote(text) + Compiled(glob));
      nodes.Some? && (Accepts(nodes.value, path) <==> text <= path && GlobMatches(glob, path[|text|..]))
  {
    hide Read, Quote, Compiled, Accepts;
    CompiledMeans(glob, path);
    QuotedReads(text, Compiled(glob));
    LitsAccept(text, Read(Compiled(glob)).value, path);
    if text <= path {
      CompiledMeans(glob, path[|text|..]);
    }
  }

  lemma SpanMeans(rule: Rule, text: string, glob: string, path: string, j: nat, k: nat)
    requires '\n' !in path && j <= k <= |path| && rule.body == Quote(text) + Compiled(glob)
    ensures Spans(rule, path, j, k)
      <==> (rule.anchored ==> j == 0) && j + |text| <= k && path[j..j + |text|] == text
           && GlobMatches(glob, path[j + |text|..k]) && EndsAt(path, k)
  {
    hide Read, Quote, Compiled, Accepts, GlobMatches, Tail;
    TailIsAnEnd(path, k);
    BodyMeans(text, glob, path[j..k]);
    if j + |text| <= k {
      assert path[j..k][..|text|] == path[j..j + |text|];
      assert path[j..k][|text|..] == path[j + |text|..k];
    }
  }

  predicate TextThenGlob(anchored: bool, text: string, glob: string, path: string, j: nat) {
    (anchored ==> j == 0) && j + |text| <= |path| && path[j..j + |text|] == text && GlobFrom(glob, path, j + |text|)
  }

  lemma RuleMeans(rule: Rule, text: string, glob: string, path: string)
    requires '\n' !in path && rule.body == Quote(text) + Compiled(glob)
    ensures RuleMatches(rule, path) <==> exists j | 0 <= j <= |path| :: TextThenGlob(rule.anchored, text, glob, path, j)
  {
    hide Quote, Compiled, GlobMatches, Spans, EndsAt, GlobFrom;
    if RuleMatches(rule, path) {
      var j, k :| 0 <= j <= k <= |path| && Spans(rule, path, j, k);
      SpanMeans(rule, text, glob, path, j, k);
      GlobFromAt(glob, path, j + |text|, k);
      assert TextThenGlob(rule.anchored, text, glob, path, j);
    }
    if j :| 0 <= j <= |path| && TextThenGlob(rule.anchored, text, glob, path, j) {
      var k := GlobFromWhere(glob, path, j + |text|);
      SpanMeans(rule, text, glob, path, j, k);
    }
  }

  lemma GlobFromAt(glob: string, path: string, j: nat, k: nat)
    requires j <= k <= |path| && EndsAt(path, k) && GlobMatches(glob, path[j..k])
    ensures GlobFrom(glob, path, j)
  {
  }

  lemma GlobFromWhere(glob: string, path: string, j: nat) returns (k: nat)
    requires j <= |path| && GlobFrom(glob, path, j)
    ensures j <= k <= |path| && EndsAt(path, k) && GlobMatches(glob, path[j..k])
  {
    k :| j <= k <= |path| && EndsAt(path, k) && GlobMatches(glob, path[j..k]);
  }

  lemma AbsoluteMeans(raw: string, glob: string, path: string)
    requires '\n' !in path
    ensures RuleMatches(Rule(raw, true, Compiled(glob)), path) <==> GlobFrom(glob, path, 0)
  {
    hide Compiled, GlobFrom, RuleMatches;
    assert Quote("") + Compiled(glob) == Compiled(glob);
    RuleMeans(Rule(raw, true, Compiled(glob)), "", glob, path);
    assert path[0..0] == "";
    assert TextThenGlob(true, "", glob, path, 0) <==> GlobFrom(glob, path, 0);
  }

  lemma NameMeans(raw: string, glob: string, path: string)
    requires '\n' !in path
    ensures RuleMatches(Rule(raw, false, "/" + Compiled(glob)), path)
      <==> exists j | 0 <= j < |path| :: path[j] == '/' && GlobFrom(glob, path, j + 1)
  {
    hide Compiled, GlobFrom, RuleMatches;
    var rule := Rule(raw, false, "/" + Compiled(glob));
    assert Quote("/") == "/" by { assert "/"[1..] == ""; }
    RuleMeans(rule, "/", glob, path);
    forall j | 0 <= j < |path|
      ensures TextThenGlob(false, "/", glob, path, j) <==> path[j] == '/' && GlobFrom(glob, path, j + 1)
    {
      assert path[j..j + 1] == [path[j]];
    }
  }

  lemma {:induction false} QuoteAppend(a: string, b: string)
    ensures Quote(a + b) == Quote(a) + Quote(b)
  {
    if a == "" {
      assert a + b == b;
    } else {
      assert (a + b)[1..] == a[1..] + b;
      QuoteAppend(a[1..], b);
    }
  }

  lemma RootMeans(raw: string, root: string, glob: string, path: string)
    requires '\n' !in path
    ensures RuleMatches(Rule(raw, true, Quote(root) + "/" + Compiled(glob)), path) <==> UnderRoot(root, glob, path)
  {
    hide Compiled, GlobFrom, RuleMatches;
    var rule := Rule(raw, true, Quote(root) + "/" + Compiled(glob));
    QuoteAppend(root, "/");
    assert Quote("/") == "/" by { assert "/"[1..] == ""; }
    RuleMeans(rule, root + "/", glob, path);
    assert TextThenGlob(true, root + "/", glob, path, 0) <==> UnderRoot(root, glob, path);
  }

  // ---- The matcher ----

  predicate SomeMatches(rules: seq<Rule>, path: string) {
    exists i | 0 <= i < |rules| :: RuleMatches(rules[i], path)
  }

  lemma SomeMatchesAppend(a: seq<Rule>, b: seq<Rule>, path: string)
    ensures SomeMatches(a + b, path) <==> SomeMatches(a, path) || SomeMatches(b, path)
  {
    hide RuleMatches;
    var all := a + b;
    if i :| 0 <= i < |a| && RuleMatches(a[i], path) {
      assert all[i] == a[i];
    }
    if i :| 0 <= i < |b| && RuleMatches(b[i], path) {
      assert all[|a| + i] == b[i];
    }
  }

  lemma RulesMean(raw: string, env: Setting, path: string)
    requires '\n' !in path && TrimSpace(raw) != ""
    ensures SomeMatches(RulesOf(raw, env), path) <==> Blocks(raw, env, AsBytes, path)
  {
    hide Compiled, ByteText, Quote, GlobFrom, RuleMatches, TrimSuffix, TrimSpace, TrimPrefix;
    var p := Cleaned(raw, env);
    var rules := RulesOf(raw, env);
    if "/" <= p {
      AbsoluteMeans(raw, ByteText(p), path);
      AbsoluteMeans(raw, ByteText(env.canonical(p)), path);
      assert rules[0] == Rule(raw, true, Compiled(ByteText(p)));
      assert env.canonical(p) != p ==> rules[1] == Rule(raw, true, Compiled(ByteText(env.canonical(p))));
    } else if '/' !in p {
      NameMeans(raw, ByteText(p), path);
      assert rules == [Rule(raw, false, "/" + Compiled(ByteText(p)))];
      assert rules[0] == Rule(raw, false, "/" + Compiled(ByteText(p)));
    } else {
      forall i | 0 <= i < |env.roots|
        ensures RuleMatches(rules[i], path) <==> UnderRoot(env.roots[i], ByteText(TrimPrefix(p, "./")), path)
      {
        RootMeans(raw, env.roots[i], ByteText(TrimPrefix(p, "./")), path);
      }
    }
  }

  predicate AsciiPattern(raw: string, env: Setting) {
    AllAscii(Cleaned(raw, env)) && AllAscii(env.canonical(Cleaned(raw, env)))
  }

  // An ASCII pattern blocks what it says.
  lemma AsciiBlocks(raw: string, env: Setting, path: string)
    requires AsciiPattern(raw, env)
    ensures Blocks(raw, env, AsBytes, path) <==> Blocks(raw, env, AsText, path)
  {
    hide GlobFrom, Cleaned, TrimSpace, ByteText;
    var p := Cleaned(raw, env);
    AsciiIsItsBytes(p);
    AsciiIsItsBytes(env.canonical(p));
    AsciiIsItsBytes(TrimPrefix(p, "./"));
  }

  predicate SomeBlocks(patterns: seq<string>, env: Setting, how: Reading, path: string) {
    exists i | 0 <= i < |patterns| :: Blocks(patterns[i], env, how, path)
  }

  // The compiled rules match a path exactly when some pattern blocks it, as its bytes are read; so when the patterns
  // are ASCII, exactly when some pattern blocks it as it is written.
  lemma MatcherMeans(patterns: seq<string>, env: Setting, path: string)
    requires '\n' !in path && AllRules(patterns, env).Ok?
    ensures SomeMatches(AllRules(patterns, env).value, path) <==> SomeBlocks(patterns, env, AsBytes, path)
    ensures (forall i | 0 <= i < |patterns| :: AsciiPattern(patterns[i], env)) ==>
              (SomeMatches(AllRules(patterns, env).value, path) <==> SomeBlocks(patterns, env, AsText, path))
  {
    hide Blocks, AllRules, AsciiPattern;
    BytesMean(patterns, env, path);
    forall i | 0 <= i < |patterns| && AsciiPattern(patterns[i], env)
      ensures Blocks(patterns[i], env, AsBytes, path) <==> Blocks(patterns[i], env, AsText, path)
    {
      AsciiBlocks(patterns[i], env, path);
    }
  }

  lemma {:induction false} BytesMean(patterns: seq<string>, env: Setting, path: string)
    requires '\n' !in path && AllRules(patterns, env).Ok?
    ensures SomeMatches(AllRules(patterns, env).value, path) <==> SomeBlocks(patterns, env, AsBytes, path)
  {
    hide RulesOf, Blocks, SomeBlocks, SomeMatches, TrimSpace;
    if patterns == [] {
      NoRules(env, path);
    } else {
      var n := |patterns| - 1;
      BytesMean(patterns[..n], env, path);
      if TrimSpace(patterns[n]) == "" {
        BlankBlocksNothing(patterns[n], env, path);
      } else {
        RulesMean(patterns[n], env, path);
        SomeMatchesAppend(AllRules(patterns[..n], env).value, RulesOf(patterns[n], env), path);
      }
      BlockedByLast(patterns, env, path);
    }
  }

  lemma NoRules(env: Setting, path: string)
    ensures !SomeMatches([], path) && !SomeBlocks([], env, AsBytes, path)
  {
  }

  lemma BlankBlocksNothing(raw: string, env: Setting, path: string)
    requires TrimSpace(raw) == ""
    ensures !Blocks(raw, env, AsBytes, path)
  {
  }

  lemma BlockedByLast(patterns: seq<string>, env: Setting, path: string)
    requires patterns != []
    ensures SomeBlocks(patterns, env, AsBytes, path) <==>
              Blocks(patterns[|patterns| - 1], env, AsBytes, path) ||
              SomeBlocks(patterns[..|patterns| - 1], env, AsBytes, path)
  {
    hide Blocks;
    var n := |patterns| - 1;
    if i :| 0 <= i < |patterns| && Blocks(patterns[i], env, AsBytes, path) {
      assert i < n ==> patterns[..n][i] == patterns[i];
    }
    if i :| 0 <= i < n && Blocks(patterns[..n][i], env, AsBytes, path) {
      assert patterns[..n][i] == patterns[i];
    }
  }

  // Whatever is under a blocked path is blocked, by the same rule.
  lemma DescendantsAreBlocked(rule: Rule, path: string, below: string)
    requires RuleMatches(rule, path) && '\n' !in below
    ensures RuleMatches(rule, path + "/" + below)
  {
    hide Read, Accepts;
    var j, k :| 0 <= j <= k <= |path| && Spans(rule, path, j, k);
    var all := path + "/" + below;
    assert all[j..k] == path[j..k];
    assert all[k..] == path[k..] + "/" + below;
    assert Spans(rule, all, j, k);
  }

  // ---- What is refused, and what makes no difference ----

  ghost predicate IsRefused(raw: string) {
    var t := TrimSpace(raw); exists i | 0 <= i < |t| :: t[i] == '"' || t[i] == '\n'
  }

  // A list is refused exactly for its first pattern with a double quote or a newline in it.
  lemma {:induction false} RefusesTheFirstUnusable(patterns: seq<string>, env: Setting)
    ensures match AllRules(patterns, env)
      case Ok(_) => forall i | 0 <= i < |patterns| :: !IsRefused(patterns[i])
      case Err(e) =>
        exists i | 0 <= i < |patterns| ::
          IsRefused(patterns[i]) && e == InvalidPattern(patterns[i]) && forall k | 0 <= k < i :: !IsRefused(patterns[k])
  {
    hide TrimSpace, RulesOf;
    if patterns != [] {
      var n := |patterns| - 1;
      RefusesTheFirstUnusable(patterns[..n], env);
      assert forall k | 0 <= k < n :: patterns[..n][k] == patterns[k];
      UnusableIsRefused(patterns[n]);
      hide IsRefused, Unusable;
    }
  }

  lemma UnusableIsRefused(raw: string)
    ensures Unusable(TrimSpace(raw)) <==> IsRefused(raw)
    ensures TrimSpace(raw) == "" ==> !IsRefused(raw)
  {
    hide TrimSpace;
  }

  // A slash at the end of a pattern makes no difference.
  lemma TrailingSlashIsIgnored(raw: string, slashed: string, env: Setting, how: Reading, path: string)
    requires TrimSpace(raw) != "" && TrimSpace(slashed) != "" && !HasSuffix(env.expand(TrimSpace(raw)), "/")
    requires env.expand(TrimSpace(slashed)) == env.expand(TrimSpace(raw)) + "/"
    ensures Blocks(slashed, env, how, path) <==> Blocks(raw, env, how, path)
  {
    hide TrimSpace, GlobFrom, UnderRoot, Spelled;
    assert Cleaned(slashed, env) == Cleaned(raw, env);
  }
}
