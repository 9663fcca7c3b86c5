/** Ordered evaluation of ignore rules: the last rule that matches a path or one of its
    ancestors decides. */
module DockerIgnoreRules {
  import opened Basics
  import opened RegexSyntax
  import opened DockerGlob
  import opened DockerGlobMeaning

  /** A rule after trimming and path cleaning: its pattern, and whether it excludes or (with `!`) re-includes. */
  datatype Rule = Rule(excluded: bool, pattern: string)

  datatype Matcher = Matcher(excluded: bool, regex: Regex)

  // ----- the paths a rule is tried on -----

  function Segments(path: string): (segments: seq<string>)
    ensures |segments| > 0
  {
    if path == "" then [""]
    else
      var rest := Segments(path[1..]);
      if path[0] == '/' then [""] + rest else [[path[0]] + rest[0]] + rest[1..]
  }

  function Join(segments: seq<string>): string
    requires |segments| > 0
  {
    if |segments| == 1 then segments[0] else segments[0] + "/" + Join(segments[1..])
  }

  function Candidates(path: string): seq<string> {
    var segments := Segments(path);
    [path] + seq(|segments| - 1, i requires 0 <= i < |segments| - 1 => Join(segments[..i + 1]))
  }

  lemma JoinSlash(rest: seq<string>, i: nat)
    requires 0 < i <= |rest|
    ensures Join(([""] + rest)[..i + 1]) == "/" + Join(rest[..i])
  {
    var taken := ([""] + rest)[..i + 1];
    assert taken[1..] == rest[..i] && taken[0] == "";
  }

  lemma JoinCharacter(c: char, rest: seq<string>, i: nat)
    requires i < |rest|
    ensures Join(([[c] + rest[0]] + rest[1..])[..i + 1]) == [c] + Join(rest[..i + 1])
  {
    var taken := ([[c] + rest[0]] + rest[1..])[..i + 1];
    assert taken[0] == [c] + rest[0];
    assert taken[1..] == rest[..i + 1][1..];
  }

  /** The first i + 1 segments, joined, are the first k characters. */
  ghost predicate JoinsTo(path: string, i: nat, k: nat) {
    i < |Segments(path)| - 1 && k <= |path| && Join(Segments(path)[..i + 1]) == path[..k]
  }

  lemma JoinFurther(path: string, i: nat, k: nat)
    requires path != "" && JoinsTo(path[1..], i, k)
    ensures JoinsTo(path, if path[0] == '/' then i + 1 else i, k + 1)
  {
    var rest := Segments(path[1..]);
    assert path[..k + 1] == [path[0]] + path[1..][..k];
    if path[0] == '/' {
      JoinSlash(rest, i + 1);
    } else {
      JoinCharacter(path[0], rest, i);
    }
  }

  /** Joining the first segments gives the path up to a slash. */
  lemma {:induction false} JoinIsAncestor(path: string, i: nat) returns (k: nat)
    requires i < |Segments(path)| - 1
    ensures k < |path| && path[k] == '/' && JoinsTo(path, i, k)
    decreases |path|
  {
    if path[0] == '/' && i == 0 {
      k := 0;
      assert Segments(path)[..1] == [""];
    } else {
      var inner := if path[0] == '/' then i - 1 else i;
      k := JoinIsAncestor(path[1..], inner);
      JoinFurther(path, inner, k);
      k := k + 1;
    }
  }

  /** Every slash ends an ancestor that is tried. */
  lemma {:induction false} AncestorIsJoin(path: string, k: nat) returns (i: nat)
    requires k < |path| && path[k] == '/'
    ensures JoinsTo(path, i, k)
    decreases |path|
  {
    if k == 0 {
      i := 0;
      assert Segments(path)[..1] == [""];
    } else {
      i := AncestorIsJoin(path[1..], k - 1);
      JoinFurther(path, i, k - 1);
      i := if path[0] == '/' then i + 1 else i;
    }
  }

  predicate Ancestor(path: string, candidate: string) {
    exists k | 0 <= k < |path| :: path[k] == '/' && candidate == path[..k]
  }

  lemma CandidatesAreAncestors(path: string, candidate: string)
    ensures candidate in Candidates(path) <==> candidate == path || Ancestor(path, candidate)
  {
    var segments := Segments(path);
    var candidates := Candidates(path);
    if candidate in candidates && candidate != path {
      var j :| 0 <= j < |candidates| && candidates[j] == candidate;
      var k := JoinIsAncestor(path, j - 1);
    }
    assert candidates[0] == path;
    if Ancestor(path, candidate) {
      var k :| 0 <= k < |path| && path[k] == '/' && candidate == path[..k];
      var i := AncestorIsJoin(path, k);
      assert candidates[i + 1] == candidate;
    }
  }

  // ----- rules -----

  predicate Blank(pattern: string) {
    pattern == "" || pattern == "."
  }

  /** The pattern of the rule matches the path itself or a directory above it. */
  ghost predicate Applies(rule: Rule, path: string, lines: bool)
    requires ReadGlob(rule.pattern).Some?
  {
    !Blank(rule.pattern) &&
    exists candidate :: (candidate == path || Ancestor(path, candidate)) && GlobMatches(ReadGlob(rule.pattern).value, candidate, lines)
  }

  ghost predicate WellFormed(rules: seq<Rule>) {
    forall i | 0 <= i < |rules| :: Blank(rules[i].pattern) || ReadGlob(rules[i].pattern).Some?
  }

  /** Rule i has the last word on the path. */
  ghost predicate Decides(rules: seq<Rule>, path: string, lines: bool, i: nat)
    requires WellFormed(rules)
  {
    && i < |rules| && !Blank(rules[i].pattern) && Applies(rules[i], path, lines)
    && forall j | i < j < |rules| :: Blank(rules[j].pattern) || !Applies(rules[j], path, lines)
  }

  /** The last rule that applies is one that excludes. With `lines`, `**` has its plain meaning;
      without, it stops at line terminators. */
  ghost predicate Verdict(rules: seq<Rule>, path: string, lines: bool)
    requires WellFormed(rules)
  {
    exists i: nat :: Decides(rules, path, lines, i) && rules[i].excluded
  }

  /** The compiled form of the rules that have a pattern, in order; malformed rules are an error. */
  method CompileRules(rules: seq<Rule>) returns (r: Option<seq<Matcher>>, ghost origin: seq<nat>)
    ensures r.Some? <==> WellFormed(rules)
    ensures r.Some? ==> Compiles(rules, r.value, origin)
  {
    var matchers: seq<Matcher> := [];
    origin := [];
    for i := 0 to |rules|
      invariant WellFormed(rules[..i])
      invariant Compiles(rules[..i], matchers, origin)
    {
      var compiled := DockerGlobRegex(rules[i].pattern);
      if compiled.Malformed? {
        return None, [];
      }
      assert rules[..i + 1] == rules[..i] + [rules[i]];
      if compiled.Source? {
        CompilationPreservesMeaning(rules[i].pattern, "");
        var matcher := Matcher(rules[i].excluded, ParseRegex(compiled.source).value);
        OneMoreMatcher(rules[..i], rules[i], matchers, matcher, origin);
        matchers := matchers + [matcher];
        origin := origin + [i];
      } else {
        OneMoreBlank(rules[..i], rules[i], matchers, origin);
      }
    }
    assert rules[..|rules|] == rules;
    return Some(matchers), origin;
  }

  /** Matcher k comes from rule origin[k]; rules without a matcher are blank. */
  ghost predicate Compiles(rules: seq<Rule>, matchers: seq<Matcher>, origin: seq<nat>) {
    && |origin| == |matchers|
    && (forall k | 0 <= k < |origin| :: origin[k] < |rules| && CompiledFrom(rules[origin[k]], matchers[k]))
    && (forall k, l | 0 <= k < l < |origin| :: origin[k] < origin[l])
    && (forall i | 0 <= i < |rules| :: Blank(rules[i].pattern) || i in origin)
  }

  ghost predicate CompiledFrom(rule: Rule, matcher: Matcher) {
    && !Blank(rule.pattern) && matcher.excluded == rule.excluded && ReadGlob(rule.pattern).Some?
    && ParseRegex("^" + ShowPieces(ReadGlob(rule.pattern).value) + "$") == Some(matcher.regex)
  }

  lemma OneMoreMatcher(rules: seq<Rule>, rule: Rule, matchers: seq<Matcher>, matcher: Matcher, origin: seq<nat>)
    requires Compiles(rules, matchers, origin) && CompiledFrom(rule, matcher)
    ensures Compiles(rules + [rule], matchers + [matcher], origin + [|rules|])
  {
    var more := origin + [|rules|];
    forall i | 0 <= i < |rules + [rule]| ensures Blank((rules + [rule])[i].pattern) || i in more {
      if i == |rules| {
        assert more[|origin|] == i;
      }
    }
  }

  lemma OneMoreBlank(rules: seq<Rule>, rule: Rule, matchers: seq<Matcher>, origin: seq<nat>)
    requires Compiles(rules, matchers, origin) && Blank(rule.pattern)
    ensures Compiles(rules + [rule], matchers, origin)
  {
  }

  predicate Tried(matcher: Matcher, path: string) {
    exists i | 0 <= i < |Candidates(path)| :: Matches(matcher.regex, Candidates(path)[i])
  }

  /** The last matcher that matches the path or an ancestor decides. */
  method Evaluate(matchers: seq<Matcher>, path: string) returns (excluded: bool)
    ensures excluded <==> exists k: nat :: LastTried(matchers, path, k) && matchers[k].excluded
  {
    excluded := false;
    ghost var last: int := -1;
    for k := 0 to |matchers|
      invariant -1 <= last < k
      invariant last >= 0 ==> Tried(matchers[last], path)
      invariant forall l | last < l < k :: !Tried(matchers[l], path)
      invariant excluded <==> last >= 0 && matchers[last].excluded
    {
      if Tried(matchers[k], path) {
        excluded := matchers[k].excluded;
        last := k;
      }
    }
    if last >= 0 {
      assert LastTried(matchers, path, last);
    }
  }

  ghost predicate LastTried(matchers: seq<Matcher>, path: string, k: nat) {
    && k < |matchers| && Tried(matchers[k], path)
    && forall l | k < l < |matchers| :: !Tried(matchers[l], path)
  }

  lemma TriedMeans(rule: Rule, matcher: Matcher, path: string)
    requires CompiledFrom(rule, matcher)
    ensures Tried(matcher, path) <==> Applies(rule, path, false)
  {
    var candidates := Candidates(path);
    forall candidate ensures candidate in candidates <==> candidate == path || Ancestor(path, candidate) {
      CandidatesAreAncestors(path, candidate);
    }
    forall candidate
      ensures Matches(matcher.regex, candidate) <==> GlobMatches(ReadGlob(rule.pattern).value, candidate, false)
    {
      CompilationPreservesMeaning(rule.pattern, candidate);
    }
    if Applies(rule, path, false) {
      var candidate :| (candidate == path || Ancestor(path, candidate)) && GlobMatches(ReadGlob(rule.pattern).value, candidate, false);
      assert candidate in candidates;
      var i :| 0 <= i < |candidates| && candidates[i] == candidate;
    }
  }

  /** The whole matcher: a path is excluded exactly when the last rule that applies to it is one
      that excludes; on a path without line terminators that is the plain meaning. */
  method DockerIgnoreExcludes(path: string, rules: seq<Rule>) returns (r: Option<bool>)
    ensures r.Some? <==> WellFormed(rules)
    ensures r.Some? ==> (r.value <==> Verdict(rules, path, false))
    ensures r.Some? && OneLine(path) ==> (r.value <==> Verdict(rules, path, true))
  {
    var matchers;
    ghost var origin;
    matchers, origin := CompileRules(rules);
    if matchers.None? {
      return None;
    }
    var excluded := Evaluate(matchers.value, path);
    r := Some(excluded);
    VerdictMeans(rules, matchers.value, origin, path);
    if OneLine(path) {
      OneLineVerdict(rules, path);
    }
  }

  lemma VerdictMeans(rules: seq<Rule>, matchers: seq<Matcher>, origin: seq<nat>, path: string)
    requires WellFormed(rules) && Compiles(rules, matchers, origin)
    ensures (exists k: nat :: LastTried(matchers, path, k) && matchers[k].excluded) <==> Verdict(rules, path, false)
  {
    forall k | 0 <= k < |matchers| ensures Tried(matchers[k], path) <==> Applies(rules[origin[k]], path, false) {
      TriedMeans(rules[origin[k]], matchers[k], path);
    }
    if exists k: nat :: LastTried(matchers, path, k) && matchers[k].excluded {
      var k: nat :| LastTried(matchers, path, k) && matchers[k].excluded;
      LastIsDecisive(rules, matchers, origin, path, k);
    }
    if Verdict(rules, path, false) {
      var i: nat :| Decides(rules, path, false, i) && rules[i].excluded;
      var k: nat :| k < |origin| && origin[k] == i;
      assert CompiledFrom(rules[i], matchers[k]);
      DecisiveIsLast(rules, matchers, origin, path, k);
    }
  }

  lemma Increases(origin: seq<nat>, k: nat, l: nat)
    requires forall k, l | 0 <= k < l < |origin| :: origin[k] < origin[l]
    requires k < |origin| && l < |origin| && origin[k] < origin[l]
    ensures k < l
  {
  }

  lemma LastIsDecisive(rules: seq<Rule>, matchers: seq<Matcher>, origin: seq<nat>, path: string, k: nat)
    requires WellFormed(rules) && Compiles(rules, matchers, origin) && LastTried(matchers, path, k)
    requires forall k | 0 <= k < |matchers| :: Tried(matchers[k], path) <==> Applies(rules[origin[k]], path, false)
    ensures Decides(rules, path, false, origin[k])
  {
    forall j | origin[k] < j < |rules| ensures Blank(rules[j].pattern) || !Applies(rules[j], path, false) {
      if !Blank(rules[j].pattern) {
        var l: nat :| l < |origin| && origin[l] == j;
        Increases(origin, k, l);
      }
    }
  }

  lemma DecisiveIsLast(rules: seq<Rule>, matchers: seq<Matcher>, origin: seq<nat>, path: string, k: nat)
    requires WellFormed(rules) && Compiles(rules, matchers, origin) && k < |origin| && Decides(rules, path, false, origin[k])
    requires forall k | 0 <= k < |matchers| :: Tried(matchers[k], path) <==> Applies(rules[origin[k]], path, false)
    ensures LastTried(matchers, path, k)
  {
    forall l | k < l < |matchers| ensures !Tried(matchers[l], path) {
      assert origin[k] < origin[l];
    }
  }

  // ----- the paths on which every list of rules has its plain meaning -----

  lemma OneLineApplies(rule: Rule, path: string)
    requires ReadGlob(rule.pattern).Some? && OneLine(path)
    ensures Applies(rule, path, false) <==> Applies(rule, path, true)
  {
    forall candidate | candidate == path || Ancestor(path, candidate)
      ensures GlobMatches(ReadGlob(rule.pattern).value, candidate, false) <==> GlobMatches(ReadGlob(rule.pattern).value, candidate, true)
    {
      OneLineGlob(ReadGlob(rule.pattern).value, candidate);
    }
  }

  lemma OneLineVerdict(rules: seq<Rule>, path: string)
    requires WellFormed(rules) && OneLine(path)
    ensures Verdict(rules, path, false) <==> Verdict(rules, path, true)
  {
    forall j | 0 <= j < |rules| && !Blank(rules[j].pattern)
      ensures Applies(rules[j], path, false) <==> Applies(rules[j], path, true)
    {
      OneLineApplies(rules[j], path);
    }
    forall i: nat ensures Decides(rules, path, false, i) <==> Decides(rules, path, true, i) {}
  }

  /** Every character with a backslash before it. */
  function Escaped(text: string): string {
    if text == "" then "" else ['\\', text[0]] + Escaped(text[1..])
  }

  function ExactPieces(text: string): seq<Piece> {
    if text == "" then [] else [Exactly(text[0])] + ExactPieces(text[1..])
  }

  /** The pattern for everything that begins with a text. */
  lemma {:induction false} EscapedReads(text: string)
    ensures ReadGlob(Escaped(text) + "**") == Some(ExactPieces(text) + [AnyPath])
  {
    if text == "" {
      LineBreakEscapes("");
      assert Escaped(text) + "**" == "**" && [] + [AnyPath] == [AnyPath];
    } else {
      var pattern := Escaped(text) + "**";
      EscapedReads(text[1..]);
      assert pattern == ['\\', text[0]] + (Escaped(text[1..]) + "**");
      assert pattern[2..] == Escaped(text[1..]) + "**";
      assert [Exactly(text[0])] + (ExactPieces(text[1..]) + [AnyPath]) == ExactPieces(text) + [AnyPath];
    }
  }

  lemma {:induction false} ExactMatches(text: string, path: string, lines: bool)
    ensures GlobMatches(ExactPieces(text) + [AnyPath], path, lines) <==> text <= path && Crosses(path[|text|..], lines)
  {
    if text == "" {
      AnyPathMatches(path, lines);
      assert [] + [AnyPath] == [AnyPath] && path[0..] == path;
    } else {
      var pieces := ExactPieces(text) + [AnyPath];
      assert pieces[0] == Exactly(text[0]) && pieces[1..] == ExactPieces(text[1..]) + [AnyPath];
      if path != "" {
        ExactMatches(text[1..], path[1..], lines);
        assert text == [text[0]] + text[1..] && path == [path[0]] + path[1..];
        if |text| <= |path| {
          assert path[1..][|text| - 1..] == path[|text|..];
        }
      }
    }
  }

  /** The rule that excludes what begins with what stands before the terminator at k. */
  function UpTo(path: string, k: nat): Rule
    requires k < |path|
  {
    Rule(true, Escaped(path[..k]) + "**")
  }

  lemma BrokenPathMatchesPlainlyOnly(path: string, k: nat, candidate: string)
    requires k < |path| && LineTerminator(path[k]) && (candidate == path || Ancestor(path, candidate))
    ensures ReadGlob(UpTo(path, k).pattern).Some?
    ensures !GlobMatches(ReadGlob(UpTo(path, k).pattern).value, candidate, false)
    ensures GlobMatches(ReadGlob(UpTo(path, k).pattern).value, path, true)
  {
    EscapedReads(path[..k]);
    ExactMatches(path[..k], candidate, false);
    ExactMatches(path[..k], path, true);
    if path[..k] <= candidate {
      assert k != |candidate| && candidate[k] == path[k];
      assert candidate[k..][0] == path[k];
    }
  }

  /** That rule alone gets the path wrong. */
  lemma BrokenPathMisjudged(path: string, k: nat)
    requires k < |path| && LineTerminator(path[k])
    ensures WellFormed([UpTo(path, k)])
    ensures Verdict([UpTo(path, k)], path, true) && !Verdict([UpTo(path, k)], path, false)
  {
    var rule := UpTo(path, k);
    BrokenPathMatchesPlainlyOnly(path, k, path);
    assert |rule.pattern| >= 2;
    assert Applies(rule, path, true);
    forall candidate | candidate == path || Ancestor(path, candidate)
      ensures !GlobMatches(ReadGlob(rule.pattern).value, candidate, false)
    {
      BrokenPathMatchesPlainlyOnly(path, k, candidate);
    }
    assert !Applies(rule, path, false);
    assert Decides([rule], path, true, 0);
  }

  /** The paths on which every list of rules decides as its plain meaning does are those without
      line terminators. */
  lemma RulesArePlainIffOneLine(path: string)
    ensures (forall rules | WellFormed(rules) :: Verdict(rules, path, false) <==> Verdict(rules, path, true)) <==> OneLine(path)
  {
    if OneLine(path) {
      forall rules | WellFormed(rules) ensures Verdict(rules, path, false) <==> Verdict(rules, path, true) {
        OneLineVerdict(rules, path);
      }
    } else {
      var k :| 0 <= k < |path| && LineTerminator(path[k]);
      BrokenPathMisjudged(path, k);
    }
  }
}
