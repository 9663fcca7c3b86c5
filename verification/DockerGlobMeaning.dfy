/** The compiled expression means what the pattern means. */
module DockerGlobMeaning {
  import opened Basics
  import opened RegexSyntax
  import opened DockerGlob

  const SLASH: seq<Range> := [('/', '/')]

  function RangeOf(item: Item): Range {
    match item
    case One(c) => (c, c)
    case Span(low, high) => (low, high)
  }

  function RangesOf(items: seq<Item>): seq<Range> {
    if items == [] then [] else [RangeOf(items[0])] + RangesOf(items[1..])
  }

  /** The expression a piece compiles to. */
  function RegexOf(piece: Piece): Regex {
    match piece
    case Exactly(c) => Literal(c)
    case AnyCharacter => Class(true, SLASH)
    case AnyRun => Many(Class(true, SLASH))
    case AnyPath => Many(Dot)
    case AnyDirectories => Maybe(Cat(Many(Dot), Cat(Literal('/'), Empty)))
    case OneOf(negated, items) => Class(negated, RangesOf(items))
  }

  function RegexOfAll(pieces: seq<Piece>): Regex {
    if pieces == [] then Empty else Cat(RegexOf(pieces[0]), RegexOfAll(pieces[1..]))
  }

  predicate OrderedItems(items: seq<Item>) {
    forall i | 0 <= i < |items| :: items[i].Span? ==> items[i].low <= items[i].high
  }

  predicate OrderedPieces(pieces: seq<Piece>) {
    forall i | 0 <= i < |pieces| :: pieces[i].OneOf? ==> OrderedItems(pieces[i].items)
  }

  lemma {:induction false} ReadClassOrders(text: string)
    ensures ReadClass(text).Some? ==> OrderedItems(ReadClass(text).value.0)
    decreases |text|
  {
    if text != "" && text[0] != ']' && ReadClassCharacter(text).Some? {
      var (low, rest) := ReadClassCharacter(text).value;
      ReadClassOrders(rest);
      if rest != "" && ReadClassCharacter(rest[1..]).Some? {
        ReadClassOrders(ReadClassCharacter(rest[1..]).value.1);
      }
    }
  }

  lemma PrependOrders(piece: Piece, rest: Pieces)
    requires piece.OneOf? ==> OrderedItems(piece.items)
    requires rest.Some? ==> OrderedPieces(rest.value)
    ensures Prepend([piece], rest).Some? ==> OrderedPieces(Prepend([piece], rest).value)
  {
  }

  lemma {:induction false} ReadGlobOrders(pattern: string)
    ensures ReadGlob(pattern).Some? ==> OrderedPieces(ReadGlob(pattern).value)
    decreases |pattern|, 1
  {
    if pattern == "" {
    } else if pattern[0] == '\\' {
      if |pattern| > 1 {
        ReadGlobOrders(pattern[2..]);
        PrependOrders(Exactly(pattern[1]), ReadGlob(pattern[2..]));
      }
    } else if |pattern| >= 3 && pattern[..3] == "**/" {
      ReadGlobOrders(pattern[3..]);
      PrependOrders(AnyDirectories, ReadGlob(pattern[3..]));
    } else if |pattern| >= 2 && pattern[..2] == "**" {
      ReadGlobOrders(pattern[2..]);
      PrependOrders(AnyPath, ReadGlob(pattern[2..]));
    } else if pattern[0] == '[' {
      ClassOrders(pattern);
    } else {
      ReadGlobOrders(pattern[1..]);
      PrependOrders(if pattern[0] == '*' then AnyRun else if pattern[0] == '?' then AnyCharacter else Exactly(pattern[0]),
                    ReadGlob(pattern[1..]));
    }
  }

  lemma {:induction false} ClassOrders(pattern: string)
    requires pattern != "" && pattern[0] == '['
    ensures ReadGlob(pattern).Some? ==> OrderedPieces(ReadGlob(pattern).value)
    decreases |pattern|, 0
  {
    var negated := |pattern| > 1 && pattern[1] == '^';
    var text := pattern[if negated then 2 else 1..];
    ReadClassOrders(text);
    if ReadClass(text).Some? {
      var (items, rest) := ReadClass(text).value;
      ReadGlobOrders(rest);
      PrependOrders(OneOf(negated, items), ReadGlob(rest));
    }
  }

  // ----- parsing the compiled text gives the intended expression -----

  predicate Unquantified(rest: string) {
    rest == "" || rest[0] !in "*?+{"
  }

  lemma EscapedClassAtom(c: char, rest: string)
    ensures var text := EscapeClassCharacter(c) + rest;
            text != "" && text[0] != ']' && text[0] != '-' && ParseClassAtom(text) == Some((c, rest))
  {
    var text := EscapeClassCharacter(c) + rest;
    if c in "-\\]^" {
      assert text[2..] == rest;
    } else {
      assert text[1..] == rest;
    }
  }

  /** The text of a class starts with no character that means something there. */
  lemma FirstOfItems(items: seq<Item>)
    ensures items != [] ==> ShowItems(items) != "" && ShowItems(items)[0] !in "^-]"
  {
    if items != [] {
      var c := match items[0] case One(c) => c case Span(low, _) => low;
      assert ShowItem(items[0])[0] == EscapeClassCharacter(c)[0];
    }
  }

  lemma FirstOfTail(items: seq<Item>, rest: string)
    ensures (ShowItems(items) + ("]" + rest))[0] !in "^-"
  {
    FirstOfItems(items);
    var text := ShowItems(items) + ("]" + rest);
    if items != [] {
      assert text[0] == ShowItems(items)[0];
    } else {
      assert text == "]" + rest;
    }
  }

  lemma ParsesOne(c: char, tail: string, more: seq<Range>, rest: string)
    requires tail != "" && tail[0] != '-' && ParseRanges(tail) == Some((more, rest))
    ensures ParseRanges(EscapeClassCharacter(c) + tail) == Some(([(c, c)] + more, rest))
  {
    EscapedClassAtom(c, tail);
  }

  lemma ParsesSpan(low: char, high: char, tail: string, more: seq<Range>, rest: string)
    requires low <= high && ParseRanges(tail) == Some((more, rest))
    ensures ParseRanges(EscapeClassCharacter(low) + ("-" + (EscapeClassCharacter(high) + tail))) == Some(([(low, high)] + more, rest))
  {
    var second := EscapeClassCharacter(high) + tail;
    EscapedClassAtom(low, "-" + second);
    EscapedClassAtom(high, tail);
    assert ("-" + second)[1..] == second && ("-" + second)[1] == second[0];
  }

  lemma {:induction false} ParsesItems(items: seq<Item>, rest: string)
    requires OrderedItems(items)
    ensures ParseRanges(ShowItems(items) + ("]" + rest)) == Some((RangesOf(items), rest))
    decreases |items|
  {
    var text := ShowItems(items) + ("]" + rest);
    if items == [] {
      assert text == "]" + rest && text[1..] == rest;
    } else {
      var tail := ShowItems(items[1..]) + ("]" + rest);
      ParsesItems(items[1..], rest);
      FirstOfTail(items[1..], rest);
      ItemFirst(items, "]" + rest);
      match items[0] {
        case One(c) => ParsesOne(c, tail, RangesOf(items[1..]), rest);
        case Span(low, high) => ParsesSpan(low, high, tail, RangesOf(items[1..]), rest);
      }
    }
  }

  lemma ItemFirst(items: seq<Item>, end: string)
    requires items != []
    ensures var tail := ShowItems(items[1..]) + end;
            ShowItems(items) + end ==
              match items[0]
              case One(c) => EscapeClassCharacter(c) + tail
              case Span(low, high) => EscapeClassCharacter(low) + ("-" + (EscapeClassCharacter(high) + tail))
  {
    var tail := ShowItems(items[1..]) + end;
    Associates(ShowItem(items[0]), ShowItems(items[1..]), end);
    if items[0].Span? {
      var low, high := EscapeClassCharacter(items[0].low), EscapeClassCharacter(items[0].high);
      Associates(low + "-", high, tail);
      Associates(low, "-", high + tail);
    }
  }

  lemma Associates(a: string, b: string, c: string)
    ensures (a + b) + c == a + (b + c)
  {
  }

  /** The texts "[^/]" and ".*" in front of anything. */
  lemma ParsesFixed(rest: string)
    ensures ParseAtom("[^/]" + rest) == Some((Class(true, SLASH), rest))
    ensures ParseAtom(".*" + rest) == Some((Dot, "*" + rest))
    ensures ParseAtom("(?:.*/)?" + rest) == Some((Cat(Many(Dot), Cat(Literal('/'), Empty)), "?" + rest))
  {
    var t := "[^/]" + rest;
    assert t[2..] == "/]" + rest;
    assert ("/]" + rest)[1..] == "]" + rest;
    assert ("]" + rest)[1..] == rest;
    assert ParseRanges("]" + rest) == Some(([], rest));
    assert ParseClassAtom("/]" + rest) == Some(('/', "]" + rest));
    assert [('/', '/')] + [] == SLASH;
    assert (".*" + rest)[1..] == "*" + rest;
    ParsesGroup(rest);
  }

  lemma ParsesGroup(rest: string)
    ensures ParseAtom("(?:.*/)?" + rest) == Some((Cat(Many(Dot), Cat(Literal('/'), Empty)), "?" + rest))
  {
    var t := "(?:.*/)?" + rest;
    var body := ".*/)?" + rest;
    var slash := "/)?" + rest;
    var close := ")?" + rest;
    assert t[3..] == body;
    assert body[1..] == "*/)?" + rest && ("*/)?" + rest)[1..] == slash;
    assert slash[1..] == close && close[1..] == "?" + rest;
    assert ParseTerms(close) == Some((Empty, close));
    assert ParseTerm(slash) == Some((Literal('/'), close));
    assert ParseTerms(slash) == Some((Cat(Literal('/'), Empty), close));
    assert ParseTerm(body) == Some((Many(Dot), slash));
    assert ParseTerms(body) == Some((Cat(Many(Dot), Cat(Literal('/'), Empty)), close));
  }

  lemma ParsesLiteral(c: char, rest: string)
    ensures var text := EscapeRegexCharacter(c) + rest;
            text[0] != ')' && Unquantified(text) && ParseAtom(text) == Some((Literal(c), rest))
  {
    var text := EscapeRegexCharacter(c) + rest;
    if SyntaxCharacter(c) {
      assert text[2..] == rest;
    } else {
      assert text[1..] == rest;
    }
  }

  lemma ParsesBracket(negated: bool, body: string, ranges: seq<Range>, rest: string)
    requires body != "" && body[0] != '^' && ParseRanges(body) == Some((ranges, rest))
    ensures ParseAtom((if negated then "[^" else "[") + body) == Some((Class(negated, ranges), rest))
  {
    var text := (if negated then "[^" else "[") + body;
    if negated {
      assert text[2..] == body;
    } else {
      assert text[1..] == body && text[1] == body[0];
    }
  }

  lemma BracketText(open: string, items: string, rest: string)
    ensures (open + items + "]") + rest == open + (items + ("]" + rest))
  {
    Associates(open + items, "]", rest);
    Associates(open, items, "]" + rest);
  }

  lemma ParsesClass(negated: bool, items: seq<Item>, rest: string)
    requires OrderedItems(items)
    ensures var text := ShowPiece(OneOf(negated, items)) + rest;
            text[0] == '[' && ParseAtom(text) == Some((Class(negated, RangesOf(items)), rest))
  {
    BodyOfClass(items, rest);
    ParsesBracket(negated, ShowItems(items) + ("]" + rest), RangesOf(items), rest);
    ClassText(negated, items, rest);
  }

  lemma ClassText(negated: bool, items: seq<Item>, rest: string)
    ensures ShowPiece(OneOf(negated, items)) + rest == (if negated then "[^" else "[") + (ShowItems(items) + ("]" + rest))
  {
    BracketText(if negated then "[^" else "[", ShowItems(items), rest);
  }

  lemma BodyOfClass(items: seq<Item>, rest: string)
    requires OrderedItems(items)
    ensures var body := ShowItems(items) + ("]" + rest);
            body != "" && body[0] != '^' && ParseRanges(body) == Some((RangesOf(items), rest))
  {
    ParsesItems(items, rest);
    FirstOfTail(items, rest);
  }

  lemma Quantifies(text: string, atom: Regex, quantifier: char, rest: string)
    requires text != "" && text[0] != ')' && quantifier in "*?" && Unquantified(rest)
    requires ParseAtom(text) == Some((atom, [quantifier] + rest))
    ensures ParseTerm(text) == Some((if quantifier == '*' then Many(atom) else Maybe(atom), rest))
  {
    assert ([quantifier] + rest)[1..] == rest;
  }

  lemma ParsesRun(rest: string)
    requires Unquantified(rest)
    ensures ParseTerm("[^/]*" + rest) == Some((Many(Class(true, SLASH)), rest))
  {
    ParsesFixed("*" + rest);
    assert "[^/]*" + rest == "[^/]" + ("*" + rest);
    Quantifies("[^/]*" + rest, Class(true, SLASH), '*', rest);
  }

  lemma ParsesDirectories(rest: string)
    requires Unquantified(rest)
    ensures ParseTerm("(?:.*/)?" + rest) == Some((RegexOf(AnyDirectories), rest))
  {
    ParsesFixed(rest);
    Quantifies("(?:.*/)?" + rest, Cat(Many(Dot), Cat(Literal('/'), Empty)), '?', rest);
  }

  lemma ParsesPiece(piece: Piece, rest: string)
    requires piece.OneOf? ==> OrderedItems(piece.items)
    requires Unquantified(rest)
    ensures var text := ShowPiece(piece) + rest;
            text != "" && text[0] != ')' && Unquantified(text) && ParseTerm(text) == Some((RegexOf(piece), rest))
  {
    var text := ShowPiece(piece) + rest;
    match piece {
      case Exactly(c) => ParsesLiteral(c, rest);
      case AnyCharacter => ParsesFixed(rest);
      case AnyRun => ParsesRun(rest);
      case AnyPath =>
        ParsesFixed(rest);
        Quantifies(text, Dot, '*', rest);
      case AnyDirectories => ParsesDirectories(rest);
      case OneOf(negated, items) => ParsesClass(negated, items, rest);
    }
  }

  lemma {:induction false} ParsesPieces(pieces: seq<Piece>)
    requires OrderedPieces(pieces)
    ensures Unquantified(ShowPieces(pieces))
    ensures ParseTerms(ShowPieces(pieces)) == Some((RegexOfAll(pieces), ""))
    decreases |pieces|
  {
    if pieces != [] {
      ParsesPieces(pieces[1..]);
      ParsesPiece(pieces[0], ShowPieces(pieces[1..]));
    }
  }

  /** The text compiled from pieces denotes the intended expression. */
  lemma CompiledParses(pieces: seq<Piece>)
    requires OrderedPieces(pieces)
    ensures ParseRegex("^" + ShowPieces(pieces) + "$") == Some(RegexOfAll(pieces))
  {
    var source := "^" + ShowPieces(pieces) + "$";
    assert source[1..|source| - 1] == ShowPieces(pieces);
    ParsesPieces(pieces);
  }

  // ----- the expression matches what the pieces match -----

  lemma {:induction false} RunOfClass(s: string)
    ensures Matches(Many(Class(true, SLASH)), s) <==> '/' !in s
    decreases |s|
  {
    var r := Many(Class(true, SLASH));
    if s != "" {
      RunOfClass(s[1..]);
      assert s == [s[0]] + s[1..];
      if '/' !in s {
        assert SLASH[0] == ('/', '/');
        assert Matches(Class(true, SLASH), s[..1]);
        assert Matches(r, s[1..]);
      }
      if Matches(r, s) {
        var k :| 0 < k <= |s| && Matches(Class(true, SLASH), s[..k]) && Matches(r, s[k..]);
        assert k == 1 && s[..1][0] == s[0];
        assert SLASH[0] == ('/', '/');
        assert s[0] != '/';
      }
    }
  }

  lemma {:induction false} RunOfDots(s: string)
    ensures Matches(Many(Dot), s) <==> OneLine(s)
    decreases |s|
  {
    var r := Many(Dot);
    if s != "" {
      RunOfDots(s[1..]);
      if OneLine(s) {
        assert Matches(Dot, s[..1]) && Matches(r, s[1..]);
      }
      if Matches(r, s) {
        var k :| 0 < k <= |s| && Matches(Dot, s[..k]) && Matches(r, s[k..]);
        assert k == 1 && s[..1][0] == s[0];
        forall i | 0 <= i < |s| ensures !LineTerminator(s[i]) {
          if i > 0 { assert s[i] == s[1..][i - 1]; }
        }
      }
    }
  }

  const ENDING_SLASH := Cat(Literal('/'), Empty)

  lemma EndingSlash(s: string)
    ensures Matches(ENDING_SLASH, s) <==> s == "/"
  {
    if s == "/" {
      assert s[..1] == "/" && s[1..] == "";
      assert Matches(Literal('/'), s[..1]) && Matches(Empty, s[1..]);
    }
    if Matches(ENDING_SLASH, s) {
      var j :| 0 <= j <= |s| && Matches(Literal('/'), s[..j]) && Matches(Empty, s[j..]);
      assert s == s[..j] + s[j..];
    }
  }

  lemma CatMatches(left: Regex, right: Regex, s: string, k: nat)
    requires k <= |s| && Matches(left, s[..k]) && Matches(right, s[k..])
    ensures Matches(Cat(left, right), s)
  {
  }

  lemma CatSplits(left: Regex, right: Regex, s: string) returns (k: nat)
    requires Matches(Cat(left, right), s)
    ensures k <= |s| && Matches(left, s[..k]) && Matches(right, s[k..])
  {
    k :| 0 <= k <= |s| && Matches(left, s[..k]) && Matches(right, s[k..]);
  }

  lemma DirectoryMatches(s: string)
    requires s != ""
    ensures Matches(Cat(Many(Dot), ENDING_SLASH), s) <==> s[|s| - 1] == '/' && OneLine(s)
  {
    var n := |s| - 1;
    if s[n] == '/' && OneLine(s) {
      RunOfDots(s[..n]);
      EndingSlash(s[n..]);
      CatMatches(Many(Dot), ENDING_SLASH, s, n);
    }
    if Matches(Cat(Many(Dot), ENDING_SLASH), s) {
      var k := CatSplits(Many(Dot), ENDING_SLASH, s);
      EndingSlash(s[k..]);
      DirectoryLine(s, k);
    }
  }

  lemma Directories(s: string)
    ensures Matches(RegexOf(AnyDirectories), s) <==> s == "" || (s[|s| - 1] == '/' && OneLine(s))
  {
    if s != "" {
      DirectoryMatches(s);
    }
  }

  lemma DirectoryLine(s: string, k: nat)
    requires k <= |s| && Matches(Many(Dot), s[..k]) && s[k..] == "/"
    ensures s[|s| - 1] == '/' && OneLine(s)
  {
    RunOfDots(s[..k]);
    assert s == s[..k] + "/";
  }

  lemma {:induction false} InRangesOf(c: char, items: seq<Item>)
    ensures |RangesOf(items)| == |items|
    ensures InRanges(c, RangesOf(items)) <==> InItems(c, items)
    decreases |items|
  {
    if items != [] {
      InRangesOf(c, items[1..]);
      var ranges := RangesOf(items);
      assert ranges[0] == RangeOf(items[0]) && ranges[1..] == RangesOf(items[1..]);
      if InRanges(c, ranges) {
        var i :| 0 <= i < |ranges| && ranges[i].0 <= c <= ranges[i].1;
        if i > 0 {
          assert ranges[1..][i - 1] == ranges[i];
          assert InItems(c, items[1..]);
          var k :| 0 <= k < |items[1..]| && (match items[1..][k] case One(d) => c == d case Span(low, high) => low <= c <= high);
          assert items[k + 1] == items[1..][k];
        } else {
          assert InItems(c, items) by { assert match items[0] case One(d) => c == d case Span(low, high) => low <= c <= high; }
        }
      }
      if InItems(c, items) {
        var i :| 0 <= i < |items| && (match items[i] case One(d) => c == d case Span(low, high) => low <= c <= high);
        if i > 0 {
          assert items[1..][i - 1] == items[i];
          assert InItems(c, items[1..]);
          var k :| 0 <= k < |ranges[1..]| && ranges[1..][k].0 <= c <= ranges[1..][k].1;
          assert ranges[k + 1] == ranges[1..][k];
        } else {
          assert ranges[0].0 <= c <= ranges[0].1;
        }
      }
    }
  }

  /** An expression for one character, in front of the rest. */
  lemma OneThenRest(one: Regex, more: Regex, s: string)
    requires forall t: string :: Matches(one, t) ==> |t| == 1
    ensures Matches(Cat(one, more), s) <==> s != "" && Matches(one, s[..1]) && Matches(more, s[1..])
  {
    if Matches(Cat(one, more), s) {
      var k :| 0 <= k <= |s| && Matches(one, s[..k]) && Matches(more, s[k..]);
      assert k == 1;
    }
  }

  /** The compiled expression matches exactly what the pieces match when ** keeps within a line. */
  lemma {:induction false} PiecesMean(pieces: seq<Piece>, s: string)
    ensures Matches(RegexOfAll(pieces), s) <==> GlobMatches(pieces, s, false)
    decreases |pieces|
  {
    if pieces != [] {
      var piece, rest := pieces[0], pieces[1..];
      var one, more := RegexOf(piece), RegexOfAll(rest);
      forall t: string ensures Matches(more, t) <==> GlobMatches(rest, t, false) {
        PiecesMean(rest, t);
      }
      match piece {
        case Exactly(c) => OneThenRest(one, more, s);
        case AnyCharacter =>
          OneThenRest(one, more, s);
          assert SLASH[0] == ('/', '/');
          assert forall c :: InRanges(c, SLASH) <==> c == '/';
        case OneOf(negated, items) =>
          OneThenRest(one, more, s);
          if s != "" { InRangesOf(s[0], items); }
        case AnyRun =>
          forall k | 0 <= k <= |s| ensures Matches(one, s[..k]) <==> '/' !in s[..k] { RunOfClass(s[..k]); }
        case AnyPath =>
          forall k | 0 <= k <= |s| ensures Matches(one, s[..k]) <==> OneLine(s[..k]) { RunOfDots(s[..k]); }
        case AnyDirectories => DirectoriesMean(rest, more, s);
      }
    }
  }

  lemma DirectoriesMean(rest: seq<Piece>, more: Regex, s: string)
    requires forall t: string :: Matches(more, t) <==> GlobMatches(rest, t, false)
    ensures Matches(Cat(RegexOf(AnyDirectories), more), s) <==> GlobMatches([AnyDirectories] + rest, s, false)
  {
    var one := RegexOf(AnyDirectories);
    assert ([AnyDirectories] + rest)[1..] == rest;
    forall k | 0 <= k <= |s| ensures Matches(one, s[..k]) <==> k == 0 || (s[k - 1] == '/' && OneLine(s[..k])) {
      Directories(s[..k]);
    }
    assert s[..0] == "" && s[0..] == s;
    if GlobMatches(rest, s, false) {
      assert Matches(one, s[..0]) && Matches(more, s[0..]);
    }
  }

  lemma {:induction false} OneLineGlob(pieces: seq<Piece>, s: string)
    requires OneLine(s)
    ensures GlobMatches(pieces, s, false) <==> GlobMatches(pieces, s, true)
    decreases |pieces|
  {
    if pieces != [] {
      forall k | 0 <= k <= |s| ensures GlobMatches(pieces[1..], s[k..], false) <==> GlobMatches(pieces[1..], s[k..], true) {
        OneLineGlob(pieces[1..], s[k..]);
      }
      assert s[0..] == s;
      forall k | 0 <= k <= |s| ensures Crosses(s[..k], false) {}
    }
  }

  /** For every accepted pattern: the produced expression is well formed, and on a path
      without line terminators it matches exactly when the pattern does. */
  lemma CompilationPreservesMeaning(pattern: string, path: string)
    requires ReadGlob(pattern).Some?
    ensures var pieces := ReadGlob(pattern).value;
            var regex := ParseRegex("^" + ShowPieces(pieces) + "$");
            && regex.Some?
            && (Matches(regex.value, path) <==> GlobMatches(pieces, path, false))
            && (OneLine(path) ==> (Matches(regex.value, path) <==> GlobMatches(pieces, path, true)))
  {
    var pieces := ReadGlob(pattern).value;
    ReadGlobOrders(pattern);
    CompiledParses(pieces);
    PiecesMean(pieces, path);
    if OneLine(path) {
      OneLineGlob(pieces, path);
    }
  }

  /** `**` matches any path under the plain meaning; compiled, it matches the paths without line terminators. */
  lemma LineBreakEscapes(path: string)
    ensures ReadGlob("**") == Some([AnyPath])
    ensures GlobMatches([AnyPath], path, true)
    ensures GlobMatches([AnyPath], path, false) <==> OneLine(path)
  {
    assert "**"[..2] == "**" && "**"[2..] == "";
    assert ReadGlob("") == Some([]);
    assert [AnyPath] + [] == [AnyPath];
    AnyPathMatches(path, true);
    AnyPathMatches(path, false);
  }

  lemma AnyPathMatches(path: string, lines: bool)
    ensures GlobMatches([AnyPath], path, lines) <==> Crosses(path, lines)
  {
    assert [AnyPath][1..] == [];
    assert path[..|path|] == path && path[|path|..] == "";
    if Crosses(path, lines) {
      assert GlobMatches([], path[|path|..], lines) && Crosses(path[..|path|], lines);
    }
    if GlobMatches([AnyPath], path, lines) {
      var k :| 0 <= k <= |path| && Crosses(path[..k], lines) && GlobMatches([], path[k..], lines);
      assert k == |path|;
    }
  }

  /** The compiled expression matches the path exactly when the pattern does under the plain meaning. */
  ghost predicate CompiledPlainly(pattern: string, path: string)
    requires ReadGlob(pattern).Some?
  {
    var pieces := ReadGlob(pattern).value;
    var regex := ParseRegex("^" + ShowPieces(pieces) + "$");
    regex.Some? && (Matches(regex.value, path) <==> GlobMatches(pieces, path, true))
  }

  /** The paths on which every pattern keeps its plain meaning are those without line terminators. */
  lemma PlainIffOneLine(path: string)
    ensures (forall pattern | ReadGlob(pattern).Some? :: CompiledPlainly(pattern, path)) <==> OneLine(path)
  {
    LineBreakEscapes(path);
    CompilationPreservesMeaning("**", path);
    if OneLine(path) {
      forall pattern | ReadGlob(pattern).Some? ensures CompiledPlainly(pattern, path) {
        CompilationPreservesMeaning(pattern, path);
      }
    } else {
      assert !CompiledPlainly("**", path);
    }
  }
}
