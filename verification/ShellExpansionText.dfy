/** The text between the parentheses of a substitution, as a grammar, and the theorem that the
    scanner finds exactly such texts. */
module ShellExpansionText {
  import opened Basics
  import opened ShellExpansion

  datatype Bit = Char(c: char) | Escape(c: char)

  datatype Word =
    | Plain(c: char)
    | Escaped(c: char)
    | Quoted(text: string)            // '...'
    | DoubleQuoted(bits: seq<Bit>)    // "..."
    | Backticked(bits: seq<Bit>)      // `...`
    | Comment(text: string)           // #... up to and with its line feed
    | Group(words: seq<Word>)         // (...)

  // ----- text -----

  function RenderBit(bit: Bit): string {
    match bit case Char(c) => [c] case Escape(c) => ['\\', c]
  }

  function RenderBits(bits: seq<Bit>): string {
    if bits == [] then "" else RenderBit(bits[0]) + RenderBits(bits[1..])
  }

  function Render(w: Word): string
    decreases w
  {
    match w
    case Plain(c) => [c]
    case Escaped(c) => ['\\', c]
    case Quoted(text) => "'" + (text + "'")
    case DoubleQuoted(bits) => "\"" + (RenderBits(bits) + "\"")
    case Backticked(bits) => "`" + (RenderBits(bits) + "`")
    case Comment(text) => "#" + (text + "\n")
    case Group(words) => "(" + (RenderAll(words) + ")")
  }

  function RenderAll(words: seq<Word>): string
    decreases words
  {
    if words == [] then "" else Render(words[0]) + RenderAll(words[1..])
  }

  // ----- well-formedness -----

  predicate BitsWithout(bits: seq<Bit>, close: char) {
    forall i | 0 <= i < |bits| :: bits[i].Char? ==> bits[i].c != close && bits[i].c != '\\'
  }

  /** Whether a `#` here starts a comment: at the very start or behind a separator. */
  predicate CommentHere(before: Option<char>) {
    before.None? || Separator(before.value)
  }

  function LastOf(w: Word): char {
    match w
    case Plain(c) => c
    case Escaped(c) => c
    case Quoted(_) => '\''
    case DoubleQuoted(_) => '"'
    case Backticked(_) => '`'
    case Comment(_) => '\n'
    case Group(_) => ')'
  }

  predicate WellFormed(w: Word, before: Option<char>)
    decreases w
  {
    match w
    case Plain(c) => c != '\\' && c != '\'' && c != '"' && c != '`' && c != '(' && c != ')' && (c == '#' ==> !CommentHere(before))
    case Escaped(_) => true
    case Quoted(text) => '\'' !in text
    case DoubleQuoted(bits) => BitsWithout(bits, '"')
    case Backticked(bits) => BitsWithout(bits, '`')
    case Comment(text) => CommentHere(before) && '\n' !in text
    case Group(words) => AllWellFormed(words, Some('('))
  }

  /** Words in sequence; `before` is the character in front of the first one, if any. */
  predicate AllWellFormed(words: seq<Word>, before: Option<char>)
    decreases words
  {
    words == [] || (WellFormed(words[0], before) && AllWellFormed(words[1..], Some(LastOf(words[0]))))
  }

  lemma LastOfRender(w: Word)
    ensures Render(w) != "" && Render(w)[|Render(w)| - 1] == LastOf(w)
  {
  }

  // ----- the scanner passes over words -----

  /** The scan outside quotes and escapes as a value. */
  type Closer = (nat, nat) -> Closing

  ghost predicate IsCloser(source: string, first: nat, close: Closer) {
    forall i: nat, depth: nat {:trigger Close(source, first, i, depth, None, false)} ::
      first <= i && depth > 0 ==> close(i, depth) == Close(source, first, i, depth, None, false)
  }

  /** What stands in front of an index. */
  predicate Behind(source: string, first: nat, i: nat, before: Option<char>) {
    && first <= i <= |source|
    && if before.None? then i == first else i > first && source[i - 1] == before.value
  }

  lemma {:induction false} PassesBits(source: string, first: nat, i: nat, depth: nat, bits: seq<Bit>)
    requires first <= i && depth > 0 && At(source, i, RenderBits(bits) + "\"") && BitsWithout(bits, '"')
    ensures Close(source, first, i, depth, Some('"'), false) == Close(source, first, i + |RenderBits(bits)| + 1, depth, None, false)
    decreases |bits|
  {
    AtCharacter(source, i, RenderBits(bits) + "\"", 0);
    if bits != [] {
      var head := RenderBit(bits[0]);
      assert RenderBits(bits) + "\"" == head + (RenderBits(bits[1..]) + "\"");
      AtSplit(source, i, head, RenderBits(bits[1..]) + "\"");
      PassesBits(source, first, i + |head|, depth, bits[1..]);
    }
  }

  lemma {:induction false} PassesBackticks(source: string, i: nat, bits: seq<Bit>)
    requires At(source, i, RenderBits(bits) + "`") && BitsWithout(bits, '`')
    ensures BacktickEnd(source, i, false) == Some(i + |RenderBits(bits)|)
    decreases |bits|
  {
    AtCharacter(source, i, RenderBits(bits) + "`", 0);
    if bits != [] {
      var head := RenderBit(bits[0]);
      assert RenderBits(bits) + "`" == head + (RenderBits(bits[1..]) + "`");
      AtSplit(source, i, head, RenderBits(bits[1..]) + "`");
      PassesBackticks(source, i + |head|, bits[1..]);
    }
  }

  lemma {:induction false} PassesQuoted(source: string, first: nat, i: nat, depth: nat, text: string)
    requires first <= i && depth > 0 && At(source, i, text + "'") && '\'' !in text
    ensures Close(source, first, i, depth, Some('\''), false) == Close(source, first, i + |text| + 1, depth, None, false)
    decreases |text|
  {
    AtCharacter(source, i, text + "'", 0);
    if text != "" {
      assert text + "'" == text[..1] + (text[1..] + "'");
      AtSplit(source, i, text[..1], text[1..] + "'");
      PassesQuoted(source, first, i + 1, depth, text[1..]);
    }
  }

  lemma {:induction false} PassesComment(source: string, i: nat, text: string)
    requires i < |source| && At(source, i + 1, text + "\n") && '\n' !in text
    ensures CommentEnd(source, i) == i + |text|
    decreases |text|
  {
    AtCharacter(source, i + 1, text + "\n", 0);
    if text != "" {
      assert text + "\n" == text[..1] + (text[1..] + "\n");
      AtSplit(source, i + 1, text[..1], text[1..] + "\n");
      PassesComment(source, i + 1, text[1..]);
    }
  }

  lemma PassesEscaped(source: string, first: nat, i: nat, depth: nat, c: char)
    requires first <= i && depth > 0 && At(source, i, Render(Escaped(c)))
    ensures Close(source, first, i, depth, None, false) == Close(source, first, i + |Render(Escaped(c))|, depth, None, false)
  {
    AtCharacter(source, i, Render(Escaped(c)), 0);
    assert Close(source, first, i + 1, depth, None, true) == Close(source, first, i + 2, depth, None, false);
  }

  lemma PassesSingleQuotes(source: string, first: nat, i: nat, depth: nat, text: string)
    requires first <= i && depth > 0 && At(source, i, Render(Quoted(text))) && '\'' !in text
    ensures Close(source, first, i, depth, None, false) == Close(source, first, i + |Render(Quoted(text))|, depth, None, false)
  {
    AtCharacter(source, i, Render(Quoted(text)), 0);
    AtSplit(source, i, "'", text + "'");
    PassesQuoted(source, first, i + 1, depth, text);
  }

  lemma PassesDoubleQuotes(source: string, first: nat, i: nat, depth: nat, bits: seq<Bit>)
    requires first <= i && depth > 0 && At(source, i, Render(DoubleQuoted(bits))) && BitsWithout(bits, '"')
    ensures Close(source, first, i, depth, None, false) == Close(source, first, i + |Render(DoubleQuoted(bits))|, depth, None, false)
  {
    AtCharacter(source, i, Render(DoubleQuoted(bits)), 0);
    AtSplit(source, i, "\"", RenderBits(bits) + "\"");
    PassesBits(source, first, i + 1, depth, bits);
  }

  lemma PassesBacktickWord(source: string, first: nat, i: nat, depth: nat, bits: seq<Bit>)
    requires first <= i && depth > 0 && At(source, i, Render(Backticked(bits))) && BitsWithout(bits, '`')
    ensures Close(source, first, i, depth, None, false) == Close(source, first, i + |Render(Backticked(bits))|, depth, None, false)
  {
    AtCharacter(source, i, Render(Backticked(bits)), 0);
    AtSplit(source, i, "`", RenderBits(bits) + "`");
    PassesBackticks(source, i + 1, bits);
  }

  lemma PassesCommentWord(source: string, first: nat, i: nat, depth: nat, text: string, before: Option<char>)
    requires Behind(source, first, i, before) && depth > 0 && At(source, i, Render(Comment(text)))
    requires CommentHere(before) && '\n' !in text
    ensures Close(source, first, i, depth, None, false) == Close(source, first, i + |Render(Comment(text))|, depth, None, false)
  {
    AtCharacter(source, i, Render(Comment(text)), 0);
    AtSplit(source, i, "#", text + "\n");
    PassesComment(source, i, text);
    var feed := i + |text| + 1;
    AtCharacter(source, i + 1, text + "\n", |text|);
    assert Close(source, first, feed, depth, None, false) == Close(source, first, feed + 1, depth, None, false);
  }

  lemma PassesPlain(source: string, first: nat, i: nat, depth: nat, c: char, before: Option<char>)
    requires Behind(source, first, i, before) && depth > 0 && At(source, i, Render(Plain(c))) && WellFormed(Plain(c), before)
    ensures Close(source, first, i, depth, None, false) == Close(source, first, i + |Render(Plain(c))|, depth, None, false)
  {
    AtCharacter(source, i, Render(Plain(c)), 0);
  }

  /** Words other than groups. */
  lemma SimpleCloses(source: string, first: nat, i: nat, depth: nat, w: Word, before: Option<char>)
    requires depth > 0 && !w.Group?
    requires Behind(source, first, i, before) && At(source, i, Render(w)) && WellFormed(w, before)
    ensures Close(source, first, i, depth, None, false) == Close(source, first, i + |Render(w)|, depth, None, false)
  {
    match w
    case Plain(c) => PassesPlain(source, first, i, depth, c, before);
    case Escaped(c) => PassesEscaped(source, first, i, depth, c);
    case Quoted(text) => PassesSingleQuotes(source, first, i, depth, text);
    case DoubleQuoted(bits) => PassesDoubleQuotes(source, first, i, depth, bits);
    case Backticked(bits) => PassesBacktickWord(source, first, i, depth, bits);
    case Comment(text) => PassesCommentWord(source, first, i, depth, text, before);
  }

  lemma PassesSimple(source: string, first: nat, close: Closer, i: nat, depth: nat, w: Word, before: Option<char>)
    requires IsCloser(source, first, close) && depth > 0 && !w.Group?
    requires Behind(source, first, i, before) && At(source, i, Render(w)) && WellFormed(w, before)
    ensures close(i, depth) == close(i + |Render(w)|, depth)
  {
    SimpleCloses(source, first, i, depth, w, before);
  }

  lemma CloseStep(source: string, first: nat, i: nat, depth: nat)
    requires first <= i < |source| && depth > 0
    ensures source[i] == '(' ==> Close(source, first, i, depth, None, false) == Close(source, first, i + 1, depth + 1, None, false)
    ensures source[i] == ')' && depth > 1 ==>
              Close(source, first, i, depth, None, false) == Close(source, first, i + 1, depth - 1, None, false)
    ensures source[i] == ')' && depth == 1 ==> Close(source, first, i, depth, None, false) == ClosedAt(i)
  {
  }

  lemma ParenthesesStep(source: string, first: nat, close: Closer, i: nat, depth: nat)
    requires IsCloser(source, first, close) && first <= i < |source| && depth > 0
    ensures source[i] == '(' ==> close(i, depth) == close(i + 1, depth + 1)
    ensures source[i] == ')' && depth > 1 ==> close(i, depth) == close(i + 1, depth - 1)
    ensures source[i] == ')' && depth == 1 ==> close(i, depth) == ClosedAt(i)
  {
    CloseStep(source, first, i, depth);
  }

  lemma {:induction false} PassesWord(source: string, first: nat, close: Closer, i: nat, depth: nat, w: Word, before: Option<char>)
    requires IsCloser(source, first, close) && depth > 0
    requires Behind(source, first, i, before) && At(source, i, Render(w)) && WellFormed(w, before)
    ensures close(i, depth) == close(i + |Render(w)|, depth)
    decreases w, 0
  {
    if w.Group? {
      var body := RenderAll(w.words);
      AtSplit(source, i, "(", body + ")");
      AtSplit(source, i + 1, body, ")");
      AtCharacter(source, i, "(", 0);
      AtCharacter(source, i + 1 + |body|, ")", 0);
      ParenthesesStep(source, first, close, i, depth);
      PassesWords(source, first, close, i + 1, depth + 1, w.words, Some('('));
      ParenthesesStep(source, first, close, i + 1 + |body|, depth + 1);
    } else {
      PassesSimple(source, first, close, i, depth, w, before);
    }
  }

  lemma {:induction false} PassesWords(source: string, first: nat, close: Closer, i: nat, depth: nat, words: seq<Word>, before: Option<char>)
    requires IsCloser(source, first, close) && depth > 0
    requires Behind(source, first, i, before) && At(source, i, RenderAll(words)) && AllWellFormed(words, before)
    ensures close(i, depth) == close(i + |RenderAll(words)|, depth)
    decreases words, 1
  {
    if words != [] {
      var head := Render(words[0]);
      AtSplit(source, i, head, RenderAll(words[1..]));
      PassesWord(source, first, close, i, depth, words[0], before);
      LastOfRender(words[0]);
      AtCharacter(source, i, head, |head| - 1);
      PassesWords(source, first, close, i + |head|, depth, words[1..], Some(LastOf(words[0])));
    }
  }

  // ----- what the scanner passed over is words -----

  lemma PrependBit(source: string, i: nat, bit: Bit, rest: seq<Bit>, close: char)
    requires At(source, i, RenderBit(bit)) && At(source, i + |RenderBit(bit)|, RenderBits(rest) + [close])
    ensures At(source, i, RenderBits([bit] + rest) + [close])
  {
    assert ([bit] + rest)[1..] == rest;
    assert RenderBits([bit] + rest) + [close] == RenderBit(bit) + (RenderBits(rest) + [close]);
    AtSplit(source, i, RenderBit(bit), RenderBits(rest) + [close]);
  }

  lemma NoBits(source: string, i: nat, close: char)
    requires i < |source| && source[i] == close
    ensures At(source, i, RenderBits([]) + [close])
  {
    assert RenderBits([]) + [close] == [close];
  }

  lemma {:induction false} ReadsBits(source: string, first: nat, i: nat, depth: nat) returns (bits: seq<Bit>)
    requires first <= i && depth > 0 && Close(source, first, i, depth, Some('"'), false).ClosedAt?
    ensures BitsWithout(bits, '"') && At(source, i, RenderBits(bits) + ['"'])
    decreases |source| - i
  {
    if source[i] == '"' {
      bits := [];
      NoBits(source, i, '"');
    } else {
      var bit := Char(source[i]);
      if source[i] == '\\' {
        assert Close(source, first, i + 1, depth, Some('"'), true).ClosedAt?;
        bit := Escape(source[i + 1]);
      }
      var rest := ReadsBits(source, first, i + |RenderBit(bit)|, depth);
      bits := [bit] + rest;
      PrependBit(source, i, bit, rest, '"');
    }
  }

  lemma {:induction false} ReadsBackticks(source: string, i: nat) returns (bits: seq<Bit>)
    requires BacktickEnd(source, i, false).Some?
    ensures BitsWithout(bits, '`') && At(source, i, RenderBits(bits) + ['`'])
    decreases |source| - i
  {
    if source[i] == '`' {
      bits := [];
      NoBits(source, i, '`');
    } else {
      var bit := Char(source[i]);
      if source[i] == '\\' {
        assert BacktickEnd(source, i + 1, true).Some?;
        bit := Escape(source[i + 1]);
      }
      var rest := ReadsBackticks(source, i + |RenderBit(bit)|);
      bits := [bit] + rest;
      PrependBit(source, i, bit, rest, '`');
    }
  }

  lemma {:induction false} ReadsQuoted(source: string, first: nat, i: nat, depth: nat) returns (text: string)
    requires first <= i && depth > 0 && Close(source, first, i, depth, Some('\''), false).ClosedAt?
    ensures '\'' !in text && At(source, i, text + "'")
    decreases |source| - i
  {
    if source[i] == '\'' {
      text := "";
    } else {
      var rest := ReadsQuoted(source, first, i + 1, depth);
      text := [source[i]] + rest;
      assert text + "'" == [source[i]] + (rest + "'");
      AtSplit(source, i, [source[i]], rest + "'");
    }
  }

  lemma {:induction false} CommentStops(source: string, i: nat)
    requires i < |source|
    ensures var end := CommentEnd(source, i);
            (forall k | i < k <= end :: source[k] != '\n') && (end + 1 < |source| ==> source[end + 1] == '\n')
    decreases |source| - i
  {
    if i + 1 < |source| && source[i + 1] != '\n' {
      CommentStops(source, i + 1);
    }
  }

  lemma ReadsComment(source: string, first: nat, i: nat, depth: nat, before: Option<char>) returns (text: string)
    requires Behind(source, first, i, before) && i < |source| && source[i] == '#' && CommentHere(before)
    requires depth > 0 && Close(source, first, i, depth, None, false).ClosedAt?
    ensures WellFormed(Comment(text), before) && At(source, i, Render(Comment(text)))
  {
    var end := CommentEnd(source, i);
    CommentStops(source, i);
    CommentGoesOn(source, first, i, depth, before);
    text := source[i + 1..end + 1];
    CommentText(source, i, end);
  }

  lemma CommentText(source: string, i: nat, end: nat)
    requires i <= end && end + 1 < |source| && source[i] == '#' && source[end + 1] == '\n'
    ensures At(source, i, Render(Comment(source[i + 1..end + 1])))
  {
    var text := source[i + 1..end + 1];
    assert At(source, i + 1, text) && At(source, end + 1, "\n");
    AtSplit(source, i + 1, text, "\n");
    AtSplit(source, i, "#", text + "\n");
  }

  lemma CommentGoesOn(source: string, first: nat, i: nat, depth: nat, before: Option<char>)
    requires Behind(source, first, i, before) && i < |source| && source[i] == '#' && CommentHere(before)
    requires depth > 0 && Close(source, first, i, depth, None, false).ClosedAt?
    ensures CommentEnd(source, i) + 1 < |source|
  {
    var next := CommentEnd(source, i) + 1;
    assert Close(source, first, i, depth, None, false) == Close(source, first, next, depth, None, false);
  }

  /** The word at an index where the scan of a closed text stands, if no parenthesis stands there. */
  lemma ReadsWord(source: string, first: nat, i: nat, depth: nat, before: Option<char>) returns (w: Word)
    requires Behind(source, first, i, before) && depth > 0 && Close(source, first, i, depth, None, false).ClosedAt?
    requires i < |source| && source[i] != '(' && source[i] != ')'
    ensures !w.Group? && WellFormed(w, before) && At(source, i, Render(w))
  {
    var c := source[i];
    if c == '\\' {
      w := ReadsEscaped(source, first, i, depth, before);
    } else if c == '\'' {
      var text := ReadsQuoted(source, first, i + 1, depth);
      w := Quoted(text);
      AtSplit(source, i, "'", text + "'");
    } else if c == '"' || c == '`' {
      w := ReadsDelimited(source, first, i, depth, before);
    } else if c == '#' && CommentHere(before) {
      var text := ReadsComment(source, first, i, depth, before);
      w := Comment(text);
    } else {
      w := Plain(c);
    }
  }

  lemma ReadsEscaped(source: string, first: nat, i: nat, depth: nat, before: Option<char>) returns (w: Word)
    requires first <= i < |source| && source[i] == '\\'
    requires depth > 0 && Close(source, first, i, depth, None, false).ClosedAt?
    ensures w.Escaped? && At(source, i, Render(w))
  {
    assert Close(source, first, i + 1, depth, None, true).ClosedAt?;
    w := Escaped(source[i + 1]);
  }

  lemma ReadsDelimited(source: string, first: nat, i: nat, depth: nat, before: Option<char>) returns (w: Word)
    requires first <= i < |source| && (source[i] == '"' || source[i] == '`')
    requires depth > 0 && Close(source, first, i, depth, None, false).ClosedAt?
    ensures !w.Group? && WellFormed(w, before) && At(source, i, Render(w))
  {
    if source[i] == '"' {
      var bits := ReadsBits(source, first, i + 1, depth);
      w := DoubleQuoted(bits);
      AtSplit(source, i, "\"", RenderBits(bits) + "\"");
    } else {
      var bits := ReadsBackticks(source, i + 1);
      w := Backticked(bits);
      AtSplit(source, i, "`", RenderBits(bits) + "`");
    }
  }

  /** Words up to each of the closing parentheses that are still due. */
  function RenderLevels(levels: seq<seq<Word>>): string {
    if levels == [] then "" else RenderAll(levels[0]) + (")" + RenderLevels(levels[1..]))
  }

  predicate LevelsWellFormed(levels: seq<seq<Word>>, before: Option<char>) {
    levels == [] || (AllWellFormed(levels[0], before) && LevelsWellFormed(levels[1..], Some(')')))
  }

  lemma ExtendLevels(source: string, i: nat, w: Word, before: Option<char>, levels: seq<seq<Word>>) returns (longer: seq<seq<Word>>)
    requires levels != [] && WellFormed(w, before) && LevelsWellFormed(levels, Some(LastOf(w)))
    requires At(source, i, Render(w)) && At(source, i + |Render(w)|, RenderLevels(levels))
    ensures |longer| == |levels| && LevelsWellFormed(longer, before) && At(source, i, RenderLevels(longer))
    ensures |RenderLevels(longer)| == |Render(w)| + |RenderLevels(levels)|
  {
    var words := [w] + levels[0];
    assert words[1..] == levels[0];
    longer := [words] + levels[1..];
    assert longer[1..] == levels[1..];
    AtSplit(source, i, Render(w), RenderLevels(levels));
    assert RenderAll(words) == Render(w) + RenderAll(levels[0]);
    var rest := ")" + RenderLevels(levels[1..]);
    assert (Render(w) + RenderAll(levels[0])) + rest == Render(w) + (RenderAll(levels[0]) + rest);
  }

  lemma CloseLevel(source: string, i: nat, levels: seq<seq<Word>>) returns (more: seq<seq<Word>>)
    requires LevelsWellFormed(levels, Some(')'))
    requires i < |source| && source[i] == ')' && At(source, i + 1, RenderLevels(levels))
    ensures |more| == |levels| + 1 && At(source, i, RenderLevels(more))
    ensures forall before :: LevelsWellFormed(more, before)
    ensures |RenderLevels(more)| == 1 + |RenderLevels(levels)|
  {
    more := [[]] + levels;
    assert more[1..] == levels;
    AtSplit(source, i, ")", RenderLevels(levels));
    assert RenderLevels(more) == ")" + RenderLevels(levels);
  }

  lemma OpenLevel(source: string, i: nat, levels: seq<seq<Word>>, before: Option<char>) returns (fewer: seq<seq<Word>>)
    requires |levels| >= 2 && LevelsWellFormed(levels, Some('('))
    requires i < |source| && source[i] == '(' && At(source, i + 1, RenderLevels(levels))
    ensures |fewer| == |levels| - 1 && LevelsWellFormed(fewer, before) && At(source, i, RenderLevels(fewer))
    ensures |RenderLevels(fewer)| == 1 + |RenderLevels(levels)|
  {
    var w := Group(levels[0]);
    var body, rest := RenderAll(levels[0]), RenderLevels(levels[1..]);
    assert body + (")" + rest) == (body + ")") + rest;
    AtSplit(source, i + 1, body + ")", rest);
    AtSplit(source, i, "(", body + ")");
    fewer := ExtendLevels(source, i, w, before, levels[1..]);
  }

  lemma ClosesLevel(source: string, first: nat, i: nat, depth: nat, before: Option<char>, rest: seq<seq<Word>>)
    returns (levels: seq<seq<Word>>)
    requires first <= i < |source| && source[i] == ')' && depth == |rest| + 1
    requires LevelsWellFormed(rest, Some(')')) && At(source, i + 1, RenderLevels(rest))
    requires depth > 1 ==> Close(source, first, i + 1, depth - 1, None, false) == ClosedAt(i + |RenderLevels(rest)|)
    ensures |levels| == depth && LevelsWellFormed(levels, before) && At(source, i, RenderLevels(levels))
    ensures Close(source, first, i, depth, None, false) == ClosedAt(i + |RenderLevels(levels)| - 1)
  {
    levels := CloseLevel(source, i, rest);
    CloseStep(source, first, i, depth);
    assert rest == [] ==> RenderLevels(rest) == "";
  }

  lemma OpensLevel(source: string, first: nat, i: nat, depth: nat, before: Option<char>, rest: seq<seq<Word>>)
    returns (levels: seq<seq<Word>>)
    requires first <= i < |source| && source[i] == '(' && 0 < depth == |rest| - 1
    requires LevelsWellFormed(rest, Some('(')) && At(source, i + 1, RenderLevels(rest))
    requires Close(source, first, i + 1, depth + 1, None, false) == ClosedAt(i + |RenderLevels(rest)|)
    ensures |levels| == depth && LevelsWellFormed(levels, before) && At(source, i, RenderLevels(levels))
    ensures Close(source, first, i, depth, None, false) == ClosedAt(i + |RenderLevels(levels)| - 1)
  {
    levels := OpenLevel(source, i, rest, before);
    CloseStep(source, first, i, depth);
  }

  lemma WordLevel(source: string, i: nat, depth: nat, before: Option<char>, w: Word, rest: seq<seq<Word>>)
    returns (levels: seq<seq<Word>>)
    requires depth == |rest| > 0 && WellFormed(w, before) && At(source, i, Render(w))
    requires LevelsWellFormed(rest, Some(LastOf(w))) && At(source, i + |Render(w)|, RenderLevels(rest))
    ensures |levels| == depth && LevelsWellFormed(levels, before) && At(source, i, RenderLevels(levels))
    ensures |RenderLevels(levels)| == |Render(w)| + |RenderLevels(rest)|
  {
    levels := ExtendLevels(source, i, w, before, rest);
  }

  /** A closed scan from here has passed over words, as many closing parentheses deep as were due. */
  lemma {:induction false} ReadsLevels(source: string, first: nat, i: nat, depth: nat, before: Option<char>) returns (levels: seq<seq<Word>>)
    requires Behind(source, first, i, before) && depth > 0 && Close(source, first, i, depth, None, false).ClosedAt?
    ensures |levels| == depth && LevelsWellFormed(levels, before) && At(source, i, RenderLevels(levels))
    ensures Close(source, first, i, depth, None, false) == ClosedAt(i + |RenderLevels(levels)| - 1)
    decreases |source| - i, 1
  {
    if source[i] == ')' || source[i] == '(' {
      levels := ReadsAtParenthesis(source, first, i, depth, before);
    } else {
      levels := ReadsAtWord(source, first, i, depth, before);
    }
  }

  lemma {:induction false} ReadsAtParenthesis(source: string, first: nat, i: nat, depth: nat, before: Option<char>)
    returns (levels: seq<seq<Word>>)
    requires Behind(source, first, i, before) && depth > 0 && Close(source, first, i, depth, None, false).ClosedAt?
    requires i < |source| && (source[i] == '(' || source[i] == ')')
    ensures |levels| == depth && LevelsWellFormed(levels, before) && At(source, i, RenderLevels(levels))
    ensures Close(source, first, i, depth, None, false) == ClosedAt(i + |RenderLevels(levels)| - 1)
    decreases |source| - i, 0
  {
    CloseStep(source, first, i, depth);
    if source[i] == ')' {
      var rest: seq<seq<Word>> := [];
      if depth > 1 {
        rest := ReadsLevels(source, first, i + 1, depth - 1, Some(')'));
      }
      levels := ClosesLevel(source, first, i, depth, before, rest);
    } else {
      var rest := ReadsLevels(source, first, i + 1, depth + 1, Some('('));
      levels := OpensLevel(source, first, i, depth, before, rest);
    }
  }

  lemma {:induction false} ReadsAtWord(source: string, first: nat, i: nat, depth: nat, before: Option<char>)
    returns (levels: seq<seq<Word>>)
    requires Behind(source, first, i, before) && depth > 0 && Close(source, first, i, depth, None, false).ClosedAt?
    requires i < |source| && source[i] != '(' && source[i] != ')'
    ensures |levels| == depth && LevelsWellFormed(levels, before) && At(source, i, RenderLevels(levels))
    ensures Close(source, first, i, depth, None, false) == ClosedAt(i + |RenderLevels(levels)| - 1)
    decreases |source| - i, 0
  {
    var w := ReadsNext(source, first, i, depth, before);
    var rest := ReadsLevels(source, first, i + |Render(w)|, depth, Some(LastOf(w)));
    levels := WordLevel(source, i, depth, before, w, rest);
  }

  lemma ReadsNext(source: string, first: nat, i: nat, depth: nat, before: Option<char>) returns (w: Word)
    requires Behind(source, first, i, before) && depth > 0 && Close(source, first, i, depth, None, false).ClosedAt?
    requires i < |source| && source[i] != '(' && source[i] != ')'
    ensures WellFormed(w, before) && At(source, i, Render(w)) && |Render(w)| > 0
    ensures Behind(source, first, i + |Render(w)|, Some(LastOf(w)))
    ensures Close(source, first, i, depth, None, false) == Close(source, first, i + |Render(w)|, depth, None, false)
  {
    w := ReadsWord(source, first, i, depth, before);
    var close: Closer := (j: nat, d: nat) => if first <= j && d > 0 then Close(source, first, j, d, None, false) else NeverClosed;
    PassesSimple(source, first, close, i, depth, w, before);
    assert close(i, depth) == Close(source, first, i, depth, None, false);
    LastOfRender(w);
    AtCharacter(source, i, Render(w), |Render(w)| - 1);
  }

  /** The text between the parentheses of a substitution. */
  ghost predicate IsCommandText(text: string) {
    exists words :: AllWellFormed(words, None) && RenderAll(words) == text
  }

  ghost predicate Finds(source: string, start: nat, text: string)
    requires start < |source|
  {
    SpanAt(source, start) == Expansion(text, start + 2 + |text|, KindOf(source[start]))
  }

  lemma WrappedIsFound(source: string, start: nat, text: string)
    requires Opens(source, start) && !(source[start] == '$' && start + 2 < |source| && source[start + 2] == '(')
    requires IsCommandText(text) && At(source, start + 2, text + ")")
    ensures Finds(source, start, text)
  {
    var first := start + 2;
    var words :| AllWellFormed(words, None) && RenderAll(words) == text;
    AtSplit(source, first, text, ")");
    AtCharacter(source, first + |text|, ")", 0);
    var close: Closer := (j: nat, d: nat) => if first <= j && d > 0 then Close(source, first, j, d, None, false) else NeverClosed;
    PassesWords(source, first, close, first, 1, words, None);
    ParenthesesStep(source, first, close, first + |text|, 1);
    assert close(first, 1) == Close(source, first, first, 1, None, false);
    assert source[first..first + |text|] == text;
  }

  lemma FoundIsWrapped(source: string, start: nat, text: string)
    requires Opens(source, start) && !(source[start] == '$' && start + 2 < |source| && source[start + 2] == '(')
    requires Finds(source, start, text)
    ensures IsCommandText(text) && At(source, start + 2, text + ")")
  {
    var first := start + 2;
    var levels := ReadsLevels(source, first, first, 1, None);
    var words := levels[0];
    assert levels[1..] == [];
    assert RenderLevels(levels) == RenderAll(words) + ")";
    AtSplit(source, first, RenderAll(words), ")");
    assert RenderAll(words) == text;
  }

  /** Scanning undoes wrapping: in any context, the scanner finds a command exactly where
      well-formed words stand between the opening and a closing parenthesis, and returns
      that text and the index of that parenthesis. `$((` is left to arithmetic. */
  lemma ScanningUndoesWrapping(source: string, start: nat, text: string)
    requires Opens(source, start) && !(source[start] == '$' && start + 2 < |source| && source[start + 2] == '(')
    ensures Finds(source, start, text) <==> IsCommandText(text) && At(source, start + 2, text + ")")
  {
    if IsCommandText(text) && At(source, start + 2, text + ")") {
      WrappedIsFound(source, start, text);
    }
    if Finds(source, start, text) {
      FoundIsWrapped(source, start, text);
    }
  }

  // ----- backticks, and what is no substitution -----

  ghost predicate IsBacktickText(text: string) {
    exists bits :: BitsWithout(bits, '`') && RenderBits(bits) == text
  }

  predicate FindsBackticks(source: string, start: nat, text: string) {
    SpanAt(source, start) == Expansion(text, start + 1 + |text|, BacktickKind)
  }

  /** Between backticks stands any text in which backticks and backslashes are escaped. */
  lemma BackticksAreFound(source: string, start: nat, text: string)
    requires start < |source| && source[start] == '`'
    ensures FindsBackticks(source, start, text) <==> IsBacktickText(text) && At(source, start + 1, text + "`")
  {
    var first := start + 1;
    if IsBacktickText(text) && At(source, first, text + "`") {
      var bits :| BitsWithout(bits, '`') && RenderBits(bits) == text;
      PassesBackticks(source, first, bits);
      AtSplit(source, first, text, "`");
    }
    if FindsBackticks(source, start, text) {
      var bits := ReadsBackticks(source, first);
      PassesBackticks(source, first, bits);
      assert source[first..first + |text|] == text;
      BacktickText(source, first, bits, text);
    }
  }

  lemma BacktickText(source: string, first: nat, bits: seq<Bit>, text: string)
    requires At(source, first, RenderBits(bits) + "`") && BitsWithout(bits, '`') && At(source, first, text) && |RenderBits(bits)| == |text|
    ensures IsBacktickText(text) && At(source, first, text + "`")
  {
    AtSplit(source, first, RenderBits(bits), "`");
    assert RenderBits(bits) == text;
  }

  predicate Arithmetics(source: string, start: nat) {
    At(source, start, "$((")
  }

  predicate Starts(source: string, start: nat) {
    At(source, start, "`") || At(source, start, "$(") || At(source, start, "<(") || At(source, start, ">(")
  }

  /** Whether the text belongs to the substitution that starts here. */
  ghost predicate Inside(source: string, start: nat, text: string) {
    if At(source, start, "`") then IsBacktickText(text) && At(source, start + 1, text + "`")
    else IsCommandText(text) && At(source, start + 2, text + ")")
  }

  lemma AtOne(source: string, start: nat, c: char)
    ensures At(source, start, [c]) <==> start < |source| && source[start] == c
  {
    if start < |source| {
      assert source[start..start + 1] == [source[start]];
    }
  }

  lemma AtTwo(source: string, start: nat, c: char, d: char)
    ensures At(source, start, [c] + [d]) <==> start + 1 < |source| && source[start] == c && source[start + 1] == d
  {
    AtSplit(source, start, [c], [d]);
    AtOne(source, start, c);
    AtOne(source, start + 1, d);
  }

  lemma StartsMeans(source: string, start: nat)
    ensures Starts(source, start) <==> (start < |source| && source[start] == '`') || Opens(source, start)
    ensures Arithmetics(source, start) <==> Opens(source, start) && source[start] == '$' && start + 2 < |source| && source[start + 2] == '('
    ensures At(source, start, "`") <==> start < |source| && source[start] == '`'
  {
    AtOne(source, start, '`');
    AtTwo(source, start, '$', '(');
    AtTwo(source, start, '<', '(');
    AtTwo(source, start, '>', '(');
    assert "$(" == ['$'] + ['('] && "<(" == ['<'] + ['('] && ">(" == ['>'] + ['('];
    AtSplit(source, start, "$(", "(");
    AtOne(source, start + 2, '(');
    assert "$((" == "$(" + "(";
  }

  /** Every substitution that starts is found or reported: `$((` as arithmetic, and what does not end as broken. */
  lemma SpansAreComplete(source: string, start: nat)
    ensures SpanAt(source, start).NoExpansion? <==> !Starts(source, start)
    ensures Arithmetics(source, start) <==> SpanAt(source, start) == Broken(Arithmetic, start + 2, CommandKind)
    ensures Starts(source, start) && !Arithmetics(source, start) ==>
              (SpanAt(source, start).Expansion? <==> exists text :: Inside(source, start, text))
    ensures var span := SpanAt(source, start);
            span.Broken? && !span.problem.Arithmetic? ==>
              && span.end == |source| - 1
              && (span.problem.UnterminatedBacktick? <== source[start] == '`')
              && (span.problem.UnterminatedBacktick? ==> exists k :: start <= k < |source| && source[k] == '`')
  {
    StartsMeans(source, start);
    if Starts(source, start) && !Arithmetics(source, start) {
      FoundIffInside(source, start);
      if Opens(source, start) && Close(source, start + 2, start + 2, 1, None, false).BrokenBacktick? {
        var k := BacktickThere(source, start + 2, start + 2, 1, None, false);
      }
    }
  }

  lemma FoundIffInside(source: string, start: nat)
    requires Starts(source, start) && !Arithmetics(source, start)
    ensures SpanAt(source, start).Expansion? <==> exists text :: Inside(source, start, text)
  {
    StartsMeans(source, start);
    forall text ensures Inside(source, start, text) ==> SpanAt(source, start).Expansion? {
      if source[start] == '`' {
        BackticksAreFound(source, start, text);
      } else {
        ScanningUndoesWrapping(source, start, text);
      }
    }
    var span := SpanAt(source, start);
    if span.Expansion? {
      if source[start] == '`' {
        BackticksAreFound(source, start, span.command);
      } else {
        ScanningUndoesWrapping(source, start, span.command);
      }
      assert Inside(source, start, span.command);
    }
  }

  lemma {:induction false} BacktickThere(source: string, first: nat, i: nat, depth: nat, quote: Option<char>, escaped: bool) returns (k: nat)
    requires first <= i && depth > 0 && Close(source, first, i, depth, quote, escaped).BrokenBacktick?
    ensures i <= k < |source| && source[k] == '`'
    decreases |source| - i
  {
    if escaped {
      k := BacktickThere(source, first, i + 1, depth, quote, false);
    } else if source[i] == '\\' && quote != Some('\'') {
      k := BacktickThere(source, first, i + 1, depth, quote, true);
    } else if quote.Some? {
      k := BacktickThere(source, first, i + 1, depth, if source[i] == quote.value then None else quote, false);
    } else if source[i] == '\'' || source[i] == '"' {
      k := BacktickThere(source, first, i + 1, depth, Some(source[i]), false);
    } else if source[i] == '`' {
      k := i;
    } else if source[i] == '#' && (i == first || Separator(source[i - 1])) {
      k := BacktickThere(source, first, CommentEnd(source, i) + 1, depth, None, false);
    } else if source[i] == '(' {
      k := BacktickThere(source, first, i + 1, depth + 1, None, false);
    } else if source[i] == ')' {
      k := BacktickThere(source, first, i + 1, depth - 1, None, false);
    } else {
      k := BacktickThere(source, first, i + 1, depth, None, false);
    }
  }
}
