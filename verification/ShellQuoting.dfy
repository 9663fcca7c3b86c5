/** What quotes, escapes and operators mean to the two lexers: texts are spelled from pieces whose
    meaning is given apart from any scanning, and reading a spelled text gives that meaning. */
module ShellQuoting {
  import opened Basics
  import opened ShellExpansion
  import Scanned = ShellExpansionText
  import opened ShellWords

  /** What a command text may be spelled from. */
  datatype Bit =
    | Blanks(text: string)
    | Bare(text: string)          // as it stands
    | Single(text: string)        // '...'
    | Double(text: string)        // "...", with a backslash before what is special there
    | Backslashed(c: char)        // \c
    | Sign(c: char)               // ( ) ; |
    | Substitution(opener: char, text: string)   // $(...), <(...) and >(...)

  predicate PlainCharacter(c: char) {
    && !Space(c) && c != '\\' && c != '\'' && c != '"' && c != '`'
    && c != '(' && c != ')' && c != ';' && c != '|'
  }

  predicate SpecialInDouble(c: char) {
    c == '"' || c == '\\' || c == '`' || c == '$'
  }

  function SpellDouble(text: string): string {
    if text == "" then ""
    else (if SpecialInDouble(text[0]) then ['\\', text[0]] else [text[0]]) + SpellDouble(text[1..])
  }

  function SpellBit(bit: Bit): string {
    match bit
    case Blanks(text) => text
    case Bare(text) => text
    case Single(text) => ['\''] + (text + "'")
    case Double(text) => ['"'] + (SpellDouble(text) + "\"")
    case Backslashed(c) => ['\\', c]
    case Sign(c) => [c]
    case Substitution(opener, text) => [opener] + (['('] + (text + ")"))
  }

  function Spell(bits: seq<Bit>): string {
    if bits == [] then "" else SpellBit(bits[0]) + Spell(bits[1..])
  }

  /** `<(` and `>(` do not stand in the text. */
  predicate NoProcess(text: string) {
    |text| < 2 || (!(text[1] == '(' && (text[0] == '<' || text[0] == '>')) && NoProcess(text[1..]))
  }

  ghost predicate WellFormedBit(bit: Bit) {
    match bit
    case Blanks(text) => text != "" && forall k | 0 <= k < |text| :: Space(text[k])
    case Bare(text) => text != "" && forall k | 0 <= k < |text| :: PlainCharacter(text[k])
    case Single(text) => '\'' !in text
    case Double(text) => NoProcess(text)
    case Backslashed(_) => true
    case Sign(c) => c == '(' || c == ')' || c == ';' || c == '|'
    case Substitution(opener, text) =>
      && Scanned.IsCommandText(text) && (opener == '$' || opener == '<' || opener == '>')
      && !(opener == '$' && text != "" && text[0] == '(')    // `$((` is arithmetic
  }

  /** `$(`, `<(` and `>(` open an expansion. */
  predicate Opener(bit: Bit) {
    bit.Bare? && bit.text != "" && (var c := bit.text[|bit.text| - 1]; c == '$' || c == '<' || c == '>')
  }

  ghost predicate WellFormed(bits: seq<Bit>) {
    forall k | 0 <= k < |bits| :: WellFormedAt(bits, k)
  }

  ghost predicate WellFormedAt(bits: seq<Bit>, k: nat)
    requires k < |bits|
  {
    WellFormedBit(bits[k]) && (Opener(bits[k]) && k + 1 < |bits| ==> bits[k + 1] != Sign('('))
  }

  // ----- what the bits mean -----

  /** What a bit adds to a word. */
  function TextOf(bit: Bit): string {
    match bit
    case Blanks(_) => ""
    case Bare(text) => text
    case Single(text) => text
    case Double(text) => text
    case Backslashed(c) => [c]
    case Sign(c) => [c]
    case Substitution(_, _) => SpellBit(bit)
  }

  /** The words of the bits: blanks end a word, a parenthesis is a word of its own, and `;` and `|`
      end the command. Empty words do not count. */
  function Meant(bits: seq<Bit>, word: string): seq<string> {
    if bits == [] then Flushed(word)
    else if bits[0].Blanks? then Flushed(word) + Meant(bits[1..], "")
    else if bits[0] == Sign('(') || bits[0] == Sign(')') then Flushed(word) + [TextOf(bits[0])] + Meant(bits[1..], "")
    else if bits[0].Sign? then Flushed(word)
    else Meant(bits[1..], word + TextOf(bits[0]))
  }

  /** The same where operators are characters like others and empty words count. */
  function MeantSpans(bits: seq<Bit>, word: Option<string>): seq<string> {
    if bits == [] then (if word.Some? then [word.value] else [])
    else if bits[0].Blanks? then (if word.Some? then [word.value] else []) + MeantSpans(bits[1..], None)
    else MeantSpans(bits[1..], Some((if word.Some? then word.value else "") + TextOf(bits[0])))
  }

  function SpanValues(words: seq<WordSpan>): seq<string> {
    if words == [] then [] else [words[0].value] + SpanValues(words[1..])
  }

  // ----- reading a part of a word -----

  /** The lexers of one text as values: what the laws below need to know about them is only that
      they are the lexers. */
  datatype Lexers = Lexers(tokens: (nat, Mode, string) -> seq<string>, words: (nat, Mode, Option<nat>, string) -> seq<WordSpan>)

  ghost predicate AreLexers(source: string, l: Lexers) {
    && (forall i: nat, mode: Mode, token: string {:trigger Tokens(source, i, mode, token)} ::
          l.tokens(i, mode, token) == Tokens(source, i, mode, token))
    && (forall i: nat, mode: Mode, start: Option<nat>, value: string {:trigger Words(source, i, mode, start, value)} ::
          l.words(i, mode, start, value) == Words(source, i, mode, start, value))
  }

  /** Reading from i to j adds this text to the present word, and changes the mode like this. */
  ghost predicate Reads(l: Lexers, i: nat, mode: Mode, j: nat, mode': Mode, text: string, token: string, start: Option<nat>, value: string) {
    && l.tokens(i, mode, token) == l.tokens(j, mode', token + text)
    && l.words(i, mode, start, value) == l.words(j, mode', Begin(start, i), value + text)
  }

  lemma ReadsLiteral(source: string, l: Lexers, i: nat, mode: Mode, token: string, start: Option<nat>, value: string)
    requires AreLexers(source, l) && i < |source| && PieceAt(source, i, mode).Literal?
    ensures Reads(l, i, mode, i + 1, ModeAfter(source, i, mode), [source[i]], token, start, value)
  {
    var mode', c := ModeAfter(source, i, mode), source[i];
    assert Tokens(source, i, mode, token) == Tokens(source, i + 1, mode', token + [c]);
    assert Words(source, i, mode, start, value) == Words(source, i + 1, mode', Begin(start, i), value + [c]);
  }

  lemma ReadsSilent(source: string, l: Lexers, i: nat, mode: Mode, token: string, start: Option<nat>, value: string)
    requires AreLexers(source, l) && i < |source| && PieceAt(source, i, mode).Silent?
    ensures l.tokens(i, mode, token) == l.tokens(i + 1, ModeAfter(source, i, mode), token)
    ensures l.words(i, mode, start, value) == l.words(i + 1, ModeAfter(source, i, mode), Begin(start, i), value)
  {
    var mode' := ModeAfter(source, i, mode);
    assert Tokens(source, i, mode, token) == Tokens(source, i + 1, mode', token);
    assert Words(source, i, mode, start, value) == Words(source, i + 1, mode', Begin(start, i), value);
  }

  lemma ReadsOn(l: Lexers, i: nat, mode: Mode, j: nat, mode': Mode, text: string, k: nat, mode'': Mode, more: string,
                token: string, start: Option<nat>, value: string)
    requires Reads(l, i, mode, j, mode', text, token, start, value)
    requires Reads(l, j, mode', k, mode'', more, token + text, Begin(start, i), value + text)
    ensures Reads(l, i, mode, k, mode'', text + more, token, start, value)
  {
    assert token + (text + more) == (token + text) + more;
    assert value + (text + more) == (value + text) + more;
    assert Begin(Begin(start, i), j) == Begin(start, i);
  }

  /** No parenthesis follows at j. */
  predicate NoParenthesis(source: string, j: nat) {
    j < |source| ==> source[j] != '('
  }

  lemma {:induction false} ReadsBare(source: string, l: Lexers, i: nat, text: string, end: nat, token: string, start: Option<nat>, value: string)
    requires AreLexers(source, l) && At(source, i, text) && WellFormedBit(Bare(text)) && end == i + |text|
    requires Opener(Bare(text)) ==> NoParenthesis(source, end)
    ensures Reads(l, i, OUTSIDE, end, OUTSIDE, text, token, start, value)
    decreases |text|
  {
    ReadsPlain(source, l, i, text, token, start, value);
    if |text| > 1 {
      var first, rest := [text[0]], text[1..];
      FirstAndRest(source, i, text[0], rest, text);
      ReadsBare(source, l, i + 1, rest, end, token + first, Begin(start, i), value + first);
      ReadsOn(l, i, OUTSIDE, i + 1, OUTSIDE, first, end, OUTSIDE, rest, token, start, value);
    } else {
      assert text == [text[0]];
    }
  }

  lemma ReadsPlain(source: string, l: Lexers, i: nat, text: string, token: string, start: Option<nat>, value: string)
    requires AreLexers(source, l) && At(source, i, text) && text != "" && PlainCharacter(text[0])
    requires |text| > 1 ==> text[1] != '('
    requires Opener(Bare(text)) ==> NoParenthesis(source, i + |text|)
    ensures Reads(l, i, OUTSIDE, i + 1, OUTSIDE, [text[0]], token, start, value)
  {
    AtCharacter(source, i, text, 0);
    if |text| > 1 {
      AtCharacter(source, i, text, 1);
    }
    assert !Opens(source, i);
    ReadsLiteral(source, l, i, OUTSIDE, token, start, value);
  }

  lemma FirstAndRest(source: string, i: nat, c: char, rest: string, all: string)
    requires At(source, i, all) && all == [c] + rest
    ensures i < |source| && source[i] == c && At(source, i + 1, rest)
  {
    AtSplit(source, i, [c], rest);
    AtCharacter(source, i, [c], 0);
  }

  /** The rest of a quoted text, and its closing quote. */
  lemma {:induction false} ReadsToSingle(source: string, l: Lexers, i: nat, text: string, end: nat, token: string, start: Option<nat>, value: string)
    requires AreLexers(source, l) && At(source, i, text + "'") && '\'' !in text && end == i + |text| + 1 && start.Some?
    ensures Reads(l, i, Mode(Some('\''), false), end, OUTSIDE, text, token, start, value)
    decreases |text|
  {
    var mode := Mode(Some('\''), false);
    AtCharacter(source, i, text + "'", 0);
    if text == "" {
      ReadsSilent(source, l, i, mode, token, start, value);
      assert token + text == token && value + text == value;
    } else {
      var first, rest := [text[0]], text[1..];
      assert text == first + rest;
      FirstAndRest(source, i, text[0], rest + "'", text + "'");
      ReadsLiteral(source, l, i, mode, token, start, value);
      ReadsToSingle(source, l, i + 1, rest, end, token + first, start, value + first);
      ReadsOn(l, i, mode, i + 1, mode, first, end, OUTSIDE, rest, token, start, value);
    }
  }

  lemma ReadsFirstInDouble(source: string, l: Lexers, i: nat, text: string, token: string, start: Option<nat>, value: string) returns (j: nat)
    requires AreLexers(source, l) && At(source, i, SpellDouble(text) + "\"") && NoProcess(text) && text != "" && start.Some?
    ensures Reads(l, i, Mode(Some('"'), false), j, Mode(Some('"'), false), [text[0]], token, start, value)
    ensures At(source, j, SpellDouble(text[1..]) + "\"") && j + |SpellDouble(text[1..])| == i + |SpellDouble(text)|
  {
    var all, rest := SpellDouble(text) + "\"", SpellDouble(text[1..]) + "\"";
    if SpecialInDouble(text[0]) {
      j := i + 2;
      FirstAndRest(source, i, '\\', [text[0]] + rest, all);
      FirstAndRest(source, i + 1, text[0], rest, [text[0]] + rest);
      ReadsEscaped(source, l, i, Mode(Some('"'), false), token, start, value);
    } else {
      j := i + 1;
      FirstAndRest(source, i, text[0], rest, all);
      if text[0] == '<' || text[0] == '>' {
        NextInDouble(text);
        AtCharacter(source, i + 1, rest, 0);
      }
      ReadsInDouble(source, l, i, token, start, value);
    }
  }

  lemma {:induction false} ReadsToDouble(source: string, l: Lexers, i: nat, text: string, end: nat, token: string, start: Option<nat>, value: string)
    requires AreLexers(source, l) && At(source, i, SpellDouble(text) + "\"") && NoProcess(text)
    requires end == i + |SpellDouble(text)| + 1 && start.Some?
    ensures Reads(l, i, Mode(Some('"'), false), end, OUTSIDE, text, token, start, value)
    decreases |text|
  {
    var mode := Mode(Some('"'), false);
    if text == "" {
      AtCharacter(source, i, SpellDouble(text) + "\"", 0);
      ReadsSilent(source, l, i, mode, token, start, value);
      assert token + text == token && value + text == value;
    } else {
      var first := [text[0]];
      assert text == first + text[1..];
      var j := ReadsFirstInDouble(source, l, i, text, token, start, value);
      ReadsToDouble(source, l, j, text[1..], end, token + first, start, value + first);
      ReadsOn(l, i, mode, j, mode, first, end, OUTSIDE, text[1..], token, start, value);
    }
  }

  lemma ReadsInDouble(source: string, l: Lexers, i: nat, token: string, start: Option<nat>, value: string)
    requires AreLexers(source, l) && i < |source| && !SpecialInDouble(source[i])
    requires source[i] == '<' || source[i] == '>' ==> NoParenthesis(source, i + 1)
    ensures Reads(l, i, Mode(Some('"'), false), i + 1, Mode(Some('"'), false), [source[i]], token, start, value)
  {
    NoExpansionInDouble(source, i);
    ReadsLiteral(source, l, i, Mode(Some('"'), false), token, start, value);
  }

  lemma NoExpansionInDouble(source: string, i: nat)
    requires i < |source| && !SpecialInDouble(source[i])
    requires source[i] == '<' || source[i] == '>' ==> NoParenthesis(source, i + 1)
    ensures ExpansionEnd(source, i, Some('"')).None?
  {
    assert !Opens(source, i);
  }

  lemma NextInDouble(text: string)
    requires text != "" && NoProcess(text) && (text[0] == '<' || text[0] == '>')
    ensures (SpellDouble(text[1..]) + "\"")[0] != '('
  {
    if |text| > 1 {
      assert text[1] != '(' && text[1..][0] == text[1];
    }
  }

  lemma ReadsEscaped(source: string, l: Lexers, i: nat, mode: Mode, token: string, start: Option<nat>, value: string)
    requires AreLexers(source, l) && i + 1 < |source| && source[i] == '\\' && !mode.escaped && mode.quote != Some('\'')
    ensures Reads(l, i, mode, i + 2, mode, [source[i + 1]], token, start, value)
  {
    var escaped := mode.(escaped := true);
    ReadsSilent(source, l, i, mode, token, start, value);
    ReadsLiteral(source, l, i + 1, escaped, token, Begin(start, i), value);
    assert Begin(Begin(start, i), i + 1) == Begin(start, i);
  }

  lemma OpensQuotes(source: string, l: Lexers, i: nat, quote: char, token: string, start: Option<nat>, value: string)
    requires AreLexers(source, l) && i < |source| && source[i] == quote && (quote == '\'' || quote == '"')
    ensures l.tokens(i, OUTSIDE, token) == l.tokens(i + 1, Mode(Some(quote), false), token)
    ensures l.words(i, OUTSIDE, start, value) == l.words(i + 1, Mode(Some(quote), false), Begin(start, i), value)
  {
    assert !Opens(source, i) && source[i] != '`';
    ReadsSilent(source, l, i, OUTSIDE, token, start, value);
  }

  lemma ReadsSingle(source: string, l: Lexers, i: nat, text: string, end: nat, token: string, start: Option<nat>, value: string)
    requires AreLexers(source, l) && At(source, i, SpellBit(Single(text))) && '\'' !in text && end == i + |text| + 2
    ensures Reads(l, i, OUTSIDE, end, OUTSIDE, text, token, start, value)
  {
    FirstAndRest(source, i, '\'', text + "'", SpellBit(Single(text)));
    OpensQuotes(source, l, i, '\'', token, start, value);
    ReadsToSingle(source, l, i + 1, text, end, token, Begin(start, i), value);
  }

  lemma ReadsDouble(source: string, l: Lexers, i: nat, text: string, end: nat, token: string, start: Option<nat>, value: string)
    requires AreLexers(source, l) && At(source, i, SpellBit(Double(text))) && NoProcess(text) && end == i + |SpellDouble(text)| + 2
    ensures Reads(l, i, OUTSIDE, end, OUTSIDE, text, token, start, value)
  {
    FirstAndRest(source, i, '"', SpellDouble(text) + "\"", SpellBit(Double(text)));
    OpensQuotes(source, l, i, '"', token, start, value);
    ReadsToDouble(source, l, i + 1, text, end, token, Begin(start, i), value);
  }

  ghost predicate PartOfWord(bit: Bit) {
    WellFormedBit(bit) && !bit.Blanks? && !bit.Sign?
  }

  /** A bit of a word adds its text. */
  lemma ReadsBit(source: string, l: Lexers, i: nat, bit: Bit, end: nat, token: string, start: Option<nat>, value: string)
    requires AreLexers(source, l) && At(source, i, SpellBit(bit)) && PartOfWord(bit) && end == i + |SpellBit(bit)|
    requires Opener(bit) ==> NoParenthesis(source, end)
    ensures Reads(l, i, OUTSIDE, end, OUTSIDE, TextOf(bit), token, start, value)
  {
    match bit {
      case Bare(text) => ReadsBare(source, l, i, text, end, token, start, value);
      case Single(text) => ReadsSingle(source, l, i, text, end, token, start, value);
      case Double(text) => ReadsDouble(source, l, i, text, end, token, start, value);
      case Backslashed(c) =>
        FirstAndRest(source, i, '\\', [c], SpellBit(bit));
        AtCharacter(source, i + 1, [c], 0);
        ReadsEscaped(source, l, i, OUTSIDE, token, start, value);
      case Substitution(opener, text) => ReadsSubstitution(source, l, i, opener, text, end, token, start, value);
    }
  }

  /** A substitution is part of a word as it is spelled. */
  lemma ReadsSubstitution(source: string, l: Lexers, i: nat, opener: char, text: string, end: nat, token: string, start: Option<nat>, value: string)
    requires AreLexers(source, l) && At(source, i, SpellBit(Substitution(opener, text)))
    requires WellFormedBit(Substitution(opener, text)) && end == i + |text| + 3
    ensures Reads(l, i, OUTSIDE, end, OUTSIDE, SpellBit(Substitution(opener, text)), token, start, value)
  {
    var all := SpellBit(Substitution(opener, text));
    SubstitutionEnds(source, i, opener, text);
    assert source[i..end] == all;
    assert PieceAt(source, i, OUTSIDE) == Through(end - 1);
    assert Tokens(source, i, OUTSIDE, token) == Tokens(source, end, OUTSIDE, token + all);
    assert Words(source, i, OUTSIDE, start, value) == Words(source, end, OUTSIDE, Begin(start, i), value + all);
  }

  lemma SubstitutionEnds(source: string, i: nat, opener: char, text: string)
    requires At(source, i, SpellBit(Substitution(opener, text))) && WellFormedBit(Substitution(opener, text))
    ensures i + |text| + 3 <= |source| && source[i] == opener && ExpansionEnd(source, i, None) == Some(i + |text| + 2)
  {
    var all := SpellBit(Substitution(opener, text));
    FirstAndRest(source, i, opener, ['('] + (text + ")"), all);
    FirstAndRest(source, i + 1, '(', text + ")", ['('] + (text + ")"));
    AtCharacter(source, i + 2, text + ")", 0);
    Scanned.WrappedIsFound(source, i, text);
  }

  /** In double quotes `<(` and `>(` are characters like others, unless a backtick without an end comes
      before what would close them: then all the rest counts as an expansion. */
  lemma ProcessInDouble(source: string, i: nat)
    requires Opens(source, i) && source[i] != '$'
    ensures ExpansionEnd(source, i, Some('"')).Some? <==> Close(source, i + 2, i + 2, 1, None, false).BrokenBacktick?
    ensures ExpansionEnd(source, i, Some('"')).Some? ==> ExpansionEnd(source, i, Some('"')) == Some(|source| - 1)
  {
  }

  // ----- reading blanks and operators -----

  lemma ReadsBlank(source: string, l: Lexers, i: nat, token: string, start: Option<nat>, value: string)
    requires AreLexers(source, l) && i < |source| && Space(source[i])
    ensures l.tokens(i, OUTSIDE, token) == Flushed(token) + l.tokens(i + 1, OUTSIDE, "")
    ensures l.words(i, OUTSIDE, start, value) == Ended(start, i, value) + l.words(i + 1, OUTSIDE, None, "")
  {
    assert PieceAt(source, i, OUTSIDE).Gap?;
    assert Tokens(source, i, OUTSIDE, token) == Flushed(token) + Tokens(source, i + 1, OUTSIDE, "");
    assert Words(source, i, OUTSIDE, start, value) == Ended(start, i, value) + Words(source, i + 1, OUTSIDE, None, "");
  }

  lemma {:induction false} ReadsBlanks(source: string, l: Lexers, i: nat, text: string, token: string, start: Option<nat>, value: string)
    requires AreLexers(source, l) && At(source, i, text) && WellFormedBit(Blanks(text)) && (start.None? ==> value == "")
    ensures l.tokens(i, OUTSIDE, token) == Flushed(token) + l.tokens(i + |text|, OUTSIDE, "")
    ensures l.words(i, OUTSIDE, start, value) == Ended(start, i, value) + l.words(i + |text|, OUTSIDE, None, "")
    decreases |text|
  {
    AtCharacter(source, i, text, 0);
    ReadsBlank(source, l, i, token, start, value);
    if |text| > 1 {
      var rest := text[1..];
      assert text == [text[0]] + rest;
      AtSplit(source, i, [text[0]], rest);
      ReadsBlanks(source, l, i + 1, rest, "", None, "");
      assert Flushed("") + l.tokens(i + |text|, OUTSIDE, "") == l.tokens(i + |text|, OUTSIDE, "");
      assert Ended(None, i + 1, "") + l.words(i + |text|, OUTSIDE, None, "") == l.words(i + |text|, OUTSIDE, None, "");
    }
  }

  lemma ReadsSign(source: string, l: Lexers, i: nat, c: char, token: string, start: Option<nat>, value: string)
    requires AreLexers(source, l) && i < |source| && source[i] == c && WellFormedBit(Sign(c))
    ensures l.tokens(i, OUTSIDE, token) ==
            if c == '(' || c == ')' then Flushed(token) + ([[c]] + l.tokens(i + 1, OUTSIDE, "")) else Flushed(token)
    ensures l.words(i, OUTSIDE, start, value) == l.words(i + 1, OUTSIDE, Begin(start, i), value + [c])
  {
    assert PieceAt(source, i, OUTSIDE).Operator?;
    assert Tokens(source, i, OUTSIDE, token) ==
           if c == '(' || c == ')' then Flushed(token) + ([[c]] + Tokens(source, i + 1, OUTSIDE, "")) else Flushed(token);
    assert Words(source, i, OUTSIDE, start, value) == Words(source, i + 1, OUTSIDE, Begin(start, i), value + [c]);
  }

  lemma ReadsEnd(source: string, l: Lexers, token: string, start: Option<nat>, value: string)
    requires AreLexers(source, l)
    ensures l.tokens(|source|, OUTSIDE, token) == Flushed(token)
    ensures l.words(|source|, OUTSIDE, start, value) == Ended(start, |source|, value)
  {
    assert Tokens(source, |source|, OUTSIDE, token) == Flushed(token);
    assert Words(source, |source|, OUTSIDE, start, value) == Ended(start, |source|, value);
  }

  lemma ValuesOfBoth(left: seq<WordSpan>, right: seq<WordSpan>)
    ensures SpanValues(left + right) == SpanValues(left) + SpanValues(right)
  {
    if left == [] {
      assert left + right == right;
    } else {
      assert (left + right)[1..] == left[1..] + right;
    }
  }

  // ----- the whole text -----

  /** Where bit k begins. */
  function Offset(bits: seq<Bit>, k: nat): nat
    requires k <= |bits|
  {
    |Spell(bits[..k])|
  }

  lemma {:induction false} SpellBoth(left: seq<Bit>, right: seq<Bit>)
    ensures Spell(left + right) == Spell(left) + Spell(right)
  {
    if left == [] {
      assert left + right == right;
    } else {
      assert (left + right)[1..] == left[1..] + right;
      SpellBoth(left[1..], right);
      assert SpellBit(left[0]) + (Spell(left[1..]) + Spell(right)) == (SpellBit(left[0]) + Spell(left[1..])) + Spell(right);
    }
  }

  lemma PartStands(before: string, part: string, after: string)
    ensures At(before + (part + after), |before|, part)
  {
    assert (before + (part + after))[|before|..|before| + |part|] == part;
  }

  lemma SpellCut(bits: seq<Bit>, k: nat)
    requires k < |bits|
    ensures Spell(bits) == Spell(bits[..k]) + (SpellBit(bits[k]) + Spell(bits[k + 1..]))
  {
    var before, rest := bits[..k], bits[k..];
    assert bits == before + rest && rest[1..] == bits[k + 1..] && rest[0] == bits[k];
    SpellBoth(before, rest);
  }

  lemma SpellMore(bits: seq<Bit>, k: nat)
    requires k < |bits|
    ensures Spell(bits[..k + 1]) == Spell(bits[..k]) + SpellBit(bits[k])
  {
    assert bits[..k + 1] == bits[..k] + [bits[k]];
    SpellBoth(bits[..k], [bits[k]]);
    SpellOne(bits[k]);
  }

  lemma SpellOne(bit: Bit)
    ensures Spell([bit]) == SpellBit(bit)
  {
    assert [bit][1..] == [];
    assert SpellBit(bit) + "" == SpellBit(bit);
  }

  lemma BitStands(bits: seq<Bit>, k: nat)
    requires k < |bits|
    ensures At(Spell(bits), Offset(bits, k), SpellBit(bits[k]))
    ensures Offset(bits, k + 1) == Offset(bits, k) + |SpellBit(bits[k])|
  {
    SpellCut(bits, k);
    SpellMore(bits, k);
    PartStands(Spell(bits[..k]), SpellBit(bits[k]), Spell(bits[k + 1..]));
  }

  lemma EndOffset(bits: seq<Bit>)
    ensures Offset(bits, |bits|) == |Spell(bits)|
  {
    assert bits[..|bits|] == bits;
  }

  lemma FirstOfBit(bit: Bit)
    requires WellFormedBit(bit) && bit != Sign('(')
    ensures SpellBit(bit) != "" && SpellBit(bit)[0] != '('
  {
  }

  lemma NothingFollows(bits: seq<Bit>, k: nat)
    requires WellFormed(bits) && k < |bits|
    ensures Opener(bits[k]) ==> NoParenthesis(Spell(bits), Offset(bits, k + 1))
  {
    assert WellFormedAt(bits, k);
    if k + 1 < |bits| {
      assert WellFormedAt(bits, k + 1);
      if bits[k + 1] != Sign('(') {
        BitStands(bits, k + 1);
        FirstOfBit(bits[k + 1]);
        AtCharacter(Spell(bits), Offset(bits, k + 1), SpellBit(bits[k + 1]), 0);
      }
    } else {
      EndOffset(bits);
    }
  }

  /** What a bit that stands here does to the tokens. */
  lemma BitToTokens(source: string, l: Lexers, i: nat, bit: Bit, next: nat, token: string)
    requires AreLexers(source, l) && At(source, i, SpellBit(bit)) && WellFormedBit(bit) && next == i + |SpellBit(bit)|
    requires Opener(bit) ==> NoParenthesis(source, next)
    ensures l.tokens(i, OUTSIDE, token) ==
              match bit
              case Blanks(_) => Flushed(token) + l.tokens(next, OUTSIDE, "")
              case Sign(c) => if c == '(' || c == ')' then Flushed(token) + ([[c]] + l.tokens(next, OUTSIDE, "")) else Flushed(token)
              case _ => l.tokens(next, OUTSIDE, token + TextOf(bit))
  {
    if bit.Blanks? {
      ReadsBlanks(source, l, i, bit.text, token, None, "");
    } else if bit.Sign? {
      AtCharacter(source, i, SpellBit(bit), 0);
      ReadsSign(source, l, i, bit.c, token, None, "");
    } else {
      ReadsBit(source, l, i, bit, next, token, None, "");
    }
  }

  /** What it does to the spans. */
  lemma BitToWords(source: string, l: Lexers, i: nat, bit: Bit, next: nat, start: Option<nat>, value: string)
    requires AreLexers(source, l) && At(source, i, SpellBit(bit)) && WellFormedBit(bit) && next == i + |SpellBit(bit)|
    requires (Opener(bit) ==> NoParenthesis(source, next)) && (start.None? ==> value == "")
    ensures l.words(i, OUTSIDE, start, value) ==
              if bit.Blanks? then Ended(start, i, value) + l.words(next, OUTSIDE, None, "")
              else l.words(next, OUTSIDE, Begin(start, i), value + TextOf(bit))
  {
    if bit.Blanks? {
      ReadsBlanks(source, l, i, bit.text, "", start, value);
    } else if bit.Sign? {
      AtCharacter(source, i, SpellBit(bit), 0);
      ReadsSign(source, l, i, bit.c, "", start, value);
    } else {
      ReadsBit(source, l, i, bit, next, "", start, value);
    }
  }

  lemma TokenStep(bits: seq<Bit>, l: Lexers, k: nat, token: string)
    requires WellFormed(bits) && AreLexers(Spell(bits), l) && k < |bits|
    ensures var next := Offset(bits, k + 1);
            l.tokens(Offset(bits, k), OUTSIDE, token) ==
              match bits[k]
              case Blanks(_) => Flushed(token) + l.tokens(next, OUTSIDE, "")
              case Sign(c) => if c == '(' || c == ')' then Flushed(token) + ([[c]] + l.tokens(next, OUTSIDE, "")) else Flushed(token)
              case _ => l.tokens(next, OUTSIDE, token + TextOf(bits[k]))
  {
    var source, bit := Spell(bits), bits[k];
    BitStands(bits, k);
    assert WellFormedAt(bits, k);
    NothingFollows(bits, k);
    BitToTokens(source, l, Offset(bits, k), bit, Offset(bits, k + 1), token);
  }

  lemma WordStep(bits: seq<Bit>, l: Lexers, k: nat, start: Option<nat>, value: string)
    requires WellFormed(bits) && AreLexers(Spell(bits), l) && k < |bits| && (start.None? ==> value == "")
    ensures var i, next := Offset(bits, k), Offset(bits, k + 1);
            l.words(i, OUTSIDE, start, value) ==
              if bits[k].Blanks? then Ended(start, i, value) + l.words(next, OUTSIDE, None, "")
              else l.words(next, OUTSIDE, Begin(start, i), value + TextOf(bits[k]))
  {
    var source, bit := Spell(bits), bits[k];
    BitStands(bits, k);
    assert WellFormedAt(bits, k);
    NothingFollows(bits, k);
    BitToWords(source, l, Offset(bits, k), bit, Offset(bits, k + 1), start, value);
  }

  lemma SignMeans(bits: seq<Bit>, word: string)
    requires bits != [] && bits[0].Sign?
    ensures var c := bits[0].c;
            Meant(bits, word) == if c == '(' || c == ')' then Flushed(word) + ([[c]] + Meant(bits[1..], "")) else Flushed(word)
  {
    var c := bits[0].c;
    if c == '(' || c == ')' {
      assert Flushed(word) + ([[c]] + Meant(bits[1..], "")) == Flushed(word) + [[c]] + Meant(bits[1..], "");
    }
  }

  lemma BlanksMean(bits: seq<Bit>, word: string, before: Option<string>)
    requires bits != [] && bits[0].Blanks?
    ensures Meant(bits, word) == Flushed(word) + Meant(bits[1..], "")
    ensures MeantSpans(bits, before) == (if before.Some? then [before.value] else []) + MeantSpans(bits[1..], None)
  {
  }

  lemma PartMeans(bits: seq<Bit>, word: string, start: Option<nat>, i: nat, value: string)
    requires bits != [] && !bits[0].Blanks? && (start.None? ==> value == "")
    ensures !bits[0].Sign? ==> Meant(bits, word) == Meant(bits[1..], word + TextOf(bits[0]))
    ensures MeantSpans(bits, WordSoFar(start, value)) == MeantSpans(bits[1..], WordSoFar(Begin(start, i), value + TextOf(bits[0])))
  {
  }

  /** From any bit on, the tokens are those that are meant. */
  lemma {:induction false} TokensAreMeant(bits: seq<Bit>, l: Lexers, k: nat, token: string)
    requires WellFormed(bits) && AreLexers(Spell(bits), l) && k <= |bits|
    ensures l.tokens(Offset(bits, k), OUTSIDE, token) == Meant(bits[k..], token)
    decreases |bits| - k
  {
    if k == |bits| {
      EndOffset(bits);
      ReadsEnd(Spell(bits), l, token, None, "");
    } else {
      var rest := bits[k..];
      assert rest[1..] == bits[k + 1..] && rest[0] == bits[k];
      TokenStep(bits, l, k, token);
      if bits[k].Blanks? {
        BlanksMean(rest, token, None);
        TokensAreMeant(bits, l, k + 1, "");
      } else if bits[k].Sign? {
        SignMeans(rest, token);
        TokensAreMeant(bits, l, k + 1, "");
      } else {
        PartMeans(rest, token, None, 0, "");
        TokensAreMeant(bits, l, k + 1, token + TextOf(bits[k]));
      }
    }
  }

  function WordSoFar(start: Option<nat>, value: string): Option<string> {
    if start.Some? then Some(value) else None
  }

  /** The values of the spans are those that are meant. */
  lemma {:induction false} SpansAreMeant(bits: seq<Bit>, l: Lexers, k: nat, start: Option<nat>, value: string)
    requires WellFormed(bits) && AreLexers(Spell(bits), l) && k <= |bits| && (start.None? ==> value == "")
    ensures SpanValues(l.words(Offset(bits, k), OUTSIDE, start, value)) == MeantSpans(bits[k..], WordSoFar(start, value))
    decreases |bits| - k
  {
    var i := Offset(bits, k);
    if k == |bits| {
      EndOffset(bits);
      ReadsEnd(Spell(bits), l, "", start, value);
      ValueOfEnded(start, |Spell(bits)|, value);
    } else {
      var rest := bits[k..];
      assert rest[1..] == bits[k + 1..] && rest[0] == bits[k];
      WordStep(bits, l, k, start, value);
      if bits[k].Blanks? {
        ValuesOfBoth(Ended(start, i, value), l.words(Offset(bits, k + 1), OUTSIDE, None, ""));
        ValueOfEnded(start, i, value);
        BlanksMean(rest, "", WordSoFar(start, value));
        SpansAreMeant(bits, l, k + 1, None, "");
      } else {
        PartMeans(rest, "", start, i, value);
        SpansAreMeant(bits, l, k + 1, Begin(start, i), value + TextOf(bits[k]));
      }
    }
  }

  lemma ValueOfEnded(start: Option<nat>, end: nat, value: string)
    ensures SpanValues(Ended(start, end, value)) == if start.Some? then [value] else []
  {
    assert SpanValues([]) == [];
  }

  /** Reading a spelled text gives what its bits mean. */
  lemma ReadingUndoesSpelling(bits: seq<Bit>)
    requires WellFormed(bits)
    ensures Tokens(Spell(bits), 0, OUTSIDE, "") == Meant(bits, "")
    ensures SpanValues(Words(Spell(bits), 0, OUTSIDE, None, "")) == MeantSpans(bits, None)
  {
    var source := Spell(bits);
    var l := Lexers((i: nat, mode: Mode, token: string) => Tokens(source, i, mode, token),
                    (i: nat, mode: Mode, start: Option<nat>, value: string) => Words(source, i, mode, start, value));
    TokensAreMeant(bits, l, 0, "");
    SpansAreMeant(bits, l, 0, None, "");
    assert bits[0..] == bits && bits[..0] == [] && Offset(bits, 0) == 0;
    assert l.tokens(0, OUTSIDE, "") == Tokens(source, 0, OUTSIDE, "");
    assert l.words(0, OUTSIDE, None, "") == Words(source, 0, OUTSIDE, None, "");
  }

  // ----- a list of words -----

  /** Bits that make up words, one bit each, with one blank between. */
  function Separated(words: seq<Bit>): seq<Bit> {
    if words == [] then [] else if |words| == 1 then words else [words[0]] + ([Blanks(" ")] + Separated(words[1..]))
  }

  function TextsOf(words: seq<Bit>): (texts: seq<string>)
    ensures |texts| == |words| && forall i | 0 <= i < |words| :: texts[i] == TextOf(words[i])
  {
    seq(|words|, i requires 0 <= i < |words| => TextOf(words[i]))
  }

  ghost predicate WordBits(words: seq<Bit>) {
    forall i | 0 <= i < |words| :: WellFormedBit(words[i]) && !words[i].Blanks? && !words[i].Sign? && TextOf(words[i]) != ""
  }

  lemma {:induction false} SeparatedIsWellFormed(words: seq<Bit>)
    requires WordBits(words)
    ensures WellFormed(Separated(words))
    ensures Separated(words) != [] ==> words != [] && Separated(words)[0] == words[0]
  {
    if |words| > 1 {
      SeparatedIsWellFormed(words[1..]);
      var bits, more := Separated(words), Separated(words[1..]);
      assert bits == [words[0]] + ([Blanks(" ")] + more);
      forall k | 0 <= k < |bits| ensures WellFormedAt(bits, k) {
        if k >= 2 {
          assert WellFormedAt(more, k - 2) && bits[k] == more[k - 2];
        } else if k == 1 {
          assert WellFormedBit(Blanks(" "));
        }
      }
    }
  }

  lemma SeparatedSteps(words: seq<Bit>)
    requires WordBits(words) && |words| > 1
    ensures Separated(words)[0] == words[0] && Separated(words)[1..] != [] && Separated(words)[1..][0] == Blanks(" ")
    ensures Separated(words)[1..][1..] == Separated(words[1..])
  {
    HeadAndTail(words[0], [Blanks(" ")] + Separated(words[1..]));
    HeadAndTail(Blanks(" "), Separated(words[1..]));
  }

  lemma HeadAndTail(bit: Bit, rest: seq<Bit>)
    ensures ([bit] + rest)[0] == bit && ([bit] + rest)[1..] == rest
  {
  }

  lemma FirstText(words: seq<Bit>)
    requires words != []
    ensures TextsOf(words) == [TextOf(words[0])] + TextsOf(words[1..])
  {
  }

  lemma {:induction false} SeparatedMeans(words: seq<Bit>)
    requires WordBits(words)
    ensures Meant(Separated(words), "") == TextsOf(words)
    ensures MeantSpans(Separated(words), None) == TextsOf(words)
  {
    if words != [] {
      var bits, text := Separated(words), TextOf(words[0]);
      assert "" + text == text;
      PartMeans(bits, "", None, 0, "");
      if |words| == 1 {
        OneMeans(bits, text);
      } else {
        SeparatedSteps(words);
        FirstText(words);
        BlanksMean(bits[1..], text, Some(text));
        SeparatedMeans(words[1..]);
      }
    }
  }

  lemma OneMeans(bits: seq<Bit>, text: string)
    requires |bits| == 1 && text != ""
    ensures Meant(bits[1..], text) == [text] && MeantSpans(bits[1..], Some(text)) == [text]
  {
  }

  /** Words that are spelled bare, in either kind of quotes or behind a backslash, with blanks
      between them, are read as those words. */
  lemma ReadingUndoesQuoting(words: seq<Bit>)
    requires WordBits(words)
    ensures Tokens(Spell(Separated(words)), 0, OUTSIDE, "") == TextsOf(words)
    ensures SpanValues(Words(Spell(Separated(words)), 0, OUTSIDE, None, "")) == TextsOf(words)
  {
    SeparatedIsWellFormed(words);
    SeparatedMeans(words);
    ReadingUndoesSpelling(Separated(words));
  }
}
