/** The two lexers that split a command into words: one keeps the words alone and stops at a
    list operator, the other keeps where each word stands. */
module ShellWords {
  import opened Basics
  import opened ShellExpansion

  datatype WordSpan = WordSpan(start: nat, end: nat, value: string)

  /** Where a lexer stands: inside which quotes, and behind a backslash or not. */
  datatype Mode = Mode(quote: Option<char>, escaped: bool)

  const OUTSIDE := Mode(None, false)

  predicate Executable(kind: Kind, quote: Option<char>) {
    if kind.ProcessKind? then quote.None? else quote != Some('\'')
  }

  /** The last index of the expansion that starts here and counts as one, if there is one. */
  function ExpansionEnd(source: string, i: nat, quote: Option<char>): (r: Option<nat>)
    requires i < |source|
    ensures r.Some? ==> i <= r.value < |source|
  {
    if quote == Some('\'') then None
    else
      match SpanAt(source, i)
      case NoExpansion => None
      case Broken(_, end, kind) => if Executable(kind, quote) then Some(end) else None
      case Expansion(_, end, kind) => if Executable(kind, quote) then Some(end) else None
  }

  // ----- what stands at an index -----

  datatype Piece =
    | Literal             // a character of a word
    | Silent              // a backslash or quote: part of a word, not of its value
    | Through(end: nat)   // an expansion, part of a word as it is spelled
    | Gap                 // white space between words
    | Operator            // ( ) ; |

  function PieceAt(source: string, i: nat, mode: Mode): (p: Piece)
    requires i < |source|
    ensures p.Through? ==> i <= p.end < |source|
  {
    var c := source[i];
    if mode.escaped then Literal
    else if c == '\\' && mode.quote != Some('\'') then Silent
    else if mode.quote == Some('\'') then if c == '\'' then Silent else Literal
    else if ExpansionEnd(source, i, mode.quote).Some? then Through(ExpansionEnd(source, i, mode.quote).value)
    else if mode.quote.Some? then if c == mode.quote.value then Silent else Literal
    else if c == '\'' || c == '"' then Silent
    else if Space(c) then Gap
    else if c == '(' || c == ')' || c == ';' || c == '|' then Operator
    else Literal
  }

  function ModeAfter(source: string, i: nat, mode: Mode): Mode
    requires i < |source|
  {
    var c := source[i];
    if mode.escaped then mode.(escaped := false)
    else if c == '\\' && mode.quote != Some('\'') then mode.(escaped := true)
    else if mode.quote == Some('\'') then if c == '\'' then OUTSIDE else mode
    else if ExpansionEnd(source, i, mode.quote).Some? then mode
    else if mode.quote.Some? then if c == mode.quote.value then OUTSIDE else mode
    else if c == '\'' || c == '"' then Mode(Some(c), false)
    else mode
  }

  // ----- the lexers as functions -----

  function Flushed(token: string): seq<string> {
    if token == "" then [] else [token]
  }

  /** The words from here on, when `token` has been read of the present one. */
  function Tokens(source: string, i: nat, mode: Mode, token: string): seq<string>
    decreases |source| - i
  {
    if i >= |source| then Flushed(token)
    else
      match PieceAt(source, i, mode)
      case Literal => Tokens(source, i + 1, ModeAfter(source, i, mode), token + [source[i]])
      case Silent => Tokens(source, i + 1, ModeAfter(source, i, mode), token)
      case Through(end) => Tokens(source, end + 1, mode, token + source[i..end + 1])
      case Gap => Flushed(token) + Tokens(source, i + 1, mode, "")
      case Operator =>
        if source[i] == '(' || source[i] == ')' then Flushed(token) + ([[source[i]]] + Tokens(source, i + 1, mode, ""))
        else Flushed(token)
  }

  function Ended(start: Option<nat>, end: nat, value: string): seq<WordSpan> {
    if start.Some? then [WordSpan(start.value, end, value)] else []
  }

  function Begin(start: Option<nat>, i: nat): Option<nat> {
    if start.None? then Some(i) else start
  }

  /** The words and their places from here on. */
  function Words(source: string, i: nat, mode: Mode, start: Option<nat>, value: string): seq<WordSpan>
    decreases |source| - i
  {
    if i >= |source| then Ended(start, |source|, value)
    else
      match PieceAt(source, i, mode)
      case Silent => Words(source, i + 1, ModeAfter(source, i, mode), Begin(start, i), value)
      case Through(end) => Words(source, end + 1, mode, Begin(start, i), value + source[i..end + 1])
      case Gap => Ended(start, i, value) + Words(source, i + 1, mode, None, "")
      case _ => Words(source, i + 1, ModeAfter(source, i, mode), Begin(start, i), value + [source[i]])
  }

  // ----- the lexers as loops -----

  method ShellTokens(command: string) returns (tokens: seq<string>)
    ensures tokens == Tokens(command, 0, OUTSIDE, "")
  {
    tokens := [];
    var token := "";
    var quote: Option<char> := None;
    var escaped := false;
    var index := 0;
    ghost var all := Tokens(command, 0, OUTSIDE, "");
    while index < |command|
      invariant tokens + Tokens(command, index, Mode(quote, escaped), token) == all
      decreases |command| - index
    {
      var character := command[index];
      var expansion := ExpansionEnd(command, index, quote);
      if escaped {
        token := token + [character];
        escaped := false;
      } else if character == '\\' && quote != Some('\'') {
        escaped := true;
      } else if quote == Some('\'') {
        if character == '\'' {
          quote := None;
        } else {
          token := token + [character];
        }
      } else if expansion.Some? {
        token := token + command[index..expansion.value + 1];
        index := expansion.value;
      } else if quote.Some? {
        if character == quote.value {
          quote := None;
        } else {
          token := token + [character];
        }
      } else if character == '\'' || character == '"' {
        quote := Some(character);
      } else if Space(character) {
        Regroup(tokens, Flushed(token), Tokens(command, index + 1, Mode(quote, escaped), ""));
        tokens, token := tokens + Flushed(token), "";
      } else if character == '(' || character == ')' {
        Regroup(tokens, Flushed(token), [[character]] + Tokens(command, index + 1, Mode(quote, escaped), ""));
        Regroup(tokens + Flushed(token), [[character]], Tokens(command, index + 1, Mode(quote, escaped), ""));
        tokens, token := tokens + Flushed(token) + [[character]], "";
      } else if character == ';' || character == '|' {
        return tokens + Flushed(token);
      } else {
        token := token + [character];
      }
      index := index + 1;
    }
    return tokens + Flushed(token);
  }

  lemma Regroup<T>(a: seq<T>, b: seq<T>, c: seq<T>)
    ensures a + (b + c) == (a + b) + c
  {
  }

  method ShellWordSpans(source: string) returns (words: seq<WordSpan>)
    ensures words == Words(source, 0, OUTSIDE, None, "")
  {
    words := [];
    var start: Option<nat> := None;
    var value := "";
    var quote: Option<char> := None;
    var escaped := false;
    var index: nat := 0;
    ghost var all := Words(source, 0, OUTSIDE, None, "");
    while index < |source|
      invariant words + Words(source, index, Mode(quote, escaped), start, value) == all
      invariant quote.Some? || escaped ==> start.Some?
      decreases |source| - index
    {
      var character := source[index];
      var expansion := ExpansionEnd(source, index, quote);
      if escaped {
        value := value + [character];
        escaped := false;
      } else if character == '\\' && quote != Some('\'') {
        start := Begin(start, index);
        escaped := true;
      } else if quote == Some('\'') {
        if character == '\'' {
          quote := None;
        } else {
          value := value + [character];
        }
      } else if expansion.Some? {
        start := Begin(start, index);
        value := value + source[index..expansion.value + 1];
        index := expansion.value;
      } else if quote.Some? {
        if character == quote.value {
          quote := None;
        } else {
          value := value + [character];
        }
      } else if character == '\'' || character == '"' {
        start := Begin(start, index);
        quote := Some(character);
      } else if Space(character) {
        Regroup(words, Ended(start, index, value), Words(source, index + 1, Mode(quote, escaped), None, ""));
        words := words + Ended(start, index, value);
        start, value := None, "";
      } else {
        start := Begin(start, index);
        value := value + [character];
      }
      index := index + 1;
    }
    return words + Ended(start, |source|, value);
  }

  // ----- the two agree -----

  /** No operator stands outside quotes, escapes and expansions from here on. */
  predicate Calm(source: string, i: nat, mode: Mode)
    decreases |source| - i
  {
    i < |source| ==>
      var p := PieceAt(source, i, mode);
      && !p.Operator?
      && if p.Through? then Calm(source, p.end + 1, mode) else Calm(source, i + 1, ModeAfter(source, i, mode))
  }

  /** The values of words, without the empty ones. */
  function Values(words: seq<WordSpan>): seq<string> {
    if words == [] then [] else Flushed(words[0].value) + Values(words[1..])
  }

  lemma {:induction false} LexersAgreeFrom(source: string, i: nat, mode: Mode, start: Option<nat>, value: string)
    requires Calm(source, i, mode)
    requires start.None? ==> value == "" && mode == OUTSIDE
    ensures Tokens(source, i, mode, value) == Values(Words(source, i, mode, start, value))
    decreases |source| - i
  {
    if i >= |source| {
      OneWord(start, |source|, value);
    } else {
      match PieceAt(source, i, mode)
      case Literal => LexersAgreeFrom(source, i + 1, ModeAfter(source, i, mode), Begin(start, i), value + [source[i]]);
      case Silent => LexersAgreeFrom(source, i + 1, ModeAfter(source, i, mode), Begin(start, i), value);
      case Through(end) => LexersAgreeFrom(source, end + 1, mode, Begin(start, i), value + source[i..end + 1]);
      case Gap =>
        LexersAgreeFrom(source, i + 1, mode, None, "");
        EndedValues(start, i, value, Words(source, i + 1, mode, None, ""));
    }
  }

  lemma OneWord(start: Option<nat>, end: nat, value: string)
    requires start.None? ==> value == ""
    ensures Values(Ended(start, end, value)) == Flushed(value)
  {
    assert Values([]) == [];
  }

  lemma EndedValues(start: Option<nat>, end: nat, value: string, rest: seq<WordSpan>)
    requires start.None? ==> value == ""
    ensures Values(Ended(start, end, value) + rest) == Flushed(value) + Values(rest)
  {
    if start.Some? {
      assert (Ended(start, end, value) + rest)[1..] == rest;
    } else {
      assert Ended(start, end, value) + rest == rest;
    }
  }

  /** Where no operator stands, the tokens are the nonempty values of the word spans. */
  lemma LexersAgree(source: string)
    requires Calm(source, 0, OUTSIDE)
    ensures Tokens(source, 0, OUTSIDE, "") == Values(Words(source, 0, OUTSIDE, None, ""))
  {
    LexersAgreeFrom(source, 0, OUTSIDE, None, "");
  }

  // ----- the places of the words -----

  /** Every character from i up to j is white space. */
  predicate BlankBetween(source: string, i: nat, j: nat)
    requires j <= |source|
  {
    i < j ==> Space(source[j - 1]) && BlankBetween(source, i, j - 1)
  }

  /** From here on, words and nothing but white space between them take turns. */
  predicate Tiles(source: string, from: nat, words: seq<WordSpan>)
    decreases |words|
  {
    if words == [] then from <= |source| && BlankBetween(source, from, |source|)
    else
      var w := words[0];
      && from <= w.start < w.end <= |source| && BlankBetween(source, from, w.start)
      && (w.end < |source| ==> Space(source[w.end]))
      && Tiles(source, w.end, words[1..])
  }

  /** White space since `from`, up to here or up to the start of the present word. */
  predicate Within(source: string, from: nat, i: nat, mode: Mode, start: Option<nat>)
    requires i <= |source|
  {
    && from <= i
    && if start.None? then mode == OUTSIDE && BlankBetween(source, from, i)
       else from <= start.value < i && BlankBetween(source, from, start.value)
  }

  lemma WordsStep(source: string, i: nat, mode: Mode, start: Option<nat>, value: string)
    requires i < |source|
    ensures Words(source, i, mode, start, value) ==
            match PieceAt(source, i, mode)
            case Silent => Words(source, i + 1, ModeAfter(source, i, mode), Begin(start, i), value)
            case Through(end) => Words(source, end + 1, mode, Begin(start, i), value + source[i..end + 1])
            case Gap => Ended(start, i, value) + Words(source, i + 1, mode, None, "")
            case _ => Words(source, i + 1, ModeAfter(source, i, mode), Begin(start, i), value + [source[i]])
  {
  }

  /** A word has begun, or white space goes on outside quotes. */
  lemma StillWithin(source: string, from: nat, i: nat, mode: Mode, start: Option<nat>)
    requires i < |source| && Within(source, from, i, mode, start)
    ensures forall next, mode' :: i < next <= |source| ==> Within(source, from, next, mode', Begin(start, i))
    ensures PieceAt(source, i, mode).Gap? ==>
              mode == OUTSIDE && Space(source[i]) && Within(source, if start.Some? then i else from, i + 1, mode, None)
  {
    if PieceAt(source, i, mode).Gap? {
      assert BlankBetween(source, i, i + 1);
    }
  }

  lemma {:induction false} WordsTileFrom(source: string, from: nat, i: nat, mode: Mode, start: Option<nat>, value: string)
    requires i <= |source| && Within(source, from, i, mode, start)
    ensures Tiles(source, from, Words(source, i, mode, start, value))
    decreases |source| - i
  {
    if i == |source| {
      EndTiles(source, from, i, mode, start, value, []);
    } else {
      WordsStep(source, i, mode, start, value);
      StillWithin(source, from, i, mode, start);
      match PieceAt(source, i, mode)
      case Silent => WordsTileFrom(source, from, i + 1, ModeAfter(source, i, mode), Begin(start, i), value);
      case Through(end) => WordsTileFrom(source, from, end + 1, mode, Begin(start, i), value + source[i..end + 1]);
      case Gap =>
        WordsTileFrom(source, if start.Some? then i else from, i + 1, mode, None, "");
        EndTiles(source, from, i, mode, start, value, Words(source, i + 1, mode, None, ""));
      case _ => WordsTileFrom(source, from, i + 1, ModeAfter(source, i, mode), Begin(start, i), value + [source[i]]);
    }
  }

  /** The present word ends here, if there is one. */
  lemma EndTiles(source: string, from: nat, i: nat, mode: Mode, start: Option<nat>, value: string, rest: seq<WordSpan>)
    requires i <= |source| && Within(source, from, i, mode, start)
    requires i < |source| ==> Space(source[i])
    requires if i == |source| then rest == [] else Tiles(source, if start.Some? then i else from, rest)
    ensures Tiles(source, from, Ended(start, i, value) + rest)
  {
    var words := Ended(start, i, value) + rest;
    if start.Some? {
      assert words[1..] == rest;
    } else {
      assert words == rest;
    }
  }

  /** The spans are ordered, disjoint, nonempty and in bounds, and only white space is left out. */
  lemma WordsTile(source: string)
    ensures Tiles(source, 0, Words(source, 0, OUTSIDE, None, ""))
  {
    WordsTileFrom(source, 0, 0, OUTSIDE, None, "");
  }
}
