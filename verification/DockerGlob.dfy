/** Docker ignore patterns: their meaning, their compilation to regular expressions, and
    the ordered evaluation of rules. */
module DockerGlob {
  import opened Basics
  import opened RegexSyntax

  // ----- patterns and their meaning -----

  datatype Piece =
    | Exactly(c: char)
    | AnyCharacter                              // ?
    | AnyRun                                    // *
    | AnyPath                                   // **
    | AnyDirectories                            // **/
    | OneOf(negated: bool, items: seq<Item>)    // [a-z] and [^a-z]

  datatype Item = One(c: char) | Span(low: char, high: char)

  predicate InItems(c: char, items: seq<Item>) {
    exists i | 0 <= i < |items| :: match items[i] case One(d) => c == d case Span(low, high) => low <= c <= high
  }

  /** Whether pieces match a whole path. A `*` never crosses a slash; a `**` crosses
      line terminators only when `lines` says so. */
  ghost predicate GlobMatches(pieces: seq<Piece>, path: string, lines: bool)
    decreases |pieces|
  {
    if pieces == [] then path == ""
    else
      var rest := pieces[1..];
      match pieces[0]
      case Exactly(c) => path != "" && path[0] == c && GlobMatches(rest, path[1..], lines)
      case AnyCharacter => path != "" && path[0] != '/' && GlobMatches(rest, path[1..], lines)
      case AnyRun => exists k | 0 <= k <= |path| :: '/' !in path[..k] && GlobMatches(rest, path[k..], lines)
      case AnyPath => exists k | 0 <= k <= |path| :: Crosses(path[..k], lines) && GlobMatches(rest, path[k..], lines)
      case AnyDirectories =>
        || GlobMatches(rest, path, lines)
        || exists k | 0 < k <= |path| ::
             path[k - 1] == '/' && Crosses(path[..k], lines) && GlobMatches(rest, path[k..], lines)
      case OneOf(negated, items) =>
        path != "" && InItems(path[0], items) != negated && GlobMatches(rest, path[1..], lines)
  }

  predicate Crosses(s: string, lines: bool) {
    lines || forall i | 0 <= i < |s| :: !LineTerminator(s[i])
  }

  predicate OneLine(s: string) {
    forall i | 0 <= i < |s| :: !LineTerminator(s[i])
  }

  // ----- reading a pattern -----

  type Pieces = Option<seq<Piece>>

  function Prepend(done: seq<Piece>, rest: Pieces): Pieces {
    if rest.None? then None else Some(done + rest.value)
  }

  /** The pieces a pattern spells, or nothing when it is malformed. */
  function ReadGlob(pattern: string): Pieces
    decreases |pattern|
  {
    if pattern == "" then Some([])
    else if pattern[0] == '\\' then
      if |pattern| == 1 then None else Prepend([Exactly(pattern[1])], ReadGlob(pattern[2..]))
    else if |pattern| >= 3 && pattern[..3] == "**/" then Prepend([AnyDirectories], ReadGlob(pattern[3..]))
    else if |pattern| >= 2 && pattern[..2] == "**" then Prepend([AnyPath], ReadGlob(pattern[2..]))
    else if pattern[0] == '*' then Prepend([AnyRun], ReadGlob(pattern[1..]))
    else if pattern[0] == '?' then Prepend([AnyCharacter], ReadGlob(pattern[1..]))
    else if pattern[0] == '[' then
      var negated := |pattern| > 1 && pattern[1] == '^';
      match ReadClass(pattern[if negated then 2 else 1..])
      case None => None
      case Some((items, rest)) => if items == [] then None else Prepend([OneOf(negated, items)], ReadGlob(rest))
    else if pattern[0] == ']' then None
    else Prepend([Exactly(pattern[0])], ReadGlob(pattern[1..]))
  }

  /** The items of a class, after its opening bracket and caret, and what follows its end. */
  function ReadClass(text: string): (p: Option<(seq<Item>, string)>)
    ensures p.Some? ==> |p.value.1| < |text|
  {
    if text == "" then None
    else if text[0] == ']' then Some(([], text[1..]))
    else
      match ReadClassCharacter(text)
      case None => None
      case Some((low, rest)) =>
        if rest != "" && rest[0] == '-' && !(|rest| > 1 && rest[1] == ']') then
          match ReadClassCharacter(rest[1..])
          case None => None
          case Some((high, rest')) =>
            if low > high then None
            else match ReadClass(rest')
                 case None => None
                 case Some((more, end)) => Some(([Span(low, high)] + more, end))
        else
          match ReadClass(rest)
          case None => None
          case Some((more, end)) => Some(([One(low)] + more, end))
  }

  function ReadClassCharacter(text: string): (p: Option<(char, string)>)
    ensures p.Some? ==> |p.value.1| < |text|
  {
    if text == "" || text[0] == ']' || text[0] == '-' then None
    else if text[0] != '\\' then Some((text[0], text[1..]))
    else if |text| == 1 then None
    else Some((text[1], text[2..]))
  }

  // ----- compilation -----

  function EscapeRegexCharacter(c: char): string {
    if SyntaxCharacter(c) then ['\\', c] else [c]
  }

  function EscapeClassCharacter(c: char): string {
    if c in "-\\]^" then ['\\', c] else [c]
  }

  function ShowItem(item: Item): string {
    match item
    case One(c) => EscapeClassCharacter(c)
    case Span(low, high) => EscapeClassCharacter(low) + "-" + EscapeClassCharacter(high)
  }

  function ShowItems(items: seq<Item>): string {
    if items == [] then "" else ShowItem(items[0]) + ShowItems(items[1..])
  }

  function ShowPiece(piece: Piece): string {
    match piece
    case Exactly(c) => EscapeRegexCharacter(c)
    case AnyCharacter => "[^/]"
    case AnyRun => "[^/]*"
    case AnyPath => ".*"
    case AnyDirectories => "(?:.*/)?"
    case OneOf(negated, items) => (if negated then "[^" else "[") + ShowItems(items) + "]"
  }

  function ShowPieces(pieces: seq<Piece>): string {
    if pieces == [] then "" else ShowPiece(pieces[0]) + ShowPieces(pieces[1..])
  }

  lemma {:induction false} ShowPiecesAppend(left: seq<Piece>, right: seq<Piece>)
    ensures ShowPieces(left + right) == ShowPieces(left) + ShowPieces(right)
  {
    if left == [] {
      assert left + right == right;
    } else {
      assert (left + right)[1..] == left[1..] + right;
      ShowPiecesAppend(left[1..], right);
    }
  }

  lemma ShowPiecesSnoc(prefix: string, done: seq<Piece>, piece: Piece)
    ensures prefix + ShowPieces(done + [piece]) == (prefix + ShowPieces(done)) + ShowPiece(piece)
  {
    ShowPiecesAppend(done, [piece]);
    assert ShowPieces([piece]) == ShowPiece(piece) + "";
  }

  lemma ShowItemsSnoc(done: seq<Item>, item: Item)
    ensures ShowItems(done + [item]) == ShowItems(done) + ShowItem(item)
  {
    ShowItemsAppend(done, [item]);
    assert ShowItems([item]) == ShowItem(item) + "";
  }

  lemma {:induction false} ShowItemsAppend(left: seq<Item>, right: seq<Item>)
    ensures ShowItems(left + right) == ShowItems(left) + ShowItems(right)
  {
    if left == [] {
      assert left + right == right;
    } else {
      assert (left + right)[1..] == left[1..] + right;
      ShowItemsAppend(left[1..], right);
    }
  }

  function PrependItems(done: seq<Item>, rest: Option<(seq<Item>, string)>): Option<(seq<Item>, string)> {
    if rest.None? then None else Some((done + rest.value.0, rest.value.1))
  }

  /** One character of a class and the index after it. */
  method ClassCharacter(pattern: string, index: nat) returns (r: Option<(char, nat)>)
    requires index <= |pattern|
    ensures r.None? <==> ReadClassCharacter(pattern[index..]).None?
    ensures r.Some? ==> index < r.value.1 <= |pattern| &&
                        ReadClassCharacter(pattern[index..]) == Some((r.value.0, pattern[r.value.1..]))
  {
    if index == |pattern| || pattern[index] == ']' || pattern[index] == '-' {
      return None;
    }
    if pattern[index] != '\\' {
      return Some((pattern[index], index + 1));
    }
    if index + 1 == |pattern| {
      return None;
    }
    return Some((pattern[index + 1], index + 2));
  }

  /** Reading from `start` gives the items and then whatever reading from `index` gives. */
  ghost predicate ReadSoFar(pattern: string, start: nat, items: seq<Item>, index: nat)
    requires start <= index <= |pattern|
  {
    ReadClass(pattern[start..]) == PrependItems(items, ReadClass(pattern[index..]))
  }

  lemma ReadNothing(pattern: string, start: nat)
    requires start <= |pattern|
    ensures ReadSoFar(pattern, start, [], start)
  {
    var rest := ReadClass(pattern[start..]);
    if rest.Some? {
      assert [] + rest.value.0 == rest.value.0;
    }
  }

  lemma ReadMore(pattern: string, start: nat, items: seq<Item>, index: nat, item: Item, next: nat)
    requires start <= index <= next <= |pattern|
    requires ReadSoFar(pattern, start, items, index) && ReadSoFar(pattern, index, [item], next)
    ensures ReadSoFar(pattern, start, items + [item], next)
  {
    var rest := ReadClass(pattern[next..]);
    if rest.Some? {
      assert items + ([item] + rest.value.0) == (items + [item]) + rest.value.0;
    }
  }

  /** One item of a class and the index after it. */
  method ClassItem(pattern: string, start: nat) returns (r: Option<(string, nat)>, ghost item: Item)
    requires start < |pattern| && pattern[start] != ']'
    ensures r.None? ==> ReadClass(pattern[start..]).None?
    ensures r.Some? ==> && start < r.value.1 <= |pattern| && r.value.0 == ShowItem(item)
                        && ReadSoFar(pattern, start, [item], r.value.1)
  {
    item := One(' ');
    var low := ClassCharacter(pattern, start);
    if low.None? {
      return None, item;
    }
    var index := low.value.1;
    if index < |pattern| && pattern[index] == '-' && !(index + 1 < |pattern| && pattern[index + 1] == ']') {
      assert pattern[index..][1..] == pattern[index + 1..];
      var high := ClassCharacter(pattern, index + 1);
      if high.None? || low.value.0 > high.value.0 {
        return None, item;
      }
      item := Span(low.value.0, high.value.0);
      return Some((EscapeClassCharacter(low.value.0) + "-" + EscapeClassCharacter(high.value.0), high.value.1)), item;
    }
    item := One(low.value.0);
    return Some((EscapeClassCharacter(low.value.0), index)), item;
  }

  lemma ClassCloses(pattern: string, start: nat, index: nat, items: seq<Item>)
    requires index < |pattern| && pattern[index] == ']'
    requires start <= index && ReadSoFar(pattern, start, items, index)
    ensures ReadClass(pattern[start..]) == Some((items, pattern[index + 1..]))
  {
    assert pattern[index..][1..] == pattern[index + 1..];
    assert items + [] == items;
  }

  /** The items of a class from `first` on: their text, the index of the closing bracket, their number. */
  method ClassBody(pattern: string, first: nat) returns (r: Option<(string, nat, nat)>, ghost items: seq<Item>)
    requires first <= |pattern|
    ensures r.None? <==> ReadClass(pattern[first..]).None?
    ensures r.Some? ==> && first <= r.value.1 < |pattern| && r.value.0 == ShowItems(items) && r.value.2 == |items|
                        && ReadClass(pattern[first..]) == Some((items, pattern[r.value.1 + 1..]))
  {
    var index := first;
    var body := "";
    var rangeCount := 0;
    items := [];
    ReadNothing(pattern, first);
    while index < |pattern| && pattern[index] != ']'
      invariant first <= index <= |pattern|
      invariant ReadSoFar(pattern, first, items, index)
      invariant body == ShowItems(items) && rangeCount == |items|
      decreases |pattern| - index
    {
      var item;
      ghost var added;
      item, added := ClassItem(pattern, index);
      if item.None? {
        return None, [];
      }
      ReadMore(pattern, first, items, index, added, item.value.1);
      ShowItemsSnoc(items, added);
      body := body + item.value.0;
      index := item.value.1;
      items := items + [added];
      rangeCount := rangeCount + 1;
    }
    if index == |pattern| {
      return None, [];
    }
    ClassCloses(pattern, first, index, items);
    return Some((body, index, rangeCount)), items;
  }

  /** The text of a class whose opening bracket is at `start`, and the index of its end. */
  method CharacterClassSource(pattern: string, start: nat) returns (r: Option<(nat, string)>)
    requires start < |pattern|
    ensures var negated := start + 1 < |pattern| && pattern[start + 1] == '^';
            var read := ReadClass(pattern[if negated then start + 2 else start + 1..]);
            && (r.None? <==> read.None? || read.value.0 == [])
            && (r.Some? ==>
                  && start < r.value.0 < |pattern| && read.Some?
                  && read.value.1 == pattern[r.value.0 + 1..]
                  && r.value.1 == ShowPiece(OneOf(negated, read.value.0)))
  {
    var index := start + 1;
    var negated := false;
    if index < |pattern| && pattern[index] == '^' {
      negated := true;
      index := index + 1;
    }
    var body;
    ghost var items;
    body, items := ClassBody(pattern, index);
    if body.None? || body.value.2 == 0 {
      return None;
    }
    return Some((body.value.1, (if negated then "[^" else "[") + body.value.0 + "]"));
  }

  /** Reading from `start` gives the pieces and then whatever reading from `index` gives. */
  ghost predicate SpelledSoFar(pattern: string, start: nat, pieces: seq<Piece>, index: nat)
    requires start <= index <= |pattern|
  {
    ReadGlob(pattern[start..]) == Prepend(pieces, ReadGlob(pattern[index..]))
  }

  lemma SpelledNothing(pattern: string)
    ensures SpelledSoFar(pattern, 0, [], 0)
  {
    var rest := ReadGlob(pattern[0..]);
    if rest.Some? {
      assert [] + rest.value == rest.value;
    }
  }

  lemma SpelledMore(pattern: string, pieces: seq<Piece>, index: nat, piece: Piece, next: nat)
    requires index <= next <= |pattern|
    requires SpelledSoFar(pattern, 0, pieces, index) && SpelledSoFar(pattern, index, [piece], next)
    ensures SpelledSoFar(pattern, 0, pieces + [piece], next)
  {
    var rest := ReadGlob(pattern[next..]);
    if rest.Some? {
      assert pieces + ([piece] + rest.value) == (pieces + [piece]) + rest.value;
    }
  }

  lemma SpelledAll(pattern: string, pieces: seq<Piece>)
    requires SpelledSoFar(pattern, 0, pieces, |pattern|)
    ensures ReadGlob(pattern) == Some(pieces)
  {
    assert pattern[0..] == pattern && pattern[|pattern|..] == "";
    assert pieces + [] == pieces;
  }

  datatype Compiled = NoPattern | Malformed | Source(source: string)

  lemma ReadsClass(pattern: string, index: nat)
    requires index < |pattern| && pattern[index] == '['
    ensures var negated := index + 1 < |pattern| && pattern[index + 1] == '^';
            var read := ReadClass(pattern[if negated then index + 2 else index + 1..]);
            ReadGlob(pattern[index..]) ==
              if read.None? || read.value.0 == [] then None
              else Prepend([OneOf(negated, read.value.0)], ReadGlob(read.value.1))
  {
    var text := pattern[index..];
    assert text[1..] == pattern[index + 1..];
    assert |text| > 1 ==> text[2..] == pattern[index + 2..];
  }

  /** The text of the class at an index, and the index after it. */
  method CompileClass(pattern: string, index: nat) returns (r: Option<(string, nat)>, ghost piece: Piece)
    requires index < |pattern| && pattern[index] == '['
    ensures r.None? ==> ReadGlob(pattern[index..]).None?
    ensures r.Some? ==> && index < r.value.1 <= |pattern| && r.value.0 == ShowPiece(piece)
                        && SpelledSoFar(pattern, index, [piece], r.value.1)
  {
    var characterClass := CharacterClassSource(pattern, index);
    ReadsClass(pattern, index);
    if characterClass.None? {
      return None, AnyRun;
    }
    ghost var negated := index + 1 < |pattern| && pattern[index + 1] == '^';
    ghost var items := ReadClass(pattern[if negated then index + 2 else index + 1..]).value.0;
    return Some((characterClass.value.1, characterClass.value.0 + 1)), OneOf(negated, items);
  }

  /** The text of the piece at an index, and the index after it. */
  method CompilePiece(pattern: string, index: nat) returns (r: Option<(string, nat)>, ghost piece: Piece)
    requires index < |pattern|
    ensures r.None? ==> ReadGlob(pattern[index..]).None?
    ensures r.Some? ==> && index < r.value.1 <= |pattern| && r.value.0 == ShowPiece(piece)
                        && SpelledSoFar(pattern, index, [piece], r.value.1)
  {
    var character := pattern[index];
    ghost var text := pattern[index..];
    piece := AnyRun;
    if character == '\\' {
      if index + 1 == |pattern| {
        return None, piece;
      }
      return Some((EscapeRegexCharacter(pattern[index + 1]), index + 2)), Exactly(pattern[index + 1]);
    } else if character == '*' && index + 1 < |pattern| && pattern[index + 1] == '*' {
      assert text[..2] == "**";
      if index + 2 < |pattern| && pattern[index + 2] == '/' {
        assert text[..3] == "**/";
        return Some(("(?:.*/)?", index + 3)), AnyDirectories;
      }
      assert |text| >= 3 ==> text[..3] != "**/" by {
        if |text| >= 3 { assert text[..3][2] == text[2]; }
      }
      return Some((".*", index + 2)), AnyPath;
    } else if character == '*' {
      assert |text| >= 2 ==> text[..2] != "**" by { if |text| >= 2 { assert text[..2][1] == text[1]; } }
      assert |text| >= 3 ==> text[..3] != "**/" by { if |text| >= 3 { assert text[..3][1] == text[1]; } }
      return Some(("[^/]*", index + 1)), AnyRun;
    } else if character == '?' {
      return Some(("[^/]", index + 1)), AnyCharacter;
    } else if character == '[' {
      r, piece := CompileClass(pattern, index);
      return;
    } else if character == ']' {
      return None, piece;
    }
    return Some((EscapeRegexCharacter(character), index + 1)), Exactly(character);
  }

  /** The regular-expression text of a pattern. */
  method DockerGlobRegex(pattern: string) returns (compiled: Compiled)
    ensures compiled.NoPattern? <==> pattern == "" || pattern == "."
    ensures !compiled.NoPattern? ==>
              compiled == if ReadGlob(pattern).None? then Malformed else Source("^" + ShowPieces(ReadGlob(pattern).value) + "$")
  {
    if pattern == "" || pattern == "." {
      return NoPattern;
    }
    var source := "^";
    ghost var done: seq<Piece> := [];
    var index := 0;
    SpelledNothing(pattern);
    while index < |pattern|
      invariant index <= |pattern|
      invariant SpelledSoFar(pattern, 0, done, index)
      invariant source == "^" + ShowPieces(done)
      decreases |pattern| - index
    {
      var added;
      ghost var piece;
      added, piece := CompilePiece(pattern, index);
      if added.None? {
        assert pattern[0..] == pattern;
        return Malformed;
      }
      SpelledMore(pattern, done, index, piece, added.value.1);
      ShowPiecesSnoc("^", done, piece);
      source := source + added.value.0;
      index := added.value.1;
      done := done + [piece];
    }
    SpelledAll(pattern, done);
    return Source(source + "$");
  }
}
