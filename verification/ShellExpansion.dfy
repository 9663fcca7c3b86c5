/** Finding the end of a command or process substitution. */
module ShellExpansion {
  import opened Basics

  datatype Kind = CommandKind | ProcessKind | BacktickKind

  datatype Problem = UnterminatedBacktick | Arithmetic | UnterminatedSubstitution

  datatype Span =
    | NoExpansion
    | Broken(problem: Problem, end: nat, kind: Kind)
    | Expansion(command: string, end: nat, kind: Kind)

  /** A `#` behind such a character starts a comment. */
  predicate Separator(c: char) {
    Space(c) || c == ';' || c == '|' || c == '&' || c == '(' || c == ')'
  }

  // ----- the scanner as functions -----

  function BacktickEnd(source: string, i: nat, escaped: bool): (r: Option<nat>)
    ensures r.Some? ==> i <= r.value < |source| && source[r.value] == '`'
    decreases |source| - i
  {
    if i >= |source| then None
    else if escaped then BacktickEnd(source, i + 1, false)
    else if source[i] == '\\' then BacktickEnd(source, i + 1, true)
    else if source[i] == '`' then Some(i)
    else BacktickEnd(source, i + 1, false)
  }

  /** The last index of a comment: the one before the line feed or the end. */
  function CommentEnd(source: string, i: nat): (r: nat)
    requires i < |source|
    ensures i <= r < |source|
    decreases |source| - i
  {
    if i + 1 < |source| && source[i + 1] != '\n' then CommentEnd(source, i + 1) else i
  }

  datatype Closing = ClosedAt(index: nat) | BrokenBacktick | NeverClosed

  /** The index of the parenthesis that closes `depth` open ones. */
  function Close(source: string, first: nat, i: nat, depth: nat, quote: Option<char>, escaped: bool): (r: Closing)
    requires first <= i && depth > 0
    ensures r.ClosedAt? ==> i <= r.index < |source| && source[r.index] == ')'
    decreases |source| - i
  {
    if i >= |source| then NeverClosed
    else if escaped then Close(source, first, i + 1, depth, quote, false)
    else if source[i] == '\\' && quote != Some('\'') then Close(source, first, i + 1, depth, quote, true)
    else if quote.Some? then Close(source, first, i + 1, depth, if source[i] == quote.value then None else quote, false)
    else if source[i] == '\'' || source[i] == '"' then Close(source, first, i + 1, depth, Some(source[i]), false)
    else if source[i] == '`' then
      match BacktickEnd(source, i + 1, false)
      case None => BrokenBacktick
      case Some(end) => Close(source, first, end + 1, depth, None, false)
    else if source[i] == '#' && (i == first || Separator(source[i - 1])) then
      Close(source, first, CommentEnd(source, i) + 1, depth, None, false)
    else if source[i] == '(' then Close(source, first, i + 1, depth + 1, None, false)
    else if source[i] == ')' then
      if depth == 1 then ClosedAt(i) else Close(source, first, i + 1, depth - 1, None, false)
    else Close(source, first, i + 1, depth, None, false)
  }

  function KindOf(opener: char): Kind {
    if opener == '$' then CommandKind else ProcessKind
  }

  predicate Opens(source: string, start: nat) {
    && start + 1 < |source| && source[start + 1] == '('
    && (source[start] == '$' || source[start] == '<' || source[start] == '>')
  }

  function SpanAt(source: string, start: nat): Span {
    if start < |source| && source[start] == '`' then
      match BacktickEnd(source, start + 1, false)
      case None => Broken(UnterminatedBacktick, |source| - 1, BacktickKind)
      case Some(end) => Expansion(source[start + 1..end], end, BacktickKind)
    else if !Opens(source, start) then NoExpansion
    else if source[start] == '$' && start + 2 < |source| && source[start + 2] == '(' then
      Broken(Arithmetic, start + 2, CommandKind)
    else
      match Close(source, start + 2, start + 2, 1, None, false)
      case ClosedAt(end) => Expansion(source[start + 2..end], end, KindOf(source[start]))
      case BrokenBacktick => Broken(UnterminatedBacktick, |source| - 1, BacktickKind)
      case NeverClosed => Broken(UnterminatedSubstitution, |source| - 1, KindOf(source[start]))
  }

  // ----- the scanner as loops -----

  method FindBacktick(source: string, start: nat) returns (r: Option<nat>)
    ensures r == BacktickEnd(source, start, false)
  {
    var escaped := false;
    var cursor := start;
    while cursor < |source|
      invariant start <= cursor
      invariant BacktickEnd(source, cursor, escaped) == BacktickEnd(source, start, false)
    {
      var current := source[cursor];
      if escaped {
        escaped := false;
      } else if current == '\\' {
        escaped := true;
      } else if current == '`' {
        return Some(cursor);
      }
      cursor := cursor + 1;
    }
    return None;
  }

  method FindClose(source: string, first: nat) returns (r: Closing)
    ensures r == Close(source, first, first, 1, None, false)
  {
    ghost var expected := Close(source, first, first, 1, None, false);
    var depth: nat := 1;
    var quote: Option<char> := None;
    var escaped := false;
    var cursor := first;
    while cursor < |source|
      invariant first <= cursor && depth > 0
      invariant Close(source, first, cursor, depth, quote, escaped) == expected
      decreases |source| - cursor
    {
      var current := source[cursor];
      if escaped {
        escaped := false;
      } else if current == '\\' && quote != Some('\'') {
        escaped := true;
      } else if quote.Some? {
        if current == quote.value {
          quote := None;
        }
      } else if current == '\'' || current == '"' {
        quote := Some(current);
      } else if current == '`' {
        var backtick := FindBacktick(source, cursor + 1);
        if backtick.None? {
          return BrokenBacktick;
        }
        cursor := backtick.value;
      } else if current == '#' && (cursor == first || Separator(source[cursor - 1])) {
        ghost var hash := cursor;
        while cursor + 1 < |source| && source[cursor + 1] != '\n'
          invariant hash <= cursor < |source|
          invariant CommentEnd(source, cursor) == CommentEnd(source, hash)
        {
          cursor := cursor + 1;
        }
      } else if current == '(' {
        depth := depth + 1;
      } else if current == ')' {
        depth := depth - 1;
        if depth == 0 {
          return ClosedAt(cursor);
        }
      }
      cursor := cursor + 1;
    }
    return NeverClosed;
  }

  method ShellExpansionSpan(source: string, start: nat) returns (span: Span)
    ensures span == SpanAt(source, start)
  {
    if start < |source| && source[start] == '`' {
      var end := FindBacktick(source, start + 1);
      if end.None? {
        return Broken(UnterminatedBacktick, |source| - 1, BacktickKind);
      }
      return Expansion(source[start + 1..end.value], end.value, BacktickKind);
    }
    if !Opens(source, start) {
      return NoExpansion;
    }
    if source[start] == '$' && start + 2 < |source| && source[start + 2] == '(' {
      return Broken(Arithmetic, start + 2, CommandKind);
    }
    var closing := FindClose(source, start + 2);
    match closing
    case ClosedAt(end) => return Expansion(source[start + 2..end], end, KindOf(source[start]));
    case BrokenBacktick => return Broken(UnterminatedBacktick, |source| - 1, BacktickKind);
    case NeverClosed => return Broken(UnterminatedSubstitution, |source| - 1, KindOf(source[start]));
  }
}
