/** The part of ECMAScript regular expressions (with the `u` flag) that compiled ignore
    patterns use: a parser for their text, and what they match. */
module RegexSyntax {
  import opened Basics

  /** A class lists ranges; a single character is a range of one. */
  type Range = (char, char)

  datatype Regex =
    | Empty
    | Literal(c: char)
    | Dot
    | Class(negated: bool, ranges: seq<Range>)
    | Cat(left: Regex, right: Regex)
    | Many(body: Regex)    // *
    | Maybe(body: Regex)   // ?

  predicate SyntaxCharacter(c: char) {
    c in "^$\\.*+?()[]{}|"
  }

  predicate LineTerminator(c: char) {
    c == '\n' || c == '\r' || c == '\U{2028}' || c == '\U{2029}'
  }

  predicate InRanges(c: char, ranges: seq<Range>) {
    exists i | 0 <= i < |ranges| :: ranges[i].0 <= c <= ranges[i].1
  }

  // ----- meaning -----

  predicate Matches(r: Regex, s: string)
    decreases |s|, r
  {
    match r
    case Empty => s == ""
    case Literal(c) => s == [c]
    case Dot => |s| == 1 && !LineTerminator(s[0])
    case Class(negated, ranges) => |s| == 1 && InRanges(s[0], ranges) != negated
    case Cat(left, right) => exists k | 0 <= k <= |s| :: Matches(left, s[..k]) && Matches(right, s[k..])
    case Many(body) => s == "" || exists k | 0 < k <= |s| :: Matches(body, s[..k]) && Matches(r, s[k..])
    case Maybe(body) => s == "" || Matches(body, s)
  }

  // ----- text -----

  type Parsed = Option<(Regex, string)>

  /** Terms up to the end of the text or an unopened `)`, and the text that is left. */
  function ParseTerms(s: string): (p: Parsed)
    ensures p.Some? ==> |p.value.1| <= |s|
    decreases |s|, 2
  {
    if s == "" || s[0] == ')' then Some((Empty, s))
    else
      match ParseTerm(s)
      case None => None
      case Some((term, rest)) =>
        match ParseTerms(rest)
        case None => None
        case Some((more, rest')) => Some((Cat(term, more), rest'))
  }

  /** One atom with its quantifier. Quantifiers other than `*` and `?` are not understood. */
  function ParseTerm(s: string): (p: Parsed)
    requires s != "" && s[0] != ')'
    ensures p.Some? ==> |p.value.1| < |s|
    decreases |s|, 1
  {
    match ParseAtom(s)
    case None => None
    case Some((atom, rest)) =>
      if rest != "" && rest[0] in "*?" then
        if |rest| > 1 && rest[1] in "*?+{" then None
        else Some((if rest[0] == '*' then Many(atom) else Maybe(atom), rest[1..]))
      else if rest != "" && rest[0] in "+{" then None
      else Some((atom, rest))
  }

  function ParseAtom(s: string): (p: Parsed)
    requires s != "" && s[0] != ')'
    ensures p.Some? ==> |p.value.1| < |s|
    decreases |s|, 0
  {
    if s[0] == '(' then
      if |s| >= 3 && s[1] == '?' && s[2] == ':' then
        match ParseTerms(s[3..])
        case None => None
        case Some((body, rest)) => if rest != "" && rest[0] == ')' then Some((body, rest[1..])) else None
      else None
    else if s[0] == '[' then
      var negated := |s| > 1 && s[1] == '^';
      match ParseRanges(s[if negated then 2 else 1..])
      case None => None
      case Some((ranges, rest)) => Some((Class(negated, ranges), rest))
    else if s[0] == '\\' then
      if |s| > 1 && (SyntaxCharacter(s[1]) || s[1] == '/') then Some((Literal(s[1]), s[2..])) else None
    else if s[0] == '.' then Some((Dot, s[1..]))
    else if SyntaxCharacter(s[0]) then None
    else Some((Literal(s[0]), s[1..]))
  }

  /** The ranges of a class up to its closing bracket, which is consumed. */
  function ParseRanges(s: string): (p: Option<(seq<Range>, string)>)
    ensures p.Some? ==> |p.value.1| < |s|
  {
    if s == "" then None
    else if s[0] == ']' then Some(([], s[1..]))
    else
      match ParseClassAtom(s)
      case None => None
      case Some((low, rest)) =>
        if |rest| > 1 && rest[0] == '-' && rest[1] != ']' then
          match ParseClassAtom(rest[1..])
          case None => None
          case Some((high, rest')) =>
            if low > high then None
            else match ParseRanges(rest')
                 case None => None
                 case Some((more, end)) => Some(([(low, high)] + more, end))
        else
          match ParseRanges(rest)
          case None => None
          case Some((more, end)) => Some(([(low, low)] + more, end))
  }

  function ParseClassAtom(s: string): (p: Option<(char, string)>)
    requires s != ""
    ensures p.Some? ==> |p.value.1| < |s|
  {
    if s[0] != '\\' then Some((s[0], s[1..]))
    else if |s| > 1 && (SyntaxCharacter(s[1]) || s[1] == '/' || s[1] == '-') then Some((s[1], s[2..]))
    else None
  }

  /** The expression a whole text `^...$` denotes. */
  function ParseRegex(source: string): Option<Regex> {
    if |source| >= 2 && source[0] == '^' && source[|source| - 1] == '$' then
      match ParseTerms(source[1..|source| - 1])
      case Some((r, "")) => Some(r)
      case _ => None
    else None
  }
}
