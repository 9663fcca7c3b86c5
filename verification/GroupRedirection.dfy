/** The redirections a shell group may carry: a one-pass recognizer, and the language it accepts. */
module GroupRedirection {
  import opened Basics

  predicate Digit(c: char) {
    '0' <= c <= '9'
  }

  predicate TargetCharacter(c: char) {
    || 'A' <= c <= 'Z' || 'a' <= c <= 'z' || '0' <= c <= '9'
    || c == '_' || c == '.' || c == '/' || c == '-'
  }

  predicate Angle(c: char) {
    c == '<' || c == '>'
  }

  // ----- the language -----

  /** The indices at which the parts of one redirection start: the descriptor, the operator, the
      white space behind it, the target, the white space behind that, and what follows. */
  datatype Cuts = Cuts(fd: nat, operator: nat, gap: nat, target: nat, rest: nat, next: nat)

  /** Every character from i up to j satisfies p. */
  predicate Within(source: string, i: nat, j: nat, p: char -> bool)
    requires j <= |source|
  {
    forall k | i <= k < j :: p(source[k])
  }

  /** < > <> >> */
  predicate IsOperator(source: string, i: nat, j: nat)
    requires j <= |source|
  {
    i < j && Angle(source[i]) && (j == i + 1 || (j == i + 2 && source[i + 1] == '>'))
  }

  /** A character that neither closes these quotes nor is expanded inside them. */
  predicate Safe(quote: char, c: char) {
    c != quote && (quote == '"' ==> c != '$' && c != '`')
  }

  predicate IsPlain(source: string, i: nat, j: nat)
    requires j <= |source|
  {
    i < j && Within(source, i, j, TargetCharacter)
  }

  predicate IsQuoted(source: string, i: nat, j: nat)
    requires j <= |source|
  {
    && i + 2 <= j && (source[i] == '"' || source[i] == '\'') && source[j - 1] == source[i]
    && Within(source, i + 1, j - 1, c => Safe(source[i], c))
  }

  predicate IsRedirection(source: string, r: Cuts) {
    && r.fd <= r.operator < r.gap <= r.target < r.rest <= r.next <= |source|
    && Within(source, r.fd, r.operator, Digit) && IsOperator(source, r.operator, r.gap)
    && Within(source, r.gap, r.target, Space)
    && (IsPlain(source, r.target, r.rest) || IsQuoted(source, r.target, r.rest))
    && Within(source, r.rest, r.next, Space)
  }

  /** The text from this index on is these redirections, one behind the other. */
  predicate Derives(source: string, i: nat, rs: seq<Cuts>)
    decreases |rs|
  {
    if rs == [] then i == |source|
    else rs[0].fd == i && IsRedirection(source, rs[0]) && Derives(source, rs[0].next, rs[1..])
  }

  /** One or more redirections. */
  ghost predicate InLanguage(source: string) {
    exists rs :: rs != [] && Derives(source, 0, rs)
  }

  // ----- the recognizer as functions -----

  /** The first index from i on whose character does not satisfy p. */
  function Run(source: string, i: nat, p: char -> bool): (r: nat)
    ensures i <= r && (i <= |source| ==> r <= |source|)
    decreases |source| - i
  {
    if i < |source| && p(source[i]) then Run(source, i + 1, p) else i
  }

  /** The index of the quote that closes a safely quoted text. */
  function QuoteEnd(source: string, i: nat, quote: char): (r: Option<nat>)
    ensures r.Some? ==> i <= r.value < |source|
    decreases |source| - i
  {
    if i >= |source| then None
    else if source[i] == quote then Some(i)
    else if quote == '"' && (source[i] == '$' || source[i] == '`') then None
    else QuoteEnd(source, i + 1, quote)
  }

  function TargetEnd(source: string, i: nat): (r: Option<nat>)
    requires i <= |source|
    ensures r.Some? ==> i < r.value <= |source|
  {
    if i < |source| && (source[i] == '"' || source[i] == '\'') then
      match QuoteEnd(source, i + 1, source[i])
      case None => None
      case Some(end) => Some(end + 1)
    else if Run(source, i, TargetCharacter) == i then None
    else Some(Run(source, i, TargetCharacter))
  }

  function OperatorEnd(source: string, i: nat): (r: nat)
    requires i < |source|
    ensures i < r <= |source|
  {
    if i + 1 < |source| && source[i + 1] == '>' then i + 2 else i + 1
  }

  /** Where one redirection, consumed greedily, ends. */
  function RedirectionEnd(source: string, i: nat): (r: Option<nat>)
    requires i < |source|
    ensures r.Some? ==> i < r.value <= |source|
  {
    var op := Run(source, i, Digit);
    if op >= |source| || !Angle(source[op]) then None
    else
      match TargetEnd(source, Run(source, OperatorEnd(source, op), Space))
      case None => None
      case Some(end) => Some(Run(source, end, Space))
  }

  predicate Accepts(source: string, i: nat)
    decreases |source| - i
  {
    i >= |source| || (RedirectionEnd(source, i).Some? && Accepts(source, RedirectionEnd(source, i).value))
  }

  // ----- the recognizer as a loop -----

  method SkipRun(source: string, i: nat, p: char -> bool) returns (r: nat)
    ensures r == Run(source, i, p)
  {
    r := i;
    while r < |source| && p(source[r])
      invariant i <= r && Run(source, r, p) == Run(source, i, p)
    {
      r := r + 1;
    }
  }

  method SkipTarget(source: string, start: nat) returns (end: Option<nat>)
    requires start <= |source|
    ensures end == TargetEnd(source, start)
  {
    var index := start;
    if index < |source| && (source[index] == '"' || source[index] == '\'') {
      var quote := source[index];
      index := index + 1;
      while index < |source| && source[index] != quote
        invariant start < index <= |source| && QuoteEnd(source, index, quote) == QuoteEnd(source, start + 1, quote)
      {
        if quote == '"' && (source[index] == '$' || source[index] == '`') {
          return None;
        }
        index := index + 1;
      }
      return if index >= |source| then None else Some(index + 1);
    }
    index := SkipRun(source, index, TargetCharacter);
    return if index == start then None else Some(index);
  }

  method SkipRedirection(source: string, index: nat) returns (end: Option<nat>)
    requires index < |source|
    ensures end == RedirectionEnd(source, index)
  {
    var next := SkipRun(source, index, Digit);
    if next >= |source| || !Angle(source[next]) {
      return None;
    }
    next := next + 1;
    if next < |source| && source[next] == '>' {
      next := next + 1;
    }
    next := SkipRun(source, next, Space);
    end := SkipTarget(source, next);
    if end.Some? {
      next := SkipRun(source, end.value, Space);
      end := Some(next);
    }
  }

  method StaticGroupRedirection(source: string) returns (accepted: bool)
    ensures accepted <==> source != "" && Accepts(source, 0)
  {
    if source == "" {
      return false;
    }
    var index: nat := 0;
    ghost var expected := Accepts(source, 0);
    while index < |source|
      invariant index <= |source| && Accepts(source, index) == expected
      decreases |source| - index
    {
      var next := SkipRedirection(source, index);
      if next.None? {
        return false;
      }
      index := next.value;
    }
    return true;
  }

  // ----- what is accepted is derivable -----

  lemma {:induction false} RunIsWithin(source: string, i: nat, p: char -> bool)
    requires i <= |source|
    ensures Within(source, i, Run(source, i, p), p)
    decreases |source| - i
  {
    if i < |source| && p(source[i]) {
      RunIsWithin(source, i + 1, p);
    }
  }

  lemma {:induction false} QuoteIsSafe(source: string, i: nat, quote: char)
    requires QuoteEnd(source, i, quote).Some?
    ensures var end := QuoteEnd(source, i, quote).value;
            source[end] == quote && Within(source, i, end, c => Safe(quote, c))
    decreases |source| - i
  {
    if source[i] != quote {
      QuoteIsSafe(source, i + 1, quote);
    }
  }

  lemma AcceptedTarget(source: string, i: nat)
    requires i <= |source| && TargetEnd(source, i).Some?
    ensures var end := TargetEnd(source, i).value; IsPlain(source, i, end) || IsQuoted(source, i, end)
  {
    if i < |source| && (source[i] == '"' || source[i] == '\'') {
      QuoteIsSafe(source, i + 1, source[i]);
    } else {
      RunIsWithin(source, i, TargetCharacter);
    }
  }

  lemma AcceptedRedirection(source: string, i: nat) returns (r: Cuts)
    requires i < |source| && RedirectionEnd(source, i).Some?
    ensures IsRedirection(source, r) && r.fd == i && r.next == RedirectionEnd(source, i).value
  {
    var operator := Run(source, i, Digit);
    var gap := OperatorEnd(source, operator);
    var target := Run(source, gap, Space);
    var rest := TargetEnd(source, target).value;
    RunIsWithin(source, i, Digit);
    RunIsWithin(source, gap, Space);
    AcceptedTarget(source, target);
    RunIsWithin(source, rest, Space);
    r := Cuts(i, operator, gap, target, rest, Run(source, rest, Space));
  }

  lemma {:induction false} AcceptedIsDerived(source: string, i: nat) returns (rs: seq<Cuts>)
    requires i <= |source| && Accepts(source, i)
    ensures Derives(source, i, rs) && (i < |source| ==> rs != [])
    decreases |source| - i
  {
    if i == |source| {
      rs := [];
    } else {
      var r := AcceptedRedirection(source, i);
      var more := AcceptedIsDerived(source, r.next);
      rs := [r] + more;
      assert rs[1..] == more;
    }
  }

  // ----- what is derivable is accepted -----

  lemma {:induction false} RunStops(source: string, i: nat, j: nat, p: char -> bool)
    requires i <= j <= |source| && Within(source, i, j, p)
    requires j == |source| || !p(source[j])
    ensures Run(source, i, p) == j
    decreases j - i
  {
    if i < j {
      RunStops(source, i + 1, j, p);
    }
  }

  lemma {:induction false} QuoteStops(source: string, i: nat, j: nat, quote: char)
    requires i <= j < |source| && source[j] == quote && Within(source, i, j, c => Safe(quote, c))
    ensures QuoteEnd(source, i, quote) == Some(j)
    decreases j - i
  {
    if i < j {
      assert Safe(quote, source[i]);
      QuoteStops(source, i + 1, j, quote);
    }
  }

  /** Where the redirections begin: at the end, at an operator, or at a descriptor. */
  lemma FirstOf(source: string, i: nat, rs: seq<Cuts>)
    requires Derives(source, i, rs)
    ensures i <= |source| && (i < |source| ==> Angle(source[i]) || Digit(source[i]))
    ensures i < |source| && rs[0].operator == i ==> Angle(source[i])
  {
  }

  /** A plain target with no white space behind it takes the descriptor of the next redirection. */
  predicate Steals(source: string, rs: seq<Cuts>)
    requires rs != [] && IsRedirection(source, rs[0])
  {
    |rs| >= 2 && rs[0].rest == rs[0].next && IsPlain(source, rs[0].target, rs[0].rest)
  }

  /** Where greedy consumption of the first redirection ends. */
  function GreedyEnd(source: string, rs: seq<Cuts>): nat
    requires rs != [] && IsRedirection(source, rs[0])
  {
    if Steals(source, rs) then rs[1].operator else rs[0].next
  }

  /** The redirections that are left then. */
  function Remaining(source: string, rs: seq<Cuts>): (rest: seq<Cuts>)
    requires rs != [] && IsRedirection(source, rs[0])
    ensures |rest| < |rs|
  {
    if Steals(source, rs) then [rs[1].(fd := rs[1].operator)] + rs[2..] else rs[1..]
  }

  lemma RemainingDerives(source: string, rs: seq<Cuts>)
    requires rs != [] && Derives(source, rs[0].fd, rs)
    ensures Derives(source, GreedyEnd(source, rs), Remaining(source, rs))
  {
    if Steals(source, rs) {
      var rest := Remaining(source, rs);
      assert rest[1..] == rs[1..][1..];
    }
  }

  /** The target is consumed with the digits it takes. */
  lemma TargetStops(source: string, rs: seq<Cuts>)
    requires rs != [] && Derives(source, rs[0].fd, rs)
    ensures TargetEnd(source, rs[0].target) == Some(if Steals(source, rs) then rs[1].operator else rs[0].rest)
  {
    var r := rs[0];
    if IsPlain(source, r.target, r.rest) {
      assert TargetCharacter(source[r.target]);
      if Steals(source, rs) {
        assert Derives(source, r.next, rs[1..]) && rs[1] == rs[1..][0];
        RunStops(source, r.target, rs[1].operator, TargetCharacter);
      } else {
        PlainStops(source, rs);
        RunStops(source, r.target, r.rest, TargetCharacter);
      }
    } else {
      QuoteStops(source, r.target + 1, r.rest - 1, source[r.target]);
    }
  }

  lemma PlainStops(source: string, rs: seq<Cuts>)
    requires rs != [] && Derives(source, rs[0].fd, rs) && !Steals(source, rs)
    requires IsPlain(source, rs[0].target, rs[0].rest)
    ensures rs[0].rest == |source| || !TargetCharacter(source[rs[0].rest])
  {
    var r := rs[0];
    if r.rest < r.next {
      assert Space(source[r.rest]);
    } else {
      assert rs[1..] == [];
    }
  }

  lemma Consumes(source: string, rs: seq<Cuts>)
    requires rs != [] && Derives(source, rs[0].fd, rs)
    ensures rs[0].fd < |source| && RedirectionEnd(source, rs[0].fd) == Some(GreedyEnd(source, rs))
  {
    var r := rs[0];
    var end := if Steals(source, rs) then rs[1].operator else r.rest;
    RunStops(source, r.fd, r.operator, Digit);
    TargetBegins(source, r);
    RunStops(source, r.gap, r.target, Space);
    TargetStops(source, rs);
    RemainingDerives(source, rs);
    FirstOf(source, GreedyEnd(source, rs), Remaining(source, rs));
    RunStops(source, end, GreedyEnd(source, rs), Space);
  }

  lemma TargetBegins(source: string, r: Cuts)
    requires IsRedirection(source, r)
    ensures !Space(source[r.target]) && !Angle(source[r.target])
    ensures OperatorEnd(source, r.operator) == r.gap
  {
    assert IsPlain(source, r.target, r.rest) ==> TargetCharacter(source[r.target]);
    if r.gap < r.target {
      assert Space(source[r.gap]);
    }
  }

  lemma {:induction false} DerivedIsAccepted(source: string, i: nat, rs: seq<Cuts>)
    requires Derives(source, i, rs)
    ensures Accepts(source, i)
    decreases |rs|
  {
    if rs != [] {
      Consumes(source, rs);
      RemainingDerives(source, rs);
      DerivedIsAccepted(source, GreedyEnd(source, rs), Remaining(source, rs));
    }
  }

  /** Greedy consumption accepts exactly the sequences of one or more redirections. */
  lemma RecognizesLanguage(source: string)
    ensures source != "" && Accepts(source, 0) <==> InLanguage(source)
  {
    if source != "" && Accepts(source, 0) {
      var rs := AcceptedIsDerived(source, 0);
    }
    if InLanguage(source) {
      var rs :| rs != [] && Derives(source, 0, rs);
      DerivedIsAccepted(source, 0, rs);
    }
  }
}
