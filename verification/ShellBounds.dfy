/** Trees within the limits of the evaluator: no list, group or `case` of them has more than 256 paths, and
    substitutions are nested no deeper than 16 times. Outside strict mode, paths fork at `&&` and `||`
    and where an `exec` may end either way; in any mode, at the arms of a `case` and at redirections of groups. */
module ShellBounds {
  import opened ShellSyntax
  import opened ShellSemantics
  import opened ShellStates
  import opened ShellMerging
  import opened ShellComposition

  predicate WithinLimits(nodes: seq<Node>, strict: bool, depth: nat)
    decreases nodes, 0
  {
    forall i | 0 <= i < |nodes| :: NodeWithinLimits(nodes[i], strict, depth)
  }

  predicate NodeWithinLimits(node: Node, strict: bool, depth: nat)
    decreases node, 1
  {
    && ProgramsWithinLimits(node.expansions, depth)
    && NodeGrowth(node, strict) <= MAX_OUTPUT_STATES
    && match node
       case CommandNode(_, _, _) => true
       case GroupNode(_, _, nodes, _, _) => WithinLimits(nodes, strict, depth)
       case CaseNode(_, _, arms) => ArmsWithinLimits(arms, strict, depth)
  }

  predicate ArmsWithinLimits(arms: seq<Arm>, strict: bool, depth: nat)
    decreases arms, 1
  {
    forall k | 0 <= k < |arms| :: WithinLimits(arms[k].nodes, strict, depth)
  }

  predicate ProgramsWithinLimits(programs: seq<Program>, depth: nat)
    decreases programs, 0
  {
    && (programs != [] ==> depth < MAX_SHELL_EXPANSION_DEPTH)
    && forall i | 0 <= i < |programs| :: ProgramWithinLimits(programs[i], false, depth + 1)
  }

  predicate ProgramWithinLimits(program: Program, strict: bool, depth: nat)
    decreases program, 1
  {
    WithinLimits(program.nodes, strict, depth) && Growth(program.nodes, |program.nodes|, strict) <= MAX_OUTPUT_STATES
  }

  // ----- how many states one state can become -----

  /** Through the first n nodes of a list. */
  function Growth(nodes: seq<Node>, n: nat, strict: bool): (g: nat)
    requires n <= |nodes|
    ensures g >= 1
    decreases nodes, n
  {
    if n == 0 then 1 else Product(Growth(nodes, n - 1, strict), GateGrowth(nodes, n - 1, strict) + NodeGrowth(nodes[n - 1], strict))
  }

  /** Outside strict mode a gate may let a state both pass the node by and run it. */
  function GateGrowth(nodes: seq<Node>, i: nat, strict: bool): nat
    requires i < |nodes|
  {
    if Gate(nodes, i) && !strict then 1 else 0
  }

  function StepGrowth(nodes: seq<Node>, i: nat, strict: bool): (g: nat)
    requires i < |nodes|
    ensures g >= 1
  {
    GateGrowth(nodes, i, strict) + NodeGrowth(nodes[i], strict)
  }

  /** As many for each of so many. */
  function Times(count: nat, each: nat): (total: nat)
    ensures count == 1 ==> total == each
    ensures each == 1 ==> total == count
  {
    if count == 0 then 0 else each + Times(count - 1, each)
  }

  lemma {:induction false} TimesGrows(a: nat, b: nat, c: nat, d: nat)
    requires a <= c && b <= d
    ensures Times(a, b) <= Times(c, d)
    decreases a
  {
    if a > 0 {
      TimesGrows(a - 1, b, c - 1, d);
    }
  }

  lemma {:induction false} TimesAssociates(a: nat, b: nat, c: nat)
    ensures Times(Times(a, b), c) == Times(a, Times(b, c))
    decreases a
  {
    if a > 0 {
      TimesAdds(b, Times(a - 1, b), c);
      TimesAssociates(a - 1, b, c);
    }
  }

  lemma {:induction false} TimesAdds(a: nat, b: nat, c: nat)
    ensures Times(a + b, c) == Times(a, c) + Times(b, c)
    decreases a
  {
    if a > 0 {
      TimesAdds(a - 1, b, c);
    }
  }

  /** The product of two numbers that are not zero. */
  function Product(a: nat, b: nat): (c: nat)
    requires a >= 1 && b >= 1
    ensures c == Times(a, b) && c >= a && c >= b
  {
    TimesGrows(a, 1, a, b);
    TimesGrows(1, b, a, b);
    Times(a, b)
  }

  function NodeGrowth(node: Node, strict: bool): (g: nat)
    ensures g >= 1
    decreases node, 0
  {
    match node
    case CommandNode(_, _, command) => CommandGrowth(command, strict)
    case GroupNode(_, _, nodes, _, redirection) => (if redirection then 1 else 0) + Growth(nodes, |nodes|, strict)
    case CaseNode(_, _, arms) => SelectGrowth(arms, 0, strict)
  }

  /** A shell that is replaced may end either way. */
  function CommandGrowth(command: Command, strict: bool): (g: nat)
    ensures g >= 1
  {
    if !strict && command.Simple? && command.replacesShell && FinalStatus(command).Unknown? then 2 else 1
  }

  /** Through the arm at index i and those it falls through to. */
  function ArmGrowth(arms: seq<Arm>, i: nat, strict: bool): (g: nat)
    requires i <= |arms|
    ensures g >= 1
    decreases arms, |arms| - i, 1
  {
    if i == |arms| then 1
    else Product(Growth(arms[i].nodes, |arms[i].nodes|, strict), Continuation(arms, i, strict))
  }

  function Continuation(arms: seq<Arm>, i: nat, strict: bool): (g: nat)
    requires i < |arms|
    ensures g >= 1
    decreases arms, |arms| - i, 0
  {
    match arms[i].terminator
    case Break => 1
    case Fallthrough => ArmGrowth(arms, i + 1, strict)
    case Retest => SelectGrowth(arms, i + 1, strict)
  }

  /** Through whichever arms from i on may match, or past all of them. */
  function SelectGrowth(arms: seq<Arm>, i: nat, strict: bool): (g: nat)
    requires i <= |arms|
    ensures g >= 1
    decreases arms, |arms| - i, 2
  {
    if i == |arms| then 1 else ArmGrowth(arms, i, strict) + SelectGrowth(arms, i + 1, strict)
  }

  // ----- results within bounds -----

  predicate Fits(states: seq<FlowState>, growth: nat) {
    Times(|states|, growth) <= MAX_OUTPUT_STATES
  }

  /** Up to 256 states, merging raises no error. */
  lemma FewIdentities(results: seq<FlowResult>)
    requires TotalOf(results) <= MAX_OUTPUT_STATES
    ensures forall kind: Kind :: |Identities(Gather(results, kind))| <= MAX_OUTPUT_STATES
  {
    GatheredTotal(results);
    IdentitiesCount(Gather(results, Active));
    IdentitiesCount(Gather(results, Failed));
    IdentitiesCount(Gather(results, Successful));
    EachKindFits(results);
  }

  // ----- single commands -----

  lemma CommandIsBounded(command: Command, terminator: Terminator, state: FlowState, strict: bool)
    requires EvaluateCommand(command, terminator, state, strict).1 == []
    ensures Total(EvaluateCommand(command, terminator, state, strict).0) <= CommandGrowth(command, strict)
  {
  }

  lemma GroupIsBounded(node: Node, executing: FlowState, inner: FlowResult)
    requires node.GroupNode?
    ensures Total(GroupResult(node, executing, inner)) <= (if node.redirection then 1 else 0) + Total(inner)
  {
  }

  /** The skipped state and the result of the node. */
  lemma GateIsBounded(nodes: seq<Node>, i: nat, a: FlowState, strict: bool, skipped: FlowState, ran: FlowResult)
    requires i < |nodes| && a.gate == GateAt(nodes, i) && GateBranches(a, strict).errors == []
    requires GateBranches(a, strict).execute.Some? ==> Total(ran) <= NodeGrowth(nodes[i], strict)
    ensures TotalOf(GateResults(GateBranches(a, strict), skipped, ran)) <= StepGrowth(nodes, i, strict)
  {
    var skip := FlowResult([skipped], [], []);
    TotalOfOne(skip);
    TotalOfOne(ran);
    TotalOfBoth([skip], [ran]);
    assert [skip] + [] == [skip] && [] + [ran] == [ran];
  }

  /** What a gate makes of a state: the state skipped, the result of the node, or both. */
  function GateResults(b: Branches, skipped: FlowState, ran: FlowResult): seq<FlowResult> {
    (if b.skip.Some? then [FlowResult([skipped], [], [])] else []) + (if b.execute.Some? then [ran] else [])
  }

  // ----- lists and arms -----

  lemma {:induction false} GrowthGrows(nodes: seq<Node>, i: nat, n: nat, strict: bool)
    requires i <= n <= |nodes|
    ensures Growth(nodes, i, strict) <= Growth(nodes, n, strict)
    decreases n
  {
    if i < n {
      GrowthGrows(nodes, i, n - 1, strict);
    }
  }

  /** The states that reach a node fit through it. */
  lemma ReachingFit(nodes: seq<Node>, i: nat, strict: bool, initial: seq<FlowState>, before: FlowResult)
    requires i < |nodes| && Fits(initial, Growth(nodes, |nodes|, strict))
    requires Total(before) <= Times(|initial|, Growth(nodes, i, strict))
    ensures Fits(before.active, StepGrowth(nodes, i, strict))
  {
    GrowthSteps(nodes, i, strict);
    Staying(|initial|, Growth(nodes, i, strict), StepGrowth(nodes, i, strict), |before.active|, Growth(nodes, |nodes|, strict));
  }

  lemma GrowthSteps(nodes: seq<Node>, i: nat, strict: bool)
    requires i < |nodes|
    ensures Growth(nodes, i + 1, strict) == Times(Growth(nodes, i, strict), StepGrowth(nodes, i, strict)) <= Growth(nodes, |nodes|, strict)
  {
    GrowthGrows(nodes, i + 1, |nodes|, strict);
  }

  lemma Staying(states: nat, g: nat, c: nat, active: nat, all: nat)
    requires active <= Times(states, g) && Times(g, c) <= all
    ensures Times(active, c) <= Times(states, all)
  {
    TimesGrows(states, Times(g, c), states, all);
    TimesGrows(active, c, Times(states, g), c);
    TimesAssociates(states, g, c);
  }

  /** After a node, what was active has been replaced by what it became. */
  lemma StepIsBounded(nodes: seq<Node>, i: nat, strict: bool, initial: seq<FlowState>, before: FlowResult, merged: FlowResult)
    requires i < |nodes| && Total(before) <= Times(|initial|, Growth(nodes, i, strict))
    requires Total(merged) <= Times(|before.active|, StepGrowth(nodes, i, strict))
    ensures Total(FlowResult(merged.active, before.failedTerminated + merged.failedTerminated,
                             before.successfulTerminated + merged.successfulTerminated)) <= Times(|initial|, Growth(nodes, i + 1, strict))
  {
    var ended := |before.failedTerminated| + |before.successfulTerminated|;
    Carried(|initial|, Growth(nodes, i, strict), StepGrowth(nodes, i, strict), |before.active|, ended, Total(merged));
  }

  /** What went on grows, what ended is carried along. */
  lemma Carried(states: nat, g: nat, c: nat, active: nat, ended: nat, continuing: nat)
    requires c >= 1 && active + ended <= Times(states, g) && continuing <= Times(active, c)
    ensures continuing + ended <= Times(states, Times(g, c))
  {
    TimesGrows(ended, 1, ended, c);
    TimesAdds(active, ended, c);
    TimesGrows(active + ended, c, Times(states, g), c);
    TimesAssociates(states, g, c);
  }

  /** What reaches an arm fits through its commands. */
  lemma StartFits(arms: seq<Arm>, i: nat, strict: bool, states: seq<FlowState>)
    requires i < |arms| && Fits(states, ArmGrowth(arms, i, strict))
    ensures Fits(states, Growth(arms[i].nodes, |arms[i].nodes|, strict))
  {
    TimesGrows(|states|, Growth(arms[i].nodes, |arms[i].nodes|, strict), |states|, ArmGrowth(arms, i, strict));
  }

  /** What an arm executed fits through what follows it. */
  lemma ContinuingFits(arms: seq<Arm>, i: nat, strict: bool, states: seq<FlowState>, executed: FlowResult)
    requires i < |arms| && Fits(states, ArmGrowth(arms, i, strict))
    requires Total(executed) <= Times(|states|, Growth(arms[i].nodes, |arms[i].nodes|, strict))
    ensures Fits(executed.active, Continuation(arms, i, strict))
  {
    Staying(|states|, Growth(arms[i].nodes, |arms[i].nodes|, strict), Continuation(arms, i, strict), |executed.active|, ArmGrowth(arms, i, strict));
  }

  /** What an arm and what follows it return together. */
  lemma ArmIsBounded(arms: seq<Arm>, i: nat, strict: bool, states: seq<FlowState>, executed: FlowResult, continuing: FlowResult)
    requires i < |arms|
    requires Total(executed) <= Times(|states|, Growth(arms[i].nodes, |arms[i].nodes|, strict))
    requires Total(continuing) <= Times(|executed.active|, Continuation(arms, i, strict))
    ensures TotalOf([continuing, FlowResult([], executed.failedTerminated, executed.successfulTerminated)]) <=
            Times(|states|, ArmGrowth(arms, i, strict))
  {
    Carried(|states|, Growth(arms[i].nodes, |arms[i].nodes|, strict), Continuation(arms, i, strict), |executed.active|,
            Total(executed) - |executed.active|, Total(continuing));
    var ended := FlowResult([], executed.failedTerminated, executed.successfulTerminated);
    assert [continuing, ended][1..] == [ended];
    TotalOfOne(ended);
  }
}
