/** The evaluator: it runs sets of abstract states over a shell tree. Whenever it reports no error, each
    method promises to be faithful to the reference semantics and within the number of paths; and when it
    reports one on a tree within the limits, that some run is blocked. */
module ShellEvaluator {
  import opened ShellSyntax
  import opened ShellSemantics
  import opened ShellStates
  import opened ShellMerging
  import opened ShellComposition
  import opened ShellRealisation
  import opened ShellSubstitution
  import opened ShellBounds
  import opened ShellBlocking
  import opened ShellFaithfulness
  import opened ShellPromises
  import opened ShellPlainLists
  import opened JsCollections

  /** What raises no error, unless some run is blocked. */
  predicate Analysable(nodes: seq<Node>, strict: bool, depth: nat) {
    WithinLimits(nodes, strict, depth) && Supported(nodes, strict) && Readable(nodes, strict)
  }

  predicate AnalysableNode(node: Node, strict: bool, depth: nat) {
    NodeWithinLimits(node, strict, depth) && SupportedNode(node, strict) && Readable([node], strict)
  }

  predicate AnalysableArms(arms: seq<Arm>, strict: bool, depth: nat) {
    forall k | 0 <= k < |arms| :: Analysable(arms[k].nodes, strict, depth)
  }

  /** Strict mode is for programs without substitutions, pipelines and background lists. */
  predicate Readable(nodes: seq<Node>, strict: bool) {
    strict ==> !UsesExpansions(nodes) && !UsesConcurrentControl(nodes)
  }

  predicate ArmsSupported(arms: seq<Arm>, strict: bool) {
    forall k | 0 <= k < |arms| :: Supported(arms[k].nodes, strict)
  }

  lemma AnalysableMember(nodes: seq<Node>, i: nat, strict: bool, depth: nat)
    requires i < |nodes| && Analysable(nodes, strict, depth)
    ensures AnalysableNode(nodes[i], strict, depth)
  {
    assert [nodes[i]][0] == nodes[i];
    assert SupportedNode(nodes[i], strict);
  }

  lemma AnalysableInside(node: Node, strict: bool, depth: nat)
    requires AnalysableNode(node, strict, depth)
    ensures strict ==> node.expansions == [] && !Concurrent(node.terminator)
    ensures node.GroupNode? ==> Analysable(node.nodes, strict, depth)
    ensures node.CaseNode? ==> AnalysableArms(node.arms, strict, depth)
  {
    assert [node][0] == node;
    if node.CaseNode? {
      assert ArmsWithinLimits(node.arms, strict, depth);
      forall k | 0 <= k < |node.arms| ensures Analysable(node.arms[k].nodes, strict, depth) {
        assert WithinLimits(node.arms[k].nodes, strict, depth) && Supported(node.arms[k].nodes, strict);
        assert strict ==> !UsesExpansions(node.arms[k].nodes);
        assert strict ==> !UsesConcurrentControl(node.arms[k].nodes);
      }
    }
  }

  // ----- concurrent components -----

  /** A pipeline or background component cannot end the shell around it: each of its states, ended or
      not, goes on, one for every identity. */
  method LocalizeConcurrent(evaluated: FlowResult, incoming: Terminator, terminator: Terminator, errors: seq<string>)
    returns (r: FlowResult, errors': seq<string>)
    ensures |errors| <= |errors'|
    ensures !ConcurrentComponent(incoming.Pipe?, terminator) ==> r == evaluated && errors' == errors
    ensures ConcurrentComponent(incoming.Pipe?, terminator) ==>
              && r.failedTerminated == [] && r.successfulTerminated == []
              && (|errors'| == |errors| <==> |Identities(AllStates(evaluated))| <= MAX_OUTPUT_STATES)
    ensures ConcurrentComponent(incoming.Pipe?, terminator) && |errors'| == |errors| ==>
              Localizes(evaluated, terminator, r) && Gated(r.active, GateAfter(terminator))
    ensures Total(r) <= Total(evaluated)
    ensures Total(evaluated) <= MAX_OUTPUT_STATES ==> |errors'| == |errors|
  {
    var pipelineComponent := incoming.Pipe? || terminator.Pipe?;
    var backgroundComponent := terminator.Background?;
    if !pipelineComponent && !backgroundComponent {
      return evaluated, errors;
    }
    var all := evaluated.active + evaluated.failedTerminated + evaluated.successfulTerminated;
    var states;
    states, errors' := Deduplicate(all, errors);
    IdentitiesCount(all);
    var gate := if terminator.Background? then Sequence else terminator;
    var status := if backgroundComponent then Success else Unknown;
    r := FlowResult(Regated(WithStatus(states, status), gate), [], []);
    if |errors'| == |errors| {
      assert LocalizedAll(states, terminator, r.active);
    }
  }

  // ----- lists -----

  method EvaluateNodes(nodes: seq<Node>, initial: seq<FlowState>, errors: seq<string>, strict: bool, depth: nat)
    returns (r: FlowResult, errors': seq<string>)
    requires Gated(initial, Sequence)
    ensures |errors| <= |errors'|
    ensures Promises(strict, ListTask(nodes, |nodes|), initial, r, Times(|initial|, Growth(nodes, |nodes|, strict)), |errors'| == |errors|,
                     Supported(nodes, strict), AnalysableList(nodes, initial, strict, depth))
    ensures |errors'| == |errors| && AllPlain(nodes) && Carries(initial, {}) ==> Carries(r.active, BuildsUpTo(nodes, |nodes|))
    decreases nodes, 4
  {
    var evaluated;
    evaluated, errors' := EvaluateList(nodes, initial, errors, strict, depth);
    ghost var clear := |errors'| == |errors|;
    r, errors' := DeduplicateResult(evaluated, errors');
    PromiseAlone(strict, ListTask(nodes, |nodes|), initial, evaluated, r, Times(|initial|, Growth(nodes, |nodes|, strict)),
                 clear, |errors'| == |errors|, Supported(nodes, strict),
                 AnalysableList(nodes, initial, strict, depth));
    if |errors'| == |errors| && AllPlain(nodes) && Carries(initial, {}) {
      MergedCarries([evaluated], r, BuildsUpTo(nodes, |nodes|));
    }
  }

  /** A list whose states fit through it. */
  predicate AnalysableList(nodes: seq<Node>, initial: seq<FlowState>, strict: bool, depth: nat) {
    Analysable(nodes, strict, depth) && Fits(initial, Growth(nodes, |nodes|, strict))
  }

  /** One node after the other. */
  method EvaluateList(nodes: seq<Node>, initial: seq<FlowState>, errors: seq<string>, strict: bool, depth: nat)
    returns (r: FlowResult, errors': seq<string>)
    requires Gated(initial, Sequence)
    ensures |errors| <= |errors'|
    ensures Promises(strict, ListTask(nodes, |nodes|), initial, r, Times(|initial|, Growth(nodes, |nodes|, strict)), |errors'| == |errors|,
                     Supported(nodes, strict), AnalysableList(nodes, initial, strict, depth))
    ensures |errors'| == |errors| && AllPlain(nodes) && Carries(initial, {}) ==> Carries(r.active, BuildsUpTo(nodes, |nodes|))
    decreases nodes, 3
  {
    errors' := errors;
    r := FlowResult(initial, [], []);
    PromiseStay(strict, ListTask(nodes, 0), initial, Supported(nodes, strict), AnalysableList(nodes, initial, strict, depth));
    for i := 0 to |nodes|
      invariant |errors| <= |errors'|
      invariant Promises(strict, ListTask(nodes, i), initial, r, Times(|initial|, Growth(nodes, i, strict)), |errors'| == |errors|,
                         Supported(nodes, strict), AnalysableList(nodes, initial, strict, depth))
      invariant |errors'| == |errors| && Supported(nodes, strict) ==> Gated(r.active, GateAt(nodes, i))
      invariant |errors'| == |errors| && AllPlain(nodes) && Carries(initial, {}) ==> Carries(r.active, BuildsUpTo(nodes, i))
    {
      r, errors' := EvaluateNext(nodes, i, initial, r, errors', strict, depth, |errors'| == |errors|);
    }
  }

  /** Node i from the active states of what came before it. */
  method EvaluateNext(nodes: seq<Node>, i: nat, ghost initial: seq<FlowState>, before: FlowResult, errors: seq<string>,
                      strict: bool, depth: nat, ghost clear: bool)
    returns (after: FlowResult, errors': seq<string>)
    requires i < |nodes|
    requires Promises(strict, ListTask(nodes, i), initial, before, Times(|initial|, Growth(nodes, i, strict)), clear,
                      Supported(nodes, strict), AnalysableList(nodes, initial, strict, depth))
    requires clear && Supported(nodes, strict) ==> Gated(before.active, GateAt(nodes, i))
    ensures |errors| <= |errors'|
    ensures Promises(strict, ListTask(nodes, i + 1), initial, after, Times(|initial|, Growth(nodes, i + 1, strict)),
                     clear && |errors'| == |errors|, Supported(nodes, strict), AnalysableList(nodes, initial, strict, depth))
    ensures clear && |errors'| == |errors| && Supported(nodes, strict) ==> Gated(after.active, GateAt(nodes, i + 1))
    ensures |errors'| == |errors| && Plain(nodes[i]) ==>
              forall keys :: Carries(before.active, keys) ==> Carries(after.active, keys + KeysOf(nodes[i].command.builds))
    decreases nodes, 2, 1
  {
    if clear && AnalysableList(nodes, initial, strict, depth) {
      ReachingFit(nodes, i, strict, initial, before);
      AnalysableMember(nodes, i, strict, depth);
    }
    var merged;
    merged, errors' := EvaluateStep(nodes, i, before.active, errors, strict, depth);
    after := FlowResult(merged.active, before.failedTerminated + merged.failedTerminated,
                        before.successfulTerminated + merged.successfulTerminated);
    PromiseStep(strict, nodes, i, initial, before, merged, clear, clear && |errors'| == |errors|,
                Supported(nodes, strict), AnalysableList(nodes, initial, strict, depth));
  }

  /** The three lists of a result without repetitions. */
  method DeduplicateResult(r: FlowResult, errors: seq<string>)
    returns (r': FlowResult, errors': seq<string>)
    ensures |errors| <= |errors'|
    ensures |errors'| == |errors| ==> forall kind: Kind :: Merges(Gather([r], kind), Part(r', kind))
    ensures Total(r') <= Total(r)
    ensures Total(r) <= MAX_OUTPUT_STATES ==> |errors'| == |errors|
  {
    IdentitiesCount(r.active);
    IdentitiesCount(r.failedTerminated);
    IdentitiesCount(r.successfulTerminated);
    var active, failed, successful;
    active, errors' := Deduplicate(r.active, errors);
    failed, errors' := Deduplicate(r.failedTerminated, errors');
    successful, errors' := Deduplicate(r.successfulTerminated, errors');
    r' := FlowResult(active, failed, successful);
    if |errors'| == |errors| {
      forall kind: Kind ensures Merges(Gather([r], kind), Part(r', kind)) {
        assert Gather([r], kind) == Part(r, kind);
      }
    }
  }

  /** The states have the gate of node i of a supported list. */
  ghost predicate Arriving(nodes: seq<Node>, i: nat, states: seq<FlowState>, strict: bool)
    requires i < |nodes|
  {
    Supported(nodes, strict) && Gated(states, GateAt(nodes, i))
  }

  ghost predicate AnalysableStep(nodes: seq<Node>, i: nat, states: seq<FlowState>, strict: bool, depth: nat)
    requires i < |nodes|
  {
    Arriving(nodes, i, states, strict) && AnalysableNode(nodes[i], strict, depth) && Fits(states, StepGrowth(nodes, i, strict))
  }

  /** Node i from every active state, merged. */
  method EvaluateStep(nodes: seq<Node>, i: nat, active: seq<FlowState>, errors: seq<string>, strict: bool, depth: nat)
    returns (merged: FlowResult, errors': seq<string>)
    requires i < |nodes|
    ensures |errors| <= |errors'|
    ensures Promises(strict, AdvanceTask(nodes, i), active, merged, Times(|active|, StepGrowth(nodes, i, strict)), |errors'| == |errors|,
                     Arriving(nodes, i, active, strict), AnalysableStep(nodes, i, active, strict, depth))
    ensures |errors'| == |errors| && Arriving(nodes, i, active, strict) ==> Gated(merged.active, GateAfter(nodes[i].terminator))
    ensures |errors'| == |errors| && Plain(nodes[i]) ==>
              forall keys :: Carries(active, keys) ==> Carries(merged.active, keys + KeysOf(nodes[i].command.builds))
    decreases nodes, 2, 0
  {
    var next;
    next, errors' := EvaluateStates(nodes, i, active, errors, strict, depth);
    merged, errors' := MergeResults(AdvanceTask(nodes, i), active, next, errors', strict, Times(|active|, StepGrowth(nodes, i, strict)),
                                    |errors'| == |errors|, Arriving(nodes, i, active, strict), AnalysableStep(nodes, i, active, strict, depth));
    if |errors'| == |errors| {
      if Arriving(nodes, i, active, strict) {
        MergedGates(next, merged, GateAfter(nodes[i].terminator));
      }
      if Plain(nodes[i]) {
        forall keys | Carries(active, keys) ensures Carries(merged.active, keys + KeysOf(nodes[i].command.builds)) {
          StatesCarry(active, next, merged, keys, KeysOf(nodes[i].command.builds));
        }
      }
    }
  }

  ghost predicate GatedIn(results: seq<FlowResult>, gate: Terminator) {
    forall r | r in results :: Gated(r.active, gate)
  }

  /** Node i from every active state. */
  method EvaluateStates(nodes: seq<Node>, i: nat, active: seq<FlowState>, errors: seq<string>, strict: bool, depth: nat)
    returns (next: seq<FlowResult>, errors': seq<string>)
    requires i < |nodes|
    ensures |errors| <= |errors'|
    ensures PromisesIn(strict, AdvanceTask(nodes, i), active, next, Times(|active|, StepGrowth(nodes, i, strict)), |errors'| == |errors|,
                       Arriving(nodes, i, active, strict), AnalysableStep(nodes, i, active, strict, depth))
    ensures |errors'| == |errors| && Arriving(nodes, i, active, strict) ==> GatedIn(next, GateAfter(nodes[i].terminator))
    ensures |errors'| == |errors| && Plain(nodes[i]) ==> CarryOn(active, next, KeysOf(nodes[i].command.builds))
    decreases nodes, 1
  {
    errors' := errors;
    next := [];
    ghost var t, growth := AdvanceTask(nodes, i), StepGrowth(nodes, i, strict);
    ghost var supported, analysable := Arriving(nodes, i, active, strict), AnalysableStep(nodes, i, active, strict, depth);
    PromiseNothing(strict, t, supported, analysable);
    for k := 0 to |active|
      invariant |errors| <= |errors'|
      invariant PromisesIn(strict, t, active[..k], next, Times(k, growth), |errors'| == |errors|, supported, analysable)
      invariant |errors'| == |errors| && supported ==> GatedIn(next, GateAfter(nodes[i].terminator))
      invariant |errors'| == |errors| && Plain(nodes[i]) ==> CarryOn(active[..k], next, KeysOf(nodes[i].command.builds))
    {
      TimesGrows(1, growth, |active|, growth);
      ghost var before, clear := next, |errors'| == |errors|;
      var results;
      results, errors' := EvaluateState(nodes, i, active[k], errors', strict, depth);
      next := next + results;
      assert active[..k + 1] == active[..k] + [active[k]];
      PromiseBoth(strict, t, active[..k], before, Times(k, growth), clear, active[k], results, growth, |errors'| == |errors|, supported, analysable);
      if |errors'| == |errors| && Plain(nodes[i]) {
        CarryOnBoth(active[..k], before, active[k], results, KeysOf(nodes[i].command.builds));
      }
    }
    assert active[..|active|] == active;
  }

  lemma MergedGates(results: seq<FlowResult>, merged: FlowResult, gate: Terminator)
    requires Merges(Gather(results, Active), Part(merged, Active)) && GatedIn(results, gate)
    ensures Gated(merged.active, gate)
  {
    forall s | s in merged.active ensures s.gate == gate {
      GatherHolds(results, Active, s);
      var r :| r in results && s in Part(r, Active);
    }
  }

  /** Node i from one state: the state may run it, pass it by, or both. */
  method EvaluateState(nodes: seq<Node>, i: nat, state: FlowState, errors: seq<string>, strict: bool, depth: nat)
    returns (results: seq<FlowResult>, errors': seq<string>)
    requires i < |nodes|
    ensures |errors| <= |errors'|
    ensures PromisesIn(strict, AdvanceTask(nodes, i), [state], results, StepGrowth(nodes, i, strict), |errors'| == |errors|,
                       Arriving(nodes, i, [state], strict), AnalysableStep(nodes, i, [state], strict, depth))
    ensures |errors'| == |errors| && Arriving(nodes, i, [state], strict) ==> GatedIn(results, GateAfter(nodes[i].terminator))
    ensures |errors'| == |errors| && Plain(nodes[i]) && Proceeds(state) ==>
              CarriesIn(results, KeysOf(state.builds) + KeysOf(nodes[i].command.builds))
    decreases nodes, 0
  {
    var branches := GateBranches(state, strict);
    errors' := errors + branches.errors;
    results := [];
    var skipped, ran := state, NOTHING;
    if branches.skip.Some? {
      skipped := branches.skip.value.(gate := SettledGate(nodes[i].terminator));
      results := [FlowResult([skipped], [], [])];
    }
    if branches.execute.Some? {
      ran, errors' := EvaluateNode(nodes[i], branches.execute.value, state.gate, errors', strict, depth);
      results := results + [ran];
    }
    assert results == GateResults(branches, skipped, ran);
    GateDone(nodes, i, state, strict, depth, skipped, ran, |errors'| == |errors|);
  }

  /** What the gate, the skipped state and the result of the node come to. */
  lemma GateDone(nodes: seq<Node>, i: nat, state: FlowState, strict: bool, depth: nat, skipped: FlowState, ran: FlowResult, clear: bool)
    requires i < |nodes|
    requires var b := GateBranches(state, strict);
             && (b.skip.Some? ==> skipped == b.skip.value.(gate := SettledGate(nodes[i].terminator)))
             && (b.errors != [] ==> !clear) && (b.errors == [] && b.execute.None? ==> clear)
             && (b.errors == [] && b.execute.Some? ==>
                  && Promises(strict, StageTask(nodes[i], state.gate.Pipe?), [b.execute.value], ran, NodeGrowth(nodes[i], strict), clear,
                              SupportedNode(nodes[i], strict), AnalysableNode(nodes[i], strict, depth))
                  && (clear && SupportedNode(nodes[i], strict) ==> Gated(ran.active, GateAfter(nodes[i].terminator)))
                  && (clear && Plain(nodes[i]) ==> Carries(ran.active, KeysOf(state.builds) + KeysOf(nodes[i].command.builds))))
    ensures var results := GateResults(GateBranches(state, strict), skipped, ran);
            && PromisesIn(strict, AdvanceTask(nodes, i), [state], results, StepGrowth(nodes, i, strict), clear,
                          Arriving(nodes, i, [state], strict), AnalysableStep(nodes, i, [state], strict, depth))
            && (clear && Arriving(nodes, i, [state], strict) ==> GatedIn(results, GateAfter(nodes[i].terminator)))
            && (clear && Plain(nodes[i]) && Proceeds(state) ==> CarriesIn(results, KeysOf(state.builds) + KeysOf(nodes[i].command.builds)))
  {
    var b := GateBranches(state, strict);
    var supported, analysable := Arriving(nodes, i, [state], strict), AnalysableStep(nodes, i, [state], strict, depth);
    if supported {
      ArrivesThere(nodes, i, state, strict);
    }
    PromiseGate(strict, nodes, i, state, skipped, ran, clear, supported, analysable);
    ResultGates(b, skipped, ran, GateAfter(nodes[i].terminator));
    if clear && Plain(nodes[i]) && Proceeds(state) {
      GateCarries(b, state, strict, skipped, ran, KeysOf(state.builds) + KeysOf(nodes[i].command.builds));
    }
  }

  lemma ResultGates(b: Branches, skipped: FlowState, ran: FlowResult, gate: Terminator)
    ensures (b.skip.Some? ==> skipped.gate == gate) && (b.execute.Some? ==> Gated(ran.active, gate)) ==> GatedIn(GateResults(b, skipped, ran), gate)
  {
  }

  lemma CommandGates(command: Command, terminator: Terminator, state: FlowState, strict: bool)
    requires !Concurrent(terminator)
    ensures Gated(EvaluateCommand(command, terminator, state, strict).0.active, terminator)
  {
  }

  lemma ArrivesThere(nodes: seq<Node>, i: nat, state: FlowState, strict: bool)
    requires i < |nodes| && Arriving(nodes, i, [state], strict)
    ensures state.gate == GateAt(nodes, i) && SupportedNode(nodes[i], strict) && HeadsPipeline(nodes, i)
  {
    assert state in [state];
  }

  // ----- nodes -----

  method EvaluateNode(node: Node, state: FlowState, incoming: Terminator, errors: seq<string>, strict: bool, depth: nat)
    returns (r: FlowResult, errors': seq<string>)
    ensures |errors| <= |errors'|
    ensures Promises(strict, StageTask(node, incoming.Pipe?), [state], r, NodeGrowth(node, strict), |errors'| == |errors|,
                     SupportedNode(node, strict), AnalysableNode(node, strict, depth))
    ensures |errors'| == |errors| && SupportedNode(node, strict) ==> Gated(r.active, GateAfter(node.terminator))
    ensures |errors'| == |errors| && Plain(node) ==> Carries(r.active, KeysOf(state.builds) + KeysOf(node.command.builds))
    decreases node, 2
  {
    ghost var supported, analysable := SupportedNode(node, strict), AnalysableNode(node, strict, depth);
    var builds;
    builds, errors' := EvaluateExpansions(node.expansions, state.builds, errors, depth);
    ghost var found := |errors'| == |errors|;
    var executing := state.(builds := builds);
    var body;
    body, errors' := EvaluateBody(node, executing, errors', strict, depth);
    ghost var clear := |errors'| == |errors|;
    if analysable {
      AnalysableInside(node, strict, depth);
    }
    PromiseNode(strict, node, state, executing, body, NodeGrowth(node, strict), found, clear, supported, analysable);
    r, errors' := LocalizeConcurrent(body, incoming, node.terminator, errors');
    PromiseStage(strict, node, incoming.Pipe?, [state], body, r, NodeGrowth(node, strict), clear, |errors'| == |errors|, supported, analysable);
    if |errors'| == |errors| && Plain(node) {
      KeysOfConcat(executing.builds, node.command.builds);
      StageCarries(node, incoming.Pipe?, body, r, KeysOf(state.builds) + KeysOf(node.command.builds));
    }
  }

  /** A node without its substitutions. */
  method EvaluateBody(node: Node, executing: FlowState, errors: seq<string>, strict: bool, depth: nat)
    returns (body: FlowResult, errors': seq<string>)
    ensures |errors| <= |errors'|
    ensures Promises(strict, BodyTask(node), [executing], body, NodeGrowth(node, strict), |errors'| == |errors|,
                     SupportedNode(node, strict), AnalysableNode(node, strict, depth))
    ensures |errors'| == |errors| && !Concurrent(node.terminator) ==> Gated(body.active, node.terminator)
    ensures |errors'| == |errors| && Plain(node) ==>
              |body.active| == 1 && body.active[0].status.Unknown? && body.active[0].builds == executing.builds + node.command.builds
    decreases node, 1
  {
    ghost var supported, analysable := SupportedNode(node, strict), AnalysableNode(node, strict, depth);
    if analysable {
      AnalysableInside(node, strict, depth);
    }
    match node {
      case CommandNode(_, terminator, command) =>
        var (result, added) := EvaluateCommand(command, terminator, executing, strict);
        body, errors' := result, errors + added;
        PromiseCommand(strict, node, executing, supported, analysable);
        if !Concurrent(terminator) {
          CommandGates(command, terminator, executing, strict);
        }
        if added == [] && Plain(node) {
          CommandCarries(node, executing, strict);
        }
      case GroupNode(_, _, nodes, _, _) =>
        var inner;
        inner, errors' := EvaluateNodes(nodes, [executing.(gate := Sequence)], errors, strict, depth);
        body := GroupResult(node, executing, inner);
        PromiseGroup(strict, node, executing, inner, |errors'| == |errors|, supported, analysable);
      case CaseNode(_, terminator, arms) =>
        var selected;
        selected, errors' := SelectArm(arms, 0, executing, errors, strict, depth);
        body := RegatedResult(selected, terminator);
        PromiseCase(strict, node, executing, selected, |errors'| == |errors|, supported, analysable);
    }
  }

  // ----- command substitutions -----

  /** Adds the builds of every substitution program to those a state already has. */
  method EvaluateExpansions(programs: seq<Program>, builds: seq<Build>, errors: seq<string>, depth: nat)
    returns (builds': seq<Build>, errors': seq<string>)
    ensures |errors| <= |errors'|
    ensures programs == [] ==> builds' == builds && errors' == errors
    ensures KeysOf(builds) <= KeysOf(builds')
    ensures Expands(programs, |programs|, KeysOf(builds), KeysOf(builds'), |errors'| == |errors|,
                    ProgramsSupported(programs), ProgramsSupported(programs) && ProgramsWithinLimits(programs, depth))
    decreases programs, 1
  {
    builds', errors' := builds, errors;
    if depth >= MAX_SHELL_EXPANSION_DEPTH && |programs| > 0 {
      errors' := errors' + ["shell expansion nesting exceeds the supported depth limit of 16"];
      return;
    }
    ghost var supported := ProgramsSupported(programs);
    ghost var analysable := supported && ProgramsWithinLimits(programs, depth);
    NothingLoaded(programs, KeysOf(builds));
    for i := 0 to |programs|
      invariant |errors| <= |errors'|
      invariant i == 0 ==> builds' == builds && errors' == errors
      invariant KeysOf(builds) <= KeysOf(builds')
      invariant Expands(programs, i, KeysOf(builds), KeysOf(builds'), |errors'| == |errors|, supported, analysable)
    {
      ghost var clear, found := |errors'| == |errors|, KeysOf(builds');
      var nested, added := ProgramBuilds(programs[i], depth + 1);
      KeysOfConcat(builds', nested);
      errors' := errors' + added;
      builds' := builds' + nested;
      PromiseExpansion(programs, i, KeysOf(builds), found, nested, clear, |errors'| == |errors|, supported, analysable);
    }
  }

  predicate ProgramsSupported(programs: seq<Program>) {
    forall i | 0 <= i < |programs| :: Supported(programs[i].nodes, false)
  }

  /** The index sends every key to the one place that holds it. */
  ghost predicate Indexed(builds: seq<Build>, index: map<BuildKey, nat>) {
    && (forall key :: key in index ==> index[key] < |builds| && KeyOf(builds[index[key]]) == key)
    && (forall k | 0 <= k < |builds| :: KeyOf(builds[k]) in index && index[KeyOf(builds[k])] == k)
  }

  /** Stores one build under its key, in the place of an equal one if there is one. */
  method StoreBuild(builds: seq<Build>, index: map<BuildKey, nat>, build: Build)
    returns (builds': seq<Build>, index': map<BuildKey, nat>)
    requires Indexed(builds, index)
    ensures Indexed(builds', index')
    ensures KeysOf(builds') == KeysOf(builds) + {KeyOf(build)}
    ensures forall b | b in builds' :: b in builds || b == build
  {
    var key := KeyOf(build);
    if key in index {
      builds', index' := builds[index[key] := build], index;
      ReplaceKeepsKeys(builds, index[key], build);
    } else {
      builds', index' := builds + [build], index[key := |builds|];
      KeysOfConcat(builds, [build]);
    }
  }

  function AllBuilds(states: seq<FlowState>): seq<Build> {
    if states == [] then [] else AllBuilds(states[..|states| - 1]) + states[|states| - 1].builds
  }

  lemma BuildsOfState(states: seq<FlowState>, s: FlowState)
    requires s in states
    ensures KeysOf(s.builds) <= KeysOf(AllBuilds(states))
  {
    var last := states[|states| - 1];
    if s != last {
      assert s in states[..|states| - 1];
      BuildsOfState(states[..|states| - 1], s);
    }
    KeysOfConcat(AllBuilds(states[..|states| - 1]), last.builds);
  }

  /** The distinct builds of a list of states, the last of equal ones in the place of the first. */
  method CollectBuilds(states: seq<FlowState>) returns (builds: seq<Build>)
    ensures KeysOf(builds) == KeysOf(AllBuilds(states))
    ensures forall b | b in builds :: b in AllBuilds(states)
    ensures forall i, j | 0 <= i < j < |builds| :: KeyOf(builds[i]) != KeyOf(builds[j])
  {
    builds := [];
    var index: map<BuildKey, nat> := map[];
    for i := 0 to |states|
      invariant Indexed(builds, index)
      invariant KeysOf(builds) == KeysOf(AllBuilds(states[..i]))
      invariant forall b | b in builds :: b in AllBuilds(states[..i])
    {
      var more := states[i].builds;
      assert states[..i + 1][..i] == states[..i];
      for j := 0 to |more|
        invariant Indexed(builds, index)
        invariant KeysOf(builds) == KeysOf(AllBuilds(states[..i])) + KeysOf(more[..j])
        invariant forall b | b in builds :: b in AllBuilds(states[..i + 1])
      {
        assert more[..j + 1] == more[..j] + [more[j]];
        KeysOfConcat(more[..j], [more[j]]);
        builds, index := StoreBuild(builds, index, more[j]);
      }
      assert more[..|more|] == more;
      KeysOfConcat(AllBuilds(states[..i]), more);
    }
    assert states[..|states|] == states;
  }

  lemma ReplaceKeepsKeys(builds: seq<Build>, k: nat, build: Build)
    requires k < |builds| && KeyOf(builds[k]) == KeyOf(build)
    ensures KeysOf(builds[k := build]) == KeysOf(builds)
    ensures forall b | b in builds[k := build] :: b == build || b in builds
    ensures KeyOf(build) in KeysOf(builds)
  {
    var next := builds[k := build];
    forall key | key in KeysOf(builds) ensures key in KeysOf(next) {
      var j :| 0 <= j < |builds| && KeyOf(builds[j]) == key;
      assert next[j] in next;
    }
    forall key | key in KeysOf(next) ensures key in KeysOf(builds) {
      var j :| 0 <= j < |next| && KeyOf(next[j]) == key;
      assert builds[j] in builds;
    }
    assert builds[k] in builds;
  }

  /** Without errors, the builds found are those that runs of the program perform, and no run is blocked;
      and within the limits, errors mean that some run is blocked. */
  method ProgramBuilds(program: Program, depth: nat) returns (builds: seq<Build>, errors: seq<string>)
    ensures errors == [] && Supported(program.nodes, false) ==> Finds(program, builds) && Quiet(program)
    ensures errors != [] && Supported(program.nodes, false) && ProgramWithinLimits(program, false, depth) ==> Disturbing(program)
    ensures errors == [] && AllPlain(program.nodes) ==> BuildsUpTo(program.nodes, |program.nodes|) <= KeysOf(builds)
    decreases program, 3
  {
    var r;
    assert INITIAL in [INITIAL] && Proceeds(INITIAL);
    r, errors := EvaluateNodes(program.nodes, [INITIAL], program.errors, false, depth);
    builds := CollectBuilds(r.active + r.failedTerminated + r.successfulTerminated);
    if Supported(program.nodes, false) {
      if errors == [] {
        BuildsFound(program, r, builds);
        BuildsPerformed(program, r, builds);
        QuietProgram(program);
      } else if ProgramWithinLimits(program, false, depth) && program.errors == [] {
        DisturbingProgram(program);
      }
    }
    if errors == [] && AllPlain(program.nodes) {
      CarriedBuilds(r, BuildsUpTo(program.nodes, |program.nodes|));
    }
    errors := DistinctMessages(errors);
  }

  lemma CarriedBuilds(r: FlowResult, keys: set<BuildKey>)
    requires Carries(r.active, keys)
    ensures keys <= KeysOf(AllBuilds(AllStates(r)))
  {
    var a :| a in r.active && Proceeds(a) && keys <= KeysOf(a.builds);
    BuildsOfState(AllStates(r), a);
  }

  lemma QuietProgram(program: Program)
    requires program.errors == [] && Unblocked(false, ListTask(program.nodes, |program.nodes|), [INITIAL])
    ensures Quiet(program)
  {
    var t := ListTask(program.nodes, |program.nodes|);
    forall w: Resolver, clock, e | RunsList(w, program.nodes, |program.nodes|, START.(clock := clock), e) ensures !AlwaysBlocked(e) {
      assert Covers(INITIAL, START.(clock := clock)) && INITIAL in [INITIAL];
      assert Exec(w, t, START.(clock := clock), e);
    }
  }

  lemma DisturbingProgram(program: Program)
    requires Stops(false, ListTask(program.nodes, |program.nodes|), [INITIAL])
    ensures Disturbing(program)
  {
    var m, t := ModeOf(false), ListTask(program.nodes, |program.nodes|);
    var kind, a' :| StopsAs(false, kind) && Reached(m, t, [INITIAL], a', kind);
    var a :| Holds(m, [INITIAL], Active, a) && Reaches(m, t, a, a', kind);
    HoldsOne(m, INITIAL, Active, a);
    forall clock ensures BlockedAt(program, clock) {
      assert Stands(m, a, START.(clock := clock));
      var w: Resolver :| Ends(m, w, t, START.(clock := clock), a', kind);
      var e :| KindOf(e) == kind && Stands(m, a', e.state) && Exec(w, t, START.(clock := clock), e);
      assert AlwaysBlocked(e);
    }
  }

  lemma BuildsFound(program: Program, r: FlowResult, builds: seq<Build>)
    requires Sound(ListTask(program.nodes, |program.nodes|), [INITIAL], r) && KeysOf(builds) == KeysOf(AllBuilds(AllStates(r)))
    ensures forall w: Resolver, clock, o :: RunsProgram(w, program, clock, o) ==> o.state.builds <= KeysOf(builds)
  {
    forall w: Resolver, clock, o | RunsProgram(w, program, clock, o) ensures o.state.builds <= KeysOf(builds) {
      var c := START.(clock := clock);
      assert Covers(INITIAL, c) && INITIAL in [INITIAL];
      assert Exec(w, ListTask(program.nodes, |program.nodes|), c, o);
      assert Reported(r, o);
      var a :| a in Part(r, KindOf(o)) && Covers(a, o.state);
      BuildsOfState(AllStates(r), a);
    }
  }

  lemma BuildsPerformed(program: Program, r: FlowResult, builds: seq<Build>)
    requires Exact(false, ListTask(program.nodes, |program.nodes|), [INITIAL], r)
    requires KeysOf(builds) == KeysOf(AllBuilds(AllStates(r)))
    ensures PerformsAny(program, KeysOf(builds))
  {
    forall key, clock | key in KeysOf(builds) ensures Performs(program, key, clock) {
      var b := StateOfBuild(AllStates(r), key);
      var kind := if b in r.active then Active else if b in r.failedTerminated then Failed else Successful;
      StatePerforms(program, r, b, kind, key, clock);
    }
  }

  /** Each build of a returned state is performed by a run. */
  lemma StatePerforms(program: Program, r: FlowResult, b: FlowState, kind: Kind, key: BuildKey, clock: nat)
    requires Exact(false, ListTask(program.nodes, |program.nodes|), [INITIAL], r) && b in Part(r, kind) && key in KeysOf(b.builds)
    ensures Performs(program, key, clock)
  {
    var m, t := SomeResolver(key), ListTask(program.nodes, |program.nodes|);
    assert Realised(m, t, [INITIAL], r);
    var a' := b.(status := match kind case Failed => Failure case Successful => Success case _ => b.status);
    assert Instance(m, b, kind, a') && Holds(m, Part(r, kind), kind, a');
    assert Reached(m, t, [INITIAL], a', kind);
    var a :| Holds(m, [INITIAL], Active, a) && Reaches(m, t, a, a', kind);
    HoldsOne(m, INITIAL, Active, a);
    assert Stands(m, a, START.(clock := clock));
    var w: Resolver :| Ends(m, w, t, START.(clock := clock), a', kind);
    var o :| KindOf(o) == kind && Stands(m, a', o.state) && Exec(w, t, START.(clock := clock), o);
    assert RunsProgram(w, program, clock, o);
  }

  lemma {:induction false} StateOfBuild(states: seq<FlowState>, key: BuildKey) returns (s: FlowState)
    requires key in KeysOf(AllBuilds(states))
    ensures s in states && key in KeysOf(s.builds)
  {
    var first, last := states[..|states| - 1], states[|states| - 1];
    KeysOfConcat(AllBuilds(first), last.builds);
    if key in KeysOf(last.builds) {
      s := last;
    } else {
      s := StateOfBuild(first, key);
    }
  }

  /** The distinct messages, in the order in which they first occur. */
  function DistinctMessages(errors: seq<string>): (distinct: seq<string>)
    ensures distinct == [] <==> errors == []
    ensures forall e :: e in distinct <==> e in errors
    ensures NoRepeats(distinct) && InFirstOrder(errors, distinct)
  {
    UniqueInOrder(errors);
    assert errors != [] ==> errors[0] in Unique(errors);
    assert Unique(errors) != [] ==> Unique(errors)[0] in Unique(errors);
    Unique(errors)
  }

  // ----- case arms -----

  predicate AnalysableFrom(arms: seq<Arm>, states: seq<FlowState>, growth: nat, strict: bool, depth: nat) {
    AnalysableArms(arms, strict, depth) && Fits(states, growth)
  }

  /** The arm at index i and whatever it falls through to, from every given state. */
  method EvaluateArm(arms: seq<Arm>, i: nat, states: seq<FlowState>, errors: seq<string>, strict: bool, depth: nat)
    returns (r: FlowResult, errors': seq<string>)
    requires i <= |arms|
    ensures |errors| <= |errors'|
    ensures Promises(strict, ArmTask(arms, i), states, r, Times(|states|, ArmGrowth(arms, i, strict)), |errors'| == |errors|,
                     ArmsSupported(arms, strict), AnalysableFrom(arms, states, ArmGrowth(arms, i, strict), strict, depth))
    decreases arms, |arms| - i, 1
  {
    errors' := errors;
    ghost var supported := ArmsSupported(arms, strict);
    ghost var analysable := AnalysableFrom(arms, states, ArmGrowth(arms, i, strict), strict, depth);
    if i == |arms| {
      PromiseStay(strict, ArmTask(arms, i), states, supported, analysable);
      return FlowResult(states, [], []), errors';
    }
    var start := Regated(states, Sequence);
    if analysable {
      StartFits(arms, i, strict, states);
    }
    var executed;
    executed, errors' := EvaluateNodes(arms[i].nodes, start, errors', strict, depth);
    ghost var ran := |errors'| == |errors|;
    if arms[i].terminator.Break? {
      r := executed;
      PromiseBreak(strict, arms, i, states, executed, ran, supported, analysable);
      return;
    }
    if ran && analysable {
      ContinuingFits(arms, i, strict, states, executed);
    }
    var continuing;
    continuing, errors' := ContinueArm(arms, i, executed.active, errors', strict, depth);
    PromiseArm(strict, arms, i, states, executed, continuing, ran, |errors'| == |errors|, supported, analysable);
    r, errors' := MergeResults(ArmTask(arms, i), states, ArmResults(executed, continuing), errors', strict,
                               Times(|states|, ArmGrowth(arms, i, strict)), |errors'| == |errors|, supported, analysable);
  }

  /** What follows the arm at index i, from the states that leave it. */
  method ContinueArm(arms: seq<Arm>, i: nat, active: seq<FlowState>, errors: seq<string>, strict: bool, depth: nat)
    returns (continuing: FlowResult, errors': seq<string>)
    requires i < |arms| && !arms[i].terminator.Break?
    ensures |errors| <= |errors'|
    ensures Promises(strict, LeaveTask(arms, i), active, continuing, Times(|active|, Continuation(arms, i, strict)), |errors'| == |errors|,
                     ArmsSupported(arms, strict), AnalysableFrom(arms, active, Continuation(arms, i, strict), strict, depth))
    decreases arms, |arms| - i, 0
  {
    ghost var t: Task;
    if arms[i].terminator.Fallthrough? {
      t := ArmTask(arms, i + 1);
      continuing, errors' := EvaluateArm(arms, i + 1, active, errors, strict, depth);
    } else {
      t := SelectTask(arms, i + 1);
      continuing, errors' := RetestArms(arms, i + 1, active, errors, strict, depth);
    }
    PromiseSame(strict, t, LeaveTask(arms, i), active, continuing, Times(|active|, Continuation(arms, i, strict)), |errors'| == |errors|,
                ArmsSupported(arms, strict), AnalysableFrom(arms, active, Continuation(arms, i, strict), strict, depth));
  }

  /** Pattern matching resumed, from every given state, after an arm that asks for it. */
  method RetestArms(arms: seq<Arm>, start: nat, states: seq<FlowState>, errors: seq<string>, strict: bool, depth: nat)
    returns (r: FlowResult, errors': seq<string>)
    requires start <= |arms|
    ensures |errors| <= |errors'|
    ensures Promises(strict, SelectTask(arms, start), states, r, Times(|states|, SelectGrowth(arms, start, strict)), |errors'| == |errors|,
                     ArmsSupported(arms, strict), AnalysableFrom(arms, states, SelectGrowth(arms, start, strict), strict, depth))
    decreases arms, |arms| - start, 4
  {
    errors' := errors;
    var results: seq<FlowResult> := [];
    ghost var t, growth := SelectTask(arms, start), SelectGrowth(arms, start, strict);
    ghost var supported, analysable := ArmsSupported(arms, strict), AnalysableFrom(arms, states, growth, strict, depth);
    PromiseNothing(strict, t, supported, analysable);
    for k := 0 to |states|
      invariant |errors| <= |errors'|
      invariant PromisesIn(strict, t, states[..k], results, Times(k, growth), |errors'| == |errors|, supported, analysable)
    {
      TimesGrows(1, growth, |states|, growth);
      ghost var before, clear := results, |errors'| == |errors|;
      var selected;
      selected, errors' := SelectArm(arms, start, states[k], errors', strict, depth);
      results := results + [selected];
      assert states[..k + 1] == states[..k] + [states[k]];
      PromiseToo(strict, t, states[..k], before, Times(k, growth), clear, states[k], selected, growth, |errors'| == |errors|, supported, analysable);
    }
    assert states[..|states|] == states;
    r, errors' := MergeResults(t, states, results, errors', strict, Times(|states|, growth), |errors'| == |errors|, supported, analysable);
  }

  /** The arms from `start` on, one after the other, up to the first catch-all. */
  method TryArms(arms: seq<Arm>, start: nat, state: FlowState, errors: seq<string>, strict: bool, depth: nat)
    returns (selected: seq<FlowResult>, exhaustive: bool, ghost end: nat, errors': seq<string>)
    requires start <= |arms|
    ensures |errors| <= |errors'|
    ensures start <= end <= |arms|
    ensures if exhaustive then end > start && arms[end - 1].catchAll else end == |arms| && NoCatchAll(arms, start, end)
    ensures Tries(strict, arms, start, end, state, selected, |errors'| == |errors|,
                  ArmsSupported(arms, strict), AnalysableFrom(arms, [state], SelectGrowth(arms, start, strict), strict, depth))
    decreases arms, |arms| - start, 2
  {
    errors' := errors;
    selected, exhaustive := [], false;
    ghost var supported := ArmsSupported(arms, strict);
    ghost var analysable := AnalysableFrom(arms, [state], SelectGrowth(arms, start, strict), strict, depth);
    var index := start;
    while index < |arms| && !exhaustive
      invariant start <= index <= |arms|
      invariant |errors| <= |errors'|
      invariant if exhaustive then index > start && arms[index - 1].catchAll else NoCatchAll(arms, start, index)
      invariant SelectGrowth(arms, index, strict) <= SelectGrowth(arms, start, strict)
      invariant Tries(strict, arms, start, index, state, selected, |errors'| == |errors|, supported, analysable)
      decreases |arms| - index
    {
      ghost var before, clear := selected, |errors'| == |errors|;
      var arm;
      arm, errors' := EvaluateArm(arms, index, [state], errors', strict, depth);
      selected := selected + [arm];
      PromiseTry(strict, arms, start, index, state, before, arm, clear, |errors'| == |errors|, supported, analysable);
      exhaustive := arms[index].catchAll;
      index := index + 1;
    }
    end := index;
  }

  /** Every arm from `start` on that may be the first to match, up to the first catch-all. */
  method SelectArm(arms: seq<Arm>, start: nat, state: FlowState, errors: seq<string>, strict: bool, depth: nat)
    returns (r: FlowResult, errors': seq<string>)
    requires start <= |arms|
    ensures |errors| <= |errors'|
    ensures Promises(strict, SelectTask(arms, start), [state], r, SelectGrowth(arms, start, strict), |errors'| == |errors|,
                     ArmsSupported(arms, strict), AnalysableFrom(arms, [state], SelectGrowth(arms, start, strict), strict, depth))
    decreases arms, |arms| - start, 3
  {
    ghost var supported := ArmsSupported(arms, strict);
    ghost var analysable := AnalysableFrom(arms, [state], SelectGrowth(arms, start, strict), strict, depth);
    var selected, exhaustive;
    ghost var end;
    selected, exhaustive, end, errors' := TryArms(arms, start, state, errors, strict, depth);
    PromiseSelect(strict, arms, start, end, state, selected, exhaustive, |errors'| == |errors|, supported, analysable);
    if !exhaustive {
      selected := selected + [FlowResult([state.(status := Success)], [], [])];
    }
    r, errors' := MergeResults(SelectTask(arms, start), [state], selected, errors', strict, SelectGrowth(arms, start, strict),
                               |errors'| == |errors|, supported, analysable);
  }

  /** Results of one task, merged: what is promised of each is promised of the whole. */
  method MergeResults(ghost t: Task, ghost from: seq<FlowState>, results: seq<FlowResult>, errors: seq<string>,
                      ghost strict: bool, ghost n: nat, ghost clear: bool, ghost supported: bool, ghost analysable: bool)
    returns (r: FlowResult, errors': seq<string>)
    requires PromisesIn(strict, t, from, results, n, clear, supported, analysable)
    requires analysable ==> supported && n <= MAX_OUTPUT_STATES
    ensures |errors| <= |errors'|
    ensures Promises(strict, t, from, r, n, clear && |errors'| == |errors|, supported, analysable)
    ensures |errors'| == |errors| ==> forall kind: Kind :: Merges(Gather(results, kind), Part(r, kind))
  {
    if TotalOf(results) <= MAX_OUTPUT_STATES {
      FewIdentities(results);
    }
    r, errors' := Merge(results, errors);
    PromiseMerged(strict, t, from, results, r, n, clear, clear && |errors'| == |errors|, supported, analysable);
  }

  // ----- output producers -----

  /** Some run from the start ends in success with these outputs. */
  ghost predicate EndsInSuccess(w: Resolver, nodes: seq<Node>, outputs: map<string, string>) {
    exists o :: RunsList(w, nodes, |nodes|, START, o) && !o.Blocked? && o.state.status && o.state.outputs == outputs
  }

  /** The run is blocked, or ends with a status that the resolver has decided. */
  predicate LeavesOpen(o: Outcome) {
    o.Blocked? || (o.Normal? && o.state.free)
  }

  /** Some run of the list, under this resolver, leaves a status open. */
  ghost predicate LeftOpen(w: Resolver, nodes: seq<Node>) {
    exists o :: RunsList(w, nodes, |nodes|, START, o) && LeavesOpen(o)
  }

  /** The records are the outputs of the runs that end in success, for these unknown statuses. */
  ghost predicate ExactFor(w: Resolver, nodes: seq<Node>, actionCanSucceed: bool, records: seq<map<string, string>>) {
    && (actionCanSucceed <==> exists outputs :: EndsInSuccess(w, nodes, outputs))
    && (forall outputs :: EndsInSuccess(w, nodes, outputs) ==> outputs in records || (records == [] && outputs == map[]))
    && (forall k | 0 <= k < |records| :: EndsInSuccess(w, nodes, records[k]))
  }

  lemma {:induction false} PlainIsSupported(nodes: seq<Node>)
    requires !UsesConcurrentControl(nodes) && !UsesExpansions(nodes)
    ensures Supported(nodes, true)
    decreases nodes
  {
    forall i | 0 <= i < |nodes| ensures SupportedNode(nodes[i], true) {
      var node := nodes[i];
      match node {
        case CommandNode(_, _, _) =>
        case GroupNode(_, _, inner, _, _) => PlainIsSupported(inner);
        case CaseNode(_, _, arms) =>
          forall k | 0 <= k < |arms| ensures Supported(arms[k].nodes, true) {
            PlainIsSupported(arms[k].nodes);
          }
      }
    }
  }

  lemma SuccessesExact(w: Resolver, nodes: seq<Node>, r: FlowResult, successful: seq<FlowState>)
    requires Sound(ListTask(nodes, |nodes|), [INITIAL], r) && Realised(EveryResolver, ListTask(nodes, |nodes|), [INITIAL], r)
    requires forall a | a in r.active :: !a.status.Unknown?
    requires forall s :: s in successful <==> (s in r.active && s.status.Success?) || s in r.successfulTerminated
    ensures forall outputs :: EndsInSuccess(w, nodes, outputs) ==> exists k :: 0 <= k < |successful| && successful[k].outputs == outputs
    ensures forall k | 0 <= k < |successful| :: EndsInSuccess(w, nodes, successful[k].outputs)
  {
    var t := ListTask(nodes, |nodes|);
    assert INITIAL in [INITIAL] && Covers(INITIAL, START);
    forall outputs | EndsInSuccess(w, nodes, outputs)
      ensures exists k :: 0 <= k < |successful| && successful[k].outputs == outputs
    {
      var o :| RunsList(w, nodes, |nodes|, START, o) && !o.Blocked? && o.state.status && o.state.outputs == outputs;
      assert Exec(w, t, START, o);
      var a :| a in Part(r, KindOf(o)) && Covers(a, o.state);
      assert a in successful;
    }
    forall k | 0 <= k < |successful| ensures EndsInSuccess(w, nodes, successful[k].outputs) {
      var s := successful[k];
      var kind := if s in r.active && s.status.Success? then Active else Successful;
      assert s in Part(r, kind) && Holds(EveryResolver, Part(r, kind), kind, s);
      assert Reached(EveryResolver, t, [INITIAL], s, kind);
      assert Reaches(EveryResolver, t, INITIAL, s, kind);
      assert Ends(EveryResolver, w, t, START, s, kind);
      var o :| KindOf(o) == kind && Agrees(s, o.state) && Exec(w, t, START, o);
      assert RunsList(w, nodes, |nodes|, START, o);
    }
  }

  /** Commands one after the other, of which the last one has a known status. */
  predicate StraightToKnown(nodes: seq<Node>) {
    AllStraight(nodes) && (nodes != [] ==> Known(nodes[|nodes| - 1].command))
  }

  lemma NotLeftOpen(nodes: seq<Node>)
    requires StraightToKnown(nodes)
    ensures !LeftOpen((_, _) => true, nodes)
  {
    var w: Resolver := (_, _) => true;
    forall o | RunsList(w, nodes, |nodes|, START, o) ensures !LeavesOpen(o) {
      StraightRuns(w, nodes, |nodes|, START, o);
    }
  }

  lemma NothingLeftOpen(w: Resolver, nodes: seq<Node>, r: FlowResult)
    requires Sound(ListTask(nodes, |nodes|), [INITIAL], r) && Unblocked(true, ListTask(nodes, |nodes|), [INITIAL])
    requires forall a | a in r.active :: !a.status.Unknown?
    ensures !LeftOpen(w, nodes)
  {
    assert INITIAL in [INITIAL] && Covers(INITIAL, START);
    forall o | RunsList(w, nodes, |nodes|, START, o) ensures !LeavesOpen(o) {
      assert Exec(w, ListTask(nodes, |nodes|), START, o);
      assert Reported(r, o);
    }
  }

  lemma StopsOpen(w: Resolver, nodes: seq<Node>)
    requires Stops(true, ListTask(nodes, |nodes|), [INITIAL])
    ensures LeftOpen(w, nodes)
  {
    var t := ListTask(nodes, |nodes|);
    var kind, a' :| StopsAs(true, kind) && Reached(EveryResolver, t, [INITIAL], a', kind);
    assert Reaches(EveryResolver, t, INITIAL, a', kind) && Stands(EveryResolver, INITIAL, START);
    assert Ends(EveryResolver, w, t, START, a', kind);
  }

  lemma UnknownIsOpen(w: Resolver, nodes: seq<Node>, r: FlowResult, a: FlowState)
    requires Realised(EveryResolver, ListTask(nodes, |nodes|), [INITIAL], r)
    requires a in r.active && a.status.Unknown?
    ensures LeftOpen(w, nodes)
  {
    var t := ListTask(nodes, |nodes|);
    assert a in Part(r, Active) && Holds(EveryResolver, Part(r, Active), Active, a);
    assert Reached(EveryResolver, t, [INITIAL], a, Active);
    assert Reaches(EveryResolver, t, INITIAL, a, Active) && Stands(EveryResolver, INITIAL, START);
    assert Ends(EveryResolver, w, t, START, a, Active);
  }

  lemma RecordsExact(nodes: seq<Node>, r: FlowResult, successful: seq<FlowState>, actionCanSucceed: bool, records: seq<map<string, string>>)
    requires Sound(ListTask(nodes, |nodes|), [INITIAL], r) && Unblocked(true, ListTask(nodes, |nodes|), [INITIAL])
    requires Realised(EveryResolver, ListTask(nodes, |nodes|), [INITIAL], r)
    requires forall a | a in r.active :: !a.status.Unknown?
    requires forall s :: s in successful <==> (s in r.active && s.status.Success?) || s in r.successfulTerminated
    requires actionCanSucceed <==> successful != []
    requires records == Outputs(successful) || (records == [] && forall k | 0 <= k < |successful| :: successful[k].outputs == map[])
    ensures forall w: Resolver :: ExactFor(w, nodes, actionCanSucceed, records) && !LeftOpen(w, nodes)
  {
    forall w: Resolver ensures ExactFor(w, nodes, actionCanSucceed, records) && !LeftOpen(w, nodes) {
      NothingLeftOpen(w, nodes, r);
      SuccessesExact(w, nodes, r, successful);
      if successful != [] {
        assert EndsInSuccess(w, nodes, successful[0].outputs);
      }
    }
  }

  lemma ErrorIsOpen(nodes: seq<Node>, r: FlowResult, clear: bool)
    requires if clear then Realised(EveryResolver, ListTask(nodes, |nodes|), [INITIAL], r) && exists a :: a in r.active && a.status.Unknown?
             else Stops(true, ListTask(nodes, |nodes|), [INITIAL])
    ensures forall w: Resolver :: LeftOpen(w, nodes)
  {
    forall w: Resolver ensures LeftOpen(w, nodes) {
      if clear {
        var a :| a in r.active && a.status.Unknown?;
        UnknownIsOpen(w, nodes, r, a);
      } else {
        StopsOpen(w, nodes);
      }
    }
  }

  /** The successful states among the active ones; an unknown status is an error. */
  method ActiveSuccesses(active: seq<FlowState>, errors: seq<string>)
    returns (successful: seq<FlowState>, errors': seq<string>)
    ensures |errors| <= |errors'|
    ensures |errors'| == |errors| <==> forall a | a in active :: !a.status.Unknown?
    ensures forall s :: s in successful <==> s in active && s.status.Success?
  {
    errors' := errors;
    successful := [];
    for i := 0 to |active|
      invariant |errors| <= |errors'|
      invariant |errors'| == |errors| <==> forall a | a in active[..i] :: !a.status.Unknown?
      invariant forall s :: s in successful <==> s in active[..i] && s.status.Success?
    {
      assert active[..i + 1] == active[..i] + [active[i]];
      if active[i].status.Unknown? {
        errors' := errors' + ["output producer ends with an unknown command status"];
      }
      if active[i].status.Success? {
        successful := successful + [active[i]];
      }
    }
    assert active[..|active|] == active;
  }

  /** The analysis of a step that sets outputs. `expanding` says that the text holds a
      substitution or an expanding here-document. Without errors, and however unknown
      statuses resolve, the records are the outputs of the runs that end in success, and
      no run is blocked or ends with an unknown status; and within the limits, errors of the
      evaluation mean that, however they resolve, some run is or does. */
  method OutputAssignments(program: Program, expanding: bool)
    returns (actionCanSucceed: bool, errors: seq<string>, records: seq<map<string, string>>)
    ensures errors == [] && (UsesExpansions(program.nodes) ==> expanding) ==>
              forall w: Resolver :: ExactFor(w, program.nodes, actionCanSucceed, records) && !LeftOpen(w, program.nodes)
    ensures program.errors != [] ==> errors != []
    ensures expanding || UsesConcurrentControl(program.nodes) || UsesGroupRedirection(program.nodes) ==>
              errors != [] && !actionCanSucceed && records == []
    ensures errors != [] && program.errors == [] && !expanding && !UsesExpansions(program.nodes) &&
            !UsesConcurrentControl(program.nodes) && !UsesGroupRedirection(program.nodes) && ProgramWithinLimits(program, true, 0) ==>
              forall w: Resolver :: LeftOpen(w, program.nodes)
    ensures program.errors == [] && !expanding && StraightToKnown(program.nodes) ==> errors == []
  {
    if StraightToKnown(program.nodes) {
      StraightIsPlain(program.nodes);
      NotLeftOpen(program.nodes);
    }
    if expanding {
      return false, DistinctMessages(program.errors + ["unsupported output-producer shell expansion"]), [];
    }
    if UsesConcurrentControl(program.nodes) {
      return false, DistinctMessages(program.errors + ["unsupported concurrent pipeline/background output producer"]), [];
    }
    if UsesGroupRedirection(program.nodes) {
      return false, DistinctMessages(program.errors + ["unsupported output-producer shell redirection"]), [];
    }
    var r;
    r, errors := EvaluateNodes(program.nodes, [INITIAL], program.errors, true, 0);
    ghost var clear := errors == [];
    var successful;
    successful, errors := ActiveSuccesses(r.active, errors);
    successful := successful + r.successfulTerminated;
    actionCanSucceed := successful != [];
    records := Outputs(successful);
    if forall k | 0 <= k < |records| :: records[k] == map[] {
      records := [];
    }
    if !UsesExpansions(program.nodes) {
      PlainIsSupported(program.nodes);
      assert |errors| == |program.errors| ==> Realised(EveryResolver, ListTask(program.nodes, |program.nodes|), [INITIAL], r);
      if errors == [] {
        RecordsExact(program.nodes, r, successful, actionCanSucceed, records);
      } else if program.errors == [] && ProgramWithinLimits(program, true, 0) {
        ErrorIsOpen(program.nodes, r, clear);
      }
    }
    errors := DistinctMessages(errors);
  }

  function Outputs(states: seq<FlowState>): (records: seq<map<string, string>>)
    ensures |records| == |states|
    ensures forall i | 0 <= i < |states| :: records[i] == states[i].outputs
  {
    seq(|states|, i requires 0 <= i < |states| => states[i].outputs)
  }
}
