/** What the evaluator promises of a result, and how it is kept along lists, nodes and case arms. */
module ShellFaithfulness {
  import opened ShellSyntax
  import opened ShellSemantics
  import opened ShellStates
  import opened ShellMerging
  import opened ShellComposition
  import opened ShellRealisation
  import opened ShellSubstitution
  import opened ShellBounds
  import opened ShellBlocking

  /** Every state of r is reached for some resolver, with each of its builds; in strict mode also
      whatever a resolver decides. */
  ghost predicate Exact(strict: bool, t: Task, from: seq<FlowState>, r: FlowResult) {
    forall m: Mode :: (m.EveryResolver? ==> strict) ==> Realised(m, t, from, r)
  }

  ghost predicate ExactIn(strict: bool, t: Task, from: seq<FlowState>, results: seq<FlowResult>) {
    forall m: Mode :: (m.EveryResolver? ==> strict) ==> RealisedIn(m, t, from, results)
  }

  /** Every run is reported, none is blocked, and every state is reached. */
  ghost predicate Faithful(strict: bool, t: Task, from: seq<FlowState>, r: FlowResult) {
    Sound(t, from, r) && Unblocked(strict, t, from) && Exact(strict, t, from, r)
  }

  ghost predicate FaithfulIn(strict: bool, t: Task, from: seq<FlowState>, results: seq<FlowResult>) {
    SoundIn(t, from, results) && Unblocked(strict, t, from) && ExactIn(strict, t, from, results)
  }

  lemma FaithfulOne(strict: bool, t: Task, from: seq<FlowState>, r: FlowResult)
    requires Faithful(strict, t, from, r)
    ensures FaithfulIn(strict, t, from, [r])
  {
    assert r in [r];
  }

  lemma FaithfulBoth(strict: bool, t: Task, from: seq<FlowState>, results: seq<FlowResult>,
                     a: FlowState, more: seq<FlowResult>)
    requires FaithfulIn(strict, t, from, results) && FaithfulIn(strict, t, [a], more)
    ensures FaithfulIn(strict, t, from + [a], results + more)
  {
    SoundInBoth(t, from, results, a, more);
    UnblockedInBoth(strict, t, from, a);
    forall m: Mode | m.EveryResolver? ==> strict ensures RealisedIn(m, t, from + [a], results + more) {
      RealisedInBoth(m, t, from, results, a, more);
    }
  }

  lemma SoundInBoth(t: Task, from: seq<FlowState>, results: seq<FlowResult>, a: FlowState, more: seq<FlowResult>)
    requires SoundIn(t, from, results) && SoundIn(t, [a], more)
    ensures SoundIn(t, from + [a], results + more)
  {
    forall w: Resolver, c, o | CoveredBy(from + [a], c) && Exec(w, t, c, o) ensures ReportedIn(results + more, o) {
      var b :| b in from + [a] && Covers(b, c);
      assert if b in from then CoveredBy(from, c) else b in [a] && CoveredBy([a], c);
      if !o.Blocked? {
        var r :| (r in results || r in more) && Reported(r, o);
        assert r in results + more;
      }
    }
  }

  lemma FaithfulMerged(strict: bool, t: Task, from: seq<FlowState>, results: seq<FlowResult>, merged: FlowResult)
    requires FaithfulIn(strict, t, from, results)
    requires forall kind: Kind :: Merges(Gather(results, kind), Part(merged, kind))
    ensures Faithful(strict, t, from, merged)
  {
    MergeSound(t, from, results, merged);
    forall m: Mode | m.EveryResolver? ==> strict ensures Realised(m, t, from, merged) {
      MergeRealised(m, t, from, results, merged);
    }
  }

  /** Two tasks with the same runs. */
  lemma FaithfulSame(strict: bool, s: Task, t: Task, from: seq<FlowState>, r: FlowResult)
    requires Faithful(strict, s, from, r)
    requires forall w: Resolver, c, o :: Exec(w, s, c, o) <==> Exec(w, t, c, o)
    ensures Faithful(strict, t, from, r)
  {
    forall m: Mode | m.EveryResolver? ==> strict ensures Realised(m, t, from, r) {
      WiderRealised(m, s, t, from, r);
    }
  }

  /** A task that does nothing. */
  lemma FaithfulStay(strict: bool, t: Task, from: seq<FlowState>)
    requires forall w: Resolver, c, o :: Exec(w, t, c, o) <==> o == Normal(c)
    ensures Faithful(strict, t, from, FlowResult(from, [], []))
  {
    forall m: Mode ensures Realised(m, t, from, FlowResult(from, [], [])) {
      StaysRealised(m, t, from);
    }
  }

  // ----- lists -----

  function Appended(r: FlowResult, step: FlowResult): FlowResult {
    FlowResult(step.active, r.failedTerminated + step.failedTerminated, r.successfulTerminated + step.successfulTerminated)
  }

  lemma FaithfulStep(strict: bool, nodes: seq<Node>, i: nat, from: seq<FlowState>, r: FlowResult, step: FlowResult)
    requires i < |nodes| && Faithful(strict, ListTask(nodes, i), from, r)
    requires Faithful(strict, AdvanceTask(nodes, i), r.active, step)
    ensures Faithful(strict, ListTask(nodes, i + 1), from, Appended(r, step))
  {
    ListStepSound(nodes, i, from, r, step);
    ListStepUnblocked(strict, nodes, i, from, r);
    forall m: Mode | m.EveryResolver? ==> strict ensures Realised(m, ListTask(nodes, i + 1), from, Appended(r, step)) {
      ListStepRealised(m, nodes, i, from, r, step);
    }
  }

  lemma FaithfulGate(strict: bool, nodes: seq<Node>, i: nat, a: FlowState, skipped: FlowState, ran: FlowResult)
    requires i < |nodes| && a.gate == GateAt(nodes, i) && HeadsPipeline(nodes, i)
    requires GateBranches(a, strict).errors == []
    requires var b := GateBranches(a, strict);
             && (b.skip.Some? ==> Similar(skipped, b.skip.value))
             && (b.execute.Some? ==> Faithful(strict, StageTask(nodes[i], Piped(nodes, i)), [b.execute.value], ran))
    ensures FaithfulIn(strict, AdvanceTask(nodes, i), [a], GateResults(GateBranches(a, strict), skipped, ran))
  {
    var b := GateBranches(a, strict);
    var results := GateResults(b, skipped, ran);
    assert b.execute.Some? ==> ran in results;
    StepSound(nodes, i, a, strict, results, skipped);
    StepUnblocked(strict, nodes, i, a);
    forall m: Mode | m.EveryResolver? ==> strict ensures RealisedIn(m, AdvanceTask(nodes, i), [a], results) {
      if b.skip.Some? {
        SkipRealised(m, nodes, i, a, strict, skipped);
      }
      if b.execute.Some? {
        ExecuteRealised(m, nodes, i, a, strict, ran);
      }
    }
  }

  // ----- nodes -----

  lemma FaithfulNode(strict: bool, node: Node, a: FlowState, loaded: FlowState, r: FlowResult)
    requires Faithful(strict, BodyTask(node), [loaded], r)
    requires loaded == a.(builds := loaded.builds) && KeysOf(a.builds) <= KeysOf(loaded.builds)
    requires Loads(node.expansions, |node.expansions|, KeysOf(a.builds), KeysOf(loaded.builds))
    ensures Faithful(strict, NodeTask(node), [a], r)
  {
    NodeSound(node, a, loaded, r);
    NodeUnblocked(strict, node, a, loaded);
    forall m: Mode | m.EveryResolver? ==> strict ensures Realised(m, NodeTask(node), [a], r) {
      NodeRealised(m, node, a, loaded, r);
    }
  }

  lemma FaithfulStage(strict: bool, node: Node, piped: bool, from: seq<FlowState>, body: FlowResult, r: FlowResult)
    requires Faithful(strict, NodeTask(node), from, body)
    requires if ConcurrentComponent(piped, node.terminator) then Localizes(body, node.terminator, r) else r == body
    ensures Faithful(strict, StageTask(node, piped), from, r)
  {
    StageUnblocked(strict, node, piped, from);
    if ConcurrentComponent(piped, node.terminator) {
      LocalizedSound(node, piped, from, body, r);
    } else {
      PlainStage(EveryResolver, node, piped, from, body);
    }
    forall m: Mode | m.EveryResolver? ==> strict ensures Realised(m, StageTask(node, piped), from, r) {
      if ConcurrentComponent(piped, node.terminator) {
        LocalizedRealised(m, node, piped, from, body, r);
      } else {
        PlainStage(m, node, piped, from, body);
      }
    }
  }

  lemma FaithfulCommand(strict: bool, node: Node, a: FlowState)
    requires node.CommandNode? && SupportedNode(node, strict)
    requires EvaluateCommand(node.command, node.terminator, a, strict).1 == []
    ensures Faithful(strict, BodyTask(node), [a], EvaluateCommand(node.command, node.terminator, a, strict).0)
    ensures !Concurrent(node.terminator) ==> Gated(EvaluateCommand(node.command, node.terminator, a, strict).0.active, node.terminator)
  {
    var r := EvaluateCommand(node.command, node.terminator, a, strict).0;
    forall w: Resolver, c, o | CoveredBy([a], c) && Exec(w, BodyTask(node), c, o) ensures Reported(r, o) {
      CommandSound(node.command, node.terminator, a, strict, w, c, o);
    }
    CommandUnblocked(strict, node, a);
    forall m: Mode | m.EveryResolver? ==> strict ensures Realised(m, BodyTask(node), [a], r) {
      CommandRealised(m, node, a, strict);
    }
  }

  lemma FaithfulGroup(strict: bool, node: Node, a: FlowState, inner: FlowResult)
    requires node.GroupNode?
    requires Faithful(strict, ListTask(node.nodes, |node.nodes|), [a.(gate := Sequence)], inner)
    ensures Faithful(strict, BodyTask(node), [a], GroupResult(node, a, inner))
    ensures Gated(GroupResult(node, a, inner).active, node.terminator)
  {
    GroupSound(node, a, inner);
    GroupUnblocked(strict, node, a);
    forall m: Mode | m.EveryResolver? ==> strict ensures Realised(m, BodyTask(node), [a], GroupResult(node, a, inner)) {
      GroupRealised(m, node, a, inner);
    }
  }

  lemma FaithfulCase(strict: bool, node: Node, a: FlowState, selected: FlowResult)
    requires node.CaseNode? && Faithful(strict, SelectTask(node.arms, 0), [a], selected)
    ensures Faithful(strict, BodyTask(node), [a], RegatedResult(selected, node.terminator))
    ensures Gated(RegatedResult(selected, node.terminator).active, node.terminator)
  {
    RegateSound(SelectTask(node.arms, 0), [a], selected, node.terminator);
    forall w: Resolver, c, o | Exec(w, BodyTask(node), c, o) ensures Exec(w, SelectTask(node.arms, 0), c, o) {
    }
    forall m: Mode | m.EveryResolver? ==> strict ensures Realised(m, BodyTask(node), [a], RegatedResult(selected, node.terminator)) {
      CaseRealised(m, node, a, selected);
    }
  }

  // ----- case arms -----

  lemma FaithfulArm(strict: bool, arms: seq<Arm>, i: nat, from: seq<FlowState>,
                    executed: FlowResult, continuing: FlowResult)
    requires i < |arms|
    requires Faithful(strict, ListTask(arms[i].nodes, |arms[i].nodes|), Regated(from, Sequence), executed)
    requires Faithful(strict, LeaveTask(arms, i), executed.active, continuing)
    ensures FaithfulIn(strict, ArmTask(arms, i), from,
                       [continuing, FlowResult([], executed.failedTerminated, executed.successfulTerminated)])
  {
    var results := [continuing, FlowResult([], executed.failedTerminated, executed.successfulTerminated)];
    var start := Regated(from, Sequence);
    RegatedStates(from, Sequence);
    ArmSound(arms, i, from, start, executed, continuing, results);
    ArmUnblocked(strict, arms, i, from, start, executed);
    forall m: Mode | m.EveryResolver? ==> strict ensures RealisedIn(m, ArmTask(arms, i), from, results) {
      ArmRealised(m, arms, i, from, executed, continuing, results);
    }
  }

  lemma RegatedStates(states: seq<FlowState>, gate: Terminator)
    ensures Gated(Regated(states, gate), gate)
    ensures forall c :: CoveredBy(states, c) ==> CoveredBy(Regated(states, gate), c)
  {
    var regated := Regated(states, gate);
    forall c | CoveredBy(states, c) ensures CoveredBy(regated, c) {
      var k :| 0 <= k < |states| && Covers(states[k], c);
      assert regated[k] in regated && Covers(regated[k], c);
    }
  }

  /** Splitting a result in two and putting it together again loses nothing. */
  lemma FaithfulHalves(strict: bool, t: Task, from: seq<FlowState>, executed: FlowResult)
    requires FaithfulIn(strict, t, from,
                        [FlowResult(executed.active, [], []), FlowResult([], executed.failedTerminated, executed.successfulTerminated)])
    ensures Faithful(strict, t, from, executed)
  {
    var results := [FlowResult(executed.active, [], []), FlowResult([], executed.failedTerminated, executed.successfulTerminated)];
    forall w: Resolver, c, o | CoveredBy(from, c) && Exec(w, t, c, o) ensures Reported(executed, o) {
      if !o.Blocked? {
        var r :| r in results && Reported(r, o);
        WiderPart(Part(r, KindOf(o)), Part(executed, KindOf(o)), o.state);
      }
    }
    forall m: Mode | m.EveryResolver? ==> strict ensures Realised(m, t, from, executed) {
      HalvesRealised(m, t, from, results, executed);
    }
  }

  /** The arms from `start` up to `end`, each tried from the state a. */
  ghost predicate FaithfulArms(strict: bool, arms: seq<Arm>, start: nat, end: nat, a: FlowState, selected: seq<FlowResult>)
    requires start <= end <= |arms|
  {
    && (forall i | start <= i < end :: ArmCovered(arms, i, a, selected))
    && (forall i | start <= i < end :: Unblocked(strict, ArmTask(arms, i), [a]))
    && ExactIn(strict, SelectTask(arms, start), [a], selected)
  }

  lemma FaithfulNext(strict: bool, arms: seq<Arm>, start: nat, end: nat, a: FlowState,
                     selected: seq<FlowResult>, arm: FlowResult)
    requires start <= end < |arms| && NoCatchAll(arms, start, end)
    requires FaithfulArms(strict, arms, start, end, a, selected) && Faithful(strict, ArmTask(arms, end), [a], arm)
    ensures FaithfulArms(strict, arms, start, end + 1, a, selected + [arm])
  {
    forall i | start <= i < end + 1 ensures ArmCovered(arms, i, a, selected + [arm]) {
      ArmStaysCovered(arms, i, a, selected, arm);
    }
    forall m: Mode | m.EveryResolver? ==> strict ensures RealisedIn(m, SelectTask(arms, start), [a], selected + [arm]) {
      SelectedRealised(m, arms, start, end, a, arm);
    }
  }

  /** All arms that may be the first to match, and the miss where none need match. */
  lemma FaithfulSelect(strict: bool, arms: seq<Arm>, start: nat, end: nat, a: FlowState,
                       selected: seq<FlowResult>, exhaustive: bool)
    requires start <= end <= |arms| && FaithfulArms(strict, arms, start, end, a, selected)
    requires if exhaustive then end > start && arms[end - 1].catchAll else end == |arms| && NoCatchAll(arms, start, end)
    ensures FaithfulIn(strict, SelectTask(arms, start), [a],
                       if exhaustive then selected else selected + [FlowResult([a.(status := Success)], [], [])])
  {
    var miss := FlowResult([a.(status := Success)], [], []);
    var all := if exhaustive then selected else selected + [miss];
    forall i | start <= i < end ensures ArmCovered(arms, i, a, all) {
      ArmStaysCovered(arms, i, a, selected, miss);
    }
    assert NoCatchAll(arms, start, |arms|) ==> miss in all;
    SelectSound(arms, start, end, a, all);
    SelectUnblocked(strict, arms, start, end, a);
    forall m: Mode | m.EveryResolver? ==> strict ensures RealisedIn(m, SelectTask(arms, start), [a], all) {
      if !exhaustive {
        MissRealised(m, arms, start, a);
      }
    }
  }
}
