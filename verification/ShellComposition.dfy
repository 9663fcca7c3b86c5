/** How soundness composes along lists, groups and case arms. */
module ShellComposition {
  import opened ShellSyntax
  import opened ShellSemantics
  import opened ShellStates
  import opened ShellMerging

  /** The gate behind a node; what starts in the background is not waited for. */
  function GateAfter(terminator: Terminator): Terminator {
    if terminator.Background? then Sequence else terminator
  }

  /** The gate of every state that is about to run node i of a supported list. */
  function GateAt(nodes: seq<Node>, i: nat): Terminator
    requires i <= |nodes|
  {
    if i == 0 then Sequence else GateAfter(nodes[i - 1].terminator)
  }

  ghost predicate Gated(states: seq<FlowState>, gate: Terminator) {
    forall s :: s in states ==> s.gate == gate
  }

  function Regated(states: seq<FlowState>, gate: Terminator): (regated: seq<FlowState>)
    ensures |regated| == |states|
    ensures forall i | 0 <= i < |states| :: regated[i] == states[i].(gate := gate)
  {
    seq(|states|, i requires 0 <= i < |states| => states[i].(gate := gate))
  }

  function RegatedResult(r: FlowResult, gate: Terminator): FlowResult {
    r.(active := Regated(r.active, gate))
  }

  lemma RegateSound(t: Task, from: seq<FlowState>, r: FlowResult, gate: Terminator)
    requires Sound(t, from, r)
    ensures Sound(t, from, RegatedResult(r, gate))
  {
    var r' := RegatedResult(r, gate);
    forall w: Resolver, c, o | CoveredBy(from, c) && Exec(w, t, c, o) ensures Reported(r', o) {
      assert Reported(r, o);
      if o.Normal? {
        var k :| 0 <= k < |r.active| && Covers(r.active[k], o.state);
        assert r'.active[k] in r'.active && Covers(r'.active[k], o.state);
      }
    }
  }

  // ----- lists -----

  lemma ListStepSound(nodes: seq<Node>, i: nat, from: seq<FlowState>, r: FlowResult, m: FlowResult)
    requires i < |nodes|
    requires Sound(ListTask(nodes, i), from, r)
    requires Sound(AdvanceTask(nodes, i), r.active, m)
    ensures Sound(ListTask(nodes, i + 1), from,
                  FlowResult(m.active, r.failedTerminated + m.failedTerminated, r.successfulTerminated + m.successfulTerminated))
  {
    var r' := FlowResult(m.active, r.failedTerminated + m.failedTerminated, r.successfulTerminated + m.successfulTerminated);
    var t := ListTask(nodes, i + 1);
    forall w: Resolver, c, o | CoveredBy(from, c) && Exec(w, t, c, o) ensures Reported(r', o) {
      assert RunsList(w, nodes, i + 1, c, o);
      var mid :| RunsList(w, nodes, i, c, mid) && Advances(w, nodes, i, mid, o);
      assert Exec(w, ListTask(nodes, i), c, mid);
      assert Reported(r, mid);
      if mid.Exited? {
        WiderPart(Part(r, KindOf(o)), Part(r', KindOf(o)), o.state);
      } else if !o.Blocked? {
        assert Exec(w, AdvanceTask(nodes, i), mid.state, o);
        assert Reported(m, o);
        WiderPart(Part(m, KindOf(o)), Part(r', KindOf(o)), o.state);
      }
    }
  }

  lemma WiderPart(small: seq<FlowState>, large: seq<FlowState>, c: CState)
    requires CoveredBy(small, c)
    requires forall a :: a in small ==> a in large
    ensures CoveredBy(large, c)
  {
  }

  // ----- gates -----

  lemma StepSound(nodes: seq<Node>, i: nat, a: FlowState, strict: bool, results: seq<FlowResult>, skipped: FlowState)
    requires i < |nodes| && a.gate == GateAt(nodes, i) && HeadsPipeline(nodes, i)
    requires var b := GateBranches(a, strict);
             && (b.skip.Some? ==>
                   && skipped.outputs == b.skip.value.outputs && skipped.status == b.skip.value.status
                   && skipped.builds == b.skip.value.builds
                   && FlowResult([skipped], [], []) in results)
             && (b.execute.Some? ==> exists r :: r in results && Sound(StageTask(nodes[i], Piped(nodes, i)), [b.execute.value], r))
    ensures SoundIn(AdvanceTask(nodes, i), [a], results)
  {
    var b := GateBranches(a, strict);
    forall w: Resolver, c, o | CoveredBy([a], c) && Exec(w, AdvanceTask(nodes, i), c, o) ensures ReportedIn(results, o) {
      BranchCovers(nodes, i, a, strict, c);
      if !o.Blocked? && Skips(nodes, i, c) {
        assert Covers(skipped, o.state);
        ReportedAlone(skipped, o);
        assert FlowResult([skipped], [], []) in results;
      } else if !o.Blocked? {
        var r :| r in results && Sound(StageTask(nodes[i], Piped(nodes, i)), [b.execute.value], r);
        assert b.execute.value in [b.execute.value] && Exec(w, StageTask(nodes[i], Piped(nodes, i)), Entered(nodes, i, c), o);
        assert Reported(r, o);
      }
    }
  }

  /** The branch of the gate that a run takes stands for its state. */
  lemma BranchCovers(nodes: seq<Node>, i: nat, a: FlowState, strict: bool, c: CState)
    requires i < |nodes| && a.gate == GateAt(nodes, i) && HeadsPipeline(nodes, i) && CoveredBy([a], c)
    ensures var b := GateBranches(a, strict);
            if Skips(nodes, i, c) then b.skip.Some? && Covers(b.skip.value, Passed(nodes, i, c))
            else b.execute.Some? && Covers(b.execute.value, Entered(nodes, i, c))
  {
    assert Covers(a, c);
  }

  lemma ReportedAlone(a: FlowState, o: Outcome)
    requires Covers(a, o.state) && o.Normal?
    ensures Reported(FlowResult([a], [], []), o)
  {
    assert a in Part(FlowResult([a], [], []), KindOf(o));
  }

  // ----- nodes -----

  predicate SameStatus(c: CState, c': CState) {
    c'.status == c.status && c'.free == c.free && c'.passing == c.passing
  }

  /** What the substitutions before a node may change: they only perform builds. */
  ghost predicate Collects(programs: seq<Program>, n: nat, found: set<BuildKey>)
    requires n <= |programs|
  {
    forall w: Resolver, c, c' :: Substitutes(w, programs, n, c, c') ==>
      c'.outputs == c.outputs && SameStatus(c, c') && c'.builds <= c.builds + found
  }

  lemma WithinIsBlocked(w: Resolver, programs: seq<Program>, c: CState, o: Outcome)
    requires BlocksWithin(w, programs, c, o)
    ensures o.Blocked? && !o.strictly
  {
    var i, m :| 0 <= i < |programs| && Substitutes(w, programs, i, c, m) && BlocksInside(w, programs[i], m, o);
  }

  lemma NodeSound(node: Node, a: FlowState, loaded: FlowState, r: FlowResult)
    requires Sound(BodyTask(node), [loaded], r)
    requires loaded.outputs == a.outputs && loaded.status == a.status
    requires KeysOf(a.builds) <= KeysOf(loaded.builds)
    requires Collects(node.expansions, |node.expansions|, KeysOf(loaded.builds))
    ensures Sound(NodeTask(node), [a], r)
  {
    forall w: Resolver, c, o | CoveredBy([a], c) && Exec(w, NodeTask(node), c, o) ensures Reported(r, o) {
      assert RunsNode(w, node, c, o);
      if BlocksWithin(w, node.expansions, c, o) {
        WithinIsBlocked(w, node.expansions, c, o);
      } else {
        var c' :| Substitutes(w, node.expansions, |node.expansions|, c, c') && RunsBody(w, node, c', o);
        assert loaded in [loaded] && Covers(loaded, c');
        assert Exec(w, BodyTask(node), c', o);
      }
    }
  }

  // ----- components of pipelines and background lists -----

  /** What a state of a concurrent component goes on as: its status is not known, or not waited for. */
  function Localized(state: FlowState, terminator: Terminator): FlowState {
    state.(gate := GateAfter(terminator), status := if terminator.Background? then Success else Unknown)
  }

  function AllStates(r: FlowResult): seq<FlowState> {
    r.active + r.failedTerminated + r.successfulTerminated
  }

  /** Each state of the component, ended or not, goes on, one for every identity. */
  ghost predicate Localizes(evaluated: FlowResult, terminator: Terminator, r: FlowResult) {
    && r.failedTerminated == [] && r.successfulTerminated == []
    && exists kept :: Merges(AllStates(evaluated), kept) && LocalizedAll(kept, terminator, r.active)
  }

  predicate LocalizedAll(kept: seq<FlowState>, terminator: Terminator, localized: seq<FlowState>) {
    |localized| == |kept| && forall k | 0 <= k < |kept| :: localized[k] == Localized(kept[k], terminator)
  }

  lemma LocalizedSound(node: Node, piped: bool, from: seq<FlowState>, evaluated: FlowResult, r: FlowResult)
    requires ConcurrentComponent(piped, node.terminator) && Localizes(evaluated, node.terminator, r)
    requires Sound(NodeTask(node), from, evaluated)
    ensures Sound(StageTask(node, piped), from, r)
  {
    var kept :| Merges(AllStates(evaluated), kept) && LocalizedAll(kept, node.terminator, r.active);
    forall w: Resolver, c, o | CoveredBy(from, c) && Exec(w, StageTask(node, piped), c, o) ensures Reported(r, o) {
      var e, s: bool :| RunsNode(w, node, c, e) && Leaves(node.terminator, e, s, o);
      assert Exec(w, NodeTask(node), c, e);
      assert Reported(evaluated, e);
      if !o.Blocked? {
        WiderPart(Part(evaluated, KindOf(e)), AllStates(evaluated), e.state);
        MergeCovers(AllStates(evaluated), kept, e.state);
        LocalizedReports(kept, node.terminator, r, e, s, o);
      }
    }
  }

  lemma LocalizedReports(kept: seq<FlowState>, terminator: Terminator, r: FlowResult, e: Outcome, s: bool, o: Outcome)
    requires CoveredBy(kept, e.state) && LocalizedAll(kept, terminator, r.active) && Leaves(terminator, e, s, o) && !o.Blocked?
    ensures Reported(r, o)
  {
    var k :| 0 <= k < |kept| && Covers(kept[k], e.state);
    assert r.active[k] in r.active && Covers(r.active[k], o.state);
  }

  // ----- groups -----

  /** The active states of a group: a subshell turns the end of its shell into a status. */
  function Absorbed(r: FlowResult): FlowResult {
    FlowResult(r.active + WithStatus(r.successfulTerminated, Success) + WithStatus(r.failedTerminated, Failure), [], [])
  }

  function WithStatus(states: seq<FlowState>, status: Status): (changed: seq<FlowState>)
    ensures |changed| == |states|
    ensures forall i | 0 <= i < |states| :: changed[i] == states[i].(status := status)
  {
    seq(|states|, i requires 0 <= i < |states| => states[i].(status := status))
  }

  lemma AbsorbedMembers(r: FlowResult, a': FlowState) returns (kind: Kind, b: FlowState)
    requires a' in Absorbed(r).active
    ensures b in Part(r, kind) && a' == (if kind.Active? then b else b.(status := if kind.Successful? then Success else Failure))
  {
    if a' in r.active {
      return Active, a';
    } else if a' in WithStatus(r.successfulTerminated, Success) {
      var i :| 0 <= i < |r.successfulTerminated| && a' == WithStatus(r.successfulTerminated, Success)[i];
      return Successful, r.successfulTerminated[i];
    } else {
      var i :| 0 <= i < |r.failedTerminated| && a' == WithStatus(r.failedTerminated, Failure)[i];
      return Failed, r.failedTerminated[i];
    }
  }

  lemma AbsorbedReports(r: FlowResult, o: Outcome)
    requires Reported(r, o)
    ensures Reported(Absorbed(r), Absorbs(o))
  {
    if o.Blocked? { return; }
    var a :| a in Part(r, KindOf(o)) && Covers(a, o.state);
    if o.Normal? {
      assert a in Absorbed(r).active;
    } else {
      var status := if o.state.status then Success else Failure;
      var i :| 0 <= i < |Part(r, KindOf(o))| && Part(r, KindOf(o))[i] == a;
      var changed := WithStatus(Part(r, KindOf(o)), status);
      assert changed[i] in changed;
      assert changed[i] in Absorbed(r).active && Covers(changed[i], Absorbs(o).state);
    }
  }

  function GroupResult(node: Node, executing: FlowState, inner: FlowResult): FlowResult
    requires node.GroupNode?
  {
    var absorbed := if node.subshell then Absorbed(inner) else inner;
    var regated := RegatedResult(absorbed, node.terminator);
    if node.redirection then
      regated.(active := regated.active + [executing.(gate := node.terminator, status := Failure)])
    else regated
  }

  lemma GroupSound(node: Node, a: FlowState, inner: FlowResult)
    requires node.GroupNode?
    requires Sound(ListTask(node.nodes, |node.nodes|), [a.(gate := Sequence)], inner)
    ensures Sound(BodyTask(node), [a], GroupResult(node, a, inner))
  {
    var start := a.(gate := Sequence);
    var t := ListTask(node.nodes, |node.nodes|);
    var absorbed := if node.subshell then Absorbed(inner) else inner;
    var regated := RegatedResult(absorbed, node.terminator);
    var r := GroupResult(node, a, inner);
    var failed := a.(gate := node.terminator, status := Failure);
    forall w: Resolver, c, o | CoveredBy([a], c) && Exec(w, BodyTask(node), c, o) ensures Reported(r, o) {
      assert RunsBody(w, node, c, o);
      if node.redirection && o == Normal(c.(status := false, free := false)) {
        assert failed in r.active && Covers(failed, o.state);
      } else {
        var m :| RunsList(w, node.nodes, |node.nodes|, c, m) && o == (if node.subshell then Absorbs(m) else m);
        assert start in [start] && Covers(start, c);
        assert Exec(w, t, c, m);
        assert Reported(inner, m);
        if node.subshell {
          AbsorbedReports(inner, m);
        }
        if !o.Blocked? {
          RegateReports(absorbed, node.terminator, o);
          WiderPart(Part(regated, KindOf(o)), Part(r, KindOf(o)), o.state);
        }
      }
    }
  }

  lemma RegateReports(r: FlowResult, gate: Terminator, o: Outcome)
    requires Reported(r, o) && !o.Blocked?
    ensures Reported(RegatedResult(r, gate), o)
  {
    if o.Normal? {
      var k :| 0 <= k < |r.active| && Covers(r.active[k], o.state);
      assert RegatedResult(r, gate).active[k] in RegatedResult(r, gate).active;
    }
  }

  // ----- case arms -----

  lemma ArmSound(arms: seq<Arm>, i: nat, from: seq<FlowState>, start: seq<FlowState>, executed: FlowResult,
                 continuing: FlowResult, results: seq<FlowResult>)
    requires i < |arms|
    requires forall c :: CoveredBy(from, c) ==> CoveredBy(start, c)
    requires Sound(ListTask(arms[i].nodes, |arms[i].nodes|), start, executed)
    requires Sound(LeaveTask(arms, i), executed.active, continuing)
    requires continuing in results && FlowResult([], executed.failedTerminated, executed.successfulTerminated) in results
    ensures SoundIn(ArmTask(arms, i), from, results)
  {
    var ended := FlowResult([], executed.failedTerminated, executed.successfulTerminated);
    forall w: Resolver, c, o | CoveredBy(from, c) && Exec(w, ArmTask(arms, i), c, o) ensures ReportedIn(results, o) {
      assert RunsArm(w, arms, i, c, o);
      var m :| RunsList(w, arms[i].nodes, |arms[i].nodes|, c, m) && LeavesArm(w, arms, i, m, o);
      assert Exec(w, ListTask(arms[i].nodes, |arms[i].nodes|), c, m);
      assert Reported(executed, m);
      if m.Exited? {
        assert Part(ended, KindOf(o)) == Part(executed, KindOf(o));
        assert Reported(ended, o);
      } else if m.Normal? {
        assert Exec(w, LeaveTask(arms, i), m.state, o);
        assert Reported(continuing, o);
      }
    }
  }

  /** Some of the results stands for every run of arm i from the state a. */
  ghost predicate ArmCovered(arms: seq<Arm>, i: nat, a: FlowState, results: seq<FlowResult>) {
    exists r :: r in results && Sound(ArmTask(arms, i), [a], r)
  }

  lemma ArmStaysCovered(arms: seq<Arm>, i: nat, a: FlowState, results: seq<FlowResult>, more: FlowResult)
    ensures ArmCovered(arms, i, a, results) ==> ArmCovered(arms, i, a, results + [more])
    ensures Sound(ArmTask(arms, i), [a], more) ==> ArmCovered(arms, i, a, results + [more])
  {
    assert more in results + [more];
    if ArmCovered(arms, i, a, results) {
      var r :| r in results && Sound(ArmTask(arms, i), [a], r);
      assert r in results + [more];
    }
  }

  lemma SelectSound(arms: seq<Arm>, start: nat, end: nat, a: FlowState, selected: seq<FlowResult>)
    requires start <= end <= |arms|
    requires forall i | start <= i < end :: ArmCovered(arms, i, a, selected)
    requires (end < |arms| ==> end > start && arms[end - 1].catchAll)
    requires NoCatchAll(arms, start, |arms|) ==> FlowResult([a.(status := Success)], [], []) in selected
    ensures SoundIn(SelectTask(arms, start), [a], selected)
  {
    forall w: Resolver, c, o | CoveredBy([a], c) && Exec(w, SelectTask(arms, start), c, o) ensures ReportedIn(selected, o) {
      if i :| start <= i < |arms| && NoCatchAll(arms, start, i) && RunsArm(w, arms, i, c, o) {
        assert i < end && ArmCovered(arms, i, a, selected);
        var r :| r in selected && Sound(ArmTask(arms, i), [a], r);
        assert Exec(w, ArmTask(arms, i), c, o);
        assert Reported(r, o);
      } else {
        var missed := a.(status := Success);
        var r := FlowResult([missed], [], []);
        assert missed in Part(r, KindOf(o)) && Covers(missed, o.state);
        assert Reported(r, o);
      }
    }
  }
}
