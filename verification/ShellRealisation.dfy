/** How the states of results are reached along lists, groups and case arms: whatever a resolver
    decides, or for some resolver and with exactly the builds of the state. */
module ShellRealisation {
  import opened ShellSyntax
  import opened ShellSemantics
  import opened ShellStates
  import opened ShellResolvers
  import opened ShellMerging
  import opened ShellComposition

  // ----- reaching one state from another -----

  predicate Similar(a: FlowState, b: FlowState) {
    a.outputs == b.outputs && a.status == b.status && a.builds == b.builds
  }

  lemma SimilarReach(m: Mode, t: Task, a: FlowState, b: FlowState, a': FlowState, b': FlowState, kind: Kind)
    requires Reaches(m, t, a, b, kind) && Similar(a, a') && Similar(b, b')
    ensures Reaches(m, t, a', b', kind)
  {
    forall w: Resolver, c | Stands(m, a', c) && Ends(m, w, t, c, b, kind) ensures Ends(m, w, t, c, b', kind) {
      var o :| KindOf(o) == kind && Stands(m, b, o.state) && Exec(w, t, c, o);
      assert Stands(m, b', o.state);
    }
    forall c | Stands(m, a', c) ensures Stands(m, a, c) {}
    if m.SomeResolver? {
      forall c | Stands(m, a', c) ensures exists w: Resolver :: Ends(m, w, t, c, b', kind) {
        var w: Resolver :| Ends(m, w, t, c, b, kind);
        assert Ends(m, w, t, c, b', kind);
      }
    }
  }

  /** Where t has the runs of s that end like this, it reaches what s reaches. */
  lemma WiderReach(m: Mode, s: Task, t: Task, a: FlowState, a': FlowState, kind: Kind)
    requires Reaches(m, s, a, a', kind)
    requires forall w: Resolver, c, o :: Describes(a, c) && KindOf(o) == kind && Exec(w, s, c, o) ==> Exec(w, t, c, o)
    ensures Reaches(m, t, a, a', kind)
  {
    forall w: Resolver, c | Stands(m, a, c) && Ends(m, w, s, c, a', kind) ensures Ends(m, w, t, c, a', kind) {
      var o :| KindOf(o) == kind && Stands(m, a', o.state) && Exec(w, s, c, o);
      assert Exec(w, t, c, o);
    }
    if m.SomeResolver? {
      forall c | Stands(m, a, c) ensures exists w: Resolver :: Ends(m, w, t, c, a', kind) {
        var w: Resolver :| Ends(m, w, s, c, a', kind);
        assert Ends(m, w, t, c, a', kind);
      }
    }
  }

  /** Where u runs s and then t, it reaches what t reaches from what s reaches. */
  lemma JoinedReach(m: Mode, s: Task, t: Task, u: Task, a: FlowState, b: FlowState, a': FlowState, kind: Kind)
    requires Reaches(m, s, a, b, Active) && Reaches(m, t, b, a', kind)
    requires forall w: Resolver, c, mid, o :: Exec(w, s, c, Normal(mid)) && Exec(w, t, mid, o) ==> Exec(w, u, c, o)
    ensures Reaches(m, u, a, a', kind)
  {
    if m.EveryResolver? {
      forall w: Resolver, c | Stands(m, a, c) ensures Ends(m, w, u, c, a', kind) {
        assert Ends(m, w, s, c, b, Active);
        var mid :| KindOf(mid) == Active && Stands(m, b, mid.state) && Exec(w, s, c, mid);
        assert mid == Normal(mid.state) && Ends(m, w, t, mid.state, a', kind);
        var o :| KindOf(o) == kind && Stands(m, a', o.state) && Exec(w, t, mid.state, o);
        assert Exec(w, u, c, o);
      }
    } else {
      forall c | Stands(m, a, c) ensures exists w: Resolver :: Ends(m, w, u, c, a', kind) {
        var x, mid, o := JoinedRuns(m, s, t, a, b, a', kind, c);
        assert Exec(x, u, c, o);
        assert Ends(m, x, u, c, a', kind);
      }
    }
  }

  lemma JoinedRuns(m: Mode, s: Task, t: Task, a: FlowState, b: FlowState, a': FlowState, kind: Kind, c: CState)
    returns (x: Resolver, mid: CState, o: Outcome)
    requires m.SomeResolver? && Stands(m, a, c) && Reaches(m, s, a, b, Active) && Reaches(m, t, b, a', kind)
    ensures Exec(x, s, c, Normal(mid)) && Exec(x, t, mid, o) && KindOf(o) == kind && Stands(m, a', o.state)
  {
    var w: Resolver :| Ends(m, w, s, c, b, Active);
    var first :| KindOf(first) == Active && Stands(m, b, first.state) && Exec(w, s, c, first);
    mid := first.state;
    var v: Resolver :| Ends(m, v, t, mid, a', kind);
    o :| KindOf(o) == kind && Stands(m, a', o.state) && Exec(v, t, mid, o);
    x := RunsJoin(w, v, s, c, first, t, o);
  }

  /** Where one outcome is possible under every resolver. */
  lemma DirectReach(m: Mode, t: Task, a: FlowState, a': FlowState, kind: Kind, f: CState -> Outcome)
    requires forall c :: Stands(m, a, c) ==> KindOf(f(c)) == kind && Stands(m, a', f(c).state)
    requires forall w: Resolver, c :: Stands(m, a, c) ==> Exec(w, t, c, f(c))
    ensures Reaches(m, t, a, a', kind)
  {
    forall w: Resolver, c | Stands(m, a, c) ensures Ends(m, w, t, c, a', kind) {
      assert Exec(w, t, c, f(c));
    }
    if m.SomeResolver? {
      forall c | Stands(m, a, c) ensures exists w: Resolver :: Ends(m, w, t, c, a', kind) {
        assert Ends(m, (_, _) => true, t, c, a', kind);
      }
    }
  }

  lemma StaysReach(m: Mode, t: Task, a: FlowState)
    requires forall w: Resolver, c :: Describes(a, c) ==> Exec(w, t, c, Normal(c))
    ensures Reaches(m, t, a, a, Active)
  {
    DirectReach(m, t, a, a, Active, c => Normal(c));
  }

  /** Where t has the runs that s has from a later state. */
  lemma LaterReach(m: Mode, s: Task, t: Task, a: FlowState, a': FlowState, kind: Kind, f: CState -> CState)
    requires Reaches(m, s, a, a', kind)
    requires forall c :: Stands(m, a, c) ==> Stands(m, a, f(c))
    requires forall w: Resolver, c, o :: Stands(m, a, c) && Exec(w, s, f(c), o) ==> Exec(w, t, c, o)
    ensures Reaches(m, t, a, a', kind)
  {
    forall w: Resolver, c | Stands(m, a, c) && Ends(m, w, s, f(c), a', kind) ensures Ends(m, w, t, c, a', kind) {
      var o :| KindOf(o) == kind && Stands(m, a', o.state) && Exec(w, s, f(c), o);
      assert Exec(w, t, c, o);
    }
    if m.SomeResolver? {
      forall c | Stands(m, a, c) ensures exists w: Resolver :: Ends(m, w, t, c, a', kind) {
        var w: Resolver :| Ends(m, w, s, f(c), a', kind);
        assert Ends(m, w, t, c, a', kind);
      }
    }
  }

  // ----- results -----

  lemma HoldsMore(m: Mode, small: seq<FlowState>, large: seq<FlowState>, kind: Kind, a: FlowState)
    requires Holds(m, small, kind, a) && forall b :: b in small ==> b in large
    ensures Holds(m, large, kind, a)
  {
  }

  lemma HoldsOne(m: Mode, b: FlowState, kind: Kind, a: FlowState)
    ensures Holds(m, [b], kind, a) <==> Instance(m, b, kind, a)
  {
    assert b in [b];
  }

  lemma HoldsEither(m: Mode, left: seq<FlowState>, right: seq<FlowState>, kind: Kind, a: FlowState)
    requires Holds(m, left + right, kind, a)
    ensures Holds(m, left, kind, a) || Holds(m, right, kind, a)
  {
    var b :| b in left + right && Instance(m, b, kind, a);
    assert b in left || b in right;
  }

  lemma HoldsNone(m: Mode, kind: Kind, a: FlowState)
    ensures !Holds(m, [], kind, a)
  {
  }

  lemma WiderRealised(m: Mode, s: Task, t: Task, from: seq<FlowState>, r: FlowResult)
    requires Realised(m, s, from, r)
    requires forall w: Resolver, c, o :: Exec(w, s, c, o) ==> Exec(w, t, c, o)
    ensures Realised(m, t, from, r)
  {
    forall kind, a' | Holds(m, Part(r, kind), kind, a') ensures Reached(m, t, from, a', kind) {
      assert Reached(m, s, from, a', kind);
      var a :| Holds(m, from, Active, a) && Reaches(m, s, a, a', kind);
      WiderReach(m, s, t, a, a', kind);
    }
  }

  lemma StaysRealised(m: Mode, t: Task, from: seq<FlowState>)
    requires forall w: Resolver, c :: Exec(w, t, c, Normal(c))
    ensures Realised(m, t, from, FlowResult(from, [], []))
  {
    var r := FlowResult(from, [], []);
    forall kind, a' | Holds(m, Part(r, kind), kind, a') ensures Reached(m, t, from, a', kind) {
      StaysReach(m, t, a');
    }
  }

  lemma RegatedInstance(m: Mode, states: seq<FlowState>, gate: Terminator, kind: Kind, a: FlowState) returns (b: FlowState)
    requires Holds(m, Regated(states, gate), kind, a)
    ensures Holds(m, states, kind, b) && Similar(a, b)
  {
    var x :| x in Regated(states, gate) && Instance(m, x, kind, a);
    var k :| 0 <= k < |states| && x == states[k].(gate := gate);
    b := a.(gate := states[k].gate);
    assert states[k] in states && Instance(m, states[k], kind, b);
  }

  lemma RegateRealised(m: Mode, t: Task, from: seq<FlowState>, r: FlowResult, gate: Terminator)
    requires Realised(m, t, from, r)
    ensures Realised(m, t, from, RegatedResult(r, gate))
  {
    var r' := RegatedResult(r, gate);
    forall kind, a' | Holds(m, Part(r', kind), kind, a') ensures Reached(m, t, from, a', kind) {
      if kind.Active? {
        var b := RegatedInstance(m, r.active, gate, kind, a');
        assert Holds(m, Part(r, kind), kind, b) && Reached(m, t, from, b, kind);
        var a :| Holds(m, from, Active, a) && Reaches(m, t, a, b, kind);
        SimilarReach(m, t, a, b, a, a', kind);
      } else {
        assert Holds(m, Part(r, kind), kind, a');
      }
    }
  }

  lemma RestartReached(m: Mode, t: Task, from: seq<FlowState>, gate: Terminator, a': FlowState, kind: Kind)
    requires Reached(m, t, Regated(from, gate), a', kind)
    ensures Reached(m, t, from, a', kind)
  {
    var a :| Holds(m, Regated(from, gate), Active, a) && Reaches(m, t, a, a', kind);
    var b := RegatedInstance(m, from, gate, Active, a);
    SimilarReach(m, t, a, a', b, a', kind);
  }

  // ----- merging -----

  ghost predicate RealisedIn(m: Mode, t: Task, from: seq<FlowState>, results: seq<FlowResult>) {
    forall r :: r in results ==> Realised(m, t, from, r)
  }

  lemma MergeRealised(m: Mode, t: Task, from: seq<FlowState>, results: seq<FlowResult>, merged: FlowResult)
    requires forall kind: Kind :: Merges(Gather(results, kind), Part(merged, kind))
    requires RealisedIn(m, t, from, results)
    ensures Realised(m, t, from, merged)
  {
    forall kind, a' | Holds(m, Part(merged, kind), kind, a') ensures Reached(m, t, from, a', kind) {
      var b :| b in Part(merged, kind) && Instance(m, b, kind, a');
      assert Merges(Gather(results, kind), Part(merged, kind));
      GatherHolds(results, kind, b);
      var r :| r in results && b in Part(r, kind);
      assert Realised(m, t, from, r) && Holds(m, Part(r, kind), kind, a');
    }
  }

  lemma RealisedInBoth(m: Mode, t: Task, from: seq<FlowState>, results: seq<FlowResult>, a: FlowState, more: seq<FlowResult>)
    requires RealisedIn(m, t, from, results) && RealisedIn(m, t, [a], more)
    ensures RealisedIn(m, t, from + [a], results + more)
  {
    forall r | r in results + more ensures Realised(m, t, from + [a], r) {
      forall kind, a' | Holds(m, Part(r, kind), kind, a') ensures Reached(m, t, from + [a], a', kind) {
        if r in results {
          assert Realised(m, t, from, r);
          assert Reached(m, t, from, a', kind);
          ReachedMore(m, t, from, from + [a], a', kind);
        } else {
          assert r in more && Realised(m, t, [a], r);
          assert Reached(m, t, [a], a', kind);
          ReachedMore(m, t, [a], from + [a], a', kind);
        }
      }
    }
  }

  lemma ReachedMore(m: Mode, t: Task, small: seq<FlowState>, large: seq<FlowState>, a': FlowState, kind: Kind)
    requires Reached(m, t, small, a', kind) && forall b :: b in small ==> b in large
    ensures Reached(m, t, large, a', kind)
  {
    var a :| Holds(m, small, Active, a) && Reaches(m, t, a, a', kind);
    HoldsMore(m, small, large, Active, a);
  }

  /** The two halves of a result together. */
  lemma HalvesRealised(m: Mode, t: Task, from: seq<FlowState>, results: seq<FlowResult>, executed: FlowResult)
    requires results == [FlowResult(executed.active, [], []), FlowResult([], executed.failedTerminated, executed.successfulTerminated)]
    requires RealisedIn(m, t, from, results)
    ensures Realised(m, t, from, executed)
  {
    forall kind, a' | Holds(m, Part(executed, kind), kind, a') ensures Reached(m, t, from, a', kind) {
      var r := if kind.Active? then results[0] else results[1];
      assert Realised(m, t, from, r) && Holds(m, Part(r, kind), kind, a');
    }
  }

  // ----- lists -----

  lemma ListStepRealised(m: Mode, nodes: seq<Node>, i: nat, from: seq<FlowState>, r: FlowResult, step: FlowResult)
    requires i < |nodes|
    requires Realised(m, ListTask(nodes, i), from, r)
    requires Realised(m, AdvanceTask(nodes, i), r.active, step)
    ensures Realised(m, ListTask(nodes, i + 1), from,
                     FlowResult(step.active, r.failedTerminated + step.failedTerminated, r.successfulTerminated + step.successfulTerminated))
  {
    var r' := FlowResult(step.active, r.failedTerminated + step.failedTerminated, r.successfulTerminated + step.successfulTerminated);
    forall kind, a' | Holds(m, Part(r', kind), kind, a') ensures Reached(m, ListTask(nodes, i + 1), from, a', kind) {
      if Holds(m, Part(step, kind), kind, a') {
        StepReached(m, nodes, i, from, r, a', kind);
      } else {
        HoldsEither(m, Part(r, kind), Part(step, kind), kind, a');
        EndReached(m, nodes, i, from, a', kind);
      }
    }
  }

  lemma StepReached(m: Mode, nodes: seq<Node>, i: nat, from: seq<FlowState>, r: FlowResult, a': FlowState, kind: Kind)
    requires i < |nodes| && Realised(m, ListTask(nodes, i), from, r)
    requires Reached(m, AdvanceTask(nodes, i), r.active, a', kind)
    ensures Reached(m, ListTask(nodes, i + 1), from, a', kind)
  {
    var s, t, u := ListTask(nodes, i), AdvanceTask(nodes, i), ListTask(nodes, i + 1);
    var b :| Holds(m, r.active, Active, b) && Reaches(m, t, b, a', kind);
    assert Holds(m, Part(r, Active), Active, b) && Reached(m, s, from, b, Active);
    var a :| Holds(m, from, Active, a) && Reaches(m, s, a, b, Active);
    forall w: Resolver, c, mid, o | Exec(w, s, c, Normal(mid)) && Exec(w, t, mid, o) ensures Exec(w, u, c, o) {
      ListJoins(w, nodes, i, c, Normal(mid), o);
    }
    JoinedReach(m, s, t, u, a, b, a', kind);
  }

  lemma ListJoins(w: Resolver, nodes: seq<Node>, i: nat, c: CState, mid: Outcome, o: Outcome)
    requires i < |nodes| && RunsList(w, nodes, i, c, mid) && Advances(w, nodes, i, mid, o)
    ensures RunsList(w, nodes, i + 1, c, o)
  {
  }

  lemma EndReached(m: Mode, nodes: seq<Node>, i: nat, from: seq<FlowState>, a': FlowState, kind: Kind)
    requires i < |nodes| && !kind.Active? && Reached(m, ListTask(nodes, i), from, a', kind)
    ensures Reached(m, ListTask(nodes, i + 1), from, a', kind)
  {
    var s, u := ListTask(nodes, i), ListTask(nodes, i + 1);
    var a :| Holds(m, from, Active, a) && Reaches(m, s, a, a', kind);
    forall w: Resolver, c, o | Describes(a, c) && KindOf(o) == kind && Exec(w, s, c, o) ensures Exec(w, u, c, o) {
      ListJoins(w, nodes, i, c, o, o);
    }
    WiderReach(m, s, u, a, a', kind);
  }

  // ----- gates -----

  lemma SkipRealised(m: Mode, nodes: seq<Node>, i: nat, a: FlowState, strict: bool, skipped: FlowState)
    requires i < |nodes| && a.gate == GateAt(nodes, i) && HeadsPipeline(nodes, i) && (m.EveryResolver? ==> strict)
    requires var b := GateBranches(a, strict); b.errors == [] && b.skip.Some? && Similar(skipped, b.skip.value)
    ensures Realised(m, AdvanceTask(nodes, i), [a], FlowResult([skipped], [], []))
  {
    var t := AdvanceTask(nodes, i);
    var r := FlowResult([skipped], [], []);
    forall kind, a' | Holds(m, Part(r, kind), kind, a') ensures Reached(m, t, [a], a', kind) {
      HoldsOne(m, skipped, kind, a');
      var b := a.(status := a'.status);
      HoldsOne(m, a, Active, b);
      forall w: Resolver, c | Stands(m, b, c) ensures Exec(w, t, c, Normal(Passed(nodes, i, c))) {
        assert Skips(nodes, i, c);
      }
      DirectReach(m, t, b, a', Active, c => Normal(Passed(nodes, i, c)));
    }
  }

  lemma ExecuteRealised(m: Mode, nodes: seq<Node>, i: nat, a: FlowState, strict: bool, r: FlowResult)
    requires i < |nodes| && a.gate == GateAt(nodes, i) && (m.EveryResolver? ==> strict)
    requires var b := GateBranches(a, strict);
             b.errors == [] && b.execute.Some? && Realised(m, StageTask(nodes[i], Piped(nodes, i)), [b.execute.value], r)
    ensures Realised(m, AdvanceTask(nodes, i), [a], r)
  {
    var executed := GateBranches(a, strict).execute.value;
    var s, t := StageTask(nodes[i], Piped(nodes, i)), AdvanceTask(nodes, i);
    forall kind, a' | Holds(m, Part(r, kind), kind, a') ensures Reached(m, t, [a], a', kind) {
      assert Reached(m, s, [executed], a', kind);
      var b :| Holds(m, [executed], Active, b) && Reaches(m, s, b, a', kind);
      HoldsOne(m, executed, Active, b);
      HoldsOne(m, a, Active, b);
      EnteredReach(m, nodes, i, a, strict, b, a', kind);
    }
  }

  lemma EnteredReach(m: Mode, nodes: seq<Node>, i: nat, a: FlowState, strict: bool, b: FlowState, a': FlowState, kind: Kind)
    requires i < |nodes| && a.gate == GateAt(nodes, i) && (m.EveryResolver? ==> strict)
    requires var g := GateBranches(a, strict); g.errors == [] && g.execute.Some? && Instance(m, g.execute.value, Active, b)
    requires Reaches(m, StageTask(nodes[i], Piped(nodes, i)), b, a', kind)
    ensures Reaches(m, AdvanceTask(nodes, i), b, a', kind)
  {
    var s, t := StageTask(nodes[i], Piped(nodes, i)), AdvanceTask(nodes, i);
    forall c | Stands(m, b, c) ensures Stands(m, b, Entered(nodes, i, c)) && !Skips(nodes, i, c) {
    }
    forall w: Resolver, c, o | Stands(m, b, c) && Exec(w, s, Entered(nodes, i, c), o) ensures Exec(w, t, c, o) {
    }
    LaterReach(m, s, t, b, a', kind, c => Entered(nodes, i, c));
  }

  // ----- nodes -----

  lemma CaseRealised(m: Mode, node: Node, a: FlowState, selected: FlowResult)
    requires node.CaseNode?
    requires Realised(m, SelectTask(node.arms, 0), [a], selected)
    ensures Realised(m, BodyTask(node), [a], RegatedResult(selected, node.terminator))
  {
    var s := SelectTask(node.arms, 0);
    RegateRealised(m, s, [a], selected, node.terminator);
    WiderRealised(m, s, BodyTask(node), [a], RegatedResult(selected, node.terminator));
  }

  // ----- components of pipelines and background lists -----

  /** Whatever status a component leaves, a run of it that gets to the state leaves. */
  lemma LocalizedRealised(m: Mode, node: Node, piped: bool, from: seq<FlowState>, evaluated: FlowResult, r: FlowResult)
    requires ConcurrentComponent(piped, node.terminator) && Localizes(evaluated, node.terminator, r)
    requires Realised(m, NodeTask(node), from, evaluated)
    ensures Realised(m, StageTask(node, piped), from, r)
  {
    var kept :| Merges(AllStates(evaluated), kept) && LocalizedAll(kept, node.terminator, r.active);
    forall kind, a' | Holds(m, Part(r, kind), kind, a') ensures Reached(m, StageTask(node, piped), from, a', kind) {
      if !kind.Active? { HoldsNone(m, kind, a'); }
      var x :| x in r.active && Instance(m, x, Active, a');
      var k :| 0 <= k < |kept| && r.active[k] == x;
      var b, from' := KeptInstance(m, evaluated, kept, k);
      assert Reached(m, NodeTask(node), from, b, from');
      var a :| Holds(m, from, Active, a) && Reaches(m, NodeTask(node), a, b, from');
      StageReach(m, node, piped, a, b, from', a');
    }
  }

  lemma KeptInstance(m: Mode, evaluated: FlowResult, kept: seq<FlowState>, k: nat) returns (b: FlowState, kind: Kind)
    requires Merges(AllStates(evaluated), kept) && k < |kept|
    ensures Holds(m, Part(evaluated, kind), kind, b) && !kind.Stopped? && b.outputs == kept[k].outputs && b.builds == kept[k].builds
  {
    var s := kept[k];
    assert s in kept && s in AllStates(evaluated);
    kind := if s in evaluated.active then Active else if s in evaluated.failedTerminated then Failed else Successful;
    b := if m.EveryResolver? then s
         else s.(status := match kind case Active => (if s.status.Unknown? then Success else s.status)
                                      case Failed => Failure
                                      case Successful => Success);
    assert s in Part(evaluated, kind) && Instance(m, s, kind, b);
  }

  lemma StageReach(m: Mode, node: Node, piped: bool, a: FlowState, b: FlowState, kind: Kind, a': FlowState)
    requires ConcurrentComponent(piped, node.terminator) && Reaches(m, NodeTask(node), a, b, kind) && !kind.Stopped?
    requires a'.outputs == b.outputs && a'.builds == b.builds
    requires node.terminator.Background? ==> a'.status.Success?
    requires m.EveryResolver? && !node.terminator.Background? ==> a'.status.Unknown?
    ensures Reaches(m, StageTask(node, piped), a, a', Active)
  {
    var s, t := NodeTask(node), StageTask(node, piped);
    var left := !a'.status.Failure?;
    forall w: Resolver, c | Stands(m, a, c) && Ends(m, w, s, c, b, kind) ensures Ends(m, w, t, c, a', Active) {
      var e :| KindOf(e) == kind && Stands(m, b, e.state) && Exec(w, s, c, e);
      var o := Normal(e.state.(status := left, free := !node.terminator.Background?));
      assert RunsNode(w, node, c, e) && Leaves(node.terminator, e, left, o);
      assert Exec(w, t, c, o) && Stands(m, a', o.state);
    }
    if m.SomeResolver? {
      forall c | Stands(m, a, c) ensures exists w: Resolver :: Ends(m, w, t, c, a', Active) {
        var w: Resolver :| Ends(m, w, s, c, b, kind);
        assert Ends(m, w, t, c, a', Active);
      }
    }
  }

  /** A node that is no concurrent component is its stage. */
  lemma PlainStage(m: Mode, node: Node, piped: bool, from: seq<FlowState>, r: FlowResult)
    requires !ConcurrentComponent(piped, node.terminator)
    ensures Sound(NodeTask(node), from, r) ==> Sound(StageTask(node, piped), from, r)
    ensures Realised(m, NodeTask(node), from, r) ==> Realised(m, StageTask(node, piped), from, r)
  {
    if Sound(NodeTask(node), from, r) {
      forall w: Resolver, c, o | CoveredBy(from, c) && Exec(w, StageTask(node, piped), c, o) ensures Reported(r, o) {
        assert Exec(w, NodeTask(node), c, o);
      }
    }
    if Realised(m, NodeTask(node), from, r) {
      WiderRealised(m, NodeTask(node), StageTask(node, piped), from, r);
    }
  }

  // ----- commands -----

  ghost function CommandRun(w: Resolver, command: Command, c: CState): (o: Outcome)
    ensures RunsCommand(w, command, c, o) && !o.Blocked?
  {
    match command
    case AssignOutput(key, value) =>
      Normal(c.(status := true, free := false, outputs := c.outputs[key := value], clock := c.clock + 1))
    case Simple(_, _, _, _, _, _) => Concluded(w, command, c, c.builds + KeysOf(command.builds))
  }

  /** Every state a command leads to is reached. */
  lemma CommandRealised(m: Mode, node: Node, a: FlowState, strict: bool)
    requires node.CommandNode? && (m.EveryResolver? ==> strict) && (strict || !HidesControl(node.command))
    requires EvaluateCommand(node.command, node.terminator, a, strict).1 == []
    ensures Realised(m, BodyTask(node), [a], EvaluateCommand(node.command, node.terminator, a, strict).0)
  {
    var r := EvaluateCommand(node.command, node.terminator, a, strict).0;
    var t := BodyTask(node);
    forall kind, a' | Holds(m, Part(r, kind), kind, a') ensures Reached(m, t, [a], a', kind) {
      if m.EveryResolver? {
        HoldsOne(m, a, Active, a);
        forall w: Resolver, c | Stands(m, a, c) ensures Ends(m, w, t, c, a', kind) {
          CommandRunMatches(node.command, node.terminator, a, w, c, kind, a');
          assert Exec(w, t, c, CommandRun(w, node.command, c));
        }
      } else {
        var known := if a.status.Unknown? then a.(status := Success) else a;
        HoldsOne(m, a, Active, known);
        forall c | Stands(m, known, c) ensures exists w: Resolver :: Ends(m, w, t, c, a', kind) {
          var w := SomeRunMatches(node.command, node.terminator, a, strict, m, c, kind, a');
          assert Exec(w, t, c, CommandRun(w, node.command, c));
          assert Ends(m, w, t, c, a', kind);
        }
      }
    }
  }

  lemma CommandRunMatches(command: Command, terminator: Terminator, a: FlowState, w: Resolver, c: CState, kind: Kind, a': FlowState)
    requires EvaluateCommand(command, terminator, a, true).1 == []
    requires Agrees(a, c)
    requires a' in Part(EvaluateCommand(command, terminator, a, true).0, kind)
    ensures KindOf(CommandRun(w, command, c)) == kind && Agrees(a', CommandRun(w, command, c).state)
  {
    if command.AssignOutput? {
      ContinuedPart(a.(outputs := a.outputs[command.key := command.value], status := Success), terminator, kind, a');
    } else if command.executable.Terminate? {
      var status := TerminationMatches(command, terminator, a, true, w, c);
      TerminatedPart(a.(builds := a.builds + command.builds, status := status), kind, a');
    } else {
      var updated := a.(builds := a.builds + command.builds, status := FinalStatus(command));
      if command.replacesShell {
        ReplacedPart(command, updated, kind, a');
      } else {
        ContinuedPart(updated, terminator, kind, a');
      }
      FinalAdmits(w, command, c, CommandRun(w, command, c));
    }
  }

  /** A termination that is not hidden ends with the status that is evaluated. */
  lemma TerminationMatches(command: Command, terminator: Terminator, a: FlowState, strict: bool, w: Resolver, c: CState)
    returns (status: Status)
    requires command.Simple? && command.executable.Terminate? && (strict || !HidesControl(command))
    requires EvaluateCommand(command, terminator, a, strict).1 == [] && Describes(a, c)
    ensures !status.Unknown? && EvaluateCommand(command, terminator, a, strict).0 ==
                                  TerminatedWith(a.(builds := a.builds + command.builds, status := status))
    ensures var o := CommandRun(w, command, c);
            o == Exited(o.state) && o.state.status == status.Success? && o.state.outputs == c.outputs
            && (o.state.free ==> c.free && !a.status.Unknown?) && !o.state.passing && o.state.builds == c.builds + KeysOf(command.builds)
  {
    status := TerminationStatus(command.executable.argument, a.status).0.value;
    if command.executable.argument.Numeric? {
      WrappedExitIsModulo(command.executable.argument.code);
    }
  }

  /** A resolver under which a command runs to an instance of a state it leads to. */
  lemma SomeRunMatches(command: Command, terminator: Terminator, a: FlowState, strict: bool, m: Mode, c: CState, kind: Kind, a': FlowState)
    returns (w: Resolver)
    requires strict || !HidesControl(command)
    requires EvaluateCommand(command, terminator, a, strict).1 == []
    requires m.SomeResolver? && Describes(a, c) && (m.key in KeysOf(a.builds) ==> m.key in c.builds)
    requires Holds(m, Part(EvaluateCommand(command, terminator, a, strict).0, kind), kind, a')
    ensures KindOf(CommandRun(w, command, c)) == kind && Stands(m, a', CommandRun(w, command, c).state)
  {
    if command.AssignOutput? {
      w := (_, _) => true;
      ContinuedInstance(m, a.(outputs := a.outputs[command.key := command.value], status := Success), terminator, strict, kind, a');
    } else if command.executable.Terminate? {
      w := (_, _) => true;
      KeysOfConcat(a.builds, command.builds);
      var status := TerminationMatches(command, terminator, a, strict, w, c);
      TerminatedInstance(m, a.(builds := a.builds + command.builds, status := status), kind, a');
    } else {
      w := ResolvedRun(command, terminator, a, strict, m, c, kind, a');
    }
  }

  lemma ResolvedRun(command: Command, terminator: Terminator, a: FlowState, strict: bool, m: Mode, c: CState, kind: Kind, a': FlowState)
    returns (w: Resolver)
    requires command.Simple? && !command.executable.Terminate?
    requires EvaluateCommand(command, terminator, a, strict).1 == []
    requires m.SomeResolver? && Describes(a, c) && (m.key in KeysOf(a.builds) ==> m.key in c.builds)
    requires Holds(m, Part(EvaluateCommand(command, terminator, a, strict).0, kind), kind, a')
    ensures KindOf(CommandRun(w, command, c)) == kind && Stands(m, a', CommandRun(w, command, c).state)
  {
    var v := a'.status.Success? != command.negated;
    w := (_, _) => v;
    KeysOfConcat(a.builds, command.builds);
    var updated := a.(builds := a.builds + command.builds, status := FinalStatus(command));
    if command.replacesShell {
      ReplacedInstance(m, command, updated, strict, kind, a');
    } else {
      ContinuedInstance(m, updated, terminator, strict, kind, a');
    }
    ResolvedStatus(command, c, v);
  }

  lemma TerminatedInstance(m: Mode, updated: FlowState, kind: Kind, a': FlowState)
    requires m.SomeResolver? && !updated.status.Unknown? && Holds(m, Part(TerminatedWith(updated), kind), kind, a')
    ensures a' == updated && kind == if updated.status.Success? then Successful else Failed
  {
  }

  lemma ContinuedInstance(m: Mode, updated: FlowState, terminator: Terminator, strict: bool, kind: Kind, a': FlowState)
    requires m.SomeResolver? && Holds(m, Part(Continued(updated, terminator, strict).0, kind), kind, a')
    ensures kind == Active && (a'.status == updated.status || updated.status.Unknown?)
    ensures a'.outputs == updated.outputs && a'.builds == updated.builds
  {
  }

  lemma ReplacedInstance(m: Mode, command: Command, updated: FlowState, strict: bool, kind: Kind, a': FlowState)
    requires m.SomeResolver? && command.Simple? && Holds(m, Part(Replaced(command, updated, strict).0, kind), kind, a')
    ensures !command.negated && kind == (if a'.status.Success? then Successful else Failed)
    ensures !a'.status.Unknown? && Admits(updated.status, a'.status.Success?)
    ensures a'.outputs == updated.outputs && a'.builds == updated.builds
  {
  }

  lemma ResolvedStatus(command: Command, c: CState, v: bool)
    requires command.Simple? && !command.executable.Terminate? && Admits(PlainStatus(command), v)
    ensures StatusOf((_, _) => v, command, c) == v
  {
  }

  lemma TerminatedPart(updated: FlowState, kind: Kind, a': FlowState)
    requires a' in Part(TerminatedWith(updated), kind)
    ensures a' == updated && kind == if updated.status.Success? then Successful else Failed
  {
  }

  lemma ReplacedPart(command: Command, updated: FlowState, kind: Kind, a': FlowState)
    requires command.Simple?
    requires a' in Part(Replaced(command, updated, true).0, kind) && Replaced(command, updated, true).1 == []
    ensures a' == updated && kind == if updated.status.Success? then Successful else Failed
    ensures !updated.status.Unknown? && !command.negated
  {
    TerminatedPart(updated, kind, a');
  }

  lemma ContinuedPart(updated: FlowState, terminator: Terminator, kind: Kind, a': FlowState)
    requires a' in Part(Continued(updated, terminator, true).0, kind)
    ensures kind == Active && a' == updated.(gate := SettledGate(terminator))
  {
  }

  // ----- groups -----

  function LeavesGroup(node: Node, x: Outcome): Outcome
    requires node.GroupNode?
  {
    if node.subshell then Absorbs(x) else x
  }

  /** What the inside of a group reaches, its outside reaches: a subshell turns an end into a status. */
  lemma GroupReach(m: Mode, node: Node, a: FlowState, b: FlowState, from: Kind, a': FlowState, kind: Kind)
    requires node.GroupNode? && Reaches(m, ListTask(node.nodes, |node.nodes|), a, b, from)
    requires kind == if node.subshell && !from.Stopped? then Active else from
    requires forall x {:trigger LeavesGroup(node, x)} ::
               KindOf(x) == from && Stands(m, b, x.state) ==> Stands(m, a', LeavesGroup(node, x).state)
    ensures Reaches(m, BodyTask(node), a, a', kind)
  {
    var s, t := ListTask(node.nodes, |node.nodes|), BodyTask(node);
    forall w: Resolver, c | Stands(m, a, c) && Ends(m, w, s, c, b, from) ensures Ends(m, w, t, c, a', kind) {
      var x :| KindOf(x) == from && Stands(m, b, x.state) && Exec(w, s, c, x);
      var o := LeavesGroup(node, x);
      assert RunsList(w, node.nodes, |node.nodes|, c, x);
      assert Exec(w, t, c, o) && KindOf(o) == kind && Stands(m, a', o.state);
    }
    if m.SomeResolver? {
      forall c | Stands(m, a, c) ensures exists w: Resolver :: Ends(m, w, t, c, a', kind) {
        var w: Resolver :| Ends(m, w, s, c, b, from);
        assert Ends(m, w, t, c, a', kind);
      }
    }
  }

  /** Where an instance of an absorbed state comes from. */
  lemma AbsorbedInstance(m: Mode, r: FlowResult, a': FlowState) returns (kind: Kind, b: FlowState)
    requires Holds(m, Absorbed(r).active, Active, a')
    ensures Holds(m, Part(r, kind), kind, b) && !kind.Stopped?
    ensures forall x :: KindOf(x) == kind && Stands(m, b, x.state) ==> Stands(m, a', Absorbs(x).state)
  {
    var x :| x in Absorbed(r).active && Instance(m, x, Active, a');
    kind, b := AbsorbedMembers(r, x);
    if m.SomeResolver? {
      assert Instance(m, b, kind, a');
      b := a';
    } else {
      assert Instance(m, b, kind, b);
    }
  }

  lemma InnerRealised(m: Mode, node: Node, a: FlowState, inner: FlowResult)
    requires node.GroupNode?
    requires Realised(m, ListTask(node.nodes, |node.nodes|), [a.(gate := Sequence)], inner)
    ensures Realised(m, BodyTask(node), [a], if node.subshell then Absorbed(inner) else inner)
  {
    var s, t := ListTask(node.nodes, |node.nodes|), BodyTask(node);
    var absorbed := if node.subshell then Absorbed(inner) else inner;
    forall kind, a' | Holds(m, Part(absorbed, kind), kind, a') ensures Reached(m, t, [a], a', kind) {
      var from, b := kind, a';
      if node.subshell {
        if !kind.Active? { HoldsNone(m, kind, a'); }
        from, b := AbsorbedInstance(m, inner, a');
      }
      assert Reached(m, s, [a.(gate := Sequence)], b, from);
      assert [a.(gate := Sequence)] == Regated([a], Sequence);
      RestartReached(m, s, [a], Sequence, b, from);
      var start :| Holds(m, [a], Active, start) && Reaches(m, s, start, b, from);
      GroupReach(m, node, start, b, from, a', kind);
    }
  }

  /** A redirection that fails keeps the group from running. */
  lemma RedirectionFails(m: Mode, node: Node, a: FlowState, a': FlowState, kind: Kind)
    requires node.GroupNode? && node.redirection
    requires Holds(m, [a.(gate := node.terminator, status := Failure)], kind, a') && kind.Active?
    ensures Reached(m, BodyTask(node), [a], a', kind)
  {
    HoldsOne(m, a.(gate := node.terminator, status := Failure), kind, a');
    var known := if m.EveryResolver? || !a.status.Unknown? then a else a.(status := Success);
    HoldsOne(m, a, Active, known);
    DirectReach(m, BodyTask(node), known, a', Active, (c: CState) => Normal(c.(status := false, free := false)));
  }

  lemma GroupRealised(m: Mode, node: Node, a: FlowState, inner: FlowResult)
    requires node.GroupNode?
    requires Realised(m, ListTask(node.nodes, |node.nodes|), [a.(gate := Sequence)], inner)
    ensures Realised(m, BodyTask(node), [a], GroupResult(node, a, inner))
  {
    var t := BodyTask(node);
    var absorbed := if node.subshell then Absorbed(inner) else inner;
    InnerRealised(m, node, a, inner);
    RegateRealised(m, t, [a], absorbed, node.terminator);
    var regated := RegatedResult(absorbed, node.terminator);
    if node.redirection {
      var r := GroupResult(node, a, inner);
      forall kind, a' | Holds(m, Part(r, kind), kind, a') ensures Reached(m, t, [a], a', kind) {
        if kind.Active? && !Holds(m, regated.active, kind, a') {
          HoldsEither(m, regated.active, [a.(gate := node.terminator, status := Failure)], kind, a');
          RedirectionFails(m, node, a, a', kind);
        } else {
          assert Holds(m, Part(regated, kind), kind, a');
        }
      }
    }
  }

  // ----- case arms -----

  lemma ArmRealised(m: Mode, arms: seq<Arm>, i: nat, from: seq<FlowState>, executed: FlowResult,
                    continuing: FlowResult, results: seq<FlowResult>)
    requires i < |arms|
    requires Realised(m, ListTask(arms[i].nodes, |arms[i].nodes|), Regated(from, Sequence), executed)
    requires Realised(m, LeaveTask(arms, i), executed.active, continuing)
    requires results == [continuing, FlowResult([], executed.failedTerminated, executed.successfulTerminated)]
    ensures RealisedIn(m, ArmTask(arms, i), from, results)
  {
    var s, t := ListTask(arms[i].nodes, |arms[i].nodes|), ArmTask(arms, i);
    forall r | r in results ensures Realised(m, t, from, r) {
      forall kind, a' | Holds(m, Part(r, kind), kind, a') ensures Reached(m, t, from, a', kind) {
        if r == continuing {
          assert Reached(m, LeaveTask(arms, i), executed.active, a', kind);
          LeaveReached(m, arms, i, from, executed, a', kind);
        } else {
          if kind.Active? { HoldsNone(m, kind, a'); }
          assert Holds(m, Part(executed, kind), kind, a') && Reached(m, s, Regated(from, Sequence), a', kind);
          ExitReached(m, arms, i, from, a', kind);
        }
      }
    }
  }

  lemma LeaveReached(m: Mode, arms: seq<Arm>, i: nat, from: seq<FlowState>, executed: FlowResult, a': FlowState, kind: Kind)
    requires i < |arms| && Realised(m, ListTask(arms[i].nodes, |arms[i].nodes|), Regated(from, Sequence), executed)
    requires Reached(m, LeaveTask(arms, i), executed.active, a', kind)
    ensures Reached(m, ArmTask(arms, i), from, a', kind)
  {
    var s, l, t := ListTask(arms[i].nodes, |arms[i].nodes|), LeaveTask(arms, i), ArmTask(arms, i);
    var b :| Holds(m, executed.active, Active, b) && Reaches(m, l, b, a', kind);
    assert Holds(m, Part(executed, Active), Active, b);
    assert Reached(m, s, Regated(from, Sequence), b, Active);
    RestartReached(m, s, from, Sequence, b, Active);
    var a :| Holds(m, from, Active, a) && Reaches(m, s, a, b, Active);
    forall w: Resolver, c, mid, o | Exec(w, s, c, Normal(mid)) && Exec(w, l, mid, o) ensures Exec(w, t, c, o) {
      assert RunsList(w, arms[i].nodes, |arms[i].nodes|, c, Normal(mid)) && LeavesArm(w, arms, i, Normal(mid), o);
    }
    JoinedReach(m, s, l, t, a, b, a', kind);
  }

  lemma ExitReached(m: Mode, arms: seq<Arm>, i: nat, from: seq<FlowState>, a': FlowState, kind: Kind)
    requires i < |arms| && !kind.Active?
    requires Reached(m, ListTask(arms[i].nodes, |arms[i].nodes|), Regated(from, Sequence), a', kind)
    ensures Reached(m, ArmTask(arms, i), from, a', kind)
  {
    var s, t := ListTask(arms[i].nodes, |arms[i].nodes|), ArmTask(arms, i);
    RestartReached(m, s, from, Sequence, a', kind);
    var a :| Holds(m, from, Active, a) && Reaches(m, s, a, a', kind);
    forall w: Resolver, c, o | Describes(a, c) && KindOf(o) == kind && Exec(w, s, c, o) ensures Exec(w, t, c, o) {
      assert RunsList(w, arms[i].nodes, |arms[i].nodes|, c, o) && LeavesArm(w, arms, i, o, o);
    }
    WiderReach(m, s, t, a, a', kind);
  }

  lemma SelectedRealised(m: Mode, arms: seq<Arm>, start: nat, i: nat, a: FlowState, r: FlowResult)
    requires start <= i < |arms| && NoCatchAll(arms, start, i)
    requires Realised(m, ArmTask(arms, i), [a], r)
    ensures Realised(m, SelectTask(arms, start), [a], r)
  {
    WiderRealised(m, ArmTask(arms, i), SelectTask(arms, start), [a], r);
  }

  lemma MissRealised(m: Mode, arms: seq<Arm>, start: nat, a: FlowState)
    requires start <= |arms| && NoCatchAll(arms, start, |arms|)
    ensures Realised(m, SelectTask(arms, start), [a], FlowResult([a.(status := Success)], [], []))
  {
    var missed := a.(status := Success);
    var t := SelectTask(arms, start);
    var r := FlowResult([missed], [], []);
    forall kind, a' | Holds(m, Part(r, kind), kind, a') ensures Reached(m, t, [a], a', kind) {
      HoldsOne(m, missed, kind, a');
      var known := if m.EveryResolver? || !a.status.Unknown? then a else missed;
      HoldsOne(m, a, Active, known);
      DirectReach(m, t, known, a', Active, (c: CState) => Normal(c.(status := true, free := false)));
    }
  }
}
