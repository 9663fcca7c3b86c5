/** Lists of commands whose statuses are not known, joined in any way: of the states that reach one of them,
    some state has run every command before it. */
module ShellPlainLists {
  import opened ShellSyntax
  import opened ShellSemantics
  import opened ShellStates
  import opened ShellMerging
  import opened ShellComposition
  import opened ShellBounds

  /** A command that the shell goes on after, with a status that is not known. */
  predicate Plain(node: Node) {
    node.CommandNode? && node.command.Simple? && PlainStatus(node.command).Unknown? && !EndsShell(node.command)
  }

  predicate AllPlain(nodes: seq<Node>) {
    forall i | 0 <= i < |nodes| :: Plain(nodes[i])
  }

  /** The builds of the first n commands. */
  function BuildsUpTo(nodes: seq<Node>, n: nat): set<BuildKey>
    requires n <= |nodes| && AllPlain(nodes)
  {
    if n == 0 then {} else BuildsUpTo(nodes, n - 1) + KeysOf(nodes[n - 1].command.builds)
  }

  /** The state does not have to pass the next node by. */
  predicate Proceeds(a: FlowState) {
    a.status.Unknown? || (!a.gate.And? && !a.gate.Or?)
  }

  /** A state with these builds goes on. */
  ghost predicate Carries(states: seq<FlowState>, keys: set<BuildKey>) {
    exists a :: a in states && Proceeds(a) && keys <= KeysOf(a.builds)
  }

  ghost predicate CarriesIn(results: seq<FlowResult>, keys: set<BuildKey>) {
    exists r :: r in results && Carries(r.active, keys)
  }

  /** A plain command goes on from every state. */
  lemma CommandCarries(node: Node, state: FlowState, strict: bool)
    requires Plain(node) && EvaluateCommand(node.command, node.terminator, state, strict).1 == []
    ensures var r := EvaluateCommand(node.command, node.terminator, state, strict).0;
            |r.active| == 1 && r.active[0].status.Unknown? && r.active[0].builds == state.builds + node.command.builds
  {
  }

  lemma StageCarries(node: Node, piped: bool, body: FlowResult, r: FlowResult, keys: set<BuildKey>)
    requires |body.active| == 1 && body.active[0].status.Unknown? && keys <= KeysOf(body.active[0].builds)
    requires if ConcurrentComponent(piped, node.terminator) then Localizes(body, node.terminator, r) else r == body
    ensures Carries(r.active, keys)
  {
    var a := body.active[0];
    if ConcurrentComponent(piped, node.terminator) {
      var kept :| Merges(AllStates(body), kept) && LocalizedAll(kept, node.terminator, r.active);
      assert a in AllStates(body) && IdentityOf(a) in Identities(kept);
      var k :| 0 <= k < |kept| && IdentityOf(kept[k]) == IdentityOf(a);
      IdenticalStates(kept[k], a);
      assert r.active[k] in r.active;
    } else {
      assert a in r.active;
    }
  }

  /** A state that goes on runs the next node. */
  lemma GateCarries(b: Branches, state: FlowState, strict: bool, skipped: FlowState, ran: FlowResult, keys: set<BuildKey>)
    requires b == GateBranches(state, strict) && Proceeds(state) && (b.execute.Some? ==> Carries(ran.active, keys))
    ensures CarriesIn(GateResults(b, skipped, ran), keys)
  {
    assert ran in GateResults(b, skipped, ran);
  }

  lemma MergedCarries(results: seq<FlowResult>, merged: FlowResult, keys: set<BuildKey>)
    requires CarriesIn(results, keys) && forall kind: Kind :: Merges(Gather(results, kind), Part(merged, kind))
    ensures Carries(merged.active, keys)
  {
    var r :| r in results && Carries(r.active, keys);
    var a :| a in r.active && Proceeds(a) && keys <= KeysOf(a.builds);
    assert a in Part(r, Active);
    GatherHolds(results, Active, a);
    assert Merges(Gather(results, Active), Part(merged, Active));
    assert IdentityOf(a) in Identities(merged.active);
    var u :| u in merged.active && IdentityOf(u) == IdentityOf(a);
    IdenticalStates(u, a);
  }

  /** Every state that goes on does so with these builds too. */
  ghost predicate CarryOn(active: seq<FlowState>, results: seq<FlowResult>, more: set<BuildKey>) {
    forall a | a in active && Proceeds(a) :: CarriesIn(results, KeysOf(a.builds) + more)
  }

  lemma CarryOnBoth(active: seq<FlowState>, before: seq<FlowResult>, a: FlowState, results: seq<FlowResult>, more: set<BuildKey>)
    requires CarryOn(active, before, more) && (Proceeds(a) ==> CarriesIn(results, KeysOf(a.builds) + more))
    ensures CarryOn(active + [a], before + results, more)
  {
    forall b | b in active + [a] && Proceeds(b) ensures CarriesIn(before + results, KeysOf(b.builds) + more) {
      if b in active {
        assert CarriesIn(before, KeysOf(b.builds) + more);
      }
      var r :| (r in before || r in results) && Carries(r.active, KeysOf(b.builds) + more);
      assert r in before + results;
    }
  }

  /** What one state carries on, all states together do. */
  lemma StatesCarry(active: seq<FlowState>, results: seq<FlowResult>, merged: FlowResult, keys: set<BuildKey>, more: set<BuildKey>)
    requires CarryOn(active, results, more)
    requires Carries(active, keys) && forall kind: Kind :: Merges(Gather(results, kind), Part(merged, kind))
    ensures Carries(merged.active, keys + more)
  {
    var a :| a in active && Proceeds(a) && keys <= KeysOf(a.builds);
    assert CarriesIn(results, KeysOf(a.builds) + more);
    MergedCarries(results, merged, KeysOf(a.builds) + more);
    var b :| b in merged.active && Proceeds(b) && KeysOf(a.builds) + more <= KeysOf(b.builds);
  }

  // ----- commands one after the other, in strict mode -----

  /** A command that can be read, without a redirection or a substitution, after which the list goes on or ends. */
  predicate Straight(node: Node) {
    && node.CommandNode? && node.expansions == [] && (node.terminator.Sequence? || node.terminator.End?)
    && (node.command.Simple? ==> !node.command.redirected && !Unreadable(node.command) && !EndsShell(node.command))
  }

  predicate AllStraight(nodes: seq<Node>) {
    forall i | 0 <= i < |nodes| :: Straight(nodes[i])
  }

  /** An assignment of an output, or a command whose status is known. */
  predicate Known(command: Command) {
    command.Simple? ==> !command.redirected && command.executable.Run? && !command.executable.effect.Opaque?
  }

  /** Such a list runs to its end, and only its last command decides whether its status is known. */
  lemma {:induction false} StraightRuns(w: Resolver, nodes: seq<Node>, n: nat, c: CState, o: Outcome)
    requires n <= |nodes| && AllStraight(nodes) && !c.passing && RunsList(w, nodes, n, c, o)
    ensures o.Normal? && !o.state.passing && (n > 0 && Known(nodes[n - 1].command) ==> !o.state.free)
    decreases n
  {
    if n > 0 {
      var i := n - 1;
      var m :| RunsList(w, nodes, i, c, m) && Advances(w, nodes, i, m, o);
      StraightRuns(w, nodes, i, c, m);
      assert i > 0 ==> Straight(nodes[i - 1]);
      assert RunsStage(w, nodes[i], false, m.state, o);
      StraightNode(w, nodes[i], m.state, o);
    }
  }

  lemma StraightNode(w: Resolver, node: Node, c: CState, o: Outcome)
    requires Straight(node) && !c.passing && RunsStage(w, node, false, c, o)
    ensures o.Normal? && !o.state.passing && (Known(node.command) ==> !o.state.free)
  {
    assert RunsNode(w, node, c, o);
    if BlocksWithin(w, node.expansions, c, o) {
      NothingWithin(w, c, o);
    } else {
      var c' :| Substitutes(w, node.expansions, 0, c, c') && RunsBody(w, node, c', o);
      assert RunsCommand(w, node.command, c, o);
    }
  }

  lemma NothingWithin(w: Resolver, c: CState, o: Outcome)
    ensures !BlocksWithin(w, [], c, o)
  {
  }

  lemma {:induction false} StraightGrowth(nodes: seq<Node>, n: nat)
    requires n <= |nodes| && AllStraight(nodes)
    ensures Growth(nodes, n, true) == 1
    decreases n
  {
    if n > 0 {
      assert Straight(nodes[n - 1]);
      StraightGrowth(nodes, n - 1);
    }
  }

  lemma StraightIsPlain(nodes: seq<Node>)
    requires AllStraight(nodes)
    ensures !UsesExpansions(nodes) && !UsesConcurrentControl(nodes) && !UsesGroupRedirection(nodes)
    ensures WithinLimits(nodes, true, 0) && Growth(nodes, |nodes|, true) == 1
  {
    StraightGrowth(nodes, |nodes|);
    forall i | 0 <= i < |nodes| ensures NodeWithinLimits(nodes[i], true, 0) {
      assert Straight(nodes[i]);
    }
  }
}
