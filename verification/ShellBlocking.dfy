/** Runs that are blocked: which tasks have none, and which have one from every state that is described. */
module ShellBlocking {
  import opened ShellSyntax
  import opened ShellSemantics
  import opened ShellStates
  import opened ShellMerging
  import opened ShellComposition
  import opened ShellRealisation
  import opened ShellSubstitution

  predicate Blocks(strict: bool, o: Outcome) {
    o.Blocked? && (o.strictly ==> strict)
  }

  /** No run of t is blocked. */
  ghost predicate Unblocked(strict: bool, t: Task, from: seq<FlowState>) {
    forall w: Resolver, c, o :: CoveredBy(from, c) && Exec(w, t, c, o) ==> !Blocks(strict, o)
  }

  /** In strict mode runs are blocked whatever a resolver decides, else for some resolver. */
  function ModeOf(strict: bool): Mode {
    if strict then EveryResolver else SomeResolver(("", ""))
  }

  predicate StopsAs(strict: bool, kind: Kind) {
    kind.Stopped? && (kind.strictly ==> strict)
  }

  /** From any state that one of those given stands for, some run of t is blocked. */
  ghost predicate Stops(strict: bool, t: Task, from: seq<FlowState>) {
    exists kind, a' :: StopsAs(strict, kind) && Reached(ModeOf(strict), t, from, a', kind)
  }

  // ----- both, from task to task -----

  lemma StopsBy(strict: bool, t: Task, a: FlowState, b: FlowState, kind: Kind, a': FlowState)
    requires Instance(ModeOf(strict), a, Active, b) && Reaches(ModeOf(strict), t, b, a', kind) && StopsAs(strict, kind)
    ensures Stops(strict, t, [a])
  {
    HoldsOne(ModeOf(strict), a, Active, b);
    assert Reached(ModeOf(strict), t, [a], a', kind);
  }

  lemma UnblockedInBoth(strict: bool, t: Task, from: seq<FlowState>, a: FlowState)
    requires Unblocked(strict, t, from) && Unblocked(strict, t, [a])
    ensures Unblocked(strict, t, from + [a])
  {
    forall w: Resolver, c, o | CoveredBy(from + [a], c) && Exec(w, t, c, o) ensures !Blocks(strict, o) {
      var b :| b in from + [a] && Covers(b, c);
      if b in from {
        assert CoveredBy(from, c);
      } else {
        assert b in [a] && CoveredBy([a], c);
      }
    }
  }

  lemma StopsInBoth(strict: bool, t: Task, from: seq<FlowState>, a: FlowState)
    requires Stops(strict, t, from) || Stops(strict, t, [a])
    ensures Stops(strict, t, from + [a])
  {
    var small := if Stops(strict, t, from) then from else [a];
    var kind, a' :| StopsAs(strict, kind) && Reached(ModeOf(strict), t, small, a', kind);
    ReachedMore(ModeOf(strict), t, small, from + [a], a', kind);
  }

  lemma StopsWider(strict: bool, s: Task, t: Task, from: seq<FlowState>)
    requires Stops(strict, s, from)
    requires forall w: Resolver, c, o :: KindOf(o).Stopped? && Exec(w, s, c, o) ==> Exec(w, t, c, o)
    ensures Stops(strict, t, from)
  {
    var kind, a' :| StopsAs(strict, kind) && Reached(ModeOf(strict), s, from, a', kind);
    var a :| Holds(ModeOf(strict), from, Active, a) && Reaches(ModeOf(strict), s, a, a', kind);
    WiderReach(ModeOf(strict), s, t, a, a', kind);
    assert Reached(ModeOf(strict), t, from, a', kind);
  }

  // ----- lists -----

  lemma ListStepUnblocked(strict: bool, nodes: seq<Node>, i: nat, from: seq<FlowState>, r: FlowResult)
    requires i < |nodes| && Sound(ListTask(nodes, i), from, r)
    requires Unblocked(strict, ListTask(nodes, i), from) && Unblocked(strict, AdvanceTask(nodes, i), r.active)
    ensures Unblocked(strict, ListTask(nodes, i + 1), from)
  {
    var t := ListTask(nodes, i + 1);
    forall w: Resolver, c, o | CoveredBy(from, c) && Exec(w, t, c, o) ensures !Blocks(strict, o) {
      assert RunsList(w, nodes, i + 1, c, o);
      var mid :| RunsList(w, nodes, i, c, mid) && Advances(w, nodes, i, mid, o);
      assert Exec(w, ListTask(nodes, i), c, mid);
      assert Reported(r, mid);
      if mid.Normal? {
        assert CoveredBy(r.active, mid.state) && Exec(w, AdvanceTask(nodes, i), mid.state, o);
      }
    }
  }

  lemma ListStops(strict: bool, nodes: seq<Node>, i: nat, from: seq<FlowState>, r: FlowResult, clear: bool)
    requires i < |nodes|
    requires if clear then Realised(ModeOf(strict), ListTask(nodes, i), from, r) && Stops(strict, AdvanceTask(nodes, i), r.active)
             else Stops(strict, ListTask(nodes, i), from)
    ensures Stops(strict, ListTask(nodes, i + 1), from)
  {
    var t := ListTask(nodes, i + 1);
    if clear {
      var kind, a' :| StopsAs(strict, kind) && Reached(ModeOf(strict), AdvanceTask(nodes, i), r.active, a', kind);
      StepReached(ModeOf(strict), nodes, i, from, r, a', kind);
      assert Reached(ModeOf(strict), t, from, a', kind);
    } else {
      var kind, a' :| StopsAs(strict, kind) && Reached(ModeOf(strict), ListTask(nodes, i), from, a', kind);
      EndReached(ModeOf(strict), nodes, i, from, a', kind);
      assert Reached(ModeOf(strict), t, from, a', kind);
    }
  }

  // ----- gates -----

  lemma StepUnblocked(strict: bool, nodes: seq<Node>, i: nat, a: FlowState)
    requires i < |nodes| && a.gate == GateAt(nodes, i) && HeadsPipeline(nodes, i)
    requires var b := GateBranches(a, strict);
             b.errors == [] && (b.execute.Some? ==> Unblocked(strict, StageTask(nodes[i], Piped(nodes, i)), [b.execute.value]))
    ensures Unblocked(strict, AdvanceTask(nodes, i), [a])
  {
    var b := GateBranches(a, strict);
    var s := StageTask(nodes[i], Piped(nodes, i));
    forall w: Resolver, c, o | CoveredBy([a], c) && Exec(w, AdvanceTask(nodes, i), c, o) ensures !Blocks(strict, o) {
      assert Covers(a, c);
      BranchCovers(nodes, i, a, strict, c);
      if !Skips(nodes, i, c) && !(Gate(nodes, i) && c.free && o == Blocked(c, true)) {
        assert b.execute.value in [b.execute.value] && CoveredBy([b.execute.value], Entered(nodes, i, c));
        assert Exec(w, s, Entered(nodes, i, c), o);
      }
    }
  }

  /** The gate asks. */
  lemma GateStops(nodes: seq<Node>, i: nat, a: FlowState)
    requires i < |nodes| && a.gate == GateAt(nodes, i) && GateBranches(a, true).errors != []
    ensures Stops(true, AdvanceTask(nodes, i), [a])
  {
    DirectReach(EveryResolver, AdvanceTask(nodes, i), a, a, Stopped(true), c => Blocked(c, true));
    StopsBy(true, AdvanceTask(nodes, i), a, a, Stopped(true), a);
  }

  lemma StepStops(strict: bool, nodes: seq<Node>, i: nat, a: FlowState)
    requires i < |nodes| && a.gate == GateAt(nodes, i)
    requires var b := GateBranches(a, strict);
             b.errors == [] && b.execute.Some? && Stops(strict, StageTask(nodes[i], Piped(nodes, i)), [b.execute.value])
    ensures Stops(strict, AdvanceTask(nodes, i), [a])
  {
    var m, s := ModeOf(strict), StageTask(nodes[i], Piped(nodes, i));
    var executed := GateBranches(a, strict).execute.value;
    var kind, a' :| StopsAs(strict, kind) && Reached(m, s, [executed], a', kind);
    var b :| Holds(m, [executed], Active, b) && Reaches(m, s, b, a', kind);
    HoldsOne(m, executed, Active, b);
    HoldsOne(m, a, Active, b);
    EnteredReach(m, nodes, i, a, strict, b, a', kind);
    StopsBy(strict, AdvanceTask(nodes, i), a, b, kind, a');
  }

  // ----- nodes -----

  lemma StageUnblocked(strict: bool, node: Node, piped: bool, from: seq<FlowState>)
    requires Unblocked(strict, NodeTask(node), from)
    ensures Unblocked(strict, StageTask(node, piped), from)
  {
    forall w: Resolver, c, o | CoveredBy(from, c) && Exec(w, StageTask(node, piped), c, o) ensures !Blocks(strict, o) {
      if ConcurrentComponent(piped, node.terminator) {
        var e, s: bool :| RunsNode(w, node, c, e) && Leaves(node.terminator, e, s, o);
        assert Exec(w, NodeTask(node), c, e);
      } else {
        assert Exec(w, NodeTask(node), c, o);
      }
    }
  }

  lemma NodeUnblocked(strict: bool, node: Node, a: FlowState, loaded: FlowState)
    requires Unblocked(strict, BodyTask(node), [loaded])
    requires loaded.outputs == a.outputs && loaded.status == a.status && KeysOf(a.builds) <= KeysOf(loaded.builds)
    requires Collects(node.expansions, |node.expansions|, KeysOf(loaded.builds))
    requires forall i | 0 <= i < |node.expansions| :: Quiet(node.expansions[i])
    ensures Unblocked(strict, NodeTask(node), [a])
  {
    forall w: Resolver, c, o | CoveredBy([a], c) && Exec(w, NodeTask(node), c, o) ensures !Blocks(strict, o) {
      assert RunsNode(w, node, c, o);
      if BlocksWithin(w, node.expansions, c, o) {
        QuietWithin(w, node.expansions, c, o);
        assert false;
      } else {
        var c' :| Substitutes(w, node.expansions, |node.expansions|, c, c') && RunsBody(w, node, c', o);
        assert loaded in [loaded] && Covers(loaded, c');
        assert Exec(w, BodyTask(node), c', o);
      }
    }
  }

  /** What blocks a node blocks it as a component of its list. */
  lemma StageStops(strict: bool, node: Node, piped: bool, from: seq<FlowState>)
    requires Stops(strict, NodeTask(node), from)
    ensures Stops(strict, StageTask(node, piped), from)
  {
    forall w: Resolver, c, o | Exec(w, NodeTask(node), c, o) && o.Blocked? ensures Exec(w, StageTask(node, piped), c, o) {
      assert RunsNode(w, node, c, o) && Leaves(node.terminator, o, true, o);
    }
    StopsWider(strict, NodeTask(node), StageTask(node, piped), from);
  }

  lemma NodeStops(strict: bool, node: Node, a: FlowState, loaded: FlowState)
    requires Stops(strict, BodyTask(node), [loaded]) && loaded == a.(builds := loaded.builds)
    requires Loads(node.expansions, |node.expansions|, KeysOf(a.builds), KeysOf(loaded.builds))
    ensures Stops(strict, NodeTask(node), [a])
  {
    var kind, a' :| StopsAs(strict, kind) && Reached(ModeOf(strict), BodyTask(node), [loaded], a', kind);
    NodeReached(ModeOf(strict), node, a, loaded, a', kind);
  }

  /** What blocks a substitution blocks the node. */
  lemma DisturbedStops(node: Node, a: FlowState)
    requires Disturbs(node.expansions)
    ensures Stops(false, NodeTask(node), [a])
  {
    var m := ModeOf(false);
    forall c | Stands(m, a, c) ensures exists w: Resolver :: Ends(m, w, NodeTask(node), c, a, Stopped(false)) {
      assert DisturbsFrom(node.expansions, c);
      var w: Resolver, o :| BlocksWithin(w, node.expansions, c, o) && AlwaysBlocked(o) && OnlyBuilds(c, o.state);
      assert RunsNode(w, node, c, o);
      assert Ends(m, w, NodeTask(node), c, a, Stopped(false));
    }
    StopsBy(false, NodeTask(node), a, a, Stopped(false), a);
  }

  // ----- bodies -----

  lemma CommandUnblocked(strict: bool, node: Node, a: FlowState)
    requires node.CommandNode? && (strict || !HidesControl(node.command))
    requires EvaluateCommand(node.command, node.terminator, a, strict).1 == []
    ensures Unblocked(strict, BodyTask(node), [a])
  {
    forall w: Resolver, c, o | CoveredBy([a], c) && Exec(w, BodyTask(node), c, o) ensures !Blocks(strict, o) {
      if o.Blocked? {
        RunUnblocked(strict, node.command, node.terminator, a, w, c, o);
      }
    }
  }

  lemma RunUnblocked(strict: bool, command: Command, terminator: Terminator, a: FlowState, w: Resolver, c: CState, o: Outcome)
    requires strict || !HidesControl(command)
    requires EvaluateCommand(command, terminator, a, strict).1 == []
    requires CoveredBy([a], c) && RunsCommand(w, command, c, o) && o.Blocked?
    ensures !Blocks(strict, o)
  {
    assert Covers(a, c);
    UnderstoodCommand(strict, command, terminator, a);
    if EndsShell(command) && FreeStatus(command, c) {
      KnownEnd(strict, command, terminator, a, c);
    }
  }

  lemma UnderstoodCommand(strict: bool, command: Command, terminator: Terminator, a: FlowState)
    requires EvaluateCommand(command, terminator, a, strict).1 == []
    ensures command.Simple? ==> !Unreadable(command) && (strict ==> !command.redirected)
  {
  }

  lemma KnownEnd(strict: bool, command: Command, terminator: Terminator, a: FlowState, c: CState)
    requires command.Simple? && EndsShell(command) && Covers(a, c) && (strict || !HidesControl(command))
    requires EvaluateCommand(command, terminator, a, strict).1 == []
    ensures FreeStatus(command, c) ==> !strict && !command.executable.Terminate?
  {
  }

  lemma CommandStops(strict: bool, node: Node, a: FlowState)
    requires node.CommandNode? && (strict ==> !Concurrent(node.terminator))
    requires EvaluateCommand(node.command, node.terminator, a, strict).1 != []
    ensures Stops(strict, BodyTask(node), [a])
  {
    var m, command := ModeOf(strict), node.command;
    var strictly := ErrorBlocks(strict, command, node.terminator, a);
    forall w: Resolver, c | Stands(m, a, c) ensures RunsCommand(w, command, c, Blocked(c, strictly)) {
    }
    DirectReach(m, BodyTask(node), a, a, Stopped(strictly), c => Blocked(c, strictly));
    StopsBy(strict, BodyTask(node), a, a, Stopped(strictly), a);
  }

  /** What is behind an error of a command. */
  lemma ErrorBlocks(strict: bool, command: Command, terminator: Terminator, a: FlowState) returns (strictly: bool)
    requires EvaluateCommand(command, terminator, a, strict).1 != [] && (strict ==> !Concurrent(terminator))
    ensures command.Simple? && (strictly ==> strict)
    ensures || (Unreadable(command) && !strictly)
            || (command.redirected && strictly)
            || (command.executable.Terminate? && !strictly && command.executable.argument.Inherited? && a.status.Unknown?)
            || (!command.executable.Terminate? && strictly && command.replacesShell && FreeEffect(command))
  {
    if strict && command.redirected {
      strictly := true;
    } else if Unreadable(command) {
      strictly := false;
    } else {
      strictly := !command.executable.Terminate?;
    }
  }

  /** The status of the command, which is no exit, is for the resolver to decide. */
  ghost predicate FreeEffect(command: Command)
    requires command.Simple?
  {
    forall c: CState :: FreeStatus(command, c)
  }

  lemma GroupUnblocked(strict: bool, node: Node, a: FlowState)
    requires node.GroupNode? && Unblocked(strict, ListTask(node.nodes, |node.nodes|), [a.(gate := Sequence)])
    ensures Unblocked(strict, BodyTask(node), [a])
  {
    var start := a.(gate := Sequence);
    forall w: Resolver, c, o | CoveredBy([a], c) && Exec(w, BodyTask(node), c, o) ensures !Blocks(strict, o) {
      assert RunsBody(w, node, c, o);
      if !(node.redirection && o == Normal(c.(status := false, free := false))) {
        var m :| RunsList(w, node.nodes, |node.nodes|, c, m) && o == (if node.subshell then Absorbs(m) else m);
        assert start in [start] && Covers(start, c);
        assert Exec(w, ListTask(node.nodes, |node.nodes|), c, m);
      }
    }
  }

  lemma GroupStops(strict: bool, node: Node, a: FlowState)
    requires node.GroupNode? && Stops(strict, ListTask(node.nodes, |node.nodes|), [a.(gate := Sequence)])
    ensures Stops(strict, BodyTask(node), [a])
  {
    var m, t := ModeOf(strict), ListTask(node.nodes, |node.nodes|);
    var kind, a' :| StopsAs(strict, kind) && Reached(m, t, [a.(gate := Sequence)], a', kind);
    assert [a.(gate := Sequence)] == Regated([a], Sequence);
    RestartReached(m, t, [a], Sequence, a', kind);
    var start :| Holds(m, [a], Active, start) && Reaches(m, t, start, a', kind);
    GroupReach(m, node, start, a', kind, a', kind);
    assert Reached(m, BodyTask(node), [a], a', kind);
  }

  // ----- case arms -----

  lemma ArmUnblocked(strict: bool, arms: seq<Arm>, i: nat, from: seq<FlowState>, start: seq<FlowState>, executed: FlowResult)
    requires i < |arms|
    requires forall c :: CoveredBy(from, c) ==> CoveredBy(start, c)
    requires Sound(ListTask(arms[i].nodes, |arms[i].nodes|), start, executed)
    requires Unblocked(strict, ListTask(arms[i].nodes, |arms[i].nodes|), start) && Unblocked(strict, LeaveTask(arms, i), executed.active)
    ensures Unblocked(strict, ArmTask(arms, i), from)
  {
    forall w: Resolver, c, o | CoveredBy(from, c) && Exec(w, ArmTask(arms, i), c, o) ensures !Blocks(strict, o) {
      assert RunsArm(w, arms, i, c, o);
      var m :| RunsList(w, arms[i].nodes, |arms[i].nodes|, c, m) && LeavesArm(w, arms, i, m, o);
      assert Exec(w, ListTask(arms[i].nodes, |arms[i].nodes|), c, m);
      assert Reported(executed, m);
      if m.Normal? {
        assert CoveredBy(executed.active, m.state) && Exec(w, LeaveTask(arms, i), m.state, o);
      }
    }
  }

  lemma ArmStops(strict: bool, arms: seq<Arm>, i: nat, from: seq<FlowState>, executed: FlowResult)
    requires i < |arms|
    requires Stops(strict, ListTask(arms[i].nodes, |arms[i].nodes|), Regated(from, Sequence)) ||
             (Realised(ModeOf(strict), ListTask(arms[i].nodes, |arms[i].nodes|), Regated(from, Sequence), executed)
              && Stops(strict, LeaveTask(arms, i), executed.active))
    ensures Stops(strict, ArmTask(arms, i), from)
  {
    var m, t := ModeOf(strict), ListTask(arms[i].nodes, |arms[i].nodes|);
    if Stops(strict, t, Regated(from, Sequence)) {
      var kind, a' :| StopsAs(strict, kind) && Reached(m, t, Regated(from, Sequence), a', kind);
      ExitReached(m, arms, i, from, a', kind);
    } else {
      var kind, a' :| StopsAs(strict, kind) && Reached(m, LeaveTask(arms, i), executed.active, a', kind);
      LeaveReached(m, arms, i, from, executed, a', kind);
    }
  }

  lemma SelectUnblocked(strict: bool, arms: seq<Arm>, start: nat, end: nat, a: FlowState)
    requires start <= end <= |arms|
    requires forall i | start <= i < end :: Unblocked(strict, ArmTask(arms, i), [a])
    requires end < |arms| ==> end > start && arms[end - 1].catchAll
    ensures Unblocked(strict, SelectTask(arms, start), [a])
  {
    forall w: Resolver, c, o | CoveredBy([a], c) && Exec(w, SelectTask(arms, start), c, o) ensures !Blocks(strict, o) {
      if i :| start <= i < |arms| && NoCatchAll(arms, start, i) && RunsArm(w, arms, i, c, o) {
        assert i < end && Unblocked(strict, ArmTask(arms, i), [a]);
        assert Exec(w, ArmTask(arms, i), c, o);
      }
    }
  }

  lemma SelectStops(strict: bool, arms: seq<Arm>, start: nat, i: nat, a: FlowState)
    requires start <= i < |arms| && NoCatchAll(arms, start, i) && Stops(strict, ArmTask(arms, i), [a])
    ensures Stops(strict, SelectTask(arms, start), [a])
  {
    StopsWider(strict, ArmTask(arms, i), SelectTask(arms, start), [a]);
  }
}
