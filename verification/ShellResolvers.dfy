/** A run asks its resolver about the commands it executes and nothing else. Every command has
    a clock of its own, so runs that follow each other may have different resolvers. */
module ShellResolvers {
  import opened ShellSyntax
  import opened ShellSemantics
  import opened ShellStates

  /** The resolvers decide alike while the clock is in this range. */
  ghost predicate Alike(w: Resolver, v: Resolver, from: nat, to: nat) {
    forall command, c: CState :: from <= c.clock < to ==> w(command, c) == v(command, c)
  }

  /** The run takes time, and is a run of every resolver that decides alike in that time. */
  ghost predicate Local(w: Resolver, v: Resolver, t: Task, c: CState, o: Outcome) {
    c.clock <= o.state.clock && (Alike(w, v, c.clock, o.state.clock) ==> Exec(v, t, c, o))
  }

  lemma CommandIsLocal(w: Resolver, v: Resolver, command: Command, c: CState, o: Outcome)
    requires RunsCommand(w, command, c, o)
    ensures c.clock <= o.state.clock && (Alike(w, v, c.clock, o.state.clock) ==> RunsCommand(v, command, c, o))
  {
    if Alike(w, v, c.clock, o.state.clock) && !o.Blocked? {
      assert o.state.clock == c.clock + 1;
      assert w(command, c) == v(command, c);
    }
  }

  lemma {:induction false} ListIsLocal(w: Resolver, v: Resolver, nodes: seq<Node>, n: nat, c: CState, o: Outcome)
    requires n <= |nodes| && RunsList(w, nodes, n, c, o)
    ensures c.clock <= o.state.clock && (Alike(w, v, c.clock, o.state.clock) ==> RunsList(v, nodes, n, c, o))
    decreases nodes, n, 0
  {
    if n > 0 {
      var m :| RunsList(w, nodes, n - 1, c, m) && Advances(w, nodes, n - 1, m, o);
      ListIsLocal(w, v, nodes, n - 1, c, m);
      AdvanceIsLocal(w, v, nodes, n - 1, m, o);
    }
  }

  lemma {:induction false} AdvanceIsLocal(w: Resolver, v: Resolver, nodes: seq<Node>, i: nat, m: Outcome, o: Outcome)
    requires i < |nodes| && Advances(w, nodes, i, m, o)
    ensures m.state.clock <= o.state.clock && (Alike(w, v, m.state.clock, o.state.clock) ==> Advances(v, nodes, i, m, o))
    decreases nodes, i, 1
  {
    if m.Normal? && RunsStage(w, nodes[i], Piped(nodes, i), Entered(nodes, i, m.state), o) {
      StageIsLocal(w, v, nodes[i], Piped(nodes, i), Entered(nodes, i, m.state), o);
    }
  }

  lemma {:induction false} StageIsLocal(w: Resolver, v: Resolver, node: Node, piped: bool, c: CState, o: Outcome)
    requires RunsStage(w, node, piped, c, o)
    ensures c.clock <= o.state.clock && (Alike(w, v, c.clock, o.state.clock) ==> RunsStage(v, node, piped, c, o))
    decreases node, 2, 0
  {
    if ConcurrentComponent(piped, node.terminator) {
      var e, s: bool :| RunsNode(w, node, c, e) && Leaves(node.terminator, e, s, o);
      NodeIsLocal(w, v, node, c, e);
    } else {
      NodeIsLocal(w, v, node, c, o);
    }
  }

  lemma {:induction false} NodeIsLocal(w: Resolver, v: Resolver, node: Node, c: CState, o: Outcome)
    requires RunsNode(w, node, c, o)
    ensures c.clock <= o.state.clock && (Alike(w, v, c.clock, o.state.clock) ==> RunsNode(v, node, c, o))
    decreases node, 1, 0
  {
    if c' :| Substitutes(w, node.expansions, |node.expansions|, c, c') && RunsBody(w, node, c', o) {
      SubstitutionIsLocal(w, v, node.expansions, |node.expansions|, c, c');
      BodyIsLocal(w, v, node, c', o);
    } else {
      BlocksAreLocal(w, v, node.expansions, c, o);
    }
  }

  lemma {:induction false} BlocksAreLocal(w: Resolver, v: Resolver, programs: seq<Program>, c: CState, o: Outcome)
    requires BlocksWithin(w, programs, c, o)
    ensures c.clock <= o.state.clock && (Alike(w, v, c.clock, o.state.clock) ==> BlocksWithin(v, programs, c, o))
    decreases programs, |programs|, 1
  {
    var i, m :| 0 <= i < |programs| && Substitutes(w, programs, i, c, m) && BlocksInside(w, programs[i], m, o);
    SubstitutionIsLocal(w, v, programs, i, c, m);
    BlockIsLocal(w, v, programs[i], m, o);
  }

  lemma {:induction false} BlockIsLocal(w: Resolver, v: Resolver, program: Program, c: CState, o: Outcome)
    requires BlocksInside(w, program, c, o)
    ensures c.clock <= o.state.clock && (Alike(w, v, c.clock, o.state.clock) ==> BlocksInside(v, program, c, o))
    decreases program, 1, 0
  {
    if !(program.errors != [] && o == Blocked(c, false)) {
      var e :| RunsList(w, program.nodes, |program.nodes|, START.(clock := c.clock), e) && e.Blocked? && !e.strictly
               && o == Blocked(c.(clock := e.state.clock), false);
      ListIsLocal(w, v, program.nodes, |program.nodes|, START.(clock := c.clock), e);
    }
  }

  lemma {:induction false} SubstitutionIsLocal(w: Resolver, v: Resolver, programs: seq<Program>, n: nat, c: CState, c': CState)
    requires n <= |programs| && Substitutes(w, programs, n, c, c')
    ensures c.clock <= c'.clock && (Alike(w, v, c.clock, c'.clock) ==> Substitutes(v, programs, n, c, c'))
    decreases programs, n, 0
  {
    if n > 0 {
      var m :| Substitutes(w, programs, n - 1, c, m) && SubstitutesOne(w, programs[n - 1], m, c');
      SubstitutionIsLocal(w, v, programs, n - 1, c, m);
      ProgramIsLocal(w, v, programs[n - 1], m, c');
    }
  }

  lemma {:induction false} ProgramIsLocal(w: Resolver, v: Resolver, program: Program, c: CState, c': CState)
    requires SubstitutesOne(w, program, c, c')
    ensures c.clock <= c'.clock && (Alike(w, v, c.clock, c'.clock) ==> SubstitutesOne(v, program, c, c'))
    decreases program, 1, 0
  {
    var o :| RunsProgram(w, program, c.clock, o) && c' == c.(builds := c.builds + o.state.builds, clock := o.state.clock);
    ListIsLocal(w, v, program.nodes, |program.nodes|, START.(clock := c.clock), o);
    if Alike(w, v, c.clock, c'.clock) {
      assert RunsProgram(v, program, c.clock, o);
    }
  }

  lemma {:induction false} BodyIsLocal(w: Resolver, v: Resolver, node: Node, c: CState, o: Outcome)
    requires RunsBody(w, node, c, o)
    ensures c.clock <= o.state.clock && (Alike(w, v, c.clock, o.state.clock) ==> RunsBody(v, node, c, o))
    decreases node, 0, 0
  {
    match node
    case CommandNode(_, _, command) => CommandIsLocal(w, v, command, c, o);
    case GroupNode(_, _, nodes, subshell, redirection) =>
      if !(redirection && o == Normal(c.(status := false, free := false))) {
        var m :| RunsList(w, nodes, |nodes|, c, m) && o == (if subshell then Absorbs(m) else m);
        ListIsLocal(w, v, nodes, |nodes|, c, m);
      }
    case CaseNode(_, _, arms) => SelectIsLocal(w, v, arms, 0, c, o);
  }

  lemma {:induction false} SelectIsLocal(w: Resolver, v: Resolver, arms: seq<Arm>, start: nat, c: CState, o: Outcome)
    requires start <= |arms| && SelectsArm(w, arms, start, c, o)
    ensures c.clock <= o.state.clock && (Alike(w, v, c.clock, o.state.clock) ==> SelectsArm(v, arms, start, c, o))
    decreases arms, |arms| - start, 1
  {
    if i :| start <= i < |arms| && NoCatchAll(arms, start, i) && RunsArm(w, arms, i, c, o) {
      ArmIsLocal(w, v, arms, i, c, o);
    }
  }

  lemma {:induction false} ArmIsLocal(w: Resolver, v: Resolver, arms: seq<Arm>, i: nat, c: CState, o: Outcome)
    requires i <= |arms| && RunsArm(w, arms, i, c, o)
    ensures c.clock <= o.state.clock && (Alike(w, v, c.clock, o.state.clock) ==> RunsArm(v, arms, i, c, o))
    decreases arms, |arms| - i, 0
  {
    if i < |arms| {
      var m :| RunsList(w, arms[i].nodes, |arms[i].nodes|, c, m) && LeavesArm(w, arms, i, m, o);
      ListIsLocal(w, v, arms[i].nodes, |arms[i].nodes|, c, m);
      LeaveIsLocal(w, v, arms, i, m, o);
    }
  }

  lemma {:induction false} LeaveIsLocal(w: Resolver, v: Resolver, arms: seq<Arm>, i: nat, m: Outcome, o: Outcome)
    requires i < |arms| && LeavesArm(w, arms, i, m, o)
    ensures m.state.clock <= o.state.clock && (Alike(w, v, m.state.clock, o.state.clock) ==> LeavesArm(v, arms, i, m, o))
    decreases arms, |arms| - i - 1, 2
  {
    if m.Normal? && !arms[i].terminator.Break? {
      if arms[i].terminator.Fallthrough? {
        ArmIsLocal(w, v, arms, i + 1, m.state, o);
      } else {
        SelectIsLocal(w, v, arms, i + 1, m.state, o);
      }
    }
  }

  lemma RunIsLocal(w: Resolver, v: Resolver, t: Task, c: CState, o: Outcome)
    requires Exec(w, t, c, o)
    ensures Local(w, v, t, c, o)
  {
    match t
    case ListTask(nodes, n) => ListIsLocal(w, v, nodes, n, c, o);
    case AdvanceTask(nodes, i) => AdvanceIsLocal(w, v, nodes, i, Normal(c), o);
    case NodeTask(node) => NodeIsLocal(w, v, node, c, o);
    case StageTask(node, piped) => StageIsLocal(w, v, node, piped, c, o);
    case BodyTask(node) => BodyIsLocal(w, v, node, c, o);
    case ArmTask(arms, i) => ArmIsLocal(w, v, arms, i, c, o);
    case SelectTask(arms, start) => SelectIsLocal(w, v, arms, start, c, o);
    case LeaveTask(arms, i) => LeaveIsLocal(w, v, arms, i, Normal(c), o);
  }

  ghost function Joined(w: Resolver, v: Resolver, clock: nat): Resolver {
    (command: Command, c: CState) => if c.clock < clock then w(command, c) else v(command, c)
  }

  /** A run, and one that goes on where it ended, are runs of one resolver. */
  lemma RunsJoin(w: Resolver, v: Resolver, s: Task, c: CState, mid: Outcome, t: Task, o: Outcome) returns (u: Resolver)
    requires Exec(w, s, c, mid) && Exec(v, t, mid.state, o)
    ensures Exec(u, s, c, mid) && Exec(u, t, mid.state, o)
  {
    u := Joined(w, v, mid.state.clock);
    RunIsLocal(w, u, s, c, mid);
    RunIsLocal(v, u, t, mid.state, o);
    assert Alike(w, u, c.clock, mid.state.clock);
    assert Alike(v, u, mid.state.clock, o.state.clock);
  }
}
