/** Command substitutions: that a run can always be continued past them, that one of their builds can
    be performed on the way, and that what blocks them blocks the command. */
module ShellSubstitution {
  import opened ShellSyntax
  import opened ShellSemantics
  import opened ShellStates
  import opened ShellResolvers
  import opened ShellComposition
  import opened ShellRealisation

  /** Substitutions only add builds. */
  predicate OnlyBuilds(c: CState, c': CState) {
    c'.outputs == c.outputs && SameStatus(c, c') && c.builds <= c'.builds
  }

  // ----- every tree has a run -----

  lemma {:induction false} ListRuns(w: Resolver, nodes: seq<Node>, n: nat, c: CState) returns (o: Outcome)
    requires n <= |nodes|
    ensures RunsList(w, nodes, n, c, o) && !o.Blocked?
    decreases nodes, n, 0
  {
    if n == 0 {
      o := Normal(c);
    } else {
      var m := ListRuns(w, nodes, n - 1, c);
      if m.Exited? {
        o := m;
      } else if Skips(nodes, n - 1, m.state) {
        o := Normal(Passed(nodes, n - 1, m.state));
      } else {
        o := StageRuns(w, nodes[n - 1], Piped(nodes, n - 1), Entered(nodes, n - 1, m.state));
      }
      assert Advances(w, nodes, n - 1, m, o);
    }
  }

  lemma {:induction false} StageRuns(w: Resolver, node: Node, piped: bool, c: CState) returns (o: Outcome)
    ensures RunsStage(w, node, piped, c, o) && !o.Blocked?
    decreases node, 2, 0
  {
    var c' := SubstitutionsRun(w, node.expansions, |node.expansions|, c);
    var e := BodyRuns(w, node, c');
    assert RunsNode(w, node, c, e);
    if ConcurrentComponent(piped, node.terminator) {
      o := Normal(e.state.(status := true, free := !node.terminator.Background?));
      assert Leaves(node.terminator, e, true, o);
    } else {
      o := e;
    }
  }

  lemma {:induction false} SubstitutionsRun(w: Resolver, programs: seq<Program>, n: nat, c: CState) returns (c': CState)
    requires n <= |programs|
    ensures Substitutes(w, programs, n, c, c') && OnlyBuilds(c, c')
    decreases programs, n, 0
  {
    if n == 0 {
      c' := c;
    } else {
      var m := SubstitutionsRun(w, programs, n - 1, c);
      var program := programs[n - 1];
      var o := ListRuns(w, program.nodes, |program.nodes|, START.(clock := m.clock));
      assert RunsProgram(w, program, m.clock, o);
      c' := m.(builds := m.builds + o.state.builds, clock := o.state.clock);
      assert SubstitutesOne(w, program, m, c');
    }
  }

  lemma {:induction false} BodyRuns(w: Resolver, node: Node, c: CState) returns (o: Outcome)
    ensures RunsBody(w, node, c, o) && !o.Blocked?
    decreases node, 0, 0
  {
    match node
    case CommandNode(_, _, command) => o := CommandRun(w, command, c);
    case GroupNode(_, _, nodes, subshell, _) =>
      var m := ListRuns(w, nodes, |nodes|, c);
      o := if subshell then Absorbs(m) else m;
    case CaseNode(_, _, arms) => o := SelectRuns(w, arms, 0, c);
  }

  lemma {:induction false} SelectRuns(w: Resolver, arms: seq<Arm>, start: nat, c: CState) returns (o: Outcome)
    requires start <= |arms|
    ensures SelectsArm(w, arms, start, c, o) && !o.Blocked?
    decreases arms, |arms| - start, 1
  {
    if start < |arms| {
      o := ArmRuns(w, arms, start, c);
      assert NoCatchAll(arms, start, start);
    } else {
      o := Normal(c.(status := true, free := false));
    }
  }

  lemma {:induction false} ArmRuns(w: Resolver, arms: seq<Arm>, i: nat, c: CState) returns (o: Outcome)
    requires i <= |arms|
    ensures RunsArm(w, arms, i, c, o) && !o.Blocked?
    decreases arms, |arms| - i, 0
  {
    if i == |arms| {
      o := Normal(c);
    } else {
      var m := ListRuns(w, arms[i].nodes, |arms[i].nodes|, c);
      o := m;
      if m.Normal? && arms[i].terminator.Fallthrough? {
        o := ArmRuns(w, arms, i + 1, m.state);
      } else if m.Normal? && arms[i].terminator.Retest? {
        o := SelectRuns(w, arms, i + 1, m.state);
      }
      assert LeavesArm(w, arms, i, m, o);
    }
  }

  // ----- the builds of substitutions -----

  /** At any time, some run of the program performs this build. */
  ghost predicate Performs(program: Program, key: BuildKey, clock: nat) {
    exists w: Resolver, o :: RunsProgram(w, program, clock, o) && key in o.state.builds
  }

  ghost predicate PerformsAny(program: Program, keys: set<BuildKey>) {
    forall key, clock :: key in keys ==> Performs(program, key, clock)
  }

  /** From any state that has a build, if it is among `before`, the first n substitutions can run to one
      that has it, if it is among `after`. */
  ghost predicate Supplies(programs: seq<Program>, n: nat, before: set<BuildKey>, after: set<BuildKey>)
    requires n <= |programs|
  {
    forall key, c: CState :: (key in before ==> key in c.builds) ==> Supplied(programs, n, key, after, c)
  }

  ghost predicate Supplied(programs: seq<Program>, n: nat, key: BuildKey, after: set<BuildKey>, c: CState)
    requires n <= |programs|
  {
    exists w: Resolver, c' :: Substitutes(w, programs, n, c, c') && OnlyBuilds(c, c') && (key in after ==> key in c'.builds)
  }

  lemma SuppliesNone(programs: seq<Program>, found: set<BuildKey>)
    ensures Supplies(programs, 0, found, found)
  {
    forall key, c: CState | key in found ==> key in c.builds ensures Supplied(programs, 0, key, found, c) {
      assert Substitutes((_, _) => true, programs, 0, c, c);
    }
  }

  lemma SuppliesMore(programs: seq<Program>, n: nat, before: set<BuildKey>, found: set<BuildKey>, more: set<BuildKey>)
    requires n < |programs| && Supplies(programs, n, before, found) && PerformsAny(programs[n], more)
    ensures Supplies(programs, n + 1, before, found + more)
  {
    var next, after := n + 1, found + more;
    forall key, c: CState | key in before ==> key in c.builds ensures Supplied(programs, next, key, after, c) {
      assert Supplied(programs, n, key, found, c);
      SuppliedMore(programs, n, key, found, more, c);
    }
  }

  lemma SuppliedMore(programs: seq<Program>, n: nat, key: BuildKey, found: set<BuildKey>, more: set<BuildKey>, c: CState)
    requires n < |programs| && Supplied(programs, n, key, found, c) && PerformsAny(programs[n], more)
    ensures Supplied(programs, n + 1, key, found + more, c)
  {
    var w: Resolver, m :| Substitutes(w, programs, n, c, m) && OnlyBuilds(c, m) && (key in found ==> key in m.builds);
    var v, o := RunPerforming(programs[n], key, more, m.clock);
    var c' := SubstitutesJoin(w, v, programs, n, c, m, o);
    assert OnlyBuilds(c, c') && (key in found + more ==> key in c'.builds);
  }

  lemma RunPerforming(program: Program, key: BuildKey, more: set<BuildKey>, clock: nat) returns (w: Resolver, o: Outcome)
    requires PerformsAny(program, more)
    ensures RunsProgram(w, program, clock, o) && (key in more ==> key in o.state.builds)
  {
    if key in more {
      assert Performs(program, key, clock);
      w, o :| RunsProgram(w, program, clock, o) && key in o.state.builds;
    } else {
      w := (_, _) => true;
      o := ListRuns(w, program.nodes, |program.nodes|, START.(clock := clock));
    }
  }

  lemma SubstitutesJoin(w: Resolver, v: Resolver, programs: seq<Program>, n: nat, c: CState, m: CState, o: Outcome)
    returns (c': CState)
    requires n < |programs| && Substitutes(w, programs, n, c, m) && RunsProgram(v, programs[n], m.clock, o)
    ensures c' == m.(builds := m.builds + o.state.builds, clock := o.state.clock)
    ensures Substitutes(Joined(w, v, m.clock), programs, n + 1, c, c')
  {
    c' := m.(builds := m.builds + o.state.builds, clock := o.state.clock);
    assert SubstitutesOne(v, programs[n], m, c');
    var u := Joined(w, v, m.clock);
    SubstitutionIsLocal(w, u, programs, n, c, m);
    ProgramIsLocal(v, u, programs[n], m, c');
    assert Alike(w, u, c.clock, m.clock) && Alike(v, u, m.clock, c'.clock);
  }

  // ----- what blocks substitutions -----

  /** The run up to something that blocks the analysis in every mode. */
  predicate AlwaysBlocked(o: Outcome) {
    o.Blocked? && !o.strictly
  }

  ghost predicate Quiet(program: Program) {
    program.errors == [] &&
    forall w: Resolver, clock, e :: RunsList(w, program.nodes, |program.nodes|, START.(clock := clock), e) ==> !AlwaysBlocked(e)
  }

  ghost predicate BlockedAt(program: Program, clock: nat) {
    exists w: Resolver, e :: RunsList(w, program.nodes, |program.nodes|, START.(clock := clock), e) && AlwaysBlocked(e)
  }

  /** The program was not parsed, or at any time some run of it is blocked. */
  ghost predicate Disturbing(program: Program) {
    program.errors != [] || forall clock :: BlockedAt(program, clock)
  }

  /** From any state, some run is blocked within one of the substitutions. */
  ghost predicate Disturbs(programs: seq<Program>) {
    forall c :: DisturbsFrom(programs, c)
  }

  ghost predicate DisturbsFrom(programs: seq<Program>, c: CState) {
    exists w: Resolver, o :: BlocksWithin(w, programs, c, o) && AlwaysBlocked(o) && OnlyBuilds(c, o.state)
  }

  lemma QuietWithin(w: Resolver, programs: seq<Program>, c: CState, o: Outcome)
    requires BlocksWithin(w, programs, c, o)
    ensures exists i :: 0 <= i < |programs| && !Quiet(programs[i])
  {
    var i, m :| 0 <= i < |programs| && Substitutes(w, programs, i, c, m) && BlocksInside(w, programs[i], m, o);
    QuietInside(w, programs[i], m, o);
  }

  lemma QuietInside(w: Resolver, program: Program, c: CState, o: Outcome)
    requires BlocksInside(w, program, c, o)
    ensures !Quiet(program)
  {
    if program.errors == [] {
      var e :| RunsList(w, program.nodes, |program.nodes|, START.(clock := c.clock), e) && e.Blocked? && !e.strictly;
      assert AlwaysBlocked(e);
    }
  }

  lemma DisturbsAt(programs: seq<Program>, i: nat)
    requires i < |programs| && Disturbing(programs[i])
    ensures Disturbs(programs)
  {
    forall c ensures DisturbsFrom(programs, c) {
      var w: Resolver := (_, _) => true;
      var m := SubstitutionsRun(w, programs, i, c);
      DisturbedFrom(programs, i, c, w, m);
    }
  }

  lemma DisturbedFrom(programs: seq<Program>, i: nat, c: CState, w: Resolver, m: CState)
    requires i < |programs| && Disturbing(programs[i]) && Substitutes(w, programs, i, c, m) && OnlyBuilds(c, m)
    ensures DisturbsFrom(programs, c)
  {
    if programs[i].errors != [] {
      assert BlocksInside(w, programs[i], m, Blocked(m, false));
      assert BlocksWithin(w, programs, c, Blocked(m, false));
    } else {
      assert BlockedAt(programs[i], m.clock);
      var v: Resolver, e :| RunsList(v, programs[i].nodes, |programs[i].nodes|, START.(clock := m.clock), e) && AlwaysBlocked(e);
      var o := Blocked(m.(clock := e.state.clock), false);
      assert BlocksInside(v, programs[i], m, o);
      BlocksJoin(w, v, programs, i, c, m, o);
    }
  }

  lemma BlocksJoin(w: Resolver, v: Resolver, programs: seq<Program>, i: nat, c: CState, m: CState, o: Outcome)
    requires i < |programs| && Substitutes(w, programs, i, c, m) && BlocksInside(v, programs[i], m, o)
    ensures BlocksWithin(Joined(w, v, m.clock), programs, c, o)
  {
    var u := Joined(w, v, m.clock);
    SubstitutionIsLocal(w, u, programs, i, c, m);
    BlockIsLocal(v, u, programs[i], m, o);
    assert Alike(w, u, c.clock, m.clock) && Alike(v, u, m.clock, o.state.clock);
  }

  // ----- both -----

  /** The builds of all runs, and at any time each of them is performed by a run. */
  ghost predicate Finds(program: Program, builds: seq<Build>) {
    && (forall w: Resolver, clock, o :: RunsProgram(w, program, clock, o) ==> o.state.builds <= KeysOf(builds))
    && PerformsAny(program, KeysOf(builds))
  }

  /** The first n substitutions are never blocked, perform no other builds than those in `after`, and from
      a state with those in `before` can perform each of them. */
  ghost predicate Loads(programs: seq<Program>, n: nat, before: set<BuildKey>, after: set<BuildKey>)
    requires n <= |programs|
  {
    && Collects(programs, n, after)
    && Supplies(programs, n, before, after)
    && forall i | 0 <= i < n :: Quiet(programs[i])
  }

  lemma NothingLoaded(programs: seq<Program>, found: set<BuildKey>)
    ensures Loads(programs, 0, found, found)
  {
    SuppliesNone(programs, found);
  }

  lemma LoadsMore(programs: seq<Program>, n: nat, before: set<BuildKey>, found: set<BuildKey>, nested: seq<Build>)
    requires n < |programs| && Loads(programs, n, before, found)
    requires Finds(programs[n], nested) && Quiet(programs[n])
    ensures Loads(programs, n + 1, before, found + KeysOf(nested))
  {
    CollectsMore(programs, n, found, nested);
    SuppliesMore(programs, n, before, found, KeysOf(nested));
  }

  lemma CollectsMore(programs: seq<Program>, i: nat, found: set<BuildKey>, nested: seq<Build>)
    requires i < |programs| && Collects(programs, i, found) && Finds(programs[i], nested)
    ensures Collects(programs, i + 1, found + KeysOf(nested))
  {
    var more := KeysOf(nested);
    forall w: Resolver, c, c' {:trigger Substitutes(w, programs, i + 1, c, c')} | Substitutes(w, programs, i + 1, c, c')
      ensures c'.outputs == c.outputs && SameStatus(c, c') && c'.builds <= c.builds + (found + more)
    {
      var m := LastSubstitution(w, programs, i + 1, c, c');
      assert Substitutes(w, programs, i, c, m);
      var o :| RunsProgram(w, programs[i], m.clock, o) && c' == m.(builds := m.builds + o.state.builds, clock := o.state.clock);
    }
  }

  lemma LastSubstitution(w: Resolver, programs: seq<Program>, n: nat, c: CState, c': CState) returns (m: CState)
    requires 0 < n <= |programs| && Substitutes(w, programs, n, c, c')
    ensures Substitutes(w, programs, n - 1, c, m) && SubstitutesOne(w, programs[n - 1], m, c')
  {
    m :| Substitutes(w, programs, n - 1, c, m) && SubstitutesOne(w, programs[n - 1], m, c');
  }

  // ----- nodes -----

  /** What the body of a node reaches with the builds of its substitutions, the node reaches. */
  lemma NodeReached(m: Mode, node: Node, a: FlowState, loaded: FlowState, a': FlowState, kind: Kind)
    requires Reached(m, BodyTask(node), [loaded], a', kind) && loaded == a.(builds := loaded.builds)
    requires Loads(node.expansions, |node.expansions|, KeysOf(a.builds), KeysOf(loaded.builds))
    ensures Reached(m, NodeTask(node), [a], a', kind)
  {
    var b :| Holds(m, [loaded], Active, b) && Reaches(m, BodyTask(node), b, a', kind);
    HoldsOne(m, loaded, Active, b);
    var start := a.(status := b.status);
    HoldsOne(m, a, Active, start);
    if m.EveryResolver? {
      forall w: Resolver, c | Stands(m, start, c) ensures Ends(m, w, NodeTask(node), c, a', kind) {
        EveryNodeEnds(w, node, start, b, a', kind, c);
      }
    } else {
      forall c | Stands(m, start, c) ensures exists u: Resolver :: Ends(m, u, NodeTask(node), c, a', kind) {
        var u := NodeEnds(m, node, start, b, a', kind, c);
      }
    }
  }

  lemma EveryNodeEnds(w: Resolver, node: Node, start: FlowState, b: FlowState, a': FlowState, kind: Kind, c: CState)
    requires Reaches(EveryResolver, BodyTask(node), b, a', kind) && b == start.(builds := b.builds)
    requires Collects(node.expansions, |node.expansions|, KeysOf(b.builds)) && Stands(EveryResolver, start, c)
    ensures Ends(EveryResolver, w, NodeTask(node), c, a', kind)
  {
    var c' := SubstitutionsRun(w, node.expansions, |node.expansions|, c);
    assert Ends(EveryResolver, w, BodyTask(node), c', a', kind);
    var o :| KindOf(o) == kind && Stands(EveryResolver, a', o.state) && Exec(w, BodyTask(node), c', o);
    assert RunsNode(w, node, c, o);
  }

  lemma NodeRealised(m: Mode, node: Node, a: FlowState, loaded: FlowState, r: FlowResult)
    requires Realised(m, BodyTask(node), [loaded], r) && loaded == a.(builds := loaded.builds)
    requires Loads(node.expansions, |node.expansions|, KeysOf(a.builds), KeysOf(loaded.builds))
    ensures Realised(m, NodeTask(node), [a], r)
  {
    forall kind, a' | Holds(m, Part(r, kind), kind, a') ensures Reached(m, NodeTask(node), [a], a', kind) {
      NodeReached(m, node, a, loaded, a', kind);
    }
  }

  lemma NodeEnds(m: Mode, node: Node, start: FlowState, b: FlowState, a': FlowState, kind: Kind, c: CState) returns (u: Resolver)
    requires m.SomeResolver? && Reaches(m, BodyTask(node), b, a', kind) && b == start.(builds := b.builds)
    requires Supplies(node.expansions, |node.expansions|, KeysOf(start.builds), KeysOf(b.builds)) && Stands(m, start, c)
    ensures Ends(m, u, NodeTask(node), c, a', kind)
  {
    assert Supplied(node.expansions, |node.expansions|, m.key, KeysOf(b.builds), c);
    var w: Resolver, c' :| Substitutes(w, node.expansions, |node.expansions|, c, c') && OnlyBuilds(c, c')
                           && (m.key in KeysOf(b.builds) ==> m.key in c'.builds);
    assert Stands(m, b, c');
    var v: Resolver :| Ends(m, v, BodyTask(node), c', a', kind);
    var o :| KindOf(o) == kind && Stands(m, a', o.state) && Exec(v, BodyTask(node), c', o);
    u := Joined(w, v, c'.clock);
    SubstitutionIsLocal(w, u, node.expansions, |node.expansions|, c, c');
    RunIsLocal(v, u, BodyTask(node), c', o);
    assert Alike(w, u, c.clock, c'.clock) && Alike(v, u, c'.clock, o.state.clock);
    assert RunsNode(u, node, c, o);
  }
}
