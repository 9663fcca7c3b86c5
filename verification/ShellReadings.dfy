/** Two other readings of the reference semantics: node lists as left-associative AND-OR
    lists of pipelines, and `case` with a fixed set of matching patterns; and two trees the
    evaluator cannot follow. */
module ShellReadings {
  import opened Basics
  import opened ShellSyntax
  import opened ShellSemantics
  import opened ShellStates
  import opened ShellComposition
  import opened ShellRealisation

  // ----- AND-OR lists of pipelines -----

  datatype AndOr =
    | Single(stages: seq<Node>)
    | AndThen(left: AndOr, stages: seq<Node>)
    | OrElse(left: AndOr, stages: seq<Node>)

  /** The AND-OR lists a node list spells: `|` binds tightest, `&&` and `||` associate to the left. */
  function ReadLists(nodes: seq<Node>): (lists: seq<AndOr>)
    ensures nodes == [] ==> lists == []
    ensures nodes != [] ==> lists != [] && EndsWith(lists[|lists| - 1], nodes[|nodes| - 1])
  {
    if nodes == [] then []
    else
      var last, earlier := nodes[|nodes| - 1], nodes[..|nodes| - 1];
      var lists := ReadLists(earlier);
      if earlier == [] then [Single([last])]
      else
        var first, left := lists[..|lists| - 1], lists[|lists| - 1];
        match earlier[|earlier| - 1].terminator
        case And => first + [AndThen(left, [last])]
        case Or => first + [OrElse(left, [last])]
        case Pipe => first + [left.(stages := left.stages + [last])]
        case _ => lists + [Single([last])]
  }

  predicate EndsWith(tree: AndOr, node: Node) {
    tree.stages != [] && tree.stages[|tree.stages| - 1] == node
  }

  /** The first n components of a pipeline, one after the other. */
  ghost predicate RunsStages(w: Resolver, stages: seq<Node>, n: nat, c: CState, o: Outcome)
    requires n <= |stages|
  {
    if n == 0 then o == Normal(c)
    else
      var i := n - 1;
      exists m :: RunsStages(w, stages, i, c, m) && NextStage(w, stages[i], i > 0, m, o)
  }

  ghost predicate NextStage(w: Resolver, node: Node, piped: bool, m: Outcome, o: Outcome) {
    if m.Normal? then RunsStage(w, node, piped, m.state, o) else o == m
  }

  /** `open` says that the list goes on behind the last pipeline. */
  ghost predicate RunsTree(w: Resolver, tree: AndOr, open: bool, c: CState, o: Outcome) {
    match tree
    case Single(stages) => RunsStages(w, stages, |stages|, c, o)
    case AndThen(left, stages) => exists m :: RunsTree(w, left, true, c, m) && Guarded(w, true, stages, open, m, o)
    case OrElse(left, stages) => exists m :: RunsTree(w, left, true, c, m) && Guarded(w, false, stages, open, m, o)
  }

  /** A pipeline that is run only after this status, and otherwise passed by as a whole. */
  ghost predicate Guarded(w: Resolver, wanted: bool, stages: seq<Node>, open: bool, m: Outcome, o: Outcome) {
    if !m.Normal? then o == m
    else
      var asked := m.state.(free := false);
      || (m.state.free && o == Blocked(m.state, true))
      || if m.state.status == wanted then RunsStages(w, stages, |stages|, asked, o)
         else o == Normal(asked.(passing := open && Unfinished(stages)))
  }

  predicate Unfinished(stages: seq<Node>) {
    stages != [] && stages[|stages| - 1].terminator.Pipe?
  }

  ghost predicate RunsTrees(w: Resolver, lists: seq<AndOr>, open: bool, c: CState, o: Outcome) {
    if lists == [] then o == Normal(c)
    else
      var first, last := lists[..|lists| - 1], lists[|lists| - 1];
      exists m :: RunsTrees(w, first, true, c, m) && After(w, last, open, m, o)
  }

  ghost predicate After(w: Resolver, tree: AndOr, open: bool, m: Outcome, o: Outcome) {
    if m.Normal? then RunsTree(w, tree, open, m.state, o) else o == m
  }

  // ----- a pipeline is passed by as long as it lasts -----

  /** Within a list, a pipeline is being passed by only between its components. */
  lemma {:induction false} ListPassing(w: Resolver, nodes: seq<Node>, n: nat, c: CState, o: Outcome)
    requires n <= |nodes| && !c.passing && RunsList(w, nodes, n, c, o) && !o.Blocked?
    ensures o.state.passing ==> o.Normal? && 0 < n < |nodes| && nodes[n - 1].terminator.Pipe?
    decreases nodes, n, 0
  {
    if n > 0 {
      var m :| RunsList(w, nodes, n - 1, c, m) && Advances(w, nodes, n - 1, m, o);
      ListPassing(w, nodes, n - 1, c, m);
      if m.Normal? && !Skips(nodes, n - 1, m.state) {
        StagePassing(w, nodes[n - 1], Piped(nodes, n - 1), Entered(nodes, n - 1, m.state), o);
      }
    }
  }

  lemma {:induction false} StagePassing(w: Resolver, node: Node, piped: bool, c: CState, o: Outcome)
    requires !c.passing && RunsStage(w, node, piped, c, o) && !o.Blocked?
    ensures !o.state.passing
    decreases node, 2, 0
  {
    if ConcurrentComponent(piped, node.terminator) {
      var e, s: bool :| RunsNode(w, node, c, e) && Leaves(node.terminator, e, s, o);
      NodePassing(w, node, c, e);
    } else {
      NodePassing(w, node, c, o);
    }
  }

  lemma {:induction false} NodePassing(w: Resolver, node: Node, c: CState, o: Outcome)
    requires !c.passing && RunsNode(w, node, c, o) && !o.Blocked?
    ensures !o.state.passing
    decreases node, 1, 0
  {
    if c' :| Substitutes(w, node.expansions, |node.expansions|, c, c') && RunsBody(w, node, c', o) {
      SubstitutionPassing(w, node.expansions, |node.expansions|, c, c');
      BodyPassing(w, node, c', o);
    } else {
      WithinIsBlocked(w, node.expansions, c, o);
    }
  }

  lemma {:induction false} BodyPassing(w: Resolver, node: Node, c: CState, o: Outcome)
    requires !c.passing && RunsBody(w, node, c, o) && !o.Blocked?
    ensures !o.state.passing
    decreases node, 0, 0
  {
    match node
    case CommandNode(_, _, _) =>
    case GroupNode(_, _, nodes, subshell, redirection) =>
      if !(redirection && o == Normal(c.(status := false, free := false))) {
        var m :| RunsList(w, nodes, |nodes|, c, m) && o == (if subshell then Absorbs(m) else m);
        ListPassing(w, nodes, |nodes|, c, m);
      }
    case CaseNode(_, _, arms) => SelectPassing(w, arms, 0, c, o);
  }

  lemma {:induction false} SubstitutionPassing(w: Resolver, programs: seq<Program>, n: nat, c: CState, c': CState)
    requires n <= |programs| && Substitutes(w, programs, n, c, c')
    ensures c'.passing == c.passing
    decreases n
  {
    if n > 0 {
      var m :| Substitutes(w, programs, n - 1, c, m) && SubstitutesOne(w, programs[n - 1], m, c');
      SubstitutionPassing(w, programs, n - 1, c, m);
    }
  }

  lemma {:induction false} SelectPassing(w: Resolver, arms: seq<Arm>, start: nat, c: CState, o: Outcome)
    requires start <= |arms| && !c.passing && SelectsArm(w, arms, start, c, o) && !o.Blocked?
    ensures !o.state.passing
    decreases arms, |arms| - start, 1
  {
    if i :| start <= i < |arms| && NoCatchAll(arms, start, i) && RunsArm(w, arms, i, c, o) {
      ArmPassing(w, arms, i, c, o);
    }
  }

  lemma {:induction false} ArmPassing(w: Resolver, arms: seq<Arm>, i: nat, c: CState, o: Outcome)
    requires i <= |arms| && !c.passing && RunsArm(w, arms, i, c, o) && !o.Blocked?
    ensures !o.state.passing
    decreases arms, |arms| - i, 0
  {
    if i < |arms| {
      var m :| RunsList(w, arms[i].nodes, |arms[i].nodes|, c, m) && LeavesArm(w, arms, i, m, o);
      ListPassing(w, arms[i].nodes, |arms[i].nodes|, c, m);
      if m.Normal? && arms[i].terminator.Fallthrough? {
        ArmPassing(w, arms, i + 1, m.state, o);
      } else if m.Normal? && arms[i].terminator.Retest? {
        SelectPassing(w, arms, i + 1, m.state, o);
      }
    }
  }

  lemma {:induction false} StagesPassing(w: Resolver, stages: seq<Node>, n: nat, c: CState, o: Outcome)
    requires n <= |stages| && !c.passing && RunsStages(w, stages, n, c, o) && !o.Blocked?
    ensures !o.state.passing
    decreases n
  {
    if n > 0 {
      var i := n - 1;
      var m :| RunsStages(w, stages, i, c, m) && NextStage(w, stages[i], i > 0, m, o);
      StagesPassing(w, stages, i, c, m);
      if m.Normal? {
        StagePassing(w, stages[i], i > 0, m.state, o);
      }
    }
  }

  // ----- lists are trees -----

  /** Running a node list is running the AND-OR lists of pipelines it spells, one after the other. */
  lemma ListsAreTrees(w: Resolver, nodes: seq<Node>, c: CState, o: Outcome)
    requires !c.passing
    ensures RunsList(w, nodes, |nodes|, c, o) <==> RunsTrees(w, ReadLists(nodes), false, c, o)
  {
    assert nodes[..|nodes|] == nodes;
    PrefixesAreTrees(w, nodes, |nodes|, c, o);
  }

  lemma {:induction false} PrefixesAreTrees(w: Resolver, nodes: seq<Node>, n: nat, c: CState, o: Outcome)
    requires n <= |nodes| && !c.passing
    ensures RunsList(w, nodes, n, c, o) <==> RunsTrees(w, ReadLists(nodes[..n]), n < |nodes|, c, o)
    decreases n
  {
    if n > 0 {
      var i, lists := n - 1, ReadLists(nodes[..n - 1]);
      forall m ensures RunsList(w, nodes, i, c, m) <==> RunsTrees(w, lists, true, c, m) {
        PrefixesAreTrees(w, nodes, i, c, m);
      }
      ListUnfolds(w, nodes, n, c, o);
      ReadsNext(nodes, i);
      StepIsTree(w, nodes, i, lists, c, o);
    }
  }

  lemma StepIsTree(w: Resolver, nodes: seq<Node>, i: nat, lists: seq<AndOr>, c: CState, o: Outcome)
    requires i < |nodes| && !c.passing && lists == ReadLists(nodes[..i])
    requires forall m :: RunsList(w, nodes, i, c, m) <==> RunsTrees(w, lists, true, c, m)
    ensures Steps(w, nodes, i, c, o) <==> RunsTrees(w, WithNext(nodes, i, lists), i + 1 < |nodes|, c, o)
  {
    var open := i + 1 < |nodes|;
    if i == 0 || !(Gate(nodes, i) || Piped(nodes, i)) {
      SingleStep(w, nodes, i, lists, open, c, o);
    } else {
      var first, left := lists[..|lists| - 1], lists[|lists| - 1];
      assert lists == first + [left] && nodes[..i][i - 1] == nodes[i - 1];
      if Gate(nodes, i) {
        GuardStep(w, nodes, i, first, left, NextTree(nodes, i, left), open, c, o);
      } else {
        ReadsWell(nodes, i);
        PipeStep(w, nodes, i, first, left, open, c, o);
      }
    }
  }

  /** The last tree with the next node, where it belongs to it. */
  function NextTree(nodes: seq<Node>, i: nat, left: AndOr): AndOr
    requires 0 < i < |nodes|
  {
    match nodes[i - 1].terminator
    case And => AndThen(left, [nodes[i]])
    case Or => OrElse(left, [nodes[i]])
    case _ => left.(stages := left.stages + [nodes[i]])
  }

  function WithNext(nodes: seq<Node>, i: nat, lists: seq<AndOr>): seq<AndOr>
    requires i < |nodes| && (i > 0 ==> lists != [])
  {
    if i == 0 || !(Gate(nodes, i) || Piped(nodes, i)) then lists + [Single([nodes[i]])]
    else lists[..|lists| - 1] + [NextTree(nodes, i, lists[|lists| - 1])]
  }

  lemma ReadsNext(nodes: seq<Node>, i: nat)
    requires i < |nodes|
    ensures i > 0 ==> ReadLists(nodes[..i]) != []
    ensures ReadLists(nodes[..i + 1]) == WithNext(nodes, i, ReadLists(nodes[..i]))
  {
    var all := nodes[..i + 1];
    assert all[..i] == nodes[..i] && all[i] == nodes[i];
    if i > 0 {
      assert nodes[..i][i - 1] == nodes[i - 1];
    } else {
      assert nodes[..i] == [];
    }
  }

  lemma ListUnfolds(w: Resolver, nodes: seq<Node>, n: nat, c: CState, o: Outcome)
    requires 0 < n <= |nodes|
    ensures RunsList(w, nodes, n, c, o) <==> Steps(w, nodes, n - 1, c, o)
  {
  }

  ghost predicate Steps(w: Resolver, nodes: seq<Node>, i: nat, c: CState, o: Outcome)
    requires i < |nodes|
  {
    exists m :: RunsList(w, nodes, i, c, m) && Advances(w, nodes, i, m, o)
  }

  ghost predicate StepsFrom(w: Resolver, nodes: seq<Node>, i: nat, tree: AndOr, p: Outcome, o: Outcome)
    requires i < |nodes|
  {
    exists m :: After(w, tree, true, p, m) && Advances(w, nodes, i, m, o)
  }

  /** It is enough to compare the last tree before the node with the last tree that holds it. */
  lemma LastTree(w: Resolver, nodes: seq<Node>, i: nat, first: seq<AndOr>, left: AndOr, tree: AndOr, open: bool, c: CState, o: Outcome)
    requires i < |nodes|
    requires forall m :: RunsList(w, nodes, i, c, m) <==> RunsTrees(w, first + [left], true, c, m)
    requires forall p :: RunsTrees(w, first, true, c, p) ==> (StepsFrom(w, nodes, i, left, p, o) <==> After(w, tree, open, p, o))
    ensures Steps(w, nodes, i, c, o) <==> RunsTrees(w, first + [tree], open, c, o)
  {
    var lists, all := first + [left], first + [tree];
    assert lists[..|lists| - 1] == first && lists[|lists| - 1] == left;
    assert all[..|all| - 1] == first && all[|all| - 1] == tree;
    if Steps(w, nodes, i, c, o) {
      var m :| RunsList(w, nodes, i, c, m) && Advances(w, nodes, i, m, o);
      var p :| RunsTrees(w, first, true, c, p) && After(w, left, true, p, m);
      assert StepsFrom(w, nodes, i, left, p, o);
    }
    if RunsTrees(w, all, open, c, o) {
      var p :| RunsTrees(w, first, true, c, p) && After(w, tree, open, p, o);
      assert StepsFrom(w, nodes, i, left, p, o);
      var m :| After(w, left, true, p, m) && Advances(w, nodes, i, m, o);
      assert RunsTrees(w, lists, true, c, m);
    }
  }

  /** A pipeline that is not guarded. */
  lemma SingleStep(w: Resolver, nodes: seq<Node>, i: nat, lists: seq<AndOr>, open: bool, c: CState, o: Outcome)
    requires i < |nodes| && !Gate(nodes, i) && !Piped(nodes, i)
    requires forall m :: RunsList(w, nodes, i, c, m) <==> RunsTrees(w, lists, true, c, m)
    ensures Steps(w, nodes, i, c, o) <==> RunsTrees(w, lists + [Single([nodes[i]])], open, c, o)
  {
    var tree := Single([nodes[i]]);
    var all := lists + [tree];
    assert all[..|all| - 1] == lists && all[|all| - 1] == tree;
    forall m ensures Advances(w, nodes, i, m, o) <==> After(w, tree, open, m, o) {
      if m.Normal? {
        OneStage(w, nodes[i], m.state, o);
      }
    }
    if Steps(w, nodes, i, c, o) {
      var m :| RunsList(w, nodes, i, c, m) && Advances(w, nodes, i, m, o);
      assert RunsTrees(w, lists, true, c, m) && After(w, tree, open, m, o);
    }
    if RunsTrees(w, all, open, c, o) {
      var m :| RunsTrees(w, lists, true, c, m) && After(w, tree, open, m, o);
      assert RunsList(w, nodes, i, c, m) && Advances(w, nodes, i, m, o);
    }
  }

  lemma OneStage(w: Resolver, node: Node, c: CState, o: Outcome)
    ensures RunsStages(w, [node], 1, c, o) <==> RunsStage(w, node, false, c, o)
  {
    assert RunsStages(w, [node], 0, c, Normal(c));
    if RunsStages(w, [node], 1, c, o) {
      var m :| RunsStages(w, [node], 0, c, m) && NextStage(w, [node][0], false, m, o);
    }
    if RunsStage(w, node, false, c, o) {
      assert NextStage(w, [node][0], false, Normal(c), o);
    }
  }

  // ----- behind && and || -----

  lemma GuardStep(w: Resolver, nodes: seq<Node>, i: nat, first: seq<AndOr>, left: AndOr, tree: AndOr, open: bool, c: CState, o: Outcome)
    requires i < |nodes| && Gate(nodes, i) && open == (i + 1 < |nodes|)
    requires tree == (if nodes[i - 1].terminator.And? then AndThen(left, [nodes[i]]) else OrElse(left, [nodes[i]]))
    requires forall m :: RunsList(w, nodes, i, c, m) <==> RunsTrees(w, first + [left], true, c, m)
    ensures Steps(w, nodes, i, c, o) <==> RunsTrees(w, first + [tree], open, c, o)
  {
    forall p ensures StepsFrom(w, nodes, i, left, p, o) <==> After(w, tree, open, p, o) {
      GuardedFrom(w, nodes, i, left, tree, open, p, o);
    }
    LastTree(w, nodes, i, first, left, tree, open, c, o);
  }

  lemma GuardedFrom(w: Resolver, nodes: seq<Node>, i: nat, left: AndOr, tree: AndOr, open: bool, p: Outcome, o: Outcome)
    requires i < |nodes| && Gate(nodes, i) && open == (i + 1 < |nodes|)
    requires tree == (if nodes[i - 1].terminator.And? then AndThen(left, [nodes[i]]) else OrElse(left, [nodes[i]]))
    ensures StepsFrom(w, nodes, i, left, p, o) <==> After(w, tree, open, p, o)
  {
    var wanted := nodes[i - 1].terminator.And?;
    if p.Normal? {
      forall m ensures Advances(w, nodes, i, m, o) <==> Guarded(w, wanted, [nodes[i]], open, m, o) {
        GateMeans(w, nodes, i, open, m, o);
      }
      if StepsFrom(w, nodes, i, left, p, o) {
        var m :| After(w, left, true, p, m) && Advances(w, nodes, i, m, o);
        assert RunsTree(w, left, true, p.state, m) && Guarded(w, wanted, [nodes[i]], open, m, o);
      }
      if After(w, tree, open, p, o) {
        var m :| RunsTree(w, left, true, p.state, m) && Guarded(w, wanted, [nodes[i]], open, m, o);
        assert After(w, left, true, p, m) && Advances(w, nodes, i, m, o);
      }
    } else {
      assert After(w, left, true, p, p);
    }
  }

  lemma GateMeans(w: Resolver, nodes: seq<Node>, i: nat, open: bool, m: Outcome, o: Outcome)
    requires i < |nodes| && Gate(nodes, i) && open == (i + 1 < |nodes|)
    ensures Advances(w, nodes, i, m, o) <==> Guarded(w, nodes[i - 1].terminator.And?, [nodes[i]], open, m, o)
  {
    if m.Normal? {
      OneStage(w, nodes[i], m.state.(free := false), o);
    }
  }

  // ----- behind | -----

  lemma PipeStep(w: Resolver, nodes: seq<Node>, i: nat, first: seq<AndOr>, left: AndOr, open: bool, c: CState, o: Outcome)
    requires i < |nodes| && Piped(nodes, i) && open == (i + 1 < |nodes|) && !c.passing
    requires WellRead(first + [left], nodes[i - 1])
    requires forall m :: RunsList(w, nodes, i, c, m) <==> RunsTrees(w, first + [left], true, c, m)
    ensures Steps(w, nodes, i, c, o) <==> RunsTrees(w, first + [left.(stages := left.stages + [nodes[i]])], open, c, o)
  {
    var tree := left.(stages := left.stages + [nodes[i]]);
    assert (first + [left])[..|first|] == first;
    forall p | RunsTrees(w, first, true, c, p) ensures StepsFrom(w, nodes, i, left, p, o) <==> After(w, tree, open, p, o) {
      if !p.Blocked? {
        TreesPassing(w, first, c, p);
      }
      PipedFrom(w, nodes, i, left, open, p, o);
    }
    LastTree(w, nodes, i, first, left, tree, open, c, o);
  }

  /** No pipeline but the last one is unfinished. */
  predicate Closed(tree: AndOr) {
    tree.Single? || (!Unfinished(tree.left.stages) && Closed(tree.left))
  }

  predicate AllClosed(lists: seq<AndOr>) {
    forall k | 0 <= k < |lists| :: Closed(lists[k]) && !Unfinished(lists[k].stages)
  }

  lemma {:induction false} TreesPassing(w: Resolver, lists: seq<AndOr>, c: CState, o: Outcome)
    requires !c.passing && AllClosed(lists) && RunsTrees(w, lists, true, c, o) && !o.Blocked?
    ensures !o.state.passing
    decreases |lists|
  {
    if lists != [] {
      var first, last := lists[..|lists| - 1], lists[|lists| - 1];
      var m :| RunsTrees(w, first, true, c, m) && After(w, last, true, m, o);
      TreesPassing(w, first, c, m);
      if m.Normal? {
        TreePassing(w, last, m.state, o);
      }
    }
  }

  lemma {:induction false} TreePassing(w: Resolver, tree: AndOr, c: CState, o: Outcome)
    requires !c.passing && Closed(tree) && !Unfinished(tree.stages) && RunsTree(w, tree, true, c, o) && !o.Blocked?
    ensures !o.state.passing
    decreases tree
  {
    if tree.Single? {
      StagesPassing(w, tree.stages, |tree.stages|, c, o);
    } else {
      var m :| RunsTree(w, tree.left, true, c, m) && Guarded(w, tree.AndThen?, tree.stages, true, m, o);
      TreePassing(w, tree.left, c, m);
      if m.Normal? && m.state.status == tree.AndThen? {
        StagesPassing(w, tree.stages, |tree.stages|, m.state.(free := false), o);
      }
    }
  }

  lemma PipedFrom(w: Resolver, nodes: seq<Node>, i: nat, left: AndOr, open: bool, p: Outcome, o: Outcome)
    requires i < |nodes| && Piped(nodes, i) && open == (i + 1 < |nodes|)
    requires EndsWith(left, nodes[i - 1]) && Closed(left) && (p.Blocked? || !p.state.passing)
    ensures StepsFrom(w, nodes, i, left, p, o) <==> After(w, left.(stages := left.stages + [nodes[i]]), open, p, o)
  {
    if !p.Normal? {
      assert After(w, left, true, p, p);
    } else if left.Single? {
      MoreStages(w, nodes, i, left.stages, p.state, o);
      if StepsFrom(w, nodes, i, left, p, o) {
        var m :| After(w, left, true, p, m) && Advances(w, nodes, i, m, o);
        assert Continues(w, nodes, i, left.stages, p.state, o);
      }
      if Continues(w, nodes, i, left.stages, p.state, o) {
        var m :| RunsStages(w, left.stages, |left.stages|, p.state, m) && Advances(w, nodes, i, m, o);
        assert After(w, left, true, p, m);
      }
    } else {
      GuardedPipe(w, nodes, i, left, open, p, o);
    }
  }

  /** The pipeline so far, and then node i. */
  ghost predicate Continues(w: Resolver, nodes: seq<Node>, i: nat, stages: seq<Node>, c: CState, o: Outcome)
    requires i < |nodes|
  {
    exists m :: RunsStages(w, stages, |stages|, c, m) && Advances(w, nodes, i, m, o)
  }

  lemma MoreStages(w: Resolver, nodes: seq<Node>, i: nat, stages: seq<Node>, c: CState, o: Outcome)
    requires i < |nodes| && Piped(nodes, i) && stages != [] && !c.passing
    ensures Continues(w, nodes, i, stages, c, o) <==> RunsStages(w, stages + [nodes[i]], |stages| + 1, c, o)
  {
    var all, n := stages + [nodes[i]], |stages|;
    forall m ensures RunsStages(w, all, n, c, m) <==> RunsStages(w, stages, n, c, m) {
      SameStages(w, all, stages, n, c, m);
    }
    forall m | RunsStages(w, stages, n, c, m) ensures Advances(w, nodes, i, m, o) <==> NextStage(w, all[n], true, m, o) {
      if m.Normal? {
        StagesPassing(w, stages, n, c, m);
      }
    }
    if Continues(w, nodes, i, stages, c, o) {
      var m :| RunsStages(w, stages, n, c, m) && Advances(w, nodes, i, m, o);
      assert RunsStages(w, all, n, c, m) && NextStage(w, all[n], n > 0, m, o);
    }
    if RunsStages(w, all, n + 1, c, o) {
      var m :| RunsStages(w, all, n, c, m) && NextStage(w, all[n], n > 0, m, o);
      assert RunsStages(w, stages, n, c, m);
    }
  }

  lemma {:induction false} SameStages(w: Resolver, a: seq<Node>, b: seq<Node>, n: nat, c: CState, o: Outcome)
    requires n <= |a| && n <= |b| && a[..n] == b[..n]
    ensures RunsStages(w, a, n, c, o) <==> RunsStages(w, b, n, c, o)
    decreases n
  {
    if n > 0 {
      var i := n - 1;
      assert a[..i] == a[..n][..i] && a[i] == a[..n][i] && b[i] == b[..n][i];
      forall m ensures RunsStages(w, a, i, c, m) <==> RunsStages(w, b, i, c, m) {
        SameStages(w, a, b, i, c, m);
      }
    }
  }

  lemma GuardedPipe(w: Resolver, nodes: seq<Node>, i: nat, left: AndOr, open: bool, p: Outcome, o: Outcome)
    requires i < |nodes| && Piped(nodes, i) && open == (i + 1 < |nodes|) && p.Normal? && !p.state.passing
    requires !left.Single? && EndsWith(left, nodes[i - 1]) && Closed(left)
    ensures StepsFrom(w, nodes, i, left, p, o) <==> After(w, left.(stages := left.stages + [nodes[i]]), open, p, o)
  {
    var wanted, stages, all := left.AndThen?, left.stages, left.stages + [nodes[i]];
    forall q | RunsTree(w, left.left, true, p.state, q)
      ensures GuardedThen(w, nodes, i, wanted, stages, q, o) <==> Guarded(w, wanted, all, open, q, o)
    {
      if !q.Blocked? {
        TreePassing(w, left.left, p.state, q);
      }
      GuardedMore(w, nodes, i, wanted, stages, open, q, o);
    }
    if StepsFrom(w, nodes, i, left, p, o) {
      var m :| After(w, left, true, p, m) && Advances(w, nodes, i, m, o);
      var q :| RunsTree(w, left.left, true, p.state, q) && Guarded(w, wanted, stages, true, q, m);
      assert GuardedThen(w, nodes, i, wanted, stages, q, o);
    }
    if After(w, left.(stages := left.stages + [nodes[i]]), open, p, o) {
      var q :| RunsTree(w, left.left, true, p.state, q) && Guarded(w, wanted, all, open, q, o);
      var m :| Guarded(w, wanted, stages, true, q, m) && Advances(w, nodes, i, m, o);
      assert RunsTree(w, left, true, p.state, m);
    }
  }

  ghost predicate GuardedThen(w: Resolver, nodes: seq<Node>, i: nat, wanted: bool, stages: seq<Node>, q: Outcome, o: Outcome)
    requires i < |nodes|
  {
    exists m :: Guarded(w, wanted, stages, true, q, m) && Advances(w, nodes, i, m, o)
  }

  lemma GuardedMore(w: Resolver, nodes: seq<Node>, i: nat, wanted: bool, stages: seq<Node>, open: bool, q: Outcome, o: Outcome)
    requires i < |nodes| && Piped(nodes, i) && open == (i + 1 < |nodes|) && (q.Blocked? || !q.state.passing)
    requires stages != [] && stages[|stages| - 1] == nodes[i - 1]
    ensures GuardedThen(w, nodes, i, wanted, stages, q, o) <==> Guarded(w, wanted, stages + [nodes[i]], open, q, o)
  {
    var all := stages + [nodes[i]];
    if !q.Normal? {
      assert Guarded(w, wanted, stages, true, q, q);
    } else {
      var asked := q.state.(free := false);
      MoreStages(w, nodes, i, stages, asked, o);
      var passed := Normal(asked.(passing := true));
      var blocked := Blocked(q.state, true);
      assert q.state.free ==> Guarded(w, wanted, stages, true, q, blocked) && (Advances(w, nodes, i, blocked, o) <==> o == blocked);
      assert Advances(w, nodes, i, passed, o) <==> o == Normal(asked.(passing := open && Unfinished(all)));
      if GuardedThen(w, nodes, i, wanted, stages, q, o) {
        var m :| Guarded(w, wanted, stages, true, q, m) && Advances(w, nodes, i, m, o);
        if q.state.status == wanted && RunsStages(w, stages, |stages|, asked, m) {
          assert Continues(w, nodes, i, stages, asked, o);
        }
      }
      if Guarded(w, wanted, all, open, q, o) {
        if q.state.status != wanted {
          assert Guarded(w, wanted, stages, true, q, passed);
        } else if RunsStages(w, all, |all|, asked, o) {
          assert Continues(w, nodes, i, stages, asked, o);
          var m :| RunsStages(w, stages, |stages|, asked, m) && Advances(w, nodes, i, m, o);
          assert Guarded(w, wanted, stages, true, q, m);
        }
      }
    }
  }

  predicate WellRead(lists: seq<AndOr>, node: Node) {
    && lists != [] && EndsWith(lists[|lists| - 1], node)
    && AllClosed(lists[..|lists| - 1]) && Closed(lists[|lists| - 1])
  }

  lemma {:induction false} ReadsWell(nodes: seq<Node>, n: nat)
    requires 0 < n <= |nodes|
    ensures WellRead(ReadLists(nodes[..n]), nodes[n - 1])
    decreases n
  {
    var i := n - 1;
    ReadsNext(nodes, i);
    if i > 0 {
      ReadsWell(nodes, i);
    } else {
      assert nodes[..i] == [];
    }
    NextIsWell(nodes, i, ReadLists(nodes[..i]));
  }

  lemma NextIsWell(nodes: seq<Node>, i: nat, lists: seq<AndOr>)
    requires i < |nodes| && if i == 0 then lists == [] else WellRead(lists, nodes[i - 1])
    ensures WellRead(WithNext(nodes, i, lists), nodes[i])
  {
    if i > 0 {
      var first, left := lists[..|lists| - 1], lists[|lists| - 1];
      var all := WithNext(nodes, i, lists);
      if Gate(nodes, i) || Piped(nodes, i) {
        assert all == first + [NextTree(nodes, i, left)];
        assert all[..|all| - 1] == first;
      } else {
        assert all[..|all| - 1] == lists;
        assert lists == first + [left];
      }
    }
  }

  // ----- `case` with a fixed word -----

  /** The patterns that match the word of one `case`; catch-all patterns always do. */
  ghost predicate Matching(arms: seq<Arm>, matching: set<nat>) {
    && (forall i | i in matching :: i < |arms|)
    && (forall i | 0 <= i < |arms| && arms[i].catchAll :: i in matching)
  }

  /** `case` as section 2.9.4 reads: the first arm that matches, of those from `start` on. */
  ghost predicate RunsMatching(w: Resolver, arms: seq<Arm>, matching: set<nat>, start: nat, c: CState, o: Outcome)
    requires start <= |arms|
    decreases |arms| - start, 2
  {
    if start == |arms| then o == Normal(c.(status := true, free := false))
    else if start in matching then RunsMatched(w, arms, matching, start, c, o)
    else RunsMatching(w, arms, matching, start + 1, c, o)
  }

  ghost predicate RunsMatched(w: Resolver, arms: seq<Arm>, matching: set<nat>, i: nat, c: CState, o: Outcome)
    requires i <= |arms|
    decreases |arms| - i, 0
  {
    if i == |arms| then o == Normal(c)
    else exists m :: RunsList(w, arms[i].nodes, |arms[i].nodes|, c, m) && LeavesMatched(w, arms, matching, i, m, o)
  }

  ghost predicate LeavesMatched(w: Resolver, arms: seq<Arm>, matching: set<nat>, i: nat, m: Outcome, o: Outcome)
    requires i < |arms|
    decreases |arms| - i - 1, 3
  {
    if !m.Normal? || arms[i].terminator.Break? then o == m
    else if arms[i].terminator.Fallthrough? then RunsMatched(w, arms, matching, i + 1, m.state, o)
    else RunsMatching(w, arms, matching, i + 1, m.state, o)
  }

  lemma {:induction false} MatchingSelects(w: Resolver, arms: seq<Arm>, matching: set<nat>, start: nat, c: CState, o: Outcome)
    requires start <= |arms| && Matching(arms, matching)
    requires RunsMatching(w, arms, matching, start, c, o)
    ensures SelectsArm(w, arms, start, c, o)
    decreases |arms| - start, 2
  {
    if start < |arms| {
      if start in matching {
        MatchedRuns(w, arms, matching, start, c, o);
        assert NoCatchAll(arms, start, start);
      } else {
        MatchingSelects(w, arms, matching, start + 1, c, o);
        if i :| start + 1 <= i < |arms| && NoCatchAll(arms, start + 1, i) && RunsArm(w, arms, i, c, o) {
          assert NoCatchAll(arms, start, i);
        }
      }
    }
  }

  lemma {:induction false} MatchedRuns(w: Resolver, arms: seq<Arm>, matching: set<nat>, i: nat, c: CState, o: Outcome)
    requires i <= |arms| && Matching(arms, matching)
    requires RunsMatched(w, arms, matching, i, c, o)
    ensures RunsArm(w, arms, i, c, o)
    decreases |arms| - i, 0
  {
    if i < |arms| {
      var m :| RunsList(w, arms[i].nodes, |arms[i].nodes|, c, m) && LeavesMatched(w, arms, matching, i, m, o);
      if m.Normal? && arms[i].terminator.Fallthrough? {
        MatchedRuns(w, arms, matching, i + 1, m.state, o);
      } else if m.Normal? && arms[i].terminator.Retest? {
        MatchingSelects(w, arms, matching, i + 1, m.state, o);
      }
      assert LeavesArm(w, arms, i, m, o);
    }
  }

  /** Only patterns from `start` on matter. */
  lemma {:induction false} SameFrom(w: Resolver, arms: seq<Arm>, a: set<nat>, b: set<nat>, start: nat, c: CState, o: Outcome)
    requires start <= |arms|
    requires forall i: nat | i >= start :: i in a <==> i in b
    ensures RunsMatching(w, arms, a, start, c, o) ==> RunsMatching(w, arms, b, start, c, o)
    ensures RunsMatched(w, arms, a, start, c, o) ==> RunsMatched(w, arms, b, start, c, o)
    decreases |arms| - start
  {
    if start < |arms| {
      if RunsMatched(w, arms, a, start, c, o) {
        var m :| RunsList(w, arms[start].nodes, |arms[start].nodes|, c, m) && LeavesMatched(w, arms, a, start, m, o);
        SameFrom(w, arms, a, b, start + 1, m.state, o);
        assert LeavesMatched(w, arms, b, start, m, o);
      }
      SameFrom(w, arms, a, b, start + 1, c, o);
    }
  }

  lemma {:induction false} SkipsTo(w: Resolver, arms: seq<Arm>, matching: set<nat>, start: nat, i: nat, c: CState, o: Outcome)
    requires start <= i < |arms| && i in matching
    requires forall k: nat | start <= k < i :: k !in matching
    requires RunsMatched(w, arms, matching, i, c, o)
    ensures RunsMatching(w, arms, matching, start, c, o)
    decreases i - start
  {
    if start < i {
      SkipsTo(w, arms, matching, start + 1, i, c, o);
    }
  }

  lemma {:induction false} NoneMatch(w: Resolver, arms: seq<Arm>, matching: set<nat>, start: nat, c: CState)
    requires start <= |arms|
    requires forall k: nat | start <= k < |arms| :: k !in matching
    ensures RunsMatching(w, arms, matching, start, c, Normal(c.(status := true, free := false)))
    decreases |arms| - start
  {
    if start < |arms| {
      NoneMatch(w, arms, matching, start + 1, c);
    }
  }

  /** The arms a run selects one by one are those of one set of matching patterns. */
  lemma {:induction false} SelectsMatching(w: Resolver, arms: seq<Arm>, start: nat, c: CState, o: Outcome) returns (matching: set<nat>)
    requires start <= |arms| && SelectsArm(w, arms, start, c, o)
    ensures Matching(arms, matching) && RunsMatching(w, arms, matching, start, c, o)
    decreases |arms| - start, 2
  {
    if i :| start <= i < |arms| && NoCatchAll(arms, start, i) && RunsArm(w, arms, i, c, o) {
      var later := RunsMatchingArm(w, arms, i, c, o);
      matching := (set k | k in later && (k > i || k < start)) + {i};
      SameAfter(w, arms, later, matching, i, c, o);
      SkipsTo(w, arms, matching, start, i, c, o);
    } else {
      matching := set k: nat | k < |arms| && arms[k].catchAll;
      NoneMatch(w, arms, matching, start, c);
    }
  }

  lemma SameAfter(w: Resolver, arms: seq<Arm>, a: set<nat>, b: set<nat>, i: nat, c: CState, o: Outcome)
    requires i < |arms| && RunsMatched(w, arms, a, i, c, o)
    requires forall k: nat | k > i :: k in a <==> k in b
    ensures RunsMatched(w, arms, b, i, c, o)
  {
    var m :| RunsList(w, arms[i].nodes, |arms[i].nodes|, c, m) && LeavesMatched(w, arms, a, i, m, o);
    SameFrom(w, arms, a, b, i + 1, m.state, o);
    assert LeavesMatched(w, arms, b, i, m, o);
  }

  lemma {:induction false} RunsMatchingArm(w: Resolver, arms: seq<Arm>, i: nat, c: CState, o: Outcome) returns (matching: set<nat>)
    requires i < |arms| && RunsArm(w, arms, i, c, o)
    ensures Matching(arms, matching) && RunsMatched(w, arms, matching, i, c, o)
    decreases |arms| - i, 0
  {
    var m :| RunsList(w, arms[i].nodes, |arms[i].nodes|, c, m) && LeavesArm(w, arms, i, m, o);
    matching := set k: nat | k < |arms| && arms[k].catchAll;
    if m.Normal? && arms[i].terminator.Fallthrough? {
      if i + 1 < |arms| {
        matching := RunsMatchingArm(w, arms, i + 1, m.state, o);
      }
      assert RunsArm(w, arms, i + 1, m.state, o);
      assert RunsMatched(w, arms, matching, i + 1, m.state, o);
    } else if m.Normal? && arms[i].terminator.Retest? {
      matching := SelectsMatching(w, arms, i + 1, m.state, o);
    }
    assert LeavesMatched(w, arms, matching, i, m, o);
  }

  /** Choosing arms one at a time is the same as fixing, once, which patterns match. */
  lemma CaseHasOneWord(w: Resolver, arms: seq<Arm>, c: CState, o: Outcome)
    ensures SelectsArm(w, arms, 0, c, o) <==>
            exists matching :: Matching(arms, matching) && RunsMatching(w, arms, matching, 0, c, o)
  {
    if SelectsArm(w, arms, 0, c, o) {
      var matching := SelectsMatching(w, arms, 0, c, o);
    }
    forall matching | Matching(arms, matching) && RunsMatching(w, arms, matching, 0, c, o) ensures SelectsArm(w, arms, 0, c, o) {
      MatchingSelects(w, arms, matching, 0, c, o);
    }
  }

  // ----- an exit behind a redirection -----

  /** Outside strict mode, the runs of an error-free termination command are all reported
      exactly when no redirection hides the termination from the evaluator. */
  lemma HiddenExitEscapes(w: Resolver, command: Command, terminator: Terminator, a: FlowState, c: CState)
    requires command.Simple? && command.executable.Terminate?
    requires EvaluateCommand(command, terminator, a, false).1 == [] && Covers(a, c)
    ensures (forall o :: RunsCommand(w, command, c, o) ==> Reported(EvaluateCommand(command, terminator, a, false).0, o)) <==>
            !HidesControl(command)
  {
    var r := EvaluateCommand(command, terminator, a, false).0;
    if HidesControl(command) {
      var o := CommandRun(w, command, c);
      assert RunsCommand(w, command, c, o) && o.Exited?;
      assert r.failedTerminated == [] && r.successfulTerminated == [];
      assert !Reported(r, o);
    } else {
      forall o | RunsCommand(w, command, c, o) ensures Reported(r, o) {
        CommandSound(command, terminator, a, false, w, c, o);
      }
    }
  }

  /** `exit N > f`, `exit N`, `false` and `docker build`, as the classifiers report them. */
  function HiddenExit(code: int): Command { Simple([], [], true, Terminate(Numeric(code)), false, false) }

  function Exit(code: int): Command { Simple([], [], false, Terminate(Numeric(code)), false, false) }

  function False(): Command { Simple([], [], false, Run(Fails), false, false) }

  function DockerBuild(build: Build): Command { Simple([build], [], false, Run(Opaque(true)), false, false) }

  function FailingGroup(code: int): Node {
    GroupNode([], And, [CommandNode([], Sequence, HiddenExit(code)), CommandNode([], End, False())], true, false)
  }

  /** What a hidden exit costs: in `(exit 0 > f; false) && docker build .` the evaluation steps report no
      error and take the group to a single failed state, which passes the build by; and a run builds. */
  lemma HiddenExitMissesBuild(code: int, build: Build)
    requires code % 256 == 0
    ensures var (exited, none) := EvaluateCommand(HiddenExit(code), Sequence, INITIAL, false);
            && none == [] && |exited.active| == 1 && exited == FlowResult(exited.active, [], [])
            && var (failed, none') := EvaluateCommand(False(), End, exited.active[0], false);
               && none' == [] && |failed.active| == 1 && failed == FlowResult(failed.active, [], [])
               && var after := GroupResult(FailingGroup(code), INITIAL, failed);
                  && after == FlowResult([INITIAL.(status := Failure, gate := And)], [], [])
                  && GateBranches(after.active[0], false) == Branches(None, Some(after.active[0]), [])
    ensures Builds([FailingGroup(code), CommandNode([], End, DockerBuild(build))], build)
  {
    var (exited, _) := EvaluateCommand(HiddenExit(code), Sequence, INITIAL, false);
    assert exited.active[0] == INITIAL.(status := Unknown);
    var (failed, _) := EvaluateCommand(False(), End, exited.active[0], false);
    assert failed.active[0] == INITIAL.(status := Failure, gate := End);
    assert GroupResult(FailingGroup(code), INITIAL, failed).active == [INITIAL.(status := Failure, gate := And)];
    HiddenExitRuns(code, build);
  }

  /** Some run, under every resolver, performs this build and no other. */
  ghost predicate Builds(nodes: seq<Node>, build: Build) {
    forall w: Resolver :: RunBuilds(w, nodes, build)
  }

  ghost predicate RunBuilds(w: Resolver, nodes: seq<Node>, build: Build) {
    exists o :: RunsList(w, nodes, |nodes|, START, o) && o.Normal? && o.state.builds == {KeyOf(build)}
  }

  lemma HiddenExitRuns(code: int, build: Build)
    requires code % 256 == 0
    ensures Builds([FailingGroup(code), CommandNode([], End, DockerBuild(build))], build)
  {
    var inner := FailingGroup(code).nodes;
    var nodes := [FailingGroup(code), CommandNode([], End, DockerBuild(build))];
    var c := START.(clock := 1);
    forall w: Resolver ensures RunBuilds(w, nodes, build) {
      var o := CommandRun(w, DockerBuild(build), c);
      assert RunsBody(w, inner[0], START, Exited(c));
      NextRuns(w, inner, 0, START, Normal(START), Exited(c));
      assert RunsList(w, inner, 2, START, Exited(c));
      assert RunsBody(w, nodes[0], START, Normal(c));
      NextRuns(w, nodes, 0, START, Normal(START), Normal(c));
      NextRuns(w, nodes, 1, START, Normal(c), o);
      KeysOfOne(build);
      assert o.state.builds == {KeyOf(build)};
    }
  }

  lemma KeysOfOne(build: Build)
    ensures KeysOf([build]) == {KeyOf(build)}
  {
    assert forall b :: b in [build] <==> b == build;
  }

  /** One more node, without substitutions, is passed by, or run where it is no component of a pipeline. */
  lemma NextRuns(w: Resolver, nodes: seq<Node>, i: nat, c: CState, m: Outcome, o: Outcome)
    requires i < |nodes| && nodes[i].expansions == [] && RunsList(w, nodes, i, c, m) && m.Normal?
    requires if Skips(nodes, i, m.state) then o == Normal(Passed(nodes, i, m.state))
             else !ConcurrentComponent(Piped(nodes, i), nodes[i].terminator) && RunsBody(w, nodes[i], Entered(nodes, i, m.state), o)
    ensures RunsList(w, nodes, i + 1, c, o)
  {
    var entered := Entered(nodes, i, m.state);
    assert Substitutes(w, [], 0, entered, entered);
    if !Skips(nodes, i, m.state) {
      assert RunsNode(w, nodes[i], entered, o);
    }
    assert Advances(w, nodes, i, m, o);
  }

  // ----- a pipeline that is passed by -----

  /** `false && producer | exit 0; docker build .` */
  function GuardedPipeline(producer: Command, build: Build): seq<Node> {
    [CommandNode([], And, False()), CommandNode([], Pipe, producer), CommandNode([], Sequence, Exit(0)),
     CommandNode([], End, DockerBuild(build))]
  }

  /** What a guarded pipeline costs: the evaluation steps pass only its first component by, take the next one
      for a command of the list, and end the shell with it; and a run passes both by and builds. */
  lemma GuardedPipelineMissesBuild(producer: Command, build: Build)
    ensures var failed := INITIAL.(status := Failure, gate := And);
            var passed := failed.(gate := SettledGate(Pipe));
            && EvaluateCommand(False(), And, INITIAL, false) == (FlowResult([failed], [], []), [])
            && GateBranches(failed, false) == Branches(None, Some(failed), [])
            && GateBranches(passed, false) == Branches(Some(passed), None, [])
            && EvaluateCommand(Exit(0), Sequence, passed, false) == (FlowResult([], [], [passed.(status := Success)]), [])
            && !ConcurrentComponent(passed.gate.Pipe?, Sequence)
    ensures Builds(GuardedPipeline(producer, build), build)
  {
    var nodes := GuardedPipeline(producer, build);
    assert INITIAL.builds + False().builds == INITIAL.builds && INITIAL.builds + Exit(0).builds == INITIAL.builds;
    forall w: Resolver ensures RunBuilds(w, nodes, build) {
      GuardedPipelineRuns(w, producer, build);
    }
  }

  lemma GuardedPipelineRuns(w: Resolver, producer: Command, build: Build)
    ensures RunBuilds(w, GuardedPipeline(producer, build), build)
  {
    var nodes := GuardedPipeline(producer, build);
    var failed := START.(status := false, clock := 1);
    var passing := failed.(passing := true);
    var o := CommandRun(w, DockerBuild(build), failed);
    NextRuns(w, nodes, 0, START, Normal(START), Normal(failed));
    NextRuns(w, nodes, 1, START, Normal(failed), Normal(passing));
    NextRuns(w, nodes, 2, START, Normal(passing), Normal(failed));
    NextRuns(w, nodes, 3, START, Normal(failed), o);
    KeysOfOne(build);
    assert o.state.builds == {KeyOf(build)};
  }
}
