/** Background lists: `a && b &` becomes a subshell group that runs in the background. */
module ShellAsyncLists {
  import opened ShellSyntax

  // ----- undoing the restructuring -----

  /** The nodes a restructured node stands for. */
  function Unwrap(node: Node): seq<Node>
    decreases node, 1
  {
    if node.terminator.Background? && node.GroupNode? then
      var inner := UnwrapAll(node.nodes);
      if inner == [] then [] else inner[..|inner| - 1] + [inner[|inner| - 1].(terminator := Background)]
    else [UnwrapInside(node)]
  }

  function UnwrapInside(node: Node): Node
    decreases node, 0
  {
    match node
    case CommandNode(_, _, _) => node
    case GroupNode(_, _, nodes, _, _) => node.(nodes := UnwrapAll(nodes))
    case CaseNode(_, _, arms) => node.(arms := UnwrapArms(arms))
  }

  function UnwrapAll(nodes: seq<Node>): seq<Node>
    decreases nodes
  {
    if nodes == [] then [] else Unwrap(nodes[0]) + UnwrapAll(nodes[1..])
  }

  function UnwrapArms(arms: seq<Arm>): seq<Arm>
    decreases arms
  {
    if arms == [] then [] else [arms[0].(nodes := UnwrapAll(arms[0].nodes))] + UnwrapArms(arms[1..])
  }

  // ----- measures -----

  function Count(nodes: seq<Node>): nat
    decreases nodes
  {
    if nodes == [] then 0 else CountNode(nodes[0]) + Count(nodes[1..])
  }

  function CountNode(node: Node): nat
    decreases node
  {
    1 + match node
        case CommandNode(_, _, _) => 0
        case GroupNode(_, _, nodes, _, _) => Count(nodes)
        case CaseNode(_, _, arms) => CountArms(arms)
  }

  function CountArms(arms: seq<Arm>): nat
    decreases arms
  {
    if arms == [] then 0 else Count(arms[0].nodes) + CountArms(arms[1..])
  }

  /** How many background terminators there are, at every level. */
  function Backgrounds(nodes: seq<Node>): nat
    decreases nodes
  {
    if nodes == [] then 0 else BackgroundsIn(nodes[0]) + Backgrounds(nodes[1..])
  }

  function BackgroundsIn(node: Node): nat
    decreases node
  {
    (if node.terminator.Background? then 1 else 0) + BackgroundsInside(node)
  }

  function BackgroundsInside(node: Node): nat
    decreases node, 0
  {
    match node
    case CommandNode(_, _, _) => 0
    case GroupNode(_, _, nodes, _, _) => Backgrounds(nodes)
    case CaseNode(_, _, arms) => BackgroundsInArms(arms)
  }

  function BackgroundsInArms(arms: seq<Arm>): nat
    decreases arms
  {
    if arms == [] then 0 else Backgrounds(arms[0].nodes) + BackgroundsInArms(arms[1..])
  }

  /** Terminators that join a node to the next one of its list. */
  predicate Linked(terminator: Terminator) {
    terminator.And? || terminator.Or? || terminator.Pipe?
  }

  /** Nodes linked to each other, and to nothing that follows. */
  predicate OneList(nodes: seq<Node>) {
    && nodes != [] && nodes[|nodes| - 1].terminator.End?
    && forall i | 0 <= i < |nodes| - 1 :: Linked(nodes[i].terminator)
  }

  /** Every background terminator, at every level, is that of a plain subshell group that holds one
      whole list: no node in front of the group is linked to it. */
  predicate OnlyGroups(nodes: seq<Node>)
    decreases nodes
  {
    nodes == [] || (OnlyGroupsNode(nodes[0]) && Apart(nodes, 1) && OnlyGroups(nodes[1..]))
  }

  predicate Apart(nodes: seq<Node>, k: nat) {
    0 < k < |nodes| && nodes[k].terminator.Background? ==> !Linked(nodes[k - 1].terminator)
  }

  predicate OnlyGroupsNode(node: Node)
    decreases node, 1
  {
    && (node.terminator.Background? ==> InsertedGroup(node))
    && OnlyGroupsInside(node)
  }

  predicate InsertedGroup(node: Node) {
    && node.GroupNode? && node == GroupNode([], Background, node.nodes, true, false)
    && OneList(node.nodes)
  }

  predicate OnlyGroupsInside(node: Node)
    decreases node, 0
  {
    match node
    case CommandNode(_, _, _) => true
    case GroupNode(_, _, nodes, _, _) => OnlyGroups(nodes)
    case CaseNode(_, _, arms) => OnlyGroupsArms(arms)
  }

  predicate OnlyGroupsArms(arms: seq<Arm>)
    decreases arms
  {
    arms == [] || (OnlyGroups(arms[0].nodes) && OnlyGroupsArms(arms[1..]))
  }

  // ----- appending -----

  lemma {:induction false} UnwrapAppend(left: seq<Node>, right: seq<Node>)
    ensures UnwrapAll(left + right) == UnwrapAll(left) + UnwrapAll(right)
  {
    if left == [] {
      assert left + right == right;
    } else {
      assert (left + right)[1..] == left[1..] + right;
      UnwrapAppend(left[1..], right);
    }
  }

  lemma {:induction false} MeasuresAppend(left: seq<Node>, right: seq<Node>)
    ensures Count(left + right) == Count(left) + Count(right)
    ensures Backgrounds(left + right) == Backgrounds(left) + Backgrounds(right)
    ensures OnlyGroups(left + right) <==> OnlyGroups(left) && OnlyGroups(right) && Apart(left + right, |left|)
  {
    if left == [] {
      assert left + right == right;
    } else {
      assert (left + right)[1..] == left[1..] + right;
      MeasuresAppend(left[1..], right);
    }
  }

  lemma OneNode(node: Node)
    ensures UnwrapAll([node]) == Unwrap(node) && Count([node]) == CountNode(node)
    ensures OnlyGroups([node]) <==> OnlyGroupsNode(node)
    ensures Backgrounds([node]) == BackgroundsIn(node)
  {
    assert Unwrap(node) + [] == Unwrap(node);
  }

  /** The restructuring of one node's inside. */
  ghost predicate RestructuredInside(node: Node, nested: Node) {
    && UnwrapInside(nested) == node && nested.terminator == node.terminator
    && CountNode(nested) == CountNode(node) + BackgroundsInside(node)
    && OnlyGroupsInside(nested)
  }

  ghost predicate RestructuredArms(arms: seq<Arm>, nested: seq<Arm>) {
    && UnwrapArms(nested) == arms
    && CountArms(nested) == CountArms(arms) + BackgroundsInArms(arms)
    && OnlyGroupsArms(nested)
  }

  lemma {:induction false} ArmsAppend(left: seq<Arm>, arm: Arm)
    ensures UnwrapArms(left + [arm]) == UnwrapArms(left) + [arm.(nodes := UnwrapAll(arm.nodes))]
    ensures CountArms(left + [arm]) == CountArms(left) + Count(arm.nodes)
    ensures OnlyGroupsArms(left + [arm]) <==> OnlyGroupsArms(left) && OnlyGroups(arm.nodes)
    ensures BackgroundsInArms(left + [arm]) == BackgroundsInArms(left) + Backgrounds(arm.nodes)
  {
    if left != [] {
      assert (left + [arm])[1..] == left[1..] + [arm];
      ArmsAppend(left[1..], arm);
    }
  }

  // ----- the restructuring -----

  method RestructureInside(node: Node) returns (nested: Node)
    ensures RestructuredInside(node, nested)
    decreases node, 0
  {
    match node {
      case CommandNode(_, _, _) =>
        return node;
      case GroupNode(_, _, nodes, _, _) =>
        var inner := StructuralAsynchronousLists(nodes);
        return node.(nodes := inner);
      case CaseNode(_, _, arms) =>
        var inner: seq<Arm> := [];
        for k := 0 to |arms|
          invariant RestructuredArms(arms[..k], inner)
        {
          var armNodes := StructuralAsynchronousLists(arms[k].nodes);
          assert arms[..k + 1] == arms[..k] + [arms[k]];
          ArmsAppend(arms[..k], arms[k]);
          ArmsAppend(inner, arms[k].(nodes := armNodes));
          inner := inner + [arms[k].(nodes := armNodes)];
        }
        assert arms[..|arms|] == arms;
        return node.(arms := inner);
    }
  }

  /** What one pass over a list has built: finished nodes, and the list that is still open. */
  ghost predicate Built(done: seq<Node>, result: seq<Node>, current: seq<Node>) {
    && UnwrapAll(result) + UnwrapAll(current) == done
    && Count(result) + Count(current) == Count(done) + Backgrounds(done)
    && OnlyGroups(result) && OnlyGroups(current)
    && (result != [] ==> !Linked(result[|result| - 1].terminator))
  }

  ghost predicate AllLinked(nodes: seq<Node>) {
    forall i | 0 <= i < |nodes| :: Linked(nodes[i].terminator)
  }

  lemma BuiltMore(done: seq<Node>, node: Node, nested: Node, result: seq<Node>, current: seq<Node>)
    requires Built(done, result, current) && RestructuredInside(node, nested) && !node.terminator.Background?
    ensures Built(done + [node], result, current + [nested])
  {
    OneMoreUnwraps(current, nested);
    OneMoreCounts(current, nested);
    OneMoreCounts(done, node);
    Joined(UnwrapAll(result), UnwrapAll(current), node);
  }

  lemma Joined(result: seq<Node>, current: seq<Node>, node: Node)
    ensures result + (current + [node]) == (result + current) + [node]
  {
  }

  /** The group that an open list and its last node are put into. */
  function Grouped(current: seq<Node>, nested: Node): Node {
    GroupNode([], Background, current + [nested.(terminator := End)], true, false)
  }

  lemma GroupUnwraps(node: Node, nested: Node, current: seq<Node>)
    requires RestructuredInside(node, nested) && node.terminator.Background?
    ensures Unwrap(Grouped(current, nested)) == UnwrapAll(current) + [node]
  {
    var ended := nested.(terminator := End);
    Retitled(nested);
    OneNode(ended);
    UnwrapAppend(current, [ended]);
    var inner := UnwrapAll(current + [ended]);
    assert inner == UnwrapAll(current) + [node.(terminator := End)];
    assert inner[|inner| - 1].(terminator := Background) == node;
  }

  lemma GroupCounts(node: Node, nested: Node, current: seq<Node>)
    requires RestructuredInside(node, nested) && node.terminator.Background? && OnlyGroups(current) && AllLinked(current)
    ensures CountNode(Grouped(current, nested)) == 1 + Count(current) + CountNode(node) + BackgroundsInside(node)
    ensures OnlyGroupsNode(Grouped(current, nested))
  {
    var ended := nested.(terminator := End);
    Retitled(nested);
    OneNode(ended);
    MeasuresAppend(current, [ended]);
    assert OneList(current + [ended]);
  }

  lemma BuiltGroup(done: seq<Node>, node: Node, nested: Node, result: seq<Node>, current: seq<Node>)
    requires Built(done, result, current) && RestructuredInside(node, nested)
    requires node.terminator.Background? && AllLinked(current)
    ensures Built(done + [node], result + [Grouped(current, nested)], [])
  {
    var group := Grouped(current, nested);
    GroupUnwraps(node, nested, current);
    GroupCounts(node, nested, current);
    OneMoreUnwraps(result, group);
    OneMoreCounts(result, group);
    OneMoreCounts(done, node);
    Joined(UnwrapAll(result), UnwrapAll(current), node);
    assert UnwrapAll(result + [group]) + [] == UnwrapAll(result + [group]);
  }

  lemma OneMoreUnwraps(nodes: seq<Node>, node: Node)
    ensures UnwrapAll(nodes + [node]) == UnwrapAll(nodes) + Unwrap(node)
  {
    OneNode(node);
    UnwrapAppend(nodes, [node]);
  }

  lemma OneMoreCounts(nodes: seq<Node>, node: Node)
    ensures Count(nodes + [node]) == Count(nodes) + CountNode(node)
    ensures Backgrounds(nodes + [node]) == Backgrounds(nodes) + BackgroundsIn(node)
    ensures OnlyGroups(nodes + [node]) <==> OnlyGroups(nodes) && OnlyGroupsNode(node) && Apart(nodes + [node], |nodes|)
  {
    OneNode(node);
    MeasuresAppend(nodes, [node]);
  }

  /** The inside of a node does not depend on its terminator. */
  lemma Retitled(nested: Node)
    ensures var ended := nested.(terminator := End);
            && UnwrapInside(ended) == UnwrapInside(nested).(terminator := End)
            && CountNode(ended) == CountNode(nested) && (OnlyGroupsInside(ended) <==> OnlyGroupsInside(nested))
  {
  }

  /** The open list is finished without a group: nothing in it runs in the background. */
  lemma BuiltAll(done: seq<Node>, result: seq<Node>, current: seq<Node>)
    requires Built(done, result, current) && (current != [] ==> !current[0].terminator.Background?)
    ensures UnwrapAll(result + current) == done
    ensures Count(result + current) == Count(done) + Backgrounds(done)
    ensures OnlyGroups(result + current)
  {
    UnwrapAppend(result, current);
    MeasuresAppend(result, current);
  }

  lemma BuiltFlush(done: seq<Node>, result: seq<Node>, current: seq<Node>)
    requires Built(done, result, current) && current != []
    requires !current[0].terminator.Background? && !Linked(current[|current| - 1].terminator)
    ensures Built(done, result + current, [])
  {
    BuiltAll(done, result, current);
    assert UnwrapAll(result + current) + [] == UnwrapAll(result + current);
  }

  /** Every list that ends in the background becomes one subshell group. Unwrapping the groups
      gives the nodes back, and one node is added for every background terminator. */
  method StructuralAsynchronousLists(nodes: seq<Node>) returns (result: seq<Node>)
    ensures UnwrapAll(result) == nodes
    ensures Count(result) == Count(nodes) + Backgrounds(nodes)
    ensures OnlyGroups(result)
    decreases nodes
  {
    result := [];
    var currentList: seq<Node> := [];
    for i := 0 to |nodes|
      invariant Built(nodes[..i], result, currentList) && AllLinked(currentList)
    {
      ghost var done := nodes[..i];
      assert nodes[..i + 1] == done + [nodes[i]];
      var node := RestructureInside(nodes[i]);
      if node.terminator.Background? {
        BuiltGroup(done, nodes[i], node, result, currentList);
        result := result + [GroupNode([], Background, currentList + [node.(terminator := End)], true, false)];
        currentList := [];
      } else {
        BuiltMore(done, nodes[i], node, result, currentList);
        currentList := currentList + [node];
        if node.terminator.Sequence? || node.terminator.End? {
          BuiltFlush(nodes[..i + 1], result, currentList);
          result := result + currentList;
          currentList := [];
        }
      }
    }
    assert nodes[..|nodes|] == nodes;
    BuiltAll(nodes, result, currentList);
    result := result + currentList;
  }

  // ----- there is one such restructuring -----

  lemma {:induction false} PlainUnwraps(nodes: seq<Node>, i: nat)
    requires (forall k | 0 <= k < |nodes| :: !nodes[k].terminator.Background?) && i < |nodes|
    ensures |UnwrapAll(nodes)| == |nodes| && UnwrapAll(nodes)[i] == UnwrapInside(nodes[i])
  {
    if |nodes| > 1 {
      PlainUnwraps(nodes[1..], if i > 0 then i - 1 else 0);
    }
    assert UnwrapAll(nodes) == Unwrap(nodes[0]) + UnwrapAll(nodes[1..]);
  }

  /** An inserted group stands for linked nodes and one that runs in the background. */
  ghost predicate BackgroundList(nodes: seq<Node>) {
    && nodes != [] && nodes[|nodes| - 1].terminator.Background?
    && forall i | 0 <= i < |nodes| - 1 :: Linked(nodes[i].terminator)
  }

  lemma GroupIsList(group: Node)
    requires InsertedGroup(group)
    ensures var inner := UnwrapAll(group.nodes);
            && BackgroundList(Unwrap(group)) && inner != [] && inner[|inner| - 1].terminator.End?
            && Unwrap(group) == inner[..|inner| - 1] + [inner[|inner| - 1].(terminator := Background)]
  {
    ListUnwraps(group.nodes);
    var inner := UnwrapAll(group.nodes);
    var list := inner[..|inner| - 1] + [inner[|inner| - 1].(terminator := Background)];
    assert Unwrap(group) == list;
    assert BackgroundList(list);
  }

  lemma ListUnwraps(nodes: seq<Node>)
    requires OneList(nodes)
    ensures var inner := UnwrapAll(nodes);
            && inner != [] && inner[|inner| - 1].terminator.End?
            && forall k | 0 <= k < |inner| - 1 :: Linked(inner[k].terminator)
  {
    var inner := UnwrapAll(nodes);
    forall k | 0 <= k < |nodes| ensures |inner| == |nodes| && inner[k].terminator == nodes[k].terminator {
      PlainUnwraps(nodes, k);
    }
  }

  /** A list that begins in the foreground does not begin with a background list. */
  lemma {:induction false} NoBackgroundList(nodes: seq<Node>, list: seq<Node>)
    requires OnlyGroups(nodes) && nodes != [] && !nodes[0].terminator.Background?
    requires BackgroundList(list)
    ensures !(list <= UnwrapAll(nodes))
    decreases |list|
  {
    assert UnwrapAll(nodes) == [UnwrapInside(nodes[0])] + UnwrapAll(nodes[1..]);
    if list <= UnwrapAll(nodes) {
      assert list[0] == UnwrapInside(nodes[0]);
      assert |list| > 1 && Linked(nodes[0].terminator);
      assert list[1..] <= UnwrapAll(nodes[1..]);
      assert nodes[1..] != [] && nodes[1..][0] == nodes[1] && Apart(nodes, 1);
      NoBackgroundList(nodes[1..], list[1..]);
    }
  }

  /** Of two background lists that begin one list, neither is longer. */
  lemma SameList(left: seq<Node>, right: seq<Node>, all: seq<Node>)
    requires BackgroundList(left) && BackgroundList(right) && left <= all && right <= all
    ensures left == right
  {
    assert forall i | 0 <= i < |left| && i < |right| :: left[i] == all[i] == right[i];
    assert left == all[..|left|] && right == all[..|right|];
  }

  lemma SameFirst(left: seq<Node>, right: seq<Node>)
    requires OnlyGroups(left) && OnlyGroups(right) && UnwrapAll(left) == UnwrapAll(right)
    requires left != [] && right != []
    ensures Unwrap(left[0]) == Unwrap(right[0]) && UnwrapAll(left[1..]) == UnwrapAll(right[1..])
    ensures left[0].terminator.Background? <==> right[0].terminator.Background?
  {
    var all := UnwrapAll(left);
    assert Unwrap(left[0]) + UnwrapAll(left[1..]) == all == Unwrap(right[0]) + UnwrapAll(right[1..]);
    assert Unwrap(left[0]) <= all && Unwrap(right[0]) <= all;
    if left[0].terminator.Background? {
      GroupIsList(left[0]);
      if !right[0].terminator.Background? {
        NoBackgroundList(right, Unwrap(left[0]));
      } else {
        GroupIsList(right[0]);
        SameList(Unwrap(left[0]), Unwrap(right[0]), all);
      }
    } else if right[0].terminator.Background? {
      GroupIsList(right[0]);
      NoBackgroundList(left, Unwrap(right[0]));
    }
    assert all[|Unwrap(left[0])|..] == UnwrapAll(left[1..]) && all[|Unwrap(right[0])|..] == UnwrapAll(right[1..]);
  }

  lemma UnwrapsToSomething(nodes: seq<Node>)
    requires OnlyGroups(nodes) && nodes != []
    ensures UnwrapAll(nodes) != []
  {
    if nodes[0].terminator.Background? {
      GroupIsList(nodes[0]);
    }
  }

  /** Two lists that stand for the same nodes, and have their background lists in groups, are equal. */
  lemma {:induction false} RestructuringIsUnique(left: seq<Node>, right: seq<Node>)
    requires OnlyGroups(left) && OnlyGroups(right) && UnwrapAll(left) == UnwrapAll(right)
    ensures left == right
    decreases left
  {
    if left != [] && right != [] {
      SameFirst(left, right);
      SameNode(left[0], right[0]);
      RestructuringIsUnique(left[1..], right[1..]);
      assert left == [left[0]] + left[1..] && right == [right[0]] + right[1..];
    } else if left != [] {
      UnwrapsToSomething(left);
    } else if right != [] {
      UnwrapsToSomething(right);
    }
  }

  lemma {:induction false} SameNode(left: Node, right: Node)
    requires OnlyGroupsNode(left) && OnlyGroupsNode(right) && Unwrap(left) == Unwrap(right)
    requires left.terminator.Background? <==> right.terminator.Background?
    ensures left == right
    decreases left
  {
    if left.terminator.Background? {
      GroupIsList(left);
      GroupIsList(right);
      SameInner(UnwrapAll(left.nodes), UnwrapAll(right.nodes));
      RestructuringIsUnique(left.nodes, right.nodes);
    } else {
      assert [UnwrapInside(left)][0] == [UnwrapInside(right)][0];
      match left {
        case CommandNode(_, _, _) =>
        case GroupNode(_, _, nodes, _, _) => RestructuringIsUnique(nodes, right.nodes);
        case CaseNode(_, _, arms) => SameArms(arms, right.arms);
      }
    }
  }

  lemma SameInner(a: seq<Node>, b: seq<Node>)
    requires a != [] && b != [] && a[|a| - 1].terminator == b[|b| - 1].terminator
    requires a[..|a| - 1] + [a[|a| - 1].(terminator := Background)] == b[..|b| - 1] + [b[|b| - 1].(terminator := Background)]
    ensures a == b
  {
    var n := |a| - 1;
    var all := a[..n] + [a[n].(terminator := Background)];
    assert all[..n] == a[..n] && all[n] == a[n].(terminator := Background) && |b| == |a|;
    assert all[..n] == b[..n] && all[n] == b[n].(terminator := Background);
    assert a[n] == all[n].(terminator := a[n].terminator) == b[n];
    assert a == a[..n] + [a[n]] && b == b[..n] + [b[n]];
  }

  lemma {:induction false} SameArms(left: seq<Arm>, right: seq<Arm>)
    requires OnlyGroupsArms(left) && OnlyGroupsArms(right) && UnwrapArms(left) == UnwrapArms(right)
    ensures left == right
    decreases left
  {
    if left != [] {
      var u, v := UnwrapArms(left), UnwrapArms(right);
      assert u[0] == v[0] && u[1..] == v[1..];
      assert u[1..] == UnwrapArms(left[1..]) && v[1..] == UnwrapArms(right[1..]);
      RestructuringIsUnique(left[0].nodes, right[0].nodes);
      SameArms(left[1..], right[1..]);
      assert left == [left[0]] + left[1..] && right == [right[0]] + right[1..];
    }
  }
}
