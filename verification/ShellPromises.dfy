/** The contract of the evaluator's methods, in one form for all of them, and how each step keeps it. */
module ShellPromises {
  import opened ShellSyntax
  import opened ShellSemantics
  import opened ShellStates
  import opened ShellMerging
  import opened ShellComposition
  import opened ShellRealisation
  import opened ShellSubstitution
  import opened ShellBounds
  import opened ShellBlocking
  import opened ShellFaithfulness

  /** While no error has been added (`clear`), the result of a supported task is faithful and has at most
      n states; once one has, some run of an analysable task is blocked. */
  ghost predicate Promises(strict: bool, t: Task, from: seq<FlowState>, r: FlowResult, n: nat,
                           clear: bool, supported: bool, analysable: bool) {
    if clear then supported ==> Faithful(strict, t, from, r) && Total(r) <= n
    else analysable ==> Stops(strict, t, from)
  }

  ghost predicate PromisesIn(strict: bool, t: Task, from: seq<FlowState>, results: seq<FlowResult>, n: nat,
                             clear: bool, supported: bool, analysable: bool) {
    if clear then supported ==> FaithfulIn(strict, t, from, results) && TotalOf(results) <= n
    else analysable ==> Stops(strict, t, from)
  }

  // ----- several results, and merging them -----

  lemma PromiseNothing(strict: bool, t: Task, supported: bool, analysable: bool)
    ensures PromisesIn(strict, t, [], [], 0, true, supported, analysable)
  {
  }

  lemma PromiseBoth(strict: bool, t: Task, from: seq<FlowState>, results: seq<FlowResult>, n: nat, clear: bool,
                    a: FlowState, more: seq<FlowResult>, k: nat, clear': bool, supported: bool, analysable: bool)
    requires PromisesIn(strict, t, from, results, n, clear, supported, analysable) && (clear' ==> clear)
    requires clear ==> PromisesIn(strict, t, [a], more, k, clear', supported, analysable)
    ensures PromisesIn(strict, t, from + [a], results + more, n + k, clear', supported, analysable)
  {
    TotalOfBoth(results, more);
    if clear' && supported {
      FaithfulBoth(strict, t, from, results, a, more);
    }
    if !clear' && analysable {
      StopsInBoth(strict, t, from, a);
    }
  }

  lemma PromiseToo(strict: bool, t: Task, from: seq<FlowState>, results: seq<FlowResult>, n: nat, clear: bool,
                   a: FlowState, r: FlowResult, k: nat, clear': bool, supported: bool, analysable: bool)
    requires PromisesIn(strict, t, from, results, n, clear, supported, analysable) && (clear' ==> clear)
    requires clear ==> Promises(strict, t, [a], r, k, clear', supported, analysable)
    ensures PromisesIn(strict, t, from + [a], results + [r], n + k, clear', supported, analysable)
  {
    TotalOfOne(r);
    if clear' && supported {
      FaithfulOne(strict, t, [a], r);
    }
    PromiseBoth(strict, t, from, results, n, clear, a, [r], k, clear', supported, analysable);
  }

  lemma PromiseMerged(strict: bool, t: Task, from: seq<FlowState>, results: seq<FlowResult>, merged: FlowResult, n: nat,
                      clear: bool, clear': bool, supported: bool, analysable: bool)
    requires PromisesIn(strict, t, from, results, n, clear, supported, analysable)
    requires clear' ==> clear && forall kind: Kind :: Merges(Gather(results, kind), Part(merged, kind))
    requires Total(merged) <= TotalOf(results) && (clear && TotalOf(results) <= MAX_OUTPUT_STATES ==> clear')
    requires analysable ==> supported && n <= MAX_OUTPUT_STATES
    ensures Promises(strict, t, from, merged, n, clear', supported, analysable)
  {
    if clear' && supported {
      FaithfulMerged(strict, t, from, results, merged);
    }
  }

  lemma PromiseAlone(strict: bool, t: Task, from: seq<FlowState>, r: FlowResult, merged: FlowResult, n: nat,
                     clear: bool, clear': bool, supported: bool, analysable: bool)
    requires Promises(strict, t, from, r, n, clear, supported, analysable)
    requires clear' ==> clear && forall kind: Kind :: Merges(Gather([r], kind), Part(merged, kind))
    requires Total(merged) <= Total(r) && (clear && Total(r) <= MAX_OUTPUT_STATES ==> clear')
    requires analysable ==> supported && n <= MAX_OUTPUT_STATES
    ensures Promises(strict, t, from, merged, n, clear', supported, analysable)
  {
    TotalOfOne(r);
    if clear && supported {
      FaithfulOne(strict, t, from, r);
    }
    PromiseMerged(strict, t, from, [r], merged, n, clear, clear', supported, analysable);
  }

  /** Two tasks with the same runs. */
  lemma PromiseSame(strict: bool, s: Task, t: Task, from: seq<FlowState>, r: FlowResult, n: nat,
                    clear: bool, supported: bool, analysable: bool)
    requires Promises(strict, s, from, r, n, clear, supported, analysable)
    requires forall w: Resolver, c, o :: Exec(w, s, c, o) <==> Exec(w, t, c, o)
    ensures Promises(strict, t, from, r, n, clear, supported, analysable)
  {
    if clear && supported {
      FaithfulSame(strict, s, t, from, r);
    }
    if !clear && analysable {
      StopsWider(strict, s, t, from);
    }
  }

  /** A task that does nothing. */
  lemma PromiseStay(strict: bool, t: Task, from: seq<FlowState>, supported: bool, analysable: bool)
    requires forall w: Resolver, c, o :: Exec(w, t, c, o) <==> o == Normal(c)
    ensures Promises(strict, t, from, FlowResult(from, [], []), |from|, true, supported, analysable)
  {
    FaithfulStay(strict, t, from);
  }

  // ----- lists -----

  lemma PromiseStep(strict: bool, nodes: seq<Node>, i: nat, initial: seq<FlowState>, before: FlowResult, merged: FlowResult,
                    clear: bool, clear': bool, supported: bool, analysable: bool)
    requires i < |nodes| && (clear' ==> clear) && (analysable ==> supported)
    requires Promises(strict, ListTask(nodes, i), initial, before, Times(|initial|, Growth(nodes, i, strict)), clear, supported, analysable)
    requires clear ==> Promises(strict, AdvanceTask(nodes, i), before.active, merged,
                                Times(|before.active|, StepGrowth(nodes, i, strict)), clear', supported, analysable)
    ensures Promises(strict, ListTask(nodes, i + 1), initial, Appended(before, merged),
                     Times(|initial|, Growth(nodes, i + 1, strict)), clear', supported, analysable)
  {
    if clear' && supported {
      StepIsBounded(nodes, i, strict, initial, before, merged);
      FaithfulStep(strict, nodes, i, initial, before, merged);
    }
    if !clear' && analysable {
      ListStops(strict, nodes, i, initial, before, clear);
    }
  }

  /** `asked` says that the gate has added an error. */
  lemma PromiseGate(strict: bool, nodes: seq<Node>, i: nat, a: FlowState, skipped: FlowState, ran: FlowResult,
                    clear: bool, supported: bool, analysable: bool)
    requires i < |nodes| && (analysable ==> supported)
    requires supported ==> a.gate == GateAt(nodes, i) && HeadsPipeline(nodes, i)
    requires var b := GateBranches(a, strict);
             && (b.skip.Some? ==> Similar(skipped, b.skip.value))
             && (b.errors != [] ==> !clear) && (b.errors == [] && b.execute.None? ==> clear)
             && (b.errors == [] && b.execute.Some? ==>
                  Promises(strict, StageTask(nodes[i], a.gate.Pipe?), [b.execute.value], ran, NodeGrowth(nodes[i], strict), clear, supported, analysable))
    ensures PromisesIn(strict, AdvanceTask(nodes, i), [a], GateResults(GateBranches(a, strict), skipped, ran),
                       StepGrowth(nodes, i, strict), clear, supported, analysable)
  {
    var b := GateBranches(a, strict);
    assert supported ==> a.gate.Pipe? == Piped(nodes, i);
    if clear && supported {
      FaithfulGate(strict, nodes, i, a, skipped, ran);
      GateIsBounded(nodes, i, a, strict, skipped, ran);
    }
    if !clear && analysable {
      if b.errors != [] {
        GateStops(nodes, i, a);
      } else {
        StepStops(strict, nodes, i, a);
      }
    }
  }

  // ----- nodes -----

  /** The same for the first n substitutions, which take builds from `before` to `after`. */
  ghost predicate Expands(programs: seq<Program>, n: nat, before: set<BuildKey>, after: set<BuildKey>,
                          clear: bool, supported: bool, analysable: bool)
    requires n <= |programs|
  {
    if clear then supported ==> Loads(programs, n, before, after)
    else analysable ==> Disturbs(programs)
  }

  lemma PromiseExpansion(programs: seq<Program>, i: nat, before: set<BuildKey>, found: set<BuildKey>, nested: seq<Build>,
                         clear: bool, clear': bool, supported: bool, analysable: bool)
    requires i < |programs| && (clear' ==> clear) && Expands(programs, i, before, found, clear, supported, analysable)
    requires clear && clear' && supported ==> Finds(programs[i], nested) && Quiet(programs[i])
    requires clear && !clear' && analysable ==> Disturbing(programs[i])
    ensures Expands(programs, i + 1, before, found + KeysOf(nested), clear', supported, analysable)
  {
    if clear' && supported {
      LoadsMore(programs, i, before, found, nested);
    }
    if clear && !clear' && analysable {
      DisturbsAt(programs, i);
    }
  }

  /** `found` says that the substitutions have added no error. */
  lemma PromiseNode(strict: bool, node: Node, a: FlowState, loaded: FlowState, body: FlowResult, n: nat,
                    found: bool, clear: bool, supported: bool, analysable: bool)
    requires loaded == a.(builds := loaded.builds) && KeysOf(a.builds) <= KeysOf(loaded.builds)
    requires (clear ==> found) && (analysable ==> supported)
    requires Expands(node.expansions, |node.expansions|, KeysOf(a.builds), KeysOf(loaded.builds), found, supported, analysable)
    requires strict && analysable ==> found
    requires found ==> Promises(strict, BodyTask(node), [loaded], body, n, clear, supported, analysable)
    ensures Promises(strict, NodeTask(node), [a], body, n, clear, supported, analysable)
  {
    if clear && supported {
      FaithfulNode(strict, node, a, loaded, body);
    }
    if !clear && analysable {
      if found {
        NodeStops(strict, node, a, loaded);
      } else {
        DisturbedStops(node, a);
      }
    }
  }

  lemma PromiseStage(strict: bool, node: Node, piped: bool, from: seq<FlowState>, body: FlowResult, r: FlowResult, n: nat,
                     clear: bool, clear': bool, supported: bool, analysable: bool)
    requires Promises(strict, NodeTask(node), from, body, n, clear, supported, analysable)
    requires clear' ==> clear && if ConcurrentComponent(piped, node.terminator) then Localizes(body, node.terminator, r) else r == body
    requires Total(r) <= Total(body) && (clear && Total(body) <= MAX_OUTPUT_STATES ==> clear')
    requires analysable ==> supported && n <= MAX_OUTPUT_STATES
    ensures Promises(strict, StageTask(node, piped), from, r, n, clear', supported, analysable)
  {
    if clear' && supported {
      FaithfulStage(strict, node, piped, from, body, r);
    }
    if !clear' && analysable {
      StageStops(strict, node, piped, from);
    }
  }

  lemma PromiseCommand(strict: bool, node: Node, a: FlowState, supported: bool, analysable: bool)
    requires node.CommandNode? && (supported ==> SupportedNode(node, strict)) && (analysable && strict ==> !Concurrent(node.terminator))
    ensures var (r, added) := EvaluateCommand(node.command, node.terminator, a, strict);
            Promises(strict, BodyTask(node), [a], r, NodeGrowth(node, strict), added == [], supported, analysable)
  {
    var (r, added) := EvaluateCommand(node.command, node.terminator, a, strict);
    if added == [] {
      if supported {
        FaithfulCommand(strict, node, a);
        CommandIsBounded(node.command, node.terminator, a, strict);
      }
    } else if analysable {
      CommandStops(strict, node, a);
    }
  }

  lemma PromiseGroup(strict: bool, node: Node, a: FlowState, inner: FlowResult, clear: bool, supported: bool, analysable: bool)
    requires node.GroupNode?
    requires Promises(strict, ListTask(node.nodes, |node.nodes|), [a.(gate := Sequence)], inner,
                      Growth(node.nodes, |node.nodes|, strict), clear, supported, analysable)
    ensures Promises(strict, BodyTask(node), [a], GroupResult(node, a, inner), NodeGrowth(node, strict), clear, supported, analysable)
  {
    GroupIsBounded(node, a, inner);
    if clear && supported {
      FaithfulGroup(strict, node, a, inner);
    }
    if !clear && analysable {
      GroupStops(strict, node, a);
    }
  }

  lemma PromiseCase(strict: bool, node: Node, a: FlowState, selected: FlowResult, clear: bool, supported: bool, analysable: bool)
    requires node.CaseNode?
    requires Promises(strict, SelectTask(node.arms, 0), [a], selected, SelectGrowth(node.arms, 0, strict), clear, supported, analysable)
    ensures Promises(strict, BodyTask(node), [a], RegatedResult(selected, node.terminator), NodeGrowth(node, strict), clear, supported, analysable)
  {
    if clear && supported {
      FaithfulCase(strict, node, a, selected);
    }
    if !clear && analysable {
      StopsWider(strict, SelectTask(node.arms, 0), BodyTask(node), [a]);
    }
  }

  // ----- case arms -----

  function ArmResults(executed: FlowResult, continuing: FlowResult): seq<FlowResult> {
    [continuing, FlowResult([], executed.failedTerminated, executed.successfulTerminated)]
  }

  /** `executed` ran without an error if `ran` holds. */
  lemma PromiseArm(strict: bool, arms: seq<Arm>, i: nat, states: seq<FlowState>, executed: FlowResult, continuing: FlowResult,
                   ran: bool, clear: bool, supported: bool, analysable: bool)
    requires i < |arms| && (clear ==> ran) && (analysable ==> supported)
    requires Promises(strict, ListTask(arms[i].nodes, |arms[i].nodes|), Regated(states, Sequence), executed,
                      Times(|states|, Growth(arms[i].nodes, |arms[i].nodes|, strict)), ran, supported, analysable)
    requires ran ==> Promises(strict, LeaveTask(arms, i), executed.active, continuing,
                              Times(|executed.active|, Continuation(arms, i, strict)), clear, supported, analysable)
    ensures PromisesIn(strict, ArmTask(arms, i), states, ArmResults(executed, continuing),
                       Times(|states|, ArmGrowth(arms, i, strict)), clear, supported, analysable)
  {
    if clear && supported {
      FaithfulArm(strict, arms, i, states, executed, continuing);
      ArmIsBounded(arms, i, strict, states, executed, continuing);
    }
    if !clear && analysable {
      ArmStops(strict, arms, i, states, executed);
    }
  }

  /** An arm after which the `case` ends. */
  lemma PromiseBreak(strict: bool, arms: seq<Arm>, i: nat, states: seq<FlowState>, executed: FlowResult,
                     clear: bool, supported: bool, analysable: bool)
    requires i < |arms| && arms[i].terminator.Break? && (analysable ==> supported)
    requires Promises(strict, ListTask(arms[i].nodes, |arms[i].nodes|), Regated(states, Sequence), executed,
                      Times(|states|, Growth(arms[i].nodes, |arms[i].nodes|, strict)), clear, supported, analysable)
    ensures Promises(strict, ArmTask(arms, i), states, executed, Times(|states|, ArmGrowth(arms, i, strict)), clear, supported, analysable)
  {
    var continuing := FlowResult(executed.active, [], []);
    PromiseStay(strict, LeaveTask(arms, i), executed.active, supported, analysable);
    if clear {
      PromiseArm(strict, arms, i, states, executed, continuing, true, true, supported, analysable);
      if supported {
        FaithfulHalves(strict, ArmTask(arms, i), states, executed);
      }
    } else if analysable {
      ArmStops(strict, arms, i, states, executed);
    }
  }

  /** The arms from `start` up to `end`, each tried from one state. */
  ghost predicate Tries(strict: bool, arms: seq<Arm>, start: nat, end: nat, a: FlowState, selected: seq<FlowResult>,
                        clear: bool, supported: bool, analysable: bool)
    requires start <= end <= |arms|
  {
    if clear then
      supported ==>
        && FaithfulArms(strict, arms, start, end, a, selected)
        && TotalOf(selected) + SelectGrowth(arms, end, strict) <= SelectGrowth(arms, start, strict)
    else analysable ==> Stops(strict, SelectTask(arms, start), [a])
  }

  lemma PromiseTry(strict: bool, arms: seq<Arm>, start: nat, end: nat, a: FlowState, selected: seq<FlowResult>, arm: FlowResult,
                   clear: bool, clear': bool, supported: bool, analysable: bool)
    requires start <= end < |arms| && NoCatchAll(arms, start, end) && (clear' ==> clear)
    requires Tries(strict, arms, start, end, a, selected, clear, supported, analysable)
    requires clear ==> Promises(strict, ArmTask(arms, end), [a], arm, ArmGrowth(arms, end, strict), clear', supported, analysable)
    ensures Tries(strict, arms, start, end + 1, a, selected + [arm], clear', supported, analysable)
  {
    TotalOfOne(arm);
    TotalOfBoth(selected, [arm]);
    if clear' && supported {
      FaithfulNext(strict, arms, start, end, a, selected, arm);
    }
    if clear && !clear' && analysable {
      SelectStops(strict, arms, start, end, a);
    }
  }

  lemma PromiseSelect(strict: bool, arms: seq<Arm>, start: nat, end: nat, a: FlowState, tried: seq<FlowResult>, exhaustive: bool,
                      clear: bool, supported: bool, analysable: bool)
    requires start <= end <= |arms| && Tries(strict, arms, start, end, a, tried, clear, supported, analysable)
    requires if exhaustive then end > start && arms[end - 1].catchAll else end == |arms| && NoCatchAll(arms, start, end)
    ensures PromisesIn(strict, SelectTask(arms, start), [a], Selected(a, tried, exhaustive), SelectGrowth(arms, start, strict),
                       clear, supported, analysable)
  {
    var miss := FlowResult([a.(status := Success)], [], []);
    TotalOfOne(miss);
    TotalOfBoth(tried, [miss]);
    if clear && supported {
      FaithfulSelect(strict, arms, start, end, a, tried, exhaustive);
    }
  }

  /** The results of the arms, and the miss where no arm need match. */
  function Selected(a: FlowState, tried: seq<FlowResult>, exhaustive: bool): seq<FlowResult> {
    if exhaustive then tried else tried + [FlowResult([a.(status := Success)], [], [])]
  }
}
