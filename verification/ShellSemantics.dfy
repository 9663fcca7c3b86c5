/** Reference semantics: what one concrete run of a shell tree does.
    AND-OR lists associate to the left (section 2.9.3 of the POSIX.1-2017 Shell Command
    Language); `case` follows section 2.9.4 with the `;&` and `;;&` extensions. */
module ShellSemantics {
  import opened ShellSyntax

  datatype CState = CState(
    status: bool,                  // the exit status is zero
    free: bool,                    // the resolver has decided it, and nothing has asked for it yet
    passing: bool,                 // the pipeline that stands here is passed by
    outputs: map<string, string>,  // outputs assigned outside substitutions
    builds: set<BuildKey>,         // image builds performed so far
    clock: nat)                    // commands executed so far

  datatype Outcome =
    | Normal(state: CState)
    | Exited(state: CState)
    | Blocked(state: CState, strictly: bool)  // a run up to what must not be analysed further, or not in strict mode

  /** Decides every status the analyser cannot know; it may depend on the whole state,
      including the clock, so no two occurrences need agree. */
  type Resolver = (Command, CState) -> bool

  const MAX_SAFE_INTEGER := 9007199254740991

  const START := CState(true, false, false, map[], {}, 0)

  ghost function StatusOf(w: Resolver, command: Command, c: CState): bool
    requires command.Simple?
  {
    match command.executable
    case Terminate(Inherited) => c.status
    case Terminate(Numeric(code)) => code % 256 == 0
    case Run(Succeeds(_)) => command.redirected ==> w(command, c)
    case Run(Fails) => command.redirected && w(command, c)
    case _ => w(command, c)
  }

  /** Whether the resolver decides the status. */
  predicate FreeStatus(command: Command, c: CState)
    requires command.Simple?
  {
    match command.executable
    case Terminate(Inherited) => c.free
    case Terminate(Numeric(_)) => false
    case Run(Succeeds(_)) => command.redirected
    case Run(Fails) => command.redirected
    case _ => true
  }

  ghost predicate RunsCommand(w: Resolver, command: Command, c: CState, o: Outcome) {
    match command
    case AssignOutput(key, value) =>
      o == Normal(c.(status := true, free := false, outputs := c.outputs[key := value], clock := c.clock + 1))
    case Simple(_, _, _, _, _, _) =>
      || (Unreadable(command) && o == Blocked(c, false))
      || (command.redirected && o == Blocked(c, true))
      || (EndsShell(command) && FreeStatus(command, c) && o == Blocked(c, !command.executable.Terminate?))
      // a redirection that fails keeps the command from running
      || (command.redirected && o == Concluded(w, command, c, c.builds))
      || o == Concluded(w, command, c, c.builds + KeysOf(command.builds))
  }

  /** What no analysis of statuses and builds can follow. */
  predicate Unreadable(command: Command)
    requires command.Simple?
  {
    || command.buildErrors != []
    || command.executable.Unresolvable?
    || (!command.redirected && command.executable.Errexit?)
    || (!command.redirected && command.executable.Terminate? && !ReadableExit(command.executable.argument))
    || (command.replacesShell && (command.redirected || !command.executable.Terminate?) && !Replaceable(command))
  }

  predicate ReadableExit(argument: ExitArgument) {
    match argument
    case Inherited => true
    case Numeric(code) => -MAX_SAFE_INTEGER <= code <= MAX_SAFE_INTEGER
    case Dynamic => false
  }

  /** `exec` of `true` or `false`, or of a Docker build. */
  predicate Replaceable(command: Command)
    requires command.Simple?
  {
    && !command.negated && command.executable.Run?
    && match command.executable.effect
       case Succeeds(bareTrue) => bareTrue
       case Fails => true
       case Opaque(docker) => docker && command.builds != []
  }

  predicate EndsShell(command: Command)
    requires command.Simple?
  {
    command.executable.Terminate? || command.replacesShell
  }

  ghost function Concluded(w: Resolver, command: Command, c: CState, builds: set<BuildKey>): Outcome
    requires command.Simple?
  {
    var status := StatusOf(w, command, c);
    var done := c.(status := status, free := FreeStatus(command, c), builds := builds, clock := c.clock + 1);
    if EndsShell(command) then Exited(done)
    else if command.negated then Normal(done.(status := !status))
    else Normal(done)
  }

  /** The first n nodes of a list, read as left-associative AND-OR lists. */
  ghost predicate RunsList(w: Resolver, nodes: seq<Node>, n: nat, c: CState, o: Outcome)
    requires n <= |nodes|
    decreases nodes, n, 0
  {
    if n == 0 then o == Normal(c)
    else
      var i := n - 1;
      exists m :: RunsList(w, nodes, i, c, m) && Advances(w, nodes, i, m, o)
  }

  /** Node i after the outcome m of everything to its left. */
  ghost predicate Advances(w: Resolver, nodes: seq<Node>, i: nat, m: Outcome, o: Outcome)
    requires i < |nodes|
    decreases nodes, i, 1
  {
    if !m.Normal? then o == m
    else
      || (Gate(nodes, i) && m.state.free && o == Blocked(m.state, true))
      || if Skips(nodes, i, m.state) then o == Normal(Passed(nodes, i, m.state))
         else RunsStage(w, nodes[i], Piped(nodes, i), Entered(nodes, i, m.state), o)
  }

  predicate Gate(nodes: seq<Node>, i: nat)
    requires i < |nodes|
  {
    i > 0 && (nodes[i - 1].terminator.And? || nodes[i - 1].terminator.Or?)
  }

  /** A gate asks for the status. */
  function Entered(nodes: seq<Node>, i: nat, c: CState): CState
    requires i < |nodes|
  {
    if Gate(nodes, i) then c.(free := false) else c
  }

  /** A pipeline is passed by as a whole. */
  function Passed(nodes: seq<Node>, i: nat, c: CState): CState
    requires i < |nodes|
  {
    Entered(nodes, i, c).(passing := nodes[i].terminator.Pipe? && i + 1 < |nodes|)
  }

  /** Node i reads what the node before it writes. */
  predicate Piped(nodes: seq<Node>, i: nat)
    requires i < |nodes|
  {
    i > 0 && nodes[i - 1].terminator.Pipe?
  }

  predicate ConcurrentComponent(piped: bool, terminator: Terminator) {
    piped || Concurrent(terminator)
  }

  /** A node as a component of its list. Each component of a pipeline, and a list in the background,
      runs in a shell of its own that ends by itself: what it builds and puts out remains. A pipeline
      may leave any status, since its components run at the same time; what starts in the background
      leaves zero. */
  ghost predicate RunsStage(w: Resolver, node: Node, piped: bool, c: CState, o: Outcome)
    decreases node, 2, 0
  {
    if ConcurrentComponent(piped, node.terminator) then
      exists e, s: bool :: RunsNode(w, node, c, e) && Leaves(node.terminator, e, s, o)
    else RunsNode(w, node, c, o)
  }

  ghost predicate Leaves(terminator: Terminator, e: Outcome, s: bool, o: Outcome) {
    if e.Blocked? then o == e
    else o == Normal(e.state.(status := s, free := !terminator.Background?)) && (terminator.Background? ==> s)
  }

  predicate Skips(nodes: seq<Node>, i: nat, c: CState)
    requires i < |nodes|
  {
    || (Piped(nodes, i) && c.passing)
    || (i > 0 && ((nodes[i - 1].terminator.And? && !c.status) || (nodes[i - 1].terminator.Or? && c.status)))
  }

  ghost predicate RunsNode(w: Resolver, node: Node, c: CState, o: Outcome)
    decreases node, 1, 0
  {
    || (exists c' :: Substitutes(w, node.expansions, |node.expansions|, c, c') && RunsBody(w, node, c', o))
    || BlocksWithin(w, node.expansions, c, o)
  }

  /** One of the substitutions is blocked. */
  ghost predicate BlocksWithin(w: Resolver, programs: seq<Program>, c: CState, o: Outcome)
    decreases programs, |programs|, 1
  {
    exists i, m :: 0 <= i < |programs| && Substitutes(w, programs, i, c, m) && BlocksInside(w, programs[i], m, o)
  }

  /** A substitution that is blocked, or was not parsed, blocks the command around it. */
  ghost predicate BlocksInside(w: Resolver, program: Program, c: CState, o: Outcome)
    decreases program, 1, 0
  {
    || (program.errors != [] && o == Blocked(c, false))
    || exists e :: RunsList(w, program.nodes, |program.nodes|, START.(clock := c.clock), e) && e.Blocked? && !e.strictly
                   && o == Blocked(c.(clock := e.state.clock), false)
  }

  /** The first n command substitutions of a node, each in a shell of its own. */
  ghost predicate Substitutes(w: Resolver, programs: seq<Program>, n: nat, c: CState, c': CState)
    requires n <= |programs|
    decreases programs, n, 0
  {
    if n == 0 then c' == c
    else
      var i := n - 1;
      exists m :: Substitutes(w, programs, i, c, m) && SubstitutesOne(w, programs[i], m, c')
  }

  ghost predicate SubstitutesOne(w: Resolver, program: Program, c: CState, c': CState)
    decreases program, 1, 0
  {
    exists o :: RunsProgram(w, program, c.clock, o) && c' == c.(builds := c.builds + o.state.builds, clock := o.state.clock)
  }

  ghost predicate RunsProgram(w: Resolver, program: Program, clock: nat, o: Outcome)
    decreases program, 0, 0
  {
    RunsList(w, program.nodes, |program.nodes|, START.(clock := clock), o) && !o.Blocked?
  }

  ghost predicate RunsBody(w: Resolver, node: Node, c: CState, o: Outcome)
    decreases node, 0, 0
  {
    match node
    case CommandNode(_, _, command) => RunsCommand(w, command, c, o)
    case GroupNode(_, _, nodes, subshell, redirection) =>
      || (redirection && o == Normal(c.(status := false, free := false)))
      || exists m :: RunsList(w, nodes, |nodes|, c, m) && o == (if subshell then Absorbs(m) else m)
    case CaseNode(_, _, arms) => SelectsArm(w, arms, 0, c, o)
  }

  /** A subshell turns the end of its shell into a status. */
  function Absorbs(m: Outcome): Outcome {
    if m.Exited? then Normal(m.state.(free := false)) else m
  }

  /** Pattern matching from arm `start` on: any arm up to the first catch-all may be the
      first to match; without a catch-all none may match, and the status is then zero. */
  ghost predicate SelectsArm(w: Resolver, arms: seq<Arm>, start: nat, c: CState, o: Outcome)
    requires start <= |arms|
    decreases arms, |arms| - start, 1
  {
    || (exists i | start <= i < |arms| :: NoCatchAll(arms, start, i) && RunsArm(w, arms, i, c, o))
    || (NoCatchAll(arms, start, |arms|) && o == Normal(c.(status := true, free := false)))
  }

  predicate NoCatchAll(arms: seq<Arm>, start: nat, end: nat)
    requires start <= end <= |arms|
  {
    forall k | start <= k < end :: !arms[k].catchAll
  }

  ghost predicate RunsArm(w: Resolver, arms: seq<Arm>, i: nat, c: CState, o: Outcome)
    requires i <= |arms|
    decreases arms, |arms| - i, 0
  {
    if i == |arms| then o == Normal(c)
    else exists m :: RunsList(w, arms[i].nodes, |arms[i].nodes|, c, m) && LeavesArm(w, arms, i, m, o)
  }

  ghost predicate LeavesArm(w: Resolver, arms: seq<Arm>, i: nat, m: Outcome, o: Outcome)
    requires i < |arms|
    decreases arms, |arms| - i - 1, 2
  {
    if !m.Normal? || arms[i].terminator.Break? then o == m
    else if arms[i].terminator.Fallthrough? then RunsArm(w, arms, i + 1, m.state, o)
    else SelectsArm(w, arms, i + 1, m.state, o)
  }
}
