/** The tree the structural shell parser hands to the evaluator.
    Command text is represented by what the command classifiers report about it. */
module ShellSyntax {
  import opened Basics

  datatype Build = Build(context: string, dockerfile: Option<string>)

  type BuildKey = (string, string)

  /** A missing Dockerfile and an empty one are the same build. */
  function KeyOf(build: Build): BuildKey {
    (build.context, if build.dockerfile.Some? then build.dockerfile.value else "")
  }

  /** The text the evaluator files a build under. */
  function KeyText(build: Build): string {
    build.context + ['\0'] + (if build.dockerfile.Some? then build.dockerfile.value else "")
  }

  predicate Unnamed(build: Build) {
    build.dockerfile.None? || build.dockerfile.value == ""
  }

  /** Builds count as one if they have one context and one Dockerfile, a missing one being an empty one. */
  lemma SameKey(a: Build, b: Build)
    requires '\0' !in a.context && '\0' !in b.context
    ensures KeyText(a) == KeyText(b) <==> a.context == b.context && (a.dockerfile == b.dockerfile || (Unnamed(a) && Unnamed(b)))
    ensures KeyOf(a) == KeyOf(b) <==> KeyText(a) == KeyText(b)
  {
    if KeyText(a) == KeyText(b) {
      assert KeyText(a)[|a.context|] == '\0' && KeyText(b)[|b.context|] == '\0';
      assert forall k | 0 <= k < |a.context| :: KeyText(a)[k] == a.context[k];
      assert forall k | 0 <= k < |b.context| :: KeyText(b)[k] == b.context[k];
      assert a.context == KeyText(a)[..|a.context|] && b.context == KeyText(b)[..|b.context|];
      assert KeyText(a)[|a.context| + 1..] == KeyText(b)[|b.context| + 1..];
    }
  }

  function KeysOf(builds: seq<Build>): set<BuildKey> {
    set b | b in builds :: KeyOf(b)
  }

  datatype Terminator = Sequence | End | And | Or | Pipe | Background

  datatype ExitArgument =
    | Inherited
    | Numeric(code: int)
    | Dynamic

  datatype Effect =
    | Succeeds(bareTrue: bool)  // `true`, `:`, `echo`, a plain `printf`
    | Fails                     // `false`
    | Opaque(docker: bool)      // everything else

  datatype Executable =
    | Unresolvable(error: string)
    | Missing
    | Errexit                   // `set -e`
    | Terminate(argument: ExitArgument)
    | Run(effect: Effect)

  datatype Command =
    | AssignOutput(key: string, value: string)  // echo key=value >> $GITHUB_OUTPUT
    | Simple(
        builds: seq<Build>,
        buildErrors: seq<string>,
        redirected: bool,       // carries a redirection that is not analysed
        executable: Executable,
        negated: bool,
        replacesShell: bool)    // runs under `exec`

  datatype ArmTerminator = Break | Fallthrough | Retest

  datatype Arm = Arm(catchAll: bool, nodes: seq<Node>, terminator: ArmTerminator)

  datatype Program = Program(nodes: seq<Node>, errors: seq<string>)

  datatype Node =
    | CommandNode(expansions: seq<Program>, terminator: Terminator, command: Command)
    | GroupNode(
        expansions: seq<Program>, terminator: Terminator,
        nodes: seq<Node>, subshell: bool, redirection: bool)
    | CaseNode(expansions: seq<Program>, terminator: Terminator, arms: seq<Arm>)

  predicate Concurrent(terminator: Terminator) {
    terminator.Pipe? || terminator.Background?
  }

  predicate UsesConcurrentControl(nodes: seq<Node>) {
    exists i | 0 <= i < |nodes| ::
      var node := nodes[i];
      || Concurrent(node.terminator)
      || (node.GroupNode? && UsesConcurrentControl(node.nodes))
      || (node.CaseNode? && exists k | 0 <= k < |node.arms| :: UsesConcurrentControl(node.arms[k].nodes))
  }

  predicate UsesGroupRedirection(nodes: seq<Node>) {
    exists i | 0 <= i < |nodes| ::
      var node := nodes[i];
      || (node.GroupNode? && (node.redirection || UsesGroupRedirection(node.nodes)))
      || (node.CaseNode? && exists k | 0 <= k < |node.arms| :: UsesGroupRedirection(node.arms[k].nodes))
  }

  predicate UsesExpansions(nodes: seq<Node>) {
    exists i | 0 <= i < |nodes| ::
      var node := nodes[i];
      || node.expansions != []
      || (node.GroupNode? && UsesExpansions(node.nodes))
      || (node.CaseNode? && exists k | 0 <= k < |node.arms| :: UsesExpansions(node.arms[k].nodes))
  }

  /** A shell exit or `set -e` behind a redirection, which the evaluator takes for an ordinary command. */
  predicate HidesControl(command: Command) {
    command.Simple? && command.redirected && (command.executable.Terminate? || command.executable.Errexit?)
  }

  /** The scope of the soundness theorem: pipelines stand at the head of AND-OR lists, and no exit
      stands behind an unanalysed redirection (which strict mode reports). */
  predicate Supported(nodes: seq<Node>, strict: bool)
  {
    forall i | 0 <= i < |nodes| :: SupportedNode(nodes[i], strict) && HeadsPipeline(nodes, i)
  }

  /** A pipeline that begins here is not guarded by what stands before it. */
  predicate HeadsPipeline(nodes: seq<Node>, i: nat)
    requires i < |nodes|
  {
    nodes[i].terminator.Pipe? && i > 0 ==> !nodes[i - 1].terminator.And? && !nodes[i - 1].terminator.Or?
  }

  predicate SupportedNode(node: Node, strict: bool)
  {
    && (forall i | 0 <= i < |node.expansions| :: Supported(node.expansions[i].nodes, false))
    && match node
       case CommandNode(_, _, command) => strict || !HidesControl(command)
       case GroupNode(_, _, nodes, _, _) => Supported(nodes, strict)
       case CaseNode(_, _, arms) => forall k | 0 <= k < |arms| :: Supported(arms[k].nodes, strict)
  }
}
