/** Abstract states, what they say about concrete runs, and the pure steps of the evaluator. */
module ShellStates {
  import opened Basics
  import opened ShellSyntax
  import opened ShellSemantics

  const MAX_OUTPUT_STATES := 256
  const MAX_SHELL_EXPANSION_DEPTH := 16

  datatype Status = Failure | Success | Unknown

  datatype FlowState = FlowState(
    builds: seq<Build>,
    gate: Terminator,
    outputs: map<string, string>,
    status: Status)

  datatype FlowResult = FlowResult(
    active: seq<FlowState>,
    failedTerminated: seq<FlowState>,
    successfulTerminated: seq<FlowState>)

  const NOTHING := FlowResult([], [], [])

  const INITIAL := FlowState([], Sequence, map[], Success)

  // ----- what an abstract state says about a concrete one -----

  predicate Admits(status: Status, success: bool) {
    status.Unknown? || status.Success? == success
  }

  predicate Describes(a: FlowState, c: CState) {
    a.outputs == c.outputs && Admits(a.status, c.status) && !c.passing
  }

  /** What is not known is what the resolver decides. */
  predicate Agrees(a: FlowState, c: CState) {
    Describes(a, c) && (a.status.Unknown? <==> c.free)
  }

  predicate Covers(a: FlowState, c: CState) {
    Agrees(a, c) && c.builds <= KeysOf(a.builds)
  }

  ghost predicate CoveredBy(states: seq<FlowState>, c: CState) {
    exists a :: a in states && Covers(a, c)
  }

  /** The three lists of a result, and the one an outcome belongs to; a blocked run belongs to none. */
  datatype Kind = Active | Failed | Successful | Stopped(strictly: bool)

  function KindOf(o: Outcome): Kind {
    match o
    case Normal(_) => Active
    case Exited(c) => if c.status then Successful else Failed
    case Blocked(_, strictly) => Stopped(strictly)
  }

  function Part(r: FlowResult, kind: Kind): seq<FlowState> {
    match kind
    case Active => r.active
    case Failed => r.failedTerminated
    case Successful => r.successfulTerminated
    case Stopped(_) => []
  }

  /** Some returned state stands for the outcome o, unless the run is blocked. */
  ghost predicate Reported(r: FlowResult, o: Outcome) {
    o.Blocked? || CoveredBy(Part(r, KindOf(o)), o.state)
  }

  /** The judgments of the reference semantics. */
  datatype Task =
    | ListTask(nodes: seq<Node>, n: nat)
    | AdvanceTask(nodes: seq<Node>, i: nat)
    | NodeTask(node: Node)
    | StageTask(node: Node, piped: bool)
    | BodyTask(node: Node)
    | ArmTask(arms: seq<Arm>, i: nat)
    | SelectTask(arms: seq<Arm>, start: nat)
    | LeaveTask(arms: seq<Arm>, i: nat)

  ghost predicate Exec(w: Resolver, t: Task, c: CState, o: Outcome) {
    match t
    case ListTask(nodes, n) => n <= |nodes| && RunsList(w, nodes, n, c, o)
    case AdvanceTask(nodes, i) => i < |nodes| && Advances(w, nodes, i, Normal(c), o)
    case NodeTask(node) => RunsNode(w, node, c, o)
    case StageTask(node, piped) => RunsStage(w, node, piped, c, o)
    case BodyTask(node) => RunsBody(w, node, c, o)
    case ArmTask(arms, i) => i <= |arms| && RunsArm(w, arms, i, c, o)
    case SelectTask(arms, start) => start <= |arms| && SelectsArm(w, arms, start, c, o)
    case LeaveTask(arms, i) => i < |arms| && LeavesArm(w, arms, i, Normal(c), o)
  }

  /** Every run of t from a state covered by `from` is reported in r. */
  ghost predicate Sound(t: Task, from: seq<FlowState>, r: FlowResult) {
    forall w: Resolver, c, o :: CoveredBy(from, c) && Exec(w, t, c, o) ==> Reported(r, o)
  }

  // ----- that every returned state is reached -----

  /** How states are reached: whatever a resolver decides, with the outputs and the status that the
      state describes; or for some resolver, with one of the builds of the state as well. */
  datatype Mode = EveryResolver | SomeResolver(key: BuildKey)

  predicate Stands(m: Mode, a: FlowState, c: CState) {
    match m
    case EveryResolver => Agrees(a, c)
    case SomeResolver(key) =>
      Describes(a, c) && (a.status.Unknown? ==> c.free) && (key in KeysOf(a.builds) ==> key in c.builds)
  }

  ghost predicate Ends(m: Mode, w: Resolver, t: Task, c: CState, a': FlowState, kind: Kind) {
    exists o :: KindOf(o) == kind && Stands(m, a', o.state) && Exec(w, t, c, o)
  }

  /** From any state that a stands for, t can run to one that a' stands for. */
  ghost predicate Reaches(m: Mode, t: Task, a: FlowState, a': FlowState, kind: Kind) {
    match m
    case EveryResolver => forall w: Resolver, c :: Stands(m, a, c) ==> Ends(m, w, t, c, a', kind)
    case SomeResolver(_) => forall c :: Stands(m, a, c) ==> exists w: Resolver :: Ends(m, w, t, c, a', kind)
  }

  /** What a state in one of the lists of a result means: itself, or itself with a known status. */
  predicate Instance(m: Mode, b: FlowState, kind: Kind, a: FlowState) {
    match m
    case EveryResolver => a == b
    case SomeResolver(_) =>
      a == b.(status := a.status) &&
      match kind
      case Active => a.status == b.status || b.status.Unknown?
      case Failed => a.status.Failure?
      case Successful => a.status.Success?
      case Stopped(_) => false
  }

  ghost predicate Holds(m: Mode, states: seq<FlowState>, kind: Kind, a: FlowState) {
    exists b :: b in states && Instance(m, b, kind, a)
  }

  ghost predicate Reached(m: Mode, t: Task, from: seq<FlowState>, a': FlowState, kind: Kind) {
    exists a :: Holds(m, from, Active, a) && Reaches(m, t, a, a', kind)
  }

  /** Every state of r is reached from one of `from`. */
  ghost predicate Realised(m: Mode, t: Task, from: seq<FlowState>, r: FlowResult) {
    forall kind, a' :: Holds(m, Part(r, kind), kind, a') ==> Reached(m, t, from, a', kind)
  }

  // ----- identity of states -----

  type Identity = (seq<BuildKey>, Terminator, map<string, string>, Status)

  function IdentityOf(s: FlowState): Identity {
    (seq(|s.builds|, i requires 0 <= i < |s.builds| => KeyOf(s.builds[i])), s.gate, s.outputs, s.status)
  }

  lemma IdenticalStates(s: FlowState, u: FlowState)
    requires IdentityOf(s) == IdentityOf(u)
    ensures s.gate == u.gate && s.outputs == u.outputs && s.status == u.status
    ensures KeysOf(s.builds) == KeysOf(u.builds)
  {
    KeysWithin(s, u);
    KeysWithin(u, s);
  }

  lemma KeysWithin(s: FlowState, u: FlowState)
    requires IdentityOf(s) == IdentityOf(u)
    ensures KeysOf(s.builds) <= KeysOf(u.builds)
  {
    forall k | k in KeysOf(s.builds) ensures k in KeysOf(u.builds) {
      var i :| 0 <= i < |s.builds| && KeyOf(s.builds[i]) == k;
      assert IdentityOf(s).0[i] == IdentityOf(u).0[i];
      assert u.builds[i] in u.builds;
    }
  }

  // ----- gates and single commands -----

  datatype Branches = Branches(execute: Option<FlowState>, skip: Option<FlowState>, errors: seq<string>)

  /** Whether a state runs the next node or passes it by; an unknown status does both. */
  function GateBranches(state: FlowState, strict: bool): Branches {
    if state.gate.And? then
      match state.status
      case Success => Branches(Some(state), None, [])
      case Failure => Branches(None, Some(state), [])
      case Unknown =>
        Branches(Some(state.(status := Success)), Some(state.(status := Failure)),
                 if strict then ["shell AND list depends on an unknown command status"] else [])
    else if state.gate.Or? then
      match state.status
      case Failure => Branches(Some(state), None, [])
      case Success => Branches(None, Some(state), [])
      case Unknown =>
        Branches(Some(state.(status := Failure)), Some(state.(status := Success)),
                 if strict then ["shell OR list depends on an unknown command status"] else [])
    else
      Branches(Some(state), None, [])
  }

  function SettledGate(terminator: Terminator): Terminator {
    if Concurrent(terminator) then Sequence else terminator
  }

  /** The remainder JavaScript's % leaves: it takes the sign of the dividend. */
  function TruncatedRemainder(n: int, d: nat): int
    requires d > 0
  {
    if n >= 0 then n % d else -((-n) % d)
  }

  function WrappedExit(code: int): Status {
    if (TruncatedRemainder(code, 256) + 256) % 256 == 0 then Success else Failure
  }

  function TerminationStatus(argument: ExitArgument, current: Status): (Option<Status>, seq<string>) {
    match argument
    case Inherited =>
      if current.Unknown? then (None, ["shell termination inherits an unknown status"]) else (Some(current), [])
    case Dynamic => (None, ["shell termination has a dynamic or unsupported status"])
    case Numeric(code) =>
      if -MAX_SAFE_INTEGER <= code <= MAX_SAFE_INTEGER then (Some(WrappedExit(code)), [])
      else (None, ["shell termination has an unsupported numeric status"])
  }

  function Flipped(status: Status): Status {
    match status
    case Success => Failure
    case Failure => Success
    case Unknown => Unknown
  }

  function TerminatedWith(state: FlowState): FlowResult {
    if state.status.Success? then FlowResult([], [], [state]) else FlowResult([], [state], [])
  }

  /** The status a command has before negation, where it is not a termination. */
  function PlainStatus(command: Command): Status
    requires command.Simple?
  {
    if command.redirected || !command.executable.Run? || command.executable.effect.Opaque? then Unknown
    else if command.executable.effect.Succeeds? then Success else Failure
  }

  function FinalStatus(command: Command): Status
    requires command.Simple?
  {
    if command.negated then Flipped(PlainStatus(command)) else PlainStatus(command)
  }

  /** One command from one state, and the errors it adds. */
  function EvaluateCommand(command: Command, terminator: Terminator, state: FlowState, strict: bool): (FlowResult, seq<string>)
  {
    match command
    case AssignOutput(key, value) =>
      var updated := state.(outputs := state.outputs[key := value], status := Success);
      Continued(updated, terminator, strict)
    case Simple(builds, buildErrors, redirected, executable, negated, replacesShell) =>
      if strict && redirected then
        (NOTHING, ["unsupported output-producer shell redirection"])
      else
        var built := state.(builds := state.builds + builds);
        if executable.Unresolvable? then
          (NOTHING, buildErrors + [executable.error])
        else if !redirected && executable.Errexit? then
          (NOTHING, buildErrors + ["unsupported shell errexit mode: set -e"])
        else if !redirected && executable.Terminate? then
          var (status, errors) := TerminationStatus(executable.argument, state.status);
          if status.None? then (NOTHING, buildErrors + errors)
          else (TerminatedWith(built.(status := status.value)), buildErrors + errors)
        else
          var updated := built.(status := FinalStatus(command));
          var (result, errors) :=
            if replacesShell then Replaced(command, updated, strict) else Continued(updated, terminator, strict);
          (result, buildErrors + errors)
  }

  function Continued(updated: FlowState, terminator: Terminator, strict: bool): (FlowResult, seq<string>) {
    if strict && terminator.Pipe? then (NOTHING, ["unsupported output-producer shell pipe"])
    else if strict && terminator.Background? then (NOTHING, ["unsupported output-producer shell background"])
    else (FlowResult([updated.(gate := SettledGate(terminator))], [], []), [])
  }

  /** A command under `exec`: the shell ends with its status. */
  function Replaced(command: Command, updated: FlowState, strict: bool): (FlowResult, seq<string>)
    requires command.Simple?
  {
    var executable := command.executable;
    if command.negated then (NOTHING, ["unsupported negated exec replacement"])
    else if !executable.Run? then (NOTHING, ["unsupported static exec replacement target"])
    else if (match executable.effect
             case Succeeds(bareTrue) => !bareTrue
             case Fails => false
             case Opaque(docker) => !docker || command.builds == []) then
      (NOTHING, ["unsupported static exec replacement target"])
    else if !updated.status.Unknown? then (TerminatedWith(updated), [])
    else if strict then (NOTHING, ["unsupported output-producer exec replacement status"])
    else (FlowResult([], [updated], [updated]), [])
  }

  lemma WrappedExitIsModulo(code: int)
    ensures WrappedExit(code) == if code % 256 == 0 then Success else Failure
  {
    if code < 0 {
      var m := -code;
      assert m == 256 * (m / 256) + m % 256;
      assert code == 256 * (-(m / 256)) - m % 256;
    }
  }

  lemma ReportedByTerminated(updated: FlowState, d: CState)
    requires Covers(updated, d) && !updated.status.Unknown?
    ensures Reported(TerminatedWith(updated), Exited(d))
  {
    assert updated in (if d.status then TerminatedWith(updated).successfulTerminated else TerminatedWith(updated).failedTerminated);
  }

  lemma ReportedByContinued(updated: FlowState, terminator: Terminator, strict: bool, d: CState)
    requires Covers(updated, d) && Continued(updated, terminator, strict).1 == []
    ensures Reported(Continued(updated, terminator, strict).0, Normal(d))
  {
    assert Covers(Continued(updated, terminator, strict).0.active[0], d);
  }

  lemma ReportedByReplaced(command: Command, updated: FlowState, strict: bool, d: CState)
    requires command.Simple?
    requires Covers(updated, d) && Replaced(command, updated, strict).1 == []
    ensures Reported(Replaced(command, updated, strict).0, Exited(d))
  {
    if updated.status.Unknown? {
      assert updated in [updated];
    } else {
      ReportedByTerminated(updated, d);
    }
  }

  lemma TerminationSound(command: Command, a: FlowState, strict: bool, w: Resolver, c: CState, o: Outcome)
    requires command.Simple? && command.executable.Terminate? && !command.redirected
    requires EvaluateCommand(command, Sequence, a, strict).1 == []
    requires Covers(a, c) && RunsCommand(w, command, c, o) && !o.Blocked?
    ensures Reported(EvaluateCommand(command, Sequence, a, strict).0, o)
  {
    KeysOfConcat(a.builds, command.builds);
    var status := TerminationStatus(command.executable.argument, a.status).0.value;
    if command.executable.argument.Numeric? {
      WrappedExitIsModulo(command.executable.argument.code);
    }
    ReportedByTerminated(a.(builds := a.builds + command.builds, status := status), o.state);
  }

  lemma FinalAdmits(w: Resolver, command: Command, c: CState, o: Outcome)
    requires command.Simple? && !command.executable.Terminate? && !(command.negated && command.replacesShell)
    requires RunsCommand(w, command, c, o) && !o.Blocked?
    ensures Admits(FinalStatus(command), o.state.status) && (FinalStatus(command).Unknown? <==> o.state.free)
    ensures o.state.outputs == c.outputs && o.state.passing == c.passing
    ensures o == if command.replacesShell then Exited(o.state) else Normal(o.state)
  {
    assert Admits(PlainStatus(command), StatusOf(w, command, c));
  }

  /** Every run of a supported command is reported by its evaluation. */
  lemma CommandSound(command: Command, terminator: Terminator, a: FlowState, strict: bool, w: Resolver, c: CState, o: Outcome)
    requires strict || !HidesControl(command)
    requires EvaluateCommand(command, terminator, a, strict).1 == []
    requires Covers(a, c) && RunsCommand(w, command, c, o)
    ensures Reported(EvaluateCommand(command, terminator, a, strict).0, o)
  {
    if o.Blocked? { return; }
    match command
    case AssignOutput(key, value) =>
      ReportedByContinued(a.(outputs := a.outputs[key := value], status := Success), terminator, strict, o.state);
    case Simple(builds, _, _, executable, _, replacesShell) =>
      if executable.Terminate? {
        TerminationSound(command, a, strict, w, c, o);
      } else {
        var updated := a.(builds := a.builds + builds, status := FinalStatus(command));
        KeysOfConcat(a.builds, builds);
        FinalAdmits(w, command, c, o);
        if replacesShell {
          ReportedByReplaced(command, updated, strict, o.state);
        } else {
          ReportedByContinued(updated, terminator, strict, o.state);
        }
      }
  }

  lemma KeysOfConcat(left: seq<Build>, right: seq<Build>)
    ensures KeysOf(left + right) == KeysOf(left) + KeysOf(right)
  {
    assert forall b :: b in left + right <==> b in left || b in right;
  }
}
