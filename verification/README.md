# Verified models of the OpenMapX build checks and air-quality pipeline

This project models the parts of the repository that are small algorithms rather than plumbing,
and proves what they are for. `dafny verify dfyconfig.toml` checks all of it.

**The shell analyser** (`Shell*.dfy`, `GroupRedirection.dfy`). The Docker-context check reads the
shell of workflow steps and runs *sets* of abstract states (builds, outputs, gate, three-valued
status) over the parsed tree. `ShellSemantics` gives a reference semantics for one run: statuses are
Booleans, a resolver decides every status the analyser cannot know, any matching arm of a `case`
may be chosen, the components of pipelines and background lists run in shells of their own, and a
run may be *blocked*: by what must not be analysed further (a command that cannot be read, a shell
that would end with a status the resolver has decided), or must not in strict mode (a redirection,
an AND-OR list that asks for such a status). `ShellEvaluator` is the evaluator, loop by loop and
branch by branch. Without an error its methods promise (`ShellPromises`, `ShellFaithfulness`) *soundness*: every run
is covered by a returned state (`ShellComposition`); *exactness*: every returned state is reached by
a run, for some resolver with each of its builds, in strict mode also whatever a resolver decides
(`ShellRealisation`, `ShellResolvers`, `ShellSubstitution`); and that *no run is blocked*; and
conversely, on trees of at most 256 paths, an error means that some run is (`ShellBlocking`,
`ShellBounds`). `ShellReadings` relates the semantics to AND-OR lists of pipelines (section 2.9.3 of
the POSIX.1-2017 Shell Command Language) and to a `case` word with one fixed set of matching
patterns (section 2.9.4; `;&` and `;;&` are extensions), and shows two trees the evaluator gets
wrong. `ShellPlainLists` covers lists of ordinary commands joined in any way. Around the evaluator
stand the background-list restructuring, the substitution scanner with its grammar, the two word
lexers, which `ShellQuoting` shows to undo quoting, and the recognizer for group redirections with
its language.

**Docker ignore globs** (`DockerGlob*.dfy`, `RegexSyntax.dfy`, `DockerIgnore*.dfy`). Patterns
compile to regular-expression *text*; the text is parsed back by a model of the regex syntax it uses
and given the usual meaning, and compared with a direct meaning of globs. `DockerGlobSpelling` is
the grammar of patterns, `DockerIgnoreFacts` what single rules exclude, said of texts and paths.

**Canonical air-quality evidence** (`CanonicalJson.dfy`, `Deduplication*.dfy`, `JsCollections.dfy`,
`Ordering.dfy`). The canonical serializer, the merge of equivalent items and the poisoning of
contradictory ids.

**Station snapshots** (`StationThinning.dfy`, `StationPaging.dfy`, `StationProtocol.dfy`). Ranking
and thinning per map cell, pages and cursors, and the protocol between the service (a class with its
store) and the map client while snapshots vanish, cursors expire and policy changes.

**Kernels.** The XML shape check (`XmlShape.dfy`, `XmlTrees.dfy`, `XmlVerdicts.dfy`), even-odd classification and
distance to the boundary (`EvenOdd.dfy`), multi-file replacement with rollback (`PinFiles.dfy`) and
the replay report files under crashes (`ReplayReports.dfy`).

## Model

| member | source | states |
|---|---|---|
| ShellEvaluator.OutputAssignments | scripts/check-docker-context-secrets.ts:2380-2418 | Without errors, and for every way unknown statuses may resolve: the records are exactly the outputs of the runs that end in success (an all-empty list standing for no outputs), the step can succeed iff such a run exists, and no run is blocked or ends with a status that is not known. Within the limits errors of the evaluation mean that, however statuses resolve, some run is blocked or ends so. Commands one after the other, the last one of known status, add no error. Each early exit reports an error and no record. |
| ShellEvaluator.ProgramBuilds | scripts/check-docker-context-secrets.ts:2420-2444 | Without errors a build is returned iff some run of the program performs it, pipelines and substitutions included, and no run is blocked. Within the limits errors mean that the text was not parsed or that some run is blocked. In a list of commands of unknown status, joined in any way, every build is returned. |
| ShellEvaluator.EvaluateNodes | scripts/check-docker-context-secrets.ts:2220-2378 | For every tree whose pipelines no AND or OR operator guards: without an error every run is reported, none is blocked, and every returned state is reached, for some resolver with each of its builds, in strict mode also whatever a resolver decides; there are no more states than paths; within the limits an error means a blocked run. |
| ShellEvaluator.EvaluateStep | scripts/check-docker-context-secrets.ts:2231-2372 | One node from all active states, merged: covers every way a run can pass or execute the node behind its gate, every state of the result is reached, and within the limits an error means a blocked run. |
| ShellEvaluator.EvaluateState | scripts/check-docker-context-secrets.ts:2233-2266 | One node from one state: the skipped and the executed results together cover both resolutions of the gate; an error means that the gate or the node blocks a run. |
| ShellEvaluator.EvaluateNode | scripts/check-docker-context-secrets.ts:2242-2366 | A command, group or case with its substitutions, from one state, as a component of its pipeline or list: every outcome of its runs is reported, every state of the result is reached, with the gate behind it; an error means a blocked run. |
| ShellEvaluator.EvaluateArm | scripts/check-docker-context-secrets.ts:2301-2339 | An arm and what it falls through to or retests covers the runs that enter it, and every state of the result is reached. |
| ShellEvaluator.ContinueArm | scripts/check-docker-context-secrets.ts:2321-2327 | What follows an arm after `;&` or `;;&` covers the runs that leave it, and every state of it is reached. |
| ShellEvaluator.RetestArms | scripts/check-docker-context-secrets.ts:2324-2327 | Resumed matching from every state covers every later arm that may match, and the miss. |
| ShellEvaluator.SelectArm | scripts/check-docker-context-secrets.ts:2341-2361 | All arms up to the first catch-all, and the miss when there is none, cover exactly the arms a run may select. |
| ShellEvaluator.EvaluateExpansions | scripts/check-docker-context-secrets.ts:2243-2254 | The builds of all substitution programs are added: runs of them perform no others and can perform each on the way, and none is blocked; within the limits an error means that one is. |
| ShellEvaluator.CollectBuilds | scripts/check-docker-context-secrets.ts:2432-2443 | The builds of all states, one for each context and Dockerfile. |
| ShellEvaluator.ActiveSuccesses | scripts/check-docker-context-secrets.ts:2402-2410 | Exactly the successful active states; an error iff some active status is unknown. |
| ShellEvaluator.LocalizeConcurrent | scripts/check-docker-context-secrets.ts:2163-2190 | Identity outside pipelines and background lists; inside, every state, ended or not, goes on, one for each identity, with the gate of the component and a status that is unknown, or success in the background; an error iff there are more than 256 identities. |
| ShellEvaluator.DistinctMessages | scripts/check-docker-context-secrets.ts:2415-2415 | De-duplicated messages are the same set without repetitions, in the order of their first occurrences, empty only for none. |
| ShellStates.CommandSound | scripts/check-docker-context-secrets.ts:2059-2161 | Evaluating one command reports the outcome of every concrete run of it from every state the abstract one stands for. |
| ShellRealisation.CommandRealised | scripts/check-docker-context-secrets.ts:2059-2161 | Each result of a command is the outcome of one of its runs: whatever a resolver decides in strict mode, and for some resolver with each of its builds. |
| ShellBlocking.CommandUnblocked | scripts/check-docker-context-secrets.ts:2059-2161 | A command that is evaluated without an error blocks no run. |
| ShellBlocking.CommandStops | scripts/check-docker-context-secrets.ts:2059-2161 | A command that is evaluated with an error blocks a run from every state the abstract one stands for: it cannot be read, carries a redirection in strict mode, or would end the shell with a status that is not known. |
| ShellStates.WrappedExitIsModulo | scripts/check-docker-context-secrets.ts:2007-2031 | JavaScript's remainder expression equals the code modulo 256, negative codes included. |
| ShellStates.IdenticalStates | scripts/check-docker-context-secrets.ts:1957-1962 | States with one identity agree on gate, outputs, status and build keys. |
| ShellMerging.Deduplicate | scripts/check-docker-context-secrets.ts:1951-1970 | One state for each identity; an error iff there are more than 256 identities. |
| ShellMerging.Merge | scripts/check-docker-context-secrets.ts:1976-1994 | The three lists are merged separately; an error iff one of them has more than 256 identities. |
| ShellMerging.MergeSound | scripts/check-docker-context-secrets.ts:1976-1994 | Merging keeps soundness. |
| ShellRealisation.MergeRealised | scripts/check-docker-context-secrets.ts:1976-1994 | Merging keeps it that every state is reached. |
| ShellComposition.ListStepSound | scripts/check-docker-context-secrets.ts:2368-2371 | Appending a sound step to a sound prefix of a list is sound for the longer prefix, early exits included. |
| ShellRealisation.ListStepRealised | scripts/check-docker-context-secrets.ts:2368-2371 | Runs of a prefix and of a step join into one run of the longer list, early exits included. |
| ShellResolvers.RunsJoin | scripts/check-docker-context-secrets.ts:2220-2378 | A run under one resolver and a run under another that goes on where it ended are runs under one resolver: no run asks about commands of another time. |
| ShellComposition.StepSound | scripts/check-docker-context-secrets.ts:2033-2057 | The gate's branches cover running and passing by, for every status a state admits. |
| ShellBlocking.StepUnblocked | scripts/check-docker-context-secrets.ts:2033-2057 | A gate that raises no error asks for no status that is not known. |
| ShellBlocking.GateStops | scripts/check-docker-context-secrets.ts:2033-2057 | A gate that raises an error asks, in every run from that state, for a status the resolver has decided. |
| ShellComposition.LocalizedSound | scripts/check-docker-context-secrets.ts:2163-2190 | Letting every state of a concurrent component go on covers every run of it in a shell of its own. |
| ShellRealisation.LocalizedRealised | scripts/check-docker-context-secrets.ts:2163-2190 | And each such state is reached, with any status the component may leave. |
| ShellSubstitution.NodeReached | scripts/check-docker-context-secrets.ts:2243-2254 | What the body of a node reaches with the builds of its substitutions the node reaches, for each single build. |
| ShellSubstitution.SuppliesMore | scripts/check-docker-context-secrets.ts:2249-2253 | After one more substitution, a run can still be continued to a state with any one of the builds collected. |
| ShellPlainLists.StatesCarry | scripts/check-docker-context-secrets.ts:2231-2370 | Of the states that reach a command of unknown status, one that has performed all builds so far performs those of the command too. |
| ShellComposition.GroupSound | scripts/check-docker-context-secrets.ts:2267-2299 | A brace group passes exits on, a subshell turns them into a status, a redirected group may fail. |
| ShellRealisation.GroupRealised | scripts/check-docker-context-secrets.ts:2267-2299 | What the inside of a group reaches, the group reaches, a subshell as a status; the state of a redirection that fails is reached too. |
| ShellComposition.SelectSound | scripts/check-docker-context-secrets.ts:2341-2361 | Covering every arm up to the first catch-all, or every arm and the miss, covers every selection. |
| ShellBounds.StepIsBounded | scripts/check-docker-context-secrets.ts:2231-2372 | Through a list, the number of states is at most the product of what each node allows. |
| ShellReadings.ListsAreTrees | scripts/check-docker-context-secrets.ts:2033-2057 | Gate-by-gate running of a list is running the left-associative AND-OR lists of pipelines it spells, in order, a guarded pipeline being passed by as a whole: both directions, for every resolver and outcome. |
| ShellReadings.CaseHasOneWord | scripts/check-docker-context-secrets.ts:2341-2361 | Choosing arms freely, retests included, allows exactly the runs that one fixed set of matching patterns allows. |
| ShellReadings.HiddenExitEscapes | scripts/check-docker-context-secrets.ts:2095-2110 | Outside strict mode the evaluation of an `exit` is sound iff it carries no unanalysed redirection. |
| ShellReadings.HiddenExitMissesBuild | scripts/check-docker-context-secrets.ts:2095-2110 | What that costs: in `(exit 0 > f; false) && docker build .` the evaluation takes the group to one failed state and passes the build by without an error, and a run builds; for every build and every exit code that wraps to zero. |
| ShellReadings.GuardedPipelineMissesBuild | scripts/check-docker-context-secrets.ts:2233-2266 | Why guarded pipelines are excluded: in `false && a` piped into `exit 0`, then `docker build .`, the evaluation passes only `a` by, ends the shell with `exit 0` and reports no build, and every run builds; for every command `a` and every build. |
| ShellSyntax.SameKey | scripts/check-docker-context-secrets.ts:2438-2438 | The text a build is filed under is the same iff context and Dockerfile are, a missing Dockerfile being an empty one, where contexts hold no NUL. |
| ShellAsyncLists.StructuralAsynchronousLists | scripts/check-docker-context-secrets.ts:1261-1303 | Unwrapping the inserted groups gives back the nodes at every level; the node count grows by the number of background terminators; at every level every remaining one is that of a plain subshell group that holds one whole AND-OR list: linked nodes, a last one that ends, and no node in front of the group linked to it. |
| ShellAsyncLists.RestructuringIsUnique | scripts/check-docker-context-secrets.ts:1261-1303 | There is exactly one such list: two lists in this form that unwrap to the same nodes are equal. |
| ShellExpansion.ShellExpansionSpan | scripts/check-docker-context-secrets.ts:832-929 | The cursor loops compute the span function that the theorem below is about. |
| ShellExpansion.FindClose | scripts/check-docker-context-secrets.ts:883-928 | The loop over quotes, escapes, comments, backticks and nesting finds the closing parenthesis the recursive definition finds. |
| ShellExpansion.FindBacktick | scripts/check-docker-context-secrets.ts:838-864 | The backtick loop finds the first unescaped backtick. |
| ShellExpansionText.ScanningUndoesWrapping | scripts/check-docker-context-secrets.ts:832-929 | In any context the scanner returns a text and the index behind it iff the text is spelled by a well-formed word grammar (quotes, escapes, backticks, comments, nested groups) and stands there with a closing parenthesis. |
| ShellExpansionText.BackticksAreFound | scripts/check-docker-context-secrets.ts:838-870 | Between backticks the scanner finds a text iff backticks and backslashes in it are escaped and a backtick follows. |
| ShellExpansionText.SpansAreComplete | scripts/check-docker-context-secrets.ts:832-929 | Nothing is found iff no substitution starts; `$((` is reported as arithmetic and as nothing else; a substitution that starts is found iff some text completes it, and otherwise reported as broken up to the end. |
| ShellExpansionText.PassesWords | scripts/check-docker-context-secrets.ts:883-928 | The scan passes over well-formed words at any depth without changing that depth. |
| ShellExpansionText.ReadsLevels | scripts/check-docker-context-secrets.ts:883-928 | Whatever a closed scan has passed over is well-formed words, one level for each parenthesis that was due. |
| ShellWords.ShellTokens | scripts/check-docker-context-secrets.ts:329-375 | The token loop computes the token function, which undoes quoting as the rows below say. |
| ShellWords.ShellWordSpans | scripts/check-docker-context-secrets.ts:1148-1194 | The span loop computes the span function, whose values undo quoting too. |
| ShellWords.LexersAgree | scripts/check-docker-context-secrets.ts:329-375 | Where no operator stands outside quotes, escapes and expansions, the tokens are the nonempty span values. |
| ShellWords.WordsTile | scripts/check-docker-context-secrets.ts:1148-1194 | For every source the spans are nonempty, ordered, disjoint and in bounds, separated by white space and nothing else. |
| ShellQuoting.ReadingUndoesSpelling | scripts/check-docker-context-secrets.ts:329-375 | A text spelled from blanks, bare, single-quoted, double-quoted and backslashed pieces, substitutions and operators is read as what the pieces mean: tokens and span values, adjacent pieces joining, operators standing alone as tokens. |
| ShellQuoting.ReadingUndoesQuoting | scripts/check-docker-context-secrets.ts:1148-1194 | Words spelled bare, in single or double quotes, or behind backslashes, with blanks between them, are read as exactly those words by both lexers. |
| ShellQuoting.ProcessInDouble | scripts/check-docker-context-secrets.ts:931-937 | In double quotes `<(` is an ordinary character, unless a backtick without an end comes before what would close it. |
| GroupRedirection.StaticGroupRedirection | scripts/check-docker-context-secrets.ts:1229-1259 | The one-pass loop accepts as the greedy function does, and makes progress. |
| GroupRedirection.RecognizesLanguage | scripts/check-docker-context-secrets.ts:1229-1259 | Greedy consumption accepts exactly the sequences of one or more redirections, although a plain target may take digits of the next descriptor. |
| DockerGlob.DockerGlobRegex | scripts/check-docker-context-secrets.ts:103-142 | The compiler rejects exactly the patterns that cannot be read as globs, and otherwise spells the regex of the glob that was read. |
| DockerGlob.CharacterClassSource | scripts/check-docker-context-secrets.ts:71-101 | A class is rejected iff it is malformed or empty; otherwise its source spells its items. |
| DockerGlob.ClassCharacter | scripts/check-docker-context-secrets.ts:60-69 | One class character with its escape, or an error for a missing one. |
| DockerGlobMeaning.CompilationPreservesMeaning | scripts/check-docker-context-secrets.ts:103-142 | The produced text parses as a regex that matches a path iff the glob does, on every path when wildcards stop at line breaks, and on every path without line breaks under the plain meaning. |
| DockerGlobMeaning.CompiledParses | scripts/check-docker-context-secrets.ts:52-58 | Escaping is right: the text of any glob is read back as the regex that was meant. |
| DockerGlobMeaning.PiecesMean | scripts/check-docker-context-secrets.ts:107-135 | The regex of a sequence of pieces matches iff the pieces do. |
| DockerGlobMeaning.LineBreakEscapes | scripts/check-docker-context-secrets.ts:116-122 | `**` matches every path in the plain meaning; compiled, it matches a path iff no line break stands in it. |
| DockerGlobMeaning.PlainIffOneLine | scripts/check-docker-context-secrets.ts:103-142 | Every accepted pattern keeps its plain meaning on a path iff the path has no line break. |
| DockerGlobSpelling.ReadIffSpelled | scripts/check-docker-context-secrets.ts:103-142 | A pattern is read as these pieces iff marks that stand for them (`?`, `*`, `**`, `**/`, classes with their items, escapes, plain characters) spell it. |
| DockerGlobSpelling.MalformedIffUnspelled | scripts/check-docker-context-secrets.ts:103-142 | A pattern is malformed iff no marks spell it. |
| DockerIgnoreRules.CandidatesAreAncestors | scripts/check-docker-context-secrets.ts:187-191 | The strings a rule is tried on are the path and its ancestor directories. |
| DockerIgnoreRules.CompileRules | scripts/check-docker-context-secrets.ts:182-185 | All rules compile iff all are well formed; blank ones disappear and the order stays. |
| DockerIgnoreRules.Evaluate | scripts/check-docker-context-secrets.ts:192-198 | The loop returns the verdict of the last matcher that applies. |
| DockerIgnoreRules.DockerIgnoreExcludes | scripts/check-docker-context-secrets.ts:182-205 | The verdict on any path is that of the last rule whose glob matches it or one of its ancestors, `**` stopping at line breaks; without line breaks in the path that is the plain meaning. |
| DockerIgnoreFacts.TextExcludes | scripts/check-docker-context-secrets.ts:182-205 | An ordinary text excludes a path iff the path or an ancestor is that text. |
| DockerIgnoreFacts.EscapeExcludes | scripts/check-docker-context-secrets.ts:108-112 | A backslash makes any character ordinary. |
| DockerIgnoreFacts.QuestionExcludes | scripts/check-docker-context-secrets.ts:123-124 | `?` before a text: the path or an ancestor is one character, not a slash, and the text. |
| DockerIgnoreFacts.StarExcludes | scripts/check-docker-context-secrets.ts:121-122 | `*` before a text: something without a slash, and the text. |
| DockerIgnoreFacts.StarsExclude | scripts/check-docker-context-secrets.ts:113-120 | `**` before a text: anything on one line, and the text. |
| DockerIgnoreFacts.DirectoriesExclude | scripts/check-docker-context-secrets.ts:113-116 | `**/` before a text: the text, or directories on one line in front of it. |
| DockerIgnoreFacts.RangeExcludes | scripts/check-docker-context-secrets.ts:71-101 | A range in brackets is one character of it, a negated one any other character. |
| DockerIgnoreRules.RulesArePlainIffOneLine | scripts/check-docker-context-secrets.ts:182-205 | Every list of well-formed rules decides on a path as its plain meaning does iff the path has no line break; otherwise the rule for all that begins with what stands before a line break gets it wrong. |
| CanonicalJson.StableIsCanonical | integrations/air-quality/current.ts:40-47 | Two JSON values have one text iff they are equal up to the order of object keys, at any depth. |
| CanonicalJson.StableUnique | integrations/air-quality/current.ts:40-47 | No text of a value followed by a delimiter is the text of another value, so nothing is ambiguous inside arrays and objects. |
| CanonicalJson.EquivalentText | integrations/air-quality/current.ts:43-46 | Sorting makes equivalent objects read alike. |
| Ordering.SortUnique | integrations/air-quality/current.ts:44-44 | Sorting by a strict total order depends on the elements only. |
| Deduplication.CombineSources | integrations/air-quality/current.ts:56-61 | Fails iff some source of the right differs from the last one before it with its id; otherwise the map holds, for each id, the last source of both lists. |
| Deduplication.AcceptsMeans | integrations/air-quality/current.ts:56-61 | That is: sources of the right with one id agree with each other and with the last one of the left, whatever the left says before. |
| Deduplication.MergeEquivalent | integrations/air-quality/current.ts:49-67 | For any lists of sources: fails iff the cores differ or a source of the right is not accepted, which is a clash where no list repeats an id; otherwise the core of the left with exactly the last source for each id and the ids of both, sorted. |
| Deduplication.MergesWithItself | integrations/air-quality/current.ts:49-67 | An item merges with a copy of itself iff it describes no source in two ways, so a repeated item that does is a conflict although alone it is kept. |
| Deduplication.DeduplicateCanonicalEvidence | integrations/air-quality/current.ts:69-97 | For any input every id is kept once or rejected, not both, and both lists are sorted. Where no item repeats a source id: an id conflicts iff two of its items clash, and every other id keeps one item, merged from all its items. |
| Deduplication.MergedClashes | integrations/air-quality/current.ts:82-87 | A merged item clashes with a new one iff one of the items behind it does. |
| DeduplicationLaws.ClashMeans | integrations/air-quality/current.ts:53-59 | Two items clash iff an id or any other field but the sources differs, or a source of one id is described with different fields, the order of keys aside. |
| DeduplicationLaws.CoresApart | integrations/air-quality/current.ts:53-55 | What is compared besides the sources is every field: the objects agree iff both ids and all other fields do. |
| DeduplicationLaws.OrderFree | integrations/air-quality/current.ts:69-97 | For every order (and repetition) of the input the conflicts are equal and the evidence is equal up to key order. |
| DeduplicationLaws.Idempotent | integrations/air-quality/current.ts:69-97 | De-duplicating a result again changes nothing and finds no conflicts. |
| StationThinning.CompareTuple | integrations/air-quality/stations.ts:83-95 | The loop returns the sign of the first difference. |
| StationThinning.Antisymmetric | integrations/air-quality/stations.ts:83-95 | On tuples of one shape, comparison is antisymmetric and zero iff they are equal. |
| StationThinning.Transitive | integrations/air-quality/stations.ts:83-95 | On tuples of one shape, comparison is transitive. |
| StationThinning.RankingIsTotal | integrations/air-quality/stations.ts:63-95 | Ranks order items strictly, and totally where observation ids differ. |
| StationThinning.BetterIsPreferred | integrations/air-quality/stations.ts:63-95 | An item ranks before another iff it is preferred at the first of these in which they differ: fresher, of the better class, fixed, on the better basis, later, of the provider listed first, with the smaller id. |
| StationThinning.Thin | integrations/air-quality/stations.ts:272-293 | The loop keeps what the fold over the candidates keeps, an earlier one winning a tie; every cell with a candidate keeps one that no candidate of the cell beats, and no other cell is kept. |
| StationThinning.FirstBestIsKept | integrations/air-quality/stations.ts:272-293 | The kept item is the first to arrive of the best ones of its cell. |
| StationThinning.OrderFreeIffNoTies | integrations/air-quality/stations.ts:272-293 | Every rearrangement of the candidates leaves the same items iff no cell has two different candidates that none beats. |
| StationThinning.ThinningIsOrderFree | integrations/air-quality/stations.ts:272-293 | With distinct observation ids the kept stations do not depend on the order of arrival. |
| StationThinning.RepeatedIdsMatter | integrations/air-quality/stations.ts:272-293 | With repeated ids they may: of two different candidates with one rank, whichever arrives first is kept, so the two orders of arrival give different results. |
| StationThinning.ColumnIsFloor | integrations/air-quality/stations.ts:47-53 | Both branches of the column give the floor of the unwrapped longitude formula. |
| StationThinning.ColumnsGoEast | integrations/air-quality/stations.ts:39-57 | Columns grow eastward from the western edge, across the antimeridian too. |
| StationPaging.PageResponse | integrations/air-quality/stations.ts:154-201 | A page is the largest that fits, for every size function, with its cursor and truncation mark. |
| StationPaging.PagingIsLossless | integrations/air-quality/stations.ts:154-201 | Following cursors concatenates to exactly the rest of the snapshot, in order, each feature once. |
| StationPaging.PagingEnds | integrations/air-quality/stations.ts:154-201 | If every one-feature page fits, following cursors ends after at most as many pages as features, offsets strictly rising. |
| StationPaging.ProgressIff | integrations/air-quality/stations.ts:165-176 | A page that is not the last moves on iff some nonempty page fits there; otherwise its cursor points back to it. |
| StationProtocol.StationService.CreateSnapshot | integrations/air-quality/station-snapshot.ts:99-134 | Stores under a fresh id what is built from the longest prefix of at most 2000 features that fits the byte limit: it fits unless it is empty, no longer one does, and it is marked truncated iff something was dropped or had been. |
| StationProtocol.StationService.ReadSnapshot | integrations/air-quality/station-snapshot.ts:147-181 | Serves a snapshot iff the cursor is live and of this query and the snapshot is stored, of this query, and free of sources the policy forbids; says which refusal is which. |
| StationProtocol.StationService.Stations | integrations/air-quality/stations.ts:203-334 | A request with a cursor is answered with a page iff its snapshot may be served, and then from that snapshot; one without a cursor iff there is something upstream, and then from the new snapshot; stored snapshots never change. |
| StationProtocol.LoadSnapshot | integrations/air-quality/use-monitor-stations.tsx:39-80 | A result is the whole of one snapshot stored during this load, with its warnings, and the whole of what was upstream unless marked truncated; at most one restart; ends when one-feature pages fit; in a quiet world (cursors live, snapshots stored since the load began still stored and allowed, the result wanted) it ends with that result at its first attempt. |
| StationProtocol.PageRead | integrations/air-quality/use-monitor-stations.tsx:66-77 | One more page keeps what was read a prefix of the snapshot the cursor names. |
| XmlShape.AssertXmlShapeBounds | integrations/air-quality-uk-air/provider.ts:173-240 | The cursor loop computes the verdict of the recursive scan. |
| XmlShape.FindTagEnd | integrations/air-quality-uk-air/provider.ts:209-220 | The quote-aware loop finds the first `>` outside quotes. |
| XmlTrees.CheckMeasuresTree | integrations/air-quality-uk-air/provider.ts:173-240 | On the text of any element tree without a document type the check accepts iff elements nest at most 16 deep and number at most 4096, and otherwise rejects for the limit that is exceeded. |
| XmlTrees.ScanItem | integrations/air-quality-uk-air/provider.ts:178-239 | Scanning the text of an item anywhere adds its elements, returns to its depth, or is rejected for size. |
| XmlVerdicts.DocumentTypeIff | integrations/air-quality-uk-air/provider.ts:174-175 | A text is rejected as a document type iff `<!DOCTYPE` stands anywhere in it, in any mix of cases. |
| XmlVerdicts.DeclarationIsRejected | integrations/air-quality-uk-air/provider.ts:198-199 | Behind any items, `<!` that opens no comment or CDATA section is rejected as a declaration. |
| XmlVerdicts.NamelessIsRejected | integrations/air-quality-uk-air/provider.ts:201-207 | Behind any items, a tag without a name is rejected, white space and a slash before it notwithstanding. |
| XmlVerdicts.UnfinishedTagIsAccepted | integrations/air-quality-uk-air/provider.ts:209-221 | A tag that does not end is accepted. |
| XmlVerdicts.OpenSectionIsAccepted | integrations/air-quality-uk-air/provider.ts:180-197 | So is a comment, CDATA section or instruction that does not end. |
| XmlVerdicts.StrayClosingIsIgnored | integrations/air-quality-uk-air/provider.ts:225-229 | A closing tag with nothing to close leaves the depth at zero. |
| EvenOdd.InRing | scripts/benchmark-transit-isochrone-accuracy.ts:33-46 | The index loop computes the parity of crossings of the closed ring, which the rows below give its meaning. |
| EvenOdd.RotationInvariant | scripts/benchmark-transit-isochrone-accuracy.ts:33-46 | The answer does not depend on where the ring starts. |
| EvenOdd.ReversalInvariant | scripts/benchmark-transit-isochrone-accuracy.ts:33-46 | Nor on the direction it runs in. |
| EvenOdd.ChordSplits | scripts/benchmark-transit-isochrone-accuracy.ts:33-46 | A chord splits a ring into two whose answers differ exactly where the point is inside. |
| EvenOdd.OutsideBoundingBox | scripts/benchmark-transit-isochrone-accuracy.ts:33-46 | A point outside a box around the ring is outside the ring. |
| EvenOdd.RectangleContains | scripts/benchmark-transit-isochrone-accuracy.ts:33-46 | A rectangle contains exactly its points, western and southern edges included. |
| EvenOdd.CrossesMeans | scripts/benchmark-transit-isochrone-accuracy.ts:38-41 | The ray crosses an edge iff the edge passes the latitude of the point and the cross product says that the point lies west of it. |
| EvenOdd.TriangleContains | scripts/benchmark-transit-isochrone-accuracy.ts:33-46 | A point strictly on the inner side of all three edges of a triangle is inside, and one strictly on the outer side of some edge is not. |
| EvenOdd.InsideIsOddFan | scripts/benchmark-transit-isochrone-accuracy.ts:33-46 | For any ring, a point off the lines of its fan is inside iff it lies in an odd number of the triangles of the fan, by sides. |
| EvenOdd.ClassifyPoint | scripts/benchmark-transit-isochrone-accuracy.ts:49-61 | A point is inside iff some exterior ring contains it and none of that polygon's holes does. |
| EvenOdd.ProjectionIsNearest | scripts/benchmark-transit-isochrone-accuracy.ts:100-114 | No point of an edge is nearer than the clamped projection. |
| EvenOdd.SquaredDistanceToBoundary | scripts/benchmark-transit-isochrone-accuracy.ts:91-119 | The result is attained by a point of some edge and is at most the squared distance to every point of every edge. |
| PinFiles.ReplaceTogether | scripts/pin-gbfs-catalog.ts:109-129 | For any number of files and any failing write or rename: all targets have their new content, or every file is as before; nothing staged remains; success iff nothing failed. |
| PinFiles.WriteGbfsCatalogPin | scripts/pin-gbfs-catalog.ts:83-129 | An invalid lock, a missing source text or a missing literal changes nothing; otherwise the two files are replaced all or nothing. |
| PinFiles.WritePinAndLock | scripts/pin-transport-apis.ts:414-455 | The version with flags is all or nothing for its three files, and succeeds iff both texts can be made and none of the six operations fails. |
| PinFiles.RenameOne | scripts/pin-gbfs-catalog.ts:113-116 | A rename installs one more target and leaves the rest as they were. |
| ReplayReports.RunReplayInvocation | scripts/self-hosting-replay.ts:246-306 | However its steps go, exactly these reports are written, one for every progress report that succeeds before the process dies, and the invocation completes iff reading and all four writes of its own succeed, the work ends well and nothing kills it. |
| ReplayReports.InvocationIsRun | scripts/self-hosting-replay.ts:246-306 | What is written is a prefix of one fixed sequence of reports, all of it iff every step succeeds; otherwise an incomplete summary is left once anything is written. |
| ReplayReports.NeverFalselyComplete | scripts/self-hosting-replay.ts:246-306 | At every moment of any sequence of invocations that finish, throw or die, a complete summary stands beside the complete runs of the same invocation. |
| ReplayReports.CompleteMeansFinished | scripts/self-hosting-replay.ts:304-305 | With a fresh id, the summary is complete for an invocation iff that invocation finished. |
| ReplayReports.OverlapMisleads | scripts/self-hosting-replay.ts:246-306 | Overlapping invocations can leave a complete summary beside incomplete runs: any two ids, any disk. |
| ReplayReports.TruthfulIffUndisturbed | scripts/self-hosting-replay.ts:246-306 | However invocations overlap, the files are truthful at every moment iff no other invocation writes runs between the complete runs of an invocation and the first summary after its complete summary. |

## Left out

Where the code and its surroundings differ from what one may expect, the model follows the code:
an empty `case` arm keeps the incoming status; a `case` without a match succeeds, also after `;;&`.

- EvaluateNodes: the theorems exclude pipelines behind `&&` or `||`, of which the code passes only the first component by (lines 2235-2240); `ShellReadings.GuardedPipelineMissesBuild` shows what that costs, and for lists of commands of unknown status `ProgramBuilds` still promises every build.
- EvaluateNodes: outside strict mode they also exclude `exit` and `set -e` behind an unanalysed redirection, which the evaluator takes for ordinary commands; `ShellReadings.HiddenExitEscapes` states the exact condition for `exit`, `HiddenExitMissesBuild` what it costs. `set -e` is excluded only because the reference semantics has no errexit mode.
- EvaluateNodes: that an error means a blocked run is promised for trees of at most 256 paths, 16 levels of substitutions and, in strict mode, no substitutions, pipelines or background lists, which `OutputAssignments` rejects beforehand; larger trees whose states merge may also pass.
- OutputAssignments: which records accompany errors of the evaluation is not stated.
- EvaluateExpansions: a substitution starts from status success, as in the code, and outputs it assigns are not tracked.
- Classification of command text: what `resolvedShellExecutable`, `shellCommandBuilds`, `exactOutputAssignment` and `shellRedirection` find in a command is input to the model (option tables and wrapper resolution).
- The parser from text to shell trees, here-documents and legacy backtick layers (`legacyDelimiterOwnership`).
- Sharing of state objects: abstract states are values here; the evaluator never keeps one object in two lists that are changed afterwards. `structuralAsynchronousLists` rewrites nodes in place; the model returns new ones.
- The identity of a state sorts outputs with `localeCompare`, taken to be total on output keys, so that equal identities mean equal outputs.
- ReadingUndoesSpelling: texts in double quotes hold no `<(` or `>(`, on which `ProcessInDouble` says what happens.
- LexersAgree: one direction only, since a lone parenthesis is one token and also one word span.
- DockerGlobRegex: strings are sequences of characters, so one character outside the basic multilingual plane counts once where JavaScript indexes two units.
- CompileRules: trimming, comments, `!` and path cleaning have already happened to the rules; `createDockerIgnoreMatcher` throws for absolute or escaping paths, which are not part of this model.
- StableIsCanonical: a number is represented by its JSON text; lone surrogates and `undefined` are not JSON values; `localeCompare` is taken as a strict total order, while a real collation may tie on canonically equivalent keys.
- DeduplicateCanonicalEvidence: its main clause is about items with sorted ids and with sources that are sorted and name no id twice; normalization sorts both and makes ids unique, but lets two sources share an id. `Deduplication.AcceptsMeans` and `MergesWithItself` say what merging then compares.
- ThinningIsOrderFree: is about the kept stations; the final sort by station id ties when two kept stations of one provider share a spatial id.
- ColumnsGoEast: longitudes and zoom are real numbers; rounding of doubles is not modelled, nor are rows, which use transcendental functions.
- PageResponse: byte sizes are an uninterpreted function of the page; time stamps and fixed diagnostics are one field.
- CreateSnapshot: identifiers count up instead of being random, and the schema check of what is stored always succeeds.
- ReadSnapshot: cursors are abstract values whose expiry the environment decides; signing, encoding and schema validation are not part of this model.
- LoadSnapshot: a budget of requests bounds the client's endless loop; it is shown not to run out when one-feature pages fit. What the loop has collected is one record.
- CheckMeasuresTree: where both limits are exceeded, which one is reported depends on the order of the document.
- SquaredDistanceToBoundary: coordinates are real numbers and the squared distance stands for `Math.hypot`.
- InRing: real numbers instead of doubles; of points on the line of an edge only those on rectangles and axis-parallel edges are placed.
- ReplaceTogether: restoring and removing files succeed, and processes are not killed in between.
- RunReplayInvocation: writing a temporary file and renaming it is one step that happens or does not.
- The size loop of the current-conditions response and `selectAirQuality`: like the paging loop, or without their code.
- Workflow discovery, Git, network, file walking, user interface, geocoding and provider clients: input and output without deep structure.
