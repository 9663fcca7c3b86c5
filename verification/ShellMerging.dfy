/** Merging of abstract states by identity, and what merging preserves. */
module ShellMerging {
  import opened ShellSemantics
  import opened ShellStates
  import opened Ordering

  ghost function Identities(states: seq<FlowState>): set<Identity> {
    set s | s in states :: IdentityOf(s)
  }

  ghost predicate Distinct(states: seq<FlowState>) {
    forall j | 0 <= j < |states| :: NewIdentity(states, j)
  }

  ghost predicate NewIdentity(states: seq<FlowState>, j: nat)
    requires j < |states|
  {
    forall i | 0 <= i < j :: IdentityOf(states[i]) != IdentityOf(states[j])
  }

  /** `kept` holds one state for every identity in `states`. */
  ghost predicate Merges(states: seq<FlowState>, kept: seq<FlowState>) {
    && Identities(kept) == Identities(states)
    && (forall u | u in kept :: u in states)
    && Distinct(kept)
  }

  lemma DistinctCount(kept: seq<FlowState>)
    requires Distinct(kept)
    ensures |Identities(kept)| == |kept|
  {
    var ids := seq(|kept|, i requires 0 <= i < |kept| => IdentityOf(kept[i]));
    forall i, j | 0 <= i < j < |ids| ensures ids[i] != ids[j] {
      assert NewIdentity(kept, j);
    }
    DistinctElements(ids);
    forall d ensures d in Identities(kept) <==> d in ids {
      if d in Identities(kept) {
        var i :| 0 <= i < |kept| && IdentityOf(kept[i]) == d;
        assert ids[i] == d;
      }
    }
    assert Identities(kept) == set x | x in ids;
  }

  lemma {:induction false} IdentitiesCount(states: seq<FlowState>)
    ensures |Identities(states)| <= |states|
  {
    if states != [] {
      var first, last := states[..|states| - 1], states[|states| - 1];
      IdentitiesCount(first);
      assert states == first + [last];
      IdentitiesMore(first, last);
    }
  }

  /** The index holds a position for every identity among the kept states. */
  ghost predicate Indexes(index: map<Identity, nat>, kept: seq<FlowState>) {
    && (forall d :: d in index ==> index[d] < |kept| && IdentityOf(kept[index[d]]) == d)
    && (forall s | s in kept :: IdentityOf(s) in index)
  }

  lemma IdentitiesMore(states: seq<FlowState>, state: FlowState)
    ensures Identities(states + [state]) == Identities(states) + {IdentityOf(state)}
  {
    assert forall s :: s in states + [state] <==> s in states || s == state;
    assert state in states + [state];
  }

  /** A state takes the place of the kept one with its identity. */
  lemma MergeReplaced(states: seq<FlowState>, kept: seq<FlowState>, k: nat, state: FlowState)
    requires Merges(states, kept) && k < |kept| && IdentityOf(kept[k]) == IdentityOf(state)
    ensures Merges(states + [state], kept[k := state])
  {
    var next := kept[k := state];
    IdentitiesMore(states, state);
    assert kept[k] in kept;
    forall j | 0 <= j < |next| ensures NewIdentity(next, j) && IdentityOf(next[j]) == IdentityOf(kept[j]) {
      assert NewIdentity(kept, j);
    }
    forall d ensures d in Identities(next) <==> d in Identities(kept) {
      SameIdentity(kept, next, d);
      SameIdentity(next, kept, d);
    }
  }

  lemma SameIdentity(a: seq<FlowState>, b: seq<FlowState>, d: Identity)
    requires |a| == |b| && forall j | 0 <= j < |a| :: IdentityOf(a[j]) == IdentityOf(b[j])
    ensures d in Identities(a) ==> d in Identities(b)
  {
    if d in Identities(a) {
      var s :| s in a && IdentityOf(s) == d;
      var j :| 0 <= j < |a| && a[j] == s;
      assert b[j] in b;
    }
  }

  /** A state with a new identity is kept too. */
  lemma MergeAdded(states: seq<FlowState>, kept: seq<FlowState>, state: FlowState)
    requires Merges(states, kept) && forall s | s in kept :: IdentityOf(s) != IdentityOf(state)
    ensures Merges(states + [state], kept + [state])
  {
    var next := kept + [state];
    IdentitiesMore(states, state);
    IdentitiesMore(kept, state);
    forall j | 0 <= j < |next| ensures NewIdentity(next, j) {
      if j < |kept| {
        assert NewIdentity(kept, j);
      }
    }
  }

  lemma KeptFewer(states: seq<FlowState>, kept: seq<FlowState>)
    requires Merges(states, kept)
    ensures |kept| <= |states|
  {
    DistinctCount(kept);
    IdentitiesCount(states);
  }

  lemma TooMany(states: seq<FlowState>, i: nat, kept: seq<FlowState>)
    requires i <= |states| && Merges(states[..i], kept)
    ensures |kept| <= |Identities(states)|
  {
    DistinctCount(kept);
    SubsetCount(Identities(kept), Identities(states));
  }

  /** Keeps the last state of every identity; more than 256 identities are an error. */
  method Deduplicate(states: seq<FlowState>, errors: seq<string>)
    returns (unique: seq<FlowState>, errors': seq<string>)
    ensures |errors| <= |errors'|
    ensures |errors'| == |errors| <==> |Identities(states)| <= MAX_OUTPUT_STATES
    ensures |errors'| == |errors| ==> Merges(states, unique)
    ensures |errors'| != |errors| ==> unique == []
    ensures |unique| <= |states|
  {
    var kept: seq<FlowState> := [];
    var index: map<Identity, nat> := map[];
    for i := 0 to |states|
      invariant Merges(states[..i], kept) && |kept| <= MAX_OUTPUT_STATES
      invariant Indexes(index, kept)
    {
      var state := states[i];
      var identity := IdentityOf(state);
      assert states[..i + 1] == states[..i] + [state];
      if identity in index {
        var k := index[identity];
        MergeReplaced(states[..i], kept, k, state);
        kept := kept[k := state];
      } else {
        MergeAdded(states[..i], kept, state);
        index := index[identity := |kept|];
        kept := kept + [state];
      }
      if |kept| > MAX_OUTPUT_STATES {
        TooMany(states, i + 1, kept);
        return [], errors + ["shell program has too many feasible states"];
      }
    }
    assert states[..|states|] == states;
    DistinctCount(kept);
    KeptFewer(states, kept);
    return kept, errors;
  }

  function Gather(results: seq<FlowResult>, kind: Kind): seq<FlowState> {
    if results == [] then [] else Part(results[0], kind) + Gather(results[1..], kind)
  }

  lemma GatherHolds(results: seq<FlowResult>, kind: Kind, s: FlowState)
    ensures s in Gather(results, kind) <==> exists r :: r in results && s in Part(r, kind)
  {
    if results != [] {
      GatherHolds(results[1..], kind, s);
      assert forall r :: r in results <==> r == results[0] || r in results[1..];
    }
  }

  // ----- how many states there are -----

  function Total(r: FlowResult): nat {
    |r.active| + |r.failedTerminated| + |r.successfulTerminated|
  }

  function TotalOf(results: seq<FlowResult>): nat {
    if results == [] then 0 else Total(results[0]) + TotalOf(results[1..])
  }

  lemma {:induction false} TotalOfBoth(a: seq<FlowResult>, b: seq<FlowResult>)
    ensures TotalOf(a + b) == TotalOf(a) + TotalOf(b)
  {
    if a == [] {
      assert a + b == b;
    } else {
      assert (a + b)[1..] == a[1..] + b;
      TotalOfBoth(a[1..], b);
    }
  }

  lemma TotalOfOne(r: FlowResult)
    ensures TotalOf([r]) == Total(r)
  {
    assert [r][1..] == [];
  }

  lemma {:induction false} GatheredTotal(results: seq<FlowResult>)
    ensures |Gather(results, Active)| + |Gather(results, Failed)| + |Gather(results, Successful)| == TotalOf(results)
  {
    if results != [] {
      GatheredTotal(results[1..]);
    }
  }

  method Merge(results: seq<FlowResult>, errors: seq<string>)
    returns (merged: FlowResult, errors': seq<string>)
    ensures |errors| <= |errors'|
    ensures |errors'| == |errors| ==> forall kind: Kind :: Merges(Gather(results, kind), Part(merged, kind))
    ensures |errors'| == |errors| <==> forall kind: Kind :: |Identities(Gather(results, kind))| <= MAX_OUTPUT_STATES
    ensures Total(merged) <= TotalOf(results)
  {
    var active, failed, successful;
    active, errors' := Deduplicate(Gather(results, Active), errors);
    failed, errors' := Deduplicate(Gather(results, Failed), errors');
    successful, errors' := Deduplicate(Gather(results, Successful), errors');
    merged := FlowResult(active, failed, successful);
    GatheredTotal(results);
    EachKindFits(results);
    if |errors'| == |errors| {
      EachKindMerges(results, merged);
    }
  }

  lemma EachKindMerges(results: seq<FlowResult>, merged: FlowResult)
    requires Merges(Gather(results, Active), merged.active)
    requires Merges(Gather(results, Failed), merged.failedTerminated)
    requires Merges(Gather(results, Successful), merged.successfulTerminated)
    ensures forall kind: Kind :: Merges(Gather(results, kind), Part(merged, kind))
  {
    forall kind: Kind ensures Merges(Gather(results, kind), Part(merged, kind)) {
      match kind
      case Active => assert Part(merged, kind) == merged.active;
      case Failed => assert Part(merged, kind) == merged.failedTerminated;
      case Successful => assert Part(merged, kind) == merged.successfulTerminated;
      case Stopped(_) => NothingStopped(results, kind);
    }
  }

  lemma NothingStopped(results: seq<FlowResult>, kind: Kind)
    requires kind.Stopped?
    ensures Gather(results, kind) == []
  {
    if results != [] {
      NothingStopped(results[1..], kind);
    }
  }

  lemma EachKindFits(results: seq<FlowResult>)
    ensures (forall kind: Kind :: |Identities(Gather(results, kind))| <= MAX_OUTPUT_STATES) <==>
            && |Identities(Gather(results, Active))| <= MAX_OUTPUT_STATES
            && |Identities(Gather(results, Failed))| <= MAX_OUTPUT_STATES
            && |Identities(Gather(results, Successful))| <= MAX_OUTPUT_STATES
  {
    IdentitiesCount([]);
    forall kind: Kind
      ensures kind.Active? || kind.Failed? || kind.Successful? || |Identities(Gather(results, kind))| <= MAX_OUTPUT_STATES
    {
      if kind.Stopped? {
        NothingStopped(results, kind);
      }
    }
  }

  // ----- what merging preserves -----

  lemma MergeCovers(states: seq<FlowState>, kept: seq<FlowState>, c: CState)
    requires Merges(states, kept) && CoveredBy(states, c)
    ensures CoveredBy(kept, c)
  {
    var a :| a in states && Covers(a, c);
    assert IdentityOf(a) in Identities(kept);
    var u :| u in kept && IdentityOf(u) == IdentityOf(a);
    IdenticalStates(a, u);
    assert Covers(u, c);
  }

  ghost predicate ReportedIn(results: seq<FlowResult>, o: Outcome) {
    o.Blocked? || exists r :: r in results && Reported(r, o)
  }

  /** Every run of t from a state covered by `from` is reported by some of the results. */
  ghost predicate SoundIn(t: Task, from: seq<FlowState>, results: seq<FlowResult>) {
    forall w: Resolver, c, o :: CoveredBy(from, c) && Exec(w, t, c, o) ==> ReportedIn(results, o)
  }

  lemma MergedReports(results: seq<FlowResult>, merged: FlowResult, o: Outcome)
    requires forall kind: Kind :: Merges(Gather(results, kind), Part(merged, kind))
    requires ReportedIn(results, o)
    ensures Reported(merged, o)
  {
    if o.Blocked? { return; }
    var kind := KindOf(o);
    var r :| r in results && Reported(r, o);
    var a :| a in Part(r, kind) && Covers(a, o.state);
    GatherHolds(results, kind, a);
    MergeCovers(Gather(results, kind), Part(merged, kind), o.state);
  }

  lemma MergeSound(t: Task, from: seq<FlowState>, results: seq<FlowResult>, merged: FlowResult)
    requires forall kind: Kind :: Merges(Gather(results, kind), Part(merged, kind))
    requires SoundIn(t, from, results)
    ensures Sound(t, from, merged)
  {
    forall w: Resolver, c, o | CoveredBy(from, c) && Exec(w, t, c, o) ensures Reported(merged, o) {
      MergedReports(results, merged, o);
    }
  }
}
