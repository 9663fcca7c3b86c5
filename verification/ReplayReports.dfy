/** The two report files of a replay: what they say while invocations write them, each of
    which may throw or die between any two writes. A write replaces a file as a whole. */
module ReplayReports {
  import opened Basics

  datatype Status = INCOMPLETE | COMPLETE

  /** `invocation` is the identifier a report is stamped with. */
  datatype Report = Report(invocation: nat, status: Status)

  datatype Disk = Disk(summary: Option<Report>, runs: Option<Report>)

  datatype Write = ToSummary(report: Report) | ToRuns(report: Report)

  function Written(disk: Disk, write: Write): Disk {
    match write
    case ToSummary(report) => disk.(summary := Some(report))
    case ToRuns(report) => disk.(runs := Some(report))
  }

  function After(disk: Disk, writes: seq<Write>): Disk {
    if writes == [] then disk else Written(After(disk, writes[..|writes| - 1]), writes[|writes| - 1])
  }

  /** A complete summary stands beside the complete runs of the same invocation. */
  predicate Truthful(disk: Disk) {
    disk.summary.Some? && disk.summary.value.status.COMPLETE? ==> disk.runs == disk.summary
  }

  // ----- what one invocation writes -----

  function Progress(id: nat, n: nat): seq<Write> {
    seq(n, _ => ToRuns(Report(id, INCOMPLETE)))
  }

  /** All writes of an invocation whose work reports n times in between. */
  function AllWrites(id: nat, n: nat): seq<Write> {
    [ToSummary(Report(id, INCOMPLETE))] + Progress(id, n + 1) + [ToRuns(Report(id, COMPLETE)), ToSummary(Report(id, COMPLETE))]
  }

  /** An invocation gets as far as it gets. */
  ghost predicate IsRun(id: nat, writes: seq<Write>) {
    exists n: nat :: writes <= AllWrites(id, n)
  }

  ghost predicate Finished(id: nat, writes: seq<Write>) {
    exists n: nat :: writes == AllWrites(id, n)
  }

  /** How a step goes: it is done, it throws, or the process dies. */
  datatype Event = Done | Throws | Dies

  datatype Result = Completed | Threw | Died

  /** The directory with its two files, and all that was ever written to them. */
  class ReportDirectory {
    var disk: Disk
    ghost var log: seq<Write>
    ghost const initial: Disk

    ghost predicate Valid()
      reads this
    {
      disk == After(initial, log)
    }

    constructor (disk: Disk)
      ensures Valid() && this.disk == disk && log == []
    {
      this.disk := disk;
      initial := disk;
      log := [];
    }

    method Atomic(write: Write, event: Event)
      requires Valid()
      modifies this
      ensures Valid() && log == if event.Done? then old(log) + [write] else old(log)
    {
      if event.Done? {
        disk, log := Written(disk, write), log + [write];
      }
    }
  }

  function ResultOf(event: Event): Result {
    match event case Done => Completed case Throws => Threw case Dies => Died
  }

  /** The events of the work before one at which the process dies. */
  function Lived(work: seq<Event>): seq<Event> {
    if work == [] || work[0].Dies? then [] else [work[0]] + Lived(work[1..])
  }

  function Successes(work: seq<Event>): nat {
    if work == [] then 0
    else Successes(work[..|work| - 1]) + if work[|work| - 1].Done? then 1 else 0
  }

  /** The writes that are made before the work begins. */
  function FirstWrites(id: nat, opening: Event, reading: Event, resetting: Event): seq<Write> {
    if !opening.Done? then []
    else if reading.Dies? || !resetting.Done? then [ToSummary(Report(id, INCOMPLETE))]
    else [ToSummary(Report(id, INCOMPLETE)), ToRuns(Report(id, INCOMPLETE))]
  }

  /** The writes that are made in all. */
  function WritesMade(id: nat, opening: Event, reading: Event, resetting: Event, work: seq<Event>, working: Event,
                      closing: Event, finishing: Event): seq<Write>
  {
    var first := FirstWrites(id, opening, reading, resetting);
    var worked := first + Progress(id, Successes(Lived(work)));
    var closed := worked + [ToRuns(Report(id, COMPLETE))];
    if !(opening.Done? && reading.Done? && resetting.Done?) then first
    else if |Lived(work)| < |work| || !working.Done? || !closing.Done? then worked
    else if !finishing.Done? then closed
    else closed + [ToSummary(Report(id, COMPLETE))]
  }

  /** No write of the work kills the process, and every other step is done. */
  predicate Succeeds(opening: Event, reading: Event, resetting: Event, work: seq<Event>, working: Event, closing: Event, finishing: Event) {
    && opening.Done? && reading.Done? && resetting.Done? && working.Done? && closing.Done? && finishing.Done?
    && forall k | 0 <= k < |work| :: !work[k].Dies?
  }

  lemma {:induction false} LivedUntil(work: seq<Event>, k: nat)
    requires k <= |work| && forall i | 0 <= i < k :: !work[i].Dies?
    ensures k == |work| || work[k].Dies? ==> Lived(work) == work[..k]
  {
    if k > 0 {
      LivedUntil(work[1..], k - 1);
      assert work[..k] == [work[0]] + work[1..][..k - 1];
    }
  }

  /** One invocation. `opening` and `resetting` are its first two writes, with `reading` of the
      previous runs between them; `work` are the writes the work makes and `working` how the
      work ends; `closing` and `finishing` are the last two writes. */
  method RunReplayInvocation(directory: ReportDirectory, id: nat, opening: Event, reading: Event, resetting: Event,
                             work: seq<Event>, working: Event, closing: Event, finishing: Event)
    returns (result: Result)
    requires directory.Valid()
    modifies directory
    ensures directory.Valid()
    ensures var writes := WritesMade(id, opening, reading, resetting, work, working, closing, finishing);
            directory.log == old(directory.log) + writes && directory.disk == After(old(directory.disk), writes)
    ensures result.Completed? <==> Succeeds(opening, reading, resetting, work, working, closing, finishing)
  {
    ghost var log := directory.log;
    AfterBoth(directory.initial, log, WritesMade(id, opening, reading, resetting, work, working, closing, finishing));
    result := Start(directory, id, opening, reading, resetting);
    if !result.Completed? {
      return;
    }
    ghost var first, progress := FirstWrites(id, opening, reading, resetting), Progress(id, Successes(Lived(work)));
    Joins(log, first, progress);
    Joins(log, first + progress, [ToRuns(Report(id, COMPLETE))]);
    Joins(log, first + progress + [ToRuns(Report(id, COMPLETE))], [ToSummary(Report(id, COMPLETE))]);
    LivedAll(work);
    var died := DoWork(directory, id, work);
    if died {
      return Died;
    }
    if !working.Done? {
      return ResultOf(working);
    }
    directory.Atomic(ToRuns(Report(id, COMPLETE)), closing);
    if !closing.Done? {
      return ResultOf(closing);
    }
    directory.Atomic(ToSummary(Report(id, COMPLETE)), finishing);
    return ResultOf(finishing);
  }

  /** The summary is reset; then the runs are, however reading the previous ones goes. */
  method Start(directory: ReportDirectory, id: nat, opening: Event, reading: Event, resetting: Event) returns (result: Result)
    requires directory.Valid()
    modifies directory
    ensures directory.Valid() && directory.log == old(directory.log) + FirstWrites(id, opening, reading, resetting)
    ensures result.Completed? <==> opening.Done? && reading.Done? && resetting.Done?
  {
    directory.Atomic(ToSummary(Report(id, INCOMPLETE)), opening);
    if !opening.Done? {
      return ResultOf(opening);
    }
    if reading.Dies? {
      return Died;
    }
    directory.Atomic(ToRuns(Report(id, INCOMPLETE)), resetting);
    return if resetting.Done? then ResultOf(reading) else ResultOf(resetting);
  }

  /** The work reports its progress until it ends or the process dies. */
  method DoWork(directory: ReportDirectory, id: nat, work: seq<Event>) returns (died: bool)
    requires directory.Valid()
    modifies directory
    ensures directory.Valid() && directory.log == old(directory.log) + Progress(id, Successes(Lived(work)))
    ensures died <==> |Lived(work)| < |work|
  {
    ghost var log := directory.log;
    for k := 0 to |work|
      invariant forall i | 0 <= i < k :: !work[i].Dies?
      invariant directory.Valid() && directory.log == log + Progress(id, Successes(work[..k]))
    {
      LivedUntil(work, k);
      if work[k].Dies? {
        return true;
      }
      ProgressMore(log, id, work, k);
      directory.Atomic(ToRuns(Report(id, INCOMPLETE)), work[k]);
    }
    LivedUntil(work, |work|);
    return false;
  }

  /** Whatever its steps do, an invocation writes a part of one fixed sequence, finishes it exactly
      when they succeed, and otherwise leaves an incomplete summary once it has written anything. */
  lemma InvocationIsRun(disk: Disk, id: nat, opening: Event, reading: Event, resetting: Event,
                        work: seq<Event>, working: Event, closing: Event, finishing: Event)
    ensures var writes := WritesMade(id, opening, reading, resetting, work, working, closing, finishing);
            && IsRun(id, writes)
            && (Finished(id, writes) <==> Succeeds(opening, reading, resetting, work, working, closing, finishing))
            && (!Finished(id, writes) && writes != [] ==> After(disk, writes).summary == Some(Report(id, INCOMPLETE)))
  {
    var writes := WritesMade(id, opening, reading, resetting, work, working, closing, finishing);
    var n := Successes(Lived(work));
    Stages(id, n);
    LivedAll(work);
    if Succeeds(opening, reading, resetting, work, working, closing, finishing) {
      assert writes == AllWrites(id, n);
    } else {
      NotYet(id, n, writes);
      assert writes == AllWrites(id, n)[..|writes|];
      AfterSome(disk, id, n, |writes|);
    }
  }

  lemma {:induction false} LivedAll(work: seq<Event>)
    ensures |Lived(work)| <= |work|
    ensures |Lived(work)| == |work| <==> forall k | 0 <= k < |work| :: !work[k].Dies?
  {
    if work != [] {
      LivedAll(work[1..]);
      assert work == [work[0]] + work[1..];
    }
  }

  lemma Stages(id: nat, n: nat)
    ensures var all := AllWrites(id, n);
            && all[..1] == [ToSummary(Report(id, INCOMPLETE))]
            && all[..2] == [ToSummary(Report(id, INCOMPLETE)), ToRuns(Report(id, INCOMPLETE))]
            && all[..2 + n] == [ToSummary(Report(id, INCOMPLETE)), ToRuns(Report(id, INCOMPLETE))] + Progress(id, n)
            && all[..3 + n] == all[..2 + n] + [ToRuns(Report(id, COMPLETE))]
            && all == all[..3 + n] + [ToSummary(Report(id, COMPLETE))]
  {
  }

  lemma Joins<T>(log: seq<T>, a: seq<T>, b: seq<T>)
    ensures (log + a) + b == log + (a + b)
  {
  }

  lemma ProgressMore(log: seq<Write>, id: nat, work: seq<Event>, k: nat)
    requires k < |work|
    ensures log + Progress(id, Successes(work[..k + 1])) ==
            log + Progress(id, Successes(work[..k])) + if work[k].Done? then [ToRuns(Report(id, INCOMPLETE))] else []
  {
    assert work[..k + 1][..k] == work[..k];
  }

  /** What does not end with a complete summary is a run that has not finished. */
  lemma NotYet(id: nat, n: nat, writes: seq<Write>)
    requires writes <= AllWrites(id, n) && |writes| < |AllWrites(id, n)|
    ensures IsRun(id, writes) && !Finished(id, writes)
  {
    forall m: nat ensures writes != AllWrites(id, m) {
      var all := AllWrites(id, m);
      assert all[|all| - 1] == ToSummary(Report(id, COMPLETE));
      if |writes| > 0 {
        assert writes[|writes| - 1] == AllWrites(id, n)[|writes| - 1];
      }
    }
  }

  // ----- the reports are never falsely complete -----

  lemma {:induction false} AfterBoth(disk: Disk, a: seq<Write>, b: seq<Write>)
    ensures After(disk, a + b) == After(After(disk, a), b)
  {
    if b == [] {
      assert a + b == a;
    } else {
      assert (a + b)[..|a + b| - 1] == a + b[..|b| - 1];
      AfterBoth(disk, a, b[..|b| - 1]);
    }
  }

  /** The files after the first k writes of an invocation. */
  lemma {:induction false} AfterSome(disk: Disk, id: nat, n: nat, k: nat)
    requires k <= |AllWrites(id, n)|
    ensures var all := AllWrites(id, n);
            After(disk, all[..k]) == Disk(
              if k == 0 then disk.summary else Some(Report(id, if k == |all| then COMPLETE else INCOMPLETE)),
              if k <= 1 then disk.runs else Some(Report(id, if k >= |all| - 1 then COMPLETE else INCOMPLETE)))
  {
    var all := AllWrites(id, n);
    if k > 0 {
      AfterSome(disk, id, n, k - 1);
      assert all[..k][..k - 1] == all[..k - 1];
      assert all[k - 1] == if k == 1 then ToSummary(Report(id, INCOMPLETE))
                           else if k == |all| then ToSummary(Report(id, COMPLETE))
                           else if k == |all| - 1 then ToRuns(Report(id, COMPLETE))
                           else ToRuns(Report(id, INCOMPLETE));
    }
  }

  lemma TruthfulThroughout(disk: Disk, id: nat, writes: seq<Write>, k: nat)
    requires Truthful(disk) && IsRun(id, writes) && k <= |writes|
    ensures Truthful(After(disk, writes[..k]))
  {
    var n: nat :| writes <= AllWrites(id, n);
    assert writes[..k] == AllWrites(id, n)[..k];
    AfterSome(disk, id, n, k);
  }

  /** Only a finished invocation leaves a complete summary of its own. */
  lemma CompleteMeansFinished(disk: Disk, id: nat, writes: seq<Write>)
    requires IsRun(id, writes) && (disk.summary.Some? ==> disk.summary.value.invocation != id)
    ensures After(disk, writes).summary == Some(Report(id, COMPLETE)) <==> Finished(id, writes)
  {
    var n: nat :| writes <= AllWrites(id, n);
    assert writes == AllWrites(id, n)[..|writes|];
    AfterSome(disk, id, n, |writes|);
    if |writes| < |AllWrites(id, n)| {
      NotYet(id, n, writes);
    }
  }

  datatype Run = Run(id: nat, writes: seq<Write>)

  function WritesOf(runs: seq<Run>): seq<Write> {
    if runs == [] then [] else runs[0].writes + WritesOf(runs[1..])
  }

  /** At every moment of any sequence of invocations, one after the other, whether they finish,
      throw or die, the files are truthful. */
  lemma {:induction false} NeverFalselyComplete(disk: Disk, runs: seq<Run>, t: nat)
    requires Truthful(disk) && forall run | run in runs :: IsRun(run.id, run.writes)
    requires t <= |WritesOf(runs)|
    ensures Truthful(After(disk, WritesOf(runs)[..t]))
    decreases |runs|
  {
    if runs != [] {
      var first, rest := runs[0], WritesOf(runs[1..]);
      assert first in runs && forall run | run in runs[1..] :: run in runs;
      if t <= |first.writes| {
        assert WritesOf(runs)[..t] == first.writes[..t];
        TruthfulThroughout(disk, first.id, first.writes, t);
      } else {
        var u := t - |first.writes|;
        assert WritesOf(runs)[..t] == first.writes + rest[..u];
        assert first.writes[..|first.writes|] == first.writes;
        TruthfulThroughout(disk, first.id, first.writes, |first.writes|);
        AfterBoth(disk, first.writes, rest[..u]);
        NeverFalselyComplete(After(disk, first.writes), runs[1..], u);
      }
    }
  }

  // ----- invocations that overlap -----

  function Of(writes: seq<Write>, id: nat): seq<Write> {
    if writes == [] then []
    else (if writes[0].report.invocation == id then [writes[0]] else []) + Of(writes[1..], id)
  }

  lemma {:induction false} OfBoth(a: seq<Write>, b: seq<Write>, id: nat)
    ensures Of(a + b, id) == Of(a, id) + Of(b, id)
  {
    if a == [] {
      assert a + b == b;
    } else {
      assert (a + b)[1..] == a[1..] + b;
      OfBoth(a[1..], b, id);
    }
  }

  lemma {:induction false} OfOwn(writes: seq<Write>, id: nat, other: nat)
    requires forall write | write in writes :: write.report.invocation == id
    ensures Of(writes, other) == if other == id then writes else []
  {
    if writes != [] {
      assert writes[0] in writes && forall write | write in writes[1..] :: write in writes;
      OfOwn(writes[1..], id, other);
    }
  }

  /** The invocations must not overlap: a second one that starts before the last write of a
      first one, and dies, leaves a complete summary beside incomplete runs. */
  lemma OverlapMisleads(disk: Disk, x: nat, y: nat) returns (writes: seq<Write>)
    requires x != y
    ensures Finished(x, Of(writes, x)) && IsRun(y, Of(writes, y))
    ensures !Truthful(After(disk, writes))
  {
    var a, b := AllWrites(x, 0), AllWrites(y, 0);
    var early, late := a[..3] + b[..2], a[3..];
    writes := early + late;
    forall id | id == x || id == y ensures Of(writes, id) == if id == x then a else b[..2] {
      OfBoth(early, late, id);
      OfBoth(a[..3], b[..2], id);
      OfOwn(a[..3], x, id);
      OfOwn(b[..2], y, id);
      OfOwn(late, x, id);
      assert a[..3] + late == a;
    }
    assert b[..2] <= b;
    AfterBoth(disk, a[..3], b[..2]);
    AfterSome(After(disk, a[..3]), y, 0, 2);
    assert writes[..|writes| - 1] == early && writes[|writes| - 1] == ToSummary(Report(x, COMPLETE));
  }

  // ----- exactly when overlapping does no harm -----

  /** After the complete runs of x (at c), and before the next summary that anyone writes after the
      complete summary of x (at s), another invocation writes runs (at j). */
  ghost predicate Disturbs(writes: seq<Write>, x: nat, c: nat, s: nat, j: nat) {
    && c < s < |writes| && writes[c] == ToRuns(Report(x, COMPLETE)) && writes[s] == ToSummary(Report(x, COMPLETE))
    && c < j < |writes| && writes[j].ToRuns? && writes[j].report.invocation != x
    && forall r | s < r < j :: writes[r].ToRuns?
  }

  lemma {:induction false} OfIn(writes: seq<Write>, id: nat, write: Write)
    ensures write in Of(writes, id) <==> write in writes && write.report.invocation == id
  {
    if writes != [] {
      OfIn(writes[1..], id, write);
      assert writes == [writes[0]] + writes[1..];
    }
  }

  /** A write of an invocation in its own order. */
  lemma OfAt(writes: seq<Write>, id: nat, k: nat)
    requires k < |writes| && writes[k].report.invocation == id
    ensures Of(writes[..k], id) + [writes[k]] <= Of(writes, id)
  {
    var own := [writes[k]];
    assert writes == writes[..k] + (own + writes[k + 1..]);
    OfBoth(writes[..k], own + writes[k + 1..], id);
    OfBoth(own, writes[k + 1..], id);
    OfOwn(own, id, id);
  }

  /** An earlier write comes earlier in its own order. */
  lemma OfEarlier(writes: seq<Write>, id: nat, k: nat, l: nat)
    requires k < l < |writes| && writes[k].report.invocation == id
    ensures |Of(writes[..k], id)| < |Of(writes[..l], id)|
  {
    OfAt(writes[..l], id, k);
    assert writes[..l][..k] == writes[..k];
  }

  /** A complete summary has complete runs of the same invocation before it. */
  lemma CompletedBefore(writes: seq<Write>, x: nat, s: nat) returns (c: nat)
    requires IsRun(x, Of(writes, x)) && s < |writes| && writes[s] == ToSummary(Report(x, COMPLETE))
    ensures c < s && writes[c] == ToRuns(Report(x, COMPLETE))
  {
    var n: nat :| Of(writes, x) <= AllWrites(x, n);
    OfAt(writes, x, s);
    var before := Of(writes[..s], x);
    var all := AllWrites(x, n);
    assert all[|before|] == writes[s];
    assert |before| == |all| - 1 && before[|before| - 1] == all[|before| - 1];
    OfIn(writes[..s], x, ToRuns(Report(x, COMPLETE)));
    c :| 0 <= c < s && writes[..s][c] == ToRuns(Report(x, COMPLETE));
  }

  /** After its complete runs an invocation writes nothing but its complete summary. */
  lemma CompletedAfter(writes: seq<Write>, x: nat, c: nat, l: nat)
    requires IsRun(x, Of(writes, x)) && c < l < |writes|
    requires writes[c] == ToRuns(Report(x, COMPLETE)) && writes[l].report.invocation == x
    ensures writes[l].ToSummary?
  {
    var n: nat :| Of(writes, x) <= AllWrites(x, n);
    OfAt(writes, x, c);
    OfAt(writes, x, l);
    OfEarlier(writes, x, c, l);
    var all := AllWrites(x, n);
    assert all[|Of(writes[..c], x)|] == writes[c] && all[|Of(writes[..l], x)|] == writes[l];
  }

  /** Whatever is written first is an incomplete summary. */
  lemma SummaryFirst(writes: seq<Write>)
    requires writes != [] && forall id :: IsRun(id, Of(writes, id))
    ensures writes[0].ToSummary? && writes[0].report.status.INCOMPLETE?
  {
    var id := writes[0].report.invocation;
    assert IsRun(id, Of(writes, id));
    var n: nat :| Of(writes, id) <= AllWrites(id, n);
    OfAt(writes, id, 0);
    assert Of(writes[..0], id) == [];
    assert Of(writes, id)[0] == writes[0] == AllWrites(id, n)[0];
  }

  /** The last summary that was written is the one that stands. */
  lemma {:induction false} LastSummary(disk: Disk, writes: seq<Write>, s: nat)
    requires s < |writes| && writes[s].ToSummary? && forall k | s < k < |writes| :: writes[k].ToRuns?
    ensures After(disk, writes).summary == Some(writes[s].report)
  {
    if s < |writes| - 1 {
      LastSummary(disk, writes[..|writes| - 1], s);
    }
  }

  lemma {:induction false} LastRuns(disk: Disk, writes: seq<Write>, c: nat)
    requires c < |writes| && writes[c].ToRuns? && forall k | c < k < |writes| :: writes[k].ToSummary?
    ensures After(disk, writes).runs == Some(writes[c].report)
  {
    if c < |writes| - 1 {
      LastRuns(disk, writes[..|writes| - 1], c);
    }
  }

  /** The last write of runs, not before one that is known. */
  lemma {:induction false} FindLastRuns(writes: seq<Write>, j: nat) returns (l: nat)
    requires j < |writes| && writes[j].ToRuns?
    ensures j <= l < |writes| && writes[l].ToRuns? && forall k | l < k < |writes| :: writes[k].ToSummary?
    decreases |writes| - j
  {
    if k :| j < k < |writes| && writes[k].ToRuns? {
      l := FindLastRuns(writes, k);
    } else {
      l := j;
    }
  }

  lemma {:induction false} FindLastSummary(writes: seq<Write>, j: nat) returns (l: nat)
    requires j < |writes| && writes[j].ToSummary?
    ensures j <= l < |writes| && writes[l].ToSummary? && forall k | l < k < |writes| :: writes[k].ToRuns?
    decreases |writes| - j
  {
    if k :| j < k < |writes| && writes[k].ToSummary? {
      l := FindLastSummary(writes, k);
    } else {
      l := j;
    }
  }

  lemma UndisturbedIsTruthful(disk: Disk, writes: seq<Write>, t: nat)
    requires Truthful(disk) && (forall id :: IsRun(id, Of(writes, id))) && t <= |writes|
    requires forall x, c, s, j :: !Disturbs(writes, x, c, s, j)
    ensures Truthful(After(disk, writes[..t]))
  {
    var past := writes[..t];
    if t > 0 {
      SummaryFirst(writes);
      var s := FindLastSummary(past, 0);
      LastSummary(disk, past, s);
      if writes[s].report.status.COMPLETE? {
        CompleteRunsStand(disk, writes, s, t);
      }
    }
  }

  lemma CompleteRunsStand(disk: Disk, writes: seq<Write>, s: nat, t: nat)
    requires (forall id :: IsRun(id, Of(writes, id))) && s < t <= |writes|
    requires writes[s].ToSummary? && writes[s].report.status.COMPLETE? && forall r | s < r < t :: writes[r].ToRuns?
    requires forall x, c, s, j :: !Disturbs(writes, x, c, s, j)
    ensures After(disk, writes[..t]).runs == Some(writes[s].report)
  {
    var past := writes[..t];
    var x := writes[s].report.invocation;
    assert IsRun(x, Of(writes, x));
    var c := CompletedBefore(writes, x, s);
    forall k | c < k < |past| ensures past[k].ToSummary? {
      if writes[k].report.invocation == x {
        CompletedAfter(writes, x, c, k);
      } else {
        assert !Disturbs(writes, x, c, s, k);
      }
    }
    LastRuns(disk, past, c);
  }

  /** The runs written at j stand beside the complete summary of x. */
  lemma DisturbedMisleads(disk: Disk, writes: seq<Write>, x: nat, c: nat, s: nat, j: nat) returns (t: nat)
    requires IsRun(x, Of(writes, x)) && Disturbs(writes, x, c, s, j)
    ensures t <= |writes| && !Truthful(After(disk, writes[..t]))
  {
    t := if j < s then s + 1 else j + 1;
    var past := writes[..t];
    LastSummary(disk, past, s);
    var l := FindLastRuns(past, j);
    LastRuns(disk, past, l);
    if writes[l].report.invocation == x {
      CompletedAfter(writes, x, c, l);
    }
  }

  /** However invocations overlap: the files are truthful at every moment exactly when no other
      invocation writes runs between the complete runs of an invocation and the first summary
      after its complete summary. */
  lemma TruthfulIffUndisturbed(disk: Disk, writes: seq<Write>)
    requires Truthful(disk) && forall id :: IsRun(id, Of(writes, id))
    ensures (forall t | 0 <= t <= |writes| :: Truthful(After(disk, writes[..t]))) <==>
            (forall x, c, s, j :: !Disturbs(writes, x, c, s, j))
  {
    if forall x, c, s, j :: !Disturbs(writes, x, c, s, j) {
      forall t | 0 <= t <= |writes| ensures Truthful(After(disk, writes[..t])) {
        UndisturbedIsTruthful(disk, writes, t);
      }
    } else {
      var x, c, s, j :| Disturbs(writes, x, c, s, j);
      assert IsRun(x, Of(writes, x));
      var t := DisturbedMisleads(disk, writes, x, c, s, j);
    }
  }
}
