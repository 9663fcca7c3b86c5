/** Replacing several files together: every file is staged, then renamed into place, and any
    failure restores what was there. */
module PinFiles {
  import opened Basics

  datatype Target = Target(path: string, next: string)

  /** What the world does to the k-th fallible operation: it fails or not, and a failing write
      may leave a truncated file behind. */
  datatype Faults = Faults(fails: nat -> bool, debris: nat -> Option<string>)

  /** No operation from lo up to hi fails. */
  ghost predicate NoFault(faults: Faults, lo: nat, hi: nat) {
    forall k | lo <= k < hi :: !faults.fails(k)
  }

  function Lookup(files: map<string, string>, path: string): Option<string> {
    if path in files then Some(files[path]) else None
  }

  class FileSystem {
    var files: map<string, string>
    var operations: nat
    const faults: Faults

    constructor (files: map<string, string>, faults: Faults)
      ensures this.files == files && this.faults == faults && operations == 0
    {
      this.files, this.faults, operations := files, faults, 0;
    }

    method Write(path: string, content: string) returns (ok: bool)
      modifies this
      ensures operations == old(operations) + 1 && ok == !faults.fails(old(operations))
      ensures ok ==> files == old(files)[path := content]
      ensures !ok ==> forall p | p != path :: Lookup(files, p) == Lookup(old(files), p)
    {
      ok := !faults.fails(operations);
      if ok {
        files := files[path := content];
      } else {
        var left := faults.debris(operations);
        files := if left.Some? then files[path := left.value] else files;
      }
      operations := operations + 1;
    }

    /** A rename happens as a whole or not at all. */
    method Rename(from: string, to: string) returns (ok: bool)
      requires from in files && from != to
      modifies this
      ensures operations == old(operations) + 1 && ok == !faults.fails(old(operations))
      ensures files == if ok then old(files)[to := old(files)[from]] - {from} else old(files)
    {
      ok := !faults.fails(operations);
      if ok {
        files := files[to := files[from]] - {from};
      }
      operations := operations + 1;
    }

    /** Puts back what was read before, or the absence of the file. */
    method Restore(path: string, previous: Option<string>)
      modifies this`files
      ensures files == if previous.Some? then old(files)[path := previous.value] else old(files) - {path}
    {
      if previous.Some? {
        files := files[path := previous.value];
      } else if path in files {
        files := files - {path};
      }
    }

    method Remove(path: string)
      modifies this`files
      ensures files == old(files) - {path}
    {
      if path in files {
        files := files - {path};
      }
    }
  }

  // ----- staged names -----

  function Staged(path: string, pid: string): string {
    path + (".tmp-" + pid)
  }

  lemma StagedApart(a: string, b: string, pid: string)
    ensures Staged(a, pid) == Staged(b, pid) ==> a == b
  {
    var tail := ".tmp-" + pid;
    if a + tail == b + tail {
      assert a == (a + tail)[..|a|] && b == (b + tail)[..|b|];
    }
  }

  /** The paths differ, and none is the staged name of another. */
  ghost predicate Separate(targets: seq<Target>, pid: string) {
    && (forall i, j | 0 <= i < j < |targets| :: targets[i].path != targets[j].path)
    && (forall i, j | 0 <= i < |targets| && 0 <= j < |targets| :: targets[i].path != Staged(targets[j].path, pid))
  }

  ghost predicate IsStaged(targets: seq<Target>, pid: string, path: string) {
    exists i | 0 <= i < |targets| :: path == Staged(targets[i].path, pid)
  }

  ghost predicate IsTarget(targets: seq<Target>, path: string) {
    exists i | 0 <= i < |targets| :: path == targets[i].path
  }

  /** All targets hold their new content. */
  ghost predicate Installed(before: map<string, string>, files: map<string, string>, targets: seq<Target>, pid: string) {
    && (forall i | 0 <= i < |targets| :: Lookup(files, targets[i].path) == Some(targets[i].next))
    && (forall p | !IsTarget(targets, p) && !IsStaged(targets, pid, p) :: Lookup(files, p) == Lookup(before, p))
  }

  /** Nothing has changed, apart from staged files. */
  ghost predicate Untouched(before: map<string, string>, files: map<string, string>, targets: seq<Target>, pid: string) {
    forall p | !IsStaged(targets, pid, p) :: Lookup(files, p) == Lookup(before, p)
  }

  ghost predicate NothingStaged(files: map<string, string>, targets: seq<Target>, pid: string) {
    forall i | 0 <= i < |targets| :: Staged(targets[i].path, pid) !in files
  }

  /** The first k renames have happened. */
  ghost predicate Renamed(before: map<string, string>, files: map<string, string>, targets: seq<Target>, pid: string, k: nat)
    requires k <= |targets|
  {
    && (forall i | 0 <= i < k ::
          Lookup(files, targets[i].path) == Some(targets[i].next) && Staged(targets[i].path, pid) !in files)
    && (forall i | k <= i < |targets| :: Lookup(files, Staged(targets[i].path, pid)) == Some(targets[i].next))
    && OnlyThese(before, files, targets, pid, 0, k)
  }

  /** Apart from staged files, only the targets from lo up to hi may have changed. */
  ghost predicate OnlyThese(before: map<string, string>, files: map<string, string>, targets: seq<Target>, pid: string, lo: nat, hi: nat)
    requires lo <= hi <= |targets|
  {
    forall p | !IsStaged(targets, pid, p) && !IsTarget(targets[lo..hi], p) :: Lookup(files, p) == Lookup(before, p)
  }

  lemma RenameOne(before: map<string, string>, files: map<string, string>, targets: seq<Target>, pid: string, k: nat)
    requires Separate(targets, pid) && k < |targets| && Renamed(before, files, targets, pid, k)
    ensures Renamed(before, files[targets[k].path := targets[k].next] - {Staged(targets[k].path, pid)}, targets, pid, k + 1)
  {
    var t := targets[k];
    var files' := files[t.path := t.next] - {Staged(t.path, pid)};
    forall i | 0 <= i < |targets| ensures i != k ==> Staged(targets[i].path, pid) != Staged(t.path, pid) {
      StagedApart(targets[i].path, t.path, pid);
    }
    forall p | !IsStaged(targets, pid, p) && !IsTarget(targets[0..k + 1], p) ensures Lookup(files', p) == Lookup(before, p) {
      assert targets[0..k + 1][k] == t;
      forall i | 0 <= i < k ensures targets[0..k][i].path != p {
        assert targets[0..k + 1][i] == targets[i];
      }
      assert !IsTarget(targets[0..k], p);
    }
  }

  lemma TargetSplit(targets: seq<Target>, j: nat, m: nat, p: string)
    requires j < m <= |targets|
    ensures IsTarget(targets[j..m], p) <==> p == targets[j].path || IsTarget(targets[j + 1..m], p)
  {
    var all, rest := targets[j..m], targets[j + 1..m];
    assert forall i | 0 <= i < |rest| :: all[i + 1] == rest[i];
    assert all[0] == targets[j];
    if IsTarget(all, p) {
      var i :| 0 <= i < |all| && p == all[i].path;
      assert i > 0 ==> rest[i - 1] == all[i];
    }
  }

  lemma RestoreOne(before: map<string, string>, files: map<string, string>, files': map<string, string>, targets: seq<Target>,
                   pid: string, j: nat, m: nat)
    requires j < m <= |targets| && OnlyThese(before, files, targets, pid, j, m)
    requires forall p :: Lookup(files', p) == if p == targets[j].path then Lookup(before, p) else Lookup(files, p)
    ensures OnlyThese(before, files', targets, pid, j + 1, m)
  {
    forall p | !IsStaged(targets, pid, p) && !IsTarget(targets[j + 1..m], p) ensures Lookup(files', p) == Lookup(before, p) {
      TargetSplit(targets, j, m, p);
    }
  }

  // ----- all or nothing -----

  /** What the replacement promises: all targets or none, and nothing left behind. */
  ghost predicate AllOrNothing(before: map<string, string>, files: map<string, string>, targets: seq<Target>, pid: string, ok: bool) {
    && (if ok then Installed(before, files, targets, pid) else Untouched(before, files, targets, pid))
    && NothingStaged(files, targets, pid)
  }

  /** Stages every target, then renames every target into place; undoes the renames that
      happened if anything fails. */
  method ReplaceTogether(fs: FileSystem, targets: seq<Target>, pid: string) returns (ok: bool)
    requires Separate(targets, pid)
    modifies fs
    ensures AllOrNothing(old(fs.files), fs.files, targets, pid, ok)
    ensures ok <==> NoFault(fs.faults, old(fs.operations), old(fs.operations) + 2 * |targets|)
  {
    ghost var before, start := fs.files, fs.operations;
    var files := fs.files;
    var previous := seq(|targets|, i requires 0 <= i < |targets| => Lookup(files, targets[i].path));
    var replaced: nat := 0;
    ok := StageAll(fs, targets, pid);
    if ok {
      while replaced < |targets| && ok
        invariant replaced <= |targets| && Renamed(before, fs.files, targets, pid, replaced)
        invariant ok ==> fs.operations == start + |targets| + replaced && NoFault(fs.faults, start, fs.operations)
        invariant !ok ==> replaced < |targets| && fs.faults.fails(start + |targets| + replaced)
        decreases |targets| - replaced, ok
      {
        ok := RenameNext(fs, targets, pid, replaced, before);
        replaced := if ok then replaced + 1 else replaced;
      }
    }
    if !ok {
      RestoreAll(fs, targets, previous, replaced, before, pid);
      CleanUp(fs, targets, pid);
    } else {
      AllRenamed(before, fs.files, targets, pid);
    }
  }

  lemma AllRenamed(before: map<string, string>, files: map<string, string>, targets: seq<Target>, pid: string)
    requires Renamed(before, files, targets, pid, |targets|)
    ensures AllOrNothing(before, files, targets, pid, true)
  {
    assert targets[0..|targets|] == targets;
  }

  method RenameNext(fs: FileSystem, targets: seq<Target>, pid: string, k: nat, ghost before: map<string, string>) returns (ok: bool)
    requires Separate(targets, pid) && k < |targets| && Renamed(before, fs.files, targets, pid, k)
    modifies fs
    ensures fs.operations == old(fs.operations) + 1 && ok == !fs.faults.fails(old(fs.operations))
    ensures Renamed(before, fs.files, targets, pid, if ok then k + 1 else k)
  {
    var t := targets[k];
    assert t.path != Staged(t.path, pid);
    assert Lookup(fs.files, Staged(t.path, pid)) == Some(t.next);
    RenameOne(before, fs.files, targets, pid, k);
    ok := fs.Rename(Staged(t.path, pid), t.path);
  }

  method StageAll(fs: FileSystem, targets: seq<Target>, pid: string) returns (ok: bool)
    requires Separate(targets, pid)
    modifies fs
    ensures Untouched(old(fs.files), fs.files, targets, pid)
    ensures ok ==> fs.operations == old(fs.operations) + |targets| && Renamed(old(fs.files), fs.files, targets, pid, 0)
    ensures ok <==> NoFault(fs.faults, old(fs.operations), old(fs.operations) + |targets|)
  {
    ok := true;
    var i := 0;
    while i < |targets|
      invariant 0 <= i <= |targets| && ok && fs.operations == old(fs.operations) + i
      invariant Untouched(old(fs.files), fs.files, targets, pid)
      invariant forall j | 0 <= j < i :: Lookup(fs.files, Staged(targets[j].path, pid)) == Some(targets[j].next)
      invariant NoFault(fs.faults, old(fs.operations), fs.operations)
    {
      ok := Stage(fs, targets, pid, i);
      if !ok {
        return;
      }
      i := i + 1;
    }
  }

  method Stage(fs: FileSystem, targets: seq<Target>, pid: string, i: nat) returns (ok: bool)
    requires i < |targets|
    modifies fs
    ensures fs.operations == old(fs.operations) + 1 && ok == !fs.faults.fails(old(fs.operations))
    ensures forall p | p != Staged(targets[i].path, pid) :: Lookup(fs.files, p) == Lookup(old(fs.files), p)
    ensures forall j | 0 <= j < |targets| && targets[j].path != targets[i].path ::
              Lookup(fs.files, Staged(targets[j].path, pid)) == Lookup(old(fs.files), Staged(targets[j].path, pid))
    ensures ok ==> Lookup(fs.files, Staged(targets[i].path, pid)) == Some(targets[i].next)
  {
    forall j | 0 <= j < |targets| ensures targets[j].path != targets[i].path ==> Staged(targets[j].path, pid) != Staged(targets[i].path, pid) {
      StagedApart(targets[j].path, targets[i].path, pid);
    }
    ok := fs.Write(Staged(targets[i].path, pid), targets[i].next);
  }

  /** Restores the first `replaced` targets. */
  method RestoreAll(fs: FileSystem, targets: seq<Target>, previous: seq<Option<string>>, replaced: nat,
                    ghost before: map<string, string>, ghost pid: string)
    requires replaced <= |targets| == |previous| && OnlyThese(before, fs.files, targets, pid, 0, replaced)
    requires forall i | 0 <= i < |targets| :: previous[i] == Lookup(before, targets[i].path)
    modifies fs`files
    ensures Untouched(before, fs.files, targets, pid)
  {
    for j := 0 to replaced
      invariant OnlyThese(before, fs.files, targets, pid, j, replaced)
    {
      ghost var files := fs.files;
      fs.Restore(targets[j].path, previous[j]);
      RestoreOne(before, files, fs.files, targets, pid, j, replaced);
    }
    assert targets[replaced..replaced] == [];
  }

  method CleanUp(fs: FileSystem, targets: seq<Target>, pid: string)
    modifies fs`files
    ensures NothingStaged(fs.files, targets, pid)
    ensures forall p | !IsStaged(targets, pid, p) :: Lookup(fs.files, p) == Lookup(old(fs.files), p)
  {
    for i := 0 to |targets|
      invariant forall j | 0 <= j < i :: Staged(targets[j].path, pid) !in fs.files
      invariant forall p | !IsStaged(targets, pid, p) :: Lookup(fs.files, p) == Lookup(old(fs.files), p)
    {
      fs.Remove(Staged(targets[i].path, pid));
    }
  }

  // ----- the two pins -----

  datatype Outcome = Written | Rejected | RolledBack

  /** Replaces the lock and, in the source text that compiles it in, the commit. The text must
      exist and hold the literal; `withCommit` is None where it does not. */
  method WriteGbfsCatalogPin(fs: FileSystem, pid: string, lockPath: string, constantsPath: string,
                             lockIsValid: bool, lockText: string, withCommit: string -> Option<string>) returns (r: Outcome)
    requires Separate([Target(lockPath, ""), Target(constantsPath, "")], pid)
    modifies fs
    ensures r.Rejected? <==> !lockIsValid || constantsPath !in old(fs.files) || withCommit(old(fs.files)[constantsPath]).None?
    ensures r.Rejected? ==> fs.files == old(fs.files)
    ensures !r.Rejected? ==>
              AllOrNothing(old(fs.files), fs.files,
                           [Target(lockPath, lockText), Target(constantsPath, withCommit(old(fs.files)[constantsPath]).value)], pid, r.Written?)
    ensures r.RolledBack? ==> !NoFault(fs.faults, old(fs.operations), old(fs.operations) + 4)
    ensures r.Written? ==> NoFault(fs.faults, old(fs.operations), old(fs.operations) + 4)
  {
    if !lockIsValid || constantsPath !in fs.files {
      return Rejected;
    }
    var next := withCommit(fs.files[constantsPath]);
    if next.None? {
      return Rejected;
    }
    var targets := [Target(lockPath, lockText), Target(constantsPath, next.value)];
    SeparatePaths([Target(lockPath, ""), Target(constantsPath, "")], targets, pid);
    var ok := ReplaceTogether(fs, targets, pid);
    return if ok then Written else RolledBack;
  }

  lemma SeparatePaths(some: seq<Target>, others: seq<Target>, pid: string)
    requires |some| == |others| && forall i | 0 <= i < |some| :: some[i].path == others[i].path
    requires Separate(some, pid)
    ensures Separate(others, pid)
  {
  }

  /** The targets in the order of their renames; a text that cannot be made does not get that far. */
  function PinTargets(pin: Target, manifest: Target, lock: Target): seq<Target> {
    [pin, manifest, lock]
  }

  function TextOf(next: Option<string>): string {
    if next.Some? then next.value else ""
  }

  /** Replaces the pin, the manifest and the lock, keeping a flag for each replaced file. The
      flag of the lock is left out: nothing can fail after it is set. */
  method WritePinAndLock(fs: FileSystem, pid: string, pinPath: string, manifestPath: string, lockPath: string, lockText: string,
                         applyToPin: string -> Option<string>, applyToManifest: string -> Option<string>) returns (r: Outcome)
    requires Separate([Target(pinPath, ""), Target(manifestPath, ""), Target(lockPath, "")], pid)
    modifies fs
    ensures r.Rejected? <==> pinPath !in old(fs.files) || manifestPath !in old(fs.files)
    ensures r.Rejected? ==> fs.files == old(fs.files)
    ensures !r.Rejected? ==>
              var pinNext, manifestNext := applyToPin(old(fs.files)[pinPath]), applyToManifest(old(fs.files)[manifestPath]);
              && AllOrNothing(old(fs.files), fs.files,
                              PinTargets(Target(pinPath, TextOf(pinNext)), Target(manifestPath, TextOf(manifestNext)), Target(lockPath, lockText)),
                              pid, r.Written?)
              && (r.Written? <==> pinNext.Some? && manifestNext.Some? &&
                                  NoFault(fs.faults, old(fs.operations), old(fs.operations) + 6))
  {
    if pinPath !in fs.files || manifestPath !in fs.files {
      return Rejected;
    }
    ghost var before := fs.files;
    var previousPin, previousManifest := fs.files[pinPath], fs.files[manifestPath];
    var pinNext, manifestNext := applyToPin(previousPin), applyToManifest(previousManifest);
    var targets := PinTargets(Target(pinPath, TextOf(pinNext)), Target(manifestPath, TextOf(manifestNext)), Target(lockPath, lockText));
    SeparatePaths([Target(pinPath, ""), Target(manifestPath, ""), Target(lockPath, "")], targets, pid);
    var pinReplaced, manifestReplaced := false, false;
    var ok := StageThree(fs, targets, pid, pinNext.Some?, manifestNext.Some?);
    if ok {
      ok, pinReplaced, manifestReplaced := RenameThree(fs, targets, pid, before);
    }
    if !ok {
      UndoTwo(fs, targets, pid, pinReplaced, previousPin, manifestReplaced, previousManifest, before);
    }
    return if ok then Written else RolledBack;
  }

  /** Renames the pin, the manifest and the lock. */
  method RenameThree(fs: FileSystem, targets: seq<Target>, pid: string, ghost before: map<string, string>)
    returns (ok: bool, pinReplaced: bool, manifestReplaced: bool)
    requires |targets| == 3 && Separate(targets, pid) && Renamed(before, fs.files, targets, pid, 0)
    modifies fs
    ensures ok <==> NoFault(fs.faults, old(fs.operations), old(fs.operations) + 3)
    ensures ok ==> AllOrNothing(before, fs.files, targets, pid, true)
    ensures manifestReplaced ==> pinReplaced
    ensures OnlyThese(before, fs.files, targets, pid, 0, if ok then 3 else if manifestReplaced then 2 else if pinReplaced then 1 else 0)
  {
    pinReplaced, manifestReplaced := false, false;
    ok := RenameNext(fs, targets, pid, 0, before);
    pinReplaced := ok;
    if ok {
      ok := RenameNext(fs, targets, pid, 1, before);
      manifestReplaced := ok;
    }
    if ok {
      ok := RenameNext(fs, targets, pid, 2, before);
    }
    if ok {
      AllRenamed(before, fs.files, targets, pid);
    }
  }

  /** Restores the pin and the manifest where they were replaced, and removes what was staged. */
  method UndoTwo(fs: FileSystem, targets: seq<Target>, pid: string, pinReplaced: bool, previousPin: string,
                 manifestReplaced: bool, previousManifest: string, ghost before: map<string, string>)
    requires |targets| == 3 && targets[0].path != targets[1].path && (manifestReplaced ==> pinReplaced)
    requires Lookup(before, targets[0].path) == Some(previousPin) && Lookup(before, targets[1].path) == Some(previousManifest)
    requires OnlyThese(before, fs.files, targets, pid, 0, if manifestReplaced then 2 else if pinReplaced then 1 else 0)
    modifies fs`files
    ensures AllOrNothing(before, fs.files, targets, pid, false)
  {
    ghost var m := if manifestReplaced then 2 else if pinReplaced then 1 else 0;
    if pinReplaced {
      ghost var files := fs.files;
      fs.Restore(targets[0].path, Some(previousPin));
      RestoreOne(before, files, fs.files, targets, pid, 0, m);
    }
    if manifestReplaced {
      ghost var files := fs.files;
      fs.Restore(targets[1].path, Some(previousManifest));
      RestoreOne(before, files, fs.files, targets, pid, 1, m);
    }
    assert targets[m..m] == [];
    CleanUp(fs, targets, pid);
  }

  /** Stages the lock, then the pin, then the manifest. */
  method StageThree(fs: FileSystem, targets: seq<Target>, pid: string, pinKnown: bool, manifestKnown: bool) returns (ok: bool)
    requires |targets| == 3 && Separate(targets, pid)
    modifies fs
    ensures Untouched(old(fs.files), fs.files, targets, pid)
    ensures ok ==> fs.operations == old(fs.operations) + 3 && Renamed(old(fs.files), fs.files, targets, pid, 0)
    ensures ok <==> pinKnown && manifestKnown && NoFault(fs.faults, old(fs.operations), old(fs.operations) + 3)
  {
    ok := Stage(fs, targets, pid, 2);
    if ok && pinKnown {
      ok := Stage(fs, targets, pid, 0);
    }
    ok := ok && pinKnown;
    if ok && manifestKnown {
      ok := Stage(fs, targets, pid, 1);
    }
    ok := ok && manifestKnown;
  }
}
