/** The copy that brings vendored assets in step with their source. */
module Syncing {
  import opened Wrappers
  import opened Trees
  import opened Parity

  datatype Outcome = Outcome(root: Node, ok: bool)

  datatype Job = TreeJob(pair: Pair) | FileJob(pair: Pair)

  function Written(root: Node, path: Path, value: Node): Node {
    match Put(root, path, value)
    case Some(written) => written
    case None => root
  }

  function Parent(path: Path): Path {
    if path == [] then [] else path[..|path| - 1]
  }

  ghost predicate CanCopy(root: Node, job: Job) {
    match Find(root, job.pair.source)
    case There(Dir(_)) => job.TreeJob? && Find(root, job.pair.target) != Blocked
    case There(File(_)) => job.FileJob? && Find(root, job.pair.target) != Blocked && !IsDir(Find(root, job.pair.target))
    case _ => false
  }

  /** What a job leads to on a disk where its two paths lie apart: the target holds what the source holds;
      a tree that cannot be copied leaves an empty target behind, a file changes nothing. */
  ghost function Copied(root: Node, job: Job): Outcome {
    if CanCopy(root, job) then Outcome(Written(root, job.pair.target, Find(root, job.pair.source).node), true)
    else if job.TreeJob? then Outcome(Written(root, job.pair.target, EmptyDir), false)
    else Outcome(root, false)
  }

  /** The jobs in order, up to the first that fails. */
  ghost function Run(root: Node, jobs: seq<Job>): Outcome {
    if jobs == [] then Outcome(root, true)
    else
      var before := Run(root, jobs[..|jobs| - 1]);
      if before.ok then Copied(before.root, jobs[|jobs| - 1]) else before
  }

  function Jobs(trees: seq<Pair>, files: seq<Pair>): (jobs: seq<Job>)
    ensures |jobs| == |trees| + |files|
    ensures forall i :: 0 <= i < |trees| ==> jobs[i] == TreeJob(trees[i])
    ensures forall i :: 0 <= i < |files| ==> jobs[|trees| + i] == FileJob(files[i])
  {
    seq(|trees|, i requires 0 <= i < |trees| => TreeJob(trees[i])) + seq(|files|, i requires 0 <= i < |files| => FileJob(files[i]))
  }

  /* ---- One job ---- */

  lemma AssignTwice(entries: map<string, Node>, name: string, first: Node, second: Node)
    ensures entries[name := first][name := second] == entries[name := second]
  {
  }

  lemma {:induction false} PutTwice(root: Node, path: Path, first: Node, second: Node)
    requires Put(root, path, first).Some?
    ensures Put(Put(root, path, first).value, path, second) == Put(root, path, second)
    decreases |path|
  {
    if path != [] {
      PutTwice(Child(root, path[0]), path[1..], first, second);
      var below := Put(Child(root, path[0]), path[1..], second);
      if below.Some? {
        AssignTwice(root.entries, path[0], Put(Child(root, path[0]), path[1..], first).value, below.value);
      }
    }
  }

  lemma {:induction false} PutSame(root: Node, path: Path, value: Node)
    requires Find(root, path) == There(value)
    ensures Put(root, path, value) == Some(root)
    decreases |path|
  {
    if path != [] {
      PutSame(root.entries[path[0]], path[1..], value);
      assert root.entries[path[0] := root.entries[path[0]]] == root.entries;
    }
  }

  /** Making the parent directory first does not matter for what is then written below it. */
  lemma {:induction false} PutBelow(root: Node, dir: Path, name: string, value: Node)
    requires Find(root, dir) == Missing || Find(root, dir) == There(EmptyDir)
    ensures Put(root, dir, EmptyDir).Some?
    ensures Put(Put(root, dir, EmptyDir).value, dir + [name], value) == Put(root, dir + [name], value)
    decreases |dir|
  {
    var full := dir + [name];
    if dir != [] {
      assert full[1..] == dir[1..] + [name];
      if dir[0] !in root.entries {
        assert dir[1..] == [] || Find(EmptyDir, dir[1..]) == Missing;
      }
      PutBelow(Child(root, dir[0]), dir[1..], name, value);
      var below := Put(Child(root, dir[0]), full[1..], value);
      if below.Some? {
        AssignTwice(root.entries, dir[0], Put(Child(root, dir[0]), dir[1..], EmptyDir).value, below.value);
      }
    }
  }

  predicate IsFile(found: Found) {
    found.There? && found.node.File?
  }

  /** A file is written as if its parent had been there, and what cannot be written leaves no trace. */
  lemma ParentFirst(root: Node, path: Path, content: Node)
    requires path != [] && MkdirAll(root, Parent(path)).Some?
    ensures var made := MkdirAll(root, Parent(path)).value;
            && Find(root, path) != Blocked
            && Put(made, path, content) == Put(root, path, content)
            && (IsDir(Find(made, path)) <==> IsDir(Find(root, path)))
            && (IsDir(Find(root, path)) ==> made == root)
  {
    var dir, name := Parent(path), path[|path| - 1];
    assert path == dir + [name];
    FindStep(root, dir, name);
    if Find(root, dir) == Missing {
      PutBelow(root, dir, name, content);
      PutThere(root, dir, EmptyDir);
      FindStep(Put(root, dir, EmptyDir).value, dir, name);
    }
  }

  lemma ParentBlocked(root: Node, path: Path)
    requires path != [] && MkdirAll(root, Parent(path)) == None
    ensures Find(root, path) == Blocked
  {
    var dir, name := Parent(path), path[|path| - 1];
    assert path == dir + [name];
    FindStep(root, dir, name);
    if Find(root, dir) == Missing {
      PutFails(root, dir, EmptyDir);
    }
  }

  /** A job puts at the target what the source holds, or fails. */
  lemma CopiedIsPut(root: Node, job: Job)
    ensures Copied(root, job).ok <==> CanCopy(root, job)
    ensures Copied(root, job).ok ==>
      Put(root, job.pair.target, Find(root, job.pair.source).node) == Some(Copied(root, job).root)
  {
    if CanCopy(root, job) {
      PutFails(root, job.pair.target, Find(root, job.pair.source).node);
    }
  }

  /* ---- All jobs ---- */

  /** No target overlaps a source or another target. */
  ghost predicate Separate(jobs: seq<Job>) {
    && (forall i, j :: 0 <= i < |jobs| && 0 <= j < |jobs| ==> Apart(jobs[i].pair.source, jobs[j].pair.target))
    && (forall i, j :: 0 <= i < |jobs| && 0 <= j < |jobs| && i != j ==> Apart(jobs[i].pair.target, jobs[j].pair.target))
  }

  lemma CopiedElsewhere(before: Node, job: Job, other: Path)
    requires Apart(job.pair.target, other)
    ensures Find(Copied(before, job).root, other) == Find(before, other)
  {
    if CanCopy(before, job) {
      WrittenElsewhere(before, job.pair.target, Find(before, job.pair.source).node, other);
    } else {
      WrittenElsewhere(before, job.pair.target, EmptyDir, other);
    }
  }

  lemma WrittenElsewhere(root: Node, path: Path, value: Node, other: Path)
    requires Apart(path, other)
    ensures Find(Written(root, path, value), other) == Find(root, other)
  {
    if Put(root, path, value).Some? {
      PutElsewhere(root, path, value, other);
    }
  }

  /** What does not overlap a target is left alone, wherever the run stops. */
  lemma {:induction false} RunElsewhere(root: Node, jobs: seq<Job>, other: Path)
    requires forall i :: 0 <= i < |jobs| ==> Apart(jobs[i].pair.target, other)
    ensures Find(Run(root, jobs).root, other) == Find(root, other)
  {
    if jobs != [] {
      var front, last := jobs[..|jobs| - 1], jobs[|jobs| - 1];
      RunElsewhere(root, front, other);
      CopiedElsewhere(Run(root, front).root, last, other);
    }
  }

  /** The run succeeds exactly when every job can be done on the disk as it was. */
  lemma {:induction false} RunSucceeds(root: Node, jobs: seq<Job>)
    requires Separate(jobs)
    ensures Run(root, jobs).ok <==> forall i :: 0 <= i < |jobs| ==> CanCopy(root, jobs[i])
  {
    if jobs != [] {
      var front, last := jobs[..|jobs| - 1], jobs[|jobs| - 1];
      RunSucceeds(root, front);
      if Run(root, front).ok {
        var before := Run(root, front).root;
        RunElsewhere(root, front, last.pair.source);
        RunElsewhere(root, front, last.pair.target);
        CopiedIsPut(before, last);
      }
      AllButLast(jobs, front, last, job => CanCopy(root, job));
    }
  }

  lemma AllButLast(jobs: seq<Job>, front: seq<Job>, last: Job, good: Job -> bool)
    requires jobs == front + [last]
    ensures (forall i :: 0 <= i < |jobs| ==> good(jobs[i])) <==> (forall i :: 0 <= i < |front| ==> good(front[i])) && good(last)
  {
    assert jobs[|front|] == last;
    assert forall i :: 0 <= i < |front| ==> jobs[i] == front[i];
  }

  /** Afterwards every target holds what its source held, and still holds. */
  lemma RunCopies(root: Node, jobs: seq<Job>, i: nat)
    requires Separate(jobs) && Run(root, jobs).ok && i < |jobs|
    ensures Find(Run(root, jobs).root, jobs[i].pair.target) == Find(root, jobs[i].pair.source)
    ensures Find(Run(root, jobs).root, jobs[i].pair.source) == Find(root, jobs[i].pair.source)
    ensures CanCopy(root, jobs[i])
  {
    RunSucceeds(root, jobs);
    RunElsewhere(root, jobs, jobs[i].pair.source);
    TargetWritten(root, jobs, i);
  }

  lemma {:induction false} TargetWritten(root: Node, jobs: seq<Job>, i: nat)
    requires Separate(jobs) && Run(root, jobs).ok && i < |jobs|
    ensures Find(Run(root, jobs).root, jobs[i].pair.target) == Find(root, jobs[i].pair.source)
  {
    var front, last := jobs[..|jobs| - 1], jobs[|jobs| - 1];
    var before := Run(root, front).root;
    WrittenAndKept(before, last);
    if i < |front| {
      TargetWritten(root, front, i);
      assert Apart(last.pair.target, jobs[i].pair.target);
    } else {
      RunElsewhere(root, front, last.pair.source);
    }
  }

  /** A job that succeeds is seen at its target and nowhere apart from it. */
  lemma WrittenAndKept(before: Node, job: Job)
    requires Copied(before, job).ok
    ensures Find(Copied(before, job).root, job.pair.target) == Find(before, job.pair.source)
    ensures forall other :: Apart(job.pair.target, other) ==> Find(Copied(before, job).root, other) == Find(before, other)
  {
    CopiedIsPut(before, job);
    PutThere(before, job.pair.target, Find(before, job.pair.source).node);
    forall other | Apart(job.pair.target, other) ensures Find(Copied(before, job).root, other) == Find(before, other) {
      CopiedElsewhere(before, job, other);
    }
  }

  /* ---- The sync ---- */

  ghost function Synced(root: Node, schemasRoot: Path, goldenRoot: Path, trees: seq<Pair>, files: seq<Pair>): Outcome {
    match MkdirAll(root, schemasRoot)
    case None => Outcome(root, false)
    case Some(made) =>
      match MkdirAll(made, goldenRoot)
      case None => Outcome(made, false)
      case Some(ready) => Run(ready, Jobs(trees, files))
  }

  /** After a successful sync the check passes. */
  lemma SyncThenCheck(root: Node, schemasRoot: Path, goldenRoot: Path, trees: seq<Pair>, files: seq<Pair>)
    requires Separate(Jobs(trees, files))
    requires Synced(root, schemasRoot, goldenRoot, trees, files).ok
    ensures AllReports(Synced(root, schemasRoot, goldenRoot, trees, files).root, trees, files) == Some(multiset{})
  {
    var jobs := Jobs(trees, files);
    var ready := MkdirAll(MkdirAll(root, schemasRoot).value, goldenRoot).value;
    var after := Run(ready, jobs).root;
    forall i | 0 <= i < |trees| ensures TreesAgree(after, trees[i]) {
      RunCopies(ready, jobs, i);
      assert jobs[i] == TreeJob(trees[i]);
      var entries := Find(ready, trees[i].source).node.entries;
      assert Holds(after, trees[i].source, entries) && Holds(after, trees[i].target, entries);
    }
    forall i | 0 <= i < |files| ensures FilesAgree(after, files[i]) {
      RunCopies(ready, jobs, |trees| + i);
      assert jobs[|trees| + i] == FileJob(files[i]);
    }
    CheckPasses(after, trees, files);
  }

  /** A sync, its two new directories included, leaves alone what overlaps no target and is neither of
      these directories nor above them, whether it succeeds or not. */
  lemma SyncElsewhere(root: Node, schemasRoot: Path, goldenRoot: Path, trees: seq<Pair>, files: seq<Pair>, other: Path)
    requires forall i :: 0 <= i < |Jobs(trees, files)| ==> Apart(Jobs(trees, files)[i].pair.target, other)
    requires !(other <= schemasRoot) && !(other <= goldenRoot)
    ensures Find(Synced(root, schemasRoot, goldenRoot, trees, files).root, other) == Find(root, other)
  {
    if MkdirAll(root, schemasRoot).Some? {
      var made := MkdirAll(root, schemasRoot).value;
      MkdirElsewhere(root, schemasRoot, other);
      if MkdirAll(made, goldenRoot).Some? {
        MkdirElsewhere(made, goldenRoot, other);
        RunElsewhere(MkdirAll(made, goldenRoot).value, Jobs(trees, files), other);
      }
    }
  }

  /** Where every target already holds what its source holds, the run changes nothing. */
  lemma {:induction false} RunAgain(root: Node, jobs: seq<Job>)
    requires forall i :: 0 <= i < |jobs| ==> Apart(jobs[i].pair.source, jobs[i].pair.target)
    requires forall i :: 0 <= i < |jobs| ==> Settled(root, jobs[i])
    ensures Run(root, jobs) == Outcome(root, true)
  {
    if jobs != [] {
      var front, last := jobs[..|jobs| - 1], jobs[|jobs| - 1];
      RunAgain(root, front);
      assert Settled(root, last);
      CopiedIsPut(root, last);
      PutSame(root, last.pair.target, Find(root, last.pair.source).node);
    }
  }

  ghost predicate Settled(root: Node, job: Job) {
    && Find(root, job.pair.target) == Find(root, job.pair.source)
    && match Find(root, job.pair.source) {
         case There(Dir(_)) => job.TreeJob?
         case There(File(_)) => job.FileJob?
         case _ => false
       }
  }

  /** Copying a second time changes nothing. */
  lemma RunTwice(root: Node, jobs: seq<Job>)
    requires Separate(jobs) && Run(root, jobs).ok
    ensures Run(Run(root, jobs).root, jobs) == Run(root, jobs)
  {
    var after := Run(root, jobs).root;
    forall i | 0 <= i < |jobs| ensures Settled(after, jobs[i]) {
      RunCopies(root, jobs, i);
    }
    RunAgain(after, jobs);
  }

  /* ---- The disk ---- */

  class Disk {
    var root: Node

    constructor (root: Node)
      ensures this.root == root
    {
      this.root := root;
    }

    /** The target is removed and made again before the source is read. A target inside its own source
        makes the copy walk on into what it has just written, until a path gets too long. */
    method CopyTree(p: Pair) returns (ok: bool)
      modifies this
      ensures Find(old(root), p.target) == Blocked ==> !ok && root == old(root)
      ensures Find(old(root), p.target) != Blocked ==> exists value :: Put(old(root), p.target, value) == Some(root)
      ensures Apart(p.source, p.target) ==> (ok <==> CanCopy(old(root), TreeJob(p)))
      ensures Apart(p.source, p.target) && Find(old(root), p.target) != Blocked ==>
        Find(root, p.target) == if ok then Find(old(root), p.source) else There(EmptyDir)
      ensures p.target <= p.source && Find(old(root), p.target) != Blocked ==>
        Find(root, p.target) == There(EmptyDir) && (ok <==> p.source == p.target)
      ensures p.source < p.target ==> !ok
    {
      PutFails(root, p.target, EmptyDir);
      var emptied := Put(root, p.target, EmptyDir);
      if emptied.None? {
        return false;
      }
      ghost var before := root;
      PutThere(before, p.target, EmptyDir);
      root := emptied.value;
      SourceAfterEmptying(before, p);
      if p.source < p.target {
        var junk: Node := *;
        RewriteTarget(before, p.target, junk);
        root := Written(root, p.target, junk);
        return false;
      }
      match Find(root, p.source) {
        case There(Dir(entries)) =>
          RewriteTarget(before, p.target, Dir(entries));
          root := Written(root, p.target, Dir(entries));
          return true;
        case _ => return false;
      }
    }

    /** Parents are made as needed; a failure leaves everything as it was. */
    method CopyFile(p: Pair) returns (ok: bool)
      modifies this
      ensures p.target != [] ==> (ok <==> CanCopy(old(root), FileJob(p)))
      ensures p.target == [] ==> !ok
      ensures ok ==> Put(old(root), p.target, Find(old(root), p.source).node) == Some(root)
      ensures !ok ==> root == old(root)
    {
      var input := Find(root, p.source);
      if !IsFile(input) {
        return false;
      }
      var made := MkdirAll(root, Parent(p.target));
      if made.None? {
        if p.target != [] {
          ParentBlocked(root, p.target);
        }
        return false;
      }
      if p.target != [] {
        ParentFirst(root, p.target, input.node);
        PutFails(root, p.target, input.node);
      }
      root := made.value;
      if IsDir(Find(root, p.target)) {
        return false;
      }
      root := Written(root, p.target, input.node);
      return true;
    }

    /** With `checkOnly` the disk is only read, and the result says whether everything is in step. */
    method SyncParityAssets(schemasRoot: Path, goldenRoot: Path, trees: seq<Pair>, files: seq<Pair>, checkOnly: bool) returns (ok: bool)
      modifies this
      ensures checkOnly ==> root == old(root) && (ok <==> InStep(root, trees, files))
      ensures !checkOnly && EachApart(Jobs(trees, files)) ==>
        Outcome(root, ok) == Synced(old(root), schemasRoot, goldenRoot, trees, files)
      ensures !checkOnly && (exists p :: p in trees && p.source < p.target) ==> !ok
    {
      if checkOnly {
        var differences := ParityDifferences(root, trees, files);
        CheckPasses(root, trees, files);
        return differences == Some([]);
      }
      var made := MkdirAll(root, schemasRoot);
      if made.None? {
        return false;
      }
      root := made.value;
      made := MkdirAll(root, goldenRoot);
      if made.None? {
        return false;
      }
      root := made.value;
      ok := CopyAll(trees, files);
    }

    method CopyAll(trees: seq<Pair>, files: seq<Pair>) returns (ok: bool)
      modifies this
      ensures EachApart(Jobs(trees, files)) ==> Outcome(root, ok) == Run(old(root), Jobs(trees, files))
      ensures (exists p :: p in trees && p.source < p.target) ==> !ok
    {
      ghost var jobs := Jobs(trees, files);
      ok := CopyTrees(trees, jobs);
      if !ok {
        return false;
      }
      ok := CopyFiles(files, old(root), jobs, |trees|);
    }

    /** The first part of the run of `jobs`. */
    method CopyTrees(trees: seq<Pair>, ghost jobs: seq<Job>) returns (ok: bool)
      requires |trees| <= |jobs| && forall i :: 0 <= i < |trees| ==> jobs[i] == TreeJob(trees[i])
      modifies this
      ensures EachApart(jobs) ==> Outcome(root, ok) == Run(old(root), if ok then jobs[..|trees|] else jobs)
      ensures (exists p :: p in trees && p.source < p.target) ==> !ok
    {
      for i := 0 to |trees|
        invariant EachApart(jobs) ==> Outcome(root, true) == Run(old(root), jobs[..i])
        invariant forall j :: 0 <= j < i ==> !(trees[j].source < trees[j].target)
      {
        ghost var before := root;
        ok := CopyTree(trees[i]);
        if EachApart(jobs) {
          TreeOutcome(before, root, trees[i], ok);
          JobDone(old(root), before, jobs, i, Outcome(root, ok));
        }
        if !ok {
          return false;
        }
      }
      return true;
    }

    /** The rest of the run of `jobs`, which began on the disk `start`. */
    method CopyFiles(files: seq<Pair>, ghost start: Node, ghost jobs: seq<Job>, ghost n: nat) returns (ok: bool)
      requires |jobs| == n + |files| && forall i :: 0 <= i < |files| ==> jobs[n + i] == FileJob(files[i])
      requires EachApart(jobs) ==> Outcome(root, true) == Run(start, jobs[..n])
      modifies this
      ensures EachApart(jobs) ==> Outcome(root, ok) == Run(start, jobs)
    {
      for i := 0 to |files|
        invariant EachApart(jobs) ==> Outcome(root, true) == Run(start, jobs[..n + i])
      {
        ghost var before := root;
        ok := CopyFile(files[i]);
        FileDone(start, before, root, jobs, n + i, files[i], ok);
        if !ok {
          return false;
        }
      }
      assert jobs[..|jobs|] == jobs;
      return true;
    }
  }

  /** No job's own paths overlap. */
  ghost predicate EachApart(jobs: seq<Job>) {
    forall i :: 0 <= i < |jobs| ==> Apart(jobs[i].pair.source, jobs[i].pair.target)
  }

  /** What copying a tree says, for paths that lie apart, in one piece. */
  lemma TreeOutcome(before: Node, after: Node, p: Pair, ok: bool)
    requires Apart(p.source, p.target)
    requires Find(before, p.target) == Blocked ==> after == before
    requires Find(before, p.target) != Blocked ==> exists value :: Put(before, p.target, value) == Some(after)
    requires ok <==> CanCopy(before, TreeJob(p))
    requires Find(before, p.target) != Blocked ==> Find(after, p.target) == if ok then Find(before, p.source) else There(EmptyDir)
    ensures Outcome(after, ok) == Copied(before, TreeJob(p))
  {
    if Find(before, p.target) == Blocked {
      PutFails(before, p.target, EmptyDir);
    } else {
      var value :| Put(before, p.target, value) == Some(after);
      PutThere(before, p.target, value);
    }
  }

  lemma FileDone(start: Node, before: Node, after: Node, jobs: seq<Job>, i: nat, p: Pair, ok: bool)
    requires i < |jobs| && jobs[i] == FileJob(p)
    requires EachApart(jobs) ==> Outcome(before, true) == Run(start, jobs[..i])
    requires if p.target == [] then !ok else ok <==> CanCopy(before, FileJob(p))
    requires ok ==> Put(before, p.target, Find(before, p.source).node) == Some(after)
    requires !ok ==> after == before
    ensures EachApart(jobs) ==> Outcome(after, ok) == Run(start, jobs[..i + 1])
    ensures EachApart(jobs) && !ok ==> Outcome(after, ok) == Run(start, jobs)
  {
    if EachApart(jobs) {
      JobDone(start, before, jobs, i, Outcome(after, ok));
    }
  }

  /** One job more, and whether the run goes on. */
  lemma JobDone(start: Node, before: Node, jobs: seq<Job>, i: nat, outcome: Outcome)
    requires i < |jobs| && Run(start, jobs[..i]) == Outcome(before, true) && outcome == Copied(before, jobs[i])
    ensures Run(start, jobs[..i + 1]) == outcome
    ensures !outcome.ok ==> Run(start, jobs) == outcome
  {
    RunStep(start, jobs, i);
    if !outcome.ok {
      RunStops(start, jobs, i + 1);
    }
  }

  /** A target that is made again shows the source as it was, unless they overlap. */
  lemma SourceAfterEmptying(before: Node, p: Pair)
    requires Put(before, p.target, EmptyDir).Some?
    ensures var emptied := Put(before, p.target, EmptyDir).value;
            && (Apart(p.source, p.target) ==> Find(emptied, p.source) == Find(before, p.source))
            && (p.source == p.target ==> Find(emptied, p.source) == There(EmptyDir))
            && (p.target < p.source ==> Find(emptied, p.source) == Missing)
  {
    var emptied := Put(before, p.target, EmptyDir).value;
    PutThere(before, p.target, EmptyDir);
    if Apart(p.source, p.target) {
      PutElsewhere(before, p.target, EmptyDir, p.source);
    } else if p.target < p.source {
      NothingBelow(emptied, p.target, p.source, There(EmptyDir));
    }
  }

  lemma RewriteTarget(before: Node, path: Path, value: Node)
    requires Put(before, path, EmptyDir).Some?
    ensures var written := Written(Put(before, path, EmptyDir).value, path, value);
            Put(before, path, value) == Some(written) && Find(written, path) == There(value)
  {
    PutTwice(before, path, EmptyDir, value);
    PutFails(before, path, EmptyDir);
    PutFails(before, path, value);
    PutThere(before, path, value);
  }

  lemma RunStep(root: Node, jobs: seq<Job>, i: nat)
    requires i < |jobs| && Run(root, jobs[..i]).ok
    ensures Run(root, jobs[..i + 1]) == Copied(Run(root, jobs[..i]).root, jobs[i])
  {
    assert jobs[..i + 1][..i] == jobs[..i];
  }

  lemma {:induction false} RunStops(root: Node, jobs: seq<Job>, i: nat)
    requires i <= |jobs| && !Run(root, jobs[..i]).ok
    ensures Run(root, jobs) == Run(root, jobs[..i])
  {
    if i == |jobs| {
      assert jobs[..i] == jobs;
    } else {
      assert jobs[..|jobs| - 1][..i] == jobs[..i];
      RunStops(root, jobs[..|jobs| - 1], i);
    }
  }
}
