/** The check that vendored assets are in step with their source, and the copy that brings them there. */
module Parity {
  import opened Wrappers
  import opened Folds
  import opened Text
  import opened Trees

  /** The printed form of a path. */
  function Render(path: Path): string {
    Join(path, '/')
  }

  /** Names with slashes between them. */
  lemma {:induction false} RenderedStep(path: Path, name: string)
    ensures Render(path + [name]) == if path == [] then name else Render(path) + "/" + name
  {
    if path == [] {
      assert path + [name] == [name];
    } else {
      assert (path + [name])[1..] == path[1..] + [name];
      RenderedStep(path[1..], name);
      if |path| > 1 {
        assert path[0] + ['/'] + (Render(path[1..]) + "/" + name) == path[0] + ['/'] + Render(path[1..]) + "/" + name;
      } else {
        assert path[1..] == [];
      }
    }
  }

  /* ---- What differs ---- */

  function Report(path: Path, name: string): (reports: multiset<string>)
    ensures |reports| == 1
  {
    multiset{Render(path + [name])}
  }

  /** The reports for all of `a`'s and the remaining `b`'s entries, and below. */
  ghost function Differences(source: Path, target: Path, a: Node, b: Node): multiset<string>
    requires a.Dir? && b.Dir?
    decreases a, 2
  {
    OfEntries(source, target, a, b, a.entries.Keys) + Extras(target, b.entries.Keys - a.entries.Keys)
  }

  ghost function OfEntries(source: Path, target: Path, a: Node, b: Node, names: set<string>): multiset<string>
    requires a.Dir? && b.Dir? && names <= a.entries.Keys
    decreases a, 1
  {
    Bag(map name | name in names :: OfEntry(source, target, a, b, name))
  }

  ghost function OfEntry(source: Path, target: Path, a: Node, b: Node, name: string): multiset<string>
    requires a.Dir? && b.Dir? && name in a.entries
    decreases a, 0
  {
    if name !in b.entries || a.entries[name].Dir? != b.entries[name].Dir? then Report(source, name)
    else if a.entries[name].Dir? then
      Differences(source + [name], target + [name], a.entries[name], b.entries[name])
    else if a.entries[name] == b.entries[name] then multiset{}
    else Report(source, name)
  }

  ghost function Extras(target: Path, names: set<string>): multiset<string> {
    BagOf(Reports(target), names)
  }

  /** The report for an entry, by its name. */
  ghost function Reports(target: Path): string -> multiset<string> {
    name => Report(target, name)
  }

  lemma OfEntriesStep(source: Path, target: Path, a: Node, b: Node, names: set<string>, name: string)
    requires a.Dir? && b.Dir? && name in names && names <= a.entries.Keys
    ensures OfEntries(source, target, a, b, names)
         == OfEntry(source, target, a, b, name) + OfEntries(source, target, a, b, names - {name})
  {
    var all := map n | n in names :: OfEntry(source, target, a, b, n);
    BagRemove(all, name);
    assert all - {name} == map n | n in names - {name} :: OfEntry(source, target, a, b, n);
  }

  lemma ExtrasStep(target: Path, names: set<string>, name: string)
    requires name in names
    ensures Extras(target, names) == Report(target, name) + Extras(target, names - {name})
  {
    BagOfRemove(Reports(target), names, name);
  }

  /** Nothing differs exactly when the trees are equal: same names, kinds and contents at every depth. */
  lemma {:induction false} NoDifferences(source: Path, target: Path, a: Node, b: Node)
    requires a.Dir? && b.Dir?
    ensures Differences(source, target, a, b) == multiset{} <==> a == b
    decreases a
  {
    forall name | name in a.entries
      ensures OfEntry(source, target, a, b, name) == multiset{} <==> name in b.entries && a.entries[name] == b.entries[name]
    {
      EntryAgrees(source, target, a, b, name);
    }
    NoEntries(source, target, a, b);
    NoExtras(target, b.entries.Keys - a.entries.Keys);
    EmptyUnion(OfEntries(source, target, a, b, a.entries.Keys), Extras(target, b.entries.Keys - a.entries.Keys));
    if b.entries.Keys <= a.entries.Keys && forall name :: name in a.entries ==> name in b.entries && a.entries[name] == b.entries[name] {
      assert a.entries == b.entries;
    }
  }

  lemma EmptyUnion(a: multiset<string>, b: multiset<string>)
    ensures a + b == multiset{} <==> a == multiset{} && b == multiset{}
  {
    assert a <= a + b && b <= a + b;
  }

  lemma NoEntries(source: Path, target: Path, a: Node, b: Node)
    requires a.Dir? && b.Dir?
    ensures OfEntries(source, target, a, b, a.entries.Keys) == multiset{}
            <==> forall name :: name in a.entries ==> OfEntry(source, target, a, b, name) == multiset{}
  {
    var all := map name | name in a.entries.Keys :: OfEntry(source, target, a, b, name);
    BagEmpty(all);
    assert forall name :: name in a.entries ==> all[name] == OfEntry(source, target, a, b, name);
  }

  lemma NoExtras(target: Path, names: set<string>)
    ensures Extras(target, names) == multiset{} <==> names == {}
  {
    BagOfEmpty(Reports(target), names);
    if name :| name in names {
      assert Reports(target)(name) == Report(target, name);
    }
  }

  lemma {:induction false} EntryAgrees(source: Path, target: Path, a: Node, b: Node, name: string)
    requires a.Dir? && b.Dir? && name in a.entries
    ensures OfEntry(source, target, a, b, name) == multiset{} <==> name in b.entries && a.entries[name] == b.entries[name]
    decreases a, 0
  {
    if name in b.entries && a.entries[name].Dir? && b.entries[name].Dir? {
      NoDifferences(source + [name], target + [name], a.entries[name], b.entries[name]);
    }
  }

  /* ---- Which paths are reported ---- */

  /** The trees part ways at `rel`, below directories they share: an entry that is missing or of another
      kind or content is reported under the source, an entry only the target has under the target. */
  ghost predicate Parts(source: Path, target: Path, a: Node, b: Node, rel: Path, report: string) {
    && rel != []
    && IsDir(Find(a, rel[..|rel| - 1])) && IsDir(Find(b, rel[..|rel| - 1]))
    && match (Find(a, rel), Find(b, rel)) {
         case (There(x), There(y)) => x != y && !(x.Dir? && y.Dir?) && report == Render(source + rel)
         case (There(_), _) => report == Render(source + rel)
         case (_, There(_)) => report == Render(target + rel)
         case _ => false
       }
  }

  predicate IsDir(found: Found) {
    found.There? && found.node.Dir?
  }

  /** Below a shared directory the trees part ways where the subtrees do. */
  lemma PartsBelow(source: Path, target: Path, a: Node, b: Node, name: string, rel: Path, report: string)
    requires a.Dir? && b.Dir? && name in a.entries && name in b.entries && rel != []
    ensures Parts(source + [name], target + [name], a.entries[name], b.entries[name], rel, report)
            <==> Parts(source, target, a, b, [name] + rel, report)
  {
    var full := [name] + rel;
    assert full[1..] == rel && full[..|full| - 1] == [name] + rel[..|rel| - 1];
    assert ([name] + rel[..|rel| - 1])[1..] == rel[..|rel| - 1];
    assert source + full == source + [name] + rel && target + full == target + [name] + rel;
  }

  lemma PartsHere(source: Path, target: Path, a: Node, b: Node, name: string, report: string)
    requires a.Dir? && b.Dir?
    ensures Parts(source, target, a, b, [name], report)
            <==> if name in a.entries then
                   && report in Report(source, name)
                   && (name in b.entries ==> a.entries[name] != b.entries[name] && !(a.entries[name].Dir? && b.entries[name].Dir?))
                 else name in b.entries && report in Report(target, name)
  {
    assert [name][..0] == [] && [name][1..] == [];
    assert Find(a, [name]) == if name in a.entries then There(a.entries[name]) else Missing;
    assert Find(b, [name]) == if name in b.entries then There(b.entries[name]) else Missing;
  }

  /** Exactly the places where the trees part ways are reported. */
  lemma {:induction false} ReportedIsParting(source: Path, target: Path, a: Node, b: Node, report: string)
    requires a.Dir? && b.Dir?
    ensures report in Differences(source, target, a, b) <==> exists rel :: Parts(source, target, a, b, rel, report)
    decreases a
  {
    ReportedSomewhere(source, target, a, b, report);
    if report in Differences(source, target, a, b) {
      var name :| ReportedAt(source, target, a, b, name, report);
      EntryParting(source, target, a, b, name, report);
      var rel :| Parts(source, target, a, b, rel, report) && rel[0] == name;
    }
    if rel :| Parts(source, target, a, b, rel, report) {
      assert PartsAt(source, target, a, b, rel[0], report);
      EntryParting(source, target, a, b, rel[0], report);
    }
  }

  ghost predicate PartsAt(source: Path, target: Path, a: Node, b: Node, name: string, report: string) {
    exists rel :: Parts(source, target, a, b, rel, report) && rel[0] == name
  }

  ghost predicate ReportedAt(source: Path, target: Path, a: Node, b: Node, name: string, report: string)
    requires a.Dir? && b.Dir?
  {
    if name in a.entries then report in OfEntry(source, target, a, b, name)
    else name in b.entries && report in Report(target, name)
  }

  lemma ReportedSomewhere(source: Path, target: Path, a: Node, b: Node, report: string)
    requires a.Dir? && b.Dir?
    ensures report in Differences(source, target, a, b) <==> exists name :: ReportedAt(source, target, a, b, name, report)
  {
    var extras := b.entries.Keys - a.entries.Keys;
    ReportedMine(source, target, a, b, report);
    ReportedExtra(target, extras, report);
    if name :| ReportedAt(source, target, a, b, name, report) {
      assert name in a.entries || name in extras;
    }
    if name :| name in a.entries && report in OfEntry(source, target, a, b, name) {
      assert ReportedAt(source, target, a, b, name, report);
    }
    if name :| name in extras && report in Report(target, name) {
      assert ReportedAt(source, target, a, b, name, report);
    }
  }

  lemma ReportedMine(source: Path, target: Path, a: Node, b: Node, report: string)
    requires a.Dir? && b.Dir?
    ensures report in OfEntries(source, target, a, b, a.entries.Keys)
            <==> exists name :: name in a.entries && report in OfEntry(source, target, a, b, name)
  {
    var all := map name | name in a.entries.Keys :: OfEntry(source, target, a, b, name);
    BagMember(all, report);
    assert forall name :: name in a.entries <==> name in all;
    assert forall name :: name in all ==> all[name] == OfEntry(source, target, a, b, name);
  }

  lemma ReportedExtra(target: Path, names: set<string>, report: string)
    ensures report in Extras(target, names) <==> exists name :: name in names && report in Report(target, name)
  {
    BagOfMember(Reports(target), names, report);
  }

  lemma {:induction false} EntryParting(source: Path, target: Path, a: Node, b: Node, name: string, report: string)
    requires a.Dir? && b.Dir?
    ensures ReportedAt(source, target, a, b, name, report) <==> PartsAt(source, target, a, b, name, report)
    decreases a, 0
  {
    PartsHere(source, target, a, b, name, report);
    if SharedDir(a, b, name) {
      var x, y := a.entries[name], b.entries[name];
      ReportedIsParting(source + [name], target + [name], x, y, report);
      PartingBelow(source, target, a, b, name, report);
    } else {
      OnlyHere(source, target, a, b, name, report);
    }
  }

  predicate SharedDir(a: Node, b: Node, name: string)
    requires a.Dir? && b.Dir?
  {
    name in a.entries && name in b.entries && a.entries[name].Dir? && b.entries[name].Dir?
  }

  lemma PartingBelow(source: Path, target: Path, a: Node, b: Node, name: string, report: string)
    requires a.Dir? && b.Dir? && SharedDir(a, b, name)
    ensures PartsAt(source, target, a, b, name, report)
            <==> exists rel :: Parts(source + [name], target + [name], a.entries[name], b.entries[name], rel, report)
  {
    if rel :| Parts(source + [name], target + [name], a.entries[name], b.entries[name], rel, report) {
      PartsBelow(source, target, a, b, name, rel, report);
      assert ([name] + rel)[0] == name;
    }
    if rel :| Parts(source, target, a, b, rel, report) && rel[0] == name {
      PartsHere(source, target, a, b, name, report);
      assert rel != [name];
      assert rel == [name] + rel[1..];
      PartsBelow(source, target, a, b, name, rel[1..], report);
    }
  }

  /** Where an entry is no directory on both sides, the trees part ways at it or not at all. */
  lemma OnlyHere(source: Path, target: Path, a: Node, b: Node, name: string, report: string)
    requires a.Dir? && b.Dir? && !SharedDir(a, b, name)
    ensures PartsAt(source, target, a, b, name, report) <==> Parts(source, target, a, b, [name], report)
  {
    if rel :| Parts(source, target, a, b, rel, report) && rel[0] == name {
      NoWayThrough(a, b, rel);
      assert rel == [name];
    }
    assert [name][0] == name;
  }

  lemma NoWayThrough(a: Node, b: Node, rel: Path)
    requires a.Dir? && b.Dir? && rel != [] && !SharedDir(a, b, rel[0])
    requires IsDir(Find(a, rel[..|rel| - 1])) && IsDir(Find(b, rel[..|rel| - 1]))
    ensures |rel| == 1
  {
    var above := rel[..|rel| - 1];
    if above != [] {
      WayThrough(a, above);
      WayThrough(b, above);
    }
  }

  lemma WayThrough(root: Node, path: Path)
    requires root.Dir? && path != [] && IsDir(Find(root, path))
    ensures path[0] in root.entries && root.entries[path[0]].Dir?
  {
    var below := root.entries[path[0]];
    assert Find(root, path) == Find(below, path[1..]);
  }

  /* ---- The comparison ---- */

  /** What `os.ReadDir` lists; a missing directory counts as empty. */
  function DirectoryEntries(root: Node, path: Path): (dir: Option<Node>)
    ensures dir.Some? ==> dir.value.Dir?
  {
    match Find(root, path)
    case There(Dir(entries)) => Some(Dir(entries))
    case There(File(_)) => None
    case Missing => Some(EmptyDir)
    case Blocked => None
  }

  /** Nothing when a file cannot be read; a missing file equals no other. */
  function FilesEqual(root: Node, left: Path, right: Path): Option<bool> {
    match Find(root, left)
    case Missing => Some(false)
    case Blocked => None
    case There(Dir(_)) => None
    case There(File(mine)) =>
      match Find(root, right)
      case Missing => Some(false)
      case Blocked => None
      case There(Dir(_)) => None
      case There(File(theirs)) => Some(mine == theirs)
  }

  datatype Pair = Pair(source: Path, target: Path)

  /** What a pair of trees has to report; nothing when one of them cannot be listed. */
  ghost function TreeReports(root: Node, p: Pair): Option<multiset<string>> {
    match (DirectoryEntries(root, p.source), DirectoryEntries(root, p.target))
    case (Some(a), Some(b)) => Some(Differences(p.source, p.target, a, b))
    case _ => None
  }

  ghost function FileReports(root: Node, p: Pair): Option<multiset<string>> {
    match FilesEqual(root, p.source, p.target)
    case None => None
    case Some(matches) => Some(if matches then multiset{} else multiset{Render(p.source)})
  }

  /** `differences` are the expected reports, or both are missing. */
  ghost predicate Yields(differences: Option<seq<string>>, expected: Option<multiset<string>>) {
    match differences
    case None => expected.None?
    case Some(found) => expected == Some(multiset(found))
  }

  lemma OneEntryMore(source: Path, target: Path, a: Node, b: Node, left: set<string>, name: string, found: seq<string>, reports: seq<string>)
    requires a.Dir? && b.Dir? && name in left && left <= a.entries.Keys && multiset(reports) == OfEntry(source, target, a, b, name)
    ensures multiset(found + reports) + OfEntries(source, target, a, b, left - {name})
         == multiset(found) + OfEntries(source, target, a, b, left)
  {
    OfEntriesStep(source, target, a, b, left, name);
  }

  lemma OneExtraMore(target: Path, left: set<string>, name: string, found: seq<string>)
    requires name in left
    ensures multiset(found + [Render(target + [name])]) + Extras(target, left - {name}) == multiset(found) + Extras(target, left)
  {
    ExtrasStep(target, left, name);
  }

  /** The reports in sorted order, whatever the order in which the entries are visited. */
  method CompareTrees(root: Node, source: Path, target: Path) returns (differences: Option<seq<string>>)
    ensures differences.None? <==> DirectoryEntries(root, source).None? || DirectoryEntries(root, target).None?
    ensures differences.Some? ==>
      && IsSorted(differences.value)
      && multiset(differences.value)
         == Differences(source, target, DirectoryEntries(root, source).value, DirectoryEntries(root, target).value)
    decreases match DirectoryEntries(root, source) { case Some(dir) => dir case None => EmptyDir }, 1
  {
    var sourceEntries := DirectoryEntries(root, source);
    if sourceEntries.None? {
      return None;
    }
    var targetEntries := DirectoryEntries(root, target);
    if targetEntries.None? {
      return None;
    }
    var a, b := sourceEntries.value, targetEntries.value;
    var found: seq<string> := [];
    var left := a.entries.Keys;
    while left != {}
      invariant left <= a.entries.Keys
      invariant multiset(found) + OfEntries(source, target, a, b, left) == OfEntries(source, target, a, b, a.entries.Keys)
    {
      var name :| name in left;
      var reports := CompareEntry(root, source, target, a, b, name);
      OneEntryMore(source, target, a, b, left, name, found, reports);
      left := left - {name};
      found := found + reports;
    }
    left := b.entries.Keys - a.entries.Keys;
    ghost var ours, extras := multiset(found), left;
    while left != {}
      invariant multiset(found) + Extras(target, left) == ours + Extras(target, extras)
    {
      var name :| name in left;
      OneExtraMore(target, left, name, found);
      left := left - {name};
      found := found + [Render(target + [name])];
    }
    SortStringsSorts(found);
    return Some(SortStrings(found));
  }

  /** The part of the comparison that concerns one entry of the source. */
  method CompareEntry(root: Node, source: Path, target: Path, a: Node, b: Node, name: string) returns (reports: seq<string>)
    requires DirectoryEntries(root, source) == Some(a) && DirectoryEntries(root, target) == Some(b)
    requires name in a.entries
    ensures multiset(reports) == OfEntry(source, target, a, b, name)
    decreases a, 0
  {
    FindStep(root, source, name);
    FindStep(root, target, name);
    if name !in b.entries || a.entries[name].Dir? != b.entries[name].Dir? {
      reports := [Render(source + [name])];
    } else if a.entries[name].Dir? {
      var children := CompareTrees(root, source + [name], target + [name]);
      reports := children.value;
    } else {
      var matches := FilesEqual(root, source + [name], target + [name]);
      reports := if matches == Some(true) then [] else [Render(source + [name])];
    }
  }

  /* ---- The check ---- */

  /** The directory at the path, where one that is missing counts as empty. */
  ghost predicate Holds(root: Node, path: Path, entries: map<string, Node>) {
    || Find(root, path) == There(Dir(entries))
    || (Find(root, path) == Missing && entries == map[])
  }

  /** Both paths hold the same directory. */
  ghost predicate TreesAgree(root: Node, p: Pair) {
    exists entries :: Holds(root, p.source, entries) && Holds(root, p.target, entries)
  }

  /** Both paths lead to files of the same content. */
  ghost predicate FilesAgree(root: Node, p: Pair) {
    exists content :: Find(root, p.source) == There(File(content)) && Find(root, p.target) == There(File(content))
  }

  lemma TreesAgreeMeans(root: Node, p: Pair)
    ensures TreesAgree(root, p) <==>
            DirectoryEntries(root, p.source).Some? && DirectoryEntries(root, p.source) == DirectoryEntries(root, p.target)
  {
    if DirectoryEntries(root, p.source).Some? && DirectoryEntries(root, p.source) == DirectoryEntries(root, p.target) {
      var entries := DirectoryEntries(root, p.source).value.entries;
      assert Holds(root, p.source, entries) && Holds(root, p.target, entries);
    }
  }

  lemma FilesAgreeMeans(root: Node, p: Pair)
    ensures FilesAgree(root, p) <==> FilesEqual(root, p.source, p.target) == Some(true)
  {
    if FilesEqual(root, p.source, p.target) == Some(true) {
      assert Find(root, p.source) == There(File(Find(root, p.source).node.content));
    }
  }

  /** A comparison fails exactly where something is in the way: of directories a file, of files a directory,
      which is only seen at the target if the source is there. */
  lemma FailuresAre(root: Node, p: Pair)
    ensures DirectoryEntries(root, p.source).None? <==> forall entries :: !Holds(root, p.source, entries)
    ensures TreeReports(root, p).None? <==>
            (forall entries :: !Holds(root, p.source, entries)) || forall entries :: !Holds(root, p.target, entries)
    ensures FileReports(root, p).None? <==>
            || Find(root, p.source) == Blocked || IsDir(Find(root, p.source))
            || (Find(root, p.source) != Missing && (Find(root, p.target) == Blocked || IsDir(Find(root, p.target))))
  {
    HoldsMeans(root, p.source);
    HoldsMeans(root, p.target);
  }

  lemma HoldsMeans(root: Node, path: Path)
    ensures DirectoryEntries(root, path).None? <==> forall entries :: !Holds(root, path, entries)
    ensures DirectoryEntries(root, path).Some? ==> Holds(root, path, DirectoryEntries(root, path).value.entries)
  {
    if DirectoryEntries(root, path).Some? {
      assert Holds(root, path, DirectoryEntries(root, path).value.entries);
    }
  }

  ghost predicate InStep(root: Node, trees: seq<Pair>, files: seq<Pair>) {
    (forall i :: 0 <= i < |trees| ==> TreesAgree(root, trees[i])) && (forall i :: 0 <= i < |files| ==> FilesAgree(root, files[i]))
  }

  ghost function Both(a: Option<multiset<string>>, b: Option<multiset<string>>): Option<multiset<string>> {
    match (a, b)
    case (Some(first), Some(second)) => Some(first + second)
    case _ => None
  }

  /** The reports of all `pairs`, given those of each; one failure fails them all. */
  ghost function Gather(reports: Pair -> Option<multiset<string>>, pairs: seq<Pair>): Option<multiset<string>> {
    if pairs == [] then Some(multiset{})
    else Both(Gather(reports, pairs[..|pairs| - 1]), reports(pairs[|pairs| - 1]))
  }

  lemma GatherStep(reports: Pair -> Option<multiset<string>>, pairs: seq<Pair>, i: nat)
    requires i < |pairs|
    ensures Gather(reports, pairs[..i + 1]) == Both(Gather(reports, pairs[..i]), reports(pairs[i]))
  {
    assert pairs[..i + 1][..i] == pairs[..i];
  }

  lemma {:induction false} GatherFails(reports: Pair -> Option<multiset<string>>, pairs: seq<Pair>, i: nat)
    requires i < |pairs| && reports(pairs[i]).None?
    ensures Gather(reports, pairs).None?
  {
    if i < |pairs| - 1 {
      GatherFails(reports, pairs[..|pairs| - 1], i);
    }
  }

  lemma {:induction false} GatherNothing(reports: Pair -> Option<multiset<string>>, pairs: seq<Pair>)
    ensures Gather(reports, pairs) == Some(multiset{}) <==> forall i :: 0 <= i < |pairs| ==> reports(pairs[i]) == Some(multiset{})
  {
    if pairs != [] {
      var front, last := pairs[..|pairs| - 1], pairs[|pairs| - 1];
      GatherNothing(reports, front);
      BothNothing(Gather(reports, front), reports(last));
      assert forall i :: 0 <= i < |front| ==> front[i] == pairs[i];
    }
  }

  lemma BothNothing(a: Option<multiset<string>>, b: Option<multiset<string>>)
    ensures Both(a, b) == Some(multiset{}) <==> a == Some(multiset{}) && b == Some(multiset{})
  {
    if a.Some? && b.Some? {
      EmptyUnion(a.value, b.value);
    }
  }

  ghost function TreeReporter(root: Node): Pair -> Option<multiset<string>> {
    p => TreeReports(root, p)
  }

  ghost function FileReporter(root: Node): Pair -> Option<multiset<string>> {
    p => FileReports(root, p)
  }

  ghost function AllReports(root: Node, trees: seq<Pair>, files: seq<Pair>): Option<multiset<string>> {
    Both(Gather(TreeReporter(root), trees), Gather(FileReporter(root), files))
  }

  lemma TreeReportsNothing(root: Node, p: Pair)
    ensures TreeReports(root, p) == Some(multiset{}) <==> TreesAgree(root, p)
  {
    TreesAgreeMeans(root, p);
    if DirectoryEntries(root, p.source).Some? && DirectoryEntries(root, p.target).Some? {
      NoDifferences(p.source, p.target, DirectoryEntries(root, p.source).value, DirectoryEntries(root, p.target).value);
    }
  }

  lemma FileReportsNothing(root: Node, p: Pair)
    ensures FileReports(root, p) == Some(multiset{}) <==> FilesAgree(root, p)
  {
    FilesAgreeMeans(root, p);
  }

  /** The check passes exactly when every pair is readable and in step. */
  lemma CheckPasses(root: Node, trees: seq<Pair>, files: seq<Pair>)
    ensures AllReports(root, trees, files) == Some(multiset{}) <==> InStep(root, trees, files)
  {
    GatherNothing(TreeReporter(root), trees);
    GatherNothing(FileReporter(root), files);
    BothNothing(Gather(TreeReporter(root), trees), Gather(FileReporter(root), files));
    forall i | 0 <= i < |trees| ensures TreeReporter(root)(trees[i]) == Some(multiset{}) <==> TreesAgree(root, trees[i]) {
      TreeReportsNothing(root, trees[i]);
    }
    forall i | 0 <= i < |files| ensures FileReporter(root)(files[i]) == Some(multiset{}) <==> FilesAgree(root, files[i]) {
      FileReportsNothing(root, files[i]);
    }
  }

  lemma {:induction false} GatherMember(reports: Pair -> Option<multiset<string>>, pairs: seq<Pair>, report: string)
    requires Gather(reports, pairs).Some?
    ensures forall i :: 0 <= i < |pairs| ==> reports(pairs[i]).Some?
    ensures report in Gather(reports, pairs).value <==> exists i :: 0 <= i < |pairs| && report in reports(pairs[i]).value
  {
    if pairs != [] {
      var front, last := pairs[..|pairs| - 1], pairs[|pairs| - 1];
      GatherMember(reports, front, report);
      assert forall i :: 0 <= i < |front| ==> front[i] == pairs[i];
      if i :| 0 <= i < |front| && report in reports(front[i]).value {
        assert report in reports(pairs[i]).value;
      }
    }
  }

  /** What the check reports: the places where the trees of some pair part ways, and the sources of files that
      do not agree with their targets. */
  lemma ReportsAre(root: Node, trees: seq<Pair>, files: seq<Pair>, report: string)
    requires AllReports(root, trees, files).Some?
    ensures report in AllReports(root, trees, files).value <==>
            || (exists i :: 0 <= i < |trees| && PartsIn(root, trees[i], report))
            || (exists i :: 0 <= i < |files| && !FilesAgree(root, files[i]) && report == Render(files[i].source))
  {
    TreeReportsAre(root, trees, report);
    FileReportsAre(root, files, report);
  }

  lemma TreeReportsAre(root: Node, trees: seq<Pair>, report: string)
    requires Gather(TreeReporter(root), trees).Some?
    ensures report in Gather(TreeReporter(root), trees).value <==> exists i :: 0 <= i < |trees| && PartsIn(root, trees[i], report)
  {
    GatherMember(TreeReporter(root), trees, report);
    forall i | 0 <= i < |trees|
      ensures TreeReporter(root)(trees[i]).Some?
      ensures report in TreeReporter(root)(trees[i]).value <==> PartsIn(root, trees[i], report)
    {
      TreePairParts(root, trees[i], report);
    }
  }

  lemma FileReportsAre(root: Node, files: seq<Pair>, report: string)
    requires Gather(FileReporter(root), files).Some?
    ensures report in Gather(FileReporter(root), files).value <==>
            exists i :: 0 <= i < |files| && !FilesAgree(root, files[i]) && report == Render(files[i].source)
  {
    GatherMember(FileReporter(root), files, report);
    forall i | 0 <= i < |files|
      ensures FileReporter(root)(files[i]).Some?
      ensures report in FileReporter(root)(files[i]).value <==> !FilesAgree(root, files[i]) && report == Render(files[i].source)
    {
      FilesAgreeMeans(root, files[i]);
    }
  }

  /** The directories of the pair part ways at a place reported like this. */
  ghost predicate PartsIn(root: Node, p: Pair, report: string) {
    exists a, b, rel :: Holds(root, p.source, a) && Holds(root, p.target, b) && Parts(p.source, p.target, Dir(a), Dir(b), rel, report)
  }

  lemma TreePairParts(root: Node, p: Pair, report: string)
    requires TreeReports(root, p).Some?
    ensures report in TreeReports(root, p).value <==> PartsIn(root, p, report)
  {
    var a, b := DirectoryEntries(root, p.source).value, DirectoryEntries(root, p.target).value;
    HoldsMeans(root, p.source);
    HoldsMeans(root, p.target);
    ReportedIsParting(p.source, p.target, a, b, report);
    if rel :| Parts(p.source, p.target, a, b, rel, report) {
      assert Holds(root, p.source, a.entries) && Holds(root, p.target, b.entries);
    }
  }

  lemma BothAssociative(a: Option<multiset<string>>, b: Option<multiset<string>>, c: Option<multiset<string>>)
    ensures Both(a, Both(b, c)) == Both(Both(a, b), c)
  {
    if a.Some? && b.Some? && c.Some? {
      assert a.value + (b.value + c.value) == a.value + b.value + c.value;
    }
  }

  lemma BothWithNone(a: Option<multiset<string>>)
    ensures Both(a, Some(multiset{})) == a
  {
    if a.Some? {
      assert a.value + multiset{} == a.value;
    }
  }

  lemma FileStep(root: Node, files: seq<Pair>, i: nat, before: Option<multiset<string>>, found: seq<string>, reports: seq<string>)
    requires i < |files| && Yields(Some(reports), FileReports(root, files[i]))
    requires Yields(Some(found), Both(before, Gather(FileReporter(root), files[..i])))
    ensures Yields(Some(found + reports), Both(before, Gather(FileReporter(root), files[..i + 1])))
  {
    var sofar, more := Gather(FileReporter(root), files[..i]), FileReporter(root)(files[i]);
    GatherStep(FileReporter(root), files, i);
    BothAssociative(before, sofar, more);
  }

  /** Every report of every pair, sorted; an error when some pair cannot be read. */
  method ParityDifferences(root: Node, trees: seq<Pair>, files: seq<Pair>) returns (differences: Option<seq<string>>)
    ensures Yields(differences, AllReports(root, trees, files))
    ensures differences.Some? ==> IsSorted(differences.value)
  {
    ghost var ofTrees, ofFiles := TreeReporter(root), FileReporter(root);
    var found: seq<string> := [];
    for i := 0 to |trees|
      invariant Yields(Some(found), Gather(ofTrees, trees[..i]))
    {
      GatherStep(ofTrees, trees, i);
      var pairDifferences := CompareTrees(root, trees[i].source, trees[i].target);
      assert Yields(pairDifferences, ofTrees(trees[i]));
      if pairDifferences.None? {
        GatherFails(ofTrees, trees, i);
        return None;
      }
      found := found + pairDifferences.value;
    }
    assert trees[..|trees|] == trees;
    ghost var before := Gather(ofTrees, trees);
    BothWithNone(before);
    for i := 0 to |files|
      invariant Yields(Some(found), Both(before, Gather(ofFiles, files[..i])))
    {
      var matches := FilesEqual(root, files[i].source, files[i].target);
      if matches.None? {
        GatherFails(ofFiles, files, i);
        return None;
      }
      var reports := if matches.value then [] else [Render(files[i].source)];
      FileStep(root, files, i, before, found, reports);
      found := found + reports;
    }
    assert files[..|files|] == files;
    SortStringsSorts(found);
    return Some(SortStrings(found));
  }
}
