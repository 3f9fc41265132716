/** The operations of all files, sorted stably: when the order in which maps come is without effect. */
module Operations {
  import opened Wrappers
  import opened Text
  import opened Json

  /** One indexed operation. Whether it has a request body and its regular expression are read off
      `requestBody` and `templatePath`. */
  datatype Operation = Operation(
    schemaName: string,
    method_: string,
    templatePath: string,
    operationId: string,
    summary: string,
    description: string,
    parameters: seq<Entries>,
    requestBody: Option<Entries>,
    responses: Option<Entries>,
    spec: Entries,
    serverURL: string)

  predicate SameKey(a: Operation, b: Operation) {
    a.templatePath == b.templatePath && a.method_ == b.method_
  }

  /** The order of the sort: by template, then by method. */
  predicate Precedes(a: Operation, b: Operation) {
    if a.templatePath == b.templatePath then Less(a.method_, b.method_) else Less(a.templatePath, b.templatePath)
  }

  /* ---- Stable sorting ---- */

  /** The operations with the keys of `k`, in order. */
  function Only(s: seq<Operation>, k: Operation): seq<Operation> {
    if s == [] then []
    else (if SameKey(s[0], k) then [s[0]] else []) + Only(s[1..], k)
  }

  ghost predicate IsSortedBy(s: seq<Operation>) {
    forall i, j :: 0 <= i < j < |s| ==> !Precedes(s[j], s[i])
  }

  /** `sorted` is `s` in order, operations with equal keys staying in the order they had. */
  ghost predicate StablySorted(s: seq<Operation>, sorted: seq<Operation>) {
    IsSortedBy(sorted) && forall k :: Only(sorted, k) == Only(s, k)
  }

  /** `sort.SliceStable` by insertion: an operation goes before the first that does not precede it. */
  function InsertStable(s: seq<Operation>, x: Operation): seq<Operation> {
    if s == [] || !Precedes(s[0], x) then [x] + s else [s[0]] + InsertStable(s[1..], x)
  }

  function SortStable(s: seq<Operation>): seq<Operation> {
    if s == [] then [] else InsertStable(SortStable(s[1..]), s[0])
  }

  lemma PrecedesOrder(a: Operation, b: Operation, c: Operation)
    ensures !(Precedes(a, b) && Precedes(b, a))
    ensures Precedes(a, b) || Precedes(b, a) || SameKey(a, b)
    ensures SameKey(a, b) ==> !Precedes(a, b)
    ensures Precedes(a, b) && Precedes(b, c) ==> Precedes(a, c)
  {
    LessTotal(a.templatePath, b.templatePath);
    LessTotal(a.method_, b.method_);
    LessIrreflexive(a.method_);
    if Less(a.templatePath, b.templatePath) { LessAsymmetric(a.templatePath, b.templatePath); }
    if Less(a.method_, b.method_) { LessAsymmetric(a.method_, b.method_); }
    if Less(a.templatePath, b.templatePath) && Less(b.templatePath, c.templatePath) {
      LessTransitive(a.templatePath, b.templatePath, c.templatePath);
      LessAsymmetric(a.templatePath, c.templatePath);
    }
    if Less(a.method_, b.method_) && Less(b.method_, c.method_) {
      LessTransitive(a.method_, b.method_, c.method_);
    }
  }

  lemma {:induction false} OnlyOfConcat(a: seq<Operation>, b: seq<Operation>, k: Operation)
    ensures Only(a + b, k) == Only(a, k) + Only(b, k)
  {
    if a == [] {
      assert a + b == b;
    } else {
      assert (a + b)[1..] == a[1..] + b;
      OnlyOfConcat(a[1..], b, k);
    }
  }

  lemma {:induction false} InsertKeepsOnly(s: seq<Operation>, x: Operation, k: Operation)
    ensures Only(InsertStable(s, x), k) == Only([x] + s, k)
  {
    if s != [] && Precedes(s[0], x) {
      InsertKeepsOnly(s[1..], x, k);
      PrecedesOrder(s[0], x, k);
      assert ([x] + s)[1..] == s && ([x] + s[1..])[1..] == s[1..];
      assert ([s[0]] + InsertStable(s[1..], x))[1..] == InsertStable(s[1..], x);
    }
  }

  lemma {:induction false} InsertKeepsSorted(s: seq<Operation>, x: Operation)
    requires IsSortedBy(s)
    ensures IsSortedBy(InsertStable(s, x))
    ensures forall y :: y in InsertStable(s, x) <==> y in s || y == x
  {
    var r := InsertStable(s, x);
    if s == [] {
    } else if !Precedes(s[0], x) {
      forall i, j | 0 <= i < j < |r| ensures !Precedes(r[j], r[i]) {
        if i == 0 && j > 1 {
          NotPrecedesTransitive(s[j - 1], s[0], x);
        }
      }
    } else {
      InsertKeepsSorted(s[1..], x);
      var rest := InsertStable(s[1..], x);
      forall i, j | 0 <= i < j < |r| ensures !Precedes(r[j], r[i]) {
        if i == 0 {
          assert rest[j - 1] in rest;
          if rest[j - 1] == x {
            PrecedesOrder(s[0], x, x);
          } else {
            assert rest[j - 1] in s[1..];
          }
        }
      }
      assert s == [s[0]] + s[1..];
    }
  }

  /** Not coming after is transitive: `c` is not before `b`, `b` not before `a`. */
  lemma NotPrecedesTransitive(c: Operation, b: Operation, a: Operation)
    requires !Precedes(c, b) && !Precedes(b, a)
    ensures !Precedes(c, a)
  {
    PrecedesOrder(b, c, a);
    PrecedesOrder(a, b, c);
    PrecedesOrder(a, c, b);
    if Precedes(c, a) {
      PrecedesOrder(c, a, b);
      if Precedes(a, b) {
        assert false;
      }
    }
  }

  /** Sorted means: templates ascending as texts, and the methods of one template ascending. */
  lemma SortedByTemplate(s: seq<Operation>, i: nat, j: nat)
    requires IsSortedBy(s) && i < j < |s|
    ensures AtMost(s[i].templatePath, s[j].templatePath)
    ensures s[i].templatePath == s[j].templatePath ==> AtMost(s[i].method_, s[j].method_)
  {
    LessTotal(s[i].templatePath, s[j].templatePath);
    LessTotal(s[i].method_, s[j].method_);
  }

  lemma {:induction false} SortStableSorts(s: seq<Operation>)
    ensures StablySorted(s, SortStable(s))
  {
    if s != [] {
      var rest := SortStable(s[1..]);
      SortStableSorts(s[1..]);
      InsertKeepsSorted(rest, s[0]);
      forall k ensures Only(SortStable(s), k) == Only(s, k) {
        InsertKeepsOnly(rest, s[0], k);
        assert ([s[0]] + rest)[1..] == rest;
      }
    }
  }

  /* ---- The sorted registry does not depend on any map order ---- */

  lemma {:induction false} OnlyIsPart(s: seq<Operation>, k: Operation)
    ensures forall x :: x in Only(s, k) <==> x in s && SameKey(x, k)
  {
    if s != [] {
      OnlyIsPart(s[1..], k);
      assert s == [s[0]] + s[1..];
    }
  }

  lemma HeadIsLeast(s: seq<Operation>, x: Operation)
    requires IsSortedBy(s) && x in s
    ensures !Precedes(x, s[0])
  {
    var i :| 0 <= i < |s| && s[i] == x;
    PrecedesOrder(x, s[0], x);
  }

  lemma OwnKeyKept(s: seq<Operation>)
    requires s != []
    ensures Only(s, s[0]) != []
  {
  }

  /** A sorted list is determined by its parts of equal keys. */
  lemma {:induction false} SortedIsUnique(a: seq<Operation>, b: seq<Operation>)
    requires IsSortedBy(a) && IsSortedBy(b) && forall k :: Only(a, k) == Only(b, k)
    ensures a == b
  {
    if a == [] {
      if b != [] {
        OwnKeyKept(b);
      }
    } else {
      OnlyIsPart(a, a[0]);
      OnlyIsPart(b, a[0]);
      assert a[0] in Only(b, a[0]);
      assert a[0] in b && b != [];
      OnlyIsPart(a, b[0]);
      OnlyIsPart(b, b[0]);
      assert b[0] in Only(a, b[0]);
      HeadIsLeast(a, b[0]);
      HeadIsLeast(b, a[0]);
      PrecedesOrder(a[0], b[0], b[0]);
      assert SameKey(a[0], b[0]);
      assert Only(a, a[0])[0] == a[0] && Only(b, a[0])[0] == b[0];
      forall k ensures Only(a[1..], k) == Only(b[1..], k) {
        assert Only(a, k) == Only(b, k);
        assert Only(a[1..], k) == (if SameKey(a[0], k) then Only(a, k)[1..] else Only(a, k));
        assert Only(b[1..], k) == (if SameKey(b[0], k) then Only(b, k)[1..] else Only(b, k));
      }
      SortedIsUnique(a[1..], b[1..]);
      assert a == [a[0]] + a[1..] && b == [b[0]] + b[1..];
    }
  }

  /* ---- The operations of a file, in whatever order its maps come ---- */

  /** An entry of a file: a path and a method key below it. */
  type Entry = (string, string)

  /** What a file contributes: its entries, and the operation of each. */
  datatype Contribution = Contribution(entries: set<Entry>, op: Entry -> Operation)

  /** `order` lists every entry of the file once, path by path as the two nested loops do. */
  ghost predicate Lists(order: seq<Entry>, file: Contribution) {
    (forall e :: e in order <==> e in file.entries) && Distinct(order) && PathByPath(order)
  }

  /** Nothing comes between two entries of one path but entries of that path. */
  ghost predicate PathByPath(order: seq<Entry>) {
    forall i, j, k :: 0 <= i < j < k < |order| && order[i].0 == order[k].0 ==> order[j].0 == order[i].0
  }

  /** An operation has the path of its entry. */
  ghost predicate KeepsPaths(file: Contribution) {
    forall e :: e in file.entries ==> file.op(e).templatePath == e.0
  }

  ghost predicate Distinct(order: seq<Entry>) {
    forall i, j :: 0 <= i < j < |order| ==> order[i] != order[j]
  }

  /** `x` is the operation of some entry. */
  ghost predicate Contributes(file: Contribution, x: Operation) {
    exists e :: e in file.entries && file.op(e) == x
  }

  lemma OperationsAre(file: Contribution, order: seq<Entry>)
    requires Lists(order, file)
    ensures forall x :: x in OperationsIn(file, order) <==> Contributes(file, x)
  {
    var operations := OperationsIn(file, order);
    forall x | Contributes(file, x) ensures x in operations {
      var e :| e in file.entries && file.op(e) == x;
      var i :| 0 <= i < |order| && order[i] == e;
      assert operations[i] == x;
    }
    forall i | 0 <= i < |operations| ensures Contributes(file, operations[i]) {
      assert order[i] in order;
    }
  }

  /** One entry more is one operation more. */
  lemma OneEntryMore(file: Contribution, order: seq<Entry>, e: Entry)
    requires Distinct(order) && e !in order
    ensures Distinct(order + [e]) && OperationsIn(file, order + [e]) == OperationsIn(file, order) + [file.op(e)]
    ensures forall f :: f in order + [e] <==> f in order || f == e
  {
  }

  /** One path more stays path by path. */
  lemma OnePathMore(order: seq<Entry>, longer: seq<Entry>, path: string)
    requires PathByPath(order) && (forall e :: e in order ==> e.0 != path)
    requires order <= longer && forall k :: |order| <= k < |longer| ==> longer[k].0 == path
    ensures PathByPath(longer)
  {
    forall i, j, k | 0 <= i < j < k < |longer| && longer[i].0 == longer[k].0 ensures longer[j].0 == longer[i].0 {
      if i < |order| {
        assert longer[i] == order[i] && order[i] in order;
        assert k < |order| && longer[k] == order[k] && longer[j] == order[j];
      }
    }
  }

  lemma SamePaths(a: seq<Entry>, b: seq<Entry>)
    requires PathByPath(a) && |a| == |b| && forall x :: 0 <= x < |a| ==> a[x].0 == b[x].0
    ensures PathByPath(b)
  {
    forall i, j, k | 0 <= i < j < k < |b| && b[i].0 == b[k].0 ensures b[j].0 == b[i].0 {
      assert a[i].0 == a[k].0;
    }
  }

  function OperationsIn(file: Contribution, order: seq<Entry>): (operations: seq<Operation>) {
    seq(|order|, i requires 0 <= i < |order| => file.op(order[i]))
  }

  /** Where two method keys of a path only differ in case, they lead to the same operation. */
  ghost predicate ClashesAgree(file: Contribution) {
    forall a, b :: a in file.entries && b in file.entries && SameKey(file.op(a), file.op(b)) ==> file.op(a) == file.op(b)
  }

  /** The entries of `order` that give an operation with the keys of `k`. */
  ghost function WithKey(file: Contribution, order: seq<Entry>, k: Operation): set<Entry> {
    set e | e in order && SameKey(file.op(e), k)
  }

  lemma {:induction false} OnlyCounts(file: Contribution, order: seq<Entry>, k: Operation)
    requires Distinct(order)
    ensures |Only(OperationsIn(file, order), k)| == |WithKey(file, order, k)|
  {
    if order != [] {
      var rest := order[1..];
      assert order == [order[0]] + rest && order[0] !in rest;
      OnlyCounts(file, rest, k);
      assert OperationsIn(file, order)[1..] == OperationsIn(file, rest);
      WithKeyStep(file, order[0], rest, k);
    }
  }

  lemma WithKeyStep(file: Contribution, e: Entry, rest: seq<Entry>, k: Operation)
    requires e !in rest
    ensures |WithKey(file, [e] + rest, k)| == |WithKey(file, rest, k)| + if SameKey(file.op(e), k) then 1 else 0
  {
    var own := if SameKey(file.op(e), k) then {e} else {};
    assert WithKey(file, [e] + rest, k) == own + WithKey(file, rest, k);
  }

  lemma SameOnly(file: Contribution, a: seq<Entry>, b: seq<Entry>, k: Operation)
    requires Lists(a, file) && Lists(b, file) && ClashesAgree(file)
    ensures Only(OperationsIn(file, a), k) == Only(OperationsIn(file, b), k)
  {
    var mine, theirs := Only(OperationsIn(file, a), k), Only(OperationsIn(file, b), k);
    OnlyCounts(file, a, k);
    OnlyCounts(file, b, k);
    assert WithKey(file, a, k) == WithKey(file, b, k);
    forall i | 0 <= i < |mine| ensures mine[i] == theirs[i] {
      var e := EntryBehind(file, a, k, mine[i]);
      var f := EntryBehind(file, b, k, theirs[i]);
    }
  }

  lemma EntryBehind(file: Contribution, order: seq<Entry>, k: Operation, x: Operation) returns (e: Entry)
    requires Lists(order, file) && x in Only(OperationsIn(file, order), k)
    ensures e in file.entries && file.op(e) == x && SameKey(x, k)
  {
    OnlyIsPart(OperationsIn(file, order), k);
    var i :| 0 <= i < |order| && OperationsIn(file, order)[i] == x;
    e := order[i];
    assert e in order;
  }

  /** The operations of all files, in walk order. */
  function AllOperations(files: seq<Contribution>, orders: seq<seq<Entry>>): seq<Operation>
    requires |orders| == |files|
  {
    if files == [] then []
    else
      var last := |files| - 1;
      AllOperations(files[..last], orders[..last]) + OperationsIn(files[last], orders[last])
  }

  ghost predicate ListsAll(orders: seq<seq<Entry>>, files: seq<Contribution>) {
    |orders| == |files| && forall i :: 0 <= i < |files| ==> Lists(orders[i], files[i])
  }

  lemma OneFileMore(files: seq<Contribution>, orders: seq<seq<Entry>>, file: Contribution, order: seq<Entry>)
    requires ListsAll(orders, files) && Lists(order, file)
    ensures ListsAll(orders + [order], files + [file])
    ensures AllOperations(files + [file], orders + [order]) == AllOperations(files, orders) + OperationsIn(file, order)
  {
    assert (files + [file])[..|files|] == files && (orders + [order])[..|files|] == orders;
  }

  lemma {:induction false} SameOnlyOfAll(files: seq<Contribution>, a: seq<seq<Entry>>, b: seq<seq<Entry>>, k: Operation)
    requires ListsAll(a, files) && ListsAll(b, files)
    requires forall i :: 0 <= i < |files| ==> ClashesAgree(files[i])
    ensures Only(AllOperations(files, a), k) == Only(AllOperations(files, b), k)
  {
    if files != [] {
      var last := |files| - 1;
      SameOnlyOfAll(files[..last], a[..last], b[..last], k);
      SameOnly(files[last], a[last], b[last], k);
      OnlyOfConcat(AllOperations(files[..last], a[..last]), OperationsIn(files[last], a[last]), k);
      OnlyOfConcat(AllOperations(files[..last], b[..last]), OperationsIn(files[last], b[last]), k);
    }
  }

  /** Any stable sort gives the same registry for every order in which the maps of every file
      may come, as long as method keys that clash in upper case agree. */
  lemma RegistryIsDeterministic(files: seq<Contribution>, a: seq<seq<Entry>>, b: seq<seq<Entry>>,
                                first: seq<Operation>, second: seq<Operation>)
    requires ListsAll(a, files) && ListsAll(b, files)
    requires forall i :: 0 <= i < |files| ==> ClashesAgree(files[i])
    requires StablySorted(AllOperations(files, a), first) && StablySorted(AllOperations(files, b), second)
    ensures first == second
  {
    forall k ensures Only(first, k) == Only(second, k) {
      assert Only(first, k) == Only(AllOperations(files, a), k);
      assert Only(second, k) == Only(AllOperations(files, b), k);
      SameOnlyOfAll(files, a, b, k);
    }
    SortedIsUnique(first, second);
  }

  /** If two entries clash and give different operations, exchanging them changes the registry. */
  lemma ClashMatters(file: Contribution, order: seq<Entry>, i: nat, j: nat)
    requires Lists(order, file) && KeepsPaths(file) && i < j < |order|
    requires order[i] in file.entries && order[j] in file.entries
    requires SameKey(file.op(order[i]), file.op(order[j]))
    requires file.op(order[i]) != file.op(order[j])
    ensures var other := order[i := order[j]][j := order[i]];
            Lists(other, file) && SortStable(OperationsIn(file, other)) != SortStable(OperationsIn(file, order))
  {
    var other := order[i := order[j]][j := order[i]];
    var k := file.op(order[i]);
    ClashShows(file, order, i, j, k);
    SortsDiffer(OperationsIn(file, other), OperationsIn(file, order), k);
  }

  lemma ClashShows(file: Contribution, order: seq<Entry>, i: nat, j: nat, k: Operation)
    requires Lists(order, file) && KeepsPaths(file) && i < j < |order|
    requires order[i] in file.entries && order[j] in file.entries
    requires k == file.op(order[i]) && SameKey(k, file.op(order[j])) && k != file.op(order[j])
    ensures var other := order[i := order[j]][j := order[i]];
            Lists(other, file) && Only(OperationsIn(file, other), k) != Only(OperationsIn(file, order), k)
  {
    var other := order[i := order[j]][j := order[i]];
    Exchanged(file, order, i, j);
    var s, t := OperationsIn(file, order), OperationsIn(file, other);
    assert s[..i] == t[..i];
    OnlyAt(s, i, k);
    OnlyAt(t, i, k);
  }

  lemma OnlyAt(s: seq<Operation>, i: nat, k: Operation)
    requires i < |s| && SameKey(s[i], k)
    ensures |Only(s[..i], k)| < |Only(s, k)| && Only(s, k)[|Only(s[..i], k)|] == s[i]
  {
    OnlyOfConcat(s[..i], s[i..], k);
    assert s == s[..i] + s[i..];
  }

  lemma Exchanged(file: Contribution, order: seq<Entry>, i: nat, j: nat)
    requires Lists(order, file) && KeepsPaths(file) && i < j < |order|
    requires SameKey(file.op(order[i]), file.op(order[j]))
    ensures Lists(order[i := order[j]][j := order[i]], file)
  {
    assert order[i] in order && order[j] in order;
    ExchangedLists(order, i, j);
  }

  lemma ExchangedLists(order: seq<Entry>, i: nat, j: nat)
    requires Distinct(order) && PathByPath(order) && i < j < |order| && order[i].0 == order[j].0
    ensures var other := order[i := order[j]][j := order[i]];
            Distinct(other) && PathByPath(other) && forall e :: e in other <==> e in order
  {
    var other := order[i := order[j]][j := order[i]];
    assert other[i] == order[j] && other[j] == order[i];
    SamePaths(order, other);
    forall e ensures e in other <==> e in order {
      if e in order {
        var x :| 0 <= x < |order| && order[x] == e;
        assert e == other[if x == i then j else if x == j then i else x];
      }
    }
    forall x, y | 0 <= x < y < |other| ensures other[x] != other[y] {
      var x', y' := if x == i then j else if x == j then i else x, if y == i then j else if y == j then i else y;
      assert other[x] == order[x'] && other[y] == order[y'] && x' != y';
    }
  }

  lemma DisagreeingOrder(file: Contribution, order: seq<Entry>) returns (other: seq<Entry>, k: Operation)
    requires KeepsPaths(file) && Lists(order, file) && !ClashesAgree(file)
    ensures Lists(other, file) && Only(OperationsIn(file, other), k) != Only(OperationsIn(file, order), k)
  {
    var i, j := Clash(file, order);
    k := file.op(order[i]);
    ClashShows(file, order, i, j, k);
    other := order[i := order[j]][j := order[i]];
  }

  lemma Clash(file: Contribution, order: seq<Entry>) returns (i: nat, j: nat)
    requires Lists(order, file) && !ClashesAgree(file)
    ensures i < j < |order| && order[i] in file.entries && order[j] in file.entries
    ensures SameKey(file.op(order[i]), file.op(order[j])) && file.op(order[i]) != file.op(order[j])
  {
    var a, b :| a in file.entries && b in file.entries && SameKey(file.op(a), file.op(b))
      && file.op(a) != file.op(b);
    i := Position(file, order, a);
    j := Position(file, order, b);
    if j < i {
      i, j := j, i;
    }
  }

  lemma Position(file: Contribution, order: seq<Entry>, e: Entry) returns (i: nat)
    requires Lists(order, file) && e in file.entries
    ensures i < |order| && order[i] == e
  {
    assert e in order;
    i :| 0 <= i < |order| && order[i] == e;
  }

  lemma SortsDiffer(a: seq<Operation>, b: seq<Operation>, k: Operation)
    requires Only(a, k) != Only(b, k)
    ensures SortStable(a) != SortStable(b)
  {
    SortStableSorts(a);
    SortStableSorts(b);
    assert Only(SortStable(a), k) == Only(a, k) && Only(SortStable(b), k) == Only(b, k);
  }

  /** The same for all files together: one clash that matters in one file is enough. */
  lemma RegistryIsDeterministicExactly(files: seq<Contribution>, orders: seq<seq<Entry>>)
    requires ListsAll(orders, files) && forall i :: 0 <= i < |files| ==> KeepsPaths(files[i])
    ensures (forall i :: 0 <= i < |files| ==> ClashesAgree(files[i])) <==>
            forall others :: ListsAll(others, files) ==>
              SortStable(AllOperations(files, others)) == SortStable(AllOperations(files, orders))
  {
    if forall i :: 0 <= i < |files| ==> ClashesAgree(files[i]) {
      forall others | ListsAll(others, files)
        ensures SortStable(AllOperations(files, others)) == SortStable(AllOperations(files, orders))
      {
        AgreeingFilesAreDeterministic(files, others, orders);
      }
    } else {
      var i :| 0 <= i < |files| && !ClashesAgree(files[i]);
      var others := DisagreeingOrders(files, orders, i);
    }
  }

  lemma AgreeingFilesAreDeterministic(files: seq<Contribution>, a: seq<seq<Entry>>, b: seq<seq<Entry>>)
    requires ListsAll(a, files) && ListsAll(b, files)
    requires forall i :: 0 <= i < |files| ==> ClashesAgree(files[i])
    ensures SortStable(AllOperations(files, a)) == SortStable(AllOperations(files, b))
  {
    var s, t := AllOperations(files, a), AllOperations(files, b);
    SortStableSorts(s);
    SortStableSorts(t);
    RegistryIsDeterministic(files, a, b, SortStable(s), SortStable(t));
  }

  lemma DisagreeingOrders(files: seq<Contribution>, orders: seq<seq<Entry>>, i: nat) returns (others: seq<seq<Entry>>)
    requires ListsAll(orders, files) && i < |files| && !ClashesAgree(files[i])
    requires KeepsPaths(files[i])
    ensures ListsAll(others, files) && SortStable(AllOperations(files, others)) != SortStable(AllOperations(files, orders))
  {
    var other, k := DisagreeingOrder(files[i], orders[i]);
    others := orders[i := other];
    OneListingReplaced(files, orders, i, other);
    AllIsConcat(files, orders);
    AllIsConcat(files, others);
    ConcatDiffers(FileByFile(files, orders), i, OperationsIn(files[i], other), k);
    SortsDiffer(AllOperations(files, others), AllOperations(files, orders), k);
  }

  /** The operations of each file. */
  function FileByFile(files: seq<Contribution>, orders: seq<seq<Entry>>): (parts: seq<seq<Operation>>)
    requires |orders| == |files|
  {
    seq(|files|, i requires 0 <= i < |files| => OperationsIn(files[i], orders[i]))
  }

  function Concat(parts: seq<seq<Operation>>): seq<Operation> {
    if parts == [] then [] else Concat(parts[..|parts| - 1]) + parts[|parts| - 1]
  }

  lemma OneListingReplaced(files: seq<Contribution>, orders: seq<seq<Entry>>, i: nat, other: seq<Entry>)
    requires ListsAll(orders, files) && i < |files| && Lists(other, files[i])
    ensures ListsAll(orders[i := other], files)
    ensures FileByFile(files, orders[i := other]) == FileByFile(files, orders)[i := OperationsIn(files[i], other)]
  {
  }

  lemma {:induction false} AllIsConcat(files: seq<Contribution>, orders: seq<seq<Entry>>)
    requires ListsAll(orders, files)
    ensures AllOperations(files, orders) == Concat(FileByFile(files, orders))
  {
    if files != [] {
      var last := |files| - 1;
      AllIsConcat(files[..last], orders[..last]);
      assert FileByFile(files, orders)[..last] == FileByFile(files[..last], orders[..last]);
    }
  }

  lemma {:induction false} ConcatDiffers(parts: seq<seq<Operation>>, i: nat, other: seq<Operation>, k: Operation)
    requires i < |parts| && Only(parts[i], k) != Only(other, k)
    ensures Only(Concat(parts[i := other]), k) != Only(Concat(parts), k)
  {
    var last := |parts| - 1;
    var front, replaced := Concat(parts[..last]), parts[i := other];
    OnlyOfConcat(front, parts[last], k);
    if i == last {
      assert replaced[..last] == parts[..last];
      OnlyOfConcat(front, other, k);
      SameFront(Only(front, k), Only(parts[last], k), Only(other, k));
    } else {
      assert replaced[..last] == parts[..last][i := other];
      ConcatDiffers(parts[..last], i, other, k);
      OnlyOfConcat(Concat(replaced[..last]), parts[last], k);
      SameBack(Only(front, k), Only(Concat(replaced[..last]), k), Only(parts[last], k));
    }
  }

  lemma SameFront<T>(front: seq<T>, a: seq<T>, b: seq<T>)
    ensures front + a == front + b ==> a == b
  {
    assert (front + a)[|front|..] == a && (front + b)[|front|..] == b;
  }

  lemma SameBack<T>(a: seq<T>, b: seq<T>, back: seq<T>)
    ensures a + back == b + back ==> a == b
  {
    assert (a + back)[..|a + back| - |back|] == a && (b + back)[..|b + back| - |back|] == b;
  }
}
