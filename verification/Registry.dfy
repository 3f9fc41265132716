/** The registry of operations: loaded from maps in any order, sorted stably, searched front to back. */
module Registry {
  import opened Wrappers
  import opened Text
  import opened Json
  import opened Paths
  import opened Operations

  /** An already decoded file of the schema tree. */
  datatype SpecFile = SpecFile(name: string, spec: Entries)

  function StringValue(j: Json): string {
    if j.Str? then j.s else ""
  }

  function MaybeEntries(j: Json): Option<Entries> {
    if j.Obj? then Some(j.entries) else None
  }

  /** The objects of a list. */
  function ExtractParameters(j: Json): seq<Entries> {
    ObjectsOf(AsItems(j))
  }

  function ObjectsOf(items: seq<Json>): seq<Entries> {
    if items == [] then []
    else ObjectsOf(items[..|items| - 1]) + (if items[|items| - 1].Obj? then [items[|items| - 1].entries] else [])
  }

  function SpecTitle(file: SpecFile): string {
    var title := StringValue(Get(AsEntries(Get(file.spec, "info")), "title"));
    if title == "" then file.name else title
  }

  function FirstServerURL(spec: Entries): string {
    var servers := AsItems(Get(spec, "servers"));
    if servers == [] then "" else WithoutSlashes(StringValue(Get(AsEntries(servers[0]), "url")))
  }

  function WithoutSlashes(s: string): string {
    if s != "" && s[|s| - 1] == '/' then WithoutSlashes(s[..|s| - 1]) else s
  }

  /* ---- Loading one file ---- */

  /** A path and a method key below it, both leading to objects. */
  predicate IsEntry(file: SpecFile, entry: Entry) {
    var paths := AsEntries(Get(file.spec, "paths"));
    && entry.0 in paths && paths[entry.0].Obj?
    && entry.1 in paths[entry.0].entries && paths[entry.0].entries[entry.1].Obj?
  }

  function OperationOf(file: SpecFile, entry: Entry): Operation
    requires IsEntry(file, entry)
  {
    var pathItem := AsEntries(Get(file.spec, "paths"))[entry.0].entries;
    NewOperation(file, entry.0, entry.1, ExtractParameters(Get(pathItem, "parameters")), pathItem[entry.1].entries)
  }

  /** The operation a definition describes; nothing else of the definition is kept. */
  function NewOperation(file: SpecFile, path: string, method_: string, pathParameters: seq<Entries>, definition: Entries): Operation {
    Operation(
      SpecTitle(file), ToUpper(method_), path,
      StringValue(Get(definition, "operationId")), StringValue(Get(definition, "summary")), StringValue(Get(definition, "description")),
      pathParameters + ExtractParameters(Get(definition, "parameters")),
      MaybeEntries(Get(definition, "requestBody")), MaybeEntries(Get(definition, "responses")),
      file.spec, FirstServerURL(file.spec))
  }

  /** Operations are what stands two levels below `paths`, where both levels are objects. */
  lemma EntriesAre(file: SpecFile, path: string, key: string)
    ensures (path, key) in EntriesOf(file) <==>
            && "paths" in file.spec && file.spec["paths"].Obj? && path in file.spec["paths"].entries
            && var item := file.spec["paths"].entries[path];
               item.Obj? && key in item.entries && item.entries[key].Obj?
  {
  }

  /** What an operation takes from its file: the upper-cased method key, the path, and the fields of the
      definition under their own names; a field of another type than expected is left empty. */
  lemma FieldsAreCopied(file: SpecFile, path: string, key: string)
    requires IsEntry(file, (path, key))
    ensures var operation := OperationOf(file, (path, key));
            var pathItem := file.spec["paths"].entries[path].entries;
            var definition := pathItem[key].entries;
            && operation.templatePath == path && operation.method_ == ToUpper(key) && operation.spec == file.spec
            && operation.operationId == (if "operationId" in definition && definition["operationId"].Str? then definition["operationId"].s else "")
            && operation.summary == (if "summary" in definition && definition["summary"].Str? then definition["summary"].s else "")
            && operation.description == (if "description" in definition && definition["description"].Str? then definition["description"].s else "")
            && operation.requestBody == (if "requestBody" in definition && definition["requestBody"].Obj? then Some(definition["requestBody"].entries) else None)
            && operation.responses == (if "responses" in definition && definition["responses"].Obj? then Some(definition["responses"].entries) else None)
  {
  }

  /** A spec's own title names its operations, and the file only where there is none. */
  lemma TitleOrName(file: SpecFile, path: string, key: string, title: string)
    requires IsEntry(file, (path, key)) && title != ""
    ensures OperationOf(file, (path, key)).schemaName == title <==>
            || ("info" in file.spec && file.spec["info"].Obj? && Get(file.spec["info"].entries, "title") == Str(title))
            || (title == file.name
                && (("info" in file.spec && file.spec["info"].Obj? && Get(file.spec["info"].entries, "title").Str?) ==>
                      file.spec["info"].entries["title"] == Str("")))
  {
  }

  /** The URL of the first server that is listed. */
  ghost predicate IsFirstURL(spec: Entries, url: string) {
    && "servers" in spec && spec["servers"].Arr? && spec["servers"].items != []
    && spec["servers"].items[0].Obj? && Get(spec["servers"].items[0].entries, "url") == Str(url)
  }

  /** The operations' server is the first one listed, without the slashes at its end, or none. */
  lemma ServerWithoutSlashes(file: SpecFile, path: string, key: string)
    requires IsEntry(file, (path, key))
    ensures var server := OperationOf(file, (path, key)).serverURL;
            && (forall url :: IsFirstURL(file.spec, url) ==>
                  && server <= url && (forall i :: |server| <= i < |url| ==> url[i] == '/')
                  && (server != "" ==> server[|server| - 1] != '/'))
            && ((forall url :: !IsFirstURL(file.spec, url)) ==> server == "")
  {
    var listed := Listed(file.spec);
    OnlySlashesGo(listed);
    if forall url :: !IsFirstURL(file.spec, url) {
      assert !IsFirstURL(file.spec, listed);
    }
  }

  /** The URL as it is listed; none where it is no text. */
  lemma Listed(spec: Entries) returns (url: string)
    ensures FirstServerURL(spec) == WithoutSlashes(url)
    ensures IsFirstURL(spec, url) || (url == "" && forall other :: !IsFirstURL(spec, other))
    ensures forall other :: IsFirstURL(spec, other) ==> other == url
  {
    var servers := AsItems(Get(spec, "servers"));
    url := if servers == [] then "" else StringValue(Get(AsEntries(servers[0]), "url"));
  }

  lemma {:induction false} OnlySlashesGo(s: string)
    ensures var r := WithoutSlashes(s);
            && r <= s && (forall i :: |r| <= i < |s| ==> s[i] == '/') && (r != "" ==> r[|r| - 1] != '/')
  {
    if s != "" && s[|s| - 1] == '/' {
      OnlySlashesGo(s[..|s| - 1]);
    }
  }

  /** `objects` are all objects of the list, in their order. */
  ghost predicate AreObjectsOf(objects: seq<Entries>, items: seq<Json>) {
    exists at :: AreObjectsAt(objects, items, at)
  }

  ghost predicate AreObjectsAt(objects: seq<Entries>, items: seq<Json>, at: seq<nat>) {
    && |at| == |objects| && (forall i, j :: 0 <= i < j < |at| ==> at[i] < at[j])
    && (forall i :: 0 <= i < |at| ==> at[i] < |items| && items[at[i]] == Obj(objects[i]))
    && forall k :: 0 <= k < |items| && items[k].Obj? ==> k in at
  }

  lemma {:induction false} ObjectsAreAt(items: seq<Json>) returns (at: seq<nat>)
    ensures AreObjectsAt(ObjectsOf(items), items, at)
  {
    if items == [] {
      at := [];
    } else {
      var last := |items| - 1;
      var front := ObjectsAreAt(items[..last]);
      at := front + if items[last].Obj? then [last] else [];
      forall k | 0 <= k < |items| && items[k].Obj? ensures k in at {
        if k < last {
          assert items[..last][k] == items[k] && k in front;
        }
      }
    }
  }

  /** The parameters of the path and then those of the method, each list without what is no object. */
  lemma ParametersAreCopied(file: SpecFile, path: string, key: string) returns (shared: seq<Entries>, own: seq<Entries>)
    requires IsEntry(file, (path, key))
    ensures OperationOf(file, (path, key)).parameters == shared + own
    ensures var pathItem := file.spec["paths"].entries[path].entries;
            AreObjectsOf(shared, AsItems(Get(pathItem, "parameters"))) && AreObjectsOf(own, AsItems(Get(pathItem[key].entries, "parameters")))
  {
    var pathItem := file.spec["paths"].entries[path].entries;
    var first, second := AsItems(Get(pathItem, "parameters")), AsItems(Get(pathItem[key].entries, "parameters"));
    shared, own := ObjectsOf(first), ObjectsOf(second);
    var _ := ObjectsAreAt(first);
    var _ := ObjectsAreAt(second);
  }

  ghost function EntriesOf(file: SpecFile): (entries: set<Entry>)
    ensures forall e :: e in entries <==> IsEntry(file, e)
  {
    var paths := AsEntries(Get(file.spec, "paths"));
    set path, method_ | path in paths && method_ in AsEntries(paths[path]) && IsEntry(file, (path, method_)) :: (path, method_)
  }

  ghost function Contributed(file: SpecFile): Contribution {
    Contribution(EntriesOf(file), entry => if IsEntry(file, entry) then OperationOf(file, entry) else NewOperation(file, "", "", [], map[]))
  }

  /** When the registry of these files is the same for every order of their maps. */
  lemma LoadIsDeterministicExactly(files: seq<SpecFile>, orders: seq<seq<Entry>>)
    requires ListsAll(orders, AllContributed(files))
    ensures (forall i :: 0 <= i < |files| ==> ClashesAgree(Contributed(files[i]))) <==>
            forall others :: ListsAll(others, AllContributed(files)) ==>
              SortStable(AllOperations(AllContributed(files), others)) == SortStable(AllOperations(AllContributed(files), orders))
  {
    var contributions := AllContributed(files);
    forall i | 0 <= i < |files| ensures contributions[i] == Contributed(files[i]) && KeepsPaths(contributions[i]) {
      ContributedKeepsPaths(files[i]);
    }
    RegistryIsDeterministicExactly(contributions, orders);
  }

  lemma ContributedKeepsPaths(file: SpecFile)
    ensures KeepsPaths(Contributed(file))
  {
  }

  ghost function AllContributed(files: seq<SpecFile>): (contributions: seq<Contribution>)
    ensures |contributions| == |files|
  {
    seq(|files|, i requires 0 <= i < |files| => Contributed(files[i]))
  }

  method LoadPathOperations(file: SpecFile) returns (operations: seq<Operation>, ghost order: seq<Entry>)
    ensures Lists(order, Contributed(file)) && operations == OperationsIn(Contributed(file), order)
    ensures forall x :: x in operations <==> Contributes(Contributed(file), x)
  {
    var paths := AsEntries(Get(file.spec, "paths"));
    operations, order := [], [];
    var waiting := paths.Keys;
    while waiting != {}
      invariant waiting <= paths.Keys
      invariant forall e :: e in order <==> IsEntry(file, e) && e.0 !in waiting
      invariant Distinct(order) && PathByPath(order)
      invariant operations == OperationsIn(Contributed(file), order)
      decreases |waiting|
    {
      var path :| path in waiting;
      waiting := waiting - {path};
      if paths[path].Obj? {
        operations, order := LoadMethods(file, path, operations, order);
      }
    }
    OperationsAre(Contributed(file), order);
  }

  method LoadMethods(file: SpecFile, path: string, operations: seq<Operation>, ghost order: seq<Entry>)
    returns (operations': seq<Operation>, ghost order': seq<Entry>)
    requires var paths := AsEntries(Get(file.spec, "paths")); path in paths && paths[path].Obj?
    requires forall e :: e in order ==> IsEntry(file, e) && e.0 != path
    requires Distinct(order) && PathByPath(order)
    requires operations == OperationsIn(Contributed(file), order)
    ensures forall e :: e in order' <==> e in order || (IsEntry(file, e) && e.0 == path)
    ensures Distinct(order') && PathByPath(order')
    ensures operations' == OperationsIn(Contributed(file), order')
  {
    var pathItem := AsEntries(Get(file.spec, "paths"))[path].entries;
    var pathParameters := ExtractParameters(Get(pathItem, "parameters"));
    operations', order' := operations, order;
    var waiting := pathItem.Keys;
    while waiting != {}
      invariant waiting <= pathItem.Keys
      invariant forall e :: e in order' <==> e in order || (IsEntry(file, e) && e.0 == path && e.1 !in waiting)
      invariant Distinct(order')
      invariant order <= order' && forall k :: |order| <= k < |order'| ==> order'[k].0 == path
      invariant operations' == OperationsIn(Contributed(file), order')
      decreases |waiting|
    {
      var method_ :| method_ in waiting;
      if pathItem[method_].Obj? {
        OneEntryMore(Contributed(file), order', (path, method_));
        operations' := operations' + [NewOperation(file, path, method_, pathParameters, pathItem[method_].entries)];
        order' := order' + [(path, method_)];
      }
      waiting := waiting - {method_};
    }
    OnePathMore(order, order', path);
  }

  /* ---- The registry and its lookup ---- */

  predicate Hits(operation: Operation, method_: string, actualPath: string) {
    operation.method_ == method_ && Matches(Pattern(operation.templatePath), actualPath)
  }

  class SchemaRegistry {
    var operations: seq<Operation>

    constructor ()
      ensures operations == []
    {
      operations := [];
    }

    /** Loads every file in walk order, then sorts in place. */
    method Load(files: seq<SpecFile>) returns (ghost orders: seq<seq<Entry>>)
      modifies this
      ensures ListsAll(orders, AllContributed(files))
      ensures StablySorted(AllOperations(AllContributed(files), orders), operations)
    {
      operations, orders := [], [];
      for i := 0 to |files|
        invariant ListsAll(orders, AllContributed(files[..i]))
        invariant operations == AllOperations(AllContributed(files[..i]), orders)
      {
        var more, order := LoadPathOperations(files[i]);
        assert AllContributed(files[..i + 1]) == AllContributed(files[..i]) + [Contributed(files[i])];
        OneFileMore(AllContributed(files[..i]), orders, Contributed(files[i]), order);
        operations := operations + more;
        orders := orders + [order];
      }
      assert files[..|files|] == files;
      SortStableSorts(operations);
      operations := SortStable(operations);
    }

    method FindOperation(method_: string, actualPath: string) returns (found: Option<nat>)
      ensures IsLookup(operations, ToUpper(method_), actualPath, found)
    {
      var normalizedMethod := ToUpper(method_);
      for index := 0 to |operations|
        invariant forall i :: 0 <= i < index ==> !Hits(operations[i], normalizedMethod, actualPath)
      {
        if operations[index].method_ == normalizedMethod && Matches(Pattern(operations[index].templatePath), actualPath) {
          return Some(index);
        }
      }
      return None;
    }
  }

  ghost predicate IsFirstHit(operations: seq<Operation>, method_: string, actualPath: string, index: nat) {
    && index < |operations| && Hits(operations[index], method_, actualPath)
    && forall i :: 0 <= i < index ==> !Hits(operations[i], method_, actualPath)
  }

  /** The first operation that the method and the path hit, or nothing when there is none. */
  ghost predicate IsLookup(operations: seq<Operation>, method_: string, actualPath: string, found: Option<nat>) {
    match found
    case Some(index) => IsFirstHit(operations, method_, actualPath, index)
    case None => forall i :: 0 <= i < |operations| ==> !Hits(operations[i], method_, actualPath)
  }

  /** A path rendered from the template of a registered operation is found: the lookup ends at that
      operation or at one before it that the path hits as well. */
  lemma RenderedPathIsFound(operations: seq<Operation>, i: nat, parts: seq<Part>, params: map<string, string>,
                            escape: string -> string, rendered: Option<string>, found: Option<nat>)
    requires i < |operations| && operations[i].templatePath == TemplateText(parts)
    requires WellFormed(parts) && SegmentSafe(escape)
    requires forall key :: key in params ==> !HasBrace(key) && params[key] != ""
    requires Named(parts, params.Keys) && "/" <= TemplateText(parts)
    requires Renders(TemplateText(parts), params, escape, rendered)
    requires rendered.Some? ==> IsLookup(operations, operations[i].method_, rendered.value, found)
    ensures rendered.Some? && found.Some? && found.value <= i && Hits(operations[found.value], operations[i].method_, rendered.value)
  {
    OneRendering(parts, params, escape, rendered);
    var order :| IsOrder(order, params.Keys) && rendered == RenderedIn(order, TemplateText(parts), params, escape);
    RenderedPathMatches(parts, params, escape, order);
    assert Hits(operations[i], operations[i].method_, rendered.value);
  }

  lemma TailStaysBelow(s: string)
    requires s != "" && forall c :: c in s ==> c < '{'
    ensures forall c :: c in s[1..] ==> c < '{'
  {
    forall c | c in s[1..] ensures c < '{' {
      var i :| 0 <= i < |s[1..]| && s[1..][i] == c;
      assert s[i + 1] in s;
    }
  }

  /** A template that matches a path of characters below '{' either is that path or sorts after it. */
  lemma {:induction false} PlaceholderSortsLater(parts: seq<Part>, path: string)
    requires Matches(Atoms(parts), path) && forall c :: c in path ==> c < '{'
    ensures TemplateText(parts) == path || Less(path, TemplateText(parts))
  {
    if parts != [] {
      match parts[0] {
        case Lit(c) =>
          assert Atoms(parts)[1..] == Atoms(parts[1..]);
          assert path == [c] + path[1..] && TemplateText(parts) == [c] + TemplateText(parts[1..]);
          TailStaysBelow(path);
          PlaceholderSortsLater(parts[1..], path[1..]);
          assert TemplateText(parts)[1..] == TemplateText(parts[1..]);
        case Hole(name) =>
          assert path != "" && path[0] in path && TemplateText(parts)[0] == '{';
      }
    }
  }

  /** A literal template equal to the path beats every template with placeholders. */
  lemma LiteralBeatsPlaceholders(operations: seq<Operation>, method_: string, path: string, index: nat,
                                 literal: nat, templates: seq<seq<Part>>)
    requires IsSortedBy(operations) && |templates| == |operations|
    requires forall i :: 0 <= i < |operations| ==>
      operations[i].templatePath == TemplateText(templates[i]) && WellFormed(templates[i])
    requires literal < |operations| && operations[literal].method_ == method_ && operations[literal].templatePath == path
    requires forall c :: c in path ==> c < '{'
    requires IsFirstHit(operations, method_, path, index)
    ensures operations[index].templatePath == path
  {
    PatternOfTemplate(templates[index]);
    PlaceholderSortsLater(templates[index], path);
    LiteralHitsItself(templates[literal], path);
    FirstHitSortsFirst(operations, method_, path, index, literal);
  }

  lemma FirstHitSortsFirst(operations: seq<Operation>, method_: string, path: string, index: nat, literal: nat)
    requires IsSortedBy(operations) && IsFirstHit(operations, method_, path, index)
    requires literal < |operations| && Hits(operations[literal], method_, path)
    requires operations[literal].templatePath == path
    requires operations[index].templatePath == path || Less(path, operations[index].templatePath)
    ensures operations[index].templatePath == path
  {
    if operations[index].templatePath != path {
      LessIrreflexive(path);
      PrecedesOrder(operations[literal], operations[index], operations[index]);
      assert Precedes(operations[literal], operations[index]);
    }
  }

  lemma {:induction false} LiteralHitsItself(parts: seq<Part>, path: string)
    requires WellFormed(parts) && TemplateText(parts) == path && forall c :: c in path ==> c < '{'
    ensures Matches(Pattern(path), path)
  {
    PatternOfTemplate(parts);
    AtomsMatchText(parts);
  }

  lemma {:induction false} AtomsMatchText(parts: seq<Part>)
    requires forall c :: c in TemplateText(parts) ==> c < '{'
    ensures Matches(Atoms(parts), TemplateText(parts))
  {
    if parts != [] {
      var text, rest := TemplateText(parts), TemplateText(parts[1..]);
      assert text[0] in text;
      if parts[0].Lit? {
        assert text == [parts[0].c] + rest && text[1..] == rest;
        assert Atoms(parts)[1..] == Atoms(parts[1..]);
        TailStaysBelow(text);
        AtomsMatchText(parts[1..]);
      }
    }
  }

  /* ---- What the lookup finds ---- */

  /** An operation hits exactly the requests with its method whose path splits into its template. */
  lemma HitsExactly(operation: Operation, parts: seq<Part>, method_: string, path: string)
    requires WellFormed(parts) && operation.templatePath == TemplateText(parts)
    ensures Hits(operation, method_, path) <==> operation.method_ == method_ && exists texts :: SplitsInto(parts, texts, path)
  {
    MatchesExactly(parts, path);
  }

  /** The lookup never finds a template with another number of slashes than the path. */
  lemma FoundHasAsManySlashes(operations: seq<Operation>, templates: seq<seq<Part>>, method_: string, path: string, found: Option<nat>)
    requires |templates| == |operations| && IsLookup(operations, method_, path, found)
    requires forall i :: 0 <= i < |operations| ==> operations[i].templatePath == TemplateText(templates[i]) && WellFormed(templates[i])
    requires forall i, j :: 0 <= i < |operations| && 0 <= j < |templates[i]| && templates[i][j].Hole? ==> '/' !in templates[i][j].name
    ensures found.Some? ==> Slashes(operations[found.value].templatePath) == Slashes(path) && operations[found.value].method_ == method_
    ensures found.None? <==>
            forall i :: 0 <= i < |operations| && operations[i].method_ == method_ ==> !exists texts :: SplitsInto(templates[i], texts, path)
  {
    forall i | 0 <= i < |operations|
      ensures Hits(operations[i], method_, path) <==>
        operations[i].method_ == method_ && exists texts :: SplitsInto(templates[i], texts, path)
    {
      HitsExactly(operations[i], templates[i], method_, path);
    }
    if found.Some? {
      MatchKeepsSlashes(templates[found.value], path);
    }
  }
}
