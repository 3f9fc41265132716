/** What the keywords of a schema demand, read off the schema as it is written, and that every reported
    error is true of the place it names. */
module Keywords {
  import opened Folds
  import opened Json
  import opened Validation

  /* ---- The keywords ---- */

  ghost predicate EnumMet(m: Entries, payload: Json) {
    "enum" in m && m["enum"].Arr? ==> exists i :: 0 <= i < |m["enum"].items| && Show(m["enum"].items[i]) == Show(payload)
  }

  ghost predicate AllMet(m: Entries, payload: Json) {
    "allOf" in m && m["allOf"].Arr? ==> forall i :: 0 <= i < |m["allOf"].items| ==> Valid(m["allOf"].items[i], payload)
  }

  ghost predicate SomeMet(m: Entries, keyword: string, payload: Json) {
    keyword in m && m[keyword].Arr? ==> exists i :: 0 <= i < |m[keyword].items| && Valid(m[keyword].items[i], payload)
  }

  ghost predicate RequiredMet(m: Entries, p: Entries) {
    "required" in m && m["required"].Arr? ==> forall name :: Str(name) in m["required"].items ==> name in p
  }

  predicate Describes(m: Entries, key: string) {
    "properties" in m && m["properties"].Obj? && key in m["properties"].entries
  }

  ghost predicate PropertiesMet(m: Entries, p: Entries) {
    forall key :: key in p ==>
      if Describes(m, key) then Valid(m["properties"].entries[key], p[key])
      else !("additionalProperties" in m && m["additionalProperties"] == Bool(false))
  }

  ghost predicate ItemsMet(m: Entries, p: seq<Json>) {
    "items" in m ==> forall i :: 0 <= i < |p| ==> Valid(m["items"], p[i])
  }

  /** The six types, by name. */
  ghost predicate TypeMet(m: Entries, payload: Json) {
    "type" in m ==>
      && (m["type"] == Str("object") ==> payload.Obj? && RequiredMet(m, payload.entries) && PropertiesMet(m, payload.entries))
      && (m["type"] == Str("array") ==> payload.Arr? && ItemsMet(m, payload.items))
      && (m["type"] == Str("string") ==> payload.Str?)
      && (m["type"] == Str("integer") ==> payload.Num?)
      && (m["type"] == Str("number") ==> payload.Num?)
      && (m["type"] == Str("boolean") ==> payload.Bool?)
  }

  lemma RequiredMeans(m: Entries, p: Entries)
    ensures RequiredMet(m, p) <==> RequiredNames(Get(m, "required")) <= p.Keys
  {
    RequiredNamesAre(Get(m, "required"));
  }

  lemma TypeMeans(m: Entries, payload: Json)
    ensures TypeMet(m, payload) <==> ValidKind(Obj(m), KindOf(m), payload)
  {
    if payload.Obj? {
      RequiredMeans(m, payload.entries);
      forall key | key in payload.entries
        ensures ValidProperty(Obj(m), key, payload.entries[key]) <==>
          if Describes(m, key) then Valid(m["properties"].entries[key], payload.entries[key])
          else !("additionalProperties" in m && m["additionalProperties"] == Bool(false))
      {
      }
    }
  }

  /** A payload is valid exactly when every keyword is met; a schema that is no object demands nothing. */
  lemma KeywordsMean(schema: Json, payload: Json)
    ensures Valid(schema, payload) <==>
            (schema.Obj? ==>
               var m := schema.entries;
               && EnumMet(m, payload) && AllMet(m, payload) && SomeMet(m, "oneOf", payload) && SomeMet(m, "anyOf", payload)
               && TypeMet(m, payload))
  {
    if schema.Obj? {
      TypeMeans(schema.entries, payload);
    }
  }

  /* ---- Types by name ---- */

  /** A schema with one of these type names only accepts payloads of that type, whatever else it says. */
  lemma TypesDemand(m: Entries, payload: Json)
    requires Valid(Obj(m), payload)
    ensures Get(m, "type") == Str("object") ==> payload.Obj?
    ensures Get(m, "type") == Str("array") ==> payload.Arr?
    ensures Get(m, "type") == Str("string") ==> payload.Str?
    ensures Get(m, "type") == Str("integer") ==> payload.Num?
    ensures Get(m, "type") == Str("number") ==> payload.Num?
    ensures Get(m, "type") == Str("boolean") ==> payload.Bool?
  {
    KeywordsMean(Obj(m), payload);
  }

  /** A schema that is only a type name accepts all payloads of that type, and any other name accepts all. */
  lemma TypeAlone(name: string, payload: Json)
    ensures Valid(Obj(map["type" := Str(name)]), payload) <==>
            match name
            case "object" => payload.Obj?
            case "array" => payload.Arr?
            case "string" => payload.Str?
            case "integer" => payload.Num?
            case "number" => payload.Num?
            case "boolean" => payload.Bool?
            case _ => true
  {
    KeywordsMean(Obj(map["type" := Str(name)]), payload);
  }

  /** Any other type constrains nothing: the schema means what it means without it. */
  lemma OtherTypesDemandNothing(m: Entries, payload: Json)
    requires Get(m, "type") !in {Str("object"), Str("array"), Str("string"), Str("integer"), Str("number"), Str("boolean")}
    ensures Valid(Obj(m), payload) <==> Valid(Obj(m - {"type"}), payload)
  {
    KeywordsMean(Obj(m), payload);
    KeywordsMean(Obj(m - {"type"}), payload);
  }

  /* ---- What is reported ---- */

  /** The value a path of keys and positions leads to. */
  ghost function At(payload: Json, path: Path): (found: seq<Json>)
    ensures |found| <= 1
    decreases |path|
  {
    if path == [] then [payload]
    else
      match path[0]
      case Key(name) => if payload.Obj? && name in payload.entries then At(payload.entries[name], path[1..]) else []
      case Index(i) => if payload.Arr? && i < |payload.items| then At(payload.items[i], path[1..]) else []
  }

  /** What an error claims of the value at its path. */
  ghost predicate TrueOf(failure: Failure, value: Json) {
    match failure
    case ExpectedObject => !value.Obj?
    case ExpectedArray => !value.Arr?
    case ExpectedString => !value.Str?
    case ExpectedInteger => !value.Num?
    case ExpectedNumber => !value.Num?
    case ExpectedBoolean => !value.Bool?
    case MissingProperty(name) => value.Obj? && name !in value.entries
    case UnexpectedProperty(name) => value.Obj? && name in value.entries
    case NotInEnum => true
    case NoOneOfBranch => true
    case NoAnyOfBranch => true
  }

  /** The error's path goes on from `path` to a value in the payload of which the failure is true. */
  ghost predicate IsTrue(error: Error, payload: Json, path: Path) {
    && path <= error.path
    && exists value :: At(payload, error.path[|path|..]) == [value] && TrueOf(error.failure, value)
  }

  lemma HereIsTrue(path: Path, failure: Failure, payload: Json)
    requires TrueOf(failure, payload)
    ensures IsTrue(Error(path, failure), payload, path)
  {
    assert path[|path|..] == [];
    assert At(payload, []) == [payload];
  }

  /** What is true of a part is true of the whole, one step further up. */
  lemma PartIsTrue(error: Error, payload: Json, path: Path, step: Step, part: Json)
    requires At(payload, [step]) == [part] && IsTrue(error, part, path + [step])
    ensures IsTrue(error, payload, path)
  {
    var rest := error.path[|path| + 1..];
    assert error.path[|path|..] == [step] + rest;
    assert ([step] + rest)[1..] == rest && [step][1..] == [];
    var value :| At(part, rest) == [value] && TrueOf(error.failure, value);
    assert At(payload, [step] + rest) == [value];
  }

  lemma {:induction false} PileMember<T>(s: seq<multiset<T>>, x: T) returns (i: nat)
    requires x in Pile(s)
    ensures i < |s| && x in s[i]
  {
    if x in s[|s| - 1] {
      i := |s| - 1;
    } else {
      i := PileMember(s[..|s| - 1], x);
    }
  }

  /** Where an error of a schema comes from. */
  lemma ErrorIsOneOf(schema: Json, payload: Json, path: Path, error: Error)
    requires error in Errors(schema, payload, path)
    ensures schema.Obj?
    ensures || (error.path == path && error.failure in {NotInEnum, NoOneOfBranch, NoAnyOfBranch})
            || error in AllOfErrors(schema, payload, path)
            || error in TypeErrors(schema, KindOf(schema.entries), payload, path)
  {
  }

  /** Every reported error is true: its path leads to a value of the payload that fails as it says. */
  lemma {:induction false} ErrorsAreTrue(schema: Json, payload: Json, path: Path, error: Error)
    requires error in Errors(schema, payload, path)
    ensures IsTrue(error, payload, path)
    decreases schema, 4
  {
    ErrorIsOneOf(schema, payload, path, error);
    if error.failure in {NotInEnum, NoOneOfBranch, NoAnyOfBranch} && error.path == path {
      HereIsTrue(path, error.failure, payload);
    } else if error in AllOfErrors(schema, payload, path) {
      var branches := schema.entries["allOf"];
      var i := PileMember(BranchErrors(branches, payload, path), error);
      ErrorsAreTrue(branches.items[i], payload, path, error);
    } else {
      TypeErrorsAreTrue(schema, KindOf(schema.entries), payload, path, error);
    }
  }

  lemma {:induction false} TypeErrorsAreTrue(schema: Json, kind: Kind, payload: Json, path: Path, error: Error)
    requires schema.Obj? && error in TypeErrors(schema, kind, payload, path)
    ensures IsTrue(error, payload, path)
    decreases schema, 3
  {
    if kind == ObjectKind && payload.Obj? {
      ObjectErrorsAreTrue(schema, payload, path, error);
    } else if kind == ArrayKind && payload.Arr? {
      var i := PileMember(ItemErrors(schema, payload.items, path), error);
      ErrorsAreTrue(schema.entries["items"], payload.items[i], path + [Index(i)], error);
      ItemIsPart(payload, i);
      PartIsTrue(error, payload, path, Index(i), payload.items[i]);
    } else {
      KindErrorIsHere(schema, kind, payload, path, error);
      HereIsTrue(path, error.failure, payload);
    }
  }

  lemma ItemIsPart(payload: Json, i: nat)
    requires payload.Arr? && i < |payload.items|
    ensures At(payload, [Index(i)]) == [payload.items[i]]
  {
    assert [Index(i)][1..] == [] && At(payload.items[i], []) == [payload.items[i]];
  }

  lemma KindErrorIsHere(schema: Json, kind: Kind, payload: Json, path: Path, error: Error)
    requires schema.Obj? && error in TypeErrors(schema, kind, payload, path)
    requires !(kind == ObjectKind && payload.Obj?) && !(kind == ArrayKind && payload.Arr?)
    ensures error.path == path && TrueOf(error.failure, payload)
  {
  }

  lemma {:induction false} ObjectErrorsAreTrue(schema: Json, payload: Json, path: Path, error: Error)
    requires schema.Obj? && payload.Obj?
    requires error in MissingErrors(RequiredNames(Get(schema.entries, "required")), payload.entries, path)
          || error in Bag(PropertyErrors(schema, payload.entries, path))
    ensures IsTrue(error, payload, path)
    decreases schema, 2
  {
    if error in MissingErrors(RequiredNames(Get(schema.entries, "required")), payload.entries, path) {
      HereIsTrue(path, error.failure, payload);
    } else {
      var bags := PropertyErrors(schema, payload.entries, path);
      BagMember(bags, error);
      var key :| key in bags && error in bags[key];
      PropertyErrorIsTrue(schema, payload, key, path, error);
    }
  }

  lemma {:induction false} PropertyErrorIsTrue(schema: Json, payload: Json, key: string, path: Path, error: Error)
    requires schema.Obj? && payload.Obj? && key in payload.entries
    requires error in PropertyError(schema, key, payload.entries[key], path)
    ensures IsTrue(error, payload, path)
    decreases schema, 1
  {
    var properties := AsEntries(Get(schema.entries, "properties"));
    if key in properties {
      ErrorsAreTrue(properties[key], payload.entries[key], path + [Key(key)], error);
      assert [Key(key)][1..] == [] && At(payload.entries[key], []) == [payload.entries[key]];
      PartIsTrue(error, payload, path, Key(key), payload.entries[key]);
    } else {
      HereIsTrue(path, UnexpectedProperty(key), payload);
    }
  }

  /* ---- Nothing is left out ---- */

  ghost function One(failure: Failure, path: Path, met: bool): multiset<Error> {
    if met then multiset{} else multiset{Error(path, failure)}
  }

  /** Every name the payload lacks, once. */
  ghost function Lacking(m: Entries, p: Entries, path: Path): multiset<Error> {
    if "required" in m && m["required"].Arr?
    then multiset(set item | item in m["required"].items && item.Str? && item.s !in p :: Error(path, MissingProperty(item.s)))
    else multiset{}
  }

  ghost function OfProperty(m: Entries, key: string, value: Json, path: Path): multiset<Error> {
    if Describes(m, key) then Errors(m["properties"].entries[key], value, path + [Key(key)])
    else One(UnexpectedProperty(key), path, !("additionalProperties" in m && m["additionalProperties"] == Bool(false)))
  }

  ghost function OfObject(m: Entries, p: Entries, path: Path): multiset<Error> {
    Lacking(m, p, path) + Bag(OfProperties(m, p, path))
  }

  ghost function OfProperties(m: Entries, p: Entries, path: Path): (bags: map<string, multiset<Error>>) {
    map key | key in p :: OfProperty(m, key, p[key], path)
  }

  ghost function OfItems(m: Entries, p: seq<Json>, path: Path): multiset<Error> {
    if "items" in m then Pile(seq(|p|, i requires 0 <= i < |p| => Errors(m["items"], p[i], path + [Index(i)]))) else multiset{}
  }

  /** The kind that the type's name stands for. */
  ghost function Named(m: Entries): Kind {
    var name := if "type" in m then m["type"] else Null;
    if name == Str("object") then ObjectKind
    else if name == Str("array") then ArrayKind
    else if name == Str("string") then StringKind
    else if name == Str("integer") then IntegerKind
    else if name == Str("number") then NumberKind
    else if name == Str("boolean") then BooleanKind
    else Unchecked
  }

  ghost function OfKind(m: Entries, kind: Kind, payload: Json, path: Path): multiset<Error> {
    match kind
    case ObjectKind => if payload.Obj? then OfObject(m, payload.entries, path) else One(ExpectedObject, path, false)
    case ArrayKind => if payload.Arr? then OfItems(m, payload.items, path) else One(ExpectedArray, path, false)
    case StringKind => One(ExpectedString, path, payload.Str?)
    case IntegerKind => One(ExpectedInteger, path, payload.Num?)
    case NumberKind => One(ExpectedNumber, path, payload.Num?)
    case BooleanKind => One(ExpectedBoolean, path, payload.Bool?)
    case Unchecked => multiset{}
  }

  ghost function OfBranches(m: Entries, payload: Json, path: Path): multiset<Error> {
    if "allOf" in m && m["allOf"].Arr?
    then Pile(seq(|m["allOf"].items|, i requires 0 <= i < |m["allOf"].items| => Errors(m["allOf"].items[i], payload, path)))
    else multiset{}
  }

  lemma LackingIs(m: Entries, p: Entries, path: Path)
    ensures MissingErrors(RequiredNames(Get(m, "required")), p, path) == Lacking(m, p, path)
  {
    var names := RequiredNames(Get(m, "required"));
    RequiredNamesAre(Get(m, "required"));
    var mine := set name | name in names && name !in p :: Error(path, MissingProperty(name));
    var items := AsItems(Get(m, "required"));
    var theirs := set item | item in items && item.Str? && item.s !in p :: Error(path, MissingProperty(item.s));
    forall e | e in mine ensures e in theirs {
      assert Str(e.failure.name) in items && Str(e.failure.name).s == e.failure.name;
    }
    forall e | e in theirs ensures e in mine {
      assert Str(e.failure.name) in items;
    }
    assert mine == theirs;
  }

  lemma PropertiesAre(m: Entries, p: Entries, path: Path)
    ensures PropertyErrors(Obj(m), p, path) == OfProperties(m, p, path)
  {
  }

  lemma ObjectIs(m: Entries, p: Entries, path: Path)
    ensures MissingErrors(RequiredNames(Get(m, "required")), p, path) + Bag(PropertyErrors(Obj(m), p, path)) == OfObject(m, p, path)
  {
    LackingIs(m, p, path);
    PropertiesAre(m, p, path);
  }

  lemma ItemsAre(m: Entries, p: seq<Json>, path: Path)
    ensures Pile(ItemErrors(Obj(m), p, path)) == OfItems(m, p, path)
  {
    if "items" in m {
      assert ItemErrors(Obj(m), p, path) == seq(|p|, i requires 0 <= i < |p| => Errors(m["items"], p[i], path + [Index(i)]));
    } else {
      PileEmpty(ItemErrors(Obj(m), p, path));
    }
  }

  lemma KindIsNamed(m: Entries)
    ensures KindOf(m) == Named(m)
  {
  }

  lemma OfKindIs(m: Entries, kind: Kind, payload: Json, path: Path)
    ensures TypeErrors(Obj(m), kind, payload, path) == OfKind(m, kind, payload, path)
  {
    if payload.Obj? {
      ObjectIs(m, payload.entries, path);
    } else if payload.Arr? {
      ItemsAre(m, payload.items, path);
    }
  }

  lemma VariantIs(m: Entries, keyword: string, failure: Failure, payload: Json, path: Path)
    ensures VariantErrors(Obj(m), keyword, failure, payload, path) == One(failure, path, SomeMet(m, keyword, payload))
  {
    VariantErrorsEmpty(Obj(m), keyword, failure, payload, path);
  }

  lemma BranchesAre(m: Entries, payload: Json, path: Path)
    ensures AllOfErrors(Obj(m), payload, path) == OfBranches(m, payload, path)
  {
    if Get(m, "allOf").Arr? {
      var items := m["allOf"].items;
      assert BranchErrors(m["allOf"], payload, path) == seq(|items|, i requires 0 <= i < |items| => Errors(items[i], payload, path));
    }
  }

  /** The bag of errors, keyword by keyword: an unmet enum hides everything else; otherwise the errors of
      all branches of `allOf`, one error each for an unmet `oneOf` and `anyOf`, and those of the type. */
  lemma ErrorsAddUp(m: Entries, payload: Json, path: Path)
    ensures Errors(Obj(m), payload, path) ==
            if !EnumMet(m, payload) then One(NotInEnum, path, false)
            else OfBranches(m, payload, path)
                 + One(NoOneOfBranch, path, SomeMet(m, "oneOf", payload))
                 + One(NoAnyOfBranch, path, SomeMet(m, "anyOf", payload))
                 + OfKind(m, Named(m), payload, path)
  {
    BranchesAre(m, payload, path);
    VariantIs(m, "oneOf", NoOneOfBranch, payload, path);
    VariantIs(m, "anyOf", NoAnyOfBranch, payload, path);
    KindIsNamed(m);
    OfKindIs(m, Named(m), payload, path);
  }
}
