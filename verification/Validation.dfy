/** Validating a payload against a schema: what is reported, how it is collected into one
    growing list, and what it means for nothing to be reported. */
module Validation {
  import opened Folds
  import opened Json

  datatype Step = Key(name: string) | Index(position: nat)
  type Path = seq<Step>

  datatype Failure =
    | NotInEnum
    | NoOneOfBranch
    | NoAnyOfBranch
    | ExpectedObject
    | MissingProperty(name: string)
    | UnexpectedProperty(name: string)
    | ExpectedArray
    | ExpectedString
    | ExpectedInteger
    | ExpectedNumber
    | ExpectedBoolean

  datatype Error = Error(path: Path, failure: Failure)

  /** Enum members are compared by the text they print as. */
  predicate EnumContains(values: seq<Json>, payload: Json) {
    exists i :: 0 <= i < |values| && Show(values[i]) == Show(payload)
  }

  /** What the members of an enum print as: an enum is compared by nothing else. */
  ghost function Texts(items: seq<Json>): (texts: set<string>)
    ensures forall payload :: EnumContains(items, payload) <==> Show(payload) in texts
  {
    set i | 0 <= i < |items| :: Show(items[i])
  }

  /** The six types that are checked; any other `type`, or none, is not checked. */
  datatype Kind = ObjectKind | ArrayKind | StringKind | IntegerKind | NumberKind | BooleanKind | Unchecked

  function KindOf(m: Entries): Kind {
    match Get(m, "type")
    case Str("object") => ObjectKind
    case Str("array") => ArrayKind
    case Str("string") => StringKind
    case Str("integer") => IntegerKind
    case Str("number") => NumberKind
    case Str("boolean") => BooleanKind
    case _ => Unchecked
  }

  predicate ForbidsAdditional(m: Entries) {
    Get(m, "additionalProperties") == Bool(false)
  }

  /* ---- What a schema means ---- */

  ghost predicate Valid(schema: Json, payload: Json)
    decreases schema, 3
  {
    schema.Obj? ==>
      var m := schema.entries;
      && (Get(m, "enum").Arr? ==> EnumContains(m["enum"].items, payload))
      && (Get(m, "allOf").Arr? ==> ValidForAll(m["allOf"], payload))
      && (Get(m, "oneOf").Arr? ==> ValidForSome(m["oneOf"], payload))
      && (Get(m, "anyOf").Arr? ==> ValidForSome(m["anyOf"], payload))
      && ValidKind(schema, KindOf(m), payload)
  }

  ghost predicate ValidKind(schema: Json, kind: Kind, payload: Json)
    requires schema.Obj?
    decreases schema, 2
  {
    match kind
    case ObjectKind => ValidObject(schema, payload)
    case ArrayKind => ValidArray(schema, payload)
    case StringKind => payload.Str?
    case IntegerKind => payload.Num?
    case NumberKind => payload.Num?
    case BooleanKind => payload.Bool?
    case Unchecked => true
  }

  ghost predicate ValidForAll(branches: Json, payload: Json)
    requires branches.Arr?
    decreases branches, 0
  {
    forall i :: 0 <= i < |branches.items| ==> Valid(branches.items[i], payload)
  }

  /** `oneOf` asks for at least one branch, like `anyOf`: looser than section 10.2.1.3 of
      JSON Schema Core 2020-12, which asks for exactly one. */
  ghost predicate ValidForSome(branches: Json, payload: Json)
    requires branches.Arr?
    decreases branches, 0
  {
    exists i :: 0 <= i < |branches.items| && Valid(branches.items[i], payload)
  }

  ghost predicate ValidObject(schema: Json, payload: Json)
    requires schema.Obj?
    decreases schema, 1
  {
    && payload.Obj?
    && RequiredNames(Get(schema.entries, "required")) <= payload.entries.Keys
    && forall key :: key in payload.entries ==> ValidProperty(schema, key, payload.entries[key])
  }

  ghost predicate ValidProperty(schema: Json, key: string, value: Json)
    requires schema.Obj?
    decreases schema, 0
  {
    var properties := AsEntries(Get(schema.entries, "properties"));
    if key in properties then Valid(properties[key], value) else !ForbidsAdditional(schema.entries)
  }

  ghost predicate ValidArray(schema: Json, payload: Json)
    requires schema.Obj?
    decreases schema, 0
  {
    && payload.Arr?
    && ("items" in schema.entries ==>
          forall i :: 0 <= i < |payload.items| ==> Valid(schema.entries["items"], payload.items[i]))
  }

  /* ---- What is reported: a bag, since maps have no order ---- */

  ghost function Errors(schema: Json, payload: Json, path: Path): multiset<Error>
    decreases schema, 3
  {
    if !schema.Obj? then multiset{}
    else if Get(schema.entries, "enum").Arr? && !EnumContains(schema.entries["enum"].items, payload)
    then multiset{Error(path, NotInEnum)}
    else
      AllOfErrors(schema, payload, path)
      + VariantErrors(schema, "oneOf", NoOneOfBranch, payload, path)
      + VariantErrors(schema, "anyOf", NoAnyOfBranch, payload, path)
      + TypeErrors(schema, KindOf(schema.entries), payload, path)
  }

  ghost function BranchErrors(branches: Json, payload: Json, path: Path): (bags: seq<multiset<Error>>)
    requires branches.Arr?
    decreases branches, 0
  {
    seq(|branches.items|, i requires 0 <= i < |branches.items| => Errors(branches.items[i], payload, path))
  }

  ghost function AllOfErrors(schema: Json, payload: Json, path: Path): multiset<Error>
    requires schema.Obj?
    decreases schema, 1
  {
    if Get(schema.entries, "allOf").Arr? then Pile(BranchErrors(schema.entries["allOf"], payload, path)) else multiset{}
  }

  ghost function VariantErrors(schema: Json, keyword: string, failure: Failure, payload: Json, path: Path): multiset<Error>
    requires schema.Obj?
    decreases schema, 1
  {
    if Get(schema.entries, keyword).Arr? && multiset{} !in BranchErrors(schema.entries[keyword], payload, path)
    then multiset{Error(path, failure)}
    else multiset{}
  }

  ghost function TypeErrors(schema: Json, kind: Kind, payload: Json, path: Path): multiset<Error>
    requires schema.Obj?
    decreases schema, 2
  {
    match kind
    case ObjectKind =>
      if !payload.Obj? then multiset{Error(path, ExpectedObject)}
      else MissingErrors(RequiredNames(Get(schema.entries, "required")), payload.entries, path) + Bag(PropertyErrors(schema, payload.entries, path))
    case ArrayKind =>
      if !payload.Arr? then multiset{Error(path, ExpectedArray)}
      else Pile(ItemErrors(schema, payload.items, path))
    case StringKind => if payload.Str? then multiset{} else multiset{Error(path, ExpectedString)}
    case IntegerKind => if payload.Num? then multiset{} else multiset{Error(path, ExpectedInteger)}
    case NumberKind => if payload.Num? then multiset{} else multiset{Error(path, ExpectedNumber)}
    case BooleanKind => if payload.Bool? then multiset{} else multiset{Error(path, ExpectedBoolean)}
    case Unchecked => multiset{}
  }

  /** One error for each of the names that the payload lacks. */
  ghost function MissingErrors(names: set<string>, payload: Entries, path: Path): multiset<Error> {
    multiset(set name | name in names && name !in payload :: Error(path, MissingProperty(name)))
  }

  ghost function PropertyError(schema: Json, key: string, value: Json, path: Path): multiset<Error>
    requires schema.Obj?
    decreases schema, 0
  {
    var properties := AsEntries(Get(schema.entries, "properties"));
    if key in properties then Errors(properties[key], value, path + [Key(key)])
    else if ForbidsAdditional(schema.entries) then multiset{Error(path, UnexpectedProperty(key))}
    else multiset{}
  }

  /** What each entry of an object payload contributes. */
  ghost function PropertyErrors(schema: Json, payload: Entries, path: Path): (bags: map<string, multiset<Error>>)
    requires schema.Obj?
    decreases schema, 1
  {
    map key | key in payload :: PropertyError(schema, key, payload[key], path)
  }

  ghost function ItemErrors(schema: Json, payload: seq<Json>, path: Path): (bags: seq<multiset<Error>>)
    requires schema.Obj?
    decreases schema, 0
  {
    seq(|payload|, i requires 0 <= i < |payload| =>
      if "items" in schema.entries then Errors(schema.entries["items"], payload[i], path + [Index(i)]) else multiset{})
  }

  /* ---- Nothing is reported exactly when the payload is valid ---- */

  /** Nothing is reported exactly for the valid payloads. */
  lemma {:induction false} NoErrorsMeansValid(schema: Json, payload: Json, path: Path)
    ensures Errors(schema, payload, path) == multiset{} <==> Valid(schema, payload)
    decreases schema, 4
  {
    if schema.Obj? {
      AllOfErrorsEmpty(schema, payload, path);
      VariantErrorsEmpty(schema, "oneOf", NoOneOfBranch, payload, path);
      VariantErrorsEmpty(schema, "anyOf", NoAnyOfBranch, payload, path);
      TypeErrorsEmpty(schema, KindOf(schema.entries), payload, path);
    }
  }

  lemma {:induction false} BranchErrorsEmpty(branches: Json, payload: Json, path: Path)
    requires branches.Arr?
    ensures forall i :: 0 <= i < |branches.items| ==>
      (BranchErrors(branches, payload, path)[i] == multiset{} <==> Valid(branches.items[i], payload))
    decreases branches, 0
  {
    forall i | 0 <= i < |branches.items|
      ensures BranchErrors(branches, payload, path)[i] == multiset{} <==> Valid(branches.items[i], payload)
    {
      NoErrorsMeansValid(branches.items[i], payload, path);
    }
  }

  lemma {:induction false} AllOfErrorsEmpty(schema: Json, payload: Json, path: Path)
    requires schema.Obj?
    ensures AllOfErrors(schema, payload, path) == multiset{} <==>
            (Get(schema.entries, "allOf").Arr? ==> ValidForAll(schema.entries["allOf"], payload))
    decreases schema, 2
  {
    if Get(schema.entries, "allOf").Arr? {
      BranchErrorsEmpty(schema.entries["allOf"], payload, path);
      PileEmpty(BranchErrors(schema.entries["allOf"], payload, path));
    }
  }

  lemma {:induction false} VariantErrorsEmpty(schema: Json, keyword: string, failure: Failure, payload: Json, path: Path)
    requires schema.Obj?
    ensures VariantErrors(schema, keyword, failure, payload, path) == multiset{} <==>
            (Get(schema.entries, keyword).Arr? ==> ValidForSome(schema.entries[keyword], payload))
    decreases schema, 2
  {
    if Get(schema.entries, keyword).Arr? {
      var branches := schema.entries[keyword];
      var bags := BranchErrors(branches, payload, path);
      BranchErrorsEmpty(branches, payload, path);
      if multiset{} in bags {
        var i :| 0 <= i < |bags| && bags[i] == multiset{};
        assert Valid(branches.items[i], payload);
      } else {
        forall i | 0 <= i < |branches.items| ensures !Valid(branches.items[i], payload) {
          assert bags[i] in bags;
        }
      }
    }
  }

  lemma {:induction false} TypeErrorsEmpty(schema: Json, kind: Kind, payload: Json, path: Path)
    requires schema.Obj?
    ensures TypeErrors(schema, kind, payload, path) == multiset{} <==> ValidKind(schema, kind, payload)
    decreases schema, 3
  {
    if payload.Obj? {
      ObjectErrorsEmpty(schema, payload, path);
    } else if payload.Arr? {
      ItemErrorsEmpty(schema, payload, path);
    }
  }

  lemma {:induction false} ObjectErrorsEmpty(schema: Json, payload: Json, path: Path)
    requires schema.Obj? && payload.Obj?
    ensures MissingErrors(RequiredNames(Get(schema.entries, "required")), payload.entries, path)
              + Bag(PropertyErrors(schema, payload.entries, path)) == multiset{}
            <==> ValidObject(schema, payload)
    decreases schema, 2
  {
    var properties := AsEntries(Get(schema.entries, "properties"));
    var bags := PropertyErrors(schema, payload.entries, path);
    forall key | key in payload.entries
      ensures bags[key] == multiset{} <==> ValidProperty(schema, key, payload.entries[key])
    {
      assert bags[key] == PropertyError(schema, key, payload.entries[key], path);
      if key in properties {
        NoErrorsMeansValid(properties[key], payload.entries[key], path + [Key(key)]);
      }
    }
    BagEmpty(bags);
    var names := RequiredNames(Get(schema.entries, "required"));
    MissingErrorsEmpty(names, payload.entries, path);
  }

  lemma {:induction false} ItemErrorsEmpty(schema: Json, payload: Json, path: Path)
    requires schema.Obj? && payload.Arr?
    ensures Pile(ItemErrors(schema, payload.items, path)) == multiset{} <==> ValidArray(schema, payload)
    decreases schema, 2
  {
    var bags := ItemErrors(schema, payload.items, path);
    forall i | 0 <= i < |payload.items|
      ensures bags[i] == multiset{} <==> ("items" in schema.entries ==> Valid(schema.entries["items"], payload.items[i]))
    {
      if "items" in schema.entries {
        NoErrorsMeansValid(schema.entries["items"], payload.items[i], path + [Index(i)]);
      }
    }
    PileEmpty(bags);
  }

  lemma MissingErrorsEmpty(names: set<string>, payload: Entries, path: Path)
    ensures MissingErrors(names, payload, path) == multiset{} <==> names <= payload.Keys
  {
    if name :| name in names && name !in payload {
      assert Error(path, MissingProperty(name)) in MissingErrors(names, payload, path);
    }
  }

  lemma PropertyErrorsStep(schema: Json, payload: Entries, key: string, path: Path)
    requires schema.Obj? && key in payload
    ensures Bag(PropertyErrors(schema, payload, path)) ==
            PropertyError(schema, key, payload[key], path) + Bag(PropertyErrors(schema, payload - {key}, path))
  {
    var bags := PropertyErrors(schema, payload, path);
    BagRemove(bags, key);
    assert bags - {key} == PropertyErrors(schema, payload - {key}, path);
  }
}
