/** The validator itself: it walks maps in whatever order they come and appends what it
    finds to a list that its callers share. */
module Validator {
  import opened Folds
  import opened Json
  import opened Validation
  import opened Keywords

  /** The list behind the `*[]string` every call appends to. */
  class ErrorLog {
    var items: seq<Error>

    constructor ()
      ensures items == []
    {
      items := [];
    }

    method Append(error: Error)
      modifies this
      ensures items == old(items) + [error]
    {
      items := items + [error];
    }
  }

  /** `after` is `before` followed by the errors of `bag` in some order. */
  ghost predicate Grows(before: seq<Error>, after: seq<Error>, bag: multiset<Error>) {
    before <= after && multiset(after) == multiset(before) + bag
  }

  lemma GrowsTwice(a: seq<Error>, b: seq<Error>, c: seq<Error>, x: multiset<Error>, y: multiset<Error>)
    requires Grows(a, b, x) && Grows(b, c, y)
    ensures Grows(a, c, x + y)
  {
  }

  lemma Cancels(a: multiset<Error>, b: multiset<Error>, c: multiset<Error>)
    requires a + b == a + c
    ensures b == c
  {
    forall e ensures b[e] == c[e] {
      assert (a + b)[e] == a[e] + b[e] && (a + c)[e] == a[e] + c[e];
    }
  }

  /** What was appended: nothing exactly for a valid payload, and only errors that are true of it. */
  lemma AppendedMeans(before: seq<Error>, after: seq<Error>, schema: Json, payload: Json, path: Path)
    requires Grows(before, after, Errors(schema, payload, path))
    ensures after == before <==> Valid(schema, payload)
    ensures forall i :: |before| <= i < |after| ==> IsTrue(after[i], payload, path)
  {
    var more := after[|before|..];
    assert after == before + more;
    Cancels(multiset(before), multiset(more), Errors(schema, payload, path));
    NoErrorsMeansValid(schema, payload, path);
    forall i | |before| <= i < |after| ensures IsTrue(after[i], payload, path) {
      assert more[i - |before|] in more;
      ErrorsAreTrue(schema, payload, path, after[i]);
    }
  }

  /** A schema that is only a type name: something is appended exactly for a payload of another type. */
  lemma TypeAloneAppends(before: seq<Error>, after: seq<Error>, name: string, payload: Json, path: Path)
    requires Grows(before, after, Errors(Obj(map["type" := Str(name)]), payload, path))
    ensures after == before <==>
            match name
            case "object" => payload.Obj?
            case "array" => payload.Arr?
            case "string" => payload.Str?
            case "integer" => payload.Num?
            case "number" => payload.Num?
            case "boolean" => payload.Bool?
            case _ => true
  {
    AppendedMeans(before, after, Obj(map["type" := Str(name)]), payload, path);
    TypeAlone(name, payload);
  }

  /** Appends the errors of the payload and nothing else; which order the maps are walked
      in never changes the bag of errors, so never their count. */
  method ValidateAgainstSchema(schema: Json, payload: Json, path: Path, errors: ErrorLog)
    modifies errors
    ensures Grows(old(errors.items), errors.items, Errors(schema, payload, path))
    decreases schema, 3
  {
    if !schema.Obj? {
      return;
    }
    var m := schema.entries;
    if Get(m, "enum").Arr? && !EnumContains(m["enum"].items, payload) {
      errors.Append(Error(path, NotInEnum));
      return;
    }
    ghost var start := errors.items;
    ValidateAllOf(schema, payload, path, errors);
    ghost var afterAllOf := errors.items;
    ValidateVariant(schema, "oneOf", NoOneOfBranch, payload, path, errors);
    ghost var afterOneOf := errors.items;
    ValidateVariant(schema, "anyOf", NoAnyOfBranch, payload, path, errors);
    ghost var afterAnyOf := errors.items;
    ValidateType(schema, KindOf(m), payload, path, errors);
    ghost var allOf := AllOfErrors(schema, payload, path);
    ghost var oneOf := VariantErrors(schema, "oneOf", NoOneOfBranch, payload, path);
    ghost var anyOf := VariantErrors(schema, "anyOf", NoAnyOfBranch, payload, path);
    GrowsTwice(start, afterAllOf, afterOneOf, allOf, oneOf);
    GrowsTwice(start, afterOneOf, afterAnyOf, allOf + oneOf, anyOf);
    GrowsTwice(start, afterAnyOf, errors.items, allOf + oneOf + anyOf, TypeErrors(schema, KindOf(m), payload, path));
  }

  method ValidateAllOf(schema: Json, payload: Json, path: Path, errors: ErrorLog)
    requires schema.Obj?
    modifies errors
    ensures Grows(old(errors.items), errors.items, AllOfErrors(schema, payload, path))
    decreases schema, 2
  {
    if !Get(schema.entries, "allOf").Arr? {
      return;
    }
    var branches := schema.entries["allOf"];
    ghost var bags := BranchErrors(branches, payload, path);
    for i := 0 to |branches.items|
      invariant Grows(old(errors.items), errors.items, Pile(bags[..i]))
    {
      ghost var before := errors.items;
      ValidateAgainstSchema(branches.items[i], payload, path, errors);
      GrowsTwice(old(errors.items), before, errors.items, Pile(bags[..i]), bags[i]);
      PileStep(bags, i);
    }
    assert bags[..|bags|] == bags;
  }

  method ValidateVariant(schema: Json, keyword: string, failure: Failure, payload: Json, path: Path, errors: ErrorLog)
    requires schema.Obj?
    modifies errors
    ensures Grows(old(errors.items), errors.items, VariantErrors(schema, keyword, failure, payload, path))
    decreases schema, 2
  {
    if Get(schema.entries, keyword).Arr? {
      var matchCount := CountMatches(schema.entries[keyword], payload, path);
      if matchCount == 0 {
        errors.Append(Error(path, failure));
      }
    }
  }

  /** Every branch is tried on a list of its own, even after one has matched. */
  method CountMatches(branches: Json, payload: Json, path: Path) returns (matchCount: nat)
    requires branches.Arr?
    ensures matchCount == 0 <==> multiset{} !in BranchErrors(branches, payload, path)
    decreases branches, 1
  {
    ghost var bags := BranchErrors(branches, payload, path);
    matchCount := 0;
    for i := 0 to |branches.items|
      invariant matchCount == 0 <==> multiset{} !in bags[..i]
    {
      var branchErrors := new ErrorLog();
      ValidateAgainstSchema(branches.items[i], payload, path, branchErrors);
      if |branchErrors.items| == 0 {
        matchCount := matchCount + 1;
      }
      assert bags[..i + 1] == bags[..i] + [bags[i]];
    }
    assert bags[..|bags|] == bags;
  }

  method ValidateType(schema: Json, kind: Kind, payload: Json, path: Path, errors: ErrorLog)
    requires schema.Obj?
    modifies errors
    ensures Grows(old(errors.items), errors.items, TypeErrors(schema, kind, payload, path))
    decreases schema, 2
  {
    match kind
    case ObjectKind =>
      if !payload.Obj? {
        errors.Append(Error(path, ExpectedObject));
      } else {
        ValidateObject(schema, payload.entries, path, errors);
      }
    case ArrayKind =>
      if !payload.Arr? {
        errors.Append(Error(path, ExpectedArray));
      } else {
        ValidateItems(schema, payload.items, path, errors);
      }
    case StringKind =>
      if !payload.Str? {
        errors.Append(Error(path, ExpectedString));
      }
    case IntegerKind =>
      if !payload.Num? {
        errors.Append(Error(path, ExpectedInteger));
      }
    case NumberKind =>
      if !payload.Num? {
        errors.Append(Error(path, ExpectedNumber));
      }
    case BooleanKind =>
      if !payload.Bool? {
        errors.Append(Error(path, ExpectedBoolean));
      }
    case Unchecked =>
  }

  method ValidateObject(schema: Json, payload: Entries, path: Path, errors: ErrorLog)
    requires schema.Obj?
    modifies errors
    ensures Grows(old(errors.items), errors.items,
                  MissingErrors(RequiredNames(Get(schema.entries, "required")), payload, path) + Bag(PropertyErrors(schema, payload, path)))
    decreases schema, 1, 1
  {
    ghost var start := errors.items;
    var required := RequiredNames(Get(schema.entries, "required"));
    ValidateRequired(required, payload, path, errors);
    ghost var between := errors.items;
    ValidateProperties(schema, payload, path, errors);
    GrowsTwice(start, between, errors.items, MissingErrors(required, payload, path), Bag(PropertyErrors(schema, payload, path)));
  }

  method ValidateRequired(names: set<string>, payload: Entries, path: Path, errors: ErrorLog)
    modifies errors
    ensures Grows(old(errors.items), errors.items, MissingErrors(names, payload, path))
  {
    var waiting := names;
    while waiting != {}
      invariant waiting <= names
      invariant old(errors.items) <= errors.items
      invariant multiset(errors.items) + MissingErrors(waiting, payload, path)
             == multiset(old(errors.items)) + MissingErrors(names, payload, path)
      decreases |waiting|
    {
      var name :| name in waiting;
      if name !in payload {
        errors.Append(Error(path, MissingProperty(name)));
      }
      waiting := waiting - {name};
    }
  }

  method ValidateProperties(schema: Json, payload: Entries, path: Path, errors: ErrorLog)
    requires schema.Obj?
    modifies errors
    ensures Grows(old(errors.items), errors.items, Bag(PropertyErrors(schema, payload, path)))
    decreases schema, 1, 0
  {
    var waiting := payload;
    ghost var start, done, rest := errors.items, multiset{}, Bag(PropertyErrors(schema, payload, path));
    ghost var total := rest;
    while waiting != map[]
      invariant Grows(start, errors.items, done)
      invariant rest == Bag(PropertyErrors(schema, waiting, path)) && done + rest == total
      decreases |waiting|
    {
      var key :| key in waiting;
      ghost var before, bag := errors.items, PropertyError(schema, key, waiting[key], path);
      ValidateProperty(schema, key, waiting[key], path, errors);
      GrowsTwice(start, before, errors.items, done, bag);
      PropertyErrorsStep(schema, waiting, key, path);
      waiting := waiting - {key};
      rest := Bag(PropertyErrors(schema, waiting, path));
      MovesOver(done, bag, rest);
      done := done + bag;
    }
  }

  lemma MovesOver(done: multiset<Error>, bag: multiset<Error>, rest: multiset<Error>)
    ensures done + (bag + rest) == done + bag + rest
  {
  }

  method ValidateProperty(schema: Json, key: string, value: Json, path: Path, errors: ErrorLog)
    requires schema.Obj?
    modifies errors
    ensures Grows(old(errors.items), errors.items, PropertyError(schema, key, value, path))
    decreases schema, 0
  {
    var properties := AsEntries(Get(schema.entries, "properties"));
    if key in properties {
      ValidateAgainstSchema(properties[key], value, path + [Key(key)], errors);
    } else if ForbidsAdditional(schema.entries) {
      errors.Append(Error(path, UnexpectedProperty(key)));
    }
  }

  method ValidateItems(schema: Json, payload: seq<Json>, path: Path, errors: ErrorLog)
    requires schema.Obj?
    modifies errors
    ensures Grows(old(errors.items), errors.items, Pile(ItemErrors(schema, payload, path)))
    decreases schema, 0
  {
    ghost var bags := ItemErrors(schema, payload, path);
    for i := 0 to |payload|
      invariant Grows(old(errors.items), errors.items, Pile(bags[..i]))
    {
      ghost var before := errors.items;
      if "items" in schema.entries {
        ValidateAgainstSchema(schema.entries["items"], payload[i], path + [Index(i)], errors);
      }
      GrowsTwice(old(errors.items), before, errors.items, Pile(bags[..i]), bags[i]);
      PileStep(bags, i);
    }
    assert bags[..|bags|] == bags;
  }
}
