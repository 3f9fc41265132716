/** Two passes, one meaning: normalizing a payload and then validating it accepts what a
    one-pass validator accepts that also lets an optional string enum be "". */
module Lenient {
  import opened Wrappers
  import opened Json
  import opened Resolver
  import opened Validation
  import opened Validator
  import opened Payloads
  import opened Normalizer

  /** No combiners, and enums only where no object or array is described. */
  ghost predicate CombinerFree(schema: Json) {
    schema.Obj? ==>
      var m := schema.entries;
      && CombinerFreeHere(m)
      && (forall key :: key in AsEntries(Get(m, "properties")) ==> CombinerFree(m["properties"].entries[key]))
      && ("items" in m ==> CombinerFree(m["items"]))
  }

  ghost predicate CombinerFreeHere(m: Entries) {
    && "allOf" !in m && "oneOf" !in m && "anyOf" !in m
    && ("enum" in m ==> KindOf(m) != ObjectKind && KindOf(m) != ArrayKind)
  }

  ghost predicate Accepts(schema: Json, payload: Json)
    decreases schema, 3
  {
    schema.Obj? ==>
      && (Get(schema.entries, "enum").Arr? ==> EnumContains(schema.entries["enum"].items, payload))
      && AcceptsKind(schema, KindOf(schema.entries), payload)
  }

  ghost predicate AcceptsKind(schema: Json, kind: Kind, payload: Json)
    requires schema.Obj?
    decreases schema, 2
  {
    match kind
    case ObjectKind =>
      && payload.Obj?
      && RequiredNames(Get(schema.entries, "required")) <= payload.entries.Keys
      && forall key :: key in payload.entries ==> AcceptsProperty(schema, key, payload.entries[key])
    case ArrayKind =>
      && payload.Arr?
      && ("items" in schema.entries ==>
            forall i :: 0 <= i < |payload.items| ==> Accepts(schema.entries["items"], payload.items[i]))
    case StringKind => payload.Str?
    case IntegerKind => payload.Num?
    case NumberKind => payload.Num?
    case BooleanKind => payload.Bool?
    case Unchecked => true
  }

  ghost predicate AcceptsProperty(schema: Json, key: string, value: Json)
    requires schema.Obj?
    decreases schema, 1
  {
    var properties := AsEntries(Get(schema.entries, "properties"));
    if key in properties
    then Accepts(properties[key], value) || MayBeEmpty(schema.entries, key, properties[key], value)
    else !ForbidsAdditional(schema.entries)
  }

  /** The leniency: an optional property that is an enum of strings may be empty. */
  ghost predicate MayBeEmpty(m: Entries, key: string, property: Json, value: Json) {
    && value == Str("") && key !in RequiredNames(Get(m, "required"))
    && property.Obj? && KindOf(property.entries) == StringKind && Get(property.entries, "enum").Arr?
  }

  lemma {:induction false} NormalizeThenValidate(payload: Json, schema: Json)
    requires CombinerFree(schema)
    ensures Valid(schema, Normalized(payload, schema)) <==> Accepts(schema, payload)
    decreases Size(schema), 4
  {
    if schema.Obj? {
      KindThenValidate(payload, schema, KindOf(schema.entries));
    }
  }

  lemma {:induction false} KindThenValidate(payload: Json, schema: Json, kind: Kind)
    requires schema.Obj? && CombinerFree(schema)
    ensures ValidKind(schema, kind, KindNormalized(payload, schema, kind)) <==> AcceptsKind(schema, kind, payload)
    decreases Size(schema), 3
  {
    if kind == ObjectKind && payload.Obj? {
      EntriesThenValidate(payload, schema);
    } else if kind == ArrayKind && payload.Arr? {
      EntryLighter(map[], schema.entries);
      if "items" in schema.entries {
        var item := schema.entries["items"];
        forall i | 0 <= i < |payload.items|
          ensures Valid(item, Normalized(payload.items[i], item)) <==> Accepts(item, payload.items[i])
        {
          NormalizeThenValidate(payload.items[i], item);
        }
        var after := ItemsNormalized(payload.items, schema);
        assert forall i :: 0 <= i < |payload.items| ==> after[i] == Normalized(payload.items[i], item);
      }
    }
  }

  lemma {:induction false} EntriesThenValidate(payload: Json, schema: Json)
    requires schema.Obj? && CombinerFree(schema) && payload.Obj?
    ensures ValidObject(schema, Obj(EntriesNormalized(payload.entries, schema))) <==> AcceptsKind(schema, ObjectKind, payload)
    decreases Size(schema), 2
  {
    var after := EntriesNormalized(payload.entries, schema);
    forall key | key in payload.entries
      ensures key in RequiredNames(Get(schema.entries, "required")) ==> key in after
      ensures (key in after ==> ValidProperty(schema, key, after[key])) <==> AcceptsProperty(schema, key, payload.entries[key])
    {
      PropertyThenValidate(payload.entries[key], schema, key);
    }
  }

  lemma {:induction false} PropertyThenValidate(value: Json, schema: Json, key: string)
    requires schema.Obj? && CombinerFree(schema)
    ensures Drops(schema.entries, key, value) ==> AcceptsProperty(schema, key, value)
    ensures !Drops(schema.entries, key, value) ==>
      (ValidProperty(schema, key, EntryNormalized(value, schema, key)) <==> AcceptsProperty(schema, key, value))
    decreases Size(schema), 1
  {
    var m := schema.entries;
    var property := PropertySchema(m, key);
    if property.Obj? {
      PropertySmaller(m, key);
      NormalizeThenValidate(value, property);
    }
  }

  /* ---- The entry point ---- */

  datatype Verdict = NotPrepared | Accepted | Rejected(reported: seq<Error>)

  /** The verdict on a payload, given the prepared schema: accepted when the normalized payload is valid,
      else at most five of its errors. */
  ghost predicate IsVerdict(prepared: Option<Json>, payload: Json, verdict: Verdict) {
    match verdict
    case NotPrepared => prepared == None
    case Accepted => prepared.Some? && Valid(prepared.value, Normalized(payload, prepared.value))
    case Rejected(reported) =>
      && prepared.Some? && !Valid(prepared.value, Normalized(payload, prepared.value))
      && FirstFive(reported, Errors(prepared.value, Normalized(payload, prepared.value), []))
  }

  method ValidatePayload(spec: Entries, schema: Json, payload: Json, ghost w: map<string, nat>) returns (verdict: Verdict)
    requires Weighted(spec, w) && Covered(w.Keys, schema)
    ensures IsVerdict(PrepareSchema(spec, schema, w), payload, verdict)
  {
    var prepared := PrepareSchema(spec, schema, w);
    if prepared.None? {
      return NotPrepared;
    }
    ghost var normalized := Normalized(payload, prepared.value);
    var reported := ValidatePrepared(prepared.value, payload);
    NoErrorsMeansValid(prepared.value, normalized, []);
    verdict := if |reported| > 0 then Rejected(reported) else Accepted;
  }

  ghost predicate FirstFive(reported: seq<Error>, errors: multiset<Error>) {
    multiset(reported) <= errors && |reported| == if |errors| > 5 then 5 else |errors|
  }

  lemma TakeFive(items: seq<Error>, limit: nat)
    requires limit == if |items| > 5 then 5 else |items|
    ensures FirstFive(items[..limit], multiset(items))
  {
    assert items == items[..limit] + items[limit..];
    assert |items| == |multiset(items)|;
  }

  method ValidatePrepared(prepared: Json, payload: Json) returns (reported: seq<Error>)
    ensures FirstFive(reported, Errors(prepared, Normalized(payload, prepared), []))
  {
    var normalized := NormalizePayloadForSchema(payload, prepared);
    var errors := new ErrorLog();
    ValidateAgainstSchema(prepared, normalized, [], errors);
    var limit := |errors.items|;
    if limit > 5 {
      limit := 5;
    }
    TakeFive(errors.items, limit);
    reported := errors.items[..limit];
  }
}
