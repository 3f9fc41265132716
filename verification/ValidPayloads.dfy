/** A payload that is already valid is left alone, as long as `allOf` is the only combiner and no
    schema speaks about objects or arrays without saying so in its type. */
module ValidPayloads {
  import opened Json
  import opened Validation
  import opened Branches
  import opened Payloads
  import opened Kept

  /** `allOf` is the only combiner, and the keywords for objects and arrays come with their type. */
  ghost predicate Typed(schema: Json) {
    schema.Obj? ==>
      var m := schema.entries;
      && TypedHere(m)
      && (forall i :: 0 <= i < |AsItems(Get(m, "allOf"))| ==> Typed(m["allOf"].items[i]))
      && (forall key :: key in AsEntries(Get(m, "properties")) ==> Typed(m["properties"].entries[key]))
      && ("items" in m ==> Typed(m["items"]))
  }

  ghost predicate TypedHere(m: Entries) {
    && "oneOf" !in m && "anyOf" !in m
    && ("properties" in m || "required" in m || "additionalProperties" in m ==> KindOf(m) == ObjectKind)
    && ("items" in m ==> KindOf(m) == ArrayKind)
  }

  /* ---- Reading a merged branch ---- */

  lemma MergedReads(m: Entries, b: Entries, keyword: string)
    requires keyword != "properties" && keyword != "required"
    ensures var merged := MergeSchemaBranch(m, b, keyword);
            && AsEntries(Get(merged, "properties")) == AsEntries(Get(m, "properties")) + AsEntries(Get(b, "properties"))
            && RequiredNames(Get(merged, "required")) == RequiredNames(Get(m, "required")) + RequiredNames(Get(b, "required"))
            && ("properties" in merged <==> "properties" in m || "properties" in b)
            && ("required" in merged <==> "required" in m || "required" in b)
  {
    MergedReadsProperties(m, b, keyword);
    MergedReadsRequired(m, b, keyword);
  }

  lemma MergedReadsProperties(m: Entries, b: Entries, keyword: string)
    requires keyword != "properties"
    ensures var merged := MergeSchemaBranch(m, b, keyword);
            && AsEntries(Get(merged, "properties")) == AsEntries(Get(m, "properties")) + AsEntries(Get(b, "properties"))
            && ("properties" in merged <==> "properties" in m || "properties" in b)
  {
    var none: Entries := map[];
    assert AsEntries(Get(m, "properties")) + none == AsEntries(Get(m, "properties"));
  }

  lemma MergedReadsRequired(m: Entries, b: Entries, keyword: string)
    requires keyword != "required"
    ensures var merged := MergeSchemaBranch(m, b, keyword);
            && RequiredNames(Get(merged, "required")) == RequiredNames(Get(m, "required")) + RequiredNames(Get(b, "required"))
            && ("required" in merged <==> "required" in m || "required" in b)
  {
    MergedRequiredNames(Get(m, "required"), Get(b, "required"));
    assert RequiredNames(Null) == {};
  }

  lemma MergedReadsOther(m: Entries, b: Entries, keyword: string, key: string)
    requires key != "properties" && key != "required"
    ensures var merged := MergeSchemaBranch(m, b, keyword);
            && (key in merged <==> key in b || (key in m && key != keyword))
            && (key in b ==> Get(merged, key) == b[key])
            && (key !in b && key != keyword ==> Get(merged, key) == Get(m, key))
  {
  }

  lemma MergedObject(m: Entries, b: Entries, payload: Json)
    requires TypedHere(m) && TypedHere(b) && payload.Obj?
    requires ValidKind(Obj(m), KindOf(m), payload) && ValidKind(Obj(b), KindOf(b), payload)
    ensures ValidObject(Obj(MergeSchemaBranch(m, b, "allOf")), payload)
  {
    var merged := MergeSchemaBranch(m, b, "allOf");
    MergedReads(m, b, "allOf");
    assert RequiredNames(Null) == {};
    forall key | key in payload.entries ensures ValidProperty(Obj(merged), key, payload.entries[key]) {
      MergedProperty(m, b, payload, key);
    }
  }

  lemma MergedProperty(m: Entries, b: Entries, payload: Json, key: string)
    requires TypedHere(m) && TypedHere(b) && payload.Obj? && key in payload.entries
    requires ValidKind(Obj(m), KindOf(m), payload) && ValidKind(Obj(b), KindOf(b), payload)
    ensures ValidProperty(Obj(MergeSchemaBranch(m, b, "allOf")), key, payload.entries[key])
  {
    MergedReads(m, b, "allOf");
    MergedReadsOther(m, b, "allOf", "additionalProperties");
    assert KindOf(m) == ObjectKind ==> ValidProperty(Obj(m), key, payload.entries[key]);
    assert KindOf(b) == ObjectKind ==> ValidProperty(Obj(b), key, payload.entries[key]);
  }

  lemma MergedArray(m: Entries, b: Entries, payload: Json)
    requires TypedHere(m) && TypedHere(b) && payload.Arr?
    requires ValidKind(Obj(m), KindOf(m), payload) && ValidKind(Obj(b), KindOf(b), payload)
    ensures ValidArray(Obj(MergeSchemaBranch(m, b, "allOf")), payload)
  {
    MergedReadsOther(m, b, "allOf", "items");
  }

  lemma MergedValidKind(m: Entries, b: Entries, payload: Json)
    requires TypedHere(m) && TypedHere(b)
    requires ValidKind(Obj(m), KindOf(m), payload) && ValidKind(Obj(b), KindOf(b), payload)
    ensures var merged := MergeSchemaBranch(m, b, "allOf"); ValidKind(Obj(merged), KindOf(merged), payload)
  {
    MergedReadsOther(m, b, "allOf", "type");
    if payload.Obj? {
      MergedObject(m, b, payload);
    } else if payload.Arr? {
      MergedArray(m, b, payload);
    }
  }

  /** Validity against a schema and one of its `allOf` branches is validity against the merge. */
  lemma MergedIsValid(m: Entries, b: Entries, payload: Json)
    requires Typed(Obj(m)) && Typed(Obj(b)) && Valid(Obj(m), payload) && Valid(Obj(b), payload)
    ensures Valid(Obj(MergeSchemaBranch(m, b, "allOf")), payload)
  {
    MergedValidKind(m, b, payload);
    MergedReadsOther(m, b, "allOf", "enum");
    MergedReadsOther(m, b, "allOf", "allOf");
    MergedReadsOther(m, b, "allOf", "oneOf");
    MergedReadsOther(m, b, "allOf", "anyOf");
  }

  /* ---- Valid payloads are left alone ---- */

  /** An empty string that would be dropped is not valid in the first place. */
  lemma DroppedIsInvalid(m: Entries, key: string, value: Json)
    requires Drops(m, key, value)
    ensures !Valid(PropertySchema(m, key), value)
  {
    var property := PropertySchema(m, key).entries;
    forall i | 0 <= i < |property["enum"].items| ensures Show(property["enum"].items[i]) != Show(value) {
      ShowEmpty(property["enum"].items[i]);
      assert property["enum"].items[i] in property["enum"].items;
    }
  }

  ghost predicate TypedAndValid(schema: Json, payload: Json) {
    Typed(schema) && Valid(schema, payload)
  }

  /** Every part of the schema that could touch the payload is one the payload is valid against. This
      survives merging, even where the merge has lost its type. */
  ghost predicate Fits(m: Entries, payload: Json) {
    && "oneOf" !in m && "anyOf" !in m
    && (forall i :: 0 <= i < |AsItems(Get(m, "allOf"))| ==> TypedAndValid(m["allOf"].items[i], payload))
    && (payload.Obj? ==> forall key :: key in payload.entries && key in AsEntries(Get(m, "properties")) ==>
          TypedAndValid(m["properties"].entries[key], payload.entries[key]))
    && (payload.Arr? && "items" in m ==> forall i :: 0 <= i < |payload.items| ==> TypedAndValid(m["items"], payload.items[i]))
  }

  lemma ValidFits(m: Entries, payload: Json)
    requires TypedAndValid(Obj(m), payload)
    ensures Fits(m, payload)
  {
    assert Valid(Obj(m), payload) && ValidKind(Obj(m), KindOf(m), payload);
    assert Get(m, "allOf").Arr? ==> ValidForAll(m["allOf"], payload);
    if "items" in m {
      assert KindOf(m) == ArrayKind && ValidArray(Obj(m), payload);
      assert Typed(m["items"]);
    }
    if payload.Obj? && Get(m, "properties").Obj? {
      assert KindOf(m) == ObjectKind && ValidObject(Obj(m), payload);
      forall key | key in payload.entries && key in m["properties"].entries
        ensures TypedAndValid(m["properties"].entries[key], payload.entries[key])
      {
        assert ValidProperty(Obj(m), key, payload.entries[key]);
      }
    }
  }

  lemma MergedFits(m: Entries, b: Entries, payload: Json)
    requires Fits(m, payload) && TypedAndValid(Obj(b), payload)
    ensures Fits(MergeSchemaBranch(m, b, "allOf"), payload)
  {
    ValidFits(b, payload);
    MergedReads(m, b, "allOf");
    MergedReadsOther(m, b, "allOf", "allOf");
    MergedReadsOther(m, b, "allOf", "oneOf");
    MergedReadsOther(m, b, "allOf", "anyOf");
    MergedReadsOther(m, b, "allOf", "items");
  }

  lemma {:induction false} FittingIsUntouched(payload: Json, schema: Json)
    requires schema.Obj? ==> Fits(schema.entries, payload)
    ensures Untouched(payload, schema)
    decreases Size(schema), 2
  {
    if schema.Obj? {
      if "allOf" in schema.entries {
        forall i: nat | IsBranch(schema, "allOf", i) ensures Untouched(payload, Merged(schema, "allOf", i)) {
          MergedFits(schema.entries, schema.entries["allOf"].items[i].entries, payload);
          FittingIsUntouched(payload, Merged(schema, "allOf", i));
        }
      } else {
        FittingIsUntouchedByKind(payload, schema, KindOf(schema.entries));
      }
    }
  }

  lemma {:induction false} FittingIsUntouchedByKind(payload: Json, schema: Json, kind: Kind)
    requires schema.Obj? && Fits(schema.entries, payload)
    ensures UntouchedByKind(payload, schema, kind)
    decreases Size(schema), 1
  {
    var m := schema.entries;
    EntryLighter(map[], m);
    if kind == ObjectKind && payload.Obj? {
      forall key | key in payload.entries ensures UntouchedEntry(payload.entries[key], schema, key) {
        if PropertySchema(m, key).Obj? {
          PropertySmaller(m, key);
          ValidFits(PropertySchema(m, key).entries, payload.entries[key]);
          FittingIsUntouched(payload.entries[key], PropertySchema(m, key));
          if Drops(m, key, payload.entries[key]) {
            DroppedIsInvalid(m, key, payload.entries[key]);
          }
        }
      }
    } else if kind == ArrayKind && payload.Arr? && "items" in m {
      forall i | 0 <= i < |payload.items| ensures Untouched(payload.items[i], m["items"]) {
        if m["items"].Obj? {
          ValidFits(m["items"].entries, payload.items[i]);
        }
        FittingIsUntouched(payload.items[i], m["items"]);
      }
    }
  }

  /** Normalization leaves every valid payload unchanged. */
  lemma ValidIsKept(payload: Json, schema: Json)
    requires Typed(schema) && Valid(schema, payload)
    ensures Normalized(payload, schema) == payload
  {
    if schema.Obj? {
      ValidFits(schema.entries, payload);
    }
    FittingIsUntouched(payload, schema);
    KeptExactly(payload, schema);
  }
}
