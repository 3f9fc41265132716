/** What adjusting a payload to a schema does, read off the schema as it is written: which rule applies,
    which entries go, and what becomes of the others. */
module Quirks {
  import opened Json
  import opened Validation
  import opened Branches
  import opened Payloads
  import opened Keywords

  /** The empty string under an optional property that is an enum of strings without it. */
  ghost predicate IsQuirk(m: Entries, key: string, value: Json) {
    && value == Str("")
    && Describes(m, key) && m["properties"].entries[key].Obj?
    && (var property := m["properties"].entries[key].entries;
        && "type" in property && property["type"] == Str("string")
        && "enum" in property && property["enum"].Arr? && Str("") !in property["enum"].items)
    && !("required" in m && m["required"].Arr? && Str(key) in m["required"].items)
  }

  lemma QuirksAreDropped(m: Entries, key: string, value: Json)
    ensures Drops(m, key, value) <==> IsQuirk(m, key, value)
  {
    RequiredNamesAre(Get(m, "required"));
  }

  ghost predicate NoCombiner(m: Entries) {
    "allOf" !in m && "oneOf" !in m && "anyOf" !in m
  }

  /** Without combiners an object loses exactly the quirks, and its other entries are adjusted to the
      properties that describe them. */
  lemma ObjectsLoseQuirks(m: Entries, p: Entries)
    requires NoCombiner(m) && Get(m, "type") == Str("object")
    ensures var r := Normalized(Obj(p), Obj(m));
            && r.Obj?
            && (forall key :: key in r.entries <==> key in p && !IsQuirk(m, key, p[key]))
            && forall key :: key in r.entries ==>
                 r.entries[key] ==
                   if Describes(m, key) then Normalized(p[key], m["properties"].entries[key]) else p[key]
  {
    var r := EntriesNormalized(p, Obj(m));
    assert Normalized(Obj(p), Obj(m)) == Obj(r) by {
      assert KindOf(m) == ObjectKind;
    }
    forall key ensures key in r <==> key in p && !IsQuirk(m, key, p[key]) {
      if key in p {
        QuirksAreDropped(m, key, p[key]);
      }
    }
    forall key | key in r
      ensures r[key] == if Describes(m, key) then Normalized(p[key], m["properties"].entries[key]) else p[key]
    {
      EntryIsAdjusted(m, key, p[key]);
    }
  }

  lemma EntryIsAdjusted(m: Entries, key: string, value: Json)
    ensures EntryNormalized(value, Obj(m), key) ==
            if Describes(m, key) then Normalized(value, m["properties"].entries[key]) else value
  {
  }

  /** Without combiners an array keeps its length, and its items are adjusted to the schema for items. */
  lemma ItemsAreAdjusted(m: Entries, p: seq<Json>)
    requires NoCombiner(m) && Get(m, "type") == Str("array")
    ensures var r := Normalized(Arr(p), Obj(m));
            && r.Arr? && |r.items| == |p|
            && forall i :: 0 <= i < |p| ==> r.items[i] == if "items" in m then Normalized(p[i], m["items"]) else p[i]
  {
    assert KindOf(m) == ArrayKind;
    assert Normalized(Arr(p), Obj(m)) == Arr(ItemsNormalized(p, Obj(m)));
  }

  /** Everything else is left as it is: other types, payloads of another type, schemas that are no objects. */
  lemma OthersAreLeftAlone(schema: Json, payload: Json)
    requires schema.Obj? ==> NoCombiner(schema.entries)
    requires schema.Obj? && payload.Obj? ==> Get(schema.entries, "type") != Str("object")
    requires schema.Obj? && payload.Arr? ==> Get(schema.entries, "type") != Str("array")
    ensures Normalized(payload, schema) == payload
  {
    if schema.Obj? {
      KindIsNamed(schema.entries);
      OtherKindsLeaveAlone(schema, payload, KindOf(schema.entries));
    }
  }

  lemma OtherKindsLeaveAlone(schema: Json, payload: Json, kind: Kind)
    requires schema.Obj? && !(kind == ObjectKind && payload.Obj?) && !(kind == ArrayKind && payload.Arr?)
    ensures KindNormalized(payload, schema, kind) == payload
  {
  }

  /* ---- Combiners: `allOf` before `oneOf` before `anyOf` before the type ---- */

  /** The payloads between the branches of `allOf`: each is what the branch, merged into its surroundings,
      makes of the one before. */
  ghost predicate IsChain(m: Entries, steps: seq<Json>)
    requires "allOf" in m && m["allOf"].Arr?
  {
    var branches := m["allOf"].items;
    && |steps| == |branches| + 1
    && forall i :: 0 <= i < |branches| ==>
         steps[i + 1] == if branches[i].Obj? then Normalized(steps[i], Obj(MergeSchemaBranch(m, branches[i].entries, "allOf"))) else steps[i]
  }

  ghost function Chain(m: Entries, payload: Json, n: nat): (steps: seq<Json>)
    requires "allOf" in m && m["allOf"].Arr? && n <= |m["allOf"].items|
    ensures |steps| == n + 1
  {
    seq(n + 1, i requires 0 <= i < n + 1 => AllOfNormalized(payload, Obj(m), i))
  }

  /** A schema with `allOf` sends the payload through all branches, whatever else it says. */
  lemma AllOfComesFirst(m: Entries, payload: Json) returns (steps: seq<Json>)
    requires "allOf" in m && m["allOf"].Arr?
    ensures IsChain(m, steps) && steps[0] == payload && steps[|steps| - 1] == Normalized(payload, Obj(m))
  {
    var branches := m["allOf"].items;
    steps := Chain(m, payload, |branches|);
    forall i | 0 <= i < |branches|
      ensures steps[i + 1] ==
        if branches[i].Obj? then Normalized(steps[i], Obj(MergeSchemaBranch(m, branches[i].entries, "allOf"))) else steps[i]
    {
      if branches[i].Obj? {
        assert IsBranch(Obj(m), "allOf", i);
      }
    }
  }

  lemma AllOfWithoutBranches(m: Entries, payload: Json)
    requires "allOf" in m && !m["allOf"].Arr?
    ensures Normalized(payload, Obj(m)) == payload
  {
  }

  /** Without `allOf`, `oneOf` decides, and `anyOf` only without `oneOf`: the result is what the first branch
      with the fewest errors makes of the payload. */
  lemma VariantComesNext(m: Entries, keyword: string, payload: Json)
    requires "allOf" !in m && keyword in m && (keyword == "oneOf" || (keyword == "anyOf" && "oneOf" !in m))
    ensures (forall i :: !IsBranch(Obj(m), keyword, i)) ==> Normalized(payload, Obj(m)) == payload
    ensures (exists i :: IsBranch(Obj(m), keyword, i)) ==>
      exists best: nat :: FitsFirstBest(payload, Obj(m), keyword, best)
        && Normalized(payload, Obj(m)) == Normalized(payload, Merged(Obj(m), keyword, best))
  {
    BestPayloadIsFirstFewest(payload, Obj(m), keyword);
    assert Normalized(payload, Obj(m)) == BestPayload(payload, Obj(m), keyword);
  }
}
