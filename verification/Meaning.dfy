/** What normalizing a schema does to its meaning: type names are read in their canonical form, and
    required names count as declared. */
module Meaning {
  import opened Json
  import opened Validation
  import opened Normalizer
  import opened Lenient

  /** The kind a schema asks for once its type name is canonical. */
  function NormalKind(m: Entries): Kind {
    match Get(m, "type")
    case Str(name) => KindOf(map["type" := Str(NormalizeTypeName(name))])
    case _ => Unchecked
  }

  /** The names that count as properties because they are required. */
  function Declared(m: Entries): set<string> {
    if Get(m, "properties").Obj? && Get(m, "required").Arr? then RequiredNames(m["required"]) else {}
  }

  /** Normalizing an enum leaves the texts of its members as they were, and a `properties` object does not
      look like a schema with properties and required names itself. */
  ghost predicate OrderlyHere(m: Entries) {
    && (Get(m, "enum").Arr? ==> Texts(NormalizeSchema(m["enum"]).items) == Texts(m["enum"].items))
    && (Get(m, "properties").Obj? ==>
          !(Get(m["properties"].entries, "properties").Obj? && Get(m["properties"].entries, "required").Arr?))
  }

  ghost predicate Orderly(schema: Json) {
    schema.Obj? ==>
      var m := schema.entries;
      && OrderlyHere(m)
      && (forall i :: 0 <= i < |AsItems(Get(m, "allOf"))| ==> Orderly(m["allOf"].items[i]))
      && (forall i :: 0 <= i < |AsItems(Get(m, "oneOf"))| ==> Orderly(m["oneOf"].items[i]))
      && (forall i :: 0 <= i < |AsItems(Get(m, "anyOf"))| ==> Orderly(m["anyOf"].items[i]))
      && (forall key :: key in AsEntries(Get(m, "properties")) ==> Orderly(m["properties"].entries[key]))
      && ("items" in m ==> Orderly(m["items"]))
  }

  /* ---- The meaning of a schema before it is normalized ---- */

  /** With `lenient`, an optional enum of strings may also be empty. */
  ghost predicate Means(schema: Json, payload: Json, lenient: bool)
    decreases schema, 3
  {
    schema.Obj? ==>
      var m := schema.entries;
      && (Get(m, "enum").Arr? ==> EnumContains(m["enum"].items, payload))
      && (Get(m, "allOf").Arr? ==> MeansAll(m["allOf"], payload, lenient))
      && (Get(m, "oneOf").Arr? ==> MeansSome(m["oneOf"], payload, lenient))
      && (Get(m, "anyOf").Arr? ==> MeansSome(m["anyOf"], payload, lenient))
      && MeansKind(schema, NormalKind(m), payload, lenient)
  }

  ghost predicate MeansAll(branches: Json, payload: Json, lenient: bool)
    requires branches.Arr?
    decreases branches, 0
  {
    forall i :: 0 <= i < |branches.items| ==> Means(branches.items[i], payload, lenient)
  }

  ghost predicate MeansSome(branches: Json, payload: Json, lenient: bool)
    requires branches.Arr?
    decreases branches, 0
  {
    exists i :: 0 <= i < |branches.items| && Means(branches.items[i], payload, lenient)
  }

  ghost predicate MeansKind(schema: Json, kind: Kind, payload: Json, lenient: bool)
    requires schema.Obj?
    decreases schema, 2
  {
    match kind
    case ObjectKind =>
      && payload.Obj?
      && RequiredNames(Get(schema.entries, "required")) <= payload.entries.Keys
      && forall key :: key in payload.entries ==> MeansProperty(schema, key, payload.entries[key], lenient)
    case ArrayKind =>
      && payload.Arr?
      && ("items" in schema.entries ==>
            forall i :: 0 <= i < |payload.items| ==> Means(schema.entries["items"], payload.items[i], lenient))
    case StringKind => payload.Str?
    case IntegerKind => payload.Num?
    case NumberKind => payload.Num?
    case BooleanKind => payload.Bool?
    case Unchecked => true
  }

  ghost predicate MeansProperty(schema: Json, key: string, value: Json, lenient: bool)
    requires schema.Obj?
    decreases schema, 1
  {
    var properties := AsEntries(Get(schema.entries, "properties"));
    if key in properties
    then Means(properties[key], value, lenient) || (lenient && MayStayEmpty(schema.entries, key, properties[key], value))
    else key in Declared(schema.entries) || !ForbidsAdditional(schema.entries)
  }

  ghost predicate MayStayEmpty(m: Entries, key: string, property: Json, value: Json) {
    && value == Str("") && key !in RequiredNames(Get(m, "required"))
    && property.Obj? && NormalKind(property.entries) == StringKind && Get(property.entries, "enum").Arr?
  }

  /* ---- What normalization leaves of each keyword ---- */

  ghost function Normal(m: Entries): Entries {
    NormalizeSchema(Obj(m)).entries
  }

  lemma NormalKeeps(m: Entries, key: string)
    requires key != "properties" && !(key == "type" && Get(m, key).Str?)
    ensures key in Normal(m) <==> key in m
    ensures key in m ==> Normal(m)[key] == NormalizeSchema(m[key])
    ensures !Get(m, key).Arr? && !Get(m, key).Obj? ==> Get(Normal(m), key) == Get(m, key)
    ensures Get(Normal(m), key).Arr? <==> Get(m, key).Arr?
  {
    KeysKept(m);
    if key in m {
      EntryOfObject(m, key);
    }
  }

  lemma KindNormalizes(m: Entries)
    ensures KindOf(Normal(m)) == NormalKind(m)
  {
    KeysKept(m);
    if Get(m, "type").Str? {
      TypeNormalizes(m);
    } else {
      NormalKeeps(m, "type");
    }
  }

  lemma TypeNormalizes(m: Entries)
    requires Get(m, "type").Str?
    ensures Get(Normal(m), "type") == Str(NormalizeTypeName(m["type"].s))
  {
    KeysKept(m);
    assert NormalizeEntries(Obj(m))["type"] == NormalizeEntry(Obj(m), "type");
  }

  lemma RequiredNormalizes(m: Entries)
    ensures RequiredNames(Get(Normal(m), "required")) == RequiredNames(Get(m, "required"))
  {
    NormalKeeps(m, "required");
    if "required" in m {
      RequiredNamesKept(m["required"]);
    }
  }

  /** A `properties` object is normalized entry by entry. */
  lemma PropertiesEntries(p: Entries)
    requires !(Get(p, "properties").Obj? && Get(p, "required").Arr?)
    ensures Normal(p).Keys == p.Keys
    ensures forall key :: key in p ==> Normal(p)[key] == NormalizeEntry(Obj(p), key)
  {
    var e := NormalizeEntries(Obj(p));
    KeysKept(p);
    if "properties" in p {
      EntryOfObject(p, "properties");
    }
    if "required" in p {
      EntryOfObject(p, "required");
    }
    assert Synthesize(e) == e;
    assert Normal(p) == e;
  }

  /** The properties afterwards: those there were, each normalized, and an empty schema for each other
      required name. */
  lemma PropertiesNormalize(m: Entries)
    requires OrderlyHere(m)
    ensures var before, after := AsEntries(Get(m, "properties")), AsEntries(Get(Normal(m), "properties"));
            && after.Keys == before.Keys + Declared(m)
            && forall key :: key in after ==>
                 after[key] == if key in before then NormalizeEntry(Obj(before), key) else Obj(map[])
  {
    KeysKept(m);
    if "properties" in m {
      EntryOfObject(m, "properties");
      if m["properties"].Obj? {
        PropertiesEntries(m["properties"].entries);
      }
    }
    if "required" in m {
      EntryOfObject(m, "required");
      RequiredNamesKept(m["required"]);
    }
  }

  /* ---- The same meaning ---- */

  /** The verdict on a normalized schema, by the strict or by the lenient validator. */
  ghost predicate Judged(schema: Json, payload: Json, lenient: bool) {
    if lenient then Accepts(schema, payload) else Valid(schema, payload)
  }

  ghost predicate JudgedKind(schema: Json, kind: Kind, payload: Json, lenient: bool)
    requires schema.Obj?
  {
    if lenient then AcceptsKind(schema, kind, payload) else ValidKind(schema, kind, payload)
  }

  ghost predicate JudgedProperty(schema: Json, key: string, value: Json, lenient: bool)
    requires schema.Obj?
  {
    if lenient then AcceptsProperty(schema, key, value) else ValidProperty(schema, key, value)
  }

  /** The lenient validator knows no combiners. */
  ghost predicate Suits(schema: Json, lenient: bool) {
    Orderly(schema) && (lenient ==> CombinerFree(NormalizeSchema(schema)))
  }

  lemma EnumNormalizes(m: Entries)
    requires OrderlyHere(m)
    ensures Get(Normal(m), "enum").Arr? <==> Get(m, "enum").Arr?
    ensures Get(m, "enum").Arr? ==> forall payload ::
      EnumContains(Normal(m)["enum"].items, payload) <==> EnumContains(m["enum"].items, payload)
  {
    NormalKeeps(m, "enum");
  }

  /** Normalizing a schema keeps its meaning, where that reads type names in their canonical form and
      takes required names for declared. */
  lemma {:induction false} NormalizeKeepsMeaning(schema: Json, payload: Json, lenient: bool)
    requires Suits(schema, lenient)
    ensures Means(schema, payload, lenient) <==> Judged(NormalizeSchema(schema), payload, lenient)
    decreases schema, 3
  {
    if schema.Obj? {
      var m := schema.entries;
      EnumNormalizes(m);
      KindNormalizes(m);
      KindKeepsMeaning(schema, NormalKind(m), payload, lenient);
      if lenient {
        NoCombiners(m);
      } else {
        BranchesKeepMeaning(m, "allOf", payload);
        BranchesKeepMeaning(m, "oneOf", payload);
        BranchesKeepMeaning(m, "anyOf", payload);
      }
    }
  }

  lemma NoCombiners(m: Entries)
    requires CombinerFreeHere(Normal(m))
    ensures "allOf" !in m && "oneOf" !in m && "anyOf" !in m
  {
    KeysKept(m);
  }

  lemma {:induction false} BranchesKeepMeaning(m: Entries, keyword: string, payload: Json)
    requires keyword != "properties" && keyword != "type"
    requires forall i :: 0 <= i < |AsItems(Get(m, keyword))| ==> Orderly(m[keyword].items[i])
    ensures Get(Normal(m), keyword).Arr? <==> Get(m, keyword).Arr?
    ensures Get(m, keyword).Arr? ==>
      && (MeansAll(m[keyword], payload, false) <==> ValidForAll(Normal(m)[keyword], payload))
      && (MeansSome(m[keyword], payload, false) <==> ValidForSome(Normal(m)[keyword], payload))
    decreases Obj(m), 2
  {
    NormalKeeps(m, keyword);
    if Get(m, keyword).Arr? {
      ListKeepsMeaning(m[keyword], payload);
    }
  }

  lemma {:induction false} ListKeepsMeaning(branches: Json, payload: Json)
    requires branches.Arr? && forall i :: 0 <= i < |branches.items| ==> Orderly(branches.items[i])
    ensures NormalizeSchema(branches).Arr?
    ensures MeansAll(branches, payload, false) <==> ValidForAll(NormalizeSchema(branches), payload)
    ensures MeansSome(branches, payload, false) <==> ValidForSome(NormalizeSchema(branches), payload)
    decreases branches
  {
    var before, after := branches.items, NormalizeItems(branches);
    forall i | 0 <= i < |before| ensures Means(before[i], payload, false) <==> Valid(after[i], payload) {
      assert after[i] == NormalizeSchema(before[i]);
      NormalizeKeepsMeaning(before[i], payload, false);
    }
    assert NormalizeSchema(branches) == Arr(after);
    if MeansSome(branches, payload, false) {
      var i :| 0 <= i < |before| && Means(before[i], payload, false);
      assert Valid(Arr(after).items[i], payload);
    }
    if ValidForSome(Arr(after), payload) {
      var i :| 0 <= i < |after| && Valid(after[i], payload);
      assert Means(branches.items[i], payload, false);
    }
  }

  lemma {:induction false} KindKeepsMeaning(schema: Json, kind: Kind, payload: Json, lenient: bool)
    requires schema.Obj? && Suits(schema, lenient)
    ensures MeansKind(schema, kind, payload, lenient) <==> JudgedKind(NormalizeSchema(schema), kind, payload, lenient)
    decreases schema, 2
  {
    var m := schema.entries;
    if kind == ObjectKind && payload.Obj? {
      assert ValidKind(NormalizeSchema(schema), kind, payload) <==> ValidObject(NormalizeSchema(schema), payload);
      RequiredNormalizes(m);
      forall key | key in payload.entries
        ensures MeansProperty(schema, key, payload.entries[key], lenient)
            <==> JudgedProperty(NormalizeSchema(schema), key, payload.entries[key], lenient)
      {
        PropertyKeepsMeaning(schema, key, payload.entries[key], lenient);
      }
    } else if kind == ArrayKind && payload.Arr? {
      assert ValidKind(NormalizeSchema(schema), kind, payload) <==> ValidArray(NormalizeSchema(schema), payload);
      NormalKeeps(m, "items");
      if "items" in m {
        forall i | 0 <= i < |payload.items|
          ensures Means(m["items"], payload.items[i], lenient) <==> Judged(Normal(m)["items"], payload.items[i], lenient)
        {
          NormalizeKeepsMeaning(m["items"], payload.items[i], lenient);
        }
      }
    } else {
      ScalarKindKeepsMeaning(schema, NormalizeSchema(schema), kind, payload, lenient);
    }
  }

  lemma ScalarKindKeepsMeaning(schema: Json, normal: Json, kind: Kind, payload: Json, lenient: bool)
    requires schema.Obj? && normal.Obj? && !(kind == ObjectKind && payload.Obj?) && !(kind == ArrayKind && payload.Arr?)
    ensures MeansKind(schema, kind, payload, lenient) <==> JudgedKind(normal, kind, payload, lenient)
  {
    assert kind == ObjectKind ==> !ValidObject(normal, payload);
    assert kind == ArrayKind ==> !ValidArray(normal, payload);
  }

  lemma PropertyJudged(normal: Entries, key: string, value: Json, lenient: bool)
    ensures var properties := AsEntries(Get(normal, "properties"));
            JudgedProperty(Obj(normal), key, value, lenient) <==>
              if key in properties
              then Judged(properties[key], value, lenient) || (lenient && MayBeEmpty(normal, key, properties[key], value))
              else !ForbidsAdditional(normal)
  {
  }

  lemma EmptyAcceptsAll(payload: Json, lenient: bool)
    ensures Judged(Obj(map[]), payload, lenient)
  {
    var none: Entries := map[];
    assert KindOf(none) == Unchecked;
    assert Get(none, "enum") == Get(none, "allOf") == Get(none, "oneOf") == Get(none, "anyOf") == Null;
    assert ValidKind(Obj(none), Unchecked, payload) && AcceptsKind(Obj(none), Unchecked, payload);
  }

  lemma {:induction false} PropertyKeepsMeaning(schema: Json, key: string, value: Json, lenient: bool)
    requires schema.Obj? && Suits(schema, lenient)
    ensures MeansProperty(schema, key, value, lenient) <==> JudgedProperty(NormalizeSchema(schema), key, value, lenient)
    decreases schema, 1
  {
    var m := schema.entries;
    var before, after := AsEntries(Get(m, "properties")), AsEntries(Get(Normal(m), "properties"));
    PropertiesNormalize(m);
    NormalKeeps(m, "additionalProperties");
    PropertyJudged(Normal(m), key, value, lenient);
    if key in before {
      if key == "type" && before[key].Str? {
        assert after[key].Str? && Means(before[key], value, lenient) && Judged(after[key], value, lenient);
      } else {
        assert after[key] == NormalizeSchema(before[key]);
        NormalizeKeepsMeaning(before[key], value, lenient);
        EmptinessNormalizes(m, key, before[key], value);
      }
    } else if key in after {
      EmptyAcceptsAll(value, lenient);
    } else {
      assert ForbidsAdditional(Normal(m)) <==> ForbidsAdditional(m);
    }
  }

  lemma EmptinessNormalizes(m: Entries, key: string, property: Json, value: Json)
    ensures MayStayEmpty(m, key, property, value) <==> MayBeEmpty(Normal(m), key, NormalizeSchema(property), value)
  {
    RequiredNormalizes(m);
    if property.Obj? {
      KindNormalizes(property.entries);
      NormalKeeps(property.entries, "enum");
    }
  }
}
