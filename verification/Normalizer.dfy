/** Normalizing a schema (canonical type names, a property for every required name) and
    preparing it, which is resolving followed by normalizing. */
module Normalizer {
  import opened Wrappers
  import opened Text
  import opened Json
  import opened Resolver

  const TYPE_NAMES: map<string, string> := map[
    "array" := "array", "boolean" := "boolean", "integer" := "integer", "int64" := "integer", "long" := "integer",
    "number" := "number", "object" := "object", "string" := "string"]

  const STRING_TOKENS: seq<string> := ["enum", "country", "states", "city", "campus", "building", "floor"]

  function NormalizeTypeName(value: string): string {
    var lowered := ToLower(value);
    if lowered in TYPE_NAMES then TYPE_NAMES[lowered]
    else if exists i :: 0 <= i < |STRING_TOKENS| && Contains(lowered, STRING_TOKENS[i]) then "string"
    else value
  }

  /** A required name without a property gets an empty schema. */
  function Synthesize(m: Entries): Entries {
    if Get(m, "properties").Obj? && Get(m, "required").Arr?
    then m["properties" := Obj(m["properties"].entries + Missing(m["properties"].entries, m["required"]))]
    else m
  }

  function Missing(properties: Entries, required: Json): Entries {
    map name | name in RequiredNames(required) - properties.Keys :: Obj(map[])
  }

  function NormalizeSchema(j: Json): Json
    decreases j, 1
  {
    match j
    case Obj(m) => Obj(Synthesize(NormalizeEntries(j)))
    case Arr(items) => Arr(NormalizeItems(j))
    case _ => j
  }

  function NormalizeEntry(m: Json, key: string): Json
    requires m.Obj? && key in m.entries
    decreases m, 0, 0
  {
    var value := m.entries[key];
    if key == "type" && value.Str? then Str(NormalizeTypeName(value.s)) else NormalizeSchema(value)
  }

  function NormalizeEntries(m: Json): (entries: Entries)
    requires m.Obj?
    decreases m, 0, 1
  {
    map key | key in m.entries :: NormalizeEntry(m, key)
  }

  function NormalizeItems(j: Json): seq<Json>
    requires j.Arr?
    decreases j, 0
  {
    seq(|j.items|, i requires 0 <= i < |j.items| => NormalizeSchema(j.items[i]))
  }

  /* ---- When is a second pass without effect? ---- */

  ghost predicate Stable(j: Json) {
    NormalizeSchema(NormalizeSchema(j)) == NormalizeSchema(j)
  }

  /** The one situation a second pass repairs: a `properties` object that directly lists names
      under the key `required` and only gets its own `properties` entry synthesized. */
  ghost predicate Late(m: Entries) {
    && Get(m, "properties").Obj?
    && "properties" in RequiredNames(Get(m, "required"))
    && var p := m["properties"].entries;
    && "properties" !in p
    && RequiredNames(Get(p, "required")) != {}
  }

  ghost predicate Settled(j: Json) {
    match j
    case Arr(items) => forall i :: 0 <= i < |items| ==> Settled(items[i])
    case Obj(m) => !Late(m) && forall key :: key in m ==> (key == "type" && m[key].Str?) || Settled(m[key])
    case _ => true
  }

  lemma TypeNameIsStable(value: string)
    ensures NormalizeTypeName(NormalizeTypeName(value)) == NormalizeTypeName(value)
  {
    assert ToLower("string") == "string" && ToLower("integer") == "integer" && ToLower("array") == "array"
        && ToLower("boolean") == "boolean" && ToLower("number") == "number" && ToLower("object") == "object";
  }

  /** What becomes of a type name, its case apart: the six names stay, `int64` and `long` mean `integer`, a
      name that talks of an enum or of a place means `string`, and any other is kept as it was written. */
  lemma TypeNamesAre(value: string)
    ensures var name, lowered := NormalizeTypeName(value), ToLower(value);
            if lowered == "array" || lowered == "boolean" || lowered == "integer" || lowered == "number" || lowered == "object" || lowered == "string"
            then name == lowered
            else if lowered == "int64" || lowered == "long" then name == "integer"
            else if Contains(lowered, "enum") || Contains(lowered, "country") || Contains(lowered, "states") || Contains(lowered, "city")
              || Contains(lowered, "campus") || Contains(lowered, "building") || Contains(lowered, "floor")
            then name == "string"
            else name == value
  {
    TableIs(ToLower(value));
    TokensAre(ToLower(value));
  }

  lemma TableIs(lowered: string)
    ensures lowered in TYPE_NAMES <==>
            || lowered == "array" || lowered == "boolean" || lowered == "integer" || lowered == "number" || lowered == "object"
            || lowered == "string" || lowered == "int64" || lowered == "long"
    ensures lowered in TYPE_NAMES ==> TYPE_NAMES[lowered] == if lowered == "int64" || lowered == "long" then "integer" else lowered
  {
  }

  lemma TokensAre(lowered: string)
    ensures (exists i :: 0 <= i < |STRING_TOKENS| && Contains(lowered, STRING_TOKENS[i])) <==>
            || Contains(lowered, "enum") || Contains(lowered, "country") || Contains(lowered, "states") || Contains(lowered, "city")
            || Contains(lowered, "campus") || Contains(lowered, "building") || Contains(lowered, "floor")
  {
    assert STRING_TOKENS[0] == "enum" && STRING_TOKENS[1] == "country" && STRING_TOKENS[2] == "states"
        && STRING_TOKENS[3] == "city" && STRING_TOKENS[4] == "campus" && STRING_TOKENS[5] == "building" && STRING_TOKENS[6] == "floor";
  }

  /** What becomes of an object: no key comes or goes; its type name is mapped; every required name without a
      property gets an empty schema; all else is normalized where it stands. */
  lemma ObjectNormalizes(m: Entries, key: string)
    ensures var n := NormalizeSchema(Obj(m));
            && n.Obj? && (key in n.entries <==> key in m)
            && (key in m && key == "type" && m[key].Str? ==> n.entries[key] == Str(NormalizeTypeName(m[key].s)))
            && (key in m && key != "properties" && !(key == "type" && m[key].Str?) ==> n.entries[key] == NormalizeSchema(m[key]))
            && (key in m && key == "properties" && m[key].Obj? ==> PropertiesNormalize(m, Get(n.entries, key)))
            && (key in m && key == "properties" && !m[key].Obj? ==> n.entries[key] == NormalizeSchema(m[key]))
  {
    if key in m && !(key == "type" && m[key].Str?) {
      EntryOfObject(m, key);
    }
    if key in m && key == "type" && m[key].Str? {
      assert NormalizeEntries(Obj(m))[key] == NormalizeEntry(Obj(m), key);
    }
    if key in m && key == "properties" && m[key].Obj? {
      PropertiesAreCompleted(m);
    }
  }

  ghost predicate PropertiesNormalize(m: Entries, after: Json)
    requires "properties" in m && m["properties"].Obj?
  {
    && after.Obj?
    && var before := NormalizeSchema(m["properties"]).entries;
       forall name ::
         && (name in after.entries <==>
               name in m["properties"].entries || ("required" in m && m["required"].Arr? && Str(name) in m["required"].items))
         && (name in after.entries ==> after.entries[name] == if name in m["properties"].entries then Get(before, name) else Obj(map[]))
  }

  lemma PropertiesAreCompleted(m: Entries)
    requires "properties" in m && m["properties"].Obj?
    ensures PropertiesNormalize(m, Get(NormalizeSchema(Obj(m)).entries, "properties"))
  {
    EntryOfObject(m, "properties");
    KeysKept(m["properties"].entries);
    if "required" in m {
      EntryOfObject(m, "required");
      RequiredNamesKept(m["required"]);
      RequiredNamesAre(m["required"]);
    }
  }

  /** Arrays are normalized item by item; other values stay. */
  lemma OthersNormalize(j: Json)
    requires !j.Obj?
    ensures j.Arr? ==>
      var n := NormalizeSchema(j);
      n.Arr? && |n.items| == |j.items| && forall i :: 0 <= i < |j.items| ==> n.items[i] == NormalizeSchema(j.items[i])
    ensures !j.Arr? ==> NormalizeSchema(j) == j
  {
  }

  /** Normalizing keeps what the required names are. */
  lemma RequiredNamesKept(required: Json)
    ensures RequiredNames(NormalizeSchema(required)) == RequiredNames(required)
  {
    RequiredNamesAre(required);
    RequiredNamesAre(NormalizeSchema(required));
    if required.Arr? {
      var before, after := required.items, NormalizeItems(required);
      forall i | 0 <= i < |before| ensures forall name :: before[i] == Str(name) <==> after[i] == Str(name) {
        assert after[i] == NormalizeSchema(before[i]);
      }
      forall name ensures Str(name) in before <==> Str(name) in after {
        if Str(name) in before {
          var i :| 0 <= i < |before| && before[i] == Str(name);
          assert after[i] == Str(name);
        }
      }
    }
  }

  lemma EntryOfObject(m: Entries, key: string)
    requires key in m && !(key == "type" && m[key].Str?)
    ensures NormalizeEntries(Obj(m))[key] == NormalizeSchema(m[key])
  {
    assert NormalizeEntries(Obj(m))[key] == NormalizeEntry(Obj(m), key);
  }

  ghost predicate EntryFixed(m: Entries, key: string)
    requires key in m
  {
    NormalizeEntry(Obj(m), key) == m[key]
  }

  ghost predicate Complete(m: Entries) {
    Get(m, "properties").Obj? && Get(m, "required").Arr? ==> RequiredNames(m["required"]) <= m["properties"].entries.Keys
  }

  /** An object is a fixed point when its entries are and no property is missing. */
  lemma FixedObject(m: Entries)
    ensures NormalizeSchema(Obj(m)) == Obj(m) <==> Complete(m) && forall key :: key in m ==> EntryFixed(m, key)
  {
    var e := NormalizeEntries(Obj(m));
    if "properties" in m {
      EntryOfObject(m, "properties");
      if m["properties"].Obj? {
        KeysKept(m["properties"].entries);
      }
    }
    if "required" in m {
      EntryOfObject(m, "required");
      RequiredNamesKept(m["required"]);
    }
    if Complete(m) {
      CompleteIsSynthesized(e);
      if forall key :: key in m ==> EntryFixed(m, key) {
        assert e == m;
      }
    } else {
      assert Synthesize(e)["properties"].entries.Keys != m["properties"].entries.Keys by {
        var name :| name in RequiredNames(m["required"]) && name !in m["properties"].entries;
        assert name in Synthesize(e)["properties"].entries;
      }
    }
  }

  lemma KeysKept(m: Entries)
    ensures NormalizeSchema(Obj(m)).entries.Keys == m.Keys
  {
  }

  lemma CompleteIsSynthesized(m: Entries)
    requires Complete(m)
    ensures Synthesize(m) == m
  {
    if Get(m, "properties").Obj? && Get(m, "required").Arr? {
      var p := m["properties"].entries;
      assert Missing(p, m["required"]) == map[];
      assert p + map[] == p;
    }
  }

  /** Normalizing an already normalized object: only its own `properties` can still change. */
  lemma {:induction false} StableObject(m: Entries)
    requires forall key :: key in m && !(key == "type" && m[key].Str?) ==> (Stable(m[key]) <==> Settled(m[key]))
    ensures Stable(Obj(m)) <==> Settled(Obj(m))
  {
    var n := Synthesize(NormalizeEntries(Obj(m)));
    FixedObject(n);
    forall key | key in m
      ensures EntryFixed(n, key) <==>
        ((key == "type" && m[key].Str?) || Settled(m[key])) && (key == "properties" ==> !Late(m))
    {
      if key == "properties" {
        PropertiesEntryStable(m);
      } else {
        OtherEntryStable(m, key);
      }
    }
  }

  lemma OtherEntryStable(m: Entries, key: string)
    requires key in m && key != "properties"
    ensures EntryFixed(Synthesize(NormalizeEntries(Obj(m))), key) <==> (key == "type" && m[key].Str?) || Stable(m[key])
  {
    if key == "type" && m[key].Str? {
      TypeNameIsStable(m[key].s);
    } else {
      EntryOfObject(m, key);
    }
  }

  lemma PropertiesEntryStable(m: Entries)
    requires "properties" in m
    ensures EntryFixed(Synthesize(NormalizeEntries(Obj(m))), "properties") <==> Stable(m["properties"]) && !Late(m)
  {
    EntryOfObject(m, "properties");
    if "required" in m {
      EntryOfObject(m, "required");
      RequiredNamesKept(m["required"]);
      if m["properties"].Obj? && m["required"].Arr? {
        StableProperties(m["properties"].entries, m["required"]);
        var first := NormalizeSchema(m["properties"]).entries;
        assert Missing(first, NormalizeSchema(m["required"])) == Missing(first, m["required"]);
      }
    }
  }

  /** `properties` after one pass, with the missing names added. */
  lemma StableProperties(p: Entries, required: Json)
    ensures var first := NormalizeSchema(Obj(p)).entries;
            var filled := Obj(first + Missing(first, required));
            NormalizeSchema(filled) == filled <==>
              Stable(Obj(p))
              && !("properties" in RequiredNames(required) && "properties" !in p && RequiredNames(Get(p, "required")) != {})
  {
    var first := NormalizeSchema(Obj(p)).entries;
    var filled := first + Missing(first, required);
    KeysKept(p);
    FixedObject(first);
    FixedObject(filled);
    FilledEntries(first, required);
    FilledComplete(p, required);
  }

  lemma FilledEntries(first: Entries, required: Json)
    ensures var filled := first + Missing(first, required);
            (forall key :: key in filled ==> EntryFixed(filled, key)) <==> (forall key :: key in first ==> EntryFixed(first, key))
  {
    var filled := first + Missing(first, required);
    forall key | key in filled ensures EntryFixed(filled, key) <==> (key in first ==> EntryFixed(first, key)) {
      if key !in first {
        assert NormalizeSchema(Obj(map[])) == Obj(map[]);
      }
    }
    assert forall key :: key in first ==> key in filled;
  }

  lemma FilledComplete(p: Entries, required: Json)
    ensures var first := NormalizeSchema(Obj(p)).entries;
            Complete(first + Missing(first, required)) <==>
              !("properties" in RequiredNames(required) && "properties" !in p && RequiredNames(Get(p, "required")) != {})
  {
    KeysKept(p);
    if "required" in p {
      EntryOfObject(p, "required");
      RequiredNamesKept(p["required"]);
    }
  }

  /** A second pass changes nothing exactly when no `properties` object is in the late situation. */
  lemma {:induction false} NormalizeIsStable(j: Json)
    ensures Stable(j) <==> Settled(j)
  {
    match j
    case Obj(m) =>
      forall key | key in m && !(key == "type" && m[key].Str?) ensures Stable(m[key]) <==> Settled(m[key]) {
        NormalizeIsStable(m[key]);
      }
      StableObject(m);
    case Arr(items) =>
      forall i | 0 <= i < |items| ensures Stable(items[i]) <==> Settled(items[i]) {
        NormalizeIsStable(items[i]);
      }
      StableItems(items);
    case _ =>
  }

  lemma StableItems(items: seq<Json>)
    ensures Stable(Arr(items)) <==> forall i :: 0 <= i < |items| ==> Stable(items[i])
  {
    var once := NormalizeItems(Arr(items));
    var twice := NormalizeItems(Arr(once));
    if twice == once {
      forall i | 0 <= i < |items| ensures Stable(items[i]) {
        assert twice[i] == once[i];
      }
    }
  }

  /** A schema on which the second pass still adds a property. */
  lemma LateExample()
    ensures !Stable(Obj(map["properties" := Obj(map["required" := Arr([Str("a")])]), "required" := Arr([Str("properties")])]))
  {
    var p := map["required" := Arr([Str("a")])];
    var m := map["properties" := Obj(p), "required" := Arr([Str("properties")])];
    RequiredNamesAre(m["required"]);
    RequiredNamesAre(p["required"]);
    assert Str("properties") in m["required"].items && Str("a") in p["required"].items;
    assert "a" in RequiredNames(p["required"]);
    assert Late(m);
    NormalizeIsStable(Obj(m));
  }

  /* ---- Resolving and normalizing together ---- */

  function PrepareSchema(spec: Entries, schema: Json, ghost w: map<string, nat>): (prepared: Option<Json>)
    requires Weighted(spec, w) && Covered(w.Keys, schema)
  {
    match ResolveSchema(spec, schema, w)
    case Some(resolved) => Some(NormalizeSchema(resolved))
    case None => None
  }

  lemma {:induction false} NormalizeKeepsRefFree(j: Json)
    requires RefFree(j)
    ensures RefFree(NormalizeSchema(j))
  {
    match j
    case Obj(m) =>
      var e := NormalizeEntries(j);
      forall key | key in m ensures RefFree(e[key]) && (e[key].Str? ==> m[key].Str?) {
        if key == "type" && m[key].Str? {
          assert e[key] == NormalizeEntry(j, key);
        } else {
          EntryOfObject(m, key);
          NormalizeKeepsRefFree(m[key]);
        }
      }
    case Arr(items) =>
      var after := NormalizeItems(j);
      forall i | 0 <= i < |items| ensures RefFree(after[i]) {
        NormalizeKeepsRefFree(items[i]);
      }
    case _ =>
  }

  /** Preparing a prepared schema always succeeds; it gives the same schema exactly when the
      resolved schema has no late `properties`. */
  lemma PrepareTwice(spec: Entries, schema: Json, w: map<string, nat>)
    requires Weighted(spec, w) && Covered(w.Keys, schema)
    requires PrepareSchema(spec, schema, w).Some?
    ensures var prepared := PrepareSchema(spec, schema, w).value;
            && Covered(w.Keys, prepared)
            && PrepareSchema(spec, prepared, w).Some?
            && (PrepareSchema(spec, prepared, w).value == prepared <==> Settled(ResolveSchema(spec, schema, w).value))
  {
    var resolved := ResolveSchema(spec, schema, w).value;
    ResolvedIsRefFree(spec, schema, w);
    NormalizeKeepsRefFree(resolved);
    RefFreeIsFixed(spec, NormalizeSchema(resolved), w);
    NormalizeIsStable(resolved);
  }
}
