/** What the validating entry point accepts, said about the schema the caller passes: its references
    followed on demand, its type names read in their canonical form, its required names declared, and an
    optional enum of strings allowed to be empty. */
module Acceptance {
  import opened Wrappers
  import opened Json
  import opened Resolver
  import opened Validation
  import opened Normalizer
  import opened Inlining
  import opened Pruning
  import opened Lenient
  import opened Meaning
  import VP = ValidPayloads

  /* ---- The meaning of a schema with references ---- */

  ghost predicate RefMeans(spec: Entries, schema: Json, payload: Json, lenient: bool, w: map<string, nat>)
    requires Ready(spec, schema, w)
    decreases Weight(w, schema), 4
  {
    if !schema.Obj? then true
    else if IsRef(schema.entries) then RefMeans(spec, Followed(spec, schema.entries, w), payload, lenient, w)
    else
      var m := schema.entries;
      && (Get(m, "enum").Arr? ==> EnumContains(m["enum"].items, payload))
      && RefMeansBranches(spec, m, "allOf", true, payload, lenient, w)
      && RefMeansBranches(spec, m, "oneOf", false, payload, lenient, w)
      && RefMeansBranches(spec, m, "anyOf", false, payload, lenient, w)
      && RefMeansKind(spec, m, NormalKind(m), payload, lenient, w)
  }

  /** All branches of a combiner, or some of them. */
  ghost predicate RefMeansBranches(spec: Entries, m: Entries, keyword: string, all: bool, payload: Json, lenient: bool, w: map<string, nat>)
    requires Ready(spec, Obj(m), w)
    decreases Weight(w, Obj(m)), 0
  {
    EntryLighter(w, m);
    Get(m, keyword).Arr? ==> RefMeansList(spec, m[keyword].items, all, payload, lenient, w)
  }

  ghost predicate RefMeansList(spec: Entries, branches: seq<Json>, all: bool, payload: Json, lenient: bool, w: map<string, nat>)
    requires Ready(spec, Arr(branches), w)
    decreases Weight(w, Arr(branches)), 5
  {
    ItemLighter(w, branches);
    if all then forall i :: 0 <= i < |branches| ==> RefMeans(spec, branches[i], payload, lenient, w)
    else exists i :: 0 <= i < |branches| && RefMeans(spec, branches[i], payload, lenient, w)
  }

  ghost predicate RefMeansKind(spec: Entries, m: Entries, kind: Kind, payload: Json, lenient: bool, w: map<string, nat>)
    requires Ready(spec, Obj(m), w)
    decreases Weight(w, Obj(m)), 3
  {
    match kind
    case ObjectKind =>
      && payload.Obj?
      && RequiredNames(Get(m, "required")) <= payload.entries.Keys
      && forall key :: key in payload.entries ==> RefMeansProperty(spec, m, key, payload.entries[key], lenient, w)
    case ArrayKind => payload.Arr? && forall i :: 0 <= i < |payload.items| ==> RefMeansItem(spec, m, payload.items[i], lenient, w)
    case StringKind => payload.Str?
    case IntegerKind => payload.Num?
    case NumberKind => payload.Num?
    case BooleanKind => payload.Bool?
    case Unchecked => true
  }

  ghost predicate RefMeansItem(spec: Entries, m: Entries, item: Json, lenient: bool, w: map<string, nat>)
    requires Ready(spec, Obj(m), w)
    decreases Weight(w, Obj(m)), 0
  {
    EntryLighter(w, m);
    "items" in m ==> RefMeans(spec, m["items"], item, lenient, w)
  }

  /** Required names count as declared where `properties`, possibly by reference, is an object. */
  ghost function RefDeclared(spec: Entries, m: Entries, w: map<string, nat>): set<string>
    requires Ready(spec, Obj(m), w)
  {
    if "properties" in m && Get(m, "required").Arr? then
      EntryLighter(w, m);
      if Deref(spec, m["properties"], w).Obj? then RequiredNames(m["required"]) else {}
    else {}
  }

  ghost predicate RefMeansProperty(spec: Entries, m: Entries, key: string, value: Json, lenient: bool, w: map<string, nat>)
    requires Ready(spec, Obj(m), w)
    decreases Weight(w, Obj(m)), 0
  {
    var properties := RefProperties(spec, m, w);
    if key in properties
    then RefMeans(spec, properties[key], value, lenient, w) || (lenient && RefMayStayEmpty(spec, m, key, properties[key], value, w))
    else key in RefDeclared(spec, m, w) || !ForbidsAdditional(m)
  }

  ghost predicate RefMayStayEmpty(spec: Entries, m: Entries, key: string, property: Json, value: Json, w: map<string, nat>)
    requires Ready(spec, property, w)
  {
    var target := Deref(spec, property, w);
    && value == Str("") && key !in RequiredNames(Get(m, "required"))
    && target.Obj? && NormalKind(target.entries) == StringKind && Get(target.entries, "enum").Arr?
  }

  /* ---- The same meaning after inlining ---- */

  lemma NormalKindResolves(spec: Entries, m: Entries, w: map<string, nat>, r: Json)
    requires Resolves(spec, Obj(m), w, r) && !IsRef(m) && r.Obj?
    ensures NormalKind(m) == NormalKind(r.entries)
  {
    ScalarKeywordsResolve(spec, m, w, r, "type");
  }

  lemma {:induction false} InliningKeepsMeaning(spec: Entries, s: Json, w: map<string, nat>, r: Json, payload: Json, lenient: bool)
    requires Resolves(spec, s, w, r) && PlainSchema(spec, s, w)
    ensures RefMeans(spec, s, payload, lenient, w) <==> Means(r, payload, lenient)
    decreases Weight(w, s), 4
  {
    if !s.Obj? {
      ResolvedKind(spec, s, w);
    } else if IsRef(s.entries) {
      FollowedResolves(spec, s.entries, w, r);
      InliningKeepsMeaning(spec, Followed(spec, s.entries, w), w, r, payload, lenient);
    } else {
      var m := s.entries;
      EntriesResolve(spec, m, w, r);
      InlinedParts(spec, m, w, r, payload, lenient);
    }
  }

  lemma {:induction false} InlinedParts(spec: Entries, m: Entries, w: map<string, nat>, r: Json, payload: Json, lenient: bool)
    requires Resolves(spec, Obj(m), w, r) && !IsRef(m) && r.Obj? && Plain(spec, Obj(m), w)
    ensures RefMeans(spec, Obj(m), payload, lenient, w) <==> Means(r, payload, lenient)
    decreases Weight(w, Obj(m)), 3, 1
  {
    EnumResolves(spec, m, w, r);
    InlinedBranches(spec, m, "allOf", true, w, r, payload, lenient);
    InlinedBranches(spec, m, "oneOf", false, w, r, payload, lenient);
    InlinedBranches(spec, m, "anyOf", false, w, r, payload, lenient);
    NormalKindResolves(spec, m, w, r);
    InlinedKind(spec, m, NormalKind(m), w, r, payload, lenient);
    MeansByParts(r.entries, payload, lenient);
  }

  lemma MeansByParts(m: Entries, payload: Json, lenient: bool)
    ensures Means(Obj(m), payload, lenient) <==>
            && (Get(m, "enum").Arr? ==> EnumContains(m["enum"].items, payload))
            && MeansBranches(m, "allOf", true, payload, lenient)
            && MeansBranches(m, "oneOf", false, payload, lenient)
            && MeansBranches(m, "anyOf", false, payload, lenient)
            && MeansKind(Obj(m), NormalKind(m), payload, lenient)
  {
  }

  ghost predicate MeansBranches(m: Entries, keyword: string, all: bool, payload: Json, lenient: bool) {
    Get(m, keyword).Arr? ==> MeansList(m[keyword], all, payload, lenient)
  }

  ghost predicate MeansList(branches: Json, all: bool, payload: Json, lenient: bool)
    requires branches.Arr?
  {
    if all then MeansAll(branches, payload, lenient) else MeansSome(branches, payload, lenient)
  }

  lemma {:induction false} InlinedBranches(spec: Entries, m: Entries, keyword: string, all: bool,
                                           w: map<string, nat>, r: Json, payload: Json, lenient: bool)
    requires Resolves(spec, Obj(m), w, r) && !IsRef(m) && r.Obj? && Plain(spec, Obj(m), w)
    requires keyword != "enum"
    ensures RefMeansBranches(spec, m, keyword, all, payload, lenient, w) <==> MeansBranches(r.entries, keyword, all, payload, lenient)
    decreases Weight(w, Obj(m)), 3, 0
  {
    ScalarKeywordsResolve(spec, m, w, r, keyword);
    EntriesResolve(spec, m, w, r);
    EntryLighter(w, m);
    if Get(m, keyword).Arr? {
      InlinedList(spec, m[keyword].items, all, w, r.entries[keyword], payload, lenient);
    }
  }

  lemma {:induction false} InlinedList(spec: Entries, branches: seq<Json>, all: bool, w: map<string, nat>, r: Json, payload: Json, lenient: bool)
    requires Resolves(spec, Arr(branches), w, r) && Plain(spec, Arr(branches), w)
    ensures r.Arr? && (RefMeansList(spec, branches, all, payload, lenient, w) <==> MeansList(r, all, payload, lenient))
    decreases Weight(w, Arr(branches)), 5
  {
    ItemsResolve(spec, branches, w, r);
    ItemLighter(w, branches);
    forall i | 0 <= i < |branches|
      ensures RefMeans(spec, branches[i], payload, lenient, w) <==> Means(r.items[i], payload, lenient)
    {
      InliningKeepsMeaning(spec, branches[i], w, r.items[i], payload, lenient);
    }
  }

  lemma {:induction false} InlinedKind(spec: Entries, m: Entries, kind: Kind, w: map<string, nat>, r: Json, payload: Json, lenient: bool)
    requires Resolves(spec, Obj(m), w, r) && !IsRef(m) && r.Obj? && Plain(spec, Obj(m), w)
    ensures RefMeansKind(spec, m, kind, payload, lenient, w) <==> MeansKind(r, kind, payload, lenient)
    decreases Weight(w, Obj(m)), 3, 0
  {
    if kind == ObjectKind && payload.Obj? {
      RequiredResolves(spec, m, w, r);
      forall key | key in payload.entries
        ensures RefMeansProperty(spec, m, key, payload.entries[key], lenient, w) <==> MeansProperty(r, key, payload.entries[key], lenient)
      {
        InlinedProperty(spec, m, key, w, r, payload.entries[key], lenient);
      }
    } else if kind == ArrayKind && payload.Arr? {
      EntriesResolve(spec, m, w, r);
      EntryLighter(w, m);
      if "items" in m {
        forall i | 0 <= i < |payload.items|
          ensures RefMeansItem(spec, m, payload.items[i], lenient, w) <==> Means(r.entries["items"], payload.items[i], lenient)
        {
          InliningKeepsMeaning(spec, m["items"], w, r.entries["items"], payload.items[i], lenient);
        }
      }
    }
  }

  lemma DeclaredResolves(spec: Entries, m: Entries, w: map<string, nat>, r: Json)
    requires Resolves(spec, Obj(m), w, r) && !IsRef(m) && r.Obj? && Plain(spec, Obj(m), w)
    ensures RefDeclared(spec, m, w) == Declared(r.entries)
  {
    EntriesResolve(spec, m, w, r);
    EntryLighter(w, m);
    RequiredResolves(spec, m, w, r);
    ScalarKeywordsResolve(spec, m, w, r, "required");
    if "properties" in m {
      DerefResolves(spec, m["properties"], w, r.entries["properties"]);
      ResolvedKind(spec, Deref(spec, m["properties"], w), w);
    }
  }

  lemma EmptinessResolves(spec: Entries, m: Entries, key: string, w: map<string, nat>, r: Json, property: Json, resolved: Json, value: Json)
    requires Resolves(spec, Obj(m), w, r) && !IsRef(m) && r.Obj?
    requires Resolves(spec, property, w, resolved) && PlainSchema(spec, property, w)
    ensures RefMayStayEmpty(spec, m, key, property, value, w) <==> MayStayEmpty(r.entries, key, resolved, value)
  {
    RequiredResolves(spec, m, w, r);
    var target := Deref(spec, property, w);
    if property.Obj? {
      DerefResolves(spec, property, w, resolved);
    }
    DerefStops(spec, property, w);
    ResolvedKind(spec, target, w);
    if target.Obj? {
      NormalKindResolves(spec, target.entries, w, resolved);
      ScalarKeywordsResolve(spec, target.entries, w, resolved, "enum");
    }
  }

  lemma {:induction false} InlinedProperty(spec: Entries, m: Entries, key: string, w: map<string, nat>, r: Json, value: Json, lenient: bool)
    requires Resolves(spec, Obj(m), w, r) && !IsRef(m) && r.Obj? && Plain(spec, Obj(m), w)
    ensures RefMeansProperty(spec, m, key, value, lenient, w) <==> MeansProperty(r, key, value, lenient)
    decreases Weight(w, Obj(m)), 2
  {
    PropertiesResolve(spec, m, w, r);
    ScalarKeywordsResolve(spec, m, w, r, "additionalProperties");
    DeclaredResolves(spec, m, w, r);
    var properties := RefProperties(spec, m, w);
    if key in properties {
      var resolved := r.entries["properties"].entries[key];
      InliningKeepsMeaning(spec, properties[key], w, resolved, value, lenient);
      EmptinessResolves(spec, m, key, w, r, properties[key], resolved, value);
    }
  }

  /* ---- The entry point ---- */

  /** The schema prepares, and is one whose meaning the lemmas above speak about. */
  ghost predicate Prepares(spec: Entries, schema: Json, w: map<string, nat>, prepared: Json) {
    && Ready(spec, schema, w) && Plain(spec, schema, w)
    && PrepareSchema(spec, schema, w) == Some(prepared)
    && Orderly(ResolveSchema(spec, schema, w).value)
  }

  lemma PreparedMeans(spec: Entries, schema: Json, w: map<string, nat>, prepared: Json, payload: Json, lenient: bool)
    requires Prepares(spec, schema, w, prepared) && (lenient ==> CombinerFree(prepared))
    ensures RefMeans(spec, schema, payload, lenient, w) <==> Judged(prepared, payload, lenient)
  {
    var resolved := ResolveSchema(spec, schema, w).value;
    InliningKeepsMeaning(spec, schema, w, resolved, payload, lenient);
    NormalizeKeepsMeaning(resolved, payload, lenient);
  }

  /** The entry point, on the caller's own schema. Without combiners it accepts exactly the payloads the
      schema means when an optional enum may be empty. With combiners it accepts a payload that has no
      empty-string entries exactly when the schema means it; and it accepts every payload the schema
      means when `allOf` is the only combiner and keywords come with their type. */
  lemma WhatIsAccepted(spec: Entries, schema: Json, w: map<string, nat>, prepared: Json, payload: Json, verdict: Verdict)
    requires Prepares(spec, schema, w, prepared) && IsVerdict(Some(prepared), payload, verdict)
    ensures CombinerFree(prepared) ==> (verdict.Accepted? <==> RefMeans(spec, schema, payload, true, w))
    ensures NothingToPrune(payload) ==> (verdict.Accepted? <==> RefMeans(spec, schema, payload, false, w))
    ensures VP.Typed(prepared) && RefMeans(spec, schema, payload, false, w) ==> verdict.Accepted?
  {
    PreparedMeans(spec, schema, w, prepared, payload, false);
    if CombinerFree(prepared) {
      PreparedMeans(spec, schema, w, prepared, payload, true);
      NormalizeThenValidate(payload, prepared);
    }
    if NothingToPrune(payload) {
      PayloadWithoutEmptyStringsIsKept(payload, prepared);
    }
    if VP.Typed(prepared) && Valid(prepared, payload) {
      VP.ValidIsKept(payload, prepared);
    }
  }
}
