/** A validator that never inlines anything: it follows each `$ref` when it meets it, the keys
    beside the reference overriding the target's. Inlining first and validating afterwards
    reports exactly the same errors. */
module Inlining {
  import opened Wrappers
  import opened Folds
  import opened Json
  import opened Pointers
  import opened Resolver
  import opened Validation

  /** Inlining leaves the texts of an enum as they were. */
  ghost predicate SameTexts(spec: Entries, enum: Json) {
    forall w, r :: Resolves(spec, enum, w, r) ==> Texts(AsItems(r)) == Texts(AsItems(enum))
  }

  /** Inlining changes the texts of no enum. */
  ghost predicate PlainEnums(spec: Entries, j: Json)
    decreases j
  {
    match j
    case Arr(items) => forall i :: 0 <= i < |items| ==> PlainEnums(spec, items[i])
    case Obj(m) => forall k :: k in m ==> if k == "enum" && m[k].Arr? then SameTexts(spec, m[k]) else PlainEnums(spec, m[k])
    case _ => true
  }

  ghost predicate PlainTargets(spec: Entries, w: map<string, nat>) {
    forall r :: r in w && Lookup(spec, r).Found? ==> PlainEnums(spec, Lookup(spec, r).value)
  }

  ghost predicate Ready(spec: Entries, schema: Json, w: map<string, nat>) {
    Weighted(spec, w) && Covered(w.Keys, schema)
  }

  /** Where following one reference leads. */
  ghost function Followed(spec: Entries, m: Entries, w: map<string, nat>): (next: Json)
    requires Ready(spec, Obj(m), w) && IsRef(m)
    ensures Ready(spec, next, w) && Weight(w, next) < Weight(w, Obj(m))
  {
    match Lookup(spec, m["$ref"].s)
    case Found(target) =>
      OverlayCovered(spec, w, m, target);
      OverlayLighter(spec, w, m, target);
      Obj(Overlay(AsEntries(target), m))
    case _ =>
      EntryLighter(w, m);
      m["$ref"]
  }

  /** Follows references until something else is reached. */
  ghost function Deref(spec: Entries, j: Json, w: map<string, nat>): (r: Json)
    requires Ready(spec, j, w)
    ensures Ready(spec, r, w) && Weight(w, r) <= Weight(w, j)
    decreases Weight(w, j)
  {
    if j.Obj? && IsRef(j.entries) then Deref(spec, Followed(spec, j.entries, w), w) else j
  }

  ghost function RefErrors(spec: Entries, schema: Json, payload: Json, path: Path, w: map<string, nat>): multiset<Error>
    requires Ready(spec, schema, w)
    decreases Weight(w, schema), 4
  {
    if !schema.Obj? then multiset{}
    else if IsRef(schema.entries) then RefErrors(spec, Followed(spec, schema.entries, w), payload, path, w)
    else if Get(schema.entries, "enum").Arr? && !EnumContains(schema.entries["enum"].items, payload)
    then multiset{Error(path, NotInEnum)}
    else
      RefAllOfErrors(spec, schema.entries, payload, path, w)
      + RefVariantErrors(spec, schema.entries, "oneOf", NoOneOfBranch, payload, path, w)
      + RefVariantErrors(spec, schema.entries, "anyOf", NoAnyOfBranch, payload, path, w)
      + RefTypeErrors(spec, schema.entries, KindOf(schema.entries), payload, path, w)
  }

  ghost function RefBranchErrors(spec: Entries, branches: seq<Json>, payload: Json, path: Path, w: map<string, nat>):
    (bags: seq<multiset<Error>>)
    requires Ready(spec, Arr(branches), w)
    decreases Weight(w, Arr(branches)), 5
  {
    ItemLighter(w, branches);
    seq(|branches|, i requires 0 <= i < |branches| => RefErrors(spec, branches[i], payload, path, w))
  }

  ghost function RefAllOfErrors(spec: Entries, m: Entries, payload: Json, path: Path, w: map<string, nat>): multiset<Error>
    requires Ready(spec, Obj(m), w)
    decreases Weight(w, Obj(m)), 0
  {
    EntryLighter(w, m);
    if Get(m, "allOf").Arr? then Pile(RefBranchErrors(spec, m["allOf"].items, payload, path, w)) else multiset{}
  }

  ghost function RefVariantErrors(spec: Entries, m: Entries, keyword: string, failure: Failure,
                                  payload: Json, path: Path, w: map<string, nat>): multiset<Error>
    requires Ready(spec, Obj(m), w)
    decreases Weight(w, Obj(m)), 0
  {
    EntryLighter(w, m);
    if Get(m, keyword).Arr? && multiset{} !in RefBranchErrors(spec, m[keyword].items, payload, path, w)
    then multiset{Error(path, failure)}
    else multiset{}
  }

  ghost function RefTypeErrors(spec: Entries, m: Entries, kind: Kind, payload: Json, path: Path, w: map<string, nat>):
    multiset<Error>
    requires Ready(spec, Obj(m), w)
    decreases Weight(w, Obj(m)), 3, 1
  {
    match kind
    case ObjectKind =>
      if !payload.Obj? then multiset{Error(path, ExpectedObject)}
      else MissingErrors(RequiredNames(Get(m, "required")), payload.entries, path)
           + Bag(RefPropertyErrors(spec, m, payload.entries, path, w))
    case ArrayKind =>
      if !payload.Arr? then multiset{Error(path, ExpectedArray)}
      else Pile(RefItemErrors(spec, m, payload.items, path, w))
    case StringKind => if payload.Str? then multiset{} else multiset{Error(path, ExpectedString)}
    case IntegerKind => if payload.Num? then multiset{} else multiset{Error(path, ExpectedInteger)}
    case NumberKind => if payload.Num? then multiset{} else multiset{Error(path, ExpectedNumber)}
    case BooleanKind => if payload.Bool? then multiset{} else multiset{Error(path, ExpectedBoolean)}
    case Unchecked => multiset{}
  }

  /** The property schemas; `properties` may itself be a reference. */
  ghost function RefProperties(spec: Entries, m: Entries, w: map<string, nat>): (properties: Entries)
    requires Ready(spec, Obj(m), w)
    ensures forall k :: k in properties ==>
      Ready(spec, properties[k], w) && Weight(w, properties[k]) < Weight(w, Obj(m))
  {
    if "properties" !in m then map[] else
      EntryLighter(w, m);
      var properties := Deref(spec, m["properties"], w);
      EntryLighter(w, AsEntries(properties));
      AsEntries(properties)
  }

  ghost function RefPropertyError(spec: Entries, m: Entries, key: string, value: Json, path: Path, w: map<string, nat>):
    multiset<Error>
    requires Ready(spec, Obj(m), w)
    decreases Weight(w, Obj(m)), 0
  {
    var properties := RefProperties(spec, m, w);
    if key in properties then RefErrors(spec, properties[key], value, path + [Key(key)], w)
    else if ForbidsAdditional(m) then multiset{Error(path, UnexpectedProperty(key))}
    else multiset{}
  }

  ghost function RefPropertyErrors(spec: Entries, m: Entries, payload: Entries, path: Path, w: map<string, nat>):
    (bags: map<string, multiset<Error>>)
    requires Ready(spec, Obj(m), w)
    decreases Weight(w, Obj(m)), 1
  {
    map key | key in payload :: RefPropertyError(spec, m, key, payload[key], path, w)
  }

  ghost function RefItemErrors(spec: Entries, m: Entries, payload: seq<Json>, path: Path, w: map<string, nat>):
    (bags: seq<multiset<Error>>)
    requires Ready(spec, Obj(m), w)
    decreases Weight(w, Obj(m)), 0
  {
    EntryLighter(w, m);
    seq(|payload|, i requires 0 <= i < |payload| =>
      if "items" in m then RefErrors(spec, m["items"], payload[i], path + [Index(i)], w) else multiset{})
  }

  /* ---- The same errors, component by component ---- */

  /** `r` is what `s` resolves to. */
  ghost predicate Resolves(spec: Entries, s: Json, w: map<string, nat>, r: Json) {
    Ready(spec, s, w) && ResolveSchema(spec, s, w) == Some(r)
  }

  ghost predicate Plain(spec: Entries, s: Json, w: map<string, nat>) {
    PlainEnums(spec, s) && PlainTargets(spec, w)
  }

  /** Only objects have enums to speak of. */
  ghost predicate PlainSchema(spec: Entries, s: Json, w: map<string, nat>) {
    s.Obj? ==> Plain(spec, s, w)
  }

  lemma FollowedResolves(spec: Entries, m: Entries, w: map<string, nat>, r: Json)
    requires Resolves(spec, Obj(m), w, r) && IsRef(m) && Plain(spec, Obj(m), w)
    ensures Resolves(spec, Followed(spec, m, w), w, r) && Plain(spec, Followed(spec, m, w), w)
  {
    var target := Lookup(spec, m["$ref"].s).value;
    var base := AsEntries(target);
    assert PlainEnums(spec, target);
    OverlayPlain(spec, base, m);
  }

  lemma OverlayPlain(spec: Entries, base: Entries, m: Entries)
    requires PlainEnums(spec, Obj(base)) && PlainEnums(spec, Obj(m))
    ensures PlainEnums(spec, Obj(Overlay(base, m)))
  {
  }

  lemma {:induction false} DerefResolves(spec: Entries, s: Json, w: map<string, nat>, r: Json)
    requires Resolves(spec, s, w, r) && Plain(spec, s, w)
    ensures Resolves(spec, Deref(spec, s, w), w, r) && Plain(spec, Deref(spec, s, w), w)
    decreases Weight(w, s)
  {
    if s.Obj? && IsRef(s.entries) {
      FollowedResolves(spec, s.entries, w, r);
      DerefResolves(spec, Followed(spec, s.entries, w), w, r);
    }
  }

  /** What resolution does to an object that is no reference: every entry, in place. */
  lemma EntriesResolve(spec: Entries, m: Entries, w: map<string, nat>, r: Json)
    requires Resolves(spec, Obj(m), w, r) && !IsRef(m)
    ensures r.Obj? && r.entries.Keys == m.Keys
    ensures forall k :: k in m ==> Resolves(spec, m[k], w, r.entries[k])
  {
    var results := ResolveEntries(spec, m, w);
    forall k | k in m ensures Resolves(spec, m[k], w, r.entries[k]) {
      assert results[k] == ResolveSchema(spec, m[k], w);
    }
  }

  lemma ItemsResolve(spec: Entries, items: seq<Json>, w: map<string, nat>, r: Json)
    requires Resolves(spec, Arr(items), w, r)
    ensures r.Arr? && |r.items| == |items|
    ensures forall i :: 0 <= i < |items| ==> Resolves(spec, items[i], w, r.items[i])
  {
    var results := ResolveItems(spec, items, w);
    forall i | 0 <= i < |items| ensures Resolves(spec, items[i], w, r.items[i]) {
      assert results[i] == ResolveSchema(spec, items[i], w);
    }
  }

  /** Keywords that are not schemas read the same before and after. */
  lemma ScalarKeywordsResolve(spec: Entries, m: Entries, w: map<string, nat>, r: Json, key: string)
    requires Resolves(spec, Obj(m), w, r) && !IsRef(m) && r.Obj?
    ensures Get(m, key).Arr? <==> Get(r.entries, key).Arr?
    ensures Get(m, key).Obj? <==> Get(r.entries, key).Obj?
    ensures !Get(m, key).Arr? && !Get(m, key).Obj? ==> Get(m, key) == Get(r.entries, key)
  {
    EntriesResolve(spec, m, w, r);
    if key in m {
      ResolvedKind(spec, m[key], w);
    }
  }

  lemma RequiredResolves(spec: Entries, m: Entries, w: map<string, nat>, r: Json)
    requires Resolves(spec, Obj(m), w, r) && !IsRef(m) && r.Obj?
    ensures RequiredNames(Get(m, "required")) == RequiredNames(Get(r.entries, "required"))
  {
    ScalarKeywordsResolve(spec, m, w, r, "required");
    EntriesResolve(spec, m, w, r);
    if Get(m, "required").Arr? {
      var before, after := m["required"].items, r.entries["required"].items;
      ItemsResolve(spec, before, w, r.entries["required"]);
      forall i | 0 <= i < |before| ensures before[i].Str? || after[i].Str? ==> before[i] == after[i] {
        ResolvedKind(spec, before[i], w);
      }
      forall name | name in RequiredNames(m["required"]) ensures name in RequiredNames(r.entries["required"]) {
        var i :| 0 <= i < |before| && before[i] == Str(name);
        assert after[i] in after;
      }
      forall name | name in RequiredNames(r.entries["required"]) ensures name in RequiredNames(m["required"]) {
        var i :| 0 <= i < |after| && after[i] == Str(name);
        assert before[i] in before;
      }
    }
  }

  /** Inlining preserves meaning: for every payload the inlined schema reports exactly the errors
      that following each reference on demand reports. */
  lemma {:induction false} InliningKeepsErrors(spec: Entries, s: Json, w: map<string, nat>, r: Json, payload: Json, path: Path)
    requires Resolves(spec, s, w, r) && PlainSchema(spec, s, w)
    ensures RefErrors(spec, s, payload, path, w) == Errors(r, payload, path)
    decreases Weight(w, s), 4
  {
    if !s.Obj? {
      ResolvedKind(spec, s, w);
    } else if IsRef(s.entries) {
      FollowedResolves(spec, s.entries, w, r);
      InliningKeepsErrors(spec, Followed(spec, s.entries, w), w, r, payload, path);
    } else {
      EntriesResolve(spec, s.entries, w, r);
      InliningKeepsParts(spec, s.entries, w, r, payload, path);
    }
  }

  lemma {:induction false} InliningKeepsParts(spec: Entries, m: Entries, w: map<string, nat>, r: Json, payload: Json, path: Path)
    requires Resolves(spec, Obj(m), w, r) && !IsRef(m) && r.Obj? && Plain(spec, Obj(m), w)
    ensures RefErrors(spec, Obj(m), payload, path, w) == Errors(r, payload, path)
    decreases Weight(w, Obj(m)), 3, 2
  {
    EnumResolves(spec, m, w, r);
    KindResolves(spec, m, w, r);
    if Get(m, "enum").Arr? ==> EnumContains(m["enum"].items, payload) {
      InliningKeepsAllOf(spec, m, w, r, payload, path);
      InliningKeepsVariant(spec, m, "oneOf", NoOneOfBranch, w, r, payload, path);
      InliningKeepsVariant(spec, m, "anyOf", NoAnyOfBranch, w, r, payload, path);
      InliningKeepsType(spec, m, KindOf(m), w, r, payload, path);
    }
  }

  lemma EnumResolves(spec: Entries, m: Entries, w: map<string, nat>, r: Json)
    requires Resolves(spec, Obj(m), w, r) && !IsRef(m) && r.Obj? && Plain(spec, Obj(m), w)
    ensures Get(m, "enum").Arr? <==> Get(r.entries, "enum").Arr?
    ensures Get(m, "enum").Arr? ==> forall payload ::
      EnumContains(m["enum"].items, payload) <==> EnumContains(r.entries["enum"].items, payload)
  {
    ScalarKeywordsResolve(spec, m, w, r, "enum");
    EntriesResolve(spec, m, w, r);
    if Get(m, "enum").Arr? {
      assert SameTexts(spec, m["enum"]);
      assert Texts(r.entries["enum"].items) == Texts(m["enum"].items);
    }
  }

  lemma KindResolves(spec: Entries, m: Entries, w: map<string, nat>, r: Json)
    requires Resolves(spec, Obj(m), w, r) && !IsRef(m) && r.Obj?
    ensures KindOf(m) == KindOf(r.entries)
  {
    ScalarKeywordsResolve(spec, m, w, r, "type");
  }

  lemma {:induction false} InliningKeepsBranches(spec: Entries, branches: seq<Json>, w: map<string, nat>, r: Json, payload: Json, path: Path)
    requires Resolves(spec, Arr(branches), w, r) && Plain(spec, Arr(branches), w)
    ensures r.Arr? && RefBranchErrors(spec, branches, payload, path, w) == BranchErrors(r, payload, path)
    decreases Weight(w, Arr(branches)), 5
  {
    ItemsResolve(spec, branches, w, r);
    ItemLighter(w, branches);
    forall i | 0 <= i < |branches|
      ensures RefErrors(spec, branches[i], payload, path, w) == Errors(r.items[i], payload, path)
    {
      InliningKeepsErrors(spec, branches[i], w, r.items[i], payload, path);
    }
  }

  lemma {:induction false} InliningKeepsAllOf(spec: Entries, m: Entries, w: map<string, nat>, r: Json, payload: Json, path: Path)
    requires Resolves(spec, Obj(m), w, r) && !IsRef(m) && r.Obj? && Plain(spec, Obj(m), w)
    ensures RefAllOfErrors(spec, m, payload, path, w) == AllOfErrors(r, payload, path)
    decreases Weight(w, Obj(m)), 3, 1
  {
    ScalarKeywordsResolve(spec, m, w, r, "allOf");
    EntriesResolve(spec, m, w, r);
    EntryLighter(w, m);
    if Get(m, "allOf").Arr? {
      InliningKeepsBranches(spec, m["allOf"].items, w, r.entries["allOf"], payload, path);
    }
  }

  lemma {:induction false} InliningKeepsVariant(spec: Entries, m: Entries, keyword: string, failure: Failure,
                                                w: map<string, nat>, r: Json, payload: Json, path: Path)
    requires Resolves(spec, Obj(m), w, r) && !IsRef(m) && r.Obj? && Plain(spec, Obj(m), w)
    requires keyword != "enum"
    ensures RefVariantErrors(spec, m, keyword, failure, payload, path, w) == VariantErrors(r, keyword, failure, payload, path)
    decreases Weight(w, Obj(m)), 3, 1
  {
    ScalarKeywordsResolve(spec, m, w, r, keyword);
    EntriesResolve(spec, m, w, r);
    EntryLighter(w, m);
    if Get(m, keyword).Arr? {
      InliningKeepsBranches(spec, m[keyword].items, w, r.entries[keyword], payload, path);
    }
  }

  lemma {:induction false} InliningKeepsType(spec: Entries, m: Entries, kind: Kind, w: map<string, nat>, r: Json, payload: Json, path: Path)
    requires Resolves(spec, Obj(m), w, r) && !IsRef(m) && r.Obj? && Plain(spec, Obj(m), w)
    ensures RefTypeErrors(spec, m, kind, payload, path, w) == TypeErrors(r, kind, payload, path)
    decreases Weight(w, Obj(m)), 3, 1
  {
    match kind
    case ObjectKind =>
      if payload.Obj? {
        RequiredResolves(spec, m, w, r);
        InliningKeepsProperties(spec, m, w, r, payload.entries, path);
      }
    case ArrayKind =>
      if payload.Arr? {
        InliningKeepsItems(spec, m, w, r, payload.items, path);
      }
    case _ =>
  }

  lemma {:induction false} InliningKeepsProperties(spec: Entries, m: Entries, w: map<string, nat>, r: Json, payload: Entries, path: Path)
    requires Resolves(spec, Obj(m), w, r) && !IsRef(m) && r.Obj? && Plain(spec, Obj(m), w)
    ensures RefPropertyErrors(spec, m, payload, path, w) == PropertyErrors(r, payload, path)
    decreases Weight(w, Obj(m)), 3, 0
  {
    forall key | key in payload
      ensures RefPropertyError(spec, m, key, payload[key], path, w) == PropertyError(r, key, payload[key], path)
    {
      InliningKeepsProperty(spec, m, key, w, r, payload[key], path);
    }
  }

  lemma {:induction false} InliningKeepsProperty(spec: Entries, m: Entries, key: string, w: map<string, nat>, r: Json, value: Json, path: Path)
    requires Resolves(spec, Obj(m), w, r) && !IsRef(m) && r.Obj? && Plain(spec, Obj(m), w)
    ensures RefPropertyError(spec, m, key, value, path, w) == PropertyError(r, key, value, path)
    decreases Weight(w, Obj(m)), 2
  {
    PropertiesResolve(spec, m, w, r);
    ScalarKeywordsResolve(spec, m, w, r, "additionalProperties");
    var properties := RefProperties(spec, m, w);
    if key in properties {
      InliningKeepsErrors(spec, properties[key], w, r.entries["properties"].entries[key], value, path + [Key(key)]);
    }
  }

  lemma PropertiesResolve(spec: Entries, m: Entries, w: map<string, nat>, r: Json)
    requires Resolves(spec, Obj(m), w, r) && !IsRef(m) && r.Obj? && Plain(spec, Obj(m), w)
    ensures var before, after := RefProperties(spec, m, w), AsEntries(Get(r.entries, "properties"));
            before.Keys == after.Keys
            && forall k :: k in before ==> Resolves(spec, before[k], w, after[k]) && PlainSchema(spec, before[k], w)
  {
    EntriesResolve(spec, m, w, r);
    if "properties" in m {
      var resolved := r.entries["properties"];
      DerefResolves(spec, m["properties"], w, resolved);
      var properties := Deref(spec, m["properties"], w);
      DerefStops(spec, m["properties"], w);
      ResolvedKind(spec, properties, w);
      if properties.Obj? {
        EntriesResolve(spec, properties.entries, w, resolved);
      }
    }
  }

  lemma {:induction false} DerefStops(spec: Entries, j: Json, w: map<string, nat>)
    requires Ready(spec, j, w)
    ensures Deref(spec, j, w).Obj? ==> !IsRef(Deref(spec, j, w).entries)
    decreases Weight(w, j)
  {
    if j.Obj? && IsRef(j.entries) {
      DerefStops(spec, Followed(spec, j.entries, w), w);
    }
  }

  lemma {:induction false} InliningKeepsItems(spec: Entries, m: Entries, w: map<string, nat>, r: Json, payload: seq<Json>, path: Path)
    requires Resolves(spec, Obj(m), w, r) && !IsRef(m) && r.Obj? && Plain(spec, Obj(m), w)
    ensures RefItemErrors(spec, m, payload, path, w) == ItemErrors(r, payload, path)
    decreases Weight(w, Obj(m)), 2
  {
    EntriesResolve(spec, m, w, r);
    EntryLighter(w, m);
    if "items" in m {
      forall i | 0 <= i < |payload|
        ensures RefErrors(spec, m["items"], payload[i], path + [Index(i)], w)
             == Errors(r.entries["items"], payload[i], path + [Index(i)])
      {
        InliningKeepsErrors(spec, m["items"], w, r.entries["items"], payload[i], path + [Index(i)]);
      }
    }
  }

  /** For every acyclic spec in which inlining changes the texts of no enum: a schema that resolves
      accepts the same payloads inlined as when its references are followed on demand. */
  lemma InliningPreservesMeaning(spec: Entries, rank: map<string, nat>, s: Json) returns (w: map<string, nat>)
    requires Acyclic(spec, rank) && Covered(rank.Keys, s)
    requires PlainEnums(spec, s)
    requires forall r :: r in rank && Lookup(spec, r).Found? ==> PlainEnums(spec, Lookup(spec, r).value)
    ensures Ready(spec, s, w)
    ensures ResolveSchema(spec, s, w).Some? ==>
      forall payload :: Valid(ResolveSchema(spec, s, w).value, payload) <==> RefErrors(spec, s, payload, [], w) == multiset{}
  {
    w := WeightsExist(spec, rank, MaxRank(rank));
    assert w.Keys == rank.Keys;
    if ResolveSchema(spec, s, w).Some? {
      var r := ResolveSchema(spec, s, w).value;
      forall payload ensures Valid(r, payload) <==> RefErrors(spec, s, payload, [], w) == multiset{} {
        InliningKeepsErrors(spec, s, w, r, payload, []);
        NoErrorsMeansValid(r, payload, []);
      }
    }
  }
}
