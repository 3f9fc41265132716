/** When inlining preserves the meaning of an enum: exactly when it leaves the printed texts as they were. */
module Enums {
  import opened Wrappers
  import opened Text
  import opened Json
  import opened Pointers
  import opened Resolver
  import opened Validation
  import opened Inlining

  /** A schema with the enum `e` whose other enums keep their texts. */
  ghost predicate Carries(spec: Entries, m: Entries, e: Json) {
    && "enum" in m && m["enum"] == e
    && forall k :: k in m && k != "enum" ==> PlainEnums(spec, m[k])
  }

  /** Whatever schema the enum stands in, on demand and inlined the same errors are reported. */
  ghost predicate SameEverywhere(spec: Entries, e: Json, w: map<string, nat>) {
    forall m, r, payload, path :: Carries(spec, m, e) && Resolves(spec, Obj(m), w, r) ==>
      RefErrors(spec, Obj(m), payload, path, w) == Errors(r, payload, path)
  }

  lemma KeptTextsSuffice(spec: Entries, e: Json, w: map<string, nat>, re: Json)
    requires e.Arr? && Resolves(spec, e, w, re) && PlainTargets(spec, w)
    requires Texts(AsItems(re)) == Texts(e.items)
    ensures SameEverywhere(spec, e, w)
  {
    forall v, r | Resolves(spec, e, v, r) ensures Texts(AsItems(r)) == Texts(AsItems(e)) {
      WeightsDoNotMatter(spec, e, v, w);
    }
    forall m, r, payload, path | Carries(spec, m, e) && Resolves(spec, Obj(m), w, r)
      ensures RefErrors(spec, Obj(m), payload, path, w) == Errors(r, payload, path)
    {
      assert PlainEnums(spec, Obj(m));
      InliningKeepsErrors(spec, Obj(m), w, r, payload, path);
    }
  }

  /** The schema that is nothing but the enum: on demand and inlined it accepts what either list contains. */
  lemma EnumAsSchema(spec: Entries, e: Json, w: map<string, nat>, re: Json, payload: Json) returns (m: Entries, r: Json)
    requires e.Arr? && re.Arr? && Resolves(spec, e, w, re)
    ensures Carries(spec, m, e) && Resolves(spec, Obj(m), w, r)
    ensures RefErrors(spec, Obj(m), payload, [], w) == multiset{} <==> EnumContains(e.items, payload)
    ensures Errors(r, payload, []) == multiset{} <==> EnumContains(re.items, payload)
  {
    m := map["enum" := e];
    OneEntryResolves(spec, "enum", e, w, re);
    EnumAloneOnDemand(spec, m, e.items, w, payload);
    r := EnumInlined(re, payload);
  }

  lemma EnumInlined(re: Json, payload: Json) returns (r: Json)
    requires re.Arr?
    ensures r == Obj(map["enum" := re]) && (Errors(r, payload, []) == multiset{} <==> EnumContains(re.items, payload))
  {
    r := Obj(map["enum" := re]);
    EnumAlone(r.entries, re.items, payload);
    NoErrorsMeansValid(r, payload, []);
  }

  lemma Differs(spec: Entries, e: Json, w: map<string, nat>, m: Entries, r: Json, payload: Json)
    requires Carries(spec, m, e) && Resolves(spec, Obj(m), w, r)
    requires RefErrors(spec, Obj(m), payload, [], w) == multiset{} <==> Errors(r, payload, []) != multiset{}
    ensures !SameEverywhere(spec, e, w)
  {
  }

  /** A payload whose text only one of the two lists has tells the two schemas apart that are nothing but
      this enum. */
  lemma ChangedTextShows(spec: Entries, e: Json, w: map<string, nat>, re: Json, payload: Json)
    requires e.Arr? && re.Arr? && Resolves(spec, e, w, re)
    requires EnumContains(re.items, payload) <==> !EnumContains(e.items, payload)
    ensures !SameEverywhere(spec, e, w)
  {
    var m, r := EnumAsSchema(spec, e, w, re, payload);
    Differs(spec, e, w, m, r, payload);
  }

  lemma TellsApart(a: seq<Json>, b: seq<Json>) returns (payload: Json)
    requires Texts(a) != Texts(b)
    ensures EnumContains(a, payload) <==> !EnumContains(b, payload)
  {
    var text :| text in Texts(a) <==> text !in Texts(b);
    payload := Str(text);
    assert Show(payload) == text;
  }

  /** An enum means the same inlined as it stands, in every schema it may stand in, exactly when resolving
      it leaves the set of its printed texts as it was. */
  lemma InliningEnumsExactly(spec: Entries, e: Json, w: map<string, nat>, re: Json)
    requires e.Arr? && Resolves(spec, e, w, re) && PlainTargets(spec, w)
    ensures Texts(AsItems(re)) == Texts(e.items) <==> SameEverywhere(spec, e, w)
  {
    if Texts(AsItems(re)) == Texts(e.items) {
      KeptTextsSuffice(spec, e, w, re);
    } else {
      ResolvedKind(spec, e, w);
      var payload := TellsApart(re.items, e.items);
      ChangedTextShows(spec, e, w, re, payload);
    }
  }

  /** An enum without references keeps its texts. */
  lemma RefFreeKeepsTexts(spec: Entries, e: Json)
    requires RefFree(e)
    ensures SameTexts(spec, e)
  {
    forall w, r | Resolves(spec, e, w, r) ensures Texts(AsItems(r)) == Texts(AsItems(e)) {
      RefFreeIsFixed(spec, e, w);
    }
  }

  /* ---- An enum that inlining changes ---- */

  ghost function RefTo(ref: string): Json {
    Obj(map["$ref" := Str(ref)])
  }

  ghost function EnumOf(member: Json): Json {
    Obj(map["enum" := Arr([member])])
  }

  lemma ShowsOneEntry(m: Entries, key: string, value: string)
    requires m == map[key := Str(value)]
    ensures Show(Obj(m)) == "map[" + (key + ":" + value) + "]"
  {
    var keys := SortedKeys(m.Keys);
    assert key in keys && |m.Keys| == 1;
    assert keys == [key];
  }

  lemma EmptyTarget(spec: Entries, key: string, ref: string, w: map<string, nat>)
    requires ref == Pointer([key]) && spec == map[key := Obj(map[])] && w == map[ref := 1]
    ensures Lookup(spec, ref) == Found(Obj(map[])) && Weighted(spec, w)
  {
    assert Walk(Obj(spec), [key]) == Walk(spec[key], [key][1..]);
    ExistingPathResolves(spec, [key], Obj(map[]));
  }

  lemma MemberIsRewritten(spec: Entries, ref: string, w: map<string, nat>)
    requires Weighted(spec, w) && ref in w && Lookup(spec, ref) == Found(Obj(map[]))
    ensures Resolves(spec, RefTo(ref), w, Obj(map[]))
  {
    var member := map["$ref" := Str(ref)];
    assert IsRef(member) && Overlay(map[], member) == map[];
    assert RefFree(Obj(map[]));
    RefFreeIsFixed(spec, Obj(map[]), w);
    assert Covered(w.Keys, Obj(member));
  }

  lemma OneItemResolves(spec: Entries, item: Json, w: map<string, nat>, r: Json)
    requires Resolves(spec, item, w, r)
    ensures Resolves(spec, Arr([item]), w, Arr([r]))
  {
    var results := ResolveItems(spec, [item], w);
    assert results[0] == Some(r);
    assert seq(|results|, i requires 0 <= i < |results| => results[i].value) == [r] by {
      assert |results| == 1;
    }
    assert AllItems(results) == Some(Arr([r]));
  }

  lemma OneEntryResolves(spec: Entries, key: string, value: Json, w: map<string, nat>, r: Json)
    requires Resolves(spec, value, w, r) && key != "$ref"
    ensures Resolves(spec, Obj(map[key := value]), w, Obj(map[key := r]))
  {
    var m := map[key := value];
    assert Get(m, "$ref") == Null;
    var results := ResolveEntries(spec, m, w);
    assert results == map[key := Some(r)];
    assert (map k | k in results :: results[k].value) == map[key := r];
  }

  /** A schema that is nothing but an enum, and what inlining makes of it, compare texts. */
  lemma EnumAlone(m: Entries, items: seq<Json>, payload: Json)
    requires m == map["enum" := Arr(items)]
    ensures Valid(Obj(m), payload) <==> EnumContains(items, payload)
  {
    assert Get(m, "type") == Get(m, "allOf") == Get(m, "oneOf") == Get(m, "anyOf") == Null;
    assert ValidKind(Obj(m), Unchecked, payload);
  }

  lemma EnumAloneOnDemand(spec: Entries, m: Entries, items: seq<Json>, w: map<string, nat>, payload: Json)
    requires m == map["enum" := Arr(items)] && Ready(spec, Obj(m), w)
    ensures RefErrors(spec, Obj(m), payload, [], w) == multiset{} <==> EnumContains(items, payload)
  {
    assert Get(m, "$ref") == Get(m, "type") == Get(m, "allOf") == Get(m, "oneOf") == Get(m, "anyOf") == Null;
    if EnumContains(items, payload) {
      assert RefTypeErrors(spec, m, Unchecked, payload, [], w) == multiset{};
    } else {
      assert Error([], NotInEnum) in RefErrors(spec, Obj(m), payload, [], w);
    }
  }

  lemma OnlyMember(member: Json, payload: Json)
    ensures EnumContains([member], payload) <==> Show(member) == Show(payload)
  {
    assert [member][0] == member;
  }

  lemma EnumIsRewritten(spec: Entries, key: string, ref: string, w: map<string, nat>)
    requires ref == Pointer([key]) && spec == map[key := Obj(map[])] && w == map[ref := 1]
    ensures Resolves(spec, EnumOf(RefTo(ref)), w, EnumOf(Obj(map[])))
  {
    EmptyTarget(spec, key, ref, w);
    MemberIsRewritten(spec, ref, w);
    OneItemResolves(spec, RefTo(ref), w, Obj(map[]));
    OneEntryResolves(spec, "enum", Arr([RefTo(ref)]), w, Arr([Obj(map[])]));
  }

  /** Inlining turns this member into an empty object, and a text that prints like it is accepted that
      was not before. */
  lemma EnumOfReferences(spec: Entries, key: string, ref: string, w: map<string, nat>, payload: Json)
    requires ref == Pointer([key]) && spec == map[key := Obj(map[])] && w == map[ref := 1]
    requires payload == Str("map[]")
    ensures Ready(spec, EnumOf(RefTo(ref)), w) && ResolveSchema(spec, EnumOf(RefTo(ref)), w).Some?
    ensures Valid(ResolveSchema(spec, EnumOf(RefTo(ref)), w).value, payload)
    ensures RefErrors(spec, EnumOf(RefTo(ref)), payload, [], w) != multiset{}
  {
    EnumIsRewritten(spec, key, ref, w);
    AcceptsEmptyMap(payload);
    ShowsOneEntry(map["$ref" := Str(ref)], "$ref", ref);
    OnlyMember(RefTo(ref), payload);
    EnumAloneOnDemand(spec, EnumOf(RefTo(ref)).entries, [RefTo(ref)], w, payload);
  }

  lemma AcceptsEmptyMap(payload: Json)
    requires payload == Str("map[]")
    ensures Valid(EnumOf(Obj(map[])), payload)
  {
    assert SortedKeys({}) == [] && Show(Obj(map[])) == "map[]";
    OnlyMember(Obj(map[]), payload);
    EnumAlone(EnumOf(Obj(map[])).entries, [Obj(map[])], payload);
  }
}
