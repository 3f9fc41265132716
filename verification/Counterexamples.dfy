/** Where a valid payload is pruned all the same: why the schemas of ValidPayloads are
    restricted to `allOf` and to keywords that come with their type. */
module Counterexamples {
  import opened Json
  import opened Validation
  import opened Branches
  import opened Payloads
  import opened Lenient
  import opened Variants

  /** Describes an object whose optional property `x` is one of the single string `a`. */
  ghost function Describes(x: string, a: string): Entries {
    map["type" := Str("object"),
        "properties" := Obj(map[x := Obj(map["type" := Str("string"), "enum" := Arr([Str(a)])])])]
  }

  ghost function EmptyAt(x: string): Json {
    Obj(map[x := Str("")])
  }

  lemma DescribesPrunes(x: string, a: string)
    requires a != ""
    ensures Normalized(EmptyAt(x), Obj(Describes(x, a))) == Obj(map[])
    ensures Valid(Obj(Describes(x, a)), Obj(map[]))
  {
    var m := Describes(x, a);
    var property := PropertySchema(m, x);
    assert KindOf(m) == ObjectKind;
    assert property.Obj? && property.entries == map["type" := Str("string"), "enum" := Arr([Str(a)])];
    assert property.entries["enum"].items == [Str(a)];
    assert RequiredNames(Null) == {};
    assert Drops(m, x, Str(""));
    assert EntriesNormalized(EmptyAt(x).entries, Obj(m)) == map[];
  }

  /** Two schemas around a branch whose merge is the branch itself, or adds the type to it. */
  lemma MergedIsBranch(m: Entries, b: Entries, keyword: string)
    requires "properties" !in m && "required" !in b && keyword != "properties"
    requires "properties" in b ==> b["properties"].Obj?
    ensures MergeSchemaBranch(m, b, keyword) == (m - {keyword}) + b
  {
    var none: Entries := map[];
    if "properties" in b {
      assert none + b["properties"].entries == b["properties"].entries;
    }
  }

  ghost function OneOf(a: Entries, b: Json): Json {
    Obj(map["oneOf" := Arr([Obj(a), b])])
  }

  lemma OneOfAccepts(a: Entries, b: Json, payload: Json)
    requires Valid(b, payload)
    ensures Valid(OneOf(a, b), payload)
  {
    var branches := Arr([Obj(a), b]);
    assert Valid(branches.items[1], payload);
    assert ValidForSome(branches, payload);
    assert KindOf(OneOf(a, b).entries) == Unchecked;
  }

  lemma DescribesWins(x: string, a: string, schema: Json)
    requires a != "" && schema == OneOf(Describes(x, a), Null)
    ensures IsBranch(schema, "oneOf", 0) && Merged(schema, "oneOf", 0) == Obj(Describes(x, a))
    ensures FirstAccepting(EmptyAt(x), schema, "oneOf", 0) && SimpleUpTo(schema, "oneOf", 0)
  {
    DescribesAccepts(x, a);
    MergedIsBranch(schema.entries, Describes(x, a), "oneOf");
    assert (schema.entries - {"oneOf"}) + Describes(x, a) == Describes(x, a);
  }

  lemma DescribesAccepts(x: string, a: string)
    requires a != ""
    ensures CombinerFree(Obj(Describes(x, a))) && Accepts(Obj(Describes(x, a)), EmptyAt(x))
  {
    DescribesPrunes(x, a);
    NormalizeThenValidate(EmptyAt(x), Obj(Describes(x, a)));
  }

  /** Valid by the branch that accepts everything, pruned by the branch before it. */
  lemma OneOfPrunesValidPayload(x: string, a: string)
    requires a != ""
    ensures Valid(OneOf(Describes(x, a), Null), EmptyAt(x))
    ensures Normalized(EmptyAt(x), OneOf(Describes(x, a), Null)) == Obj(map[])
  {
    var schema := OneOf(Describes(x, a), Null);
    DescribesPrunes(x, a);
    OneOfAccepts(Describes(x, a), Null, EmptyAt(x));
    DescribesWins(x, a, schema);
    FirstAcceptingWins(EmptyAt(x), schema, "oneOf", 0);
  }

  ghost function Untyped(x: string, a: string): Entries {
    Describes(x, a) - {"type"}
  }

  ghost function AroundUntyped(x: string, a: string): Json {
    Obj(map["type" := Str("object"), "allOf" := Arr([Obj(Untyped(x, a))])])
  }

  lemma OnlyBranch(payload: Json, schema: Json, merged: Json)
    requires IsBranch(schema, "allOf", 0) && |AsItems(schema.entries["allOf"])| == 1
    requires Merged(schema, "allOf", 0) == merged
    ensures Normalized(payload, schema) == Normalized(payload, merged)
  {
    assert AllOfNormalized(payload, schema, 0) == payload;
    assert AllOfNormalized(payload, schema, 1) == Normalized(payload, merged);
  }

  lemma UntypedAccepts(x: string, a: string)
    ensures Valid(AroundUntyped(x, a), EmptyAt(x))
  {
    var around := AroundUntyped(x, a);
    assert KindOf(around.entries) == ObjectKind;
    assert RequiredNames(Null) == {};
    assert ValidObject(around, EmptyAt(x));
    assert KindOf(Untyped(x, a)) == Unchecked;
    assert Valid(Obj(Untyped(x, a)), EmptyAt(x));
    assert ValidForAll(around.entries["allOf"], EmptyAt(x));
  }

  lemma UntypedNormalizes(x: string, a: string)
    ensures Normalized(EmptyAt(x), AroundUntyped(x, a)) == Normalized(EmptyAt(x), Obj(Describes(x, a)))
  {
    var m := AroundUntyped(x, a).entries;
    MergedIsBranch(m, Untyped(x, a), "allOf");
    assert (m - {"allOf"}) + Untyped(x, a) == Describes(x, a);
    OnlyBranch(EmptyAt(x), AroundUntyped(x, a), Obj(Describes(x, a)));
  }

  /** The branch alone checks nothing, having no type; merged with the type around it, it prunes. */
  lemma UntypedBranchPrunesValidPayload(x: string, a: string)
    requires a != ""
    ensures Valid(AroundUntyped(x, a), EmptyAt(x))
    ensures Normalized(EmptyAt(x), AroundUntyped(x, a)) == Obj(map[])
  {
    UntypedAccepts(x, a);
    DescribesPrunes(x, a);
    UntypedNormalizes(x, a);
  }
}
