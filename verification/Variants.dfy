/** Exactly when `oneOf` and `anyOf` leave a payload alone: the first branch that accepts it decides. */
module Variants {
  import opened Json
  import opened Validation
  import opened Branches
  import opened Payloads
  import opened Kept
  import opened ValidPayloads
  import opened Lenient

  /** `keyword` is the combiner that normalization follows. */
  predicate Governs(m: Entries, keyword: string) {
    && keyword in m && "allOf" !in m
    && (keyword == "oneOf" || (keyword == "anyOf" && "oneOf" !in m))
  }

  ghost predicate AcceptedBy(payload: Json, schema: Json, keyword: string, i: nat) {
    IsBranch(schema, keyword, i) && Accepts(Merged(schema, keyword, i), payload)
  }

  /** The branches up to `n` have no combiners of their own, merged into what surrounds them. */
  ghost predicate SimpleUpTo(schema: Json, keyword: string, n: nat) {
    forall i: nat :: i <= n && IsBranch(schema, keyword, i) ==> CombinerFree(Merged(schema, keyword, i))
  }

  /** The first branch that accepts the payload, an empty optional enum being forgiven. */
  ghost predicate FirstAccepting(payload: Json, schema: Json, keyword: string, f: nat) {
    AcceptedBy(payload, schema, keyword, f) && forall i: nat :: i < f ==> !AcceptedBy(payload, schema, keyword, i)
  }

  /** A branch fits what it makes of the payload exactly when it accepts the payload. */
  lemma FitsWhenAccepted(payload: Json, schema: Json, keyword: string, i: nat)
    requires IsBranch(schema, keyword, i) && CombinerFree(Merged(schema, keyword, i))
    ensures Misfit(payload, schema, keyword, i) == 0 <==> AcceptedBy(payload, schema, keyword, i)
  {
    var merged := Merged(schema, keyword, i);
    NoErrorsMeansValid(merged, Normalized(payload, merged), []);
    NormalizeThenValidate(payload, merged);
  }

  lemma FirstAcceptingWins(payload: Json, schema: Json, keyword: string, f: nat)
    requires FirstAccepting(payload, schema, keyword, f) && SimpleUpTo(schema, keyword, f)
    ensures FirstFewest(Misfits(payload, schema, keyword)) == f
    ensures Governs(schema.entries, keyword) ==> Normalized(payload, schema) == Normalized(payload, Merged(schema, keyword, f))
  {
    var scores := Misfits(payload, schema, keyword);
    var best := FirstFewest(scores);
    FirstFewestIs(scores);
    FitsWhenAccepted(payload, schema, keyword, f);
    assert scores[f] == Misfit(payload, schema, keyword, f) == 0;
    assert best != -1 && scores[best] == 0;
    if best < f {
      FitsWhenAccepted(payload, schema, keyword, best);
    }
    assert BestPayload(payload, schema, keyword) == Candidate(payload, schema, keyword, f);
  }

  /** The payload is left alone exactly when the first branch that accepts it leaves it alone; for a
      branch whose keywords come with their type, exactly when it is valid for that branch. */
  lemma VariantKeepsExactly(payload: Json, schema: Json, keyword: string, f: nat)
    requires schema.Obj? && Governs(schema.entries, keyword)
    requires FirstAccepting(payload, schema, keyword, f) && SimpleUpTo(schema, keyword, f)
    ensures Normalized(payload, schema) == payload <==> Untouched(payload, Merged(schema, keyword, f))
    ensures Typed(Merged(schema, keyword, f)) ==>
      (Normalized(payload, schema) == payload <==> Valid(Merged(schema, keyword, f), payload))
  {
    var merged := Merged(schema, keyword, f);
    FirstAcceptingWins(payload, schema, keyword, f);
    KeptExactly(payload, merged);
    NormalizeThenValidate(payload, merged);
    if Typed(merged) && Valid(merged, payload) {
      ValidIsKept(payload, merged);
    }
  }

  /* ---- Valid payloads have such a branch ---- */

  lemma {:induction false} ValidIsAccepted(payload: Json, schema: Json)
    requires CombinerFree(schema) && Valid(schema, payload)
    ensures Accepts(schema, payload)
    decreases schema, 1
  {
    if schema.Obj? {
      ValidKindIsAccepted(payload, schema, KindOf(schema.entries));
    }
  }

  lemma {:induction false} ValidKindIsAccepted(payload: Json, schema: Json, kind: Kind)
    requires schema.Obj? && CombinerFree(schema) && ValidKind(schema, kind, payload)
    ensures AcceptsKind(schema, kind, payload)
    decreases schema, 0
  {
    var m := schema.entries;
    if kind == ObjectKind {
      forall key | key in payload.entries ensures AcceptsProperty(schema, key, payload.entries[key]) {
        assert ValidProperty(schema, key, payload.entries[key]);
        if key in AsEntries(Get(m, "properties")) {
          ValidIsAccepted(payload.entries[key], m["properties"].entries[key]);
        }
      }
    } else if kind == ArrayKind && "items" in m {
      forall i | 0 <= i < |payload.items| ensures Accepts(m["items"], payload.items[i]) {
        ValidIsAccepted(payload.items[i], m["items"]);
      }
    }
  }

  lemma WithoutCombiner(m: Entries, keyword: string, payload: Json)
    requires Governs(m, keyword) && Valid(Obj(m), payload)
    ensures Valid(Obj(m - {keyword}), payload)
  {
    var rest := m - {keyword};
    assert forall key :: key != keyword ==> (key in rest <==> key in m) && Get(rest, key) == Get(m, key);
    SameKeywords(m, rest, KindOf(m), payload);
  }

  /** What a schema asks of a kind of payload is in four keywords. */
  lemma SameKeywords(a: Entries, b: Entries, kind: Kind, payload: Json)
    requires Get(a, "properties") == Get(b, "properties") && Get(a, "required") == Get(b, "required")
    requires Get(a, "additionalProperties") == Get(b, "additionalProperties")
    requires ("items" in a <==> "items" in b) && Get(a, "items") == Get(b, "items")
    requires ValidKind(Obj(a), kind, payload)
    ensures ValidKind(Obj(b), kind, payload)
  {
    if kind == ObjectKind {
      forall key | key in payload.entries ensures ValidProperty(Obj(b), key, payload.entries[key]) {
        assert ValidProperty(Obj(a), key, payload.entries[key]);
      }
    }
  }

  lemma {:induction false} LeastAccepting(payload: Json, schema: Json, keyword: string, j: nat) returns (f: nat)
    requires AcceptedBy(payload, schema, keyword, j)
    ensures f <= j && FirstAccepting(payload, schema, keyword, f)
  {
    if i: nat :| i < j && AcceptedBy(payload, schema, keyword, i) {
      f := LeastAccepting(payload, schema, keyword, i);
    } else {
      f := j;
    }
  }

  /** A payload that is valid by a branch has a first branch that accepts it, and is left alone exactly
      when it is valid for that one. */
  lemma ValidVariantKeptExactly(payload: Json, schema: Json, keyword: string, j: nat) returns (f: nat)
    requires schema.Obj? && Governs(schema.entries, keyword) && IsBranch(schema, keyword, j) && SimpleUpTo(schema, keyword, j)
    requires Typed(Obj(schema.entries - {keyword})) && Typed(schema.entries[keyword].items[j])
    requires Valid(schema, payload) && Valid(schema.entries[keyword].items[j], payload)
    ensures f <= j && FirstAccepting(payload, schema, keyword, f)
    ensures Normalized(payload, schema) == payload <==> Untouched(payload, Merged(schema, keyword, f))
    ensures Typed(Merged(schema, keyword, f)) ==>
      (Normalized(payload, schema) == payload <==> Valid(Merged(schema, keyword, f), payload))
  {
    var m, b := schema.entries, schema.entries[keyword].items[j].entries;
    WithoutCombiner(m, keyword, payload);
    MergedIsValid(m - {keyword}, b, payload);
    MergedWithout(m, b, keyword);
    ValidIsAccepted(payload, Merged(schema, keyword, j));
    f := LeastAccepting(payload, schema, keyword, j);
    VariantKeepsExactly(payload, schema, keyword, f);
  }

  lemma MergedWithout(m: Entries, b: Entries, keyword: string)
    requires "allOf" !in m
    ensures MergeSchemaBranch(m, b, keyword) == MergeSchemaBranch(m - {keyword}, b, "allOf")
  {
    assert m - {keyword} - {"allOf"} == m - {keyword};
  }
}
