/** Adjusting a payload to known quirks before it is validated: empty strings are dropped where
    an optional enum does not list them, in every place the schema describes. */
module Payloads {
  import opened Json
  import opened Validation
  import opened Branches
  import opened Validator

  predicate ShouldDropEmptyOptionalEnumValue(key: string, value: Json, propertySchema: Entries, required: set<string>) {
    && key !in required && value == Str("")
    && Get(propertySchema, "type") == Str("string")
    && Get(propertySchema, "enum").Arr?
    && Str("") !in propertySchema["enum"].items
  }

  /** The schema of a property, None-like Null when the schema says nothing usable about it. */
  function PropertySchema(m: Entries, key: string): (property: Json)
    ensures property.Obj? || property == Null
  {
    var properties := AsEntries(Get(m, "properties"));
    if key in properties && properties[key].Obj? then properties[key] else Null
  }

  predicate Drops(m: Entries, key: string, value: Json) {
    var property := PropertySchema(m, key);
    property.Obj? && ShouldDropEmptyOptionalEnumValue(key, value, property.entries, RequiredNames(Get(m, "required")))
  }

  lemma PropertySmaller(m: Entries, key: string)
    requires PropertySchema(m, key).Obj?
    ensures Size(PropertySchema(m, key)) < Size(Obj(m))
  {
    EntryLighter(map[], m);
    EntryLighter(map[], m["properties"].entries);
  }

  /* ---- What normalization computes ---- */

  ghost function Normalized(payload: Json, schema: Json): Json
    decreases Size(schema), 4
  {
    if !schema.Obj? then payload
    else if "allOf" in schema.entries then AllOfNormalized(payload, schema, |AsItems(schema.entries["allOf"])|)
    else if "oneOf" in schema.entries then BestPayload(payload, schema, "oneOf")
    else if "anyOf" in schema.entries then BestPayload(payload, schema, "anyOf")
    else KindNormalized(payload, schema, KindOf(schema.entries))
  }

  ghost function KindNormalized(payload: Json, schema: Json, kind: Kind): Json
    requires schema.Obj?
    decreases Size(schema), 3
  {
    if kind == ObjectKind && payload.Obj? then Obj(EntriesNormalized(payload.entries, schema))
    else if kind == ArrayKind && payload.Arr? then Arr(ItemsNormalized(payload.items, schema))
    else payload
  }

  ghost function EntriesNormalized(payload: Entries, schema: Json): (entries: Entries)
    requires schema.Obj?
    decreases Size(schema), 2
  {
    map key | key in payload && !Drops(schema.entries, key, payload[key]) :: EntryNormalized(payload[key], schema, key)
  }

  ghost function EntryNormalized(value: Json, schema: Json, key: string): Json
    requires schema.Obj?
    decreases Size(schema), 1
  {
    if PropertySchema(schema.entries, key).Obj? then
      PropertySmaller(schema.entries, key);
      Normalized(value, PropertySchema(schema.entries, key))
    else value
  }

  ghost function ItemsNormalized(payload: seq<Json>, schema: Json): (items: seq<Json>)
    requires schema.Obj?
    decreases Size(schema), 2
  {
    EntryLighter(map[], schema.entries);
    seq(|payload|, i requires 0 <= i < |payload| =>
      if "items" in schema.entries then Normalized(payload[i], schema.entries["items"]) else payload[i])
  }

  ghost predicate IsBranch(schema: Json, keyword: string, i: int) {
    && schema.Obj? && keyword in schema.entries
    && 0 <= i < |AsItems(schema.entries[keyword])| && schema.entries[keyword].items[i].Obj?
  }

  /** The schema that branch `i` stands for: the branch merged into what surrounds it. */
  ghost function Merged(schema: Json, keyword: string, i: nat): (merged: Json)
    requires IsBranch(schema, keyword, i)
    ensures merged.Obj? && Size(merged) < Size(schema)
  {
    MergedIsSmaller(schema.entries, keyword, i);
    Obj(MergeSchemaBranch(schema.entries, schema.entries[keyword].items[i].entries, keyword))
  }

  /** The first `n` branches applied one after the other. */
  ghost function AllOfNormalized(payload: Json, schema: Json, n: nat): Json
    requires schema.Obj? && "allOf" in schema.entries && n <= |AsItems(schema.entries["allOf"])|
    decreases Size(schema), 3, n
  {
    if n == 0 then payload
    else
      var before := AllOfNormalized(payload, schema, n - 1);
      if IsBranch(schema, "allOf", n - 1) then Normalized(before, Merged(schema, "allOf", n - 1)) else before
  }

  ghost function Candidate(payload: Json, schema: Json, keyword: string, i: nat): Json
    requires IsBranch(schema, keyword, i)
    decreases Size(schema), 0
  {
    Normalized(payload, Merged(schema, keyword, i))
  }

  /** How many errors the candidate of branch `i` is left with. */
  ghost function Misfit(payload: Json, schema: Json, keyword: string, i: nat): nat
    requires IsBranch(schema, keyword, i)
    decreases Size(schema), 1
  {
    |Errors(Merged(schema, keyword, i), Candidate(payload, schema, keyword, i), [])|
  }

  /** The misfit of every branch, -1 for entries that are not branches. */
  ghost function Misfits(payload: Json, schema: Json, keyword: string): (scores: seq<int>)
    requires schema.Obj? && keyword in schema.entries
    decreases Size(schema), 2
  {
    seq(|AsItems(schema.entries[keyword])|, i requires 0 <= i < |AsItems(schema.entries[keyword])| =>
      if IsBranch(schema, keyword, i) then Misfit(payload, schema, keyword, i) else -1)
  }

  ghost function BestPayload(payload: Json, schema: Json, keyword: string): Json
    requires schema.Obj? && keyword in schema.entries
    decreases Size(schema), 3
  {
    var best := FirstFewest(Misfits(payload, schema, keyword));
    if best == -1 then payload else Candidate(payload, schema, keyword, best)
  }

  /** The first position of the smallest score, negative scores apart; -1 when there is none. */
  ghost function FirstFewest(scores: seq<int>): (best: int)
    ensures best == -1 || (0 <= best < |scores| && scores[best] >= 0)
  {
    if scores == [] then -1
    else
      var last := |scores| - 1;
      var best := FirstFewest(scores[..last]);
      if scores[last] >= 0 && (best == -1 || scores[last] < scores[best]) then last else best
  }

  lemma {:induction false} FirstFewestIs(scores: seq<int>)
    ensures var best := FirstFewest(scores);
            if best == -1 then forall i :: 0 <= i < |scores| ==> scores[i] < 0
            else forall i :: 0 <= i < |scores| && scores[i] >= 0 ==>
              scores[best] <= scores[i] && (i < best ==> scores[best] < scores[i])
  {
    if scores != [] {
      FirstFewestIs(scores[..|scores| - 1]);
      forall i | 0 <= i < |scores| - 1 ensures scores[i] == scores[..|scores| - 1][i] {
      }
    }
  }

  /** Once a score is 0 the later ones need not be looked at. */
  lemma {:induction false} ZeroStays(scores: seq<int>, n: nat)
    requires n <= |scores| && FirstFewest(scores[..n]) != -1 && scores[FirstFewest(scores[..n])] == 0
    ensures FirstFewest(scores) == FirstFewest(scores[..n])
  {
    if n < |scores| {
      var front := scores[..|scores| - 1];
      assert front[..n] == scores[..n];
      ZeroStays(front, n);
    } else {
      assert scores[..n] == scores;
    }
  }

  /** How many errors the payload, adjusted to a schema, is left with. */
  ghost function ErrorsLeft(payload: Json, schema: Json): nat {
    |Errors(schema, Normalized(payload, schema), [])|
  }

  /** Branch `best` leaves no more errors than any branch, and fewer than every earlier one. */
  ghost predicate FitsFirstBest(payload: Json, schema: Json, keyword: string, best: nat) {
    && IsBranch(schema, keyword, best)
    && forall i: nat :: IsBranch(schema, keyword, i) ==>
         && ErrorsLeft(payload, Merged(schema, keyword, best)) <= ErrorsLeft(payload, Merged(schema, keyword, i))
         && (i < best ==> ErrorsLeft(payload, Merged(schema, keyword, best)) < ErrorsLeft(payload, Merged(schema, keyword, i)))
  }

  lemma MisfitIsErrorsLeft(payload: Json, schema: Json, keyword: string, i: nat)
    requires IsBranch(schema, keyword, i)
    ensures Misfit(payload, schema, keyword, i) == ErrorsLeft(payload, Merged(schema, keyword, i))
  {
  }

  lemma LeastMisfit(payload: Json, schema: Json, keyword: string) returns (best: int)
    requires schema.Obj? && keyword in schema.entries
    ensures best == -1 ==> (forall i :: !IsBranch(schema, keyword, i)) && BestPayload(payload, schema, keyword) == payload
    ensures best != -1 ==> IsBranch(schema, keyword, best) && BestPayload(payload, schema, keyword) == Candidate(payload, schema, keyword, best)
    ensures best != -1 ==> forall i: nat :: IsBranch(schema, keyword, i) ==>
      && Misfit(payload, schema, keyword, best) <= Misfit(payload, schema, keyword, i)
      && (i < best ==> Misfit(payload, schema, keyword, best) < Misfit(payload, schema, keyword, i))
  {
    var scores := Misfits(payload, schema, keyword);
    best := FirstFewest(scores);
    FirstFewestIs(scores);
    forall i: nat | IsBranch(schema, keyword, i)
      ensures best != -1 && scores[best] <= Misfit(payload, schema, keyword, i)
      ensures i < best ==> scores[best] < Misfit(payload, schema, keyword, i)
    {
      assert scores[i] == Misfit(payload, schema, keyword, i);
    }
  }

  /** The chosen payload is what the first branch with the fewest errors makes of it; without any branch the
      payload stays as it is. */
  lemma BestPayloadIsFirstFewest(payload: Json, schema: Json, keyword: string)
    requires schema.Obj? && keyword in schema.entries
    ensures (forall i :: !IsBranch(schema, keyword, i)) ==> BestPayload(payload, schema, keyword) == payload
    ensures (exists i :: IsBranch(schema, keyword, i)) ==>
      exists best: nat :: FitsFirstBest(payload, schema, keyword, best)
        && BestPayload(payload, schema, keyword) == Normalized(payload, Merged(schema, keyword, best))
  {
    var best := LeastMisfit(payload, schema, keyword);
    if best != -1 {
      forall i: nat | IsBranch(schema, keyword, i)
        ensures Misfit(payload, schema, keyword, i) == ErrorsLeft(payload, Merged(schema, keyword, i))
      {
        MisfitIsErrorsLeft(payload, schema, keyword, i);
      }
      assert FitsFirstBest(payload, schema, keyword, best);
      assert BestPayload(payload, schema, keyword) == Normalized(payload, Merged(schema, keyword, best));
    }
  }

  /* ---- The code that computes it ---- */

  method NormalizePayloadForSchema(payload: Json, schema: Json) returns (r: Json)
    ensures r == Normalized(payload, schema)
    decreases Size(schema), 4
  {
    if !schema.Obj? {
      return payload;
    }
    if "allOf" in schema.entries {
      r := NormalizeAllOfPayload(payload, schema);
    } else if "oneOf" in schema.entries {
      r := NormalizeVariantPayload(payload, schema, "oneOf");
    } else if "anyOf" in schema.entries {
      r := NormalizeVariantPayload(payload, schema, "anyOf");
    } else {
      r := NormalizeByKind(payload, schema, KindOf(schema.entries));
    }
  }

  method NormalizeByKind(payload: Json, schema: Json, kind: Kind) returns (r: Json)
    requires schema.Obj?
    ensures r == KindNormalized(payload, schema, kind)
    decreases Size(schema), 3
  {
    if kind == ObjectKind && payload.Obj? {
      var entries := NormalizeEntries(payload.entries, schema);
      r := Obj(entries);
    } else if kind == ArrayKind && payload.Arr? {
      var items := NormalizeItems(payload.items, schema);
      r := Arr(items);
    } else {
      r := payload;
    }
  }

  /** The copy while these keys are still to be met. */
  ghost function EntriesSoFar(payload: Entries, schema: Json, waiting: set<string>): (entries: Entries)
    requires schema.Obj?
  {
    map key | key in payload && (key in waiting || !Drops(schema.entries, key, payload[key])) ::
      if key in waiting then payload[key] else EntryNormalized(payload[key], schema, key)
  }

  lemma EntriesStep(payload: Entries, schema: Json, waiting: set<string>, key: string)
    requires schema.Obj? && key in waiting && key in payload
    ensures var before, after := EntriesSoFar(payload, schema, waiting), EntriesSoFar(payload, schema, waiting - {key});
            after == if Drops(schema.entries, key, payload[key]) then before - {key}
                     else before[key := EntryNormalized(payload[key], schema, key)]
  {
  }

  lemma EntriesEnds(payload: Entries, schema: Json)
    requires schema.Obj?
    ensures EntriesSoFar(payload, schema, payload.Keys) == payload
    ensures EntriesSoFar(payload, schema, {}) == EntriesNormalized(payload, schema)
  {
  }

  /** Deletes from and rewrites a copy of the payload, key by key in any order. */
  method NormalizeEntries(payload: Entries, schema: Json) returns (normalized: Entries)
    requires schema.Obj?
    ensures normalized == EntriesNormalized(payload, schema)
    decreases Size(schema), 2
  {
    EntriesEnds(payload, schema);
    normalized := payload;
    var waiting := payload.Keys;
    while waiting != {}
      invariant waiting <= payload.Keys && normalized == EntriesSoFar(payload, schema, waiting)
      decreases |waiting|
    {
      var key :| key in waiting;
      EntriesStep(payload, schema, waiting, key);
      waiting := waiting - {key};
      if Drops(schema.entries, key, payload[key]) {
        normalized := normalized - {key};
      } else {
        var value := NormalizeEntry(payload[key], schema, key);
        normalized := normalized[key := value];
      }
    }
  }

  method NormalizeEntry(value: Json, schema: Json, key: string) returns (normalized: Json)
    requires schema.Obj?
    ensures normalized == EntryNormalized(value, schema, key)
    decreases Size(schema), 1
  {
    normalized := value;
    if PropertySchema(schema.entries, key).Obj? {
      PropertySmaller(schema.entries, key);
      normalized := NormalizePayloadForSchema(value, PropertySchema(schema.entries, key));
    }
  }

  method NormalizeItems(payload: seq<Json>, schema: Json) returns (normalized: seq<Json>)
    requires schema.Obj?
    ensures normalized == ItemsNormalized(payload, schema)
    decreases Size(schema), 2
  {
    normalized := [];
    EntryLighter(map[], schema.entries);
    for i := 0 to |payload|
      invariant normalized == ItemsNormalized(payload, schema)[..i]
    {
      var item := payload[i];
      if "items" in schema.entries {
        item := NormalizePayloadForSchema(payload[i], schema.entries["items"]);
      }
      assert item == ItemsNormalized(payload, schema)[i];
      normalized := normalized + [item];
    }
  }

  method NormalizeAllOfPayload(payload: Json, schema: Json) returns (normalized: Json)
    requires schema.Obj? && "allOf" in schema.entries
    ensures normalized == AllOfNormalized(payload, schema, |AsItems(schema.entries["allOf"])|)
    decreases Size(schema), 3
  {
    normalized := payload;
    var allOf := AsItems(schema.entries["allOf"]);
    for i := 0 to |allOf|
      invariant normalized == AllOfNormalized(payload, schema, i)
    {
      if allOf[i].Obj? {
        assert IsBranch(schema, "allOf", i);
        MergedIsSmaller(schema.entries, "allOf", i);
        var merged := Obj(MergeSchemaBranch(schema.entries, allOf[i].entries, "allOf"));
        normalized := NormalizePayloadForSchema(normalized, merged);
      }
    }
  }

  method NormalizeVariantPayload(payload: Json, schema: Json, keyword: string) returns (bestPayload: Json)
    requires schema.Obj? && keyword in schema.entries
    ensures bestPayload == BestPayload(payload, schema, keyword)
    decreases Size(schema), 3
  {
    var candidates := AsItems(schema.entries[keyword]);
    bestPayload := payload;
    var bestErrorCount: int := -1;
    ghost var scores := Misfits(payload, schema, keyword);
    for i := 0 to |candidates|
      invariant BestSoFar(payload, schema, keyword, i, bestPayload, bestErrorCount)
    {
      FewestStep(scores, i);
      if candidates[i].Obj? {
        var candidatePayload, errorCount := TryBranch(payload, schema, keyword, i);
        assert scores[i] == errorCount;
        if bestErrorCount == -1 || errorCount < bestErrorCount {
          bestErrorCount := errorCount;
          bestPayload := candidatePayload;
        }
        if errorCount == 0 {
          ZeroStays(scores, i + 1);
          return;
        }
      }
    }
    assert scores[..|scores|] == scores;
  }

  /** What the loop holds after `n` branches. */
  ghost predicate BestSoFar(payload: Json, schema: Json, keyword: string, n: nat, bestPayload: Json, bestErrorCount: int)
    requires schema.Obj? && keyword in schema.entries && n <= |Misfits(payload, schema, keyword)|
  {
    var scores := Misfits(payload, schema, keyword);
    var best := FirstFewest(scores[..n]);
    if best == -1 then bestErrorCount == -1 && bestPayload == payload
    else bestErrorCount == scores[best] && bestPayload == Candidate(payload, schema, keyword, best)
  }

  lemma FewestStep(scores: seq<int>, i: nat)
    requires i < |scores|
    ensures var best := FirstFewest(scores[..i]);
            FirstFewest(scores[..i + 1]) == if scores[i] >= 0 && (best == -1 || scores[i] < scores[best]) then i else best
  {
    assert scores[..i + 1][..i] == scores[..i];
  }

  method TryBranch(payload: Json, schema: Json, keyword: string, i: nat) returns (candidatePayload: Json, errorCount: nat)
    requires IsBranch(schema, keyword, i)
    ensures candidatePayload == Candidate(payload, schema, keyword, i)
    ensures errorCount == Misfit(payload, schema, keyword, i)
    decreases Size(schema), 2
  {
    MergedIsSmaller(schema.entries, keyword, i);
    var merged := Obj(MergeSchemaBranch(schema.entries, schema.entries[keyword].items[i].entries, keyword));
    candidatePayload := NormalizePayloadForSchema(payload, merged);
    var errors := new ErrorLog();
    ValidateAgainstSchema(merged, candidatePayload, [], errors);
    errorCount := |errors.items|;
    assert |errors.items| == |multiset(errors.items)|;
  }
}
