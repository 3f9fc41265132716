/** What normalizing a payload may do to it: only take away empty strings. */
module Pruning {
  import opened Json
  import opened Validation
  import opened Payloads

  /** `after` is `before` without some object entries, each of which was the empty string:
      no key is added, array lengths and leaves are kept. */
  ghost predicate Pruned(before: Json, after: Json)
    decreases before
  {
    match before
    case Obj(m) =>
      && after.Obj? && after.entries.Keys <= m.Keys
      && forall key :: key in m ==> if key in after.entries then Pruned(m[key], after.entries[key]) else m[key] == Str("")
    case Arr(items) =>
      && after.Arr? && |after.items| == |items|
      && forall i :: 0 <= i < |items| ==> Pruned(items[i], after.items[i])
    case _ => after == before
  }

  lemma {:induction false} PrunedReflexive(j: Json)
    ensures Pruned(j, j)
  {
    match j
    case Obj(m) => forall key | key in m ensures Pruned(m[key], m[key]) { PrunedReflexive(m[key]); }
    case Arr(items) => forall i | 0 <= i < |items| ensures Pruned(items[i], items[i]) { PrunedReflexive(items[i]); }
    case _ =>
  }

  /** Prunings compose. */
  lemma {:induction false} PrunedTransitive(a: Json, b: Json, c: Json)
    requires Pruned(a, b) && Pruned(b, c)
    ensures Pruned(a, c)
    decreases a
  {
    match a
    case Obj(m) =>
      forall key | key in m
        ensures if key in c.entries then Pruned(m[key], c.entries[key]) else m[key] == Str("")
      {
        if key in c.entries {
          PrunedTransitive(m[key], b.entries[key], c.entries[key]);
        }
      }
    case Arr(items) =>
      forall i | 0 <= i < |items| ensures Pruned(items[i], c.items[i]) {
        PrunedTransitive(items[i], b.items[i], c.items[i]);
      }
    case _ =>
  }

  /** Whatever the schema, normalization only prunes. */
  lemma {:induction false} NormalizationPrunes(payload: Json, schema: Json)
    ensures Pruned(payload, Normalized(payload, schema))
    decreases Size(schema), 4
  {
    PrunedReflexive(payload);
    if schema.Obj? {
      if "allOf" in schema.entries {
        AllOfPrunes(payload, schema, |AsItems(schema.entries["allOf"])|);
      } else if "oneOf" in schema.entries {
        VariantPrunes(payload, schema, "oneOf");
      } else if "anyOf" in schema.entries {
        VariantPrunes(payload, schema, "anyOf");
      } else {
        KindPrunes(payload, schema, KindOf(schema.entries));
      }
    }
  }

  lemma {:induction false} AllOfPrunes(payload: Json, schema: Json, n: nat)
    requires schema.Obj? && "allOf" in schema.entries && n <= |AsItems(schema.entries["allOf"])|
    ensures Pruned(payload, AllOfNormalized(payload, schema, n))
    decreases Size(schema), 3, n
  {
    if n == 0 {
      PrunedReflexive(payload);
    } else {
      var before := AllOfNormalized(payload, schema, n - 1);
      AllOfPrunes(payload, schema, n - 1);
      if IsBranch(schema, "allOf", n - 1) {
        var merged := Merged(schema, "allOf", n - 1);
        NormalizationPrunes(before, merged);
        PrunedTransitive(payload, before, Normalized(before, merged));
      }
    }
  }

  lemma {:induction false} VariantPrunes(payload: Json, schema: Json, keyword: string)
    requires schema.Obj? && keyword in schema.entries
    ensures Pruned(payload, BestPayload(payload, schema, keyword))
    decreases Size(schema), 3
  {
    var scores := Misfits(payload, schema, keyword);
    var best := FirstFewest(scores);
    if best == -1 {
      PrunedReflexive(payload);
    } else {
      assert IsBranch(schema, keyword, best);
      NormalizationPrunes(payload, Merged(schema, keyword, best));
    }
  }

  lemma {:induction false} KindPrunes(payload: Json, schema: Json, kind: Kind)
    requires schema.Obj?
    ensures Pruned(payload, KindNormalized(payload, schema, kind))
    decreases Size(schema), 3
  {
    PrunedReflexive(payload);
    if kind == ObjectKind && payload.Obj? {
      var after := EntriesNormalized(payload.entries, schema);
      forall key | key in payload.entries
        ensures if key in after then Pruned(payload.entries[key], after[key]) else payload.entries[key] == Str("")
      {
        EntryPrunes(payload.entries[key], schema, key);
      }
    } else if kind == ArrayKind && payload.Arr? {
      var after := ItemsNormalized(payload.items, schema);
      forall i | 0 <= i < |payload.items| ensures Pruned(payload.items[i], after[i]) {
        if "items" in schema.entries {
          EntryLighter(map[], schema.entries);
          NormalizationPrunes(payload.items[i], schema.entries["items"]);
        } else {
          PrunedReflexive(payload.items[i]);
        }
      }
    }
  }

  lemma {:induction false} EntryPrunes(value: Json, schema: Json, key: string)
    requires schema.Obj?
    ensures Pruned(value, EntryNormalized(value, schema, key))
    decreases Size(schema), 1
  {
    if PropertySchema(schema.entries, key).Obj? {
      PropertySmaller(schema.entries, key);
      NormalizationPrunes(value, PropertySchema(schema.entries, key));
    } else {
      PrunedReflexive(value);
    }
  }

  /** No object entry, at any depth, is the empty string. */
  ghost predicate NothingToPrune(j: Json) {
    match j
    case Obj(m) => forall key :: key in m ==> m[key] != Str("") && NothingToPrune(m[key])
    case Arr(items) => forall i :: 0 <= i < |items| ==> NothingToPrune(items[i])
    case _ => true
  }

  lemma {:induction false} PrunedToItself(before: Json, after: Json)
    requires Pruned(before, after) && NothingToPrune(before)
    ensures after == before
    decreases before
  {
    match before
    case Obj(m) =>
      forall key | key in m ensures key in after.entries && after.entries[key] == m[key] {
        PrunedToItself(m[key], after.entries[key]);
      }
      assert after.entries == m;
    case Arr(items) =>
      forall i | 0 <= i < |items| ensures after.items[i] == items[i] {
        PrunedToItself(items[i], after.items[i]);
      }
      assert after.items == items;
    case _ =>
  }

  /** A payload without empty-string entries is left alone by every schema, `oneOf` and
      `anyOf` included. */
  lemma PayloadWithoutEmptyStringsIsKept(payload: Json, schema: Json)
    requires NothingToPrune(payload)
    ensures Normalized(payload, schema) == payload
  {
    NormalizationPrunes(payload, schema);
    PrunedToItself(payload, Normalized(payload, schema));
  }
}
