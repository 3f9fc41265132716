/** Exactly which payloads normalization leaves alone, for every schema. */
module Kept {
  import opened Json
  import opened Validation
  import opened Payloads
  import opened Pruning

  /** Nothing of the payload is an entry that some part of the schema drops: every `allOf` branch, merged
      into what surrounds it, is asked on its own, and of `oneOf` or `anyOf` only the branch that wins. */
  ghost predicate Untouched(payload: Json, schema: Json)
    decreases Size(schema), 2
  {
    schema.Obj? ==>
      if "allOf" in schema.entries then
        forall i: nat :: IsBranch(schema, "allOf", i) ==> Untouched(payload, Merged(schema, "allOf", i))
      else if "oneOf" in schema.entries then UntouchedByBest(payload, schema, "oneOf")
      else if "anyOf" in schema.entries then UntouchedByBest(payload, schema, "anyOf")
      else UntouchedByKind(payload, schema, KindOf(schema.entries))
  }

  ghost predicate UntouchedByBest(payload: Json, schema: Json, keyword: string)
    requires schema.Obj? && keyword in schema.entries
    decreases Size(schema), 1
  {
    var best := FirstFewest(Misfits(payload, schema, keyword));
    best == -1 || Untouched(payload, Merged(schema, keyword, best))
  }

  ghost predicate UntouchedByKind(payload: Json, schema: Json, kind: Kind)
    requires schema.Obj?
    decreases Size(schema), 1
  {
    EntryLighter(map[], schema.entries);
    && (kind == ObjectKind && payload.Obj? ==>
          forall key :: key in payload.entries ==> UntouchedEntry(payload.entries[key], schema, key))
    && (kind == ArrayKind && payload.Arr? && "items" in schema.entries ==>
          forall i :: 0 <= i < |payload.items| ==> Untouched(payload.items[i], schema.entries["items"]))
  }

  ghost predicate UntouchedEntry(value: Json, schema: Json, key: string)
    requires schema.Obj?
    decreases Size(schema), 0
  {
    if PropertySchema(schema.entries, key).Obj? then
      PropertySmaller(schema.entries, key);
      !Drops(schema.entries, key, value) && Untouched(value, PropertySchema(schema.entries, key))
    else true
  }

  lemma {:induction false} PrunedAntisymmetric(a: Json, b: Json)
    requires Pruned(a, b) && Pruned(b, a)
    ensures a == b
    decreases a
  {
    match a
    case Obj(m) =>
      forall key | key in m ensures key in b.entries && m[key] == b.entries[key] {
        PrunedAntisymmetric(m[key], b.entries[key]);
      }
      assert m == b.entries;
    case Arr(items) =>
      forall i | 0 <= i < |items| ensures items[i] == b.items[i] {
        PrunedAntisymmetric(items[i], b.items[i]);
      }
      assert items == b.items;
    case _ =>
  }

  /** Normalization leaves a payload alone exactly when the schema touches nothing of it. */
  lemma {:induction false} KeptExactly(payload: Json, schema: Json)
    ensures Normalized(payload, schema) == payload <==> Untouched(payload, schema)
    decreases Size(schema), 4
  {
    if schema.Obj? {
      if "allOf" in schema.entries {
        AllOfKeepsExactly(payload, schema, |AsItems(schema.entries["allOf"])|);
        BranchByBranch(payload, schema);
      } else if "oneOf" in schema.entries {
        BestKeepsExactly(payload, schema, "oneOf");
      } else if "anyOf" in schema.entries {
        BestKeepsExactly(payload, schema, "anyOf");
      } else {
        KindKeepsExactly(payload, schema, KindOf(schema.entries));
      }
    }
  }

  /** A branch of `allOf`, on its own, leaves the payload alone. */
  ghost predicate LeavesAlone(payload: Json, schema: Json, i: nat) {
    IsBranch(schema, "allOf", i) ==> Untouched(payload, Merged(schema, "allOf", i))
  }

  lemma BranchByBranch(payload: Json, schema: Json)
    requires schema.Obj? && "allOf" in schema.entries
    ensures Untouched(payload, schema) <==> Every(Leaving(payload, schema), |AsItems(schema.entries["allOf"])|)
  {
    var n := |AsItems(schema.entries["allOf"])|;
    EveryIsAll(Leaving(payload, schema), n);
    if Untouched(payload, schema) {
      forall i: nat | i < n ensures Leaving(payload, schema)(i) {
      }
    }
    if Every(Leaving(payload, schema), n) {
      forall i: nat | IsBranch(schema, "allOf", i) ensures Untouched(payload, Merged(schema, "allOf", i)) {
        assert Leaving(payload, schema)(i) && LeavesAlone(payload, schema, i);
      }
    }
  }

  ghost function Leaving(payload: Json, schema: Json): nat -> bool {
    (i: nat) => LeavesAlone(payload, schema, i)
  }

  ghost predicate Every(good: nat -> bool, n: nat) {
    n == 0 || (Every(good, n - 1) && good(n - 1))
  }

  lemma {:induction false} EveryIsAll(good: nat -> bool, n: nat)
    ensures Every(good, n) <==> forall i: nat :: i < n ==> good(i)
  {
    if n > 0 {
      EveryIsAll(good, n - 1);
    }
  }

  /** A chain of branches keeps the payload exactly when each of them alone does. */
  lemma {:induction false} AllOfKeepsExactly(payload: Json, schema: Json, n: nat)
    requires schema.Obj? && "allOf" in schema.entries && n <= |AsItems(schema.entries["allOf"])|
    ensures AllOfNormalized(payload, schema, n) == payload <==> Every(Leaving(payload, schema), n)
    decreases Size(schema), 3, n
  {
    if n > 0 {
      AllOfKeepsExactly(payload, schema, n - 1);
      BranchKeepsExactly(payload, schema, n - 1);
    }
  }

  /** The last link of the chain. */
  lemma {:induction false} BranchKeepsExactly(payload: Json, schema: Json, i: nat)
    requires schema.Obj? && "allOf" in schema.entries && i < |AsItems(schema.entries["allOf"])|
    ensures AllOfNormalized(payload, schema, i + 1) == payload <==>
            AllOfNormalized(payload, schema, i) == payload && LeavesAlone(payload, schema, i)
    decreases Size(schema), 3, i
  {
    if IsBranch(schema, "allOf", i) {
      KeptExactly(payload, Merged(schema, "allOf", i));
      AllOfPrunes(payload, schema, i);
      KeptTwice(payload, AllOfNormalized(payload, schema, i), Merged(schema, "allOf", i));
    }
  }

  /** What pruning took away the next pass does not bring back. */
  lemma KeptTwice(payload: Json, before: Json, merged: Json)
    requires Pruned(payload, before)
    ensures Normalized(before, merged) == payload <==> before == payload && Normalized(payload, merged) == payload
  {
    NormalizationPrunes(before, merged);
    if Normalized(before, merged) == payload {
      PrunedAntisymmetric(payload, before);
    }
  }

  lemma {:induction false} BestKeepsExactly(payload: Json, schema: Json, keyword: string)
    requires schema.Obj? && keyword in schema.entries
    ensures BestPayload(payload, schema, keyword) == payload <==> UntouchedByBest(payload, schema, keyword)
    decreases Size(schema), 3
  {
    var best := FirstFewest(Misfits(payload, schema, keyword));
    if best != -1 {
      assert IsBranch(schema, keyword, best);
      KeptExactly(payload, Merged(schema, keyword, best));
    }
  }

  lemma {:induction false} KindKeepsExactly(payload: Json, schema: Json, kind: Kind)
    requires schema.Obj?
    ensures KindNormalized(payload, schema, kind) == payload <==> UntouchedByKind(payload, schema, kind)
    decreases Size(schema), 3
  {
    if kind == ObjectKind && payload.Obj? {
      EntriesKeepExactly(payload.entries, schema);
    } else if kind == ArrayKind && payload.Arr? {
      ItemsKeepExactly(payload.items, schema);
    }
  }

  lemma {:induction false} EntriesKeepExactly(payload: Entries, schema: Json)
    requires schema.Obj?
    ensures EntriesNormalized(payload, schema) == payload <==>
            forall key :: key in payload ==> UntouchedEntry(payload[key], schema, key)
    decreases Size(schema), 2
  {
    var after := EntriesNormalized(payload, schema);
    forall key | key in payload
      ensures UntouchedEntry(payload[key], schema, key) <==> key in after && after[key] == payload[key]
    {
      assert key in after <==> !Drops(schema.entries, key, payload[key]);
      assert key in after ==> after[key] == EntryNormalized(payload[key], schema, key);
      if PropertySchema(schema.entries, key).Obj? {
        PropertySmaller(schema.entries, key);
        KeptExactly(payload[key], PropertySchema(schema.entries, key));
      }
    }
    if forall key :: key in payload ==> key in after && after[key] == payload[key] {
      assert after == payload;
    }
  }

  lemma {:induction false} ItemsKeepExactly(payload: seq<Json>, schema: Json)
    requires schema.Obj?
    ensures ItemsNormalized(payload, schema) == payload <==>
            ("items" in schema.entries ==> forall i :: 0 <= i < |payload| ==> Untouched(payload[i], schema.entries["items"]))
    decreases Size(schema), 2
  {
    var after := ItemsNormalized(payload, schema);
    EntryLighter(map[], schema.entries);
    if "items" in schema.entries {
      forall i | 0 <= i < |payload| ensures Untouched(payload[i], schema.entries["items"]) <==> after[i] == payload[i] {
        KeptExactly(payload[i], schema.entries["items"]);
      }
    }
    if forall i :: 0 <= i < |payload| ==> after[i] == payload[i] {
      assert after == payload;
    }
  }
}
