/** Inlining the `$ref`s of a schema. The schema is rewritten while it is walked, so the
    recursion is bounded by weights given to references, not by the shape of the schema. */
module Resolver {
  import opened Wrappers
  import opened Folds
  import opened Json
  import opened Pointers

  /** Every reference inside `j` is one of `refs`. */
  ghost predicate Covered(refs: set<string>, j: Json) {
    match j
    case Arr(items) => forall i :: 0 <= i < |items| ==> Covered(refs, items[i])
    case Obj(m) =>
      && (IsRef(m) ==> m["$ref"].s in refs)
      && forall k :: k in m ==> Covered(refs, m[k])
    case _ => true
  }

  /** No object inside `j` is a reference. */
  ghost predicate RefFree(j: Json) {
    match j
    case Arr(items) => forall i :: 0 <= i < |items| ==> RefFree(items[i])
    case Obj(m) => !IsRef(m) && forall k :: k in m ==> RefFree(m[k])
    case _ => true
  }

  /** The references of rank below `n`. */
  ghost function Below(rank: map<string, nat>, n: nat): set<string> {
    set r | r in rank && rank[r] < n
  }

  /** The spec has no reference cycle among the ranked references: what a reference
      leads to only mentions references of smaller rank. */
  ghost predicate Acyclic(spec: Entries, rank: map<string, nat>) {
    forall r :: r in rank && Lookup(spec, r).Found? ==> Covered(Below(rank, rank[r]), Lookup(spec, r).value)
  }

  /** A reference weighs at least as much as its target. */
  ghost predicate Weighted(spec: Entries, w: map<string, nat>) {
    forall r :: r in w && Lookup(spec, r).Found? ==>
      Covered(w.Keys, Lookup(spec, r).value) && Weight(w, Lookup(spec, r).value) <= w[r]
  }

  lemma {:induction false} CoveredMore(small: set<string>, large: set<string>, j: Json)
    requires small <= large && Covered(small, j)
    ensures Covered(large, j)
  {
    match j
    case Arr(items) =>
      forall i | 0 <= i < |items| ensures Covered(large, items[i]) { CoveredMore(small, large, items[i]); }
    case Obj(m) =>
      forall k | k in m ensures Covered(large, m[k]) { CoveredMore(small, large, m[k]); }
    case _ =>
  }

  /** A weight only depends on the references that occur. */
  lemma {:induction false} WeightAgrees(a: map<string, nat>, b: map<string, nat>, j: Json)
    requires Covered(a.Keys, j)
    requires a.Keys <= b.Keys && forall r :: r in a ==> a[r] == b[r]
    ensures Weight(a, j) == Weight(b, j)
  {
    match j
    case Arr(items) =>
      forall i | 0 <= i < |items| ensures Weight(a, items[i]) == Weight(b, items[i]) { WeightAgrees(a, b, items[i]); }
      assert ItemWeights(a, j) == ItemWeights(b, j);
    case Obj(m) =>
      forall k | k in m ensures Weight(a, m[k]) == Weight(b, m[k]) { WeightAgrees(a, b, m[k]); }
      assert Weights(a, j) == Weights(b, j);
    case _ =>
  }

  /** Every acyclic spec can be weighted: rank by rank, a reference gets its target's weight. */
  lemma {:induction false} WeightsExist(spec: Entries, rank: map<string, nat>, n: nat) returns (w: map<string, nat>)
    requires Acyclic(spec, rank)
    ensures Weighted(spec, w) && w.Keys == Below(rank, n)
  {
    if n == 0 {
      w := map[];
    } else {
      var lower := WeightsExist(spec, rank, n - 1);
      w := map r | r in Below(rank, n) ::
        if r in lower then lower[r]
        else if Lookup(spec, r).Found? then Weight(lower, Lookup(spec, r).value) else 0;
      forall r | r in w && Lookup(spec, r).Found?
        ensures Covered(w.Keys, Lookup(spec, r).value) && Weight(w, Lookup(spec, r).value) <= w[r]
      {
        var target := Lookup(spec, r).value;
        CoveredMore(Below(rank, rank[r]), lower.Keys, target);
        CoveredMore(lower.Keys, w.Keys, target);
        WeightAgrees(lower, w, target);
      }
    }
  }

  ghost function MaxRank(rank: map<string, nat>): (n: nat)
    ensures forall r :: r in rank ==> rank[r] < n
  {
    SumContains(rank);
    Sum(rank) + 1
  }

  /** The object that replaces a reference: the target with the sibling keys laid over it. */
  function Overlay(target: Entries, m: Entries): Entries {
    target + (m - {"$ref"})
  }

  lemma OverlayCovered(spec: Entries, w: map<string, nat>, m: Entries, target: Json)
    requires Weighted(spec, w) && Covered(w.Keys, Obj(m)) && IsRef(m)
    requires Lookup(spec, m["$ref"].s) == Found(target)
    ensures Covered(w.Keys, Obj(Overlay(AsEntries(target), m)))
  {
  }

  lemma OverlayLighter(spec: Entries, w: map<string, nat>, m: Entries, target: Json)
    requires Weighted(spec, w) && Covered(w.Keys, Obj(m)) && IsRef(m)
    requires Lookup(spec, m["$ref"].s) == Found(target)
    ensures Weight(w, Obj(Overlay(AsEntries(target), m))) < Weight(w, Obj(m))
  {
    var base := AsEntries(target);
    EntrySumOverlay(w, base, m - {"$ref"});
    EntrySumRemove(w, m, "$ref");
    OverlayRefWeight(w, base, m);
  }

  /** A reference that leads to a reference is followed again. */
  lemma OverlayRefWeight(w: map<string, nat>, base: Entries, m: Entries)
    ensures RefWeight(w, Overlay(base, m)) == RefWeight(w, base)
  {
  }

  /** A Go loop that stops at the first error: all values, or none. */
  function AllEntries(results: map<string, Option<Json>>): Option<Json> {
    if forall k :: k in results ==> results[k].Some? then Some(Obj(map k | k in results :: results[k].value)) else None
  }

  function AllItems(results: seq<Option<Json>>): Option<Json> {
    if forall i :: 0 <= i < |results| ==> results[i].Some?
    then Some(Arr(seq(|results|, i requires 0 <= i < |results| => results[i].value)))
    else None
  }

  /** The schema with every reference inlined; None where the Go function returns an error
      (or, for a reference to something else than an object that has siblings, panics). */
  function ResolveSchema(spec: Entries, schema: Json, ghost w: map<string, nat>): (resolved: Option<Json>)
    requires Weighted(spec, w) && Covered(w.Keys, schema)
    decreases Weight(w, schema), 1
  {
    match schema
    case Obj(m) =>
      if IsRef(m) then
        match Lookup(spec, m["$ref"].s) {
          case Found(target) =>
            if !target.Obj? && m.Keys != {"$ref"} then None
            else
              OverlayCovered(spec, w, m, target);
              OverlayLighter(spec, w, m, target);
              ResolveSchema(spec, Obj(Overlay(AsEntries(target), m)), w)
          case _ => None
        }
      else AllEntries(ResolveEntries(spec, m, w))
    case Arr(items) => AllItems(ResolveItems(spec, items, w))
    case _ => Some(schema)
  }

  function ResolveEntries(spec: Entries, m: Entries, ghost w: map<string, nat>): (results: map<string, Option<Json>>)
    requires Weighted(spec, w) && Covered(w.Keys, Obj(m))
    decreases Weight(w, Obj(m)), 0
  {
    EntryLighter(w, m);
    map k | k in m :: ResolveSchema(spec, m[k], w)
  }

  function ResolveItems(spec: Entries, items: seq<Json>, ghost w: map<string, nat>): (results: seq<Option<Json>>)
    requires Weighted(spec, w) && Covered(w.Keys, Arr(items))
    decreases Weight(w, Arr(items)), 0
  {
    ItemLighter(w, items);
    seq(|items|, i requires 0 <= i < |items| => ResolveSchema(spec, items[i], w))
  }

  /** Resolution keeps what kind of value it was given, and only an object stays an object. */
  lemma {:induction false} ResolvedKind(spec: Entries, schema: Json, w: map<string, nat>)
    requires Weighted(spec, w) && Covered(w.Keys, schema)
    requires ResolveSchema(spec, schema, w).Some?
    ensures ResolveSchema(spec, schema, w).value.Obj? <==> schema.Obj?
    ensures ResolveSchema(spec, schema, w).value.Arr? <==> schema.Arr?
    ensures !schema.Obj? && !schema.Arr? ==> ResolveSchema(spec, schema, w).value == schema
    decreases Weight(w, schema)
  {
    if schema.Obj? && IsRef(schema.entries) {
      var m := schema.entries;
      var target := Lookup(spec, m["$ref"].s).value;
      OverlayCovered(spec, w, m, target);
      OverlayLighter(spec, w, m, target);
      ResolvedKind(spec, Obj(Overlay(AsEntries(target), m)), w);
    }
  }

  /** On success nothing in the result is a reference any more. */
  lemma {:induction false} ResolvedIsRefFree(spec: Entries, schema: Json, w: map<string, nat>)
    requires Weighted(spec, w) && Covered(w.Keys, schema)
    requires ResolveSchema(spec, schema, w).Some?
    ensures RefFree(ResolveSchema(spec, schema, w).value)
    decreases Weight(w, schema)
  {
    match schema
    case Obj(m) =>
      if IsRef(m) {
        var target := Lookup(spec, m["$ref"].s).value;
        OverlayCovered(spec, w, m, target);
        OverlayLighter(spec, w, m, target);
        ResolvedIsRefFree(spec, Obj(Overlay(AsEntries(target), m)), w);
      } else {
        EntryLighter(w, m);
        var results := ResolveEntries(spec, m, w);
        forall k | k in m ensures RefFree(results[k].value) {
          assert results[k] == ResolveSchema(spec, m[k], w);
          ResolvedIsRefFree(spec, m[k], w);
        }
        if "$ref" in m {
          ResolvedKind(spec, m["$ref"], w);
        }
      }
    case Arr(items) =>
      ItemLighter(w, items);
      var results := ResolveItems(spec, items, w);
      forall i | 0 <= i < |items| ensures RefFree(results[i].value) {
        assert results[i] == ResolveSchema(spec, items[i], w);
        ResolvedIsRefFree(spec, items[i], w);
      }
    case _ =>
  }

  lemma {:induction false} RefFreeCovered(refs: set<string>, j: Json)
    requires RefFree(j)
    ensures Covered(refs, j)
  {
    match j
    case Arr(items) =>
      forall i | 0 <= i < |items| ensures Covered(refs, items[i]) { RefFreeCovered(refs, items[i]); }
    case Obj(m) =>
      forall k | k in m ensures Covered(refs, m[k]) { RefFreeCovered(refs, m[k]); }
    case _ =>
  }

  /** A schema without references resolves to itself, in any spec. */
  lemma {:induction false} RefFreeIsFixed(spec: Entries, j: Json, w: map<string, nat>)
    requires Weighted(spec, w) && RefFree(j)
    ensures Covered(w.Keys, j) && ResolveSchema(spec, j, w) == Some(j)
  {
    RefFreeCovered(w.Keys, j);
    match j
    case Arr(items) =>
      forall i | 0 <= i < |items| ensures Covered(w.Keys, items[i]) && ResolveSchema(spec, items[i], w) == Some(items[i]) {
        RefFreeIsFixed(spec, items[i], w);
      }
      var results := ResolveItems(spec, items, w);
      assert seq(|results|, i requires 0 <= i < |results| => results[i].value) == items;
    case Obj(m) =>
      forall k | k in m ensures Covered(w.Keys, m[k]) && ResolveSchema(spec, m[k], w) == Some(m[k]) {
        RefFreeIsFixed(spec, m[k], w);
      }
      var results := ResolveEntries(spec, m, w);
      assert (map k | k in results :: results[k].value) == m;
    case _ =>
  }

  /** The weights only witness termination: they never change the result. */
  lemma {:induction false} WeightsDoNotMatter(spec: Entries, schema: Json, v: map<string, nat>, w: map<string, nat>)
    requires Weighted(spec, v) && Covered(v.Keys, schema)
    requires Weighted(spec, w) && Covered(w.Keys, schema)
    ensures ResolveSchema(spec, schema, v) == ResolveSchema(spec, schema, w)
    decreases Weight(w, schema)
  {
    match schema
    case Obj(m) =>
      if IsRef(m) {
        if Lookup(spec, m["$ref"].s).Found? {
          var target := Lookup(spec, m["$ref"].s).value;
          OverlayCovered(spec, v, m, target);
          OverlayCovered(spec, w, m, target);
          OverlayLighter(spec, w, m, target);
          WeightsDoNotMatter(spec, Obj(Overlay(AsEntries(target), m)), v, w);
        }
      } else {
        EntryLighter(w, m);
        forall k | k in m ensures ResolveSchema(spec, m[k], v) == ResolveSchema(spec, m[k], w) {
          WeightsDoNotMatter(spec, m[k], v, w);
        }
        assert ResolveEntries(spec, m, v) == ResolveEntries(spec, m, w);
      }
    case Arr(items) =>
      ItemLighter(w, items);
      forall i | 0 <= i < |items| ensures ResolveSchema(spec, items[i], v) == ResolveSchema(spec, items[i], w) {
        WeightsDoNotMatter(spec, items[i], v, w);
      }
      assert ResolveItems(spec, items, v) == ResolveItems(spec, items, w);
    case _ =>
  }

  /** On every acyclic spec resolution terminates, whatever the siblings overlay; when it
      succeeds the result has no reference left and resolves to itself. */
  lemma ResolutionTerminates(spec: Entries, rank: map<string, nat>, schema: Json) returns (w: map<string, nat>)
    requires Acyclic(spec, rank) && Covered(rank.Keys, schema)
    ensures Weighted(spec, w) && Covered(w.Keys, schema)
    ensures var r := ResolveSchema(spec, schema, w);
            r.Some? ==> RefFree(r.value) && Covered(w.Keys, r.value) && ResolveSchema(spec, r.value, w) == r
  {
    w := WeightsExist(spec, rank, MaxRank(rank));
    assert w.Keys == rank.Keys;
    var r := ResolveSchema(spec, schema, w);
    if r.Some? {
      ResolvedIsRefFree(spec, schema, w);
      RefFreeIsFixed(spec, r.value, w);
    }
  }
}
