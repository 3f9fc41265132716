/** Which side wins where a reference has siblings: along a chain of references every key is taken from
    the object nearest to the start that has it. */
module Nearest {
  import opened Wrappers
  import opened Folds
  import opened Json
  import opened Pointers
  import opened Resolver
  import opened Validation
  import opened Inlining

  /** What the reference of an object leads to, as far as it is an object. */
  ghost function TargetOf(spec: Entries, m: Entries): Entries {
    if "$ref" in m && m["$ref"].Str? then
      match Lookup(spec, m["$ref"].s) case Found(Obj(t)) => t case _ => map[]
    else map[]
  }

  lemma TargetLighter(spec: Entries, m: Entries, w: map<string, nat>)
    requires Ready(spec, Obj(m), w) && IsRef(m)
    ensures Ready(spec, Obj(TargetOf(spec, m)), w)
    ensures Weight(w, Obj(TargetOf(spec, m))) < Weight(w, Obj(m))
  {
    EntryLighter(w, m);
  }

  /** The schema that stands under `key` nearest to `m` along its chain of references. */
  ghost function Provided(spec: Entries, m: Entries, key: string, w: map<string, nat>): (provided: Option<Json>)
    requires Ready(spec, Obj(m), w)
    ensures provided.Some? ==> Ready(spec, provided.value, w)
    decreases Weight(w, Obj(m))
  {
    if "$ref" in m && m["$ref"].Str? then
      TargetLighter(spec, m, w);
      if key in m && key != "$ref" then Some(m[key]) else Provided(spec, TargetOf(spec, m), key, w)
    else if key in m then Some(m[key])
    else None
  }

  /** Following one reference lays the siblings over the target; where that leads is where the target leads. */
  lemma FollowedIs(spec: Entries, m: Entries, w: map<string, nat>)
    requires Ready(spec, Obj(m), w) && IsRef(m) && Lookup(spec, m["$ref"].s).Found?
    ensures Followed(spec, m, w) == Obj(TargetOf(spec, m) + (m - {"$ref"}))
    ensures Ready(spec, Obj(TargetOf(spec, m)), w)
    ensures TargetOf(spec, TargetOf(spec, m) + (m - {"$ref"})) == TargetOf(spec, TargetOf(spec, m))
  {
    TargetLighter(spec, m, w);
  }

  /** Following one reference provides the same under every key. */
  lemma FollowedProvides(spec: Entries, m: Entries, key: string, w: map<string, nat>)
    requires Ready(spec, Obj(m), w) && IsRef(m) && Lookup(spec, m["$ref"].s).Found?
    ensures Followed(spec, m, w).Obj?
    ensures Provided(spec, Followed(spec, m, w).entries, key, w) == Provided(spec, m, key, w)
  {
    FollowedIs(spec, m, w);
  }

  /** A resolved object has exactly the keys that are provided, each resolved from what the nearest object
      of the chain says. */
  lemma {:induction false} NearestWins(spec: Entries, m: Entries, w: map<string, nat>, r: Json, key: string)
    requires Resolves(spec, Obj(m), w, r)
    ensures r.Obj?
    ensures key in r.entries <==> Provided(spec, m, key, w).Some?
    ensures key in r.entries ==> Resolves(spec, Provided(spec, m, key, w).value, w, r.entries[key])
    decreases Weight(w, Obj(m))
  {
    if IsRef(m) {
      FollowedProvides(spec, m, key, w);
      NearestWins(spec, Followed(spec, m, w).entries, w, r, key);
    } else {
      EntriesResolve(spec, m, w, r);
    }
  }

  /* ---- When a reference can be resolved at all ---- */

  /** Every link of the chain leads somewhere, and to something else than an object only if no link of the
      chain has siblings; `alone` says so of the links before. */
  ghost predicate ChainHolds(spec: Entries, m: Entries, alone: bool, w: map<string, nat>)
    requires Ready(spec, Obj(m), w)
    decreases Weight(w, Obj(m))
  {
    "$ref" in m && m["$ref"].Str? ==>
      match Lookup(spec, m["$ref"].s)
      case Found(Obj(t)) =>
        TargetLighter(spec, m, w);
        ChainHolds(spec, t, alone && m.Keys == {"$ref"}, w)
      case Found(_) => alone && m.Keys == {"$ref"}
      case _ => false
  }

  /** After one link the chain holds as it held before it. */
  lemma FollowedHolds(spec: Entries, m: Entries, w: map<string, nat>)
    requires Ready(spec, Obj(m), w) && IsRef(m) && Lookup(spec, m["$ref"].s).Found?
    requires Lookup(spec, m["$ref"].s).value.Obj? || m.Keys == {"$ref"}
    ensures Followed(spec, m, w).Obj?
    ensures ChainHolds(spec, Followed(spec, m, w).entries, true, w) <==> ChainHolds(spec, m, true, w)
  {
    FollowedIs(spec, m, w);
    var t, next := TargetOf(spec, m), Followed(spec, m, w).entries;
    if IsRef(t) {
      assert next.Keys == {"$ref"} <==> t.Keys == {"$ref"} && m.Keys == {"$ref"};
    }
  }

  /** An object can be resolved exactly when its chain holds and everything that is provided can be. */
  lemma {:induction false} ResolvesExactly(spec: Entries, m: Entries, w: map<string, nat>)
    requires Ready(spec, Obj(m), w)
    ensures ResolveSchema(spec, Obj(m), w).Some? <==> ChainHolds(spec, m, true, w) && AllProvidedResolve(spec, m, w)
    decreases Weight(w, Obj(m))
  {
    if !IsRef(m) {
      EntriesResolveExactly(spec, m, w);
    } else if Lookup(spec, m["$ref"].s).Found? && (Lookup(spec, m["$ref"].s).value.Obj? || m.Keys == {"$ref"}) {
      FollowedHolds(spec, m, w);
      FollowedAllResolve(spec, m, w);
      ResolvesExactly(spec, Followed(spec, m, w).entries, w);
    } else {
      BrokenLink(spec, m, w);
    }
  }

  /** Whatever the chain provides can be resolved. */
  ghost predicate AllProvidedResolve(spec: Entries, m: Entries, w: map<string, nat>)
    requires Ready(spec, Obj(m), w)
  {
    forall key :: Provided(spec, m, key, w).Some? ==> ResolveSchema(spec, Provided(spec, m, key, w).value, w).Some?
  }

  lemma FollowedAllResolve(spec: Entries, m: Entries, w: map<string, nat>)
    requires Ready(spec, Obj(m), w) && IsRef(m) && Lookup(spec, m["$ref"].s).Found?
    requires Lookup(spec, m["$ref"].s).value.Obj? || m.Keys == {"$ref"}
    ensures Followed(spec, m, w).Obj?
    ensures AllProvidedResolve(spec, Followed(spec, m, w).entries, w) <==> AllProvidedResolve(spec, m, w)
    ensures ResolveSchema(spec, Obj(m), w) == ResolveSchema(spec, Followed(spec, m, w), w)
  {
    FollowedProvides(spec, m, "", w);
    forall key ensures Provided(spec, Followed(spec, m, w).entries, key, w) == Provided(spec, m, key, w) {
      FollowedProvides(spec, m, key, w);
    }
  }

  lemma BrokenLink(spec: Entries, m: Entries, w: map<string, nat>)
    requires Ready(spec, Obj(m), w) && IsRef(m)
    requires !(Lookup(spec, m["$ref"].s).Found? && (Lookup(spec, m["$ref"].s).value.Obj? || m.Keys == {"$ref"}))
    ensures ResolveSchema(spec, Obj(m), w).None? && !ChainHolds(spec, m, true, w)
  {
  }

  lemma EntriesResolveExactly(spec: Entries, m: Entries, w: map<string, nat>)
    requires Ready(spec, Obj(m), w) && !IsRef(m)
    ensures ResolveSchema(spec, Obj(m), w).Some? <==> AllProvidedResolve(spec, m, w)
    ensures ChainHolds(spec, m, true, w)
    ensures forall key :: Provided(spec, m, key, w) == if key in m then Some(m[key]) else None
  {
    var results := ResolveEntries(spec, m, w);
    forall key | key in m ensures results[key] == ResolveSchema(spec, m[key], w) && Provided(spec, m, key, w) == Some(m[key]) {
    }
    if AllProvidedResolve(spec, m, w) {
      forall key | key in m ensures results[key].Some? {
        assert Provided(spec, m, key, w).Some?;
      }
    }
  }

  /** An array can be resolved exactly when its items can; what is no container stands for itself. */
  lemma OthersResolve(spec: Entries, j: Json, w: map<string, nat>)
    requires Ready(spec, j, w) && !j.Obj?
    ensures j.Arr? ==>
      && (ResolveSchema(spec, j, w).Some? <==> forall i :: 0 <= i < |j.items| ==> ResolveSchema(spec, j.items[i], w).Some?)
      && (ResolveSchema(spec, j, w).Some? ==>
            var r := ResolveSchema(spec, j, w).value;
            r.Arr? && |r.items| == |j.items| && forall i :: 0 <= i < |j.items| ==> Some(r.items[i]) == ResolveSchema(spec, j.items[i], w))
    ensures !j.Arr? ==> ResolveSchema(spec, j, w) == Some(j)
  {
    if j.Arr? {
      var results := ResolveItems(spec, j.items, w);
      forall i | 0 <= i < |j.items| ensures results[i] == ResolveSchema(spec, j.items[i], w) {
      }
    }
  }

  /* ---- The two sides of one reference ---- */

  /** The siblings of a reference stand in the result, however long the chain is. */
  lemma SiblingsStand(spec: Entries, m: Entries, w: map<string, nat>, r: Json)
    requires Get(m, "$ref").Str? && Resolves(spec, Obj(m), w, r)
    ensures forall key :: key in m && key != "$ref" ==>
      r.Obj? && key in r.entries && ResolveSchema(spec, m[key], w) == Some(r.entries[key])
  {
    forall key | key in m && key != "$ref"
      ensures r.Obj? && key in r.entries && ResolveSchema(spec, m[key], w) == Some(r.entries[key])
    {
      NearestWins(spec, m, w, r, key);
    }
  }

  /** Every other key of the result is that of the resolved target, and there are no further ones. */
  lemma TargetsFillIn(spec: Entries, m: Entries, ref: string, target: Entries, w: map<string, nat>, r: Json, t: Json)
    requires Get(m, "$ref") == Str(ref) && Lookup(spec, ref) == Found(Obj(target))
    requires Resolves(spec, Obj(m), w, r) && Resolves(spec, Obj(target), w, t)
    ensures r.Obj? && t.Obj? && r.entries.Keys == m.Keys - {"$ref"} + t.entries.Keys
    ensures forall key :: key in t.entries && (key !in m || key == "$ref") ==> r.entries[key] == t.entries[key]
  {
    assert TargetOf(spec, m) == target;
    forall key
      ensures r.Obj? && t.Obj? && (key in r.entries <==> (key in m && key != "$ref") || key in t.entries)
      ensures key in t.entries && (key !in m || key == "$ref") ==> r.entries[key] == t.entries[key]
    {
      NearestWins(spec, m, w, r, key);
      NearestWins(spec, target, w, t, key);
    }
  }

  /** The same for a validator that follows references: where no link of the chain is broken it reports what
      it reports for the object of all provided keys. */
  lemma {:induction false} NearestWinsOnDemand(spec: Entries, m: Entries, w: map<string, nat>, n: Entries, payload: Json, path: Path)
    requires Ready(spec, Obj(m), w) && Deref(spec, Obj(m), w).Obj?
    requires forall key :: (key in n <==> Provided(spec, m, key, w).Some?) && (key in n ==> n[key] == Provided(spec, m, key, w).value)
    ensures Ready(spec, Obj(n), w)
    ensures RefErrors(spec, Obj(m), payload, path, w) == RefErrors(spec, Obj(n), payload, path, w)
    decreases Weight(w, Obj(m))
  {
    if IsRef(m) {
      forall key ensures Provided(spec, Followed(spec, m, w).entries, key, w) == Provided(spec, m, key, w) {
        FollowedProvides(spec, m, key, w);
      }
      FollowedProvides(spec, m, "", w);
      NearestWinsOnDemand(spec, Followed(spec, m, w).entries, w, n, payload, path);
    } else {
      forall key ensures Provided(spec, m, key, w) == if key in m then Some(m[key]) else None {
      }
      assert n == m;
    }
  }
}
