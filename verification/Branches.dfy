/** Merging one combiner branch into the schema around it. */
module Branches {
  import opened Folds
  import opened Json

  /** The strings of a list, in order. */
  function Names(items: seq<Json>): seq<string> {
    if items == [] then []
    else Names(items[..|items| - 1]) + if items[|items| - 1].Str? then [items[|items| - 1].s] else []
  }

  /** The list without later repetitions. */
  function FirstOccurrences(names: seq<string>): seq<string> {
    if names == [] then []
    else
      var front := FirstOccurrences(names[..|names| - 1]);
      if names[|names| - 1] in front then front else front + [names[|names| - 1]]
  }

  function Strings(names: seq<string>): seq<Json> {
    seq(|names|, i requires 0 <= i < |names| => Str(names[i]))
  }

  function MergedRequired(left: Json, right: Json): Json {
    Arr(Strings(FirstOccurrences(Names(AsItems(left)) + Names(AsItems(right)))))
  }

  method MergeRequiredLists(left: Json, right: Json) returns (merged: Json)
    ensures merged == MergedRequired(left, right)
  {
    var seen, result := AddNames(AsItems(left), {}, [], []);
    assert [] + Names(AsItems(left)) == Names(AsItems(left));
    seen, result := AddNames(AsItems(right), seen, result, Names(AsItems(left)));
    merged := Arr(Strings(result));
  }

  /** One source of the joined list: every string not seen before is appended. */
  method AddNames(items: seq<Json>, seen: set<string>, result: seq<string>, ghost read: seq<string>)
    returns (seen': set<string>, result': seq<string>)
    requires result == FirstOccurrences(read) && forall name :: name in seen <==> name in result
    ensures result' == FirstOccurrences(read + Names(items)) && forall name :: name in seen' <==> name in result'
  {
    seen', result' := seen, result;
    assert read + Names(items[..0]) == read;
    for i := 0 to |items|
      invariant result' == FirstOccurrences(read + Names(items[..i]))
      invariant forall name :: name in seen' <==> name in result'
    {
      assert items[..i + 1][..i] == items[..i];
      if items[i].Str? {
        var name := items[i].s;
        ghost var all := read + Names(items[..i]);
        assert (all + [name])[..|all|] == all;
        assert read + Names(items[..i + 1]) == all + [name];
        if name !in seen' {
          seen' := seen' + {name};
          result' := result' + [name];
        }
      } else {
        assert Names(items[..i + 1]) == Names(items[..i]);
      }
    }
    assert items[..|items|] == items;
  }

  function MergedProperties(existing: Json, branch: Json): Json {
    Obj(AsEntries(existing) + AsEntries(branch))
  }

  /** The branch's keys replace the schema's, except that properties are united (the branch wins
      a name both have) and required lists are joined; the combiner keyword itself is dropped. */
  function MergeSchemaBranch(schema: Entries, branch: Entries, keyword: string): Entries {
    var base := schema - {keyword};
    var plain := base + (branch - {"properties", "required"});
    var withProperties :=
      if "properties" in branch
      then plain["properties" := MergedProperties(Get(base, "properties"), branch["properties"])] else plain;
    if "required" in branch
    then withProperties["required" := MergedRequired(Get(base, "required"), branch["required"])] else withProperties
  }

  /* ---- What a merged branch says ---- */

  /** Key by key: the branch wins over the schema, the combiner is only kept if the branch has one of its own,
      and `properties` and `required` of the branch are joined with those of the schema. */
  lemma MergedSays(schema: Entries, branch: Entries, keyword: string, key: string)
    ensures var merged := MergeSchemaBranch(schema, branch, keyword);
            && (key in merged <==> key in branch || (key in schema && key != keyword))
            && (key in branch && key != "properties" && key != "required" ==> merged[key] == branch[key])
            && (key !in branch && key in merged ==> merged[key] == schema[key])
            && (key == "required" && key in branch ==>
                  merged[key] == MergedRequired(if key in schema && key != keyword then schema[key] else Null, branch[key]))
  {
  }

  /** The properties of both, the branch's definition where both have one. */
  lemma MergedDescribes(schema: Entries, branch: Entries, keyword: string, name: string)
    requires "properties" in branch && keyword != "properties"
    ensures var merged := MergeSchemaBranch(schema, branch, keyword);
            && "properties" in merged && merged["properties"].Obj?
            && var p := merged["properties"].entries;
               var mine := branch["properties"].Obj? && name in branch["properties"].entries;
               var theirs := "properties" in schema && schema["properties"].Obj? && name in schema["properties"].entries;
               && (name in p <==> mine || theirs)
               && (mine ==> p[name] == branch["properties"].entries[name])
               && (!mine && theirs ==> p[name] == schema["properties"].entries[name])
  {
  }

  /** Each name of the list stands at its first position among `names`, and these positions ascend. */
  ghost predicate AtFirst(list: seq<string>, names: seq<string>, at: seq<nat>) {
    && |at| == |list| && (forall i, j :: 0 <= i < j < |at| ==> at[i] < at[j])
    && forall i :: 0 <= i < |at| ==> at[i] < |names| && list[i] == names[at[i]] && names[at[i]] !in names[..at[i]]
  }

  lemma AtFirstLater(list: seq<string>, front: seq<string>, last: string, at: seq<nat>)
    requires AtFirst(list, front, at)
    ensures AtFirst(list, front + [last], at)
    ensures last !in front ==> AtFirst(list + [last], front + [last], at + [|front|])
  {
    var names := front + [last];
    forall i | 0 <= i < |at| ensures names[..at[i]] == front[..at[i]] {
    }
    assert names[..|front|] == front;
  }

  /** The list without repetitions keeps the order in which names first occur. */
  lemma {:induction false} FirstOccurrencesInOrder(names: seq<string>) returns (at: seq<nat>)
    ensures AtFirst(FirstOccurrences(names), names, at)
  {
    if names == [] {
      at := [];
    } else {
      var front, last := names[..|names| - 1], names[|names| - 1];
      at := FirstOccurrencesInOrder(front);
      FirstOccurrencesAre(front);
      AtFirstLater(FirstOccurrences(front), front, last, at);
      assert names == front + [last];
      if last !in front {
        at := at + [|front|];
      }
    }
  }

  /* ---- A merged branch is smaller than the schema it came from ---- */

  lemma {:induction false} NamesAre(items: seq<Json>)
    ensures forall name :: name in Names(items) <==> Str(name) in items
    ensures |Names(items)| <= |items|
  {
    if items != [] {
      NamesAre(items[..|items| - 1]);
      assert items == items[..|items| - 1] + [items[|items| - 1]];
    }
  }

  lemma {:induction false} FirstOccurrencesAre(names: seq<string>)
    ensures forall name :: name in FirstOccurrences(names) <==> name in names
    ensures |FirstOccurrences(names)| <= |names|
    ensures forall i, j :: 0 <= i < j < |FirstOccurrences(names)| ==> FirstOccurrences(names)[i] != FirstOccurrences(names)[j]
  {
    if names != [] {
      FirstOccurrencesAre(names[..|names| - 1]);
      assert names == names[..|names| - 1] + [names[|names| - 1]];
    }
  }

  /** A merged list requires what either list requires, each name once. */
  lemma MergedRequiredNames(left: Json, right: Json)
    ensures RequiredNames(MergedRequired(left, right)) == RequiredNames(left) + RequiredNames(right)
    ensures var merged := MergedRequired(left, right).items;
            forall i, j :: 0 <= i < j < |merged| ==> merged[i] != merged[j]
  {
    var names := Names(AsItems(left)) + Names(AsItems(right));
    NamesAre(AsItems(left));
    NamesAre(AsItems(right));
    FirstOccurrencesAre(names);
    RequiredNamesAre(left);
    RequiredNamesAre(right);
    RequiredNamesAre(MergedRequired(left, right));
    var merged := Strings(FirstOccurrences(names));
    forall name ensures Str(name) in merged <==> name in FirstOccurrences(names) {
      if name in FirstOccurrences(names) {
        var i :| 0 <= i < |FirstOccurrences(names)| && FirstOccurrences(names)[i] == name;
        assert merged[i] == Str(name);
      }
    }
  }

  lemma {:induction false} TotalAtLeastLength(s: seq<nat>)
    requires forall i :: 0 <= i < |s| ==> s[i] >= 1
    ensures Total(s) >= |s|
  {
    if s != [] {
      TotalAtLeastLength(s[1..]);
    }
  }

  lemma {:induction false} TotalOfOnes(s: seq<nat>)
    requires forall i :: 0 <= i < |s| ==> s[i] == 1
    ensures Total(s) == |s|
  {
    if s != [] {
      TotalOfOnes(s[1..]);
    }
  }

  lemma MergedRequiredSize(left: Json, right: Json)
    ensures Size(MergedRequired(left, right)) <= Size(left) + Size(right)
    ensures left == Null ==> Size(MergedRequired(left, right)) <= Size(right)
  {
    var names := Names(AsItems(left)) + Names(AsItems(right));
    NamesAre(AsItems(left));
    NamesAre(AsItems(right));
    FirstOccurrencesAre(names);
    var merged := MergedRequired(left, right);
    forall i | 0 <= i < |merged.items| ensures ItemWeights(map[], merged)[i] == 1 {
      assert merged.items[i].Str?;
    }
    TotalOfOnes(ItemWeights(map[], merged));
    AtLeastItems(left);
    AtLeastItems(right);
  }

  lemma AtLeastItems(list: Json)
    ensures Size(list) >= 1 + |AsItems(list)|
  {
    if list.Arr? {
      TotalAtLeastLength(ItemWeights(map[], list));
    }
  }

  lemma MergedPropertiesSize(existing: Json, branch: Json)
    ensures Size(MergedProperties(existing, branch)) <= Size(existing) + Size(branch)
    ensures existing == Null ==> Size(MergedProperties(existing, branch)) <= Size(branch)
  {
    EntrySumOverlay(map[], AsEntries(existing), AsEntries(branch));
  }

  lemma UpdateSize(m: Entries, key: string, value: Json, extra: nat)
    requires key in m ==> Size(value) <= Size(m[key]) + extra
    requires key !in m ==> Size(value) <= extra
    ensures EntrySum(map[], m[key := value]) <= EntrySum(map[], m) + 1 + extra
  {
    EntrySumRemove(map[], m[key := value], key);
    assert m[key := value] - {key} == m - {key};
    if key in m {
      EntrySumRemove(map[], m, key);
    } else {
      assert m - {key} == m;
    }
  }

  lemma MergedEntrySum(schema: Entries, branch: Entries, keyword: string)
    ensures EntrySum(map[], MergeSchemaBranch(schema, branch, keyword))
         <= EntrySum(map[], schema - {keyword}) + EntrySum(map[], branch)
  {
    var base := schema - {keyword};
    var others := branch - {"properties", "required"};
    var plain := base + others;
    EntrySumOverlay(map[], base, others);
    var withProperties := plain;
    var rest := branch - {"properties"};
    if "properties" in branch {
      MergedPropertiesSize(Get(base, "properties"), branch["properties"]);
      withProperties := plain["properties" := MergedProperties(Get(base, "properties"), branch["properties"])];
      UpdateSize(plain, "properties", withProperties["properties"], Size(branch["properties"]));
      EntrySumRemove(map[], branch, "properties");
    } else {
      assert rest == branch;
    }
    assert rest - {"required"} == others;
    if "required" in branch {
      MergedRequiredSize(Get(base, "required"), branch["required"]);
      UpdateSize(withProperties, "required", MergedRequired(Get(base, "required"), branch["required"]), Size(branch["required"]));
      EntrySumRemove(map[], rest, "required");
    } else {
      assert rest == others;
    }
  }

  /** Merging a branch strictly shrinks the schema: what makes normalization terminate. */
  lemma MergedIsSmaller(schema: Entries, keyword: string, i: nat)
    requires keyword in schema && schema[keyword].Arr? && i < |schema[keyword].items| && schema[keyword].items[i].Obj?
    ensures Size(Obj(MergeSchemaBranch(schema, schema[keyword].items[i].entries, keyword))) < Size(Obj(schema))
  {
    var branches := schema[keyword].items;
    MergedEntrySum(schema, branches[i].entries, keyword);
    EntrySumRemove(map[], schema, keyword);
    ItemLighter(map[], branches);
  }
}
