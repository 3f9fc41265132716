/** Decoded JSON: schemas, specs and payloads alike are values of one type. */
module Json {
  import opened Text
  import opened Folds

  /** A number is kept as the text Go prints for it. */
  type NumText = t: string | t != "" witness "0"

  datatype Json =
    | Null
    | Bool(b: bool)
    | Num(text: NumText)
    | Str(s: string)
    | Arr(items: seq<Json>)
    | Obj(entries: map<string, Json>)

  type Entries = map<string, Json>

  /** A Go map lookup: a missing key reads as nil. */
  function Get(m: Entries, key: string): Json {
    if key in m then m[key] else Null
  }

  /** A Go map assertion whose failure leaves a nil map. */
  function AsEntries(j: Json): Entries {
    if j.Obj? then j.entries else map[]
  }

  /** A Go slice assertion whose failure leaves a nil slice. */
  function AsItems(j: Json): seq<Json> {
    if j.Arr? then j.items else []
  }

  /** `fmt.Sprintf("%v", value)`. */
  function Show(j: Json): string {
    match j
    case Null => "<nil>"
    case Bool(b) => if b then "true" else "false"
    case Num(text) => text
    case Str(s) => s
    case Arr(items) =>
      "[" + Join(seq(|items|, i requires 0 <= i < |items| => Show(items[i])), ' ') + "]"
    case Obj(m) =>
      var keys := SortedKeys(m.Keys);
      "map[" + Join(seq(|keys|, i requires 0 <= i < |keys| => keys[i] + ":" + Show(m[keys[i]])), ' ') + "]"
  }

  /** Strings print as they are and numbers as their text, so that an enum does not tell them apart. */
  lemma ShowsScalars(s: string, text: NumText)
    ensures Show(Str(s)) == s && Show(Num(text)) == text
    ensures Show(Null) == "<nil>" && Show(Bool(true)) == "true" && Show(Bool(false)) == "false"
  {
  }

  /** Arrays print in brackets, with blanks in between. */
  lemma ShowsArrays(a: Json, b: Json)
    ensures Show(Arr([])) == "[]" && Show(Arr([a])) == "[" + Show(a) + "]"
    ensures Show(Arr([a, b])) == "[" + Show(a) + " " + Show(b) + "]"
  {
    var one, two := seq(1, i requires 0 <= i < 1 => Show([a][i])), seq(2, i requires 0 <= i < 2 => Show([a, b][i]));
    assert one == [Show(a)] && two == [Show(a), Show(b)] && two[1..] == [Show(b)];
    assert Join(two, ' ') == Show(a) + [' '] + Show(b);
    assert "[" + (Show(a) + [' '] + Show(b)) + "]" == "[" + Show(a) + " " + Show(b) + "]";
  }

  /** Objects print their keys sorted. */
  lemma ShowsObjects(a: Json, b: Json, k: string, l: string)
    requires Less(k, l)
    ensures Show(Obj(map[k := a, l := b])) == "map[" + (k + ":" + Show(a) + " " + (l + ":" + Show(b))) + "]"
  {
    var m := map[k := a, l := b];
    var keys := SortedKeys(m.Keys);
    LessAsymmetric(k, l);
    SortedKeysAreSorted(m.Keys);
    TwoKeys(keys, k, l);
    var texts := seq(2, i requires 0 <= i < 2 => keys[i] + ":" + Show(m[keys[i]]));
    assert texts == [k + ":" + Show(a), l + ":" + Show(b)] && texts[1..] == [l + ":" + Show(b)];
    assert Join(texts, ' ') == (k + ":" + Show(a)) + [' '] + (l + ":" + Show(b));
  }

  lemma TwoKeys(keys: seq<string>, k: string, l: string)
    requires Less(k, l) && IsSorted(keys) && |keys| == 2 && k in keys && l in keys
    ensures keys == [k, l]
  {
    LessAsymmetric(k, l);
    assert AtMost(keys[0], keys[1]);
  }

  /** Only the empty string prints as the empty text. */
  lemma ShowEmpty(j: Json)
    ensures Show(j) == "" <==> j == Str("")
  {
  }

  /** The names in a `required` list; entries that are not strings do not count. */
  function RequiredNames(required: Json): (names: set<string>) {
    set j | j in AsItems(required) && j.Str? :: j.s
  }

  lemma RequiredNamesAre(required: Json)
    ensures forall name :: name in RequiredNames(required) <==> Str(name) in AsItems(required)
  {
    forall name | Str(name) in AsItems(required) ensures name in RequiredNames(required) {
      assert Str(name).s == name;
    }
  }

  /** The reference an object stands for, if it is a reference object. */
  predicate IsRef(m: Entries) {
    Get(m, "$ref").Str?
  }

  /** The size of a value, where a reference listed in `w` counts the given extra weight. */
  ghost function Weight(w: map<string, nat>, j: Json): nat
    ensures Weight(w, j) >= 1
    decreases j, 1
  {
    match j
    case Arr(items) => 1 + Total(ItemWeights(w, j))
    case Obj(m) => 1 + RefWeight(w, m) + Sum(Weights(w, j))
    case _ => 1
  }

  ghost function RefWeight(w: map<string, nat>, m: Entries): nat {
    if IsRef(m) && m["$ref"].s in w then w[m["$ref"].s] else 0
  }

  ghost function Weights(w: map<string, nat>, j: Json): (weights: map<string, nat>)
    requires j.Obj?
    decreases j, 0
  {
    map k | k in j.entries :: 1 + Weight(w, j.entries[k])
  }

  ghost function ItemWeights(w: map<string, nat>, j: Json): seq<nat>
    requires j.Arr?
    decreases j, 0
  {
    seq(|j.items|, i requires 0 <= i < |j.items| => Weight(w, j.items[i]))
  }

  /** The plain size of a value. */
  ghost function Size(j: Json): nat {
    Weight(map[], j)
  }

  lemma EntryLighter(w: map<string, nat>, m: Entries)
    ensures forall k :: k in m ==> Weight(w, m[k]) < Weight(w, Obj(m))
  {
    var weights := Weights(w, Obj(m));
    SumContains(weights);
    forall k | k in m ensures Weight(w, m[k]) < Weight(w, Obj(m)) {
      assert weights[k] <= Sum(weights);
    }
  }

  lemma ItemLighter(w: map<string, nat>, items: seq<Json>)
    ensures forall i :: 0 <= i < |items| ==> Weight(w, items[i]) < Weight(w, Arr(items))
  {
    var weights := ItemWeights(w, Arr(items));
    TotalContains(weights);
    forall i | 0 <= i < |items| ensures Weight(w, items[i]) < Weight(w, Arr(items)) {
      assert weights[i] == Weight(w, items[i]);
    }
  }

  /** What the entries of an object add up to. */
  ghost function EntrySum(w: map<string, nat>, m: Entries): nat {
    Sum(Weights(w, Obj(m)))
  }

  lemma EntrySumOverlay(w: map<string, nat>, a: Entries, b: Entries)
    ensures EntrySum(w, a + b) <= EntrySum(w, a) + EntrySum(w, b)
  {
    assert Weights(w, Obj(a + b)) == Weights(w, Obj(a)) + Weights(w, Obj(b));
    SumOverlay(Weights(w, Obj(a)), Weights(w, Obj(b)));
  }

  lemma EntrySumRemove(w: map<string, nat>, m: Entries, k: string)
    requires k in m
    ensures EntrySum(w, m) == EntrySum(w, m - {k}) + 1 + Weight(w, m[k])
  {
    SumRemove(Weights(w, Obj(m)), k);
    WeightsRemove(w, m, k);
  }

  lemma WeightsRemove(w: map<string, nat>, m: Entries, k: string)
    ensures Weights(w, Obj(m)) - {k} == Weights(w, Obj(m - {k}))
  {
    var before, after := Weights(w, Obj(m)), Weights(w, Obj(m - {k}));
    assert before.Keys - {k} == after.Keys;
    assert forall j :: j in after ==> after[j] == before[j];
  }

}
