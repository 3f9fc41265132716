/** Sums over finite maps, in any key order: the arithmetic behind every measure
    and every error count of the schema engine. */
module Folds {

  /** The sum of the values of `m`. The key picked first does not matter, see SumRemove. */
  ghost function Sum(m: map<string, nat>): nat
    decreases |m|
  {
    if m == map[] then 0 else
      var k :| k in m;
      m[k] + Sum(m - {k})
  }

  lemma {:induction false} SumRemove(m: map<string, nat>, k: string)
    requires k in m
    ensures Sum(m) == m[k] + Sum(m - {k})
    decreases |m|
  {
    var first: string :| first in m && Sum(m) == m[first] + Sum(m - {first});
    if first != k {
      SumRemove(m - {first}, k);
      SumRemove(m - {k}, first);
      assert m - {first} - {k} == m - {k} - {first};
    }
  }

  lemma SumContains(m: map<string, nat>)
    ensures forall k :: k in m ==> m[k] <= Sum(m)
  {
    forall k | k in m ensures m[k] <= Sum(m) {
      SumRemove(m, k);
    }
  }

  lemma SumUpdate(m: map<string, nat>, k: string, v: nat)
    ensures Sum(m[k := v]) <= Sum(m) + v
  {
    SumRemove(m[k := v], k);
    assert m[k := v] - {k} == m - {k};
    if k in m {
      SumRemove(m, k);
    } else {
      assert m - {k} == m;
    }
  }

  /** Overlaying one map on another never weighs more than both together. */
  lemma {:induction false} SumOverlay(a: map<string, nat>, b: map<string, nat>)
    ensures Sum(a + b) <= Sum(a) + Sum(b)
    decreases |b|
  {
    if |b| == 0 {
      assert a + b == a;
    } else {
      var k :| k in b;
      SumOverlay(a, b - {k});
      OverlayLast(a, b, k);
      SumUpdate(a + (b - {k}), k, b[k]);
      SumRemove(b, k);
    }
  }

  lemma OverlayLast<T>(a: map<string, T>, b: map<string, T>, k: string)
    requires k in b
    ensures a + b == (a + (b - {k}))[k := b[k]]
  {
  }

  /** Pointwise smaller values on the same keys, smaller sum. */
  lemma {:induction false} SumMonotone(a: map<string, nat>, b: map<string, nat>)
    requires a.Keys <= b.Keys
    requires forall k :: k in a ==> a[k] <= b[k]
    ensures Sum(a) <= Sum(b)
    decreases |a|
  {
    if a != map[] {
      var k :| k in a;
      SumRemove(a, k);
      SumRemove(b, k);
      SumMonotone(a - {k}, b - {k});
    }
  }

  ghost function Total(s: seq<nat>): nat
  {
    if s == [] then 0 else s[0] + Total(s[1..])
  }

  lemma {:induction false} TotalContains(s: seq<nat>)
    ensures forall i :: 0 <= i < |s| ==> s[i] <= Total(s)
  {
    if s != [] {
      TotalContains(s[1..]);
      forall i | 0 <= i < |s| ensures s[i] <= Total(s) {
        if i > 0 {
          assert s[i] == s[1..][i - 1];
        }
      }
    }
  }

  /** The union of the bags of `m`, duplicates kept. */
  ghost function Bag<T>(m: map<string, multiset<T>>): multiset<T>
    decreases |m|
  {
    if m == map[] then multiset{} else
      var k :| k in m;
      m[k] + Bag(m - {k})
  }

  lemma {:induction false} BagRemove<T>(m: map<string, multiset<T>>, k: string)
    requires k in m
    ensures Bag(m) == m[k] + Bag(m - {k})
    decreases |m|
  {
    var first: string :| first in m && Bag(m) == m[first] + Bag(m - {first});
    if first != k {
      BagRemove(m - {first}, k);
      BagRemove(m - {k}, first);
      assert m - {first} - {k} == m - {k} - {first};
    }
  }

  lemma {:induction false} BagEmpty<T>(m: map<string, multiset<T>>)
    ensures Bag(m) == multiset{} <==> forall k :: k in m ==> m[k] == multiset{}
    decreases |m|
  {
    if m != map[] {
      var k :| k in m && Bag(m) == m[k] + Bag(m - {k});
      var rest := m - {k};
      BagEmpty(rest);
      assert Bag(m) == multiset{} <==> m[k] == multiset{} && Bag(rest) == multiset{} by {
        if Bag(m) == multiset{} {
          assert m[k] <= Bag(m) && Bag(rest) <= Bag(m);
        }
      }
      assert forall j :: j in m <==> j == k || j in rest;
      assert forall j :: j in rest ==> rest[j] == m[j];
    }
  }

  /** The bags that `f` gives the names, together. */
  ghost function BagOf<T>(f: string -> multiset<T>, names: set<string>): multiset<T> {
    Bag(map name | name in names :: f(name))
  }

  lemma BagOfRemove<T>(f: string -> multiset<T>, names: set<string>, name: string)
    requires name in names
    ensures BagOf(f, names) == f(name) + BagOf(f, names - {name})
  {
    var all := map n | n in names :: f(n);
    BagRemove(all, name);
    assert all - {name} == map n | n in names - {name} :: f(n);
  }

  lemma BagOfEmpty<T>(f: string -> multiset<T>, names: set<string>)
    ensures BagOf(f, names) == multiset{} <==> forall name :: name in names ==> f(name) == multiset{}
  {
    var all := map name | name in names :: f(name);
    BagEmpty(all);
    assert forall name :: name in names ==> all[name] == f(name);
  }

  lemma BagOfMember<T>(f: string -> multiset<T>, names: set<string>, x: T)
    ensures x in BagOf(f, names) <==> exists name :: name in names && x in f(name)
  {
    var all := map name | name in names :: f(name);
    BagMember(all, x);
    assert forall name :: name in names <==> name in all;
    assert forall name :: name in all ==> all[name] == f(name);
  }

  lemma {:induction false} BagMember<T>(m: map<string, multiset<T>>, x: T)
    ensures x in Bag(m) <==> exists k :: k in m && x in m[k]
    decreases |m|
  {
    if m != map[] {
      var k :| k in m && Bag(m) == m[k] + Bag(m - {k});
      var rest := m - {k};
      BagMember(rest, x);
      assert forall j :: j in rest ==> j in m && rest[j] == m[j];
      if x in Bag(m) && x !in m[k] {
        var j :| j in rest && x in rest[j];
        assert j in m && x in m[j];
      }
      if j :| j in m && x in m[j] {
        assert j == k || j in rest;
      }
    }
  }

  ghost function Pile<T>(s: seq<multiset<T>>): multiset<T>
  {
    if s == [] then multiset{} else Pile(s[..|s| - 1]) + s[|s| - 1]
  }

  lemma {:induction false} PileEmpty<T>(s: seq<multiset<T>>)
    ensures Pile(s) == multiset{} <==> forall i :: 0 <= i < |s| ==> s[i] == multiset{}
  {
    if s != [] {
      var front := s[..|s| - 1];
      PileEmpty(front);
      if Pile(s) == multiset{} {
        assert Pile(front) <= Pile(s) && s[|s| - 1] <= Pile(s);
        forall i | 0 <= i < |s| ensures s[i] == multiset{} {
          if i < |s| - 1 {
            assert s[i] == front[i];
          }
        }
      } else if Pile(front) != multiset{} {
        var i :| 0 <= i < |front| && front[i] != multiset{};
        assert s[i] == front[i];
      }
    }
  }

  lemma PileStep<T>(s: seq<multiset<T>>, i: nat)
    requires i < |s|
    ensures Pile(s[..i + 1]) == Pile(s[..i]) + s[i]
  {
    assert s[..i + 1][..i] == s[..i];
  }
}
