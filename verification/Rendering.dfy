/** When the order of the path parameters matters: exactly when a name with a brace can turn up. */
module Rendering {
  import opened Text
  import opened Paths

  /* ---- Orders ---- */

  lemma {:induction false} ListNames(names: set<string>) returns (order: seq<string>)
    ensures IsOrder(order, names) && KeysOf(order) == names
  {
    if names == {} {
      order := [];
    } else {
      var name :| name in names;
      var rest := ListNames(names - {name});
      order := [name] + rest;
    }
  }

  lemma OrderOfParts(a: seq<string>, b: seq<string>, s: set<string>, t: set<string>)
    requires IsOrder(a, s) && IsOrder(b, t) && s !! t
    ensures IsOrder(a + b, s + t)
  {
    var order := a + b;
    forall i, j | 0 <= i < j < |order| ensures order[i] != order[j] {
      if i < |a| <= j {
        assert a[i] in s && b[j - |a|] in t;
      }
    }
  }

  lemma {:induction false} SubstituteInTurn(path: string, params: map<string, string>, escape: string -> string, a: seq<string>, b: seq<string>)
    requires forall key :: key in a + b ==> key in params
    requires (forall key :: key in a ==> key in params) && forall key :: key in b ==> key in params
    ensures Substitute(path, params, escape, a + b) == Substitute(Substitute(path, params, escape, a), params, escape, b)
  {
    if b == [] {
      assert a + b == a;
    } else {
      var front := b[..|b| - 1];
      assert (a + b)[..|a + b| - 1] == a + front;
      SubstituteInTurn(path, params, escape, a, front);
    }
  }

  /** Where no brace is left the remaining parameters change nothing. */
  lemma {:induction false} NothingLeftToFill(path: string, params: map<string, string>, escape: string -> string, order: seq<string>)
    requires !HasBrace(path) && forall key :: key in order ==> key in params
    ensures Substitute(path, params, escape, order) == path
  {
    if order != [] {
      var pattern := "{" + order[|order| - 1] + "}";
      NothingLeftToFill(path, params, escape, order[..|order| - 1]);
      forall i | 0 <= i <= |path| ensures !(pattern <= path[i..]) {
        assert pattern[0] == '{';
      }
      ReplaceAbsent(path, pattern, escape(params[order[|order| - 1]]));
    }
  }

  /* ---- A long value stays ---- */

  ghost predicate Holds(s: string, chunk: string) {
    exists a, b :: s == a + chunk + b
  }

  lemma HoldsAfter(front: string, s: string, chunk: string)
    requires Holds(s, chunk)
    ensures Holds(front + s, chunk)
  {
    var a, b :| s == a + chunk + b;
    assert front + s == (front + a) + chunk + b;
  }

  lemma HoldsHere(chunk: string, back: string)
    ensures Holds(chunk + back, chunk)
  {
    assert chunk + back == "" + chunk + back;
  }

  lemma HoldsIsLonger(s: string, chunk: string)
    requires Holds(s, chunk)
    ensures |s| >= |chunk|
  {
  }

  lemma {:induction false} ReplacedHolds(s: string, from: string, to: string)
    requires from != "" && Contains(s, from)
    ensures Holds(ReplaceAll(s, from, to), to)
  {
    if from <= s {
      HoldsHere(to, ReplaceAll(s[|from|..], from, to));
    } else {
      NoMatchAtFront(s, from, to);
      ContainedLater(s, from);
      ReplacedHolds(s[1..], from, to);
      HoldsAfter([s[0]], ReplaceAll(s[1..], from, to), to);
    }
  }

  lemma ContainedLater(s: string, part: string)
    requires Contains(s, part) && !(part <= s)
    ensures s != "" && Contains(s[1..], part)
  {
    var i :| 0 <= i <= |s| && part <= s[i..];
    assert s[0..] == s;
    assert s[i..] == s[1..][i - 1..];
  }

  lemma {:induction false} LongChunkStays(a: string, chunk: string, b: string, name: string, to: string)
    requires !HasBrace(chunk) && |chunk| > |"{" + name + "}"|
    ensures Holds(ReplaceAll(a + chunk + b, "{" + name + "}", to), chunk)
    decreases |a|
  {
    var from := "{" + name + "}";
    var s := a + chunk + b;
    if a == "" {
      assert s == chunk + b;
      ReplaceCopies(chunk, b, from, to);
      HoldsHere(chunk, ReplaceAll(b, from, to));
    } else if from <= s {
      MatchBeforeChunk(a, chunk, b, from);
      var rest := a[|from|..];
      assert s[|from|..] == rest + chunk + b;
      LongChunkStays(rest, chunk, b, name, to);
      HoldsAfter(to, ReplaceAll(rest + chunk + b, from, to), chunk);
    } else {
      assert s[1..] == a[1..] + chunk + b;
      LongChunkStays(a[1..], chunk, b, name, to);
      NoMatchAtFront(s, from, to);
      HoldsAfter([s[0]], ReplaceAll(a[1..] + chunk + b, from, to), chunk);
    }
  }

  /** A match at the front ends with a brace, so it ends before the chunk. */
  lemma MatchBeforeChunk(a: string, chunk: string, b: string, from: string)
    requires from != "" && from[|from| - 1] == '}' && from <= a + chunk + b
    requires !HasBrace(chunk) && |chunk| > |from|
    ensures |from| <= |a|
  {
    var s := a + chunk + b;
    assert s[|from| - 1] == '}';
    assert forall i :: |a| <= i < |a| + |chunk| ==> s[i] == chunk[i - |a|];
  }

  lemma {:induction false} LongChunkSurvives(path: string, params: map<string, string>, escape: string -> string,
                                             order: seq<string>, chunk: string)
    requires Holds(path, chunk) && !HasBrace(chunk) && forall key :: key in order ==> key in params
    requires forall key :: key in order ==> |chunk| > |key| + 2
    ensures Holds(Substitute(path, params, escape, order), chunk)
  {
    if order != [] {
      var front, last := order[..|order| - 1], order[|order| - 1];
      LongChunkSurvives(path, params, escape, front, chunk);
      var a, b :| Substitute(path, params, escape, front) == a + chunk + b;
      assert last in order;
      LongChunkStays(a, chunk, b, last, escape(params[last]));
    }
  }

  lemma {:induction false} LengthBound(names: set<string>) returns (n: nat)
    ensures forall name :: name in names ==> |name| <= n
  {
    if names == {} {
      n := 0;
    } else {
      var name :| name in names;
      var rest := LengthBound(names - {name});
      n := if |name| > rest then |name| else rest;
    }
  }

  /* ---- The exact condition ---- */

  /** The same names, and the same values for the names without braces. */
  ghost predicate PlainAgree(params: map<string, string>, other: map<string, string>) {
    other.Keys == params.Keys && forall key :: key in params && !HasBrace(key) ==> other[key] == params[key]
  }

  lemma PlainAgreeUnspelled(parts: seq<Part>, params: map<string, string>, other: map<string, string>, escape: string -> string)
    requires PlainAgree(params, other) && Unspelled(parts, params, escape, params.Keys)
    ensures Unspelled(parts, other, escape, other.Keys)
  {
    forall key, names | key in other && HasBrace(key) && names <= PlainNames(other.Keys) ensures !Spells(parts, other, escape, names, key) {
      assert Values(other, escape, names) == Values(params, escape, names);
      assert !Spells(parts, params, escape, names, key);
    }
  }

  /** The names without braces first: the placeholders are filled and nothing is left to do. */
  lemma PlainFirst(parts: seq<Part>, params: map<string, string>, escape: string -> string)
    returns (order: seq<string>, filled: string)
    requires BraceFree(parts) && SegmentSafe(escape) && Named(parts, params.Keys)
    ensures IsOrder(order, params.Keys)
    ensures filled == TemplateText(Fill(parts, Values(params, escape, PlainNames(params.Keys)))) && !HasBrace(filled)
    ensures Substitute(TemplateText(parts), params, escape, order) == filled
  {
    var plain := PlainNames(params.Keys);
    var first := ListNames(plain);
    var second := ListNames(params.Keys - plain);
    order := first + second;
    OrderOfParts(first, second, plain, params.Keys - plain);
    assert plain + (params.Keys - plain) == params.Keys;
    assert PlainNames(plain) == plain;
    SubstituteFills(parts, params, escape, first);
    filled := TemplateText(Fill(parts, Values(params, escape, plain)));
    FilledLeavesNoBrace(parts, Values(params, escape, plain));
    SubstituteInTurn(TemplateText(parts), params, escape, first, second);
    NothingLeftToFill(filled, params, escape, second);
  }

  lemma FilledLeavesNoBrace(parts: seq<Part>, values: map<string, string>)
    requires BraceFree(parts) && (forall key :: key in values ==> !HasBrace(values[key]))
    requires forall i :: 0 <= i < |parts| && parts[i].Hole? ==> parts[i].name in values
    ensures !HasBrace(TemplateText(Fill(parts, values)))
  {
    FillBraceFree(parts, values);
    BracesAreHoles(Fill(parts, values));
    HolesLeft(parts, values);
  }

  /** The name that turns up in its turn: its value is in the result. */
  lemma SpelledInTurn(parts: seq<Part>, params: map<string, string>, escape: string -> string, names: set<string>, key: string)
    returns (order: seq<string>)
    requires BraceFree(parts) && SegmentSafe(escape)
    requires key in params && HasBrace(key) && names <= PlainNames(params.Keys) && Spells(parts, params, escape, names, key)
    requires forall other :: other in params ==> |escape(params[key])| > |other| + 2
    ensures IsOrder(order, params.Keys)
    ensures Holds(Substitute(TemplateText(parts), params, escape, order), escape(params[key]))
  {
    var rest := params.Keys - names - {key};
    var first := ListNames(names);
    var last := ListNames(rest);
    OrderOfParts(first, [key], names, {key});
    OrderOfParts(first + [key], last, names + {key}, rest);
    assert names + {key} + rest == params.Keys;
    order := first + [key] + last;
    var path := TemplateText(parts);
    assert PlainNames(names) == names;
    SubstituteFills(parts, params, escape, first);
    SubstituteInTurn(path, params, escape, first + [key], last);
    var filled := Substitute(path, params, escape, first);
    assert (first + [key])[..|first|] == first;
    assert Substitute(path, params, escape, first + [key]) == ReplaceAll(filled, "{" + key + "}", escape(params[key]));
    ReplacedHolds(filled, "{" + key + "}", escape(params[key]));
    LongChunkSurvives(Substitute(path, params, escape, first + [key]), params, escape, last, escape(params[key]));
  }

  /** A value longer than anything it could be mistaken for. */
  lemma LongValue(params: map<string, string>, escape: string -> string, filled: string) returns (value: string)
    requires forall s :: |s| <= |escape(s)|
    ensures |escape(value)| > |filled| && forall other :: other in params ==> |escape(value)| > |other| + 2
  {
    var n := LengthBound(params.Keys);
    value := seq(n + |filled| + 3, _ => 'x');
  }

  lemma Revalued(params: map<string, string>, escape: string -> string, key: string, value: string, names: set<string>)
    requires key in params && key !in names && names <= params.Keys
    ensures names <= params[key := value].Keys && Values(params[key := value], escape, names) == Values(params, escape, names)
  {
  }

  /** If a name with a brace can turn up, some value of it makes two orders differ. */
  lemma SpelledNameMatters(parts: seq<Part>, params: map<string, string>, escape: string -> string, names: set<string>, key: string)
    returns (other: map<string, string>, a: seq<string>, b: seq<string>)
    requires BraceFree(parts) && SegmentSafe(escape) && (forall s :: |s| <= |escape(s)|) && Named(parts, params.Keys)
    requires key in params && HasBrace(key) && names <= PlainNames(params.Keys) && Spells(parts, params, escape, names, key)
    ensures PlainAgree(params, other) && IsOrder(a, other.Keys) && IsOrder(b, other.Keys)
    ensures !HasBrace(Substitute(TemplateText(parts), other, escape, a))
    ensures Substitute(TemplateText(parts), other, escape, a) != Substitute(TemplateText(parts), other, escape, b)
  {
    var plain := PlainNames(params.Keys);
    var value := LongValue(params, escape, TemplateText(Fill(parts, Values(params, escape, plain))));
    other := params[key := value];
    Revalued(params, escape, key, value, plain);
    Revalued(params, escape, key, value, names);
    assert other.Keys == params.Keys;
    var filled;
    a, filled := PlainFirst(parts, other, escape);
    b := SpelledInTurn(parts, other, escape, names, key);
    HoldsIsLonger(Substitute(TemplateText(parts), other, escape, b), escape(value));
  }

  /** For a template whose placeholders all have a parameter: the order is without effect, whatever
      values the names with braces have, exactly when no partial filling of the template makes such a
      name turn up. */
  lemma OrderIgnoredExactly(parts: seq<Part>, params: map<string, string>, escape: string -> string)
    requires BraceFree(parts) && SegmentSafe(escape) && (forall s :: |s| <= |escape(s)|) && Named(parts, params.Keys)
    ensures Unspelled(RootedParts(parts), params, escape, params.Keys) <==>
            forall other, a, b ::
              PlainAgree(params, other) && Renders(TemplateText(parts), other, escape, a) && Renders(TemplateText(parts), other, escape, b)
              ==> a == b
  {
    var rooted := RootedParts(parts);
    RootedText(parts);
    NamedRooted(parts, params.Keys);
    if Unspelled(rooted, params, escape, params.Keys) {
      forall other, a, b | PlainAgree(params, other) && Renders(TemplateText(parts), other, escape, a)
          && Renders(TemplateText(parts), other, escape, b) ensures a == b {
        PlainAgreeUnspelled(rooted, params, other, escape);
        OneRendering(parts, other, escape, a);
        OneRendering(parts, other, escape, b);
      }
    } else {
      var key, names :| key in params && HasBrace(key) && names <= PlainNames(params.Keys) && Spells(rooted, params, escape, names, key);
      var other, a, b := SpelledNameMatters(rooted, params, escape, names, key);
      var path := TemplateText(parts);
      assert Renders(path, other, escape, RenderedIn(a, path, other, escape));
      assert Renders(path, other, escape, RenderedIn(b, path, other, escape));
    }
  }

  /* ---- Inputs ---- */

  ghost predicate Keeps(escape: string -> string, texts: set<string>) {
    SegmentSafe(escape) && forall s :: s in texts ==> escape(s) == s
  }

  /** Two orders, two results: an error, or a path in which one value stands for two placeholders. */
  lemma OrderCanMatter(escape: string -> string, one: string, two: string)
    requires one == "1" && two == "2" && Keeps(escape, {one, two})
    ensures var params := map["a" := one, "a}{b" := two];
            Substitute("/{a}{b}", params, escape, ["a", "a}{b"]) == "/1{b}"
            && Substitute("/{a}{b}", params, escape, ["a}{b", "a"]) == "/2"
  {
    var params := map["a" := one, "a}{b" := two];
    TwoInTurn("/{a}{b}", params, escape, "a", "a}{b");
    TwoInTurn("/{a}{b}", params, escape, "a}{b", "a");
    assert "{" + "a" + "}" == "{a}" && "{" + "a}{b" + "}" == "{a}{b}";
    ShortNameFirst(one);
  }

  lemma TwoInTurn(path: string, params: map<string, string>, escape: string -> string, first: string, second: string)
    requires first in params && second in params
    ensures Substitute(path, params, escape, [first, second])
         == ReplaceAll(ReplaceAll(path, "{" + first + "}", escape(params[first])), "{" + second + "}", escape(params[second]))
  {
    assert [first, second][..1] == [first] && [first][..0] == [];
    assert Substitute(path, params, escape, []) == path;
    assert Substitute(path, params, escape, [first]) == ReplaceAll(path, "{" + first + "}", escape(params[first]));
  }

  lemma ShortNameFirst(one: string)
    requires one == "1"
    ensures ReplaceAll("/{a}{b}", "{a}", one) == "/1{b}"
  {
    LacksCharacter("{b}", "{a}", 1);
    ReplaceAbsent("{b}", "{a}", one);
    ReplaceFront("{b}", "{a}", one);
    ReplaceSkips('/', "{a}{b}", "{a}", one);
    assert "{a}" + "{b}" == "{a}{b}" && ['/'] + "{a}{b}" == "/{a}{b}" && ['/'] + ("1" + "{b}") == "/1{b}";
  }

  /** A template with a placeholder inside a placeholder: no name has a brace and the order decides
      all the same. */
  lemma NestedTemplate(escape: string -> string, path: string, inner: string, outer: string, one: string, two: string)
    requires path == "/{a{c}b}" && inner == "c" && outer == "a1b" && one == "1" && two == "2"
    requires Keeps(escape, {one, two})
    ensures var params := map[inner := one, outer := two];
            Substitute(path, params, escape, [inner, outer]) == "/2"
            && Substitute(path, params, escape, [outer, inner]) == "/{a1b}"
  {
    var params := map[inner := one, outer := two];
    TwoInTurn(path, params, escape, inner, outer);
    TwoInTurn(path, params, escape, outer, inner);
    assert "{" + inner + "}" == "{c}" && "{" + outer + "}" == "{a1b}";
    InnerFirst(one);
    OuterAfterInner(two);
    OuterFirst(two);
  }

  lemma InnerFirst(one: string)
    requires one == "1"
    ensures ReplaceAll("/{a{c}b}", "{c}", one) == "/{a1b}"
  {
    assert "{a{c}b}"[1] != "{c}"[1] && "{a{c}b}"[1..] == "a{c}b}";
    NoMatchAtFront("{a{c}b}", "{c}", one);
    ReplaceSkips('/', "{a{c}b}", "{c}", one);
    assert ['/'] + "{a{c}b}" == "/{a{c}b}";
    assert ['{'] + "a1b}" == "{a1b}" && ['/'] + "{a1b}" == "/{a1b}";
  }

  lemma OuterAfterInner(two: string)
    requires two == "2"
    ensures ReplaceAll("/{a1b}", "{a1b}", two) == "/2"
  {
    ReplaceFront("", "{a1b}", two);
    ReplaceSkips('/', "{a1b}", "{a1b}", two);
    assert "{a1b}" + "" == "{a1b}" && ['/'] + two == "/2";
  }

  lemma OuterFirst(two: string)
    ensures ReplaceAll("/{a{c}b}", "{a1b}", two) == "/{a{c}b}"
  {
    LacksCharacter("/{a{c}b}", "{a1b}", 2);
    ReplaceAbsent("/{a{c}b}", "{a1b}", two);
  }

  lemma LacksCharacter(s: string, part: string, j: nat)
    requires j < |part| && part[j] !in s
    ensures !Contains(s, part)
  {
    assert forall i :: 0 <= i && i + j < |s| ==> s[i..][j] == s[i + j];
  }

  /** A name with a brace turns up here, and for these values the order is without effect all the
      same: why the exact condition speaks of all values of such names. */
  lemma ValuesCanHideIt(escape: string -> string, one: string, two: string, both: string)
    requires one == "1" && two == "2" && both == "12" && Keeps(escape, {one, two, both})
    ensures var params := map["a" := one, "b" := two, "a}{b" := both];
            && Spells([Lit('/'), Hole("a"), Hole("b")], params, escape, {}, "a}{b")
            && Substitute("/{a}{b}", params, escape, ["a", "b", "a}{b"]) == "/12"
            && Substitute("/{a}{b}", params, escape, ["a}{b", "a", "b"]) == "/12"
  {
    var params := map["a" := one, "b" := two, "a}{b" := both];
    SpelledBetween(params, escape);
    assert ["a", "b", "a}{b"] == ["a", "b"] + ["a}{b"] && ["a}{b", "a", "b"] == ["a}{b"] + ["a", "b"];
    SubstituteInTurn("/{a}{b}", params, escape, ["a", "b"], ["a}{b"]);
    SubstituteInTurn("/{a}{b}", params, escape, ["a}{b"], ["a", "b"]);
    TwoInTurn("/{a}{b}", params, escape, "a", "b");
    assert ["a}{b"][..0] == [];
    assert "{" + "a" + "}" == "{a}" && "{" + "b" + "}" == "{b}" && "{" + "a}{b" + "}" == "{a}{b}";
    ShortNameFirst(one);
    LastPlaceholder(two);
    LongNameAtOnce(both);
    NothingLeftToFill("/12", params, escape, ["a}{b"]);
    NothingLeftToFill("/12", params, escape, ["a", "b"]);
  }

  lemma SpelledBetween(params: map<string, string>, escape: string -> string)
    ensures Spells([Lit('/'), Hole("a"), Hole("b")], params, escape, {}, "a}{b")
  {
    var parts := [Lit('/'), Hole("a"), Hole("b")];
    assert Values(params, escape, {}) == map[];
    FillNothing(parts);
    SinglePart(Hole("b"));
    assert parts[1..] == [Hole("a"), Hole("b")] && parts[1..][1..] == [Hole("b")];
    assert TemplateText(parts)[1..] == "{" + "a}{b" + "}";
  }

  lemma LastPlaceholder(two: string)
    requires two == "2"
    ensures ReplaceAll("/1{b}", "{b}", two) == "/12"
  {
    ReplaceFront("", "{b}", two);
    ReplaceSkips('1', "{b}", "{b}", two);
    ReplaceSkips('/', "1{b}", "{b}", two);
    assert "{b}" + "" == "{b}" && ['1'] + "{b}" == "1{b}" && ['/'] + "1{b}" == "/1{b}";
    assert ['/'] + (['1'] + two) == "/12";
  }

  lemma LongNameAtOnce(both: string)
    requires both == "12"
    ensures ReplaceAll("/{a}{b}", "{a}{b}", both) == "/12"
  {
    ReplaceFront("", "{a}{b}", both);
    ReplaceSkips('/', "{a}{b}", "{a}{b}", both);
    assert ['/'] + "{a}{b}" == "/{a}{b}" && "{a}{b}" + "" == "{a}{b}" && ['/'] + both == "/12";
  }
}
