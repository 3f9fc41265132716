/** Paths of any text, placeholders inside placeholders included, filled with names that hold no braces:
    what an order can lead to, and when every order leads there. */
module Nesting {
  import opened Wrappers
  import opened Text
  import opened Paths
  import opened Rendering

  /* ---- Filling from the inside out ---- */

  /** The end of a text: an open brace with what follows it, if no brace comes after. */
  datatype Innermost = Shut | Open(before: string, name: string)

  function InnermostOf(done: string): Innermost {
    if done == "" then Shut
    else
      var front, c := done[..|done| - 1], done[|done| - 1];
      if c == '{' then Open(front, "")
      else if c == '}' then Shut
      else
        match InnermostOf(front)
        case Shut => Shut
        case Open(before, name) => Open(before, name + [c])
  }

  /** The name that a closing brace completes, if it has a value. */
  function Completed(done: string, c: char, values: map<string, string>): Option<string> {
    match InnermostOf(done)
    case Open(_, name) => if c == '}' && name in values then Some(name) else None
    case Shut => None
  }

  function OneCharacter(done: string, c: char, values: map<string, string>): string {
    match Completed(done, c, values)
    case Some(name) => InnermostOf(done).before + values[name]
    case None => done + [c]
  }

  /** The text filled from the inside out: every closing brace looks at what it completes. */
  function Reduce(done: string, s: string, values: map<string, string>): string
    decreases |s|
  {
    if s == "" then done else Reduce(OneCharacter(done, s[0], values), s[1..], values)
  }

  /** How often `name` is completed on the way. */
  function Completions(done: string, s: string, values: map<string, string>, name: string): (count: nat)
    decreases |s|
  {
    if s == "" then 0
    else (if Completed(done, s[0], values) == Some(name) then 1 else 0)
         + Completions(OneCharacter(done, s[0], values), s[1..], values, name)
  }

  /** How often `{name}` is spelled out. */
  function Spelled(s: string, name: string): (count: nat)
    decreases |s|
  {
    var from := "{" + name + "}";
    if |s| < |from| then 0
    else if s[..|from|] == from then 1 + Spelled(s[|from|..], name)
    else Spelled(s[1..], name)
  }

  /** Names and values are without braces. */
  ghost predicate Plain(values: map<string, string>) {
    forall key :: key in values ==> !HasBrace(key) && !HasBrace(values[key])
  }

  lemma {:induction false} InnermostIs(before: string, name: string)
    requires !HasBrace(name)
    ensures InnermostOf(before + "{" + name) == Open(before, name)
  {
    var done := before + "{" + name;
    if name == "" {
      assert done[..|done| - 1] == before;
    } else {
      var front := name[..|name| - 1];
      InnermostIs(before, front);
      assert done[..|done| - 1] == before + "{" + front;
      assert name == front + [name[|name| - 1]];
    }
  }

  /** Text without braces is copied. */
  lemma {:induction false} ReducePlain(done: string, word: string, rest: string, values: map<string, string>, name: string)
    requires !HasBrace(word)
    ensures Reduce(done, word + rest, values) == Reduce(done + word, rest, values)
    ensures Completions(done, word + rest, values, name) == Completions(done + word, rest, values, name)
    decreases |word|
  {
    if word == "" {
      assert word + rest == rest && done + word == done;
    } else {
      assert (word + rest)[1..] == word[1..] + rest;
      assert done + word == done + [word[0]] + word[1..];
      ReducePlain(done + [word[0]], word[1..], rest, values, name);
    }
  }

  /** A placeholder that is spelled out is completed at once. */
  lemma ReduceHole(done: string, key: string, rest: string, values: map<string, string>, name: string)
    requires Plain(values) && key in values
    ensures Reduce(done, "{" + key + "}" + rest, values) == Reduce(done + values[key], rest, values)
    ensures Completions(done, "{" + key + "}" + rest, values, name)
         == (if key == name then 1 else 0) + Completions(done + values[key], rest, values, name)
  {
    var s := "{" + key + "}" + rest;
    var begun := done + "{";
    assert s[1..] == key + ("}" + rest);
    assert begun == done + [s[0]];
    ReducePlain(begun, key, "}" + rest, values, name);
    InnermostIs(done, key);
    assert ("}" + rest)[1..] == rest;
  }

  /** Filling one name changes neither what the text reduces to nor how often others are completed. */
  lemma {:induction false} ReduceReplaced(done: string, s: string, values: map<string, string>, key: string, name: string)
    requires Plain(values) && key in values
    ensures var t := ReplaceAll(s, "{" + key + "}", values[key]);
            && Reduce(done, t, values) == Reduce(done, s, values)
            && Completions(done, s, values, name) ==
               Completions(done, t, values, name) + if key == name then Spelled(s, key) else 0
    decreases |s|
  {
    var from := "{" + key + "}";
    if |s| < |from| {
    } else if s[..|from|] == from {
      var rest := s[|from|..];
      assert s == from + rest;
      ReduceHole(done, key, rest, values, name);
      ReduceReplaced(done + values[key], rest, values, key, name);
      ReducePlain(done, values[key], ReplaceAll(rest, from, values[key]), values, name);
    } else {
      var t := ReplaceAll(s[1..], from, values[key]);
      ReduceReplaced(OneCharacter(done, s[0], values), s[1..], values, key, name);
      assert ([s[0]] + t)[1..] == t;
    }
  }

  /* ---- What is spelled out ---- */

  lemma {:induction false} SpelledAfterPlain(word: string, rest: string, name: string)
    requires '{' !in word
    ensures Spelled(word + rest, name) == Spelled(rest, name)
    decreases |word|
  {
    if word == "" {
      assert word + rest == rest;
    } else {
      assert (word + rest)[1..] == word[1..] + rest;
      SpelledAfterPlain(word[1..], rest, name);
      if |word + rest| >= |name| + 2 {
        assert (word + rest)[..|name| + 2][0] == word[0];
      }
    }
  }

  lemma SpelledAfterOne(c: char, rest: string, name: string)
    requires !HasBrace(name)
    ensures Spelled([c] + rest, name) >= Spelled(rest, name)
  {
    var from, s := "{" + name + "}", [c] + rest;
    assert s[1..] == rest;
    if |s| >= |from| && s[..|from|] == from {
      assert s[|from|..] == rest[|name| + 1..];
      assert from[1..] == name + "}" && s[..|from|][1..] == rest[..|name| + 1];
      assert rest == (name + "}") + s[|from|..];
      SpelledAfterPlain(name + "}", s[|from|..], name);
    }
  }

  /** Only what is completed can be spelled out. */
  lemma {:induction false} SpelledIsCompleted(done: string, s: string, values: map<string, string>, name: string)
    requires Plain(values) && name in values
    ensures Spelled(s, name) <= Completions(done, s, values, name)
    decreases |s|
  {
    var from := "{" + name + "}";
    if |s| < |from| {
    } else if s[..|from|] == from {
      assert s == from + s[|from|..];
      ReduceHole(done, name, s[|from|..], values, name);
      SpelledIsCompleted(done + values[name], s[|from|..], values, name);
    } else {
      SpelledIsCompleted(OneCharacter(done, s[0], values), s[1..], values, name);
    }
  }

  /** Filling one name leaves the others spelled out, and may spell out more. */
  lemma {:induction false} SpelledStays(s: string, key: string, value: string, name: string)
    requires !HasBrace(key) && !HasBrace(value) && !HasBrace(name) && key != name
    ensures Spelled(ReplaceAll(s, "{" + key + "}", value), name) >= Spelled(s, name)
    decreases |s|
  {
    var from, own := "{" + key + "}", "{" + name + "}";
    if |s| >= |own| && s[..|own|] == own {
      var rest := s[|own|..];
      assert s == own + rest;
      SpelledStays(rest, key, value, name);
      ReplaceInHole(key, name, rest, value);
      var t := own + ReplaceAll(rest, from, value);
      assert t[..|own|] == own && t[|own|..] == ReplaceAll(rest, from, value);
    } else if |s| >= |from| && s[..|from|] == from {
      var rest := s[|from|..];
      assert s == from + rest && from == "{" + (key + "}");
      SpelledStays(rest, key, value, name);
      SpelledAfterPlain(value, ReplaceAll(rest, from, value), name);
      SpelledHole(key, rest, name);
    } else if s != "" {
      SpelledStays(s[1..], key, value, name);
      NoMatchAtFront(s, from, value);
      SpelledAfterOne(s[0], ReplaceAll(s[1..], from, value), name);
      SpelledSkips(s, name);
    }
  }

  lemma SpelledSkips(s: string, name: string)
    requires s != "" && !("{" + name + "}" <= s)
    ensures Spelled(s, name) == Spelled(s[1..], name)
  {
  }

  lemma SpelledHole(key: string, rest: string, name: string)
    requires !HasBrace(key) && !HasBrace(name) && key != name
    ensures Spelled("{" + key + "}" + rest, name) == Spelled(rest, name)
  {
    var s := "{" + key + "}" + rest;
    if ("{" + name + "}") <= s {
      OtherHole(name, key, rest);
    }
    SpelledSkips(s, name);
    assert s[1..] == (key + "}") + rest;
    SpelledAfterPlain(key + "}", rest, name);
  }

  /* ---- The ends of a reduction ---- */

  lemma {:induction false} CompletingTakesABrace(done: string, s: string, values: map<string, string>, name: string)
    requires Completions(done, s, values, name) > 0
    ensures HasBrace(s)
    decreases |s|
  {
    if Completed(done, s[0], values) != Some(name) {
      CompletingTakesABrace(OneCharacter(done, s[0], values), s[1..], values, name);
    }
  }

  lemma {:induction false} NothingCompleted(done: string, s: string, values: map<string, string>)
    requires forall name :: name in values ==> Completions(done, s, values, name) == 0
    ensures Reduce(done, s, values) == done + s
    decreases |s|
  {
    if s != "" {
      forall name | name in values ensures Completed(done, s[0], values) != Some(name) {
        assert Completions(done, s, values, name) == 0;
      }
      NothingCompleted(done + [s[0]], s[1..], values);
      assert done + [s[0]] + s[1..] == done + s;
    }
  }

  /* ---- Any order ---- */

  ghost predicate PlainNamed(params: map<string, string>) {
    forall key :: key in params ==> !HasBrace(key)
  }

  /** The path with every placeholder filled from the inside out. */
  function Reduced(path: string, params: map<string, string>, escape: string -> string): string {
    Reduce("", Rooted(path), Escaped(params, escape))
  }

  /** Some placeholder has its name only once others inside it are filled. */
  ghost predicate Assembles(s: string, values: map<string, string>) {
    exists name :: name in values && Spelled(s, name) < Completions("", s, values, name)
  }

  lemma {:induction false} OrderReduces(path: string, params: map<string, string>, escape: string -> string, order: seq<string>)
    requires PlainNamed(params) && SegmentSafe(escape) && forall key :: key in order ==> key in params
    ensures Reduce("", Substitute(path, params, escape, order), Escaped(params, escape)) == Reduce("", path, Escaped(params, escape))
  {
    if order != [] {
      var front, last := order[..|order| - 1], order[|order| - 1];
      OrderReduces(path, params, escape, front);
      assert last in order;
      ReduceReplaced("", Substitute(path, params, escape, front), Escaped(params, escape), last, last);
    }
  }

  /** A name whose turn comes later is completed as often as at the start. */
  lemma {:induction false} OthersKept(path: string, params: map<string, string>, escape: string -> string, order: seq<string>, name: string)
    requires PlainNamed(params) && SegmentSafe(escape) && (forall key :: key in order ==> key in params) && name !in order
    ensures Completions("", Substitute(path, params, escape, order), Escaped(params, escape), name)
         == Completions("", path, Escaped(params, escape), name)
  {
    if order != [] {
      var front, last := order[..|order| - 1], order[|order| - 1];
      OthersKept(path, params, escape, front, name);
      assert last in order;
      ReduceReplaced("", Substitute(path, params, escape, front), Escaped(params, escape), last, name);
    }
  }

  /** A name that has to be assembled and comes first is never filled. */
  lemma AssembledFirst(path: string, params: map<string, string>, escape: string -> string, name: string, rest: seq<string>)
    requires PlainNamed(params) && SegmentSafe(escape) && IsOrder([name] + rest, params.Keys)
    requires Spelled(path, name) < Completions("", path, Escaped(params, escape), name)
    ensures HasBrace(Substitute(path, params, escape, [name] + rest))
  {
    var first := ReplaceAll(path, "{" + name + "}", escape(params[name]));
    HeadOfOrder(name, rest, params.Keys);
    NameFirst(path, params, escape, name, rest);
    ReduceReplaced("", path, Escaped(params, escape), name, name);
    OthersKept(first, params, escape, rest, name);
    CompletingTakesABrace("", Substitute(first, params, escape, rest), Escaped(params, escape), name);
  }

  lemma NameFirst(path: string, params: map<string, string>, escape: string -> string, name: string, rest: seq<string>)
    requires name in params && (forall key :: key in rest ==> key in params) && forall key :: key in [name] + rest ==> key in params
    ensures Substitute(path, params, escape, [name] + rest)
         == Substitute(ReplaceAll(path, "{" + name + "}", escape(params[name])), params, escape, rest)
  {
    SubstituteInTurn(path, params, escape, [name], rest);
    assert [name][..0] == [];
    assert Substitute(path, params, escape, []) == path;
  }

  lemma HeadOfOrder(name: string, rest: seq<string>, keys: set<string>)
    requires IsOrder([name] + rest, keys)
    ensures name in keys && name !in rest && forall key :: key in rest ==> key in keys
  {
    var order := [name] + rest;
    assert order[0] == name && name in order;
    forall key | key in rest ensures key in keys && key != name {
      var i :| 0 <= i < |rest| && rest[i] == key;
      assert order[i + 1] == key && key in order;
    }
  }

  /** Where nothing has to be assembled, no name is left to complete once its turn has come. */
  lemma {:induction false} SpelledOrder(path: string, params: map<string, string>, escape: string -> string, order: seq<string>)
    requires PlainNamed(params) && SegmentSafe(escape) && (forall key :: key in order ==> key in params)
    requires !Assembles(path, Escaped(params, escape))
    ensures var t, values := Substitute(path, params, escape, order), Escaped(params, escape);
            !Assembles(t, values) && forall name :: name in order ==> Completions("", t, values, name) == 0
  {
    if order != [] {
      var front, last := order[..|order| - 1], order[|order| - 1];
      assert last in order && order == front + [last];
      SpelledOrder(path, params, escape, front);
      OneNameFilled(Substitute(path, params, escape, front), Escaped(params, escape), last);
    }
  }

  lemma OneNameFilled(s: string, values: map<string, string>, key: string)
    requires Plain(values) && key in values && !Assembles(s, values)
    ensures var t := ReplaceAll(s, "{" + key + "}", values[key]);
            && !Assembles(t, values) && Completions("", t, values, key) == 0
            && forall name :: name in values && name != key ==> Completions("", t, values, name) == Completions("", s, values, name)
  {
    var t := ReplaceAll(s, "{" + key + "}", values[key]);
    forall name | name in values
      ensures Spelled(t, name) >= Completions("", t, values, name)
      ensures Completions("", t, values, name) == if name == key then 0 else Completions("", s, values, name)
    {
      ReduceReplaced("", s, values, key, name);
      SpelledIsCompleted("", s, values, name);
      if name != key {
        SpelledStays(s, key, values[key], name);
      }
    }
  }

  /** Every order that renders the path at all renders this one. */
  lemma OneSuccess(path: string, params: map<string, string>, escape: string -> string, rendered: string)
    requires PlainNamed(params) && SegmentSafe(escape) && Renders(path, params, escape, Some(rendered))
    ensures rendered == Reduced(path, params, escape) && !HasBrace(rendered)
  {
    var order :| IsOrder(order, params.Keys) && Some(rendered) == RenderedIn(order, path, params, escape);
    OrderReduces(Rooted(path), params, escape, order);
    ReducePlain("", rendered, "", Escaped(params, escape), "");
    assert rendered + "" == rendered && "" + rendered == rendered;
  }

  lemma SpelledRenders(path: string, params: map<string, string>, escape: string -> string, rendered: Option<string>)
    requires PlainNamed(params) && SegmentSafe(escape) && Renders(path, params, escape, rendered)
    requires !Assembles(Rooted(path), Escaped(params, escape))
    ensures rendered == if HasBrace(Reduced(path, params, escape)) then None else Some(Reduced(path, params, escape))
  {
    var order :| IsOrder(order, params.Keys) && rendered == RenderedIn(order, path, params, escape);
    var filled := Substitute(Rooted(path), params, escape, order);
    SpelledOrder(Rooted(path), params, escape, order);
    OrderReduces(Rooted(path), params, escape, order);
    NothingCompleted("", filled, Escaped(params, escape));
    assert "" + filled == filled;
  }

  /** If a name has to be assembled, some order ends in an error. */
  lemma AssemblingFails(path: string, params: map<string, string>, escape: string -> string)
    requires PlainNamed(params) && SegmentSafe(escape) && Assembles(Rooted(path), Escaped(params, escape))
    ensures Renders(path, params, escape, None)
  {
    var name :| name in params && Spelled(Rooted(path), name) < Completions("", Rooted(path), Escaped(params, escape), name);
    var rest := ListNames(params.Keys - {name});
    OrderOfParts([name], rest, {name}, params.Keys - {name});
    assert {name} + (params.Keys - {name}) == params.Keys;
    AssembledFirst(Rooted(path), params, escape, name, rest);
    assert RenderedIn([name] + rest, path, params, escape) == None;
  }

  /** For names without braces and a path of any text: every order renders the path exactly when filling
      from the inside out leaves no brace and no name has to be assembled; and the orders agree exactly
      when no name has to be assembled or none of them renders the path. */
  lemma AnyTextExactly(path: string, params: map<string, string>, escape: string -> string)
    requires PlainNamed(params) && SegmentSafe(escape)
    ensures (forall rendered :: Renders(path, params, escape, rendered) ==> rendered == Some(Reduced(path, params, escape)))
            <==> !HasBrace(Reduced(path, params, escape)) && !Assembles(Rooted(path), Escaped(params, escape))
    ensures (forall a, b :: Renders(path, params, escape, a) && Renders(path, params, escape, b) ==> a == b)
            <==> !Assembles(Rooted(path), Escaped(params, escape)) || forall a :: Renders(path, params, escape, a) ==> a == None
  {
    var order := ListNames(params.Keys);
    var some := RenderedIn(order, path, params, escape);
    assert Renders(path, params, escape, some);
    if some.Some? {
      OneSuccess(path, params, escape, some.value);
    }
    if Assembles(Rooted(path), Escaped(params, escape)) {
      AssemblingFails(path, params, escape);
    } else {
      forall rendered | Renders(path, params, escape, rendered)
        ensures rendered == if HasBrace(Reduced(path, params, escape)) then None else Some(Reduced(path, params, escape))
      {
        SpelledRenders(path, params, escape, rendered);
      }
    }
  }
}
