/** Path templates: filling their placeholders, and the regular expression a template stands for. */
module Paths {
  import opened Wrappers
  import opened Text

  /* ---- Filling placeholders ---- */

  /** What the loop over the parameters makes of a path when it meets the names in this order. */
  function Substitute(path: string, params: map<string, string>, escape: string -> string, order: seq<string>): string
    requires forall key :: key in order ==> key in params
  {
    if order == [] then path
    else
      var last := order[|order| - 1];
      ReplaceAll(Substitute(path, params, escape, order[..|order| - 1]), "{" + last + "}", escape(params[last]))
  }

  /** `order` lists `keys`, each once. */
  ghost predicate IsOrder(order: seq<string>, keys: set<string>) {
    && (forall key :: key in order <==> key in keys)
    && forall i, j :: 0 <= i < j < |order| ==> order[i] != order[j]
  }

  predicate HasBrace(s: string) {
    '{' in s || '}' in s
  }

  function Rooted(path: string): string {
    if "/" <= path then path else "/" + path
  }

  /** `rendered` is what filling the path gives when the parameters come in some order; an error when a
      brace is left. */
  ghost predicate Renders(path: string, params: map<string, string>, escape: string -> string, rendered: Option<string>) {
    exists order :: IsOrder(order, params.Keys) && rendered == RenderedIn(order, path, params, escape)
  }

  function RenderedIn(order: seq<string>, path: string, params: map<string, string>, escape: string -> string): Option<string>
    requires forall key :: key in order ==> key in params
  {
    var filled := Substitute(Rooted(path), params, escape, order);
    if HasBrace(filled) then None else Some(filled)
  }

  method RenderPath(path: string, params: map<string, string>, escape: string -> string) returns (rendered: Option<string>)
    ensures Renders(path, params, escape, rendered)
  {
    var actualPath := path;
    if !("/" <= actualPath) {
      actualPath := "/" + actualPath;
    }
    var waiting := params.Keys;
    ghost var order: seq<string> := [];
    while waiting != {}
      invariant waiting <= params.Keys
      invariant forall key :: key in order <==> key in params.Keys - waiting
      invariant forall i, j :: 0 <= i < j < |order| ==> order[i] != order[j]
      invariant actualPath == Substitute(Rooted(path), params, escape, order)
      decreases |waiting|
    {
      var key :| key in waiting;
      actualPath := ReplaceAll(actualPath, "{" + key + "}", escape(params[key]));
      assert (order + [key])[..|order|] == order && key !in order;
      order := order + [key];
      waiting := waiting - {key};
    }
    assert IsOrder(order, params.Keys);
    rendered := if HasBrace(actualPath) then None else Some(actualPath);
    assert rendered == RenderedIn(order, path, params, escape);
  }

  /* ---- Templates ---- */

  datatype Part = Lit(c: char) | Hole(name: string)

  const METACHARACTERS: string := "\\.+*?()|[]{}^$"

  /** Literals without metacharacters, placeholders with a name and without braces in it. */
  ghost predicate WellFormed(parts: seq<Part>) {
    forall i :: 0 <= i < |parts| ==>
      match parts[i] {
        case Lit(c) => c !in METACHARACTERS
        case Hole(name) => name != "" && !HasBrace(name)
      }
  }

  function PartText(part: Part): string {
    match part
    case Lit(c) => [c]
    case Hole(name) => "{" + name + "}"
  }

  function TemplateText(parts: seq<Part>): string {
    if parts == [] then "" else PartText(parts[0]) + TemplateText(parts[1..])
  }

  function Lits(s: string): (parts: seq<Part>) {
    seq(|s|, i requires 0 <= i < |s| => Lit(s[i]))
  }

  /** The template with one placeholder filled. */
  function FillOne(parts: seq<Part>, key: string, value: string): seq<Part> {
    if parts == [] then []
    else (if parts[0] == Hole(key) then Lits(value) else [parts[0]]) + FillOne(parts[1..], key, value)
  }

  /** The template with the given placeholders filled, all at once. */
  function Fill(parts: seq<Part>, values: map<string, string>): seq<Part> {
    if parts == [] then []
    else (if parts[0].Hole? && parts[0].name in values then Lits(values[parts[0].name]) else [parts[0]])
         + Fill(parts[1..], values)
  }

  ghost predicate BraceFree(parts: seq<Part>) {
    forall i :: 0 <= i < |parts| ==> !HasBrace(if parts[i].Lit? then [parts[i].c] else parts[i].name)
  }

  lemma {:induction false} LitsText(s: string)
    ensures TemplateText(Lits(s)) == s
  {
    if s != "" {
      assert Lits(s)[1..] == Lits(s[1..]);
      LitsText(s[1..]);
    }
  }

  lemma {:induction false} TextOfConcat(a: seq<Part>, b: seq<Part>)
    ensures TemplateText(a + b) == TemplateText(a) + TemplateText(b)
  {
    if a == [] {
      assert a + b == b;
    } else {
      assert (a + b)[1..] == a[1..] + b;
      TextOfConcat(a[1..], b);
    }
  }

  /** Only the placeholder of the same name matches, wherever the text goes on. */
  lemma OtherHole(key: string, name: string, rest: string)
    requires !HasBrace(key) && !HasBrace(name) && ("{" + key + "}") <= ("{" + name + "}" + rest)
    ensures key == name
  {
    var from, all := "{" + key + "}", "{" + name + "}" + rest;
    assert forall i :: 0 <= i < |from| ==> from[i] == all[i];
    assert forall i :: 0 <= i < |key| ==> from[i + 1] == key[i];
    assert forall i :: 0 <= i < |name| ==> all[i + 1] == name[i];
    assert from[|key| + 1] == '}' && all[|name| + 1] == '}';
    assert |key| == |name|;
  }

  lemma ReplaceInHole(key: string, name: string, rest: string, value: string)
    requires !HasBrace(key) && !HasBrace(name)
    ensures ReplaceAll("{" + name + "}" + rest, "{" + key + "}", value)
         == (if key == name then value else "{" + name + "}") + ReplaceAll(rest, "{" + key + "}", value)
  {
    var from, all := "{" + key + "}", "{" + name + "}" + rest;
    if key == name {
      ReplaceFront(rest, from, value);
    } else {
      if from <= all {
        OtherHole(key, name, rest);
      }
      assert all[1..] == (name + "}") + rest;
      ReplaceCopies(name + "}", rest, from, value);
      NoMatchAtFront(all, from, value);
      assert ['{'] + ((name + "}") + ReplaceAll(rest, from, value)) == "{" + name + "}" + ReplaceAll(rest, from, value);
    }
  }

  lemma NoMatchAtFront(s: string, from: string, to: string)
    requires from != "" && s != "" && !(from <= s)
    ensures ReplaceAll(s, from, to) == [s[0]] + ReplaceAll(s[1..], from, to)
  {
    if |s| < |from| {
      assert |s[1..]| < |from| && [s[0]] + s[1..] == s;
    }
  }

  lemma {:induction false} ReplaceFillsOne(parts: seq<Part>, key: string, value: string)
    requires BraceFree(parts) && !HasBrace(key)
    ensures ReplaceAll(TemplateText(parts), "{" + key + "}", value) == TemplateText(FillOne(parts, key, value))
  {
    if parts != [] {
      var from, rest := "{" + key + "}", TemplateText(parts[1..]);
      ReplaceFillsOne(parts[1..], key, value);
      var head := if parts[0] == Hole(key) then Lits(value) else [parts[0]];
      TextOfConcat(head, FillOne(parts[1..], key, value));
      SinglePart(parts[0]);
      match parts[0] {
        case Lit(c) =>
          assert !HasBrace([c]);
          ReplaceSkips(c, rest, from, value);
        case Hole(name) =>
          LitsText(value);
          ReplaceInHole(key, name, rest, value);
      }
    }
  }

  lemma SinglePart(part: Part)
    ensures TemplateText([part]) == PartText(part)
  {
    assert [part][1..] == [];
    assert PartText(part) + "" == PartText(part);
  }

  /** The values the parameters of these names put into the path. */
  function Values(params: map<string, string>, escape: string -> string, names: set<string>): map<string, string>
    requires names <= params.Keys
  {
    map key | key in names :: escape(params[key])
  }

  lemma {:induction false} LitsUntouched(s: string, values: map<string, string>)
    ensures Fill(Lits(s), values) == Lits(s)
  {
    if s != "" {
      assert Lits(s)[1..] == Lits(s[1..]);
      LitsUntouched(s[1..], values);
      assert Lits(s) == [Lit(s[0])] + Lits(s[1..]);
    }
  }

  lemma {:induction false} FillOfConcat(a: seq<Part>, b: seq<Part>, values: map<string, string>)
    ensures Fill(a + b, values) == Fill(a, values) + Fill(b, values)
  {
    if a == [] {
      assert a + b == b;
    } else {
      assert (a + b)[1..] == a[1..] + b;
      FillOfConcat(a[1..], b, values);
    }
  }

  /** Filling one more placeholder afterwards is filling it together with the others. */
  lemma {:induction false} FillOneMore(parts: seq<Part>, values: map<string, string>, key: string, value: string)
    requires key !in values
    ensures FillOne(Fill(parts, values), key, value) == Fill(parts, values[key := value])
  {
    if parts != [] {
      var head := Fill(parts[..1], values);
      FillOneMore(parts[1..], values, key, value);
      var first := if parts[0].Hole? && parts[0].name in values then Lits(values[parts[0].name]) else [parts[0]];
      FillOneOfConcat(first, Fill(parts[1..], values), key, value);
      if parts[0].Hole? && parts[0].name in values {
        FillOneOfLits(values[parts[0].name], key, value);
      } else {
        assert [parts[0]][1..] == [];
        assert FillOne([parts[0]], key, value) == if parts[0] == Hole(key) then Lits(value) else [parts[0]];
      }
    }
  }

  lemma {:induction false} FillOneOfConcat(a: seq<Part>, b: seq<Part>, key: string, value: string)
    ensures FillOne(a + b, key, value) == FillOne(a, key, value) + FillOne(b, key, value)
  {
    if a == [] {
      assert a + b == b;
    } else {
      assert (a + b)[1..] == a[1..] + b;
      FillOneOfConcat(a[1..], b, key, value);
    }
  }

  lemma {:induction false} FillOneOfLits(s: string, key: string, value: string)
    ensures FillOne(Lits(s), key, value) == Lits(s)
  {
    if s != "" {
      assert Lits(s)[1..] == Lits(s[1..]);
      FillOneOfLits(s[1..], key, value);
      assert Lits(s) == [Lit(s[0])] + Lits(s[1..]);
    }
  }

  lemma {:induction false} FillBraceFree(parts: seq<Part>, values: map<string, string>)
    requires BraceFree(parts) && forall key :: key in values ==> !HasBrace(values[key])
    ensures BraceFree(Fill(parts, values))
  {
    if parts != [] {
      FillBraceFree(parts[1..], values);
    }
  }

  lemma {:induction false} FillNothing(parts: seq<Part>)
    ensures Fill(parts, map[]) == parts
  {
    if parts != [] {
      FillNothing(parts[1..]);
    }
  }

  function KeysOf(order: seq<string>): set<string> {
    set key | key in order
  }

  /** The names without braces; only they can be names of placeholders. */
  function PlainNames(names: set<string>): (plain: set<string>)
    ensures plain <= names
  {
    set key | key in names && !HasBrace(key)
  }

  /** With the placeholders of these names filled, the text has an occurrence of `{key}`. */
  ghost predicate Spells(parts: seq<Part>, params: map<string, string>, escape: string -> string, names: set<string>, key: string)
    requires names <= params.Keys
  {
    Contains(TemplateText(Fill(parts, Values(params, escape, names))), "{" + key + "}")
  }

  /** No partial filling of the template makes a name with a brace turn up. */
  ghost predicate Unspelled(parts: seq<Part>, params: map<string, string>, escape: string -> string, keys: set<string>)
    requires keys <= params.Keys
  {
    forall key, names :: key in keys && HasBrace(key) && names <= PlainNames(keys) ==> !Spells(parts, params, escape, names, key)
  }

  /** Whatever the order, the loop fills every placeholder that has a parameter, and nothing else as
      long as no name with a brace turns up. */
  lemma {:induction false} SubstituteFills(parts: seq<Part>, params: map<string, string>, escape: string -> string, order: seq<string>)
    requires BraceFree(parts) && KeysOf(order) <= params.Keys
    requires forall i, j :: 0 <= i < j < |order| ==> order[i] != order[j]
    requires forall s :: !HasBrace(escape(s))
    requires Unspelled(parts, params, escape, KeysOf(order))
    ensures Substitute(TemplateText(parts), params, escape, order)
         == TemplateText(Fill(parts, Values(params, escape, PlainNames(KeysOf(order)))))
  {
    if order == [] {
      assert Values(params, escape, PlainNames(KeysOf(order))) == map[];
      FillNothing(parts);
    } else {
      var front, last := order[..|order| - 1], order[|order| - 1];
      assert order == front + [last];
      NamesStep(front, last);
      UnspelledBefore(parts, params, escape, KeysOf(front), KeysOf(order));
      SubstituteFills(parts, params, escape, front);
      OneMoreName(parts, params, escape, PlainNames(KeysOf(front)), KeysOf(order), last);
    }
  }

  lemma UnspelledBefore(parts: seq<Part>, params: map<string, string>, escape: string -> string, fewer: set<string>, keys: set<string>)
    requires fewer <= keys <= params.Keys && Unspelled(parts, params, escape, keys)
    ensures Unspelled(parts, params, escape, fewer)
  {
  }

  lemma OneMoreName(parts: seq<Part>, params: map<string, string>, escape: string -> string,
                    names: set<string>, keys: set<string>, last: string)
    requires BraceFree(parts) && keys <= params.Keys && last in keys && names <= PlainNames(keys) && last !in names
    requires forall s :: !HasBrace(escape(s))
    requires Unspelled(parts, params, escape, keys)
    ensures ReplaceAll(TemplateText(Fill(parts, Values(params, escape, names))), "{" + last + "}", escape(params[last]))
         == TemplateText(Fill(parts, Values(params, escape, names + if HasBrace(last) then {} else {last})))
  {
    if HasBrace(last) {
      assert !Spells(parts, params, escape, names, last);
      ReplaceAbsent(TemplateText(Fill(parts, Values(params, escape, names))), "{" + last + "}", escape(params[last]));
      assert names + {} == names;
    } else {
      FillOneMoreName(parts, params, escape, names, last);
    }
  }

  lemma NamesStep(front: seq<string>, last: string)
    ensures KeysOf(front + [last]) == KeysOf(front) + {last}
    ensures PlainNames(KeysOf(front + [last])) == PlainNames(KeysOf(front)) + if HasBrace(last) then {} else {last}
  {
  }

  lemma FillOneMoreName(parts: seq<Part>, params: map<string, string>, escape: string -> string, names: set<string>, last: string)
    requires BraceFree(parts) && names <= params.Keys && last in params && last !in names && !HasBrace(last)
    requires forall s :: !HasBrace(escape(s))
    ensures ReplaceAll(TemplateText(Fill(parts, Values(params, escape, names))), "{" + last + "}", escape(params[last]))
         == TemplateText(Fill(parts, Values(params, escape, names + {last})))
  {
    var before := Values(params, escape, names);
    FillBraceFree(parts, before);
    ReplaceFillsOne(Fill(parts, before), last, escape(params[last]));
    FillOneMore(parts, before, last, escape(params[last]));
    assert before[last := escape(params[last])] == Values(params, escape, names + {last});
  }

  lemma {:induction false} ReplaceAbsent(s: string, from: string, to: string)
    requires from != "" && !Contains(s, from)
    ensures ReplaceAll(s, from, to) == s
  {
    if |s| >= |from| {
      assert s[0..] == s;
      ReplaceAbsent(s[1..], from, to);
      NoMatchAtFront(s, from, to);
      assert s == [s[0]] + s[1..];
    }
  }

  /* ---- One result, whatever the order ---- */

  /** What `url.PathEscape` guarantees: no braces, no slashes, and nothing vanishes. */
  ghost predicate SegmentSafe(escape: string -> string) {
    forall s :: !HasBrace(escape(s)) && '/' !in escape(s) && (s != "" ==> escape(s) != "")
  }

  function Escaped(params: map<string, string>, escape: string -> string): map<string, string> {
    map key | key in params :: escape(params[key])
  }

  function RootedParts(parts: seq<Part>): seq<Part> {
    if "/" <= TemplateText(parts) then parts else [Lit('/')] + parts
  }

  ghost predicate Named(parts: seq<Part>, names: set<string>) {
    forall i :: 0 <= i < |parts| && parts[i].Hole? ==> parts[i].name in names
  }

  lemma {:induction false} BracesAreHoles(parts: seq<Part>)
    requires BraceFree(parts)
    ensures HasBrace(TemplateText(parts)) <==> exists i :: 0 <= i < |parts| && parts[i].Hole?
  {
    if parts != [] {
      BracesAreHoles(parts[1..]);
      match parts[0] {
        case Lit(c) =>
          assert !HasBrace([c]);
          assert forall i :: 0 < i < |parts| ==> parts[i] == parts[1..][i - 1];
          if i :| 0 <= i < |parts[1..]| && parts[1..][i].Hole? {
            assert parts[i + 1].Hole?;
          }
        case Hole(name) =>
          assert TemplateText(parts)[0] == '{';
      }
    }
  }

  lemma {:induction false} HolesLeft(parts: seq<Part>, values: map<string, string>)
    ensures (exists i :: 0 <= i < |Fill(parts, values)| && Fill(parts, values)[i].Hole?) <==> !Named(parts, values.Keys)
  {
    if parts != [] {
      var rest := Fill(parts[1..], values);
      HolesLeft(parts[1..], values);
      var head := if parts[0].Hole? && parts[0].name in values then Lits(values[parts[0].name]) else [parts[0]];
      assert Fill(parts, values) == head + rest;
      if i :| 0 <= i < |rest| && rest[i].Hole? {
        assert (head + rest)[|head| + i].Hole?;
      }
      if !Named(parts[1..], values.Keys) {
        var i :| 0 <= i < |parts[1..]| && parts[1..][i].Hole? && parts[1..][i].name !in values;
        assert parts[i + 1].Hole? && parts[i + 1].name !in values;
      } else if parts[0].Hole? && parts[0].name !in values {
        assert (head + rest)[0].Hole?;
      } else {
        forall i | 0 <= i < |parts| && parts[i].Hole? ensures parts[i].name in values {
          if i > 0 {
            assert parts[1..][i - 1] == parts[i];
          }
        }
      }
    }
  }

  lemma RootedText(parts: seq<Part>)
    requires BraceFree(parts)
    ensures Rooted(TemplateText(parts)) == TemplateText(RootedParts(parts))
    ensures BraceFree(RootedParts(parts))
  {
    var rooted := RootedParts(parts);
    if !("/" <= TemplateText(parts)) {
      assert rooted[1..] == parts;
      assert forall i :: 0 <= i < |parts| ==> rooted[i + 1] == parts[i];
    }
  }

  lemma FilledBraces(parts: seq<Part>, params: map<string, string>, escape: string -> string)
    requires BraceFree(parts) && SegmentSafe(escape)
    ensures HasBrace(TemplateText(Fill(RootedParts(parts), Escaped(params, escape)))) <==> !Named(parts, params.Keys)
  {
    var rooted, values := RootedParts(parts), Escaped(params, escape);
    RootedText(parts);
    FillBraceFree(rooted, values);
    BracesAreHoles(Fill(rooted, values));
    HolesLeft(rooted, values);
    assert values.Keys == params.Keys;
    NamedRooted(parts, params.Keys);
  }

  lemma NamedRooted(parts: seq<Part>, names: set<string>)
    ensures Named(RootedParts(parts), names) <==> Named(parts, names)
  {
    var rooted := RootedParts(parts);
    if rooted != parts {
      assert forall i :: 0 <= i < |parts| ==> parts[i] == rooted[i + 1];
    }
  }

  lemma {:induction false} FillAgrees(parts: seq<Part>, a: map<string, string>, b: map<string, string>)
    requires forall i :: 0 <= i < |parts| && parts[i].Hole? ==>
      var name := parts[i].name; (name in a <==> name in b) && (name in a ==> a[name] == b[name])
    ensures Fill(parts, a) == Fill(parts, b)
  {
    if parts != [] {
      assert forall i :: 0 <= i < |parts[1..]| ==> parts[1..][i] == parts[i + 1];
      FillAgrees(parts[1..], a, b);
    }
  }

  /** Rendering a template gives the same result for every order of the parameters: the template
      with every placeholder replaced, or an error when some placeholder has no parameter. */
  lemma RenderingIgnoresOrder(parts: seq<Part>, params: map<string, string>, escape: string -> string, order: seq<string>)
    requires BraceFree(parts) && SegmentSafe(escape) && IsOrder(order, params.Keys)
    requires Unspelled(RootedParts(parts), params, escape, params.Keys)
    ensures var filled := Substitute(Rooted(TemplateText(parts)), params, escape, order);
            && filled == TemplateText(Fill(RootedParts(parts), Escaped(params, escape)))
            && (HasBrace(filled) <==> !Named(parts, params.Keys))
  {
    var rooted := RootedParts(parts);
    RootedText(parts);
    assert KeysOf(order) == params.Keys;
    SubstituteFills(rooted, params, escape, order);
    forall i | 0 <= i < |rooted| && rooted[i].Hole?
      ensures rooted[i].name in PlainNames(params.Keys) <==> rooted[i].name in params
    {
      assert !HasBrace(rooted[i].name);
    }
    FillAgrees(rooted, Values(params, escape, PlainNames(params.Keys)), Escaped(params, escape));
    FilledBraces(parts, params, escape);
  }

  /** So rendering has one result, whatever order the map of parameters is walked in. */
  lemma OneRendering(parts: seq<Part>, params: map<string, string>, escape: string -> string, rendered: Option<string>)
    requires BraceFree(parts) && SegmentSafe(escape)
    requires Unspelled(RootedParts(parts), params, escape, params.Keys)
    requires Renders(TemplateText(parts), params, escape, rendered)
    ensures rendered == if Named(parts, params.Keys)
                        then Some(TemplateText(Fill(RootedParts(parts), Escaped(params, escape))))
                        else None
  {
    var order :| IsOrder(order, params.Keys) && rendered == RenderedIn(order, TemplateText(parts), params, escape);
    RenderingIgnoresOrder(parts, params, escape, order);
  }

  /* ---- The regular expression of a template ---- */

  datatype Atom = Exactly(c: char) | Segment    // Segment: one or more characters other than '/'

  /** The position of the first closing brace from `i` on, or the length. */
  function CloseFrom(s: string, i: nat): (close: nat)
    requires i <= |s|
    ensures i <= close <= |s| && (close < |s| ==> s[close] == '}')
    decreases |s| - i
  {
    if i == |s| || s[i] == '}' then i else CloseFrom(s, i + 1)
  }

  /** Every `{...}` with a non-empty name becomes a segment; other characters stand for themselves,
      which is what they mean in a regular expression unless they are metacharacters. */
  function Pattern(template: string): seq<Atom>
    decreases |template|
  {
    if template == "" then []
    else
      var close := CloseFrom(template, 1);
      if template[0] == '{' && 2 <= close < |template| then [Segment] + Pattern(template[close + 1..])
      else [Exactly(template[0])] + Pattern(template[1..])
  }

  /** The anchored match of the whole path. */
  predicate Matches(pattern: seq<Atom>, path: string) {
    if pattern == [] then path == ""
    else
      match pattern[0]
      case Exactly(c) => path != "" && path[0] == c && Matches(pattern[1..], path[1..])
      case Segment => exists n :: 1 <= n <= |path| && '/' !in path[..n] && Matches(pattern[1..], path[n..])
  }

  function AtomOf(part: Part): Atom {
    if part.Lit? then Exactly(part.c) else Segment
  }

  function Atoms(parts: seq<Part>): (atoms: seq<Atom>) {
    seq(|parts|, i requires 0 <= i < |parts| => AtomOf(parts[i]))
  }

  lemma {:induction false} CloseAfterName(name: string, rest: string, i: nat)
    requires '}' !in name && 1 <= i <= |name| + 1
    ensures CloseFrom("{" + name + "}" + rest, i) == |name| + 1
    decreases |name| + 1 - i
  {
    var s := "{" + name + "}" + rest;
    if i <= |name| {
      assert s[i] == name[i - 1];
      CloseAfterName(name, rest, i + 1);
    } else {
      assert s[|name| + 1] == '}';
    }
  }

  lemma PatternAfterLit(c: char, rest: string)
    requires c !in METACHARACTERS
    ensures Pattern([c] + rest) == [Exactly(c)] + Pattern(rest)
  {
    assert METACHARACTERS[10] == '{';
    assert ([c] + rest)[1..] == rest;
  }

  lemma PatternAfterHole(name: string, rest: string)
    requires name != "" && !HasBrace(name)
    ensures Pattern("{" + name + "}" + rest) == [Segment] + Pattern(rest)
  {
    CloseAfterName(name, rest, 1);
    assert ("{" + name + "}" + rest)[|name| + 2..] == rest;
  }

  lemma {:induction false} PatternOfTemplate(parts: seq<Part>)
    requires WellFormed(parts)
    ensures Pattern(TemplateText(parts)) == Atoms(parts)
  {
    if parts != [] {
      PatternOfTemplate(parts[1..]);
      PatternAfterPart(parts[0], TemplateText(parts[1..]));
      AtomsStep(parts);
    }
  }

  lemma AtomsStep(parts: seq<Part>)
    requires parts != []
    ensures Atoms(parts) == [AtomOf(parts[0])] + Atoms(parts[1..])
  {
  }

  lemma PatternAfterPart(part: Part, rest: string)
    requires WellFormed([part])
    ensures Pattern(PartText(part) + rest) == [AtomOf(part)] + Pattern(rest)
  {
    assert [part][0] == part;
    match part
    case Lit(c) => PatternAfterLit(c, rest);
    case Hole(name) => PatternAfterHole(name, rest);
  }

  lemma {:induction false} FilledMatches(parts: seq<Part>, values: map<string, string>)
    requires Named(parts, values.Keys)
    requires forall key :: key in values ==> values[key] != "" && '/' !in values[key]
    ensures Matches(Atoms(parts), TemplateText(Fill(parts, values)))
  {
    if parts != [] {
      var rest := TemplateText(Fill(parts[1..], values));
      assert forall i :: 0 <= i < |parts| - 1 ==> parts[1..][i] == parts[i + 1];
      FilledMatches(parts[1..], values);
      assert Atoms(parts)[1..] == Atoms(parts[1..]);
      var head := if parts[0].Hole? then Lits(values[parts[0].name]) else [parts[0]];
      TextOfConcat(head, Fill(parts[1..], values));
      match parts[0] {
        case Lit(c) =>
          SinglePart(parts[0]);
          assert ([c] + rest)[1..] == rest;
        case Hole(name) =>
          var value := values[name];
          LitsText(value);
          assert (value + rest)[..|value|] == value && (value + rest)[|value|..] == rest;
      }
    }
  }

  /** A rendered path matches the regular expression of its template. */
  lemma RenderedPathMatches(parts: seq<Part>, params: map<string, string>, escape: string -> string, order: seq<string>)
    requires WellFormed(parts) && SegmentSafe(escape) && IsOrder(order, params.Keys)
    requires forall key :: key in params ==> !HasBrace(key) && params[key] != ""
    requires Named(parts, params.Keys) && "/" <= TemplateText(parts)
    ensures Matches(Pattern(TemplateText(parts)), Substitute(TemplateText(parts), params, escape, order))
  {
    RenderingIgnoresOrder(parts, params, escape, order);
    PatternOfTemplate(parts);
    FilledMatches(parts, Escaped(params, escape));
  }

  /* ---- Which paths match ---- */

  function ConcatOf(texts: seq<string>): string {
    if texts == [] then "" else texts[0] + ConcatOf(texts[1..])
  }

  /** The path is one text per part, in a row: the character itself for a literal, and for a placeholder a
      text that is not empty and has no slash. */
  ghost predicate SplitsInto(parts: seq<Part>, texts: seq<string>, path: string) {
    && |texts| == |parts| && path == ConcatOf(texts)
    && forall i :: 0 <= i < |parts| ==>
         if parts[i].Lit? then texts[i] == [parts[i].c] else texts[i] != "" && '/' !in texts[i]
  }

  lemma {:induction false} MatchSplits(parts: seq<Part>, path: string) returns (texts: seq<string>)
    requires Matches(Atoms(parts), path)
    ensures SplitsInto(parts, texts, path)
  {
    if parts == [] {
      texts := [];
    } else {
      assert Atoms(parts)[1..] == Atoms(parts[1..]);
      var n :| 1 <= n <= |path| && Matches(Atoms(parts[1..]), path[n..])
        && if parts[0].Lit? then path[..n] == [parts[0].c] else '/' !in path[..n];
      var rest := MatchSplits(parts[1..], path[n..]);
      texts := [path[..n]] + rest;
      assert texts[1..] == rest && path == path[..n] + path[n..];
      assert forall i :: 0 < i < |parts| ==> texts[i] == rest[i - 1] && parts[i] == parts[1..][i - 1];
    }
  }

  lemma {:induction false} SplitMatches(parts: seq<Part>, texts: seq<string>, path: string)
    requires SplitsInto(parts, texts, path)
    ensures Matches(Atoms(parts), path)
  {
    if parts != [] {
      var n := |texts[0]|;
      assert path[..n] == texts[0] && path[n..] == ConcatOf(texts[1..]);
      assert forall i :: 0 <= i < |parts| - 1 ==> texts[1..][i] == texts[i + 1] && parts[1..][i] == parts[i + 1];
      SplitMatches(parts[1..], texts[1..], path[n..]);
      assert Atoms(parts)[1..] == Atoms(parts[1..]);
    }
  }

  /** A path matches the pattern of a template exactly when it can be split like this. */
  lemma MatchesExactly(parts: seq<Part>, path: string)
    requires WellFormed(parts)
    ensures Matches(Pattern(TemplateText(parts)), path) <==> exists texts :: SplitsInto(parts, texts, path)
  {
    PatternOfTemplate(parts);
    if Matches(Atoms(parts), path) {
      var texts := MatchSplits(parts, path);
    }
    if texts :| SplitsInto(parts, texts, path) {
      SplitMatches(parts, texts, path);
    }
  }

  function Slashes(s: string): nat {
    if s == "" then 0 else (if s[0] == '/' then 1 else 0) + Slashes(s[1..])
  }

  lemma {:induction false} SlashesOfConcat(a: string, b: string)
    ensures Slashes(a + b) == Slashes(a) + Slashes(b)
    ensures '/' !in a ==> Slashes(a) == 0
  {
    if a == "" {
      assert a + b == b;
    } else {
      assert (a + b)[1..] == a[1..] + b;
      SlashesOfConcat(a[1..], b);
    }
  }

  /** Placeholders do not reach across slashes: a path that splits has as many as the template. */
  lemma {:induction false} SplitKeepsSlashes(parts: seq<Part>, texts: seq<string>, path: string)
    requires SplitsInto(parts, texts, path)
    requires forall i :: 0 <= i < |parts| && parts[i].Hole? ==> '/' !in parts[i].name
    ensures Slashes(path) == Slashes(TemplateText(parts))
  {
    if parts != [] {
      assert forall i :: 0 <= i < |parts| - 1 ==> texts[1..][i] == texts[i + 1] && parts[1..][i] == parts[i + 1];
      SplitKeepsSlashes(parts[1..], texts[1..], ConcatOf(texts[1..]));
      SlashesOfConcat(texts[0], ConcatOf(texts[1..]));
      SlashesOfConcat(PartText(parts[0]), TemplateText(parts[1..]));
    }
  }

  /** A path with another number of slashes than the template does not match. */
  lemma MatchKeepsSlashes(parts: seq<Part>, path: string)
    requires WellFormed(parts) && Matches(Pattern(TemplateText(parts)), path)
    requires forall i :: 0 <= i < |parts| && parts[i].Hole? ==> '/' !in parts[i].name
    ensures Slashes(path) == Slashes(TemplateText(parts))
  {
    MatchesExactly(parts, path);
    var texts :| SplitsInto(parts, texts, path);
    SplitKeepsSlashes(parts, texts, path);
  }
}
