/** Local JSON pointers (`#/a/b`): how a `$ref` finds its target in a spec. */
module Pointers {
  import opened Text
  import opened Json

  /** What ResolveRef returns: the value, or one of its two errors. */
  datatype Target = Found(value: Json) | NotLocal | Unresolvable

  /** Section 4 of RFC 6901: `~1` is decoded before `~0`. */
  function Unescape(part: string): string {
    ReplaceAll(ReplaceAll(part, "~1", "/"), "~0", "~")
  }

  /** The value reached by following object keys. */
  function Walk(current: Json, keys: seq<string>): Target {
    if keys == [] then Found(current)
    else if current.Obj? && keys[0] in current.entries then Walk(current.entries[keys[0]], keys[1..])
    else Unresolvable
  }

  /** Webhook documents keep under `webhooks` what other documents keep under `paths`. */
  function Fallback(spec: Entries, keys: seq<string>): seq<string> {
    if keys != [] && keys[0] == "paths" && "paths" !in spec && "webhooks" in spec
    then keys[0 := "webhooks"]
    else keys
  }

  function Unescaped(parts: seq<string>): (keys: seq<string>) {
    seq(|parts|, i requires 0 <= i < |parts| => Unescape(parts[i]))
  }

  function Lookup(spec: Entries, ref: string): Target {
    if !("#/" <= ref) then NotLocal
    else Walk(Obj(spec), Fallback(spec, Unescaped(Split(ref[2..], '/'))))
  }

  method ResolveRef(spec: Entries, ref: string) returns (target: Target)
    ensures target == Lookup(spec, ref)
  {
    if !("#/" <= ref) {
      return NotLocal;
    }
    var parts := Split(ref[2..], '/');
    ghost var raw := parts;
    for index := 0 to |parts|
      invariant |parts| == |raw|
      invariant forall i :: 0 <= i < index ==> parts[i] == Unescape(raw[i])
      invariant parts[index..] == raw[index..]
    {
      assert parts[index] == parts[index..][0] == raw[index];
      parts := parts[index := Unescape(parts[index])];
    }
    assert parts == Unescaped(raw);
    if |parts| > 0 && parts[0] == "paths" && "paths" !in spec && "webhooks" in spec {
      parts := parts[0 := "webhooks"];
    }
    var current := Obj(spec);
    for index := 0 to |parts|
      invariant Lookup(spec, ref) == Walk(current, parts[index..])
    {
      assert parts[index..][0] == parts[index] && parts[index..][1..] == parts[index + 1..];
      if !current.Obj? || parts[index] !in current.entries {
        return Unresolvable;
      }
      current := current.entries[parts[index]];
    }
    return Found(current);
  }

  /** How a key is written in a pointer: section 3 of RFC 6901. */
  function Escape(key: string): string {
    if key == "" then ""
    else (if key[0] == '~' then "~0" else if key[0] == '/' then "~1" else [key[0]]) + Escape(key[1..])
  }

  function Pointer(keys: seq<string>): string {
    "#/" + Join(seq(|keys|, i requires 0 <= i < |keys| => Escape(keys[i])), '/')
  }

  /** The key after `~1` was decoded and before `~0` is. */
  ghost function TildesEscaped(key: string): string {
    if key == "" then ""
    else (if key[0] == '~' then "~0" else [key[0]]) + TildesEscaped(key[1..])
  }

  lemma {:induction false} DecodeSlashes(key: string)
    ensures ReplaceAll(Escape(key), "~1", "/") == TildesEscaped(key)
  {
    if key != "" {
      var rest := Escape(key[1..]);
      DecodeSlashes(key[1..]);
      if key[0] == '~' {
        assert ("~0" + rest)[1..] == "0" + rest && ("~0" + rest)[..2] == "~0";
        ReplaceSkips('0', rest, "~1", "/");
        assert "~" + ("0" + TildesEscaped(key[1..])) == TildesEscaped(key);
      } else if key[0] == '/' {
        assert ("~1" + rest)[..2] == "~1" && ("~1" + rest)[2..] == rest;
      } else {
        ReplaceSkips(key[0], rest, "~1", "/");
      }
    }
  }

  lemma {:induction false} DecodeTildes(key: string)
    ensures ReplaceAll(TildesEscaped(key), "~0", "~") == key
  {
    if key != "" {
      var rest := TildesEscaped(key[1..]);
      DecodeTildes(key[1..]);
      if key[0] == '~' {
        assert ("~0" + rest)[..2] == "~0" && ("~0" + rest)[2..] == rest;
      } else {
        ReplaceSkips(key[0], rest, "~0", "~");
      }
    }
  }

  lemma {:induction false} EscapeHasNoSlash(key: string)
    ensures '/' !in Escape(key)
  {
    if key != "" {
      EscapeHasNoSlash(key[1..]);
    }
  }

  /** Escaping loses nothing: decoding the parts of a pointer gives the keys back. */
  lemma PointerParts(keys: seq<string>)
    requires keys != []
    ensures "#/" <= Pointer(keys)
    ensures Unescaped(Split(Pointer(keys)[2..], '/')) == keys
  {
    var parts := seq(|keys|, i requires 0 <= i < |keys| => Escape(keys[i]));
    forall p | p in parts ensures '/' !in p {
      var i :| 0 <= i < |keys| && p == Escape(keys[i]);
      EscapeHasNoSlash(keys[i]);
    }
    SplitJoin(parts, '/');
    assert Pointer(keys)[2..] == Join(parts, '/');
    forall i | 0 <= i < |keys| ensures Unescape(parts[i]) == keys[i] {
      DecodeSlashes(keys[i]);
      DecodeTildes(keys[i]);
    }
  }

  /** The pointer of any non-empty path of keys resolves to what the path leads to,
      found or not; the only exception is a document without `paths` but with `webhooks`. */
  lemma PointerRoundTrip(spec: Entries, keys: seq<string>)
    requires keys != []
    ensures Lookup(spec, Pointer(keys)) ==
            if keys[0] == "paths" && "paths" !in spec && "webhooks" in spec
            then Walk(Obj(spec), ["webhooks"] + keys[1..])
            else Walk(Obj(spec), keys)
  {
    PointerParts(keys);
    assert keys[0 := "webhooks"] == ["webhooks"] + keys[1..];
  }

  /** The fallback never disturbs a path that exists. */
  lemma ExistingPathResolves(spec: Entries, keys: seq<string>, value: Json)
    requires keys != [] && Walk(Obj(spec), keys) == Found(value)
    ensures Lookup(spec, Pointer(keys)) == Found(value)
  {
    PointerRoundTrip(spec, keys);
  }

  /** Only references that start with `#/` are looked up. */
  lemma OnlyLocal(spec: Entries, ref: string)
    ensures Lookup(spec, ref) == NotLocal <==> !("#/" <= ref)
  {
    if "#/" <= ref {
      WalkFinds(Obj(spec), Fallback(spec, Unescaped(Split(ref[2..], '/'))));
    }
  }

  lemma {:induction false} WalkFinds(current: Json, keys: seq<string>)
    ensures Walk(current, keys) != NotLocal
  {
    if keys != [] && current.Obj? && keys[0] in current.entries {
      WalkFinds(current.entries[keys[0]], keys[1..]);
    }
  }

  /** One key further: the entry of an object, and nothing where there is no object or no such entry. */
  lemma {:induction false} WalkStep(current: Json, keys: seq<string>, key: string)
    ensures Walk(current, []) == Found(current)
    ensures Walk(current, keys + [key]) ==
            match Walk(current, keys) {
              case Found(Obj(m)) => if key in m then Found(m[key]) else Unresolvable
              case _ => Unresolvable
            }
  {
    if keys == [] {
      assert keys + [key] == [key] && [key][1..] == [];
    } else {
      assert (keys + [key])[1..] == keys[1..] + [key];
      if current.Obj? && keys[0] in current.entries {
        WalkStep(current.entries[keys[0]], keys[1..], key);
      } else {
        WalkFinds(current, keys);
      }
    }
  }
}
