/** The string operations of Go's standard library that the SDK relies on. */
module Text {

  /** Go's `a < b` on strings: lexicographic by code point. */
  predicate Less(a: string, b: string) {
    if b == "" then false
    else if a == "" then true
    else if a[0] != b[0] then a[0] < b[0]
    else Less(a[1..], b[1..])
  }

  predicate AtMost(a: string, b: string) {
    a == b || Less(a, b)
  }

  lemma {:induction false} LessTransitive(a: string, b: string, c: string)
    requires Less(a, b) && Less(b, c)
    ensures Less(a, c)
  {
    if a != "" && a[0] == b[0] == c[0] {
      LessTransitive(a[1..], b[1..], c[1..]);
    }
  }

  lemma {:induction false} LessTotal(a: string, b: string)
    ensures Less(a, b) || a == b || Less(b, a)
  {
    if a != "" && b != "" && a[0] == b[0] {
      LessTotal(a[1..], b[1..]);
      assert a == [a[0]] + a[1..] && b == [b[0]] + b[1..];
    }
  }

  lemma {:induction false} LessAsymmetric(a: string, b: string)
    requires Less(a, b)
    ensures a != b && !Less(b, a)
  {
    if a != "" && a[0] == b[0] {
      LessAsymmetric(a[1..], b[1..]);
    }
  }

  lemma {:induction false} LessIrreflexive(a: string)
    ensures !Less(a, a)
  {
    if a != "" {
      LessIrreflexive(a[1..]);
    }
  }

  /** A text that follows `prefix` with a bigger character sorts later. */
  lemma {:induction false} LessAtDifference(prefix: string, a: string, b: string)
    requires a != "" && b != "" && a[0] < b[0]
    ensures Less(prefix + a, prefix + b)
  {
    if prefix == "" {
      assert prefix + a == a && prefix + b == b;
    } else {
      LessAtDifference(prefix[1..], a, b);
      assert (prefix + a)[1..] == prefix[1..] + a && (prefix + b)[1..] == prefix[1..] + b;
    }
  }

  /** One text sorts before another exactly when it is a proper beginning of it, or has the smaller character
      where they first differ. */
  lemma {:induction false} LessExactly(a: string, b: string)
    ensures Less(a, b) <==> a < b || exists k :: 0 <= k < |a| && k < |b| && a[..k] == b[..k] && a[k] < b[k]
  {
    if a != "" && b != "" && a[0] == b[0] {
      LessExactly(a[1..], b[1..]);
      assert a == [a[0]] + a[1..] && b == [b[0]] + b[1..];
      if k :| 0 <= k < |a[1..]| && k < |b[1..]| && a[1..][..k] == b[1..][..k] && a[1..][k] < b[1..][k] {
        assert a[..k + 1] == [a[0]] + a[1..][..k] && b[..k + 1] == [b[0]] + b[1..][..k];
        assert a[k + 1] < b[k + 1];
      }
      if k :| 0 <= k < |a| && k < |b| && a[..k] == b[..k] && a[k] < b[k] {
        assert a[1..][..k - 1] == a[..k][1..] && b[1..][..k - 1] == b[..k][1..];
        assert a[1..][k - 1] < b[1..][k - 1];
      }
    } else if a != "" && b != "" {
      assert a[..0] == b[..0];
    }
  }

  predicate IsFirst(k: string, keys: set<string>) {
    k in keys && forall j :: j in keys ==> AtMost(k, j)
  }

  lemma {:induction false} FirstExists(keys: set<string>)
    requires keys != {}
    ensures exists k :: IsFirst(k, keys)
  {
    var k :| k in keys;
    if keys == {k} {
      assert IsFirst(k, keys);
    } else {
      FirstExists(keys - {k});
      var m :| IsFirst(m, keys - {k});
      LessTotal(k, m);
      var best := if Less(k, m) then k else m;
      forall j | j in keys ensures AtMost(best, j) {
        if j != k {
          assert AtMost(m, j);
          if Less(k, m) && j != m {
            LessTransitive(k, m, j);
          }
        }
      }
      assert IsFirst(best, keys);
    }
  }

  lemma FirstUnique(a: string, b: string, keys: set<string>)
    requires IsFirst(a, keys) && IsFirst(b, keys)
    ensures a == b
  {
    if a != b {
      LessAsymmetric(a, b);
    }
  }

  /** `sort.Strings` over the keys of a map. */
  function SortedKeys(keys: set<string>): (sorted: seq<string>)
    ensures forall k :: k in sorted <==> k in keys
    ensures |sorted| == |keys|
    decreases |keys|
  {
    if keys == {} then [] else
      FirstExists(keys);
      assert forall a, b :: IsFirst(a, keys) && IsFirst(b, keys) ==> a == b by {
        forall a, b | IsFirst(a, keys) && IsFirst(b, keys) ensures a == b { FirstUnique(a, b, keys); }
      }
      var k :| k in keys && IsFirst(k, keys);
      [k] + SortedKeys(keys - {k})
  }

  lemma {:induction false} SortedKeysAreSorted(keys: set<string>)
    ensures IsSorted(SortedKeys(keys))
    decreases |keys|
  {
    if keys != {} {
      var k := SortedKeys(keys)[0];
      var rest := SortedKeys(keys - {k});
      SortedKeysAreSorted(keys - {k});
      forall i | 0 <= i < |rest| ensures AtMost(k, rest[i]) {
        assert rest[i] in rest;
      }
    }
  }

  ghost predicate IsSorted(s: seq<string>) {
    forall i, j :: 0 <= i < j < |s| ==> AtMost(s[i], s[j])
  }

  function Insert(s: seq<string>, x: string): (r: seq<string>)
    ensures multiset(r) == multiset(s) + multiset{x}
  {
    if s == [] || AtMost(x, s[0]) then assert s[..] == s; [x] + s
    else assert s == [s[0]] + s[1..]; [s[0]] + Insert(s[1..], x)
  }

  lemma {:induction false} InsertSorted(s: seq<string>, x: string)
    requires IsSorted(s)
    ensures IsSorted(Insert(s, x))
  {
    var r := Insert(s, x);
    if s == [] {
    } else if AtMost(x, s[0]) {
      forall i, j | 0 <= i < j < |r| ensures AtMost(r[i], r[j]) {
        if i == 0 && j > 1 && x != s[0] && s[0] != s[j - 1] {
          LessTransitive(x, s[0], s[j - 1]);
        }
      }
    } else {
      LessTotal(x, s[0]);
      InsertSorted(s[1..], x);
      var rest := Insert(s[1..], x);
      forall i, j | 0 <= i < j < |r| ensures AtMost(r[i], r[j]) {
        if i == 0 {
          assert rest[j - 1] in multiset(rest);
          assert rest[j - 1] == x || rest[j - 1] in s[1..];
        }
      }
    }
  }

  /** `sort.Strings`. */
  function SortStrings(s: seq<string>): (r: seq<string>)
    ensures multiset(r) == multiset(s)
  {
    if s == [] then [] else
      assert s == [s[0]] + s[1..];
      Insert(SortStrings(s[1..]), s[0])
  }

  lemma {:induction false} SortStringsSorts(s: seq<string>)
    ensures IsSorted(SortStrings(s))
  {
    if s != [] {
      SortStringsSorts(s[1..]);
      InsertSorted(SortStrings(s[1..]), s[0]);
    }
  }

  /** `strings.ReplaceAll` for a non-empty `from`. */
  function ReplaceAll(s: string, from: string, to: string): string
    requires from != ""
    decreases |s|
  {
    if |s| < |from| then s
    else if s[..|from|] == from then to + ReplaceAll(s[|from|..], from, to)
    else [s[0]] + ReplaceAll(s[1..], from, to)
  }

  /** A character that cannot start a match is copied. */
  lemma ReplaceSkips(c: char, rest: string, from: string, to: string)
    requires from != "" && c != from[0]
    ensures ReplaceAll([c] + rest, from, to) == [c] + ReplaceAll(rest, from, to)
  {
    assert ([c] + rest)[1..] == rest;
    if |from| <= |rest| + 1 {
      assert ([c] + rest)[..|from|][0] == c;
    }
  }

  /** Text in which no match can start is copied. */
  lemma {:induction false} ReplaceCopies(word: string, rest: string, from: string, to: string)
    requires from != "" && from[0] !in word
    ensures ReplaceAll(word + rest, from, to) == word + ReplaceAll(rest, from, to)
  {
    if word == "" {
      assert word + rest == rest && word + ReplaceAll(rest, from, to) == ReplaceAll(rest, from, to);
    } else {
      ReplaceCopies(word[1..], rest, from, to);
      ReplaceSkips(word[0], word[1..] + rest, from, to);
      assert word + rest == [word[0]] + (word[1..] + rest);
      assert word == [word[0]] + word[1..];
    }
  }

  /** A match at the front is replaced. */
  lemma ReplaceFront(rest: string, from: string, to: string)
    requires from != ""
    ensures ReplaceAll(from + rest, from, to) == to + ReplaceAll(rest, from, to)
  {
    assert (from + rest)[..|from|] == from && (from + rest)[|from|..] == rest;
  }

  /** `strings.Split` on one character. */
  function Split(s: string, sep: char): (parts: seq<string>)
    ensures parts != []
  {
    if s == "" then [""]
    else
      var rest := Split(s[1..], sep);
      if s[0] == sep then [""] + rest
      else [[s[0]] + rest[0]] + rest[1..]
  }

  /** `strings.Join` on one character. */
  function Join(parts: seq<string>, sep: char): string {
    if parts == [] then ""
    else if |parts| == 1 then parts[0]
    else parts[0] + [sep] + Join(parts[1..], sep)
  }

  lemma {:induction false} SplitPrefix(word: string, s: string, sep: char)
    requires sep !in word
    ensures Split(word + s, sep) == [word + Split(s, sep)[0]] + Split(s, sep)[1..]
  {
    var rest := Split(s, sep);
    if word == "" {
      assert word + s == s && word + rest[0] == rest[0];
    } else {
      SplitPrefix(word[1..], s, sep);
      assert word + s == [word[0]] + (word[1..] + s);
      assert [word[0]] + (word[1..] + rest[0]) == word + rest[0];
    }
  }

  lemma {:induction false} SplitJoin(parts: seq<string>, sep: char)
    requires parts != [] && forall p :: p in parts ==> sep !in p
    ensures Split(Join(parts, sep), sep) == parts
  {
    if |parts| == 1 {
      SplitPrefix(parts[0], "", sep);
      assert parts[0] + "" == parts[0];
    } else {
      var rest := Join(parts[1..], sep);
      SplitJoin(parts[1..], sep);
      SplitPrefix(parts[0], [sep] + rest, sep);
      assert ([sep] + rest)[1..] == rest;
      assert Split([sep] + rest, sep) == [""] + parts[1..];
      assert parts[0] + "" == parts[0];
      assert parts[0] + [sep] + rest == parts[0] + ([sep] + rest);
    }
  }

  /** `strings.ToLower` on the ASCII letters. */
  function ToLower(s: string): (r: string)
    ensures |r| == |s|
  {
    seq(|s|, i requires 0 <= i < |s| => if 'A' <= s[i] <= 'Z' then 'a' + (s[i] - 'A') else s[i])
  }

  /** `strings.ToUpper` on the ASCII letters. */
  function ToUpper(s: string): (r: string)
    ensures |r| == |s|
  {
    seq(|s|, i requires 0 <= i < |s| => if 'a' <= s[i] <= 'z' then 'A' + (s[i] - 'a') else s[i])
  }

  /** `strings.Contains`. */
  predicate Contains(s: string, part: string) {
    exists i :: 0 <= i <= |s| && part <= s[i..]
  }

  /** A text contains another exactly when that stands somewhere in it. */
  lemma ContainsMeans(s: string, part: string)
    ensures Contains(s, part) <==> exists a, b :: s == a + part + b
  {
    if Contains(s, part) {
      var i :| 0 <= i <= |s| && part <= s[i..];
      assert s == s[..i] + part + s[i + |part|..];
    }
    if a, b :| s == a + part + b {
      assert s[|a|..] == part + b;
    }
  }

  predicate IsSpace(c: char) {
    c == ' ' || c == '\t' || c == '\n' || c == '\r' || c as int == 0x0B || c as int == 0x0C
  }

  /** `strings.TrimSpace` on ASCII white space. */
  function TrimSpace(s: string): (r: string)
    ensures r != "" ==> s != "" && !IsSpace(r[0]) && !IsSpace(r[|r| - 1])
  {
    if s == "" then ""
    else if IsSpace(s[0]) then TrimSpace(s[1..])
    else if IsSpace(s[|s| - 1]) then TrimSpace(s[..|s| - 1])
    else s
  }

  const LOWER: string := "abcdefghijklmnopqrstuvwxyz"
  const UPPER: string := "ABCDEFGHIJKLMNOPQRSTUVWXYZ"

  /** Letter by letter, and nothing but letters. */
  lemma CasesAre(s: string, i: nat, k: nat)
    requires i < |s| && k < 26
    ensures s[i] == UPPER[k] ==> ToLower(s)[i] == LOWER[k]
    ensures s[i] == LOWER[k] ==> ToUpper(s)[i] == UPPER[k]
    ensures s[i] !in UPPER ==> ToLower(s)[i] == s[i]
    ensures s[i] !in LOWER ==> ToUpper(s)[i] == s[i]
  {
    LettersAre(k);
    if 'A' <= s[i] <= 'Z' {
      LettersAre((s[i] - 'A') as int);
    }
    if 'a' <= s[i] <= 'z' {
      LettersAre((s[i] - 'a') as int);
    }
  }

  lemma LettersAre(k: nat)
    requires k < 26
    ensures LOWER[k] == 'a' + k as char && UPPER[k] == 'A' + k as char
  {
  }

  ghost predicate IsWhite(c: char) {
    c in {' ', '\t', '\n', '\r', 11 as char, 12 as char}
  }

  /** Trimming takes the white space around a text, all of it and nothing else. */
  lemma {:induction false} TrimmedIs(s: string) returns (before: string, after: string)
    ensures s == before + TrimSpace(s) + after && forall c :: c in before || c in after ==> IsWhite(c)
    ensures TrimSpace(s) != "" ==> !IsWhite(TrimSpace(s)[0]) && !IsWhite(TrimSpace(s)[|TrimSpace(s)| - 1])
  {
    before, after := "", "";
    if s != "" && IsSpace(s[0]) {
      var b;
      b, after := TrimmedIs(s[1..]);
      before := [s[0]] + b;
      AroundFront(s, b, TrimSpace(s[1..]), after);
    } else if s != "" && IsSpace(s[|s| - 1]) {
      var a;
      before, a := TrimmedIs(s[..|s| - 1]);
      after := a + [s[|s| - 1]];
      AroundBack(s, before, TrimSpace(s[..|s| - 1]), a);
    } else {
      assert s == before + s + after;
    }
  }

  lemma AroundFront(s: string, b: string, r: string, a: string)
    requires s != "" && s[1..] == b + r + a
    ensures s == ([s[0]] + b) + r + a
  {
    assert s == [s[0]] + s[1..];
  }

  lemma AroundBack(s: string, b: string, r: string, a: string)
    requires s != "" && s[..|s| - 1] == b + r + a
    ensures s == b + r + (a + [s[|s| - 1]])
  {
    assert s == s[..|s| - 1] + [s[|s| - 1]];
  }
}
