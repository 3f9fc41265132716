/** Bumping a stable semantic version. */
module Versions {
  import opened Wrappers
  import opened Text
  import Labels

  datatype Version = Version(major: nat, minor: nat, patch: nat)

  /** Precedence, item 11 of Semantic Versioning 2.0.0, for versions without a pre-release part. */
  predicate Below(a: Version, b: Version) {
    || a.major < b.major
    || (a.major == b.major && a.minor < b.minor)
    || (a.major == b.major && a.minor == b.minor && a.patch < b.patch)
  }

  predicate AtMostVersion(a: Version, b: Version) {
    a == b || Below(a, b)
  }

  /* ---- Text ---- */

  predicate IsDigit(c: char) {
    '0' <= c <= '9'
  }

  predicate IsNumeral(s: string) {
    s != "" && forall i :: 0 <= i < |s| ==> IsDigit(s[i])
  }

  function Value(s: string): nat
    requires forall i :: 0 <= i < |s| ==> IsDigit(s[i])
  {
    if s == "" then 0 else
      assert IsDigit(s[|s| - 1]);
      10 * Value(s[..|s| - 1]) + (s[|s| - 1] as int - '0' as int)
  }

  function Digits(n: nat): (s: string)
    ensures IsNumeral(s)
  {
    (if n < 10 then "" else Digits(n / 10)) + ['0' + (n % 10) as char]
  }

  lemma {:induction false} ValueOfDigits(n: nat)
    ensures Value(Digits(n)) == n
  {
    var front := if n < 10 then "" else Digits(n / 10);
    if n >= 10 {
      ValueOfDigits(n / 10);
    }
    assert Digits(n)[..|front|] == front;
  }

  /** Numerals are decimal and written without leading zeros. */
  lemma DigitsAreDecimal(n: nat, d: nat)
    requires d < 10
    ensures Digits(d) == ["0123456789"[d]]
    ensures n > 0 ==> Digits(10 * n + d) == Digits(n) + Digits(d)
    ensures n > 0 ==> Digits(n)[0] != '0'
  {
    OneDigit(d);
    if n > 0 {
      FirstDigit(n);
      assert (10 * n + d) / 10 == n && (10 * n + d) % 10 == d;
    }
  }

  lemma OneDigit(d: nat)
    requires d < 10
    ensures Digits(d) == ["0123456789"[d]]
  {
  }

  lemma {:induction false} FirstDigit(n: nat)
    requires n > 0
    ensures Digits(n)[0] != '0'
  {
    if n >= 10 {
      FirstDigit(n / 10);
    }
  }

  function Dotted(major: string, minor: string, patch: string): string {
    major + "." + minor + "." + patch
  }

  /** `fmt.Sprintf("%d.%d.%d", …)`. */
  function Format(v: Version): string {
    Dotted(Digits(v.major), Digits(v.minor), Digits(v.patch))
  }

  function WithoutPrefix(s: string): string {
    if s != "" && s[0] == 'v' then s[1..] else s
  }

  /** The pattern `^v?(\d+)\.(\d+)\.(\d+)$` and its three groups, around which white space is allowed. */
  function Parse(text: string): Option<Version> {
    var parts := Split(WithoutPrefix(TrimSpace(text)), '.');
    if |parts| == 3 && IsNumeral(parts[0]) && IsNumeral(parts[1]) && IsNumeral(parts[2]) then
      Some(Version(Value(parts[0]), Value(parts[1]), Value(parts[2])))
    else
      None
  }

  ghost predicate Spells(text: string, prefix: string, major: string, minor: string, patch: string) {
    && (prefix == "" || prefix == "v")
    && IsNumeral(major) && IsNumeral(minor) && IsNumeral(patch)
    && TrimSpace(text) == prefix + Dotted(major, minor, patch)
  }

  lemma DottedJoins(major: string, minor: string, patch: string)
    ensures Dotted(major, minor, patch) == Join([major, minor, patch], '.')
  {
    var parts := [major, minor, patch];
    assert parts[1..] == [minor, patch] && parts[1..][1..] == [patch];
    assert Join([patch], '.') == patch && Join([minor, patch], '.') == minor + ['.'] + patch;
    assert Join(parts, '.') == major + ['.'] + (minor + ['.'] + patch) == Dotted(major, minor, patch);
  }

  lemma DottedSplits(major: string, minor: string, patch: string)
    requires IsNumeral(major) && IsNumeral(minor) && IsNumeral(patch)
    ensures Split(Dotted(major, minor, patch), '.') == [major, minor, patch]
    ensures var s := Dotted(major, minor, patch); s != "" && IsDigit(s[0]) && IsDigit(s[|s| - 1])
  {
    SplitJoin([major, minor, patch], '.');
    DottedJoins(major, minor, patch);
  }

  /** A text is a version exactly when it spells one, and then the numbers are those it spells. */
  lemma ParseSpelled(text: string, prefix: string, major: string, minor: string, patch: string)
    requires Spells(text, prefix, major, minor, patch)
    ensures Parse(text) == Some(Version(Value(major), Value(minor), Value(patch)))
  {
    DottedSplits(major, minor, patch);
    PrefixIsDropped(prefix, Dotted(major, minor, patch));
  }

  lemma PrefixIsDropped(prefix: string, body: string)
    requires prefix == "" || prefix == "v"
    requires body != "" && IsDigit(body[0])
    ensures WithoutPrefix(prefix + body) == body
  {
    if prefix == "" {
      assert prefix + body == body;
    } else {
      assert (prefix + body)[1..] == body;
    }
  }

  lemma {:induction false} JoinSplit(s: string, sep: char)
    ensures Join(Split(s, sep), sep) == s
  {
    if s != "" {
      var rest := Split(s[1..], sep);
      JoinSplit(s[1..], sep);
      assert s == [s[0]] + s[1..];
      if s[0] == sep {
        assert ([""] + rest)[1..] == rest;
        assert Join([""] + rest, sep) == "" + [sep] + Join(rest, sep);
      } else {
        JoinFront([s[0]], rest, sep);
      }
    }
  }

  lemma JoinFront(word: string, rest: seq<string>, sep: char)
    requires rest != []
    ensures Join([word + rest[0]] + rest[1..], sep) == word + Join(rest, sep)
  {
    var parts := [word + rest[0]] + rest[1..];
    assert parts[1..] == rest[1..];
    if |rest| > 1 {
      var tail := Join(rest[1..], sep);
      assert (word + rest[0]) + [sep] + tail == word + (rest[0] + [sep] + tail);
    }
  }

  lemma ParsedIsSpelled(text: string)
    requires Parse(text).Some?
    ensures exists prefix, major, minor, patch :: Spells(text, prefix, major, minor, patch)
  {
    var trimmed := TrimSpace(text);
    var body := WithoutPrefix(trimmed);
    var parts := Split(body, '.');
    JoinSplit(body, '.');
    assert parts == [parts[0], parts[1], parts[2]];
    DottedJoins(parts[0], parts[1], parts[2]);
    var prefix := if body == trimmed then "" else "v";
    assert trimmed == prefix + body;
    assert Spells(text, prefix, parts[0], parts[1], parts[2]);
  }

  /** A printed version reads back as itself, with or without the customary `v`. */
  lemma ParseFormat(v: Version, prefix: string)
    requires prefix == "" || prefix == "v"
    ensures Parse(prefix + Format(v)) == Some(v)
  {
    var major, minor, patch := Digits(v.major), Digits(v.minor), Digits(v.patch);
    DottedSplits(major, minor, patch);
    ParseSpelled(prefix + Dotted(major, minor, patch), prefix, major, minor, patch);
    ValueOfDigits(v.major);
    ValueOfDigits(v.minor);
    ValueOfDigits(v.patch);
  }

  /* ---- Bumping ---- */

  /** The positions of the parts agree with the impacts of the release labels. */
  const PARTS: seq<string> := ["patch", "minor", "major"]

  /** The components below `level` are zero. */
  predicate Rounded(v: Version, level: int) {
    (level >= 1 ==> v.patch == 0) && (level >= 2 ==> v.minor == 0)
  }

  /** `after` is the least version above `before` among those rounded to `level`. */
  ghost predicate IsNext(before: Version, after: Version, level: int) {
    && Below(before, after)
    && Rounded(after, level)
    && forall other :: Below(before, other) && Rounded(other, level) ==> AtMostVersion(after, other)
  }

  /** `bumped` is the text of the version that follows `currentVersion` at `part`. */
  ghost predicate IsBump(currentVersion: string, part: string, bumped: string) {
    && Parse(currentVersion).Some?
    && exists after, level ::
         && 0 <= level < 3 && PARTS[level] == part
         && IsNext(Parse(currentVersion).value, after, level) && bumped == Format(after)
  }

  /** The next version in the text form, or nothing when the current version or the part is malformed. */
  method BumpVersion(currentVersion: string, part: string) returns (bumped: Option<string>)
    ensures bumped.None? <==> Parse(currentVersion).None? || part !in PARTS
    ensures bumped.Some? ==> IsBump(currentVersion, part, bumped.value)
  {
    var parsed := Parse(currentVersion);
    if parsed.None? {
      return None;
    }
    var major, minor, patch := parsed.value.major, parsed.value.minor, parsed.value.patch;
    ghost var level := 0;
    if part == "major" {
      major := major + 1;
      minor := 0;
      patch := 0;
      level := 2;
    } else if part == "minor" {
      minor := minor + 1;
      patch := 0;
      level := 1;
    } else if part == "patch" {
      patch := patch + 1;
    } else {
      return None;
    }
    assert PARTS[level] == part;
    assert IsNext(parsed.value, Version(major, minor, patch), level);
    return Some(Format(Version(major, minor, patch)));
  }

  /** The part a workflow takes from a release label. */
  function PartOf(semver: string): string {
    if "semver:" <= semver then semver[|"semver:"|..] else semver
  }

  lemma PartHasImpact(semver: string)
    requires Labels.IsSemver(semver)
    ensures PartOf(semver) == PARTS[Labels.Impact(semver)]
  {
    var impact := Labels.Impact(semver);
    assert PartOf("semver:patch") == "patch" && PartOf("semver:minor") == "minor" && PartOf("semver:major") == "major";
    assert semver == Labels.SEMVER_LABELS[impact];
  }

  /** The release label of a range raises the version, and moves it at least as far as the label of any
      contributor would. */
  lemma HighestLabelBumpsFurthest(currentVersion: string, winner: string, defaultLabel: string, pulls: seq<Labels.Pull>,
                                  p: Labels.Pull, semver: string, released: string, contributed: string)
    requires Labels.IsHighest(winner, defaultLabel, pulls)
    requires p in pulls && semver in p.labels && Labels.IsSemver(semver)
    requires IsBump(currentVersion, PartOf(winner), released) && IsBump(currentVersion, PartOf(semver), contributed)
    ensures Parse(released).Some? && Parse(contributed).Some?
    ensures AtMostVersion(Parse(contributed).value, Parse(released).value)
    ensures Below(Parse(currentVersion).value, Parse(released).value)
  {
    var after := BumpedTo(currentVersion, winner, released);
    var other := BumpedTo(currentVersion, semver, contributed);
  }

  lemma BumpedTo(currentVersion: string, semver: string, bumped: string) returns (after: Version)
    requires Labels.IsSemver(semver) && IsBump(currentVersion, PartOf(semver), bumped)
    ensures Parse(bumped) == Some(after)
    ensures IsNext(Parse(currentVersion).value, after, Labels.Impact(semver))
  {
    var v, level :| 0 <= level < 3 && PARTS[level] == PartOf(semver)
      && IsNext(Parse(currentVersion).value, v, level) && bumped == Format(v);
    PartHasImpact(semver);
    ParseFormat(v, "");
    assert "" + Format(v) == Format(v);
    after := v;
  }

}
