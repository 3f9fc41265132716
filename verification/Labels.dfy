/** Which release label a range of commits deserves. */
module Labels {
  import opened Wrappers

  datatype Pull = Pull(number: int, baseRef: string, labels: seq<string>)

  /** Increasing impact: the position in the list is the impact. */
  const SEMVER_LABELS: seq<string> := ["semver:patch", "semver:minor", "semver:major"]

  predicate IsSemver(semver: string) {
    semver in SEMVER_LABELS
  }

  function Impact(semver: string): (impact: int)
    requires IsSemver(semver)
    ensures 0 <= impact < 3 && SEMVER_LABELS[impact] == semver
  {
    if semver == "semver:patch" then 0 else if semver == "semver:minor" then 1 else 2
  }

  lemma ImpactDecides(a: string, b: string)
    requires IsSemver(a) && IsSemver(b) && Impact(a) == Impact(b)
    ensures a == b
  {
  }

  /* ---- One pull request ---- */

  ghost predicate Ambiguous(labels: seq<string>) {
    exists a, b :: a in labels && b in labels && IsSemver(a) && IsSemver(b) && a != b
  }

  /** The label of a pull request, if it is not ambiguous. */
  ghost predicate IsLabelOf(labels: seq<string>, defaultLabel: string, semver: string) {
    if forall l :: l in labels ==> !IsSemver(l) then semver == defaultLabel
    else semver in labels && IsSemver(semver)
  }

  method SelectSemverLabel(labels: seq<string>, defaultLabel: string) returns (semver: Option<string>)
    ensures semver.None? <==> Ambiguous(labels)
    ensures semver.Some? ==> IsLabelOf(labels, defaultLabel, semver.value)
  {
    var seen: seq<string> := [];
    for i := 0 to |labels|
      invariant forall l :: l in seen <==> l in labels[..i] && IsSemver(l)
      invariant forall j, k :: 0 <= j < k < |seen| ==> seen[j] != seen[k]
    {
      assert labels[..i + 1] == labels[..i] + [labels[i]];
      if IsSemver(labels[i]) && labels[i] !in seen {
        seen := seen + [labels[i]];
      }
    }
    assert labels[..|labels|] == labels;
    if |seen| == 0 {
      return Some(defaultLabel);
    } else if |seen| == 1 {
      assert seen[0] in seen;
      return Some(seen[0]);
    } else {
      assert seen[0] in seen && seen[1] in seen;
      return None;
    }
  }

  function Preferred(pulls: seq<Pull>, baseRef: string): Option<Pull> {
    var i := FirstWithBase(pulls, baseRef);
    if baseRef != "" && i < |pulls| then Some(pulls[i])
    else if |pulls| > 0 then Some(pulls[0])
    else None
  }

  function FirstWithBase(pulls: seq<Pull>, baseRef: string): (i: nat)
    ensures i <= |pulls| && (forall j :: 0 <= j < i ==> pulls[j].baseRef != baseRef)
    ensures i < |pulls| ==> pulls[i].baseRef == baseRef
  {
    if pulls == [] || pulls[0].baseRef == baseRef then 0 else 1 + FirstWithBase(pulls[1..], baseRef)
  }

  method PreferredAssociatedPull(pulls: seq<Pull>, baseRef: string) returns (pull: Option<Pull>)
    ensures pull == Preferred(pulls, baseRef)
    ensures pull.None? <==> pulls == []
    ensures pull.Some? && baseRef != "" && (exists p :: p in pulls && p.baseRef == baseRef) ==>
      exists i :: 0 <= i < |pulls| && pull.value == pulls[i] && pulls[i].baseRef == baseRef && forall j :: 0 <= j < i ==> pulls[j].baseRef != baseRef
    ensures pull.Some? && (baseRef == "" || forall p :: p in pulls ==> p.baseRef != baseRef) ==> pull.value == pulls[0]
  {
    if baseRef != "" {
      for i := 0 to |pulls|
        invariant forall j :: 0 <= j < i ==> pulls[j].baseRef != baseRef
      {
        if pulls[i].baseRef == baseRef {
          return Some(pulls[i]);
        }
      }
    }
    if |pulls| > 0 {
      return Some(pulls[0]);
    }
    return None;
  }

  /* ---- A range of commits ---- */

  /** The source pull request of every commit that has one. */
  function Chosen(commits: seq<seq<Pull>>, baseRef: string): seq<Pull> {
    if commits == [] then []
    else
      Chosen(commits[..|commits| - 1], baseRef)
      + match Preferred(commits[|commits| - 1], baseRef) { case Some(pull) => [pull] case None => [] }
  }

  predicate HasNumber(pulls: seq<Pull>, number: int) {
    exists i :: 0 <= i < |pulls| && pulls[i].number == number
  }

  /** The first pull request of every number. */
  function FirstOfEach(pulls: seq<Pull>): seq<Pull> {
    if pulls == [] then []
    else
      var front, last := FirstOfEach(pulls[..|pulls| - 1]), pulls[|pulls| - 1];
      if HasNumber(front, last.number) then front else front + [last]
  }

  function Sources(commits: seq<seq<Pull>>, baseRef: string): seq<Pull> {
    FirstOfEach(Chosen(commits, baseRef))
  }

  /** `impact` is the largest of the default's and those of the pulls. */
  ghost predicate IsHighest(semver: string, defaultLabel: string, pulls: seq<Pull>) {
    && IsSemver(semver) && IsSemver(defaultLabel)
    && Impact(defaultLabel) <= Impact(semver)
    && (forall p, l :: p in pulls && l in p.labels && IsSemver(l) ==> Impact(l) <= Impact(semver))
    && (semver == defaultLabel || exists p :: p in pulls && semver in p.labels)
  }

  ghost predicate SomeAmbiguous(pulls: seq<Pull>) {
    exists p :: p in pulls && Ambiguous(p.labels)
  }

  datatype Range = BadDefault | AmbiguousPull(number: int) | Resolved(semver: string, numbers: seq<int>)

  /** What a release goes by: the label, or that there is an error. */
  function OutcomeOf(range: Range): Option<string> {
    match range
    case Resolved(semver, _) => Some(semver)
    case _ => None
  }

  /** `outcome` is the highest label over the default and every source, or an error exactly when some
      source is ambiguous (or the default is no release label). */
  ghost predicate Decides(commits: seq<seq<Pull>>, baseRef: string, defaultLabel: string, outcome: Option<string>) {
    match outcome
    case Some(semver) => !SomeAmbiguous(Sources(commits, baseRef)) && IsHighest(semver, defaultLabel, Sources(commits, baseRef))
    case None => !IsSemver(defaultLabel) || SomeAmbiguous(Sources(commits, baseRef))
  }

  /** What a range says about its sources: the highest label over the default and every one of them and
      their numbers, or an ambiguous one, of which a label is only given when there is none. */
  ghost predicate IsRange(sources: seq<Pull>, defaultLabel: string, range: Range) {
    match range
    case BadDefault => !IsSemver(defaultLabel)
    case AmbiguousPull(number) => IsSemver(defaultLabel) && exists p :: p in sources && p.number == number && Ambiguous(p.labels)
    case Resolved(semver, numbers) => !SomeAmbiguous(sources) && IsHighest(semver, defaultLabel, sources) && numbers == Numbers(sources)
  }

  lemma RangeDecides(commits: seq<seq<Pull>>, baseRef: string, defaultLabel: string, range: Range)
    requires IsRange(Sources(commits, baseRef), defaultLabel, range)
    ensures Decides(commits, baseRef, defaultLabel, OutcomeOf(range))
  {
  }

  function Numbers(pulls: seq<Pull>): (numbers: seq<int>) {
    seq(|pulls|, i requires 0 <= i < |pulls| => pulls[i].number)
  }

  method ResolvePromotionRangeSemverLabel(commits: seq<seq<Pull>>, baseRef: string, defaultLabel: string) returns (range: Range)
    ensures IsRange(Sources(commits, baseRef), defaultLabel, range)
  {
    if !IsSemver(defaultLabel) {
      return BadDefault;
    }
    var resolved := defaultLabel;
    var seenPulls: set<int> := {};
    var prNumbers: seq<int> := [];
    for i := 0 to |commits|
      invariant Resolves(resolved, prNumbers, seenPulls, defaultLabel, Sources(commits[..i], baseRef))
    {
      ghost var before := Sources(commits[..i], baseRef);
      var selected := PreferredAssociatedPull(commits[i], baseRef);
      SourcesStep(commits, baseRef, i);
      if selected.None? || selected.value.number in seenPulls {
        continue;
      }
      ghost var seen, numbers := seenPulls, prNumbers;
      seenPulls := seenPulls + {selected.value.number};
      prNumbers := prNumbers + [selected.value.number];
      var semver := SelectSemverLabel(selected.value.labels, defaultLabel);
      if semver.None? {
        LaterSourcesKeep(commits, baseRef, i + 1);
        assert Sources(commits, baseRef)[|before|] == selected.value;
        return AmbiguousPull(selected.value.number);
      }
      ResolvesStep(resolved, numbers, seen, defaultLabel, before, selected.value, semver.value);
      if Impact(semver.value) > Impact(resolved) {
        resolved := semver.value;
      }
    }
    assert commits[..|commits|] == commits;
    return Resolved(resolved, prNumbers);
  }

  /** What the loop knows once the sources `pulls` have been looked at. */
  ghost predicate Resolves(resolved: string, numbers: seq<int>, seen: set<int>, defaultLabel: string, pulls: seq<Pull>) {
    && IsHighest(resolved, defaultLabel, pulls)
    && !SomeAmbiguous(pulls)
    && numbers == Numbers(pulls)
    && forall n :: n in seen <==> HasNumber(pulls, n)
  }

  lemma ResolvesStep(resolved: string, numbers: seq<int>, seen: set<int>, defaultLabel: string, pulls: seq<Pull>,
                     pull: Pull, semver: string)
    requires Resolves(resolved, numbers, seen, defaultLabel, pulls)
    requires !HasNumber(pulls, pull.number)
    requires !Ambiguous(pull.labels) && IsLabelOf(pull.labels, defaultLabel, semver)
    ensures IsSemver(semver) && IsSemver(resolved)
    ensures Resolves(if Impact(semver) > Impact(resolved) then semver else resolved,
                     numbers + [pull.number], seen + {pull.number}, defaultLabel, pulls + [pull])
  {
    HighestStep(resolved, defaultLabel, pulls, pull, semver);
    NumbersStep(pulls, pull);
  }

  lemma SourcesStep(commits: seq<seq<Pull>>, baseRef: string, i: nat)
    requires i < |commits|
    ensures var before, after := Sources(commits[..i], baseRef), Sources(commits[..i + 1], baseRef);
            match Preferred(commits[i], baseRef) {
              case None => after == before
              case Some(pull) => after == if HasNumber(before, pull.number) then before else before + [pull]
            }
  {
    var chosen := Chosen(commits[..i], baseRef);
    assert commits[..i + 1][..i] == commits[..i];
    match Preferred(commits[i], baseRef)
    case None => assert chosen + [] == chosen;
    case Some(pull) => assert (chosen + [pull])[..|chosen|] == chosen;
  }

  lemma NumbersStep(pulls: seq<Pull>, pull: Pull)
    ensures Numbers(pulls + [pull]) == Numbers(pulls) + [pull.number]
    ensures forall n :: HasNumber(pulls + [pull], n) <==> HasNumber(pulls, n) || n == pull.number
  {
    var all := pulls + [pull];
    assert all[|pulls|] == pull;
    assert forall i :: 0 <= i < |pulls| ==> all[i] == pulls[i];
  }

  /** Later commits only append to the sources. */
  lemma {:induction false} LaterSourcesKeep(commits: seq<seq<Pull>>, baseRef: string, i: nat)
    requires i <= |commits|
    ensures Sources(commits[..i], baseRef) <= Sources(commits, baseRef)
    decreases |commits| - i
  {
    if i == |commits| {
      assert commits[..i] == commits;
    } else {
      SourcesStep(commits, baseRef, i);
      LaterSourcesKeep(commits, baseRef, i + 1);
    }
  }

  lemma HighestStep(resolved: string, defaultLabel: string, pulls: seq<Pull>, pull: Pull, semver: string)
    requires IsHighest(resolved, defaultLabel, pulls) && !SomeAmbiguous(pulls)
    requires !Ambiguous(pull.labels) && IsLabelOf(pull.labels, defaultLabel, semver)
    ensures IsSemver(semver) && !SomeAmbiguous(pulls + [pull])
    ensures IsHighest(if Impact(semver) > Impact(resolved) then semver else resolved, defaultLabel, pulls + [pull])
  {
    var all := pulls + [pull];
    forall p | p in all ensures p in pulls || p == pull {
    }
    assert forall p :: p in pulls ==> p in all;
    assert pull in all;
    forall l | l in pull.labels && IsSemver(l) ensures l == semver {
    }
  }

  /* ---- What the result depends on ---- */

  lemma HighestAtMost(a: string, b: string, defaultLabel: string, pulls: seq<Pull>, others: seq<Pull>)
    requires IsHighest(a, defaultLabel, pulls) && IsHighest(b, defaultLabel, others)
    requires forall p :: p in pulls ==> exists q :: q in others && q.labels == p.labels
    ensures Impact(a) <= Impact(b)
  {
    if a != defaultLabel {
      var p :| p in pulls && a in p.labels;
      var q :| q in others && q.labels == p.labels;
    }
  }

  lemma {:induction false} FirstOfEachCovers(pulls: seq<Pull>, p: Pull)
    requires p in pulls
    ensures HasNumber(FirstOfEach(pulls), p.number)
  {
    var front, last := pulls[..|pulls| - 1], pulls[|pulls| - 1];
    assert pulls == front + [last];
    var some, all := FirstOfEach(front), FirstOfEach(pulls);
    if p in front {
      FirstOfEachCovers(front, p);
      var i :| 0 <= i < |some| && some[i].number == p.number;
      assert all[i].number == p.number;
    } else if !HasNumber(some, p.number) {
      assert all[|some|] == p;
    }
  }

  /** A source is the first pull request of its number. */
  lemma {:induction false} FirstOfEachIsFirst(pulls: seq<Pull>, s: Pull) returns (i: nat)
    requires s in FirstOfEach(pulls)
    ensures i < |pulls| && pulls[i] == s && forall j :: 0 <= j < i ==> pulls[j].number != s.number
  {
    var front, last := pulls[..|pulls| - 1], pulls[|pulls| - 1];
    if s in FirstOfEach(front) {
      i := FirstOfEachIsFirst(front, s);
    } else {
      i := |pulls| - 1;
      forall j | 0 <= j < i ensures pulls[j].number != s.number {
        if pulls[j].number == s.number {
          assert front[j] in front;
          FirstOfEachCovers(front, front[j]);
        }
      }
    }
  }

  lemma {:induction false} FirstOfEachSelects(pulls: seq<Pull>, p: Pull)
    requires p in FirstOfEach(pulls)
    ensures p in pulls
  {
    var front, last := pulls[..|pulls| - 1], pulls[|pulls| - 1];
    assert pulls == front + [last];
    if p in FirstOfEach(front) {
      FirstOfEachSelects(front, p);
    }
  }

  ghost predicate IsChosen(commits: seq<seq<Pull>>, baseRef: string, p: Pull) {
    exists c :: c in commits && Preferred(c, baseRef) == Some(p)
  }

  lemma {:induction false} ChosenAre(commits: seq<seq<Pull>>, baseRef: string, p: Pull)
    ensures p in Chosen(commits, baseRef) <==> IsChosen(commits, baseRef, p)
  {
    if commits != [] {
      var front, last := commits[..|commits| - 1], commits[|commits| - 1];
      ChosenAre(front, baseRef, p);
      assert commits == front + [last];
      if IsChosen(front, baseRef, p) {
        var c :| c in front && Preferred(c, baseRef) == Some(p);
        assert c in commits;
      } else if Preferred(last, baseRef) == Some(p) {
        assert last in commits;
      }
    }
  }

  lemma SameChosen(a: seq<seq<Pull>>, b: seq<seq<Pull>>, baseRef: string, p: Pull)
    requires forall c :: c in a <==> c in b
    ensures p in Chosen(a, baseRef) <==> p in Chosen(b, baseRef)
  {
    ChosenAre(a, baseRef, p);
    ChosenAre(b, baseRef, p);
  }

  /** Appending commits never lowers the label. */
  lemma AppendingNeverLowers(commits: seq<seq<Pull>>, more: seq<seq<Pull>>, baseRef: string, defaultLabel: string,
                             before: string, after: string)
    requires IsHighest(before, defaultLabel, Sources(commits, baseRef))
    requires IsHighest(after, defaultLabel, Sources(commits + more, baseRef))
    ensures Impact(before) <= Impact(after)
  {
    var all := commits + more;
    assert all[..|commits|] == commits;
    LaterSourcesKeep(all, baseRef, |commits|);
    var some, every := Sources(commits, baseRef), Sources(all, baseRef);
    forall p | p in some ensures p in every {
      var i :| 0 <= i < |some| && some[i] == p;
      assert every[i] == p;
    }
    HighestAtMost(before, after, defaultLabel, some, every);
  }
}
