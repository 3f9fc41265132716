/** When the order of the commits decides the release label of a range: exactly when some source pull
    request outranks whatever every other order is sure to contain. */
module LabelOrder {
  import opened Wrappers
  import opened Labels

  /* ---- Ranks: an error outranks every label ---- */

  const ERROR_RANK := 3

  ghost function LabelOf(labels: seq<string>, defaultLabel: string): (semver: string)
    ensures IsLabelOf(labels, defaultLabel, semver)
  {
    if l :| l in labels && IsSemver(l) then l else defaultLabel
  }

  ghost function Rank(labels: seq<string>, defaultLabel: string): (rank: int)
    requires IsSemver(defaultLabel)
    ensures 0 <= rank <= ERROR_RANK && (rank == ERROR_RANK <==> Ambiguous(labels))
  {
    if Ambiguous(labels) then ERROR_RANK else Impact(LabelOf(labels, defaultLabel))
  }

  function OutcomeRank(outcome: Option<string>): (rank: int)
    requires outcome.Some? ==> IsSemver(outcome.value)
  {
    match outcome
    case Some(semver) => Impact(semver)
    case None => ERROR_RANK
  }

  ghost predicate IsMaximum(rank: int, defaultLabel: string, pulls: seq<Pull>)
    requires IsSemver(defaultLabel)
  {
    && Impact(defaultLabel) <= rank
    && (forall p :: p in pulls ==> Rank(p.labels, defaultLabel) <= rank)
    && (rank == Impact(defaultLabel) || exists p :: p in pulls && Rank(p.labels, defaultLabel) == rank)
  }

  /** The outcome is the maximum of the ranks. */
  lemma DecidesMaximum(commits: seq<seq<Pull>>, baseRef: string, defaultLabel: string, outcome: Option<string>)
    requires IsSemver(defaultLabel) && Decides(commits, baseRef, defaultLabel, outcome)
    ensures outcome.Some? ==> IsSemver(outcome.value)
    ensures IsMaximum(OutcomeRank(outcome), defaultLabel, Sources(commits, baseRef))
  {
    var pulls := Sources(commits, baseRef);
    match outcome
    case None =>
      var p :| p in pulls && Ambiguous(p.labels);
      assert Rank(p.labels, defaultLabel) == ERROR_RANK;
    case Some(semver) =>
      if semver != defaultLabel {
        var p :| p in pulls && semver in p.labels;
        assert LabelOf(p.labels, defaultLabel) == semver;
        assert Rank(p.labels, defaultLabel) == Impact(semver);
      }
  }

  lemma SameRankSameOutcome(a: Option<string>, b: Option<string>)
    requires (a.Some? ==> IsSemver(a.value)) && (b.Some? ==> IsSemver(b.value))
    requires OutcomeRank(a) == OutcomeRank(b)
    ensures a == b
  {
    if a.Some? && b.Some? {
      ImpactDecides(a.value, b.value);
    }
  }

  /** Every range has an outcome. */
  lemma OutcomeExists(commits: seq<seq<Pull>>, baseRef: string, defaultLabel: string) returns (outcome: Option<string>)
    requires IsSemver(defaultLabel)
    ensures Decides(commits, baseRef, defaultLabel, outcome)
  {
    var pulls := Sources(commits, baseRef);
    if SomeAmbiguous(pulls) {
      outcome := None;
    } else {
      var semver := HighestExists(defaultLabel, pulls);
      outcome := Some(semver);
    }
  }

  lemma {:induction false} HighestExists(defaultLabel: string, pulls: seq<Pull>) returns (semver: string)
    requires IsSemver(defaultLabel) && !SomeAmbiguous(pulls)
    ensures IsHighest(semver, defaultLabel, pulls)
  {
    if pulls == [] {
      semver := defaultLabel;
    } else {
      var front, last := pulls[..|pulls| - 1], pulls[|pulls| - 1];
      assert pulls == front + [last];
      assert last in pulls && forall p :: p in front ==> p in pulls;
      var before := HighestExists(defaultLabel, front);
      var own := LabelOf(last.labels, defaultLabel);
      HighestStep(before, defaultLabel, front, last, own);
      semver := if Impact(own) > Impact(before) then own else before;
    }
  }

  /* ---- The condition ---- */

  /** Every occurrence of the pull request `number` has at least this rank. */
  ghost predicate Assured(pulls: seq<Pull>, number: int, rank: int, defaultLabel: string)
    requires IsSemver(defaultLabel)
  {
    forall q :: q in pulls && q.number == number ==> Rank(q.labels, defaultLabel) >= rank
  }

  /** A rank that every order reaches: that of the default, or one that some pull request has in every
      occurrence. */
  ghost predicate IsReached(pulls: seq<Pull>, rank: int, defaultLabel: string)
    requires IsSemver(defaultLabel)
  {
    rank == Impact(defaultLabel) || exists m :: m in pulls && Assured(pulls, m.number, rank, defaultLabel)
  }

  ghost predicate IsBound(pulls: seq<Pull>, rank: int, defaultLabel: string)
    requires IsSemver(defaultLabel)
  {
    forall p :: p in pulls ==> Rank(p.labels, defaultLabel) <= rank
  }

  /** No occurrence outranks what every order reaches. */
  ghost predicate Steady(pulls: seq<Pull>, defaultLabel: string)
    requires IsSemver(defaultLabel)
  {
    exists rank: int :: IsReached(pulls, rank, defaultLabel) && IsBound(pulls, rank, defaultLabel)
  }

  /** The sources are chosen pull requests, one at least of every number. */
  ghost predicate Represent(sources: seq<Pull>, pulls: seq<Pull>) {
    && (forall s :: s in sources ==> s in pulls)
    && forall p :: p in pulls ==> HasSource(sources, p.number)
  }

  ghost predicate HasSource(sources: seq<Pull>, number: int) {
    exists s :: s in sources && s.number == number
  }

  lemma SourcesRepresent(a: seq<seq<Pull>>, b: seq<seq<Pull>>, baseRef: string)
    requires forall c :: c in a <==> c in b
    ensures Represent(Sources(a, baseRef), Chosen(b, baseRef))
  {
    forall s | s in Sources(a, baseRef) ensures s in Chosen(b, baseRef) {
      FirstOfEachSelects(Chosen(a, baseRef), s);
      SameChosen(a, b, baseRef, s);
    }
    forall p | p in Chosen(b, baseRef) ensures HasSource(Sources(a, baseRef), p.number) {
      SameChosen(a, b, baseRef, p);
      FirstOfEachCovers(Chosen(a, baseRef), p);
      var i :| 0 <= i < |Sources(a, baseRef)| && Sources(a, baseRef)[i].number == p.number;
      assert Sources(a, baseRef)[i] in Sources(a, baseRef);
    }
  }

  /** What every order reaches, the maximum over any representatives reaches. */
  lemma Reaches(pulls: seq<Pull>, sources: seq<Pull>, defaultLabel: string, reached: int, rank: int)
    requires IsSemver(defaultLabel) && IsReached(pulls, reached, defaultLabel) && Represent(sources, pulls)
    requires IsMaximum(rank, defaultLabel, sources)
    ensures reached <= rank
  {
    if reached != Impact(defaultLabel) {
      var m :| m in pulls && Assured(pulls, m.number, reached, defaultLabel);
      assert HasSource(sources, m.number);
      var q :| q in sources && q.number == m.number;
      assert Rank(q.labels, defaultLabel) >= reached;
    }
  }

  /** Steady commits have one outcome, in whatever order and however often they come. */
  lemma SteadyIgnoresOrder(a: seq<seq<Pull>>, b: seq<seq<Pull>>, baseRef: string, defaultLabel: string,
                           first: Option<string>, second: Option<string>)
    requires IsSemver(defaultLabel) && (forall c :: c in a <==> c in b)
    requires Steady(Chosen(a, baseRef), defaultLabel)
    requires Decides(a, baseRef, defaultLabel, first) && Decides(b, baseRef, defaultLabel, second)
    ensures first == second
  {
    DecidesMaximum(a, baseRef, defaultLabel, first);
    DecidesMaximum(b, baseRef, defaultLabel, second);
    SourcesRepresent(a, a, baseRef);
    SourcesRepresent(b, a, baseRef);
    var pulls := Chosen(a, baseRef);
    RankAtMost(pulls, Sources(a, baseRef), Sources(b, baseRef), defaultLabel, OutcomeRank(first), OutcomeRank(second));
    RankAtMost(pulls, Sources(b, baseRef), Sources(a, baseRef), defaultLabel, OutcomeRank(second), OutcomeRank(first));
    SameRankSameOutcome(first, second);
  }

  lemma RankAtMost(pulls: seq<Pull>, s: seq<Pull>, t: seq<Pull>, defaultLabel: string, first: int, second: int)
    requires IsSemver(defaultLabel) && Steady(pulls, defaultLabel) && Represent(s, pulls) && Represent(t, pulls)
    requires IsMaximum(first, defaultLabel, s) && IsMaximum(second, defaultLabel, t)
    ensures first <= second
  {
    var reached: int :| IsReached(pulls, reached, defaultLabel) && IsBound(pulls, reached, defaultLabel);
    Reaches(pulls, t, defaultLabel, reached, second);
    Bounds(pulls, s, defaultLabel, reached, first);
  }

  lemma Bounds(pulls: seq<Pull>, sources: seq<Pull>, defaultLabel: string, bound: int, rank: int)
    requires IsSemver(defaultLabel) && IsBound(pulls, bound, defaultLabel) && (forall s :: s in sources ==> s in pulls)
    requires IsMaximum(rank, defaultLabel, sources)
    ensures rank <= bound || rank == Impact(defaultLabel)
  {
  }

  /* ---- Choosing which occurrence comes first ---- */

  predicate IsGood(commit: seq<Pull>, baseRef: string, good: Pull -> bool) {
    match Preferred(commit, baseRef)
    case Some(p) => good(p)
    case None => false
  }

  /** The commits that are good, or those that are not, in order. */
  function Select(commits: seq<seq<Pull>>, baseRef: string, good: Pull -> bool, wanted: bool): (selected: seq<seq<Pull>>)
    ensures forall c :: c in selected <==> c in commits && IsGood(c, baseRef, good) == wanted
  {
    if commits == [] then []
    else
      var last := |commits| - 1;
      assert commits == commits[..last] + [commits[last]];
      Select(commits[..last], baseRef, good, wanted) + if IsGood(commits[last], baseRef, good) == wanted then [commits[last]] else []
  }

  function GoodFirst(commits: seq<seq<Pull>>, baseRef: string, good: Pull -> bool): seq<seq<Pull>> {
    Select(commits, baseRef, good, true) + Select(commits, baseRef, good, false)
  }

  lemma {:induction false} GoodFirstReorders(commits: seq<seq<Pull>>, baseRef: string, good: Pull -> bool)
    ensures multiset(GoodFirst(commits, baseRef, good)) == multiset(commits)
  {
    if commits != [] {
      var front, last := commits[..|commits| - 1], commits[|commits| - 1];
      GoodFirstReorders(front, baseRef, good);
      assert commits == front + [last];
      OneMoreCommit(Select(front, baseRef, good, true), Select(front, baseRef, good, false), last);
    }
  }

  lemma OneMoreCommit(a: seq<seq<Pull>>, b: seq<seq<Pull>>, c: seq<Pull>)
    ensures multiset((a + [c]) + b) == multiset(a + b) + multiset{c}
    ensures multiset(a + (b + [c])) == multiset(a + b) + multiset{c}
  {
  }

  lemma {:induction false} ChosenOfConcat(a: seq<seq<Pull>>, b: seq<seq<Pull>>, baseRef: string)
    ensures Chosen(a + b, baseRef) == Chosen(a, baseRef) + Chosen(b, baseRef)
  {
    if b == [] {
      assert a + b == a;
    } else {
      var front := b[..|b| - 1];
      assert (a + b)[..|a + b| - 1] == a + front;
      ChosenOfConcat(a, front, baseRef);
    }
  }

  lemma {:induction false} FirstOfConcat(a: seq<Pull>, b: seq<Pull>, s: Pull)
    requires s in FirstOfEach(a + b)
    ensures s in FirstOfEach(a) || !HasNumber(FirstOfEach(a), s.number)
  {
    if b == [] {
      assert a + b == a;
    } else {
      var front, last := b[..|b| - 1], b[|b| - 1];
      assert (a + b)[..|a + b| - 1] == a + front;
      if s in FirstOfEach(a + front) {
        FirstOfConcat(a, front, s);
      } else {
        assert s == last;
        FirstsKept(a, front);
        var first, more := FirstOfEach(a), FirstOfEach(a + front);
        assert forall i :: 0 <= i < |first| ==> more[i] == first[i];
      }
    }
  }

  lemma {:induction false} FirstsKept(a: seq<Pull>, b: seq<Pull>)
    ensures FirstOfEach(a) <= FirstOfEach(a + b)
  {
    if b == [] {
      assert a + b == a;
    } else {
      assert (a + b)[..|a + b| - 1] == a + b[..|b| - 1];
      FirstsKept(a, b[..|b| - 1]);
    }
  }

  /** With the good commits first, a pull request that has a good occurrence contributes a good one. */
  lemma GoodWins(commits: seq<seq<Pull>>, baseRef: string, good: Pull -> bool, s: Pull, q: Pull)
    requires s in Sources(GoodFirst(commits, baseRef, good), baseRef)
    requires q in Chosen(commits, baseRef) && q.number == s.number && good(q)
    ensures good(s)
  {
    var front, back := Select(commits, baseRef, good, true), Select(commits, baseRef, good, false);
    ChosenOfConcat(front, back, baseRef);
    FirstOfConcat(Chosen(front, baseRef), Chosen(back, baseRef), s);
    ChosenAre(commits, baseRef, q);
    var c :| c in commits && Preferred(c, baseRef) == Some(q);
    assert IsGood(c, baseRef, good);
    ChosenAre(front, baseRef, q);
    FirstOfEachCovers(Chosen(front, baseRef), q);
    FirstOfEachSelects(Chosen(front, baseRef), s);
    ChosenAre(front, baseRef, s);
  }

  /** A source has the number of a chosen pull request, and each number has a source. */
  lemma SourceOf(commits: seq<seq<Pull>>, baseRef: string, p: Pull) returns (s: Pull)
    requires p in Chosen(commits, baseRef)
    ensures s in Sources(commits, baseRef) && s.number == p.number
  {
    FirstOfEachCovers(Chosen(commits, baseRef), p);
    var i :| 0 <= i < |Sources(commits, baseRef)| && Sources(commits, baseRef)[i].number == p.number;
    s := Sources(commits, baseRef)[i];
  }

  lemma ReorderedChosen(a: seq<seq<Pull>>, b: seq<seq<Pull>>, baseRef: string, p: Pull)
    requires multiset(a) == multiset(b)
    ensures p in Chosen(a, baseRef) <==> p in Chosen(b, baseRef)
  {
    forall c ensures c in a <==> c in b {
      assert c in a <==> c in multiset(a);
      assert c in b <==> c in multiset(b);
    }
    SameChosen(a, b, baseRef, p);
  }

  /** With `p` first the outcome has at least its rank. */
  lemma HighOrder(commits: seq<seq<Pull>>, baseRef: string, defaultLabel: string, p: Pull) returns (other: seq<seq<Pull>>, outcome: Option<string>)
    requires IsSemver(defaultLabel) && p in Chosen(commits, baseRef)
    ensures multiset(other) == multiset(commits) && Decides(other, baseRef, defaultLabel, outcome)
    ensures outcome.Some? ==> IsSemver(outcome.value)
    ensures OutcomeRank(outcome) >= Rank(p.labels, defaultLabel)
  {
    var good := (q: Pull) => q == p;
    other := GoodFirst(commits, baseRef, good);
    GoodFirstReorders(commits, baseRef, good);
    outcome := OutcomeExists(other, baseRef, defaultLabel);
    DecidesMaximum(other, baseRef, defaultLabel, outcome);
    ReorderedChosen(commits, other, baseRef, p);
    var s := SourceOf(other, baseRef, p);
    GoodWins(commits, baseRef, good, s, p);
  }

  /** If every pull request has an occurrence of lower rank, and the default has, some order stays below. */
  lemma LowOrder(commits: seq<seq<Pull>>, baseRef: string, defaultLabel: string, rank: int) returns (other: seq<seq<Pull>>, outcome: Option<string>)
    requires IsSemver(defaultLabel) && Impact(defaultLabel) < rank
    requires forall m :: m in Chosen(commits, baseRef) ==> !Assured(Chosen(commits, baseRef), m.number, rank, defaultLabel)
    ensures multiset(other) == multiset(commits) && Decides(other, baseRef, defaultLabel, outcome)
    ensures outcome.Some? ==> IsSemver(outcome.value)
    ensures OutcomeRank(outcome) < rank
  {
    var pulls := Chosen(commits, baseRef);
    var low := Lower(pulls, defaultLabel, rank);
    var good := (q: Pull) => q in low;
    other := GoodFirst(commits, baseRef, good);
    GoodFirstReorders(commits, baseRef, good);
    outcome := OutcomeExists(other, baseRef, defaultLabel);
    DecidesMaximum(other, baseRef, defaultLabel, outcome);
    forall s | s in Sources(other, baseRef) ensures Rank(s.labels, defaultLabel) < rank {
      FirstOfEachSelects(Chosen(other, baseRef), s);
      ReorderedChosen(commits, other, baseRef, s);
      var q := LowerOccurrence(pulls, defaultLabel, rank, s.number);
      GoodWins(commits, baseRef, good, s, q);
    }
  }

  /** The pull requests of a rank below `rank`. */
  ghost function Lower(pulls: seq<Pull>, defaultLabel: string, rank: int): (low: set<Pull>)
    requires IsSemver(defaultLabel)
  {
    set p | p in pulls && Rank(p.labels, defaultLabel) < rank
  }

  lemma LowerOccurrence(pulls: seq<Pull>, defaultLabel: string, rank: int, number: int) returns (q: Pull)
    requires IsSemver(defaultLabel) && !Assured(pulls, number, rank, defaultLabel)
    ensures q in pulls && q.number == number && q in Lower(pulls, defaultLabel, rank)
  {
    q :| q in pulls && q.number == number && Rank(q.labels, defaultLabel) < rank;
  }

  /** In a list that is not steady the highest occurrence outranks what every order reaches. */
  lemma Unreached(pulls: seq<Pull>, defaultLabel: string) returns (p: Pull)
    requires IsSemver(defaultLabel) && !Steady(pulls, defaultLabel)
    ensures p in pulls && Rank(p.labels, defaultLabel) > Impact(defaultLabel)
    ensures forall m :: m in pulls ==> !Assured(pulls, m.number, Rank(p.labels, defaultLabel), defaultLabel)
  {
    if pulls == [] {
      assert IsReached(pulls, Impact(defaultLabel), defaultLabel) && IsBound(pulls, Impact(defaultLabel), defaultLabel);
    }
    p := Highest(pulls, defaultLabel);
    var rank := Rank(p.labels, defaultLabel);
    assert IsBound(pulls, rank, defaultLabel);
    assert !IsReached(pulls, rank, defaultLabel);
    if rank <= Impact(defaultLabel) {
      assert IsReached(pulls, Impact(defaultLabel), defaultLabel) && IsBound(pulls, Impact(defaultLabel), defaultLabel);
    }
  }

  lemma {:induction false} Highest(pulls: seq<Pull>, defaultLabel: string) returns (p: Pull)
    requires IsSemver(defaultLabel) && pulls != []
    ensures p in pulls && IsBound(pulls, Rank(p.labels, defaultLabel), defaultLabel)
  {
    var front, last := pulls[..|pulls| - 1], pulls[|pulls| - 1];
    assert pulls == front + [last];
    p := last;
    if front != [] {
      var best := Highest(front, defaultLabel);
      assert best in pulls;
      p := if Rank(best.labels, defaultLabel) > Rank(last.labels, defaultLabel) then best else last;
    }
  }

  /** The order of the commits is without effect exactly when they are steady, or the default is no
      release label and every order is an error. */
  lemma OrderIgnoredExactly(commits: seq<seq<Pull>>, baseRef: string, defaultLabel: string)
    ensures (IsSemver(defaultLabel) ==> Steady(Chosen(commits, baseRef), defaultLabel)) <==>
            forall other, a, b ::
              multiset(other) == multiset(commits) && Decides(commits, baseRef, defaultLabel, a) && Decides(other, baseRef, defaultLabel, b)
              ==> a == b
  {
    if !IsSemver(defaultLabel) {
    } else if Steady(Chosen(commits, baseRef), defaultLabel) {
      forall other, a, b | multiset(other) == multiset(commits)
        && Decides(commits, baseRef, defaultLabel, a) && Decides(other, baseRef, defaultLabel, b) ensures a == b
      {
        forall c ensures c in commits <==> c in other {
          assert c in commits <==> c in multiset(commits);
          assert c in other <==> c in multiset(other);
        }
        SteadyIgnoresOrder(commits, other, baseRef, defaultLabel, a, b);
      }
    } else {
      var p := Unreached(Chosen(commits, baseRef), defaultLabel);
      var one, high := HighOrder(commits, baseRef, defaultLabel, p);
      var two, low := LowOrder(commits, baseRef, defaultLabel, Rank(p.labels, defaultLabel));
      var own := OutcomeExists(commits, baseRef, defaultLabel);
    }
  }

  /* ---- The ranges the method returns ---- */

  /** `range` is a result for the commits. */
  ghost predicate IsResult(commits: seq<seq<Pull>>, baseRef: string, defaultLabel: string, range: Range) {
    IsRange(Sources(commits, baseRef), defaultLabel, range)
  }

  /** Whatever the label or error, a range with it is possible. */
  lemma RangeExists(commits: seq<seq<Pull>>, baseRef: string, defaultLabel: string, outcome: Option<string>) returns (range: Range)
    requires Decides(commits, baseRef, defaultLabel, outcome)
    ensures IsResult(commits, baseRef, defaultLabel, range) && OutcomeOf(range) == outcome
  {
    var sources := Sources(commits, baseRef);
    match outcome
    case Some(semver) =>
      range := Resolved(semver, Numbers(sources));
    case None =>
      if !IsSemver(defaultLabel) {
        range := BadDefault;
      } else {
        var p :| p in sources && Ambiguous(p.labels);
        range := AmbiguousPull(p.number);
      }
  }

  /** All results for all reorderings have the same label, or are errors together, exactly when the
      commits are steady or the default is no release label. */
  lemma ResultIgnoresOrderExactly(commits: seq<seq<Pull>>, baseRef: string, defaultLabel: string)
    ensures (IsSemver(defaultLabel) ==> Steady(Chosen(commits, baseRef), defaultLabel)) <==>
            forall other, a, b ::
              multiset(other) == multiset(commits) && IsResult(commits, baseRef, defaultLabel, a) && IsResult(other, baseRef, defaultLabel, b)
              ==> OutcomeOf(a) == OutcomeOf(b)
  {
    OrderIgnoredExactly(commits, baseRef, defaultLabel);
    if IsSemver(defaultLabel) ==> Steady(Chosen(commits, baseRef), defaultLabel) {
      forall other, a, b | multiset(other) == multiset(commits)
        && IsResult(commits, baseRef, defaultLabel, a) && IsResult(other, baseRef, defaultLabel, b)
        ensures OutcomeOf(a) == OutcomeOf(b)
      {
        RangeDecides(commits, baseRef, defaultLabel, a);
        RangeDecides(other, baseRef, defaultLabel, b);
      }
    } else {
      var other, a, b :| multiset(other) == multiset(commits)
        && Decides(commits, baseRef, defaultLabel, a) && Decides(other, baseRef, defaultLabel, b) && a != b;
      var mine := RangeExists(commits, baseRef, defaultLabel, a);
      var theirs := RangeExists(other, baseRef, defaultLabel, b);
    }
  }

  /* ---- Inputs ---- */

  /** A pull request carries the same labels wherever it turns up. */
  ghost predicate Consistent(pulls: seq<Pull>) {
    forall p, q :: p in pulls && q in pulls && p.number == q.number ==> p.labels == q.labels
  }

  /** Consistent labels are steady, whatever they are. */
  lemma ConsistentIsSteady(pulls: seq<Pull>, defaultLabel: string)
    requires IsSemver(defaultLabel) && Consistent(pulls)
    ensures Steady(pulls, defaultLabel)
  {
    if !Steady(pulls, defaultLabel) {
      var p := Unreached(pulls, defaultLabel);
      assert Assured(pulls, p.number, Rank(p.labels, defaultLabel), defaultLabel);
    }
  }

  /** A pull request that gets its label between two commits: two orders, two labels. */
  lemma InconsistentOrderMatters(baseRef: string, p: Pull, q: Pull)
    requires p == Pull(7, baseRef, []) && q == Pull(7, baseRef, ["semver:major"])
    ensures Decides([[p], [q]], baseRef, "semver:patch", Some("semver:patch"))
    ensures Decides([[q], [p]], baseRef, "semver:patch", Some("semver:major"))
  {
    TwoSources(baseRef, p, q);
    TwoSources(baseRef, q, p);
    assert q in [q] && "semver:major" in q.labels;
  }

  lemma TwoSources(baseRef: string, p: Pull, q: Pull)
    requires p.number == q.number && p.baseRef == q.baseRef == baseRef
    ensures Sources([[p], [q]], baseRef) == [p]
  {
    OneChosen(p, baseRef);
    OneChosen(q, baseRef);
    ChosenOfConcat([[p]], [[q]], baseRef);
    assert [[p]] + [[q]] == [[p], [q]] && [p] + [q] == [p, q];
    FirstOfTwo(p, q);
  }

  lemma OneChosen(p: Pull, baseRef: string)
    requires p.baseRef == baseRef
    ensures Chosen([[p]], baseRef) == [p]
  {
    assert [[p]][..0] == [] && Chosen([], baseRef) == [];
    assert Preferred([p], baseRef) == Some(p);
  }

  lemma FirstOfTwo(p: Pull, q: Pull)
    requires p.number == q.number
    ensures FirstOfEach([p, q]) == [p]
  {
    assert [p][..0] == [] && FirstOfEach([p]) == [] + [p] == [p];
    assert [p, q][..1] == [p] && [p][0].number == q.number;
    assert HasNumber([p], q.number);
  }
}
