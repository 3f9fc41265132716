/** Many callers of one token manager. Between any two steps of a caller the others may take
    theirs and the clock may advance; the only order comes from the mutex. */
module TokenProtocol {
  import opened Wrappers
  import opened TokenCache

  type Caller = nat

  datatype Result = Token(token: string) | NoToken

  /** A fetch that was answered: sent at `started`, the token issued by the endpoint at `issued`, the
      answer read at `received`. */
  datatype Grant = Grant(started: int, issued: int, received: int, expiresIn: int)

  /** When the endpoint stops taking the token: its clock starts when it issues it. */
  function Dies(grant: Grant): int {
    grant.issued + grant.expiresIn * SECOND
  }

  /** Where a caller of GetAccessToken is. */
  datatype Place =
    | Outside
    | BeforeFirst                                     // about to lock in cachedToken
    | InFirst                                         // holds the mutex in cachedToken
    | BeforeSecond                                    // about to lock in GetAccessToken
    | InSecond                                        // holds the mutex, about to look again
    | Fetching(started: int)                          // holds the mutex, request in flight
    | Checking(token: string, expiry: int, grant: Grant) // holds the mutex, expiry computed but not yet compared
    | Returned(result: Result)

  /** What an observer of the cache could write down. */
  datatype Event =
    | Served(at: int, token: string)                  // returned from the cache path
    | FetchStarted(at: int)
    | FetchEnded
    | Stored(at: int, token: string, until: int, grant: Grant)  // used from `at` to before `until`

  datatype System = System(
    tokenSkew: int,
    now: int,
    cache: Cache,
    owner: Option<Caller>,
    places: map<Caller, Place>,
    log: seq<Event>)

  datatype Step =
    | Tick(elapsed: nat)
    | Call(c: Caller)
    | LockFirst(c: Caller)
    | LookFirst(c: Caller)
    | LockSecond(c: Caller)
    | LookSecond(c: Caller)
    | Answer(c: Caller, reply: Reply, issued: int)
    | Check(c: Caller)

  function PlaceOf(s: System, c: Caller): Place {
    if c in s.places then s.places[c] else Outside
  }

  predicate HoldsLock(p: Place) {
    p.InFirst? || p.InSecond? || p.Fetching? || p.Checking?
  }

  /** A request that was sent and whose outcome is not settled yet. */
  predicate InFlight(p: Place) {
    p.Fetching? || p.Checking?
  }

  function Initial(tokenSkew: int, now: int): System {
    System(tokenSkew, now, Cache("", 0), None, map[], [])
  }

  predicate Enabled(s: System, step: Step) {
    match step
    case Tick(_) => true
    case Call(c) => PlaceOf(s, c).Outside? || PlaceOf(s, c).Returned?
    case LockFirst(c) => PlaceOf(s, c).BeforeFirst? && s.owner.None?
    case LookFirst(c) => PlaceOf(s, c).InFirst?
    case LockSecond(c) => PlaceOf(s, c).BeforeSecond? && s.owner.None?
    case LookSecond(c) => PlaceOf(s, c).InSecond?
    case Answer(c, _, issued) => PlaceOf(s, c).Fetching? && PlaceOf(s, c).started <= issued <= s.now
    case Check(c) => PlaceOf(s, c).Checking?
  }

  function Move(s: System, c: Caller, p: Place): System {
    s.(places := s.places[c := p])
  }

  function Unlocked(s: System, c: Caller, p: Place, events: seq<Event>): System {
    Move(s, c, p).(owner := None, log := s.log + events)
  }

  function Next(s: System, step: Step): System
    requires Enabled(s, step)
  {
    match step
    case Tick(elapsed) => s.(now := s.now + elapsed)
    case Call(c) => Move(s, c, BeforeFirst)
    case LockFirst(c) => Move(s, c, InFirst).(owner := Some(c))
    case LookFirst(c) =>
      if Usable(s.cache, s.now)
      then Unlocked(s, c, Returned(Token(s.cache.token)), [Served(s.now, s.cache.token)])
      else Unlocked(s, c, BeforeSecond, [])
    case LockSecond(c) => Move(s, c, InSecond).(owner := Some(c))
    case LookSecond(c) =>
      if Usable(s.cache, s.now)
      then Unlocked(s, c, Returned(Token(s.cache.token)), [Served(s.now, s.cache.token)])
      else Move(s, c, Fetching(s.now)).(log := s.log + [FetchStarted(s.now)])
    case Answer(c, reply, issued) =>
      if Acceptable(reply)
      then Move(s, c, Checking(reply.accessToken, Expiry(s.now, reply.expiresIn, s.tokenSkew),
                               Grant(PlaceOf(s, c).started, issued, s.now, reply.expiresIn)))
      else Unlocked(s, c, Returned(NoToken), [FetchEnded])
    case Check(c) =>
      var p := PlaceOf(s, c);
      if s.now < p.expiry
      then Unlocked(s, c, Returned(Token(p.token)), [FetchEnded, Stored(s.now, p.token, p.expiry, p.grant)])
             .(cache := Cache(p.token, p.expiry))
      else Unlocked(s, c, Returned(NoToken), [FetchEnded])
  }

  /** A run: every step enabled where it is taken. */
  predicate IsRun(s: System, steps: seq<Step>)
    decreases |steps|
  {
    steps == [] || (Enabled(s, steps[0]) && IsRun(Next(s, steps[0]), steps[1..]))
  }

  function After(s: System, steps: seq<Step>): System
    requires IsRun(s, steps)
    decreases |steps|
  {
    if steps == [] then s else After(Next(s, steps[0]), steps[1..])
  }

  /* ---- What the log of every run says ---- */

  /** Validity windows follow one another without overlapping. */
  ghost predicate WindowsDisjoint(log: seq<Event>) {
    forall i, j :: 0 <= i < j < |log| && log[i].Stored? && log[j].Stored? ==> log[i].until <= log[j].at
  }

  /** No fetch starts while a stored token is still good. */
  ghost predicate FetchesNeeded(log: seq<Event>) {
    forall i, j :: 0 <= i < j < |log| && log[i].Stored? && log[j].FetchStarted? ==> log[i].until <= log[j].at
  }

  /** Event `i` is the storing of the token that is served at `at`, inside its window. */
  ghost predicate Covers(log: seq<Event>, i: int, at: int, token: string) {
    0 <= i < |log| && log[i].Stored? && log[i].token == token && log[i].at <= at < log[i].until
  }

  /** Every token that came from the cache path was stored before and had not expired. */
  ghost predicate ServedFresh(log: seq<Event>) {
    forall j :: 0 <= j < |log| && log[j].Served? ==> exists i :: i < j && Covers(log, i, log[j].at, log[j].token)
  }

  /* ---- The invariant ---- */

  ghost predicate LockConsistent(s: System) {
    forall c: Caller :: HoldsLock(PlaceOf(s, c)) <==> s.owner == Some(c)
  }

  ghost predicate CacheConsistent(s: System) {
    && (forall c: Caller :: InFlight(PlaceOf(s, c)) ==> !Usable(s.cache, s.now))
    && (forall c: Caller :: PlaceOf(s, c).Checking? ==> PlaceOf(s, c).token != "")
    && (s.cache.token == "" ==> forall i :: 0 <= i < |s.log| ==> !s.log[i].Stored?)
    && (forall i :: 0 <= i < |s.log| && s.log[i].Stored? ==> s.log[i].until <= s.cache.expiresAt && s.log[i].at <= s.now)
    && (s.cache.token != "" ==> CacheStored(s))
  }

  ghost predicate CacheStored(s: System) {
    exists i :: 0 <= i < |s.log| && s.log[i].Stored? && s.log[i].token == s.cache.token
      && s.log[i].until == s.cache.expiresAt && s.log[i].at <= s.now
  }

  ghost predicate LogGood(log: seq<Event>) {
    WindowsDisjoint(log) && FetchesNeeded(log) && ServedFresh(log)
  }

  ghost predicate Windows(s: System) {
    LockConsistent(s) && CacheConsistent(s) && LogGood(s.log)
  }

  /** The times of a fetch that is in the log. */
  ghost predicate IsGrant(log: seq<Event>, grant: Grant) {
    FetchStarted(grant.started) in log && grant.started <= grant.issued <= grant.received
  }

  ghost predicate FlightHolds(s: System, p: Place) {
    match p
    case Fetching(started) => FetchStarted(started) in s.log
    case Checking(_, expiry, grant) =>
      IsGrant(s.log, grant) && grant.received <= s.now && expiry == Expiry(grant.received, grant.expiresIn, s.tokenSkew)
    case _ => true
  }

  /** What every fetch in flight and every stored token owe to their times. */
  ghost predicate GrantsHold(s: System) {
    && (forall c: Caller :: FlightHolds(s, PlaceOf(s, c)))
    && (forall e :: e in s.log && e.Stored? ==> IsGrant(s.log, e.grant) && IsSkewed(e, s.tokenSkew))
  }

  /** A token is used from when its answer was read, and given up as much before its expiry as the skew says. */
  ghost predicate IsSkewed(stored: Event, tokenSkew: int)
    requires stored.Stored?
  {
    stored.grant.received <= stored.at && stored.until == Expiry(stored.grant.received, stored.grant.expiresIn, tokenSkew)
  }

  /** The cache as the log has it: what was stored last. */
  function CacheFrom(log: seq<Event>): Cache {
    if log == [] then Cache("", 0)
    else
      var last := log[|log| - 1];
      if last.Stored? then Cache(last.token, last.until) else CacheFrom(log[..|log| - 1])
  }

  ghost predicate WasStored(log: seq<Event>, token: string) {
    exists i :: 0 <= i < |log| && log[i].Stored? && log[i].token == token
  }

  /** The cache is what was stored last, and whoever was told a token was told one that was stored. */
  ghost predicate ToldFromLog(s: System) {
    && s.cache == CacheFrom(s.log)
    && (forall c: Caller :: PlaceOf(s, c).Returned? && PlaceOf(s, c).result.Token? ==> WasStored(s.log, PlaceOf(s, c).result.token))
  }

  ghost predicate Inv(s: System) {
    Windows(s) && GrantsHold(s) && ToldFromLog(s)
  }

  lemma ServedStaysFresh(log: seq<Event>, more: seq<Event>)
    requires ServedFresh(log) && forall k :: 0 <= k < |more| ==> !more[k].Served?
    ensures ServedFresh(log + more)
  {
    var all := log + more;
    forall j | 0 <= j < |all| && all[j].Served? ensures exists i :: i < j && Covers(all, i, all[j].at, all[j].token) {
      var i :| i < j && Covers(log, i, log[j].at, log[j].token);
      assert Covers(all, i, all[j].at, all[j].token);
    }
  }

  /** Serving the cached token: its storing is in the log. */
  lemma ServingIsSafe(s: System, log: seq<Event>)
    requires LogGood(s.log) && CacheStored(s) && Usable(s.cache, s.now)
    requires log == s.log + [Served(s.now, s.cache.token)]
    ensures LogGood(log)
  {
    var i :| 0 <= i < |s.log| && s.log[i].Stored? && s.log[i].token == s.cache.token
      && s.log[i].until == s.cache.expiresAt && s.log[i].at <= s.now;
    assert Covers(log, i, s.now, s.cache.token);
    forall j | 0 <= j < |log| && log[j].Served? ensures exists k :: k < j && Covers(log, k, log[j].at, log[j].token) {
      if j < |s.log| {
        var k :| k < j && Covers(s.log, k, s.log[j].at, s.log[j].token);
        assert Covers(log, k, log[j].at, log[j].token);
      }
    }
  }

  lemma LookKeepsWindows(s: System, c: Caller, step: Step)
    requires Windows(s) && Enabled(s, step) && (step == LookFirst(c) || step == LookSecond(c))
    ensures Windows(Next(s, step))
  {
    var t := Next(s, step);
    assert HoldsLock(PlaceOf(s, c));
    KeepsStored(s, t);
    if Usable(s.cache, s.now) {
      ServingIsSafe(s, t.log);
    } else {
      ServedStaysFresh(s.log, t.log[|s.log|..]);
      assert t.log == s.log + t.log[|s.log|..];
    }
  }

  lemma KeepsStored(s: System, t: System)
    requires s.cache == t.cache && s.now <= t.now && s.log <= t.log
    requires s.cache.token != "" ==> CacheStored(s)
    ensures t.cache.token != "" ==> CacheStored(t)
  {
    if s.cache.token != "" {
      var i :| 0 <= i < |s.log| && s.log[i].Stored? && s.log[i].token == s.cache.token
        && s.log[i].until == s.cache.expiresAt && s.log[i].at <= s.now;
      assert t.log[i] == s.log[i];
    }
  }

  lemma AnswerKeepsWindows(s: System, c: Caller, reply: Reply, issued: int)
    requires Windows(s) && Enabled(s, Answer(c, reply, issued))
    ensures Windows(Next(s, Answer(c, reply, issued)))
  {
    var t := Next(s, Answer(c, reply, issued));
    assert HoldsLock(PlaceOf(s, c));
    ServedStaysFresh(s.log, t.log[|s.log|..]);
    assert t.log == s.log + t.log[|s.log|..];
    KeepsStored(s, t);
  }

  lemma CheckKeepsWindows(s: System, c: Caller)
    requires Windows(s) && Enabled(s, Check(c))
    ensures Windows(Next(s, Check(c)))
  {
    var t := Next(s, Check(c));
    var more := t.log[|s.log|..];
    assert HoldsLock(PlaceOf(s, c)) && InFlight(PlaceOf(s, c));
    ServedStaysFresh(s.log, more);
    assert t.log == s.log + more;
    if s.now < PlaceOf(s, c).expiry {
      CheckStores(s, c, t);
    } else {
      KeepsStored(s, t);
    }
  }

  lemma CheckStores(s: System, c: Caller, t: System)
    requires Windows(s) && Enabled(s, Check(c)) && t == Next(s, Check(c)) && s.now < PlaceOf(s, c).expiry
    ensures WindowsDisjoint(t.log) && FetchesNeeded(t.log) && CacheConsistent(t)
  {
    assert HoldsLock(PlaceOf(s, c)) && InFlight(PlaceOf(s, c));
    var p := PlaceOf(s, c);
    StoringIsSafe(s, t, Stored(s.now, p.token, p.expiry, p.grant));
    assert forall d: Caller :: d != c ==> PlaceOf(t, d) == PlaceOf(s, d);
  }

  /** Storing a new token: the old window, if any, has passed. */
  lemma StoringIsSafe(s: System, t: System, stored: Event)
    requires CacheConsistent(s) && LogGood(s.log) && !Usable(s.cache, s.now)
    requires stored.Stored? && stored.at == s.now == t.now && stored.token != "" && s.now < stored.until
    requires t.log == s.log + [FetchEnded, stored] && t.cache == Cache(stored.token, stored.until)
    ensures WindowsDisjoint(t.log) && FetchesNeeded(t.log) && CacheStored(t)
    ensures forall i :: 0 <= i < |t.log| && t.log[i].Stored? ==>
      t.log[i].until <= t.cache.expiresAt && t.log[i].at <= t.now
  {
    assert t.log[|t.log| - 1] == stored;
    assert forall i :: 0 <= i < |s.log| ==> t.log[i] == s.log[i];
  }

  lemma StepKeepsWindows(s: System, step: Step)
    requires Windows(s) && Enabled(s, step)
    ensures Windows(Next(s, step))
  {
    match step
    case LookFirst(c) => LookKeepsWindows(s, c, step);
    case LookSecond(c) => LookKeepsWindows(s, c, step);
    case Answer(c, reply, issued) => AnswerKeepsWindows(s, c, reply, issued);
    case Check(c) => CheckKeepsWindows(s, c);
    case Tick(_) => KeepsStored(s, Next(s, step));
    case Call(c) => MoveKeepsWindows(s, c, step);
    case LockFirst(c) => MoveKeepsWindows(s, c, step);
    case LockSecond(c) => MoveKeepsWindows(s, c, step);
  }

  /** What a step adds to the log. */
  function Added(s: System, step: Step): seq<Event>
    requires Enabled(s, step)
  {
    Next(s, step).log[|s.log|..]
  }

  lemma StepExtends(s: System, step: Step)
    requires Enabled(s, step)
    ensures Next(s, step).log == s.log + Added(s, step)
    ensures forall e :: e in s.log ==> e in Next(s, step).log
    ensures forall e :: e in Next(s, step).log ==> e in s.log || e in Added(s, step)
    ensures Added(s, step) == [] || (|Added(s, step)| == 1 && !Added(s, step)[0].Stored?)
      || (step.Check? && |Added(s, step)| == 2 && Added(s, step)[0] == FetchEnded)
  {
  }

  lemma StepKeepsGrants(s: System, step: Step)
    requires GrantsHold(s) && Enabled(s, step)
    ensures GrantsHold(Next(s, step))
  {
    var t := Next(s, step);
    StepExtends(s, step);
    assert t.tokenSkew == s.tokenSkew && s.now <= t.now;
    forall grant | IsGrant(s.log, grant) ensures IsGrant(t.log, grant) {
    }
    forall e | e in t.log && e.Stored? ensures IsGrant(t.log, e.grant) && IsSkewed(e, t.tokenSkew) {
      if e !in s.log {
        assert e in Added(s, step) && step.Check?;
        StoredByCheck(s, step.c, e);
      }
    }
    forall c: Caller | PlaceOf(t, c) != PlaceOf(s, c) && InFlight(PlaceOf(t, c))
      ensures FlightHolds(t, PlaceOf(t, c))
    {
      StepIntoFlight(s, step, c);
    }
  }

  lemma StoredByCheck(s: System, c: Caller, e: Event)
    requires Enabled(s, Check(c)) && e in Added(s, Check(c)) && e.Stored?
    ensures var p := PlaceOf(s, c); e == Stored(s.now, p.token, p.expiry, p.grant)
  {
  }

  lemma StepIntoFlight(s: System, step: Step, c: Caller)
    requires GrantsHold(s) && Enabled(s, step)
    requires PlaceOf(Next(s, step), c) != PlaceOf(s, c) && InFlight(PlaceOf(Next(s, step), c))
    ensures FlightHolds(Next(s, step), PlaceOf(Next(s, step), c))
  {
    var t := Next(s, step);
    if step == LookSecond(c) {
      assert t.log[|t.log| - 1] == FetchStarted(s.now);
    } else {
      assert step.Answer? && step.c == c;
      assert t.log == s.log;
    }
  }

  lemma StepKeepsTold(s: System, step: Step)
    requires Windows(s) && ToldFromLog(s) && Enabled(s, step)
    ensures ToldFromLog(Next(s, step))
  {
    var t, more := Next(s, step), Added(s, step);
    StepExtends(s, step);
    CacheFromMore(s.log, more);
    forall token | WasStored(s.log, token) ensures WasStored(t.log, token) {
      var i :| 0 <= i < |s.log| && s.log[i].Stored? && s.log[i].token == token;
      assert t.log[i] == s.log[i];
    }
    forall c: Caller | PlaceOf(t, c).Returned? && PlaceOf(t, c).result.Token? && PlaceOf(t, c) != PlaceOf(s, c)
      ensures WasStored(t.log, PlaceOf(t, c).result.token)
    {
      StepKeepsWindows(s, step);
      ReturnedIsCached(s, step, c);
      assert CacheStored(t);
    }
  }

  lemma CacheFromMore(log: seq<Event>, more: seq<Event>)
    requires more == [] || (|more| == 1 && !more[0].Stored?) || (|more| == 2 && more[0] == FetchEnded)
    ensures CacheFrom(log + more) ==
            if |more| == 2 && more[1].Stored? then Cache(more[1].token, more[1].until) else CacheFrom(log)
  {
    if more == [] {
      assert log + more == log;
    } else {
      assert (log + more)[..|log + more| - 1] == log + more[..|more| - 1];
      if |more| == 2 {
        assert (log + [FetchEnded])[..|log|] == log && more[..1] == [FetchEnded];
      } else {
        assert more[..0] == [] && log + [] == log;
      }
    }
  }

  /** Whoever is told a token is told the one in the cache at that moment. */
  lemma ReturnedIsCached(s: System, step: Step, c: Caller)
    requires Windows(s) && Enabled(s, step)
    requires PlaceOf(Next(s, step), c).Returned? && PlaceOf(Next(s, step), c).result.Token?
    requires PlaceOf(Next(s, step), c) != PlaceOf(s, c)
    ensures var t := Next(s, step); PlaceOf(t, c).result.token == t.cache.token != ""
  {
  }

  lemma StepKeepsInv(s: System, step: Step)
    requires Inv(s) && Enabled(s, step)
    ensures Inv(Next(s, step))
  {
    StepKeepsWindows(s, step);
    StepKeepsGrants(s, step);
    StepKeepsTold(s, step);
  }

  /** A step outside, or into, the mutex changes neither cache nor log. */
  lemma MoveKeepsWindows(s: System, c: Caller, step: Step)
    requires Windows(s) && Enabled(s, step) && (step == Call(c) || step == LockFirst(c) || step == LockSecond(c))
    ensures Windows(Next(s, step))
  {
    KeepsStored(s, Next(s, step));
  }

  lemma {:induction false} RunKeepsInv(s: System, steps: seq<Step>)
    requires Inv(s) && IsRun(s, steps)
    ensures Inv(After(s, steps)) && After(s, steps).tokenSkew == s.tokenSkew
    decreases |steps|
  {
    if steps != [] {
      StepKeepsInv(s, steps[0]);
      RunKeepsInv(Next(s, steps[0]), steps[1..]);
    }
  }

  lemma InitiallyInv(tokenSkew: int, now: int)
    ensures Inv(Initial(tokenSkew, now))
  {
  }

  /** In every interleaving: at most one fetch is in flight; validity windows never overlap and no
      fetch starts inside one; the cache is what was stored last, so that a fetch that fails leaves it
      alone; whoever is told a token is told one that was stored; and a token served from the cache was
      stored before, had not expired, and has as much of the skew left to live as its answer did not
      take to arrive. */
  lemma EveryInterleaving(tokenSkew: int, now: int, steps: seq<Step>)
    requires IsRun(Initial(tokenSkew, now), steps)
    ensures var s := After(Initial(tokenSkew, now), steps);
            && (forall c: Caller, d: Caller :: InFlight(PlaceOf(s, c)) && InFlight(PlaceOf(s, d)) ==> c == d)
            && WindowsDisjoint(s.log) && FetchesNeeded(s.log) && ToldFromLog(s)
            && forall j :: 0 <= j < |s.log| && s.log[j].Served? ==>
                 exists i :: i < j && Covers(s.log, i, s.log[j].at, s.log[j].token) && IsGrant(s.log, s.log[i].grant)
                   && Dies(s.log[i].grant) - s.log[j].at > tokenSkew * SECOND - (s.log[i].grant.received - s.log[i].grant.issued)
  {
    InitiallyInv(tokenSkew, now);
    RunKeepsInv(Initial(tokenSkew, now), steps);
    var s := After(Initial(tokenSkew, now), steps);
    forall j | 0 <= j < |s.log| && s.log[j].Served?
      ensures exists i :: i < j && Covers(s.log, i, s.log[j].at, s.log[j].token) && IsGrant(s.log, s.log[i].grant)
                && Dies(s.log[i].grant) - s.log[j].at > tokenSkew * SECOND - (s.log[i].grant.received - s.log[i].grant.issued)
    {
      var i :| i < j && Covers(s.log, i, s.log[j].at, s.log[j].token);
      assert s.log[i] in s.log;
    }
  }

  /* ---- When a served token is alive ---- */

  /** The answer to every fetch whose token was stored took no longer than this. */
  ghost predicate FetchedWithin(log: seq<Event>, slowest: int) {
    forall i :: 0 <= i < |log| && log[i].Stored? ==> log[i].grant.received - log[i].grant.started <= slowest
  }

  /** Every served token is one that the endpoint still takes. */
  ghost predicate ServedAlive(log: seq<Event>) {
    forall j :: 0 <= j < |log| && log[j].Served? ==>
      exists i :: i < j && Covers(log, i, log[j].at, log[j].token) && log[j].at < Dies(log[i].grant)
  }

  ghost predicate AlwaysAlive(tokenSkew: int, now: int, slowest: int) {
    forall steps :: IsRun(Initial(tokenSkew, now), steps) && FetchedWithin(After(Initial(tokenSkew, now), steps).log, slowest)
      ==> ServedAlive(After(Initial(tokenSkew, now), steps).log)
  }

  /** Served tokens are alive in all runs exactly when no fetch takes longer than the skew. */
  lemma SkewIsEnoughExactly(tokenSkew: int, now: int, slowest: nat)
    ensures AlwaysAlive(tokenSkew, now, slowest) <==> slowest <= tokenSkew * 1_000_000_000
  {
    if slowest <= tokenSkew * SECOND {
      forall steps | IsRun(Initial(tokenSkew, now), steps) && FetchedWithin(After(Initial(tokenSkew, now), steps).log, slowest)
        ensures ServedAlive(After(Initial(tokenSkew, now), steps).log)
      {
        FastFetchesServeAlive(tokenSkew, now, slowest, steps);
      }
    } else {
      var steps := SlowFetchServesDead(tokenSkew, now, slowest, 0);
    }
  }

  lemma FastFetchesServeAlive(tokenSkew: int, now: int, slowest: nat, steps: seq<Step>)
    requires IsRun(Initial(tokenSkew, now), steps) && slowest <= tokenSkew * SECOND
    requires FetchedWithin(After(Initial(tokenSkew, now), steps).log, slowest)
    ensures ServedAlive(After(Initial(tokenSkew, now), steps).log)
  {
    EveryInterleaving(tokenSkew, now, steps);
    var log := After(Initial(tokenSkew, now), steps).log;
    forall j | 0 <= j < |log| && log[j].Served?
      ensures exists i :: i < j && Covers(log, i, log[j].at, log[j].token) && log[j].at < Dies(log[i].grant)
    {
      var i :| i < j && Covers(log, i, log[j].at, log[j].token) && IsGrant(log, log[i].grant)
        && Dies(log[i].grant) - log[j].at > tokenSkew * SECOND - (log[i].grant.received - log[i].grant.issued);
    }
  }

  /** One caller: a fetch whose token is issued at once and whose answer takes longer than the skew, and
      a call in the last moment of the window. */
  lemma SlowFetchServesDead(tokenSkew: int, now: int, slowest: nat, c: Caller) returns (steps: seq<Step>)
    requires slowest > tokenSkew * SECOND
    ensures IsRun(Initial(tokenSkew, now), steps)
    ensures FetchedWithin(After(Initial(tokenSkew, now), steps).log, slowest)
    ensures !ServedAlive(After(Initial(tokenSkew, now), steps).log)
  {
    var s := Initial(tokenSkew, now);
    var expiresIn := if tokenSkew < 0 then 1 else tokenSkew + 1;
    var reply := Reply("t", "bearer", expiresIn);
    AcceptableReply(reply);
    var first := ToSecond(s, c);
    var s1 := After(s, first);
    var middle := RefreshSteps(s1, c, slowest, reply, now, 0);
    UninterruptedRefresh(s1, c, slowest, reply, now, 0);
    var s2 := After(s1, middle);
    var until := Expiry(now + slowest, expiresIn, tokenSkew);
    var last := ServeAgain(s2, c, until - 1);
    RunOfConcat(s, first, middle);
    RunOfConcat(s, first + middle, last);
    steps := first + middle + last;
    var log := After(s, steps).log;
    assert log == [FetchStarted(now), FetchEnded, Stored(now + slowest, "t", until, Grant(now, now, now + slowest, expiresIn)), Served(until - 1, "t")];
    assert log[3].Served? && forall i :: i < 3 && Covers(log, i, log[3].at, log[3].token) ==> i == 2;
  }

  lemma AcceptableReply(reply: Reply)
    requires reply.Reply? && reply.tokenType == "bearer" && reply.accessToken == "t" && reply.expiresIn > 0
    ensures Acceptable(reply)
  {
  }

  /** A caller who finds nothing in the cache and comes to the second section. */
  lemma ToSecond(s: System, c: Caller) returns (steps: seq<Step>)
    requires PlaceOf(s, c).Outside? && s.owner == None && !Usable(s.cache, s.now)
    ensures IsRun(s, steps)
    ensures var t := After(s, steps); PlaceOf(t, c).InSecond? && t.(places := map[], owner := None) == s.(places := map[], owner := None)
  {
    var s1 := Next(s, Call(c));
    var s2 := Next(s1, LockFirst(c));
    var s3 := Next(s2, LookFirst(c));
    RunFront(s3, LockSecond(c), []);
    RunFront(s2, LookFirst(c), [LockSecond(c)] + []);
    RunFront(s1, LockFirst(c), [LookFirst(c)] + ([LockSecond(c)] + []));
    RunFront(s, Call(c), [LockFirst(c)] + ([LookFirst(c)] + ([LockSecond(c)] + [])));
    steps := [Call(c)] + ([LockFirst(c)] + ([LookFirst(c)] + ([LockSecond(c)] + [])));
  }

  /** A caller who comes back and is served at `at`. */
  lemma ServeAgain(s: System, c: Caller, at: int) returns (steps: seq<Step>)
    requires PlaceOf(s, c).Returned? && s.owner == None && s.now <= at && Usable(s.cache, at)
    ensures IsRun(s, steps)
    ensures After(s, steps).log == s.log + [Served(at, s.cache.token)]
  {
    var s1 := Next(s, Call(c));
    var s2 := Next(s1, LockFirst(c));
    var s3 := Next(s2, Tick(at - s.now));
    RunFront(s3, LookFirst(c), []);
    RunFront(s2, Tick(at - s.now), [LookFirst(c)] + []);
    RunFront(s1, LockFirst(c), [Tick(at - s.now)] + ([LookFirst(c)] + []));
    RunFront(s, Call(c), [LockFirst(c)] + ([Tick(at - s.now)] + ([LookFirst(c)] + [])));
    steps := [Call(c)] + ([LockFirst(c)] + ([Tick(at - s.now)] + ([LookFirst(c)] + [])));
  }

  lemma {:induction false} RunOfConcat(s: System, a: seq<Step>, b: seq<Step>)
    requires IsRun(s, a) && IsRun(After(s, a), b)
    ensures IsRun(s, a + b) && After(s, a + b) == After(After(s, a), b)
    decreases |a|
  {
    if a == [] {
      assert a + b == b;
    } else {
      RunOfConcat(Next(s, a[0]), a[1..], b);
      assert (a + b)[1..] == a[1..] + b;
    }
  }

  /* ---- A call that nobody interrupts ---- */

  /** The steps of the second section under the mutex when nobody interrupts it: look again, fetch,
      compute the expiry, compare it with the clock, store. */
  function RefreshSteps(s: System, c: Caller, waited: nat, reply: Reply, issued: int, paused: nat): seq<Step> {
    if Usable(s.cache, s.now) then [LookSecond(c)]
    else if !Acceptable(reply) then [LookSecond(c), Tick(waited), Answer(c, reply, issued)]
    else [LookSecond(c), Tick(waited), Answer(c, reply, issued), Tick(paused), Check(c)]
  }

  /** Whatever the cache holds and the endpoint replies, these steps are a run and end like the method. */
  lemma UninterruptedRefresh(s: System, c: Caller, waited: nat, reply: Reply, issued: int, paused: nat)
    requires PlaceOf(s, c).InSecond? && s.now <= issued <= s.now + waited
    ensures var steps := RefreshSteps(s, c, waited, reply, issued, paused);
            var received, checked := s.now + waited, s.now + waited + paused;
            && IsRun(s, steps)
            && var t := After(s, steps);
            && t.owner == None
            && (Usable(s.cache, s.now) ==> t.cache == s.cache && PlaceOf(t, c) == Returned(Token(s.cache.token)))
            && (!Usable(s.cache, s.now) ==>
                  if Acceptable(reply) && checked < Expiry(received, reply.expiresIn, s.tokenSkew)
                  then t.cache == Cache(reply.accessToken, Expiry(received, reply.expiresIn, s.tokenSkew))
                       && PlaceOf(t, c) == Returned(Token(reply.accessToken)) && t.now == checked
                       && t.log == s.log + [FetchStarted(s.now), FetchEnded,
                            Stored(checked, reply.accessToken, t.cache.expiresAt, Grant(s.now, issued, received, reply.expiresIn))]
                  else t.cache == s.cache && PlaceOf(t, c) == Returned(NoToken))
  {
    var steps := RefreshSteps(s, c, waited, reply, issued, paused);
    if Usable(s.cache, s.now) {
      RunFront(s, LookSecond(c), []);
      assert steps == [LookSecond(c)] + [];
    } else if Acceptable(reply) {
      AnsweredRefresh(s, c, waited, reply, issued, paused);
    } else {
      var s1 := Next(s, LookSecond(c));
      var s2 := Next(s1, Tick(waited));
      RunFront(s2, Answer(c, reply, issued), []);
      RunFront(s1, Tick(waited), [Answer(c, reply, issued)] + []);
      RunFront(s, LookSecond(c), [Tick(waited)] + ([Answer(c, reply, issued)] + []));
      assert steps == [LookSecond(c)] + ([Tick(waited)] + ([Answer(c, reply, issued)] + []));
    }
  }

  lemma AnsweredRefresh(s: System, c: Caller, waited: nat, reply: Reply, issued: int, paused: nat)
    requires PlaceOf(s, c).InSecond? && s.now <= issued <= s.now + waited && !Usable(s.cache, s.now) && Acceptable(reply)
    ensures var steps := RefreshSteps(s, c, waited, reply, issued, paused);
            var received, checked := s.now + waited, s.now + waited + paused;
            var expiry := Expiry(received, reply.expiresIn, s.tokenSkew);
            && IsRun(s, steps)
            && var t := After(s, steps);
            && t.owner == None && t.now == checked
            && if checked < expiry
               then t.cache == Cache(reply.accessToken, expiry) && PlaceOf(t, c) == Returned(Token(reply.accessToken))
                    && t.log == s.log + [FetchStarted(s.now), FetchEnded,
                         Stored(checked, reply.accessToken, expiry, Grant(s.now, issued, received, reply.expiresIn))]
               else t.cache == s.cache && PlaceOf(t, c) == Returned(NoToken)
  {
    var s1 := Next(s, LookSecond(c));
    var s2 := Next(s1, Tick(waited));
    var s3 := Next(s2, Answer(c, reply, issued));
    var s4 := Next(s3, Tick(paused));
    var s5 := Next(s4, Check(c));
    var check, rest := [Check(c)] + [], [Tick(paused)] + ([Check(c)] + []);
    RunFront(s4, Check(c), []);
    RunFront(s3, Tick(paused), check);
    RunFront(s2, Answer(c, reply, issued), rest);
    RunFront(s1, Tick(waited), [Answer(c, reply, issued)] + rest);
    RunFront(s, LookSecond(c), [Tick(waited)] + ([Answer(c, reply, issued)] + rest));
    assert RefreshSteps(s, c, waited, reply, issued, paused)
        == [LookSecond(c)] + ([Tick(waited)] + ([Answer(c, reply, issued)] + rest));
    assert After(s5, []) == s5;
  }

  lemma RunFront(s: System, step: Step, rest: seq<Step>)
    requires Enabled(s, step)
    ensures IsRun(s, [step] + rest) <==> IsRun(Next(s, step), rest)
    ensures IsRun(Next(s, step), rest) ==> After(s, [step] + rest) == After(Next(s, step), rest)
  {
    assert ([step] + rest)[1..] == rest;
  }
}
