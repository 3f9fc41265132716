/** The two retry loops of the request engine, over any script of transport outcomes, and how
    long they wait between attempts. */
module Retry {
  import opened Text

  /** One exchange. `readable` and `valid` are the verdicts on the body of a response:
      the first from reading it, the second from decoding it and checking its schema. */
  datatype Outcome = TransportError | Response(status: int, readable: bool, valid: bool)

  datatype Answer = Payload(attempt: nat) | Failed(attempt: nat) | NothingTried

  predicate IsRetriableStatus(status: int) {
    status in {429, 500, 502, 503, 504}
  }

  predicate IsRetriableMethod(method_: string) {
    method_ in {"GET", "HEAD", "OPTIONS", "DELETE", "PUT"}
  }

  predicate IsSuccess(status: int) {
    200 <= status <= 299
  }

  /** Handled with schema validation. */
  predicate Decoded(outcome: Outcome) {
    outcome.Response? && IsSuccess(outcome.status) && (outcome.status == 204 || outcome.readable) && outcome.valid
  }

  /** Handled as a raw body. */
  predicate ReadRaw(outcome: Outcome) {
    outcome.Response? && IsSuccess(outcome.status) && (outcome.status == 204 || outcome.readable)
  }

  /** A failure that another attempt may follow. */
  predicate Retriable(method_: string, outcome: Outcome) {
    IsRetriableMethod(method_) && (outcome.TransportError? || IsRetriableStatus(outcome.status))
  }

  type Script = nat -> Outcome

  /** How many attempts a request makes, counted from attempt `k`. */
  function AttemptsFrom(method_: string, maxRetries: int, script: Script, k: nat): (n: nat)
    decreases maxRetries - k
  {
    if k < maxRetries && Retriable(method_, script(k)) then 1 + AttemptsFrom(method_, maxRetries, script, k + 1)
    else 1
  }

  function Attempts(method_: string, maxRetries: int, script: Script): nat {
    if maxRetries < 0 then 0 else AttemptsFrom(method_, maxRetries, script, 0)
  }

  /* ---- Waiting ---- */

  /** `uint(1) << uint(attempt)` on 64 bits: the bit falls off at 64. */
  function Multiplier(attempt: nat): nat {
    if attempt < 64 then Pow2(attempt) else 0
  }

  function Pow2(n: nat): (p: nat)
    ensures p >= 1
  {
    if n == 0 then 1 else 2 * Pow2(n - 1)
  }

  /** The two backoff settings, in nanoseconds. */
  datatype Backoff = Backoff(base: real, maximum: real)

  predicate Sensible(b: Backoff) {
    b.base > 0.0 && b.maximum > 0.0
  }

  /** The delay before jitter, in nanoseconds. */
  function Plain(b: Backoff, attempt: nat): real {
    Capped(b.base * (Multiplier(attempt) as real), b.maximum)
  }

  function Capped(sleep: real, maximum: real): real {
    if sleep > maximum then maximum else sleep
  }

  /** The random factor is some number of this range. */
  ghost predicate IsJitter(jitter: nat -> real) {
    forall k: nat :: 0.75 <= jitter(k) < 1.25
  }

  function CalculateBackoff(b: Backoff, attempt: nat, jitter: nat -> real): int {
    Scaled(Plain(b, attempt), jitter(attempt))
  }

  /** `time.Duration` of a product: whole nanoseconds. */
  function Scaled(delay: real, factor: real): int {
    (delay * factor).Floor
  }

  /** All delays of a request that is retried `retries` times. */
  function Delays(b: Backoff, retries: nat, jitter: nat -> real): (delays: seq<int>) {
    seq(retries, k requires k >= 0 => CalculateBackoff(b, k, jitter))
  }

  /* ---- The loops ---- */

  class Client {
    const maxRetries: int
    const backoff: Backoff
    var sent: seq<(string, nat)>    // method and attempt number of every exchange
    var slept: seq<int>

    constructor (maxRetries: int, backoff: Backoff)
      ensures this.maxRetries == maxRetries && this.backoff == backoff && sent == [] && slept == []
    {
      this.maxRetries, this.backoff, sent, slept := maxRetries, backoff, [], [];
    }

    method Send(method_: string, attempt: nat, script: Script) returns (outcome: Outcome)
      modifies this`sent
      ensures sent == old(sent) + [(method_, attempt)] && outcome == script(attempt)
    {
      sent := sent + [(method_, attempt)];
      outcome := script(attempt);
    }

    method Sleep(attempt: nat, jitter: nat -> real)
      modifies this`slept
      ensures slept == old(slept) + [CalculateBackoff(backoff, attempt, jitter)]
    {
      slept := slept + [CalculateBackoff(backoff, attempt, jitter)];
    }

    method Request(method_: string, script: Script, jitter: nat -> real) returns (answer: Answer)
      modifies this
      ensures var n := Attempts(ToUpper(method_), maxRetries, script);
              && sent == old(sent) + Sent(ToUpper(method_), n)
              && slept == old(slept) + Delays(backoff, if n == 0 then 0 else n - 1, jitter)
              && answer == (if n == 0 then NothingTried else if Decoded(script(n - 1)) then Payload(n - 1) else Failed(n - 1))
      ensures answer.Payload? ==>
        match script(answer.attempt) {
          case TransportError => false
          case Response(status, readable, valid) => 200 <= status <= 299 && (status != 204 ==> readable) && valid
        }
      ensures answer.Failed? ==>
        match script(answer.attempt) {
          case TransportError => true
          case Response(status, readable, valid) => status < 200 || status > 299 || !valid || (status != 204 && !readable)
        }
    {
      var normalizedMethod := ToUpper(method_);
      var attempt := 0;
      while attempt <= maxRetries
        invariant attempt == 0 || attempt <= maxRetries
        invariant maxRetries >= 0 ==>
          Attempts(normalizedMethod, maxRetries, script) == attempt + AttemptsFrom(normalizedMethod, maxRetries, script, attempt)
        invariant sent == old(sent) + Sent(normalizedMethod, attempt)
        invariant slept == old(slept) + Delays(backoff, attempt, jitter)
        decreases maxRetries - attempt
      {
        SentStep(old(sent), normalizedMethod, attempt);
        DelaysStep(old(slept), backoff, attempt, jitter);
        var outcome := Send(normalizedMethod, attempt, script);
        if outcome.TransportError? {
          if attempt < maxRetries && IsRetriableMethod(normalizedMethod) {
            Sleep(attempt, jitter);
            attempt := attempt + 1;
            continue;
          }
          return Failed(attempt);
        }
        if Decoded(outcome) {
          return Payload(attempt);
        }
        if attempt < maxRetries && IsRetriableStatus(outcome.status) && IsRetriableMethod(normalizedMethod) {
          Sleep(attempt, jitter);
          attempt := attempt + 1;
          continue;
        }
        return Failed(attempt);
      }
      return NothingTried;
    }

    method RequestRawBody(method_: string, script: Script, jitter: nat -> real) returns (answer: Answer)
      modifies this
      ensures var n := Attempts(ToUpper(method_), maxRetries, script);
              && sent == old(sent) + Sent(ToUpper(method_), n)
              && slept == old(slept) + Delays(backoff, if n == 0 then 0 else n - 1, jitter)
              && answer == (if n == 0 then NothingTried else if ReadRaw(script(n - 1)) then Payload(n - 1) else Failed(n - 1))
      ensures answer.Payload? ==>
        match script(answer.attempt) {
          case TransportError => false
          case Response(status, readable, _) => 200 <= status <= 299 && (status != 204 ==> readable)
        }
      ensures answer.Failed? ==>
        match script(answer.attempt) {
          case TransportError => true
          case Response(status, readable, _) => status < 200 || status > 299 || (status != 204 && !readable)
        }
    {
      var normalizedMethod := ToUpper(method_);
      var attempt := 0;
      while attempt <= maxRetries
        invariant attempt == 0 || attempt <= maxRetries
        invariant maxRetries >= 0 ==>
          Attempts(normalizedMethod, maxRetries, script) == attempt + AttemptsFrom(normalizedMethod, maxRetries, script, attempt)
        invariant sent == old(sent) + Sent(normalizedMethod, attempt)
        invariant slept == old(slept) + Delays(backoff, attempt, jitter)
        decreases maxRetries - attempt
      {
        SentStep(old(sent), normalizedMethod, attempt);
        DelaysStep(old(slept), backoff, attempt, jitter);
        var outcome := Send(normalizedMethod, attempt, script);
        if outcome.TransportError? {
          if attempt < maxRetries && IsRetriableMethod(normalizedMethod) {
            Sleep(attempt, jitter);
            attempt := attempt + 1;
            continue;
          }
          return Failed(attempt);
        }
        if ReadRaw(outcome) {
          return Payload(attempt);
        }
        if attempt < maxRetries && IsRetriableStatus(outcome.status) && IsRetriableMethod(normalizedMethod) {
          Sleep(attempt, jitter);
          attempt := attempt + 1;
          continue;
        }
        return Failed(attempt);
      }
      return NothingTried;
    }
  }

  /** The exchanges of a request with `n` attempts. */
  function Sent(method_: string, n: nat): (exchanges: seq<(string, nat)>) {
    seq(n, k requires k >= 0 => (method_, k))
  }

  lemma SentStep(before: seq<(string, nat)>, method_: string, n: nat)
    ensures before + Sent(method_, n) + [(method_, n)] == before + Sent(method_, n + 1)
  {
  }

  lemma DelaysStep(before: seq<int>, b: Backoff, n: nat, jitter: nat -> real)
    ensures before + Delays(b, n, jitter) + [CalculateBackoff(b, n, jitter)] == before + Delays(b, n + 1, jitter)
  {
  }

  /* ---- What the attempts are ---- */

  lemma {:induction false} AttemptsFromAre(method_: string, maxRetries: int, script: Script, k: nat)
    requires k <= maxRetries
    ensures var n := AttemptsFrom(method_, maxRetries, script, k);
            && 1 <= n <= maxRetries - k + 1
            && (forall i :: k <= i < k + n - 1 ==> Retriable(method_, script(i)))
            && (k + n - 1 < maxRetries ==> !Retriable(method_, script(k + n - 1)))
    decreases maxRetries - k
  {
    if k < maxRetries && Retriable(method_, script(k)) {
      AttemptsFromAre(method_, maxRetries, script, k + 1);
    }
  }

  /** The methods that section 9.2.2 of RFC 9110 calls idempotent. */
  const IDEMPOTENT: set<string> := {"GET", "HEAD", "OPTIONS", "TRACE", "PUT", "DELETE"}

  /** A failure that may pass, of a request that may be sent again. */
  ghost predicate MayPass(method_: string, outcome: Outcome) {
    && (method_ == "GET" || method_ == "HEAD" || method_ == "OPTIONS" || method_ == "DELETE" || method_ == "PUT")
    && match outcome
       case TransportError => true
       case Response(status, _, _) => status == 429 || status == 500 || status == 502 || status == 503 || status == 504
  }

  /** One attempt plus the leading failures that may pass, never more than the limit allows; the last
      one is the first success if there is one; only idempotent methods are repeated; and nothing
      is tried only when the limit is negative. */
  lemma AttemptsAre(method_: string, maxRetries: int, script: Script)
    ensures var n := Attempts(method_, maxRetries, script);
            && (n == 0 <==> maxRetries < 0)
            && (maxRetries >= 0 ==>
                  && n <= maxRetries + 1
                  && (forall i :: 0 <= i < n - 1 ==> MayPass(method_, script(i)))
                  && (n <= maxRetries ==> !MayPass(method_, script(n - 1)))
                  && (forall i :: 0 <= i < n - 1 ==> script(i).TransportError? || !(200 <= script(i).status <= 299))
                  && (n > 1 ==> method_ in IDEMPOTENT))
  {
    if maxRetries >= 0 {
      AttemptsFromAre(method_, maxRetries, script, 0);
      var n := Attempts(method_, maxRetries, script);
      if n > 1 {
        assert Retriable(method_, script(0));
      }
    }
  }

  /** The number of attempts depends on the statuses alone: the two loops agree even where one
      rejects a body that the other accepts. */
  lemma {:induction false} SameAttempts(method_: string, maxRetries: int, a: Script, b: Script, k: nat)
    requires forall i :: a(i).Response? == b(i).Response? && (a(i).Response? ==> a(i).status == b(i).status)
    ensures AttemptsFrom(method_, maxRetries, a, k) == AttemptsFrom(method_, maxRetries, b, k)
    decreases maxRetries - k
  {
    if k < maxRetries && Retriable(method_, a(k)) {
      SameAttempts(method_, maxRetries, a, b, k + 1);
    }
  }

  /* ---- How long the waiting lasts ---- */

  function SumOf(delays: seq<int>): int {
    if delays == [] then 0 else SumOf(delays[..|delays| - 1]) + delays[|delays| - 1]
  }

  lemma {:induction false} Pow2Monotone(a: nat, b: nat)
    requires a <= b
    ensures Pow2(a) <= Pow2(b)
  {
    if a < b {
      Pow2Monotone(a, b - 1);
    }
  }

  lemma TimesMonotone(x: real, a: real, b: real)
    requires x >= 0.0 && a <= b
    ensures x * a <= x * b
  {
  }

  /** Below 64 attempts the delay before jitter never decreases and is at least the smaller of
      base and maximum; at 64 the shift has no bit left and there is no delay at all. */
  lemma PlainDelays(b: Backoff, a: nat, later: nat)
    requires Sensible(b) && a <= later
    ensures later < 64 ==> Plain(b, a) <= Plain(b, later)
    ensures a < 64 ==> Plain(b, a) >= Plain(b, 0) == Capped(b.base, b.maximum) > 0.0
    ensures a >= 64 ==> Plain(b, a) == 0.0
  {
    if later < 64 {
      PlainGrows(b, a, later);
    }
    if a < 64 {
      PlainStart(b);
      PlainGrows(b, 0, a);
    } else {
      CappedMonotone(b.base, 0.0, 0.0, b.maximum);
    }
  }

  /** From attempt to attempt the delay before jitter doubles, up to the maximum. */
  lemma PlainDoubles(b: Backoff, attempt: nat)
    requires Sensible(b)
    ensures Plain(b, 0) == if b.base > b.maximum then b.maximum else b.base
    ensures attempt < 63 ==>
      Plain(b, attempt + 1) == if 2.0 * Plain(b, attempt) > b.maximum then b.maximum else 2.0 * Plain(b, attempt)
  {
    PlainStart(b);
    if attempt < 63 {
      var power := Pow2(attempt) as real;
      assert Pow2(attempt + 1) as real == 2.0 * power;
      assert b.base * (2.0 * power) == 2.0 * (b.base * power);
    }
  }

  /** What is slept is the delay times the random factor in whole nanoseconds: at least three quarters of it,
      rounded down, and below five quarters. */
  lemma SleptIs(b: Backoff, k: nat, jitter: nat -> real)
    requires Sensible(b) && IsJitter(jitter)
    ensures var slept := CalculateBackoff(b, k, jitter) as real;
            && slept <= Plain(b, k) * jitter(k) < slept + 1.0
            && 0.75 * Plain(b, k) - 1.0 < slept <= 1.25 * Plain(b, k)
  {
    PlainLimits(b, k);
    ScaledIs(Plain(b, k), jitter(k));
  }

  lemma ScaledIs(plain: real, factor: real)
    requires plain >= 0.0 && 0.75 <= factor < 1.25
    ensures Scaled(plain, factor) as real <= plain * factor < Scaled(plain, factor) as real + 1.0
    ensures 0.75 * plain <= plain * factor <= 1.25 * plain
  {
    TimesMonotone(plain, 0.75, factor);
    TimesMonotone(plain, factor, 1.25);
  }

  lemma PlainGrows(b: Backoff, a: nat, later: nat)
    requires Sensible(b) && a <= later < 64
    ensures Plain(b, a) <= Plain(b, later)
  {
    Pow2Monotone(a, later);
    CappedMonotone(b.base, Pow2(a) as real, Pow2(later) as real, b.maximum);
  }

  lemma PlainStart(b: Backoff)
    requires Sensible(b)
    ensures Plain(b, 0) == Capped(b.base, b.maximum) > 0.0
  {
    CappedMonotone(b.base, 1.0, 1.0, b.maximum);
  }

  lemma CappedMonotone(unit: real, a: real, b: real, maximum: real)
    requires unit > 0.0 && maximum > 0.0 && a <= b
    ensures Capped(unit * a, maximum) <= Capped(unit * b, maximum)
    ensures a == 1.0 ==> Capped(unit * a, maximum) == Capped(unit, maximum) > 0.0
    ensures a == 0.0 ==> Capped(unit * a, maximum) == 0.0
  {
    TimesMonotone(unit, a, b);
  }

  lemma Jittered(plain: real, factor: real)
    requires plain >= 0.0 && 0.75 <= factor < 1.25
    ensures 0 <= Scaled(plain, factor) && Scaled(plain, factor) as real <= 1.25 * plain
    ensures plain > 0.0 ==> Scaled(plain, factor) as real < 1.25 * plain
  {
    TimesMonotone(plain, 0.0, factor);
    TimesMonotone(plain, factor, 1.25);
    if plain > 0.0 {
      StrictTimes(plain, factor, 1.25);
    }
  }

  lemma StrictTimes(x: real, a: real, b: real)
    requires x > 0.0 && a < b
    ensures x * a < x * b
  {
  }

  lemma CappedLimits(unit: real, a: real, b: real, maximum: real)
    requires unit > 0.0 && maximum > 0.0 && 0.0 <= a <= b
    ensures 0.0 <= Capped(unit * a, maximum) <= maximum
    ensures Capped(unit * a, maximum) <= unit * b
  {
    TimesMonotone(unit, 0.0, a);
    TimesMonotone(unit, a, b);
  }

  /** The undoubled delay before attempt `k + 1`, if nothing capped it. */
  function Doubling(b: Backoff, k: nat): real {
    b.base * (Pow2(k) as real)
  }

  lemma DelayLimits(b: Backoff, k: nat, jitter: nat -> real)
    requires Sensible(b) && IsJitter(jitter)
    ensures var delay := CalculateBackoff(b, k, jitter) as real;
            && delay <= 1.25 * Doubling(b, k) && delay <= 1.25 * b.maximum
            && (k == 0 ==> delay < 1.25 * Doubling(b, k) && delay < 1.25 * b.maximum)
  {
    PlainLimits(b, k);
    JitteredWithin(Plain(b, k), jitter(k), Doubling(b, k), b.maximum);
  }

  lemma PlainLimits(b: Backoff, k: nat)
    requires Sensible(b)
    ensures 0.0 <= Plain(b, k) <= b.maximum && Plain(b, k) <= Doubling(b, k)
    ensures k == 0 ==> Plain(b, k) > 0.0
  {
    CappedLimits(b.base, Multiplier(k) as real, Pow2(k) as real, b.maximum);
    if k == 0 {
      PlainStart(b);
    }
  }

  lemma JitteredWithin(plain: real, factor: real, doubling: real, maximum: real)
    requires 0.0 <= plain <= maximum && plain <= doubling && 0.75 <= factor < 1.25
    ensures var delay := Scaled(plain, factor) as real;
            && delay <= 1.25 * doubling && delay <= 1.25 * maximum
            && (plain > 0.0 ==> delay < 1.25 * doubling && delay < 1.25 * maximum)
  {
    Jittered(plain, factor);
  }

  /** The sum of the first `n` doublings. */
  function Doublings(b: Backoff, n: nat): real {
    if n == 0 then 0.0 else Doublings(b, n - 1) + Doubling(b, n - 1)
  }

  lemma {:induction false} DoublingsAre(b: Backoff, n: nat)
    ensures Doublings(b, n) == b.base * (Pow2(n) as real - 1.0)
  {
    if n == 0 {
      assert b.base * (1.0 - 1.0) == 0.0;
    } else {
      var power := Pow2(n - 1) as real;
      DoublingsAre(b, n - 1);
      NextPower(b.base, power);
      assert Pow2(n) as real == 2.0 * power;
    }
  }

  lemma NextPower(base: real, power: real)
    ensures base * (power - 1.0) + base * power == base * (2.0 * power - 1.0)
  {
  }

  function Maxima(b: Backoff, n: nat): real {
    if n == 0 then 0.0 else Maxima(b, n - 1) + b.maximum
  }

  lemma {:induction false} MaximaAre(b: Backoff, n: nat)
    ensures Maxima(b, n) == b.maximum * (n as real)
  {
    if n > 0 {
      MaximaAre(b, n - 1);
    }
  }

  lemma {:induction false} WaitingWithin(b: Backoff, retries: nat, jitter: nat -> real)
    requires Sensible(b) && IsJitter(jitter)
    ensures var total := SumOf(Delays(b, retries, jitter)) as real;
            && total <= 1.25 * Doublings(b, retries) && total <= 1.25 * Maxima(b, retries)
            && (retries > 0 ==> total < 1.25 * Doublings(b, retries) && total < 1.25 * Maxima(b, retries))
  {
    if retries > 0 {
      var last := retries - 1;
      WaitingWithin(b, last, jitter);
      assert Delays(b, retries, jitter)[..last] == Delays(b, last, jitter);
      DelayLimits(b, last, jitter);
    }
  }

  /** Over any number of retries the waiting stays below 1.25 times both limits: the geometric sum
      of the base delay, and the maximum once for every retry. */
  lemma TotalWaiting(b: Backoff, retries: nat, jitter: nat -> real)
    requires Sensible(b) && IsJitter(jitter) && retries > 0
    ensures SumOf(Delays(b, retries, jitter)) as real < 1.25 * (b.base * (Pow2(retries) as real - 1.0))
    ensures SumOf(Delays(b, retries, jitter)) as real < 1.25 * (b.maximum * (retries as real))
  {
    WaitingWithin(b, retries, jitter);
    DoublingsAre(b, retries);
    MaximaAre(b, retries);
  }
}
