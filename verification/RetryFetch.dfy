/**
  The retry loop around `fetch`: bounded retries of idempotent calls with exponential backoff,
  shown to deliver the first outcome that is not transient.
 */
module RetryFetch {
  import opened Wrappers

  const DEFAULT_RETRY_METHODS: seq<string> := ["GET", "HEAD"]
  const DEFAULT_RETRY_STATUS_CODES: seq<int> := [502, 503, 504]
  const DEFAULT_MAX_RETRIES: int := 2
  const DEFAULT_BASE_DELAY_MS: real := 100.0
  const DEFAULT_BACKOFF_CAP_MS: real := 8000.0

  /** The optional settings of the caller; those left out take their defaults. */
  datatype RetryOptions = RetryOptions(
    retryMethods: Option<seq<string>>,
    retryStatusCodes: Option<seq<int>>,
    maxRetries: Option<int>,
    baseDelayMs: Option<real>,
    backoffCapMs: Option<real>)

  datatype Policy = Policy(retryMethods: seq<string>, retryStatusCodes: seq<int>, maxRetries: nat, baseDelayMs: real, backoffCapMs: real)

  datatype Wrapped = Wrapped(policy: Policy) | RangeError(setting: string)

  function UnwrapOr<T>(o: Option<T>, fallback: T): T {
    if o.Some? then o.value else fallback
  }

  /** What JavaScript's `Number(...)` makes of a trimmed, non-empty header. */
  datatype JsNumber = NaN | NegativeInfinity | PositiveInfinity | Finite(value: real)

  datatype RetryAfter = Absent | Blank | Text(number: JsNumber)

  datatype Outcome = Response(status: int, retryAfter: RetryAfter) | Thrown(isTypeError: bool)

  function Upper(s: string): (r: string)
    ensures |r| == |s|
  {
    seq(|s|, i requires 0 <= i < |s| => if 'a' <= s[i] <= 'z' then (s[i] as int - 32) as char else s[i])
  }

  /** Equal but for the case of ASCII letters. */
  predicate SameWord(a: string, b: string) {
    |a| == |b| && forall i :: 0 <= i < |a| ==>
      || a[i] == b[i]
      || ('a' <= a[i] <= 'z' && a[i] as int == b[i] as int + 32) || ('a' <= b[i] <= 'z' && b[i] as int == a[i] as int + 32)
  }

  lemma UpperMeans(a: string, b: string)
    ensures Upper(a) == Upper(b) <==> SameWord(a, b)
  {
    if Upper(a) == Upper(b) {
      forall i | 0 <= i < |a|
        ensures || a[i] == b[i] || ('a' <= a[i] <= 'z' && a[i] as int == b[i] as int + 32)
                || ('a' <= b[i] <= 'z' && b[i] as int == a[i] as int + 32)
      {
        assert Upper(a)[i] == Upper(b)[i];
      }
    }
  }

  predicate IsMethodRetryable(httpMethod: string, allow: seq<string>) {
    exists i :: 0 <= i < |allow| && Upper(allow[i]) == Upper(httpMethod)
  }

  /** Milliseconds, or None for a header that is absent, not a number, infinite or negative. */
  function ParseRetryAfter(header: RetryAfter): (ms: Option<real>)
    ensures ms.Some? <==> header.Text? && header.number.Finite? && header.number.value >= 0.0
    ensures ms.Some? ==> ms.value == 1000.0 * header.number.value >= 0.0
  {
    if header.Text? && header.number.Finite? && header.number.value >= 0.0 then Some(header.number.value * 1000.0) else None
  }

  function Pow2(n: nat): nat {
    if n == 0 then 1 else 2 * Pow2(n - 1)
  }

  function Exponential(attempt: nat, baseMs: real): real {
    baseMs * Pow2(attempt) as real
  }

  function Jitter(random: real, baseMs: real): real {
    random * baseMs
  }

  /** `random` is what Math.random() answers. */
  function ComputeBackoffMs(attempt: nat, baseMs: real, capMs: real, random: real): real {
    var exponential := Exponential(attempt, baseMs);
    var jitter := Jitter(random, baseMs);
    if capMs < exponential + jitter then capMs else exponential + jitter
  }

  /** The backoff starts at the base delay and doubles with each attempt; jitter adds less than the base delay; the cap bounds both. */
  lemma BackoffMeans(attempt: nat, baseMs: real, capMs: real, random: real)
    requires baseMs >= 0.0 && 0.0 <= random < 1.0
    ensures Exponential(0, baseMs) == baseMs && Exponential(attempt + 1, baseMs) == 2.0 * Exponential(attempt, baseMs)
    ensures var backoff, full := ComputeBackoffMs(attempt, baseMs, capMs, random), Exponential(attempt, baseMs);
            && backoff <= capMs && backoff <= full + baseMs
            && (backoff < capMs ==> full <= backoff == full + random * baseMs && (baseMs > 0.0 ==> backoff < full + baseMs))
            && (capMs <= full ==> backoff == capMs)
            && backoff <= ComputeBackoffMs(attempt + 1, baseMs, capMs, random)
  {
    hide Exponential, Jitter;
    Doubles(attempt, baseMs);
    JitterMeans(random, baseMs);
  }

  lemma JitterMeans(random: real, baseMs: real)
    requires 0.0 <= random < 1.0 && baseMs >= 0.0
    ensures Jitter(random, baseMs) == random * baseMs
    ensures 0.0 <= Jitter(random, baseMs) <= baseMs && (baseMs > 0.0 ==> Jitter(random, baseMs) < baseMs)
  {
    ProductSign(random, baseMs);
    ProductSign(1.0 - random, baseMs);
    assert (1.0 - random) * baseMs == baseMs - random * baseMs;
  }

  lemma ProductSign(x: real, y: real)
    requires x >= 0.0 && y >= 0.0
    ensures x * y >= 0.0 && (x > 0.0 && y > 0.0 ==> x * y > 0.0)
  {
  }

  lemma Doubles(attempt: nat, baseMs: real)
    requires baseMs >= 0.0
    ensures Exponential(0, baseMs) == baseMs && Exponential(attempt, baseMs) >= 0.0
    ensures Exponential(attempt + 1, baseMs) == 2.0 * Exponential(attempt, baseMs)
  {
    var power := Pow2(attempt) as real;
    assert Pow2(attempt + 1) as real == 2.0 * power;
  }

  // ----- The specification -----

  predicate Transient(policy: Policy, o: Outcome) {
    match o
    case Response(status, _) => status in policy.retryStatusCodes
    case Thrown(isTypeError) => isTypeError
  }

  function Retries(policy: Policy, httpMethod: string): nat {
    if IsMethodRetryable(httpMethod, policy.retryMethods) then policy.maxRetries else 0
  }

  /** The first outcome from `attempt` on that is not transient, or the last one the retries allow. */
  function Settles(policy: Policy, stream: nat -> Outcome, retries: nat, attempt: nat): (k: nat)
    requires attempt <= retries
    ensures attempt <= k <= retries
    ensures k == retries || !Transient(policy, stream(k))
    ensures forall i :: attempt <= i < k ==> Transient(policy, stream(i))
    decreases retries - attempt
  {
    if attempt == retries || !Transient(policy, stream(attempt)) then attempt else Settles(policy, stream, retries, attempt + 1)
  }

  /** The failures worth another attempt: a listed status code, or a thrown TypeError. */
  predicate MayPass(policy: Policy, o: Outcome) {
    (o.Response? && o.status in policy.retryStatusCodes) || (o.Thrown? && o.isTypeError)
  }

  /** Attempt k is the first that may not pass, or the last of those allowed: none but the first for a method that is not listed. */
  predicate Settled(policy: Policy, httpMethod: string, stream: nat -> Outcome, k: nat) {
    && (forall i :: 0 <= i < k ==> MayPass(policy, stream(i)))
    && var allowed := if exists i :: 0 <= i < |policy.retryMethods| && SameWord(policy.retryMethods[i], httpMethod)
                      then policy.maxRetries else 0;
       k <= allowed && (k < allowed ==> !MayPass(policy, stream(k)))
  }

  lemma SettlesMeans(policy: Policy, httpMethod: string, stream: nat -> Outcome)
    ensures Settled(policy, httpMethod, stream, Settles(policy, stream, Retries(policy, httpMethod), 0))
  {
    hide Upper;
    forall i | 0 <= i < |policy.retryMethods| {
      UpperMeans(policy.retryMethods[i], httpMethod);
    }
  }

  /** A response whose Retry-After header is a finite number that is not negative. */
  predicate NamesTime(o: Outcome) {
    o.Response? && o.retryAfter.Text? && o.retryAfter.number.Finite? && o.retryAfter.number.value >= 0.0
  }

  lemma UnpromptedMeans(stream: nat -> Outcome, k: nat)
    ensures Unprompted(stream, k) <==> forall i :: 0 <= i < k ==> !NamesTime(stream(i))
  {
  }

  /** As long as Retry-After says if it names a time, else the backoff. */
  predicate Waits(policy: Policy, o: Outcome, attempt: nat, random: real, pause: real) {
    if NamesTime(o) then pause == 1000.0 * o.retryAfter.number.value
    else pause == ComputeBackoffMs(attempt, policy.baseDelayMs, policy.backoffCapMs, random)
  }

  lemma PauseMeans(policy: Policy, o: Outcome, attempt: nat, random: real)
    ensures Waits(policy, o, attempt, random, Pause(policy, o, attempt, random))
  {
    hide ComputeBackoffMs;
  }

  /** How long the call waits after a transient outcome. */
  function Pause(policy: Policy, o: Outcome, attempt: nat, random: real): real {
    var backoff := ComputeBackoffMs(attempt, policy.baseDelayMs, policy.backoffCapMs, random);
    match o
    case Response(_, header) => UnwrapOr(ParseRetryAfter(header), backoff)
    case Thrown(_) => backoff
  }

  function Sum(xs: seq<real>): real {
    if xs == [] then 0.0 else Sum(xs[..|xs| - 1]) + xs[|xs| - 1]
  }

  /** No outcome among the first k names a usable Retry-After. */
  predicate Unprompted(stream: nat -> Outcome, k: nat) {
    forall i :: 0 <= i < k ==> stream(i).Response? ==> ParseRetryAfter(stream(i).retryAfter).None?
  }

  ghost predicate Randoms(random: nat -> real) {
    forall i :: 0.0 <= random(i) < 1.0
  }

  /** Capped per pause, and at most base * (2^k - 1) of backoff plus k jitters of at most base. */
  ghost predicate Within(total: real, k: nat, baseMs: real, capMs: real) {
    total <= k as real * capMs && total <= baseMs * (Pow2(k) - 1 + k) as real
  }

  lemma Distribute(x: real, a: real, b: real)
    ensures x * (a + b + 1.0) == x * a + x * b + x
  {
  }

  /** One more pause of at most base * 2^k + base keeps the total within base * (2^(k+1) - 1 + k + 1). */
  lemma PauseFits(baseMs: real, capMs: real, random: real, k: nat, total: real)
    requires 0.0 <= random < 1.0 && baseMs >= 0.0
    requires Within(total, k, baseMs, capMs)
    ensures Within(total + ComputeBackoffMs(k, baseMs, capMs, random), k + 1, baseMs, capMs)
  {
    var pause := ComputeBackoffMs(k, baseMs, capMs, random);
    var power := Pow2(k) as real;
    var before := (Pow2(k) - 1 + k) as real;
    JitterMeans(random, baseMs);
    var exponential, jitter := Exponential(k, baseMs), Jitter(random, baseMs);
    assert jitter <= baseMs && exponential == baseMs * power;
    assert pause == if capMs < exponential + jitter then capMs else exponential + jitter;
    assert pause <= baseMs * power + baseMs;
    assert (Pow2(k + 1) - 1 + (k + 1)) as real == before + power + 1.0;
    Distribute(baseMs, before, power);
    Distribute(capMs, k as real, 0.0);
  }

  /** `withRetry`: defaults filled in, negative retries or delays refused. */
  method WithRetry(options: RetryOptions) returns (wrapped: Wrapped)
    ensures wrapped.RangeError? <==>
              (options.maxRetries.Some? && options.maxRetries.value < 0) || (options.baseDelayMs.Some? && options.baseDelayMs.value < 0.0)
    ensures wrapped.RangeError? ==>
              wrapped.setting == if options.maxRetries.Some? && options.maxRetries.value < 0 then "maxRetries" else "baseDelayMs"
    ensures wrapped.Wrapped? ==>
              && wrapped.policy.retryMethods == (if options.retryMethods.Some? then options.retryMethods.value else ["GET", "HEAD"])
              && wrapped.policy.retryStatusCodes == (if options.retryStatusCodes.Some? then options.retryStatusCodes.value else [502, 503, 504])
              && wrapped.policy.maxRetries == (if options.maxRetries.Some? then options.maxRetries.value else 2)
              && wrapped.policy.baseDelayMs == (if options.baseDelayMs.Some? then options.baseDelayMs.value else 100.0)
              && wrapped.policy.backoffCapMs == (if options.backoffCapMs.Some? then options.backoffCapMs.value else 8000.0)
  {
    var maxRetries := UnwrapOr(options.maxRetries, DEFAULT_MAX_RETRIES);
    var baseDelayMs := UnwrapOr(options.baseDelayMs, DEFAULT_BASE_DELAY_MS);
    if maxRetries < 0 {
      return RangeError("maxRetries");
    }
    if baseDelayMs < 0.0 {
      return RangeError("baseDelayMs");
    }
    return Wrapped(Policy(UnwrapOr(options.retryMethods, DEFAULT_RETRY_METHODS),
                          UnwrapOr(options.retryStatusCodes, DEFAULT_RETRY_STATUS_CODES),
                          maxRetries, baseDelayMs, UnwrapOr(options.backoffCapMs, DEFAULT_BACKOFF_CAP_MS)));
  }

  /**
    One call through the wrapper. Attempt i meets outcome stream(i); a thrown result is thrown on.
    `calls` counts the calls to fetch and `sleeps` lists the pauses between them.
   */
  method FetchWithRetry(policy: Policy, httpMethod: string, stream: nat -> Outcome, random: nat -> real)
    returns (result: Outcome, calls: nat, sleeps: seq<real>)
    requires policy.baseDelayMs >= 0.0 && Randoms(random)
    ensures var k := Settles(policy, stream, Retries(policy, httpMethod), 0);
            && result == stream(k) && calls == k + 1 && |sleeps| == k
            && (forall i :: 0 <= i < k ==> sleeps[i] == Pause(policy, stream(i), i, random(i)))
            && (Unprompted(stream, k) ==> Within(Sum(sleeps), k, policy.baseDelayMs, policy.backoffCapMs))
    ensures calls > 0 && result == stream(calls - 1) && Settled(policy, httpMethod, stream, calls - 1)
    ensures |sleeps| == calls - 1 && forall i :: 0 <= i < |sleeps| ==> Waits(policy, stream(i), i, random(i), sleeps[i])
    ensures (forall i :: 0 <= i < |sleeps| ==> !NamesTime(stream(i))) ==>
              Within(Sum(sleeps), |sleeps|, policy.baseDelayMs, policy.backoffCapMs)
  {
    hide Upper, ComputeBackoffMs, ParseRetryAfter, Within, Sum, IsMethodRetryable, Unprompted, Pow2, Settled, Waits, Settles, NamesTime;
    SettlesMeans(policy, httpMethod, stream);
    UnpromptedMeans(stream, Settles(policy, stream, Retries(policy, httpMethod), 0));
    var eligible := IsMethodRetryable(Upper(httpMethod), policy.retryMethods);
    UpperTwice(httpMethod, policy.retryMethods);
    ghost var k := Settles(policy, stream, Retries(policy, httpMethod), 0);
    var attempt := 0;
    calls, sleeps := 0, [];
    NoPauses(policy);
    while true
      invariant attempt == calls == |sleeps| <= Retries(policy, httpMethod)
      invariant Settles(policy, stream, Retries(policy, httpMethod), attempt) == k
      invariant forall i :: 0 <= i < attempt ==> sleeps[i] == Pause(policy, stream(i), i, random(i))
      invariant forall i :: 0 <= i < attempt ==> Waits(policy, stream(i), i, random(i), sleeps[i])
      invariant Unprompted(stream, attempt) ==> Within(Sum(sleeps), attempt, policy.baseDelayMs, policy.backoffCapMs)
      decreases Retries(policy, httpMethod) - attempt
    {
      SettleStep(policy, stream, Retries(policy, httpMethod), attempt);
      result := stream(calls);
      calls := calls + 1;
      var pause;
      match result {
        case Response(status, header) =>
          if !(eligible && attempt < policy.maxRetries && status in policy.retryStatusCodes) {
            return;
          }
          var retryAfterMs := ParseRetryAfter(header);
          pause := UnwrapOr(retryAfterMs, ComputeBackoffMs(attempt, policy.baseDelayMs, policy.backoffCapMs, random(attempt)));
        case Thrown(isTypeError) =>
          if !eligible || attempt >= policy.maxRetries {
            return;
          }
          if !isTypeError {
            return;
          }
          pause := ComputeBackoffMs(attempt, policy.baseDelayMs, policy.backoffCapMs, random(attempt));
      }
      OnePauseMore(policy, stream, sleeps, random(attempt));
      PauseMeans(policy, stream(attempt), attempt, random(attempt));
      sleeps := sleeps + [pause];
      attempt := attempt + 1;
    }
  }

  lemma SettleStep(policy: Policy, stream: nat -> Outcome, retries: nat, attempt: nat)
    requires attempt <= retries
    ensures Settles(policy, stream, retries, attempt)
         == if attempt == retries || !Transient(policy, stream(attempt)) then attempt else Settles(policy, stream, retries, attempt + 1)
  {
  }

  lemma NoPauses(policy: Policy)
    ensures Within(Sum([]), 0, policy.baseDelayMs, policy.backoffCapMs)
  {
  }

  lemma OnePauseMore(policy: Policy, stream: nat -> Outcome, sleeps: seq<real>, random: real)
    requires 0.0 <= random < 1.0 && policy.baseDelayMs >= 0.0
    requires Unprompted(stream, |sleeps|) ==> Within(Sum(sleeps), |sleeps|, policy.baseDelayMs, policy.backoffCapMs)
    ensures Unprompted(stream, |sleeps| + 1) ==>
              var pause := Pause(policy, stream(|sleeps|), |sleeps|, random);
              Within(Sum(sleeps + [pause]), |sleeps| + 1, policy.baseDelayMs, policy.backoffCapMs)
  {
    hide Within, ComputeBackoffMs, ParseRetryAfter;
    if Unprompted(stream, |sleeps| + 1) {
      var pause := Pause(policy, stream(|sleeps|), |sleeps|, random);
      assert (sleeps + [pause])[..|sleeps|] == sleeps;
      PauseFits(policy.baseDelayMs, policy.backoffCapMs, random, |sleeps|, Sum(sleeps));
    }
  }

  lemma UpperTwice(s: string, allow: seq<string>)
    ensures IsMethodRetryable(Upper(s), allow) <==> IsMethodRetryable(s, allow)
  {
    assert Upper(Upper(s)) == Upper(s);
  }
}
