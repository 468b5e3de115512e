/** The bounded retry budget of one operation, and the classification of seller errors. */
module Retry {
  import opened Wrappers

  const SPEC_MAX_RETRIES := 3
  const SPEC_MAX_SECONDS := 300.0
  const BACKOFF_CAP := 60.0

  datatype Recovery = Transient | Correctable | Terminal

  predicate IsCorrectable(code: string) {
    code in {
      "INVALID_REQUEST", "AUTH_MISSING", "AUTH_REQUIRED", "POLICY_VIOLATION", "PRODUCT_NOT_FOUND",
      "PRODUCT_UNAVAILABLE", "PROPOSAL_EXPIRED", "PROPOSAL_NOT_FOUND", "MULTI_FINALIZE_UNSUPPORTED",
      "REQUOTE_REQUIRED", "BUDGET_TOO_LOW", "CREATIVE_REJECTED", "UNSUPPORTED_FEATURE",
      "AUDIENCE_TOO_SMALL", "ACCOUNT_MOVED", "ACCOUNT_IDENTITY_CONFLICT", "ACCOUNT_SETUP_REQUIRED",
      "ACCOUNT_AMBIGUOUS", "COMPLIANCE_UNSATISFIED", "GOVERNANCE_DENIED", "MEDIA_BUY_NOT_FOUND",
      "PACKAGE_NOT_FOUND", "CREATIVE_NOT_FOUND", "SIGNAL_NOT_FOUND", "SESSION_NOT_FOUND",
      "SESSION_TERMINATED", "REFERENCE_NOT_FOUND", "VALIDATION_ERROR"
    }
  }

  predicate IsTerminalCode(code: string) {
    code in {
      "AUTH_INVALID", "ACCOUNT_NOT_FOUND", "ACCOUNT_PAYMENT_REQUIRED", "ACCOUNT_SUSPENDED",
      "BUDGET_EXHAUSTED", "CONFIGURATION_ERROR"
    }
  }

  /** A JSON value where a number of seconds is expected. */
  datatype Hint = Absent | Boolean(b: bool) | Whole(n: int) | Fractional(x: real) | NonFinite | NotNumeric

  /** An AdCP error object: the recovery it declares (None unless it is a string), its code and
      its retry hint. */
  datatype AdcpError = AdcpError(declared: Option<string>, code: string, retryAfter: Hint)

  function RecoveryFor(e: AdcpError): Recovery {
    match e.declared
    case Some(text) =>
      if text == "transient" then Transient else if text == "correctable" then Correctable else Terminal
    case None =>
      if IsCorrectable(e.code) then Correctable
      else if IsTerminalCode(e.code) then Terminal
      else Transient
  }

  lemma CorrectableExactly(code: string)
    ensures IsCorrectable(code) <==>
            || code in [
              "INVALID_REQUEST", "VALIDATION_ERROR", "UNSUPPORTED_FEATURE", "REFERENCE_NOT_FOUND",
              "AUTH_MISSING", "AUTH_REQUIRED", "SESSION_NOT_FOUND", "SESSION_TERMINATED",
              "POLICY_VIOLATION", "COMPLIANCE_UNSATISFIED", "GOVERNANCE_DENIED",
              "PRODUCT_NOT_FOUND", "PRODUCT_UNAVAILABLE", "PROPOSAL_EXPIRED", "PROPOSAL_NOT_FOUND"]
            || code in [
              "MULTI_FINALIZE_UNSUPPORTED", "REQUOTE_REQUIRED", "BUDGET_TOO_LOW", "AUDIENCE_TOO_SMALL",
              "ACCOUNT_MOVED", "ACCOUNT_IDENTITY_CONFLICT", "ACCOUNT_SETUP_REQUIRED", "ACCOUNT_AMBIGUOUS",
              "MEDIA_BUY_NOT_FOUND", "PACKAGE_NOT_FOUND", "SIGNAL_NOT_FOUND",
              "CREATIVE_NOT_FOUND", "CREATIVE_REJECTED"]
  {}

  lemma TerminalExactly(code: string)
    ensures IsTerminalCode(code) <==>
            code in [
              "AUTH_INVALID", "CONFIGURATION_ERROR", "BUDGET_EXHAUSTED",
              "ACCOUNT_NOT_FOUND", "ACCOUNT_PAYMENT_REQUIRED", "ACCOUNT_SUSPENDED"]
    ensures IsTerminalCode(code) ==> !IsCorrectable(code)
  {}

  /** The recovery an error declares, "terminal" for one that is not known; without any, that of
      its code, and "transient" for a code that is not known. */
  lemma RecoveryExactly(e: AdcpError)
    ensures e.declared == Some("transient") ==> RecoveryFor(e) == Transient
    ensures e.declared == Some("correctable") ==> RecoveryFor(e) == Correctable
    ensures e.declared.Some? && e.declared.value != "transient" && e.declared.value != "correctable" ==>
              RecoveryFor(e) == Terminal
    ensures e.declared.None? ==> (RecoveryFor(e) == Correctable <==> IsCorrectable(e.code))
    ensures e.declared.None? ==> (RecoveryFor(e) == Terminal <==> IsTerminalCode(e.code))
  {
    TerminalExactly(e.code);
  }

  function Ceil(x: real): int {
    -((-x).Floor)
  }

  function Clamp(n: int): real {
    (if n < 1 then 1 else if n > 3600 then 3600 else n) as real
  }

  /** 2^320. */
  function Scale(): int {
    0x100000000000000000000000000000000000000000000000000000000000000000000000000000000
  }

  /** 2^1024 - 2^970: from here on an integer is too large for a double. */
  function FloatLimit(): int {
    0xFFFF_FFFF_FFFF_FC00 * Scale() * Scale() * Scale()
  }

  /** 10^400. */
  function Huge(): int {
    var googol := 10000000000000000000000000000000000000000000000000000000000000000000000000000000000000000000000000000;
    googol * googol * googol * googol
  }

  /** Asking whether such a number is finite raises an OverflowError. */
  predicate OutOfRange(v: Hint) {
    v.Whole? && !(-FloatLimit() < v.n < FloatLimit())
  }

  datatype Overflow = Overflow

  /** Round up, then clamp to [1, 3600]; anything but a finite number is absent. */
  function Seconds(v: Hint): Option<real>
    requires !OutOfRange(v)
  {
    match v
    case Whole(n) => Some(Clamp(n))
    case Fractional(x) => Some(Clamp(Ceil(x)))
    case _ => None
  }

  function NormalizeRetryAfter(v: Hint): Result<Option<real>, Overflow> {
    if OutOfRange(v) then Err(Overflow) else Ok(Seconds(v))
  }

  function AsHint(d: Option<real>): Hint {
    if d.Some? then Fractional(d.value) else Absent
  }

  /** A hint that was normalized when the error was built is not changed by the budget, and
      raises nothing there. */
  lemma NormalizeTwice(v: Hint)
    requires NormalizeRetryAfter(v).Ok?
    ensures NormalizeRetryAfter(AsHint(NormalizeRetryAfter(v).value)) == NormalizeRetryAfter(v)
    ensures var d := NormalizeRetryAfter(v).value; d.Some? ==> 1.0 <= d.value <= 3600.0
    ensures v.Fractional? && 1.0 <= v.x <= 3600.0 ==>
              v.x <= NormalizeRetryAfter(v).value.value < v.x + 1.0
  {
    var d := Seconds(v);
    if d.Some? {
      var n := if v.Whole? then v.n else Ceil(v.x);
      var c := if n < 1 then 1 else if n > 3600 then 3600 else n;
      assert (-(c as real)).Floor == -c;
    }
  }

  /** Every hint a double can hold is normalized; the first integer beyond raises. */
  lemma NormalizedExactly(n: int)
    ensures NormalizeRetryAfter(Whole(n)) == Err(Overflow) <==> n >= FloatLimit() || n <= -FloatLimit()
    ensures NormalizeRetryAfter(Whole(Huge())) == Err(Overflow)
    ensures -FloatLimit() < n < FloatLimit() ==> NormalizeRetryAfter(Whole(n)) == Ok(Some(Clamp(n)))
  {}

  /** 10^308, which a double can hold; twice as much it cannot. */
  function Large(): int {
    var t := 100000000000000000000000000000000000000000000000000000000000000000000000000000;
    t * t * t * t
  }

  /** What becomes of a hint: a number is rounded up and clamped to [1, 3600], a whole number
      beyond the doubles raises, and anything else is no hint. */
  lemma HintExactly(v: Hint)
    ensures NormalizeRetryAfter(v) == Ok(None) <==> v == Absent || v.Boolean? || v == NonFinite || v == NotNumeric
    ensures v.Whole? && 1 <= v.n <= 3600 ==> NormalizeRetryAfter(v) == Ok(Some(v.n as real))
    ensures v.Whole? && -Large() <= v.n < 1 ==> NormalizeRetryAfter(v) == Ok(Some(1.0))
    ensures v.Whole? && 3600 < v.n <= Large() ==> NormalizeRetryAfter(v) == Ok(Some(3600.0))
    ensures v.Whole? && (v.n >= 2 * Large() || v.n <= -2 * Large()) ==> NormalizeRetryAfter(v).Err?
    ensures v.Fractional? && v.x < 1.0 ==> NormalizeRetryAfter(v) == Ok(Some(1.0))
    ensures v.Fractional? && v.x > 3600.0 ==> NormalizeRetryAfter(v) == Ok(Some(3600.0))
    ensures v.Fractional? && 1.0 <= v.x <= 3600.0 ==>
              var r := NormalizeRetryAfter(v);
              && r.Ok? && r.value.Some? && v.x <= r.value.value < v.x + 1.0
              && r.value.value == r.value.value.Floor as real
  {}

  function Pow2(k: nat): (p: nat)
    ensures p >= 1
  {
    if k == 0 then 1 else 2 * Pow2(k - 1)
  }

  /** Base 2 s doubled per retry, capped at 60 s. */
  function RawBackoff(k: nat): real {
    var doubled := 2.0 * Pow2(k) as real;
    if doubled < BACKOFF_CAP then doubled else BACKOFF_CAP
  }

  /** Plus or minus a quarter. */
  function Jitter(rng: real): real {
    0.75 + rng * 0.5
  }

  function Scaled(x: real, factor: real): real {
    x * factor
  }

  /** With jitter; `rng` lies in [0, 1). */
  function Backoff(k: nat, rng: real): real {
    Scaled(RawBackoff(k), Jitter(rng))
  }

  /** The backoff starts at 2 s, doubles with every retry up to 60 s, and is spread evenly by a
      quarter up and down. */
  lemma BackoffExactly(k: nat, rng: real)
    ensures RawBackoff(0) == 2.0
    ensures RawBackoff(k + 1) == if RawBackoff(k) <= 30.0 then 2.0 * RawBackoff(k) else 60.0
    ensures Backoff(k, 0.0) == 0.75 * RawBackoff(k) && Backoff(k, 0.5) == RawBackoff(k)
    ensures 2.0 * (Backoff(k, rng) - Backoff(k, 0.0)) == rng * RawBackoff(k)
  {
    var raw := RawBackoff(k);
    assert Backoff(k, rng) == raw * 0.75 + raw * (rng * 0.5);
  }

  /** The delay a retry would have. */
  function DelayFor(hint: Hint, k: nat, rng: real): real
    requires !OutOfRange(hint)
  {
    var hinted := Seconds(hint);
    if hinted.Some? then hinted.value else Backoff(k, rng)
  }

  /** The bounds on a delay. */
  function LeastDelay(hint: Hint, k: nat): real
    requires !OutOfRange(hint)
  {
    var hinted := Seconds(hint);
    if hinted.Some? then hinted.value else 0.75 * RawBackoff(k)
  }

  function MostDelay(hint: Hint, k: nat): real
    requires !OutOfRange(hint)
  {
    var hinted := Seconds(hint);
    if hinted.Some? then hinted.value else 1.25 * RawBackoff(k)
  }

  lemma ScaledMonotone(raw: real, a: real, b: real)
    requires raw >= 0.0 && a <= b
    ensures Scaled(raw, a) <= Scaled(raw, b)
  {}

  lemma ScaledStrict(raw: real, a: real)
    requires 2.0 <= raw <= 60.0 && 0.75 <= a < 1.25
    ensures 1.5 <= Scaled(raw, a) < 75.0
  {
    assert raw * a <= 60.0 * a;
    assert raw * a >= 2.0 * a;
  }

  lemma Jittered(raw: real, factor: real)
    requires 2.0 <= raw <= 60.0 && 0.75 <= factor < 1.25
    ensures 0.75 * raw <= Scaled(raw, factor) <= 1.25 * raw
    ensures 1.5 <= Scaled(raw, factor) < 75.0
  {
    ScaledMonotone(raw, 0.75, factor);
    ScaledMonotone(raw, factor, 1.25);
    ScaledStrict(raw, factor);
  }

  lemma BackoffBounds(k: nat, rng: real)
    requires 0.0 <= rng < 1.0
    ensures 0.75 * RawBackoff(k) <= Backoff(k, rng) <= 1.25 * RawBackoff(k)
    ensures 1.5 <= Backoff(k, rng) < 75.0
  {
    RawBounds(k);
    Jittered(RawBackoff(k), Jitter(rng));
  }

  lemma RawBounds(k: nat)
    ensures 2.0 <= RawBackoff(k) <= 60.0
  {}

  lemma DelayBounds(hint: Hint, k: nat, rng: real)
    requires !OutOfRange(hint) && 0.0 <= rng < 1.0
    ensures LeastDelay(hint, k) <= DelayFor(hint, k, rng) <= MostDelay(hint, k)
    ensures DelayFor(hint, k, rng) >= 1.0
    ensures Seconds(hint).Some? ==> DelayFor(hint, k, rng) <= 3600.0
    ensures Seconds(hint).None? ==> DelayFor(hint, k, rng) < 75.0
  {
    if Seconds(hint).Some? {
      NormalizeTwice(hint);
    } else {
      BackoffBounds(k, rng);
    }
  }

  class RetryBudget {
    const maxRetries: int
    const maxSeconds: real
    const startedAt: real
    var attempted: int

    ghost predicate Valid()
      reads this
    {
      0 <= attempted <= maxRetries <= SPEC_MAX_RETRIES && 0.0 <= maxSeconds <= SPEC_MAX_SECONDS
    }

    /** The configured limits are clamped to the ceilings of the specification. */
    constructor (maxRetries: int, maxSeconds: real, now: real)
      ensures Valid() && attempted == 0 && startedAt == now
      ensures this.maxRetries == if maxRetries < 0 then 0 else if maxRetries > 3 then 3 else maxRetries
      ensures this.maxSeconds == if maxSeconds < 0.0 then 0.0 else if maxSeconds > 300.0 then 300.0 else maxSeconds
    {
      var retries := if maxRetries < SPEC_MAX_RETRIES then maxRetries else SPEC_MAX_RETRIES;
      var seconds := if maxSeconds < SPEC_MAX_SECONDS then maxSeconds else SPEC_MAX_SECONDS;
      this.maxRetries := if retries < 0 then 0 else retries;
      this.maxSeconds := if seconds < 0.0 then 0.0 else seconds;
      startedAt := now;
      attempted := 0;
    }

    predicate Exhausted()
      reads this
    {
      attempted >= maxRetries
    }

    /** The budget can refuse a retry at this moment: no retry is left, or some jitter takes
        the delay past the time ceiling. */
    predicate MayRefuse(hint: Hint, now: real)
      requires attempted >= 0 && !OutOfRange(hint)
      reads this
    {
      Exhausted() || now - startedAt + MostDelay(hint, attempted) > maxSeconds
    }

    /** Consume one retry and return its delay, or None when the budget is spent. A hint out
        of range raises, unless no retry is left. */
    method NextDelay(hint: Hint, rng: real, now: real) returns (delay: Result<Option<real>, Overflow>)
      requires Valid() && 0.0 <= rng < 1.0
      modifies this
      ensures Valid()
      ensures delay.Err? <==> OutOfRange(hint) && !old(Exhausted())
      ensures old(Exhausted()) ==> delay == Ok(None)
      ensures attempted == old(attempted) + (if delay.Ok? && delay.value.Some? then 1 else 0)
      ensures delay.Ok? && !OutOfRange(hint) ==>
                if old(Exhausted()) || now - startedAt + DelayFor(hint, old(attempted), rng) > maxSeconds
                then delay.value.None? && MayRefuse(hint, now)
                else
                  && delay.value == Some(DelayFor(hint, old(attempted), rng))
                  && LeastDelay(hint, old(attempted)) <= delay.value.value <= MostDelay(hint, old(attempted))
                  && delay.value.value >= 1.0
    {
      if attempted >= maxRetries {
        return Ok(None);
      }
      var hinted :- NormalizeRetryAfter(hint);
      DelayBounds(hint, attempted, rng);
      var d := if hinted.Some? then hinted.value else Backoff(attempted, rng);
      if now - startedAt + d > maxSeconds {
        return Ok(None);
      }
      attempted := attempted + 1;
      return Ok(Some(d));
    }
  }
}
