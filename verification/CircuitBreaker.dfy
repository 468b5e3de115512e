/** The per-seller circuit breaker, refined against the log of what happened to it. */
module Breaker {

  // ---- the log ----

  /** What happens to a breaker: admission requests with the answer they got, recorded outcomes
      of requests, and reads of the state (which may move it to half-open). A request is known
      by its position in the log. */
  datatype Event =
    | Ask(at: real, admitted: bool)
    | Success(of: nat)
    | Failure(of: nat, at: real)
    | Look(at: real)

  type Log = seq<Event>

  /** Failures recorded since the last success. */
  function Fails(log: Log): nat {
    if log == [] then 0
    else
      var before, e := log[..|log| - 1], log[|log| - 1];
      if e.Success? then 0 else if e.Failure? then Fails(before) + 1 else Fails(before)
  }

  /** Time of the last failure (0 when there is none). */
  function LastFailure(log: Log): real {
    if log == [] then 0.0
    else
      var e := log[|log| - 1];
      if e.Failure? then e.at else LastFailure(log[..|log| - 1])
  }

  /** A request was admitted after the last recorded outcome. */
  predicate Outstanding(log: Log) {
    if log == [] then false
    else
      var e := log[|log| - 1];
      !e.Success? && !e.Failure? && ((e.Ask? && e.admitted) || Outstanding(log[..|log| - 1]))
  }

  /** The failures since the last success reach the threshold. */
  predicate Tripped(threshold: int, log: Log) {
    Fails(log) > 0 && Fails(log) >= threshold
  }

  /** The reference decision: admit while not tripped; otherwise admit one request per
      recorded outcome, and only once the cooldown after the last failure has passed. */
  predicate Allows(threshold: int, cooldown: real, log: Log, now: real) {
    !Tripped(threshold, log) || (now - LastFailure(log) >= cooldown && !Outstanding(log))
  }

  /** The clock never ran backwards up to `now`. */
  predicate NotBefore(log: Log, now: real) {
    forall k :: 0 <= k < |log| && !log[k].Success? ==> log[k].at <= now
  }

  /** A log some breaker can have: the clock is monotone and every request got the reference
      answer. */
  predicate Legal(threshold: int, cooldown: real, log: Log) {
    if log == [] then true
    else
      var before, e := log[..|log| - 1], log[|log| - 1];
      && Legal(threshold, cooldown, before)
      && (!e.Success? ==> NotBefore(before, e.at))
      && (e.Ask? ==> e.admitted == Allows(threshold, cooldown, before, e.at))
  }

  lemma Appended(threshold: int, cooldown: real, log: Log, e: Event)
    ensures Legal(threshold, cooldown, log + [e]) <==>
            && Legal(threshold, cooldown, log)
            && (!e.Success? ==> NotBefore(log, e.at))
            && (e.Ask? ==> e.admitted == Allows(threshold, cooldown, log, e.at))
    ensures Fails(log + [e]) == if e.Success? then 0 else if e.Failure? then Fails(log) + 1 else Fails(log)
    ensures LastFailure(log + [e]) == if e.Failure? then e.at else LastFailure(log)
    ensures Outstanding(log + [e]) <==> (!e.Success? && !e.Failure? && ((e.Ask? && e.admitted) || Outstanding(log)))
    ensures forall k :: 0 <= k < |log| ==> (log + [e])[k] == log[k]
    ensures (log + [e])[..|log|] == log && (log + [e])[|log|] == e
  {
    assert (log + [e])[..|log + [e]| - 1] == log;
  }

  /** The cooldown was seen to have passed since `since`. */
  predicate Cooled(cooldown: real, log: Log, since: real) {
    exists k :: 0 <= k < |log| && !log[k].Success? && log[k].at - since >= cooldown
  }

  lemma CooledAppended(cooldown: real, log: Log, since: real, e: Event)
    requires Cooled(cooldown, log, since) || (!e.Success? && e.at - since >= cooldown)
    ensures Cooled(cooldown, log + [e], since)
  {
    var after := log + [e];
    if Cooled(cooldown, log, since) {
      var k :| 0 <= k < |log| && !log[k].Success? && log[k].at - since >= cooldown;
      assert after[k] == log[k];
    } else {
      assert after[|log|] == e;
    }
  }

  // ---- the breaker ----

  datatype State = Closed | Open | HalfOpen

  class CircuitBreaker {
    const sellerUrl: string
    const threshold: int
    const cooldown: real
    var state: State
    var failureCount: int
    var lastFailureTime: real
    var inFlight: bool
    var gauge: int
    ghost var log: Log

    /** The fields say what the log says. */
    ghost predicate Valid()
      reads this
    {
      && Legal(threshold, cooldown, log)
      && failureCount == Fails(log)
      && (state.Closed? <==> !Tripped(threshold, log))
      && (failureCount > 0 ==> lastFailureTime == LastFailure(log))
      && (state.HalfOpen? ==> Cooled(cooldown, log, lastFailureTime))
      && (inFlight ==> state.HalfOpen?)
      && (Tripped(threshold, log) ==> inFlight == Outstanding(log))
      && gauge == (if sellerUrl != "" && Tripped(threshold, log) then 1 else 0)
    }

    constructor (sellerUrl: string, threshold: int, cooldown: real)
      ensures Valid() && log == []
      ensures this.sellerUrl == sellerUrl && this.threshold == threshold && this.cooldown == cooldown
    {
      this.sellerUrl, this.threshold, this.cooldown := sellerUrl, threshold, cooldown;
      state, failureCount, lastFailureTime, inFlight, gauge := Closed, 0, 0.0, false, 0;
      log := [];
    }

    /** Reading the state moves an open breaker to half-open once the cooldown has passed. */
    method CurrentState(now: real) returns (current: State)
      requires Valid() && NotBefore(log, now)
      modifies this
      ensures Valid() && log == old(log) + [Look(now)]
      ensures current == state
      ensures current.Closed? <==> !Tripped(threshold, old(log))
      ensures current.HalfOpen? <==>
                Tripped(threshold, old(log)) && now - LastFailure(old(log)) >= cooldown
      ensures inFlight == old(inFlight) && lastFailureTime == old(lastFailureTime)
    {
      ghost var before := log;
      if state == Open && now - lastFailureTime >= cooldown {
        state := HalfOpen;
      }
      current := state;
      log := log + [Look(now)];
      Appended(threshold, cooldown, before, Look(now));
      if state == HalfOpen {
        CooledAppended(cooldown, before, lastFailureTime, Look(now));
      }
    }

    method UpdateGauge()
      modifies this`gauge
      ensures gauge == if sellerUrl == "" then old(gauge) else if state.Open? then 1 else 0
    {
      if sellerUrl != "" {
        gauge := if state == Open then 1 else 0;
      }
    }

    /** The request `of` succeeded. */
    method RecordSuccess(ghost of: nat)
      requires Valid()
      modifies this
      ensures Valid() && log == old(log) + [Success(of)]
      ensures state.Closed? && gauge == 0
    {
      ghost var before := log;
      failureCount := 0;
      inFlight := false;
      state := Closed;
      UpdateGauge();
      log := before + [Success(of)];
      Appended(threshold, cooldown, before, Success(of));
    }

    /** The request `of` failed. */
    method RecordFailure(now: real, ghost of: nat)
      requires Valid() && NotBefore(log, now)
      modifies this
      ensures Valid() && log == old(log) + [Failure(of, now)]
      ensures state.Open? <==> old(failureCount) + 1 >= threshold
      ensures !state.HalfOpen?
    {
      ghost var before := log;
      failureCount := failureCount + 1;
      lastFailureTime := now;
      inFlight := false;
      if failureCount >= threshold {
        state := Open;
      }
      assert state != HalfOpen;
      UpdateGauge();
      log := before + [Failure(of, now)];
      Appended(threshold, cooldown, before, Failure(of, now));
    }

    /** Admission agrees with the reference decision on the log. */
    method AllowRequest(now: real) returns (admitted: bool)
      requires Valid() && NotBefore(log, now)
      modifies this
      ensures Valid()
      ensures admitted == Allows(threshold, cooldown, old(log), now)
      ensures log == old(log) + [Ask(now, admitted)]
    {
      ghost var before := log;
      var current := CurrentState(now);
      if current == Closed {
        admitted := true;
      } else if current == HalfOpen {
        if inFlight {
          admitted := false;
        } else {
          inFlight := true;
          admitted := true;
        }
      } else {
        admitted := false;
      }
      // The read and the decision are one step under the lock: one entry in the log.
      log := before + [Ask(now, admitted)];
      Appended(threshold, cooldown, before, Ask(now, admitted));
      if state == HalfOpen {
        CooledAppended(cooldown, before, lastFailureTime, Ask(now, admitted));
      }
    }

    /** How long a rejected caller is told to wait: 0 when not tripped, otherwise what is left
        of the cooldown after the last failure. */
    method RemainingCooldown(now: real) returns (left: real)
      requires Valid() && NotBefore(log, now)
      ensures left >= 0.0
      ensures left > 0.0 ==> Tripped(threshold, log) && !Outstanding(log)
      ensures left > 0.0 ==> forall later: real :: Allows(threshold, cooldown, log, later) <==> later >= now + left
      ensures left == 0.0 ==> !Tripped(threshold, log) || now - LastFailure(log) >= cooldown
    {
      if state != Open {
        return 0.0;
      }
      var elapsed := now - lastFailureTime;
      left := if cooldown - elapsed > 0.0 then cooldown - elapsed else 0.0;
    }
  }

  // ---- what holds of every run ----

  predicate NoSuccess(log: Log, from: nat) {
    forall k :: from <= k < |log| ==> !log[k].Success?
  }

  lemma {:induction false} StaysTripped(threshold: int, log: Log, k: nat)
    requires k <= |log| && Tripped(threshold, log[..k]) && NoSuccess(log, k)
    ensures Tripped(threshold, log) && Fails(log) >= Fails(log[..k])
    decreases |log|
  {
    if k == |log| {
      assert log[..k] == log;
    } else {
      var before := log[..|log| - 1];
      assert before[..k] == log[..k];
      StaysTripped(threshold, before, k);
    }
  }

  lemma {:induction false} LegalPrefix(threshold: int, cooldown: real, log: Log, n: nat)
    requires Legal(threshold, cooldown, log) && n <= |log|
    ensures Legal(threshold, cooldown, log[..n])
    decreases |log|
  {
    if n == |log| {
      assert log[..n] == log;
    } else {
      var before := log[..|log| - 1];
      assert before[..n] == log[..n];
      LegalPrefix(threshold, cooldown, before, n);
    }
  }

  predicate Admission(e: Event) {
    e.Ask? && e.admitted
  }

  predicate IsOutcome(e: Event) {
    e.Success? || e.Failure?
  }

  /** If no admission is outstanding although one was admitted at i, and nothing succeeded
      since, then a failure was recorded after i. */
  lemma {:induction false} OutcomeAfter(threshold: int, cooldown: real, log: Log, i: nat)
    requires Legal(threshold, cooldown, log)
    requires i < |log| && Admission(log[i]) && NoSuccess(log, i) && !Outstanding(log)
    ensures LastFailure(log) >= log[i].at
    decreases |log|
  {
    var before, e := log[..|log| - 1], log[|log| - 1];
    assert i < |log| - 1;
    assert before[i] == log[i];
    if e.Failure? {
    } else {
      OutcomeAfter(threshold, cooldown, before, i);
    }
  }

  /** While nothing succeeds after the breaker tripped, two admitted requests are at least the
      cooldown apart. */
  lemma ProbeSpacing(threshold: int, cooldown: real, log: Log, k: nat, i: nat, j: nat)
    requires Legal(threshold, cooldown, log)
    requires k <= i < j < |log| && Tripped(threshold, log[..k]) && NoSuccess(log, k)
    requires Admission(log[i]) && Admission(log[j])
    ensures log[j].at - log[i].at >= cooldown
  {
    var before := log[..j];
    LegalPrefix(threshold, cooldown, log, j + 1);
    assert log[..j + 1][..j] == before;
    LegalPrefix(threshold, cooldown, log, j);
    assert before[..k] == log[..k];
    StaysTripped(threshold, before, k);
    assert Allows(threshold, cooldown, before, log[j].at);
    assert before[i] == log[i];
    OutcomeAfter(threshold, cooldown, before, i);
  }

  /** Between two admissions of a tripped breaker an outcome is recorded: at most one request
      is admitted per recorded outcome. */
  lemma OneAdmissionPerOutcome(threshold: int, cooldown: real, log: Log, i: nat, j: nat)
    requires Legal(threshold, cooldown, log)
    requires i < j < |log| && Tripped(threshold, log[..j])
    requires Admission(log[i]) && Admission(log[j])
    ensures exists m :: i < m < j && IsOutcome(log[m])
  {
    LegalPrefix(threshold, cooldown, log, j + 1);
    assert log[..j + 1][..j] == log[..j];
    assert Allows(threshold, cooldown, log[..j], log[j].at);
    var m := LastOutcomeAfter(log[..j], i);
    assert log[..j][m] == log[m];
  }

  lemma {:induction false} LastOutcomeAfter(log: Log, i: nat) returns (m: nat)
    requires i < |log| && Admission(log[i]) && !Outstanding(log)
    ensures i < m < |log| && IsOutcome(log[m])
    decreases |log|
  {
    var e := log[|log| - 1];
    if e.Success? || e.Failure? {
      m := |log| - 1;
    } else {
      m := LastOutcomeAfter(log[..|log| - 1], i);
    }
  }

  // ---- several probes at once ----

  /** Every outcome belongs to a request that was admitted before it, and no request has two. */
  predicate Attributed(log: Log) {
    forall m :: 0 <= m < |log| && IsOutcome(log[m]) ==>
      && log[m].of < m && Admission(log[log[m].of])
      && forall n :: m < n < |log| && IsOutcome(log[n]) ==> log[n].of != log[m].of
  }

  /** A probe: a request admitted although the breaker had tripped. */
  predicate Probe(threshold: int, log: Log, i: nat)
    requires i < |log|
  {
    Admission(log[i]) && Tripped(threshold, log[..i])
  }

  /** Request i has no outcome among the first n events. */
  predicate Unanswered(log: Log, i: nat, n: nat)
    requires n <= |log|
  {
    forall m :: i < m < n && IsOutcome(log[m]) ==> log[m].of != i
  }

  /** After position i, the last thing but reads and rejected requests was an outcome. */
  predicate Cleared(log: Log, i: nat, n: nat)
    requires n <= |log|
  {
    exists m :: i < m < n && IsOutcome(log[m]) && forall k :: m < k < n ==> !Admission(log[k])
  }

  lemma {:induction false} ClearedExactly(log: Log, i: nat, n: nat)
    requires i < n <= |log| && Admission(log[i])
    ensures Cleared(log, i, n) <==> !Outstanding(log[..n])
    decreases n
  {
    var e := log[n - 1];
    assert log[..n][..n - 1] == log[..n - 1];
    if n - 1 == i {
    } else if IsOutcome(e) || Admission(e) {
    } else {
      ClearedExactly(log, i, n - 1);
      if Cleared(log, i, n - 1) {
        var m :| i < m < n - 1 && IsOutcome(log[m]) && forall k :: m < k < n - 1 ==> !Admission(log[k]);
        assert forall k :: m < k < n ==> !Admission(log[k]);
      }
    }
  }

  /** The decision on request j while request i has no outcome: a breaker that is tripped admits
      it exactly when the cooldown has passed since the last failure and an outcome, which can
      only be that of another request, was recorded since the last admission. */
  lemma AdmittedBesides(threshold: int, cooldown: real, log: Log, i: nat, j: nat)
    requires Legal(threshold, cooldown, log) && i < j < |log|
    requires Admission(log[i]) && Unanswered(log, i, j) && log[j].Ask? && Tripped(threshold, log[..j])
    ensures log[j].admitted <==> log[j].at - LastFailure(log[..j]) >= cooldown && Cleared(log, i, j)
    ensures Cleared(log, i, j) ==> exists m :: i < m < j && IsOutcome(log[m]) && log[m].of != i
  {
    LegalPrefix(threshold, cooldown, log, j + 1);
    assert log[..j + 1][..j] == log[..j];
    ClearedExactly(log, i, j);
  }

  /** Two probes are outstanding at once somewhere in a run exactly when, with a probe
      unanswered, the outcome of another request was recorded, no request has been admitted
      since, and a further request comes when the cooldown has passed again. */
  lemma TwoProbesExactly(threshold: int, cooldown: real, log: Log)
    requires Legal(threshold, cooldown, log)
    ensures (exists i, j :: 0 <= i < j < |log| && Probe(threshold, log, i) && Probe(threshold, log, j)
                            && Unanswered(log, i, j)) <==>
            (exists i, j :: 0 <= i < j < |log| && Probe(threshold, log, i) && Unanswered(log, i, j)
                            && Tripped(threshold, log[..j]) && log[j].Ask?
                            && log[j].at - LastFailure(log[..j]) >= cooldown && Cleared(log, i, j))
  {
    forall i, j | 0 <= i < j < |log| && Probe(threshold, log, i) && Unanswered(log, i, j)
                  && Tripped(threshold, log[..j]) && log[j].Ask?
      ensures Probe(threshold, log, j) <==> log[j].at - LastFailure(log[..j]) >= cooldown && Cleared(log, i, j)
    {
      AdmittedBesides(threshold, cooldown, log, i, j);
    }
  }

  /** One more event of a run, where the decision on a request is spelled out. */
  lemma Extend(threshold: int, cooldown: real, log: Log, e: Event, now: real)
    returns (next: Log)
    requires Legal(threshold, cooldown, log) && NotBefore(log, now)
    requires !e.Success? && e.at >= now
    requires e.Ask? ==> e.admitted == Allows(threshold, cooldown, log, e.at)
    ensures next == log + [e] && Legal(threshold, cooldown, next) && NotBefore(next, e.at)
    ensures Fails(next) == (if e.Failure? then Fails(log) + 1 else Fails(log))
    ensures LastFailure(next) == (if e.Failure? then e.at else LastFailure(log))
    ensures Outstanding(next) == (!e.Failure? && (Admission(e) || Outstanding(log)))
  {
    next := log + [e];
    Appended(threshold, cooldown, log, e);
  }

  /** A run with two outstanding probes. Requests A and B are admitted while closed, A trips the
      breaker, probe P is admitted, B fails late, and probe Q is admitted while P is still
      unanswered. */
  lemma TwoProbesRun() returns (log: Log)
    ensures log == [Ask(0.0, true), Ask(0.0, true), Failure(0, 0.0),
                    Ask(60.0, true), Failure(1, 61.0), Ask(121.0, true)]
    ensures Legal(1, 60.0, log) && Attributed(log)
    ensures Probe(1, log, 3) && Probe(1, log, 5) && Unanswered(log, 3, |log|) && Unanswered(log, 5, |log|)
  {
    log := [];
    log := Extend(1, 60.0, log, Ask(0.0, true), 0.0);
    log := Extend(1, 60.0, log, Ask(0.0, true), 0.0);
    log := Extend(1, 60.0, log, Failure(0, 0.0), 0.0);
    var tripped := log;
    log := Extend(1, 60.0, log, Ask(60.0, true), 0.0);
    log := Extend(1, 60.0, log, Failure(1, 61.0), 60.0);
    var again := log;
    log := Extend(1, 60.0, log, Ask(121.0, true), 61.0);
    assert log[..3] == tripped && log[..5] == again;
    TwoProbesShape(log);
  }

  lemma TwoProbesShape(log: Log)
    requires |log| == 6 && Admission(log[0]) && Admission(log[1]) && log[2].Failure? && log[2].of == 0
    requires Admission(log[3]) && log[4].Failure? && log[4].of == 1 && Admission(log[5])
    ensures Attributed(log) && Unanswered(log, 3, 6) && Unanswered(log, 5, 6)
  {}

  lemma {:induction false} StaysOutstanding(threshold: int, log: Log, i: nat)
    requires i < |log| && Probe(threshold, log, i)
    requires forall m :: i < m < |log| ==> !IsOutcome(log[m])
    ensures Tripped(threshold, log) && Outstanding(log)
    decreases |log|
  {
    var before := log[..|log| - 1];
    if i == |log| - 1 {
      assert before == log[..i];
    } else {
      assert before[..i] == log[..i] && before[i] == log[i];
      StaysOutstanding(threshold, before, i);
    }
  }

  /** As long as no outcome is recorded after a probe, nothing is admitted, at any time. */
  lemma UnansweredProbeBlocks(threshold: int, cooldown: real, log: Log, i: nat, now: real)
    requires i < |log| && Probe(threshold, log, i)
    requires forall m :: i < m < |log| ==> !IsOutcome(log[m])
    ensures !Allows(threshold, cooldown, log, now)
  {
    StaysOutstanding(threshold, log, i);
  }

  // ---- how often a tripped breaker admits ----

  /** Admissions from position k on with a time in [a, b]. */
  function AdmittedIn(log: Log, k: nat, a: real, b: real): nat {
    if |log| <= k then 0
    else
      var e := log[|log| - 1];
      AdmittedIn(log[..|log| - 1], k, a, b) + (if Admission(e) && a <= e.at <= b then 1 else 0)
  }

  /** The latest of those admissions. */
  lemma {:induction false} LatestAdmission(log: Log, k: nat, a: real, b: real) returns (i: nat)
    requires AdmittedIn(log, k, a, b) > 0
    ensures k <= i < |log| && Admission(log[i]) && a <= log[i].at <= b
    ensures AdmittedIn(log[..i], k, a, b) == AdmittedIn(log, k, a, b) - 1
    decreases |log|
  {
    var before, e := log[..|log| - 1], log[|log| - 1];
    if Admission(e) && a <= e.at <= b {
      i := |log| - 1;
    } else {
      i := LatestAdmission(before, k, a, b);
      assert before[..i] == log[..i];
    }
  }

  /** n times d. */
  function Span(n: nat, d: real): real {
    if n == 0 then 0.0 else Span(n - 1, d) + d
  }

  lemma SpanBound(n: nat, d: real, length: real)
    requires d > 0.0 && Span(n, d) <= length
    ensures n <= (length / d).Floor
  {
    SpanIsProduct(n, d);
    DivideBound(n, d, length);
  }

  lemma {:induction false} SpanIsProduct(n: nat, d: real)
    ensures Span(n, d) == n as real * d
  {
    if n == 0 {
    } else {
      SpanIsProduct(n - 1, d);
      assert ((n - 1) as real + 1.0) * d == (n - 1) as real * d + d;
    }
  }

  lemma {:induction false} SpacedAdmissions(threshold: int, cooldown: real, log: Log, k: nat, a: real, b: real,
                                            last: nat)
    requires Legal(threshold, cooldown, log)
    requires k <= last < |log| && Tripped(threshold, log[..k]) && NoSuccess(log, k)
    requires Admission(log[last]) && a <= log[last].at <= b
    ensures a + Span(AdmittedIn(log[..last], k, a, b), cooldown) <= log[last].at
    decreases last
  {
    var n := AdmittedIn(log[..last], k, a, b);
    if n == 0 {
    } else {
      var i := LatestAdmission(log[..last], k, a, b);
      assert log[..last][..i] == log[..i];
      SpacedAdmissions(threshold, cooldown, log, k, a, b, i);
      ProbeSpacing(threshold, cooldown, log, k, i, last);
    }
  }

  /** While nothing succeeds after the breaker tripped, any interval of length L admits at most
      floor(L / cooldown) + 1 requests. */
  lemma ProbeRate(threshold: int, cooldown: real, log: Log, k: nat, a: real, length: real)
    requires Legal(threshold, cooldown, log)
    requires k <= |log| && Tripped(threshold, log[..k]) && NoSuccess(log, k)
    requires cooldown > 0.0 && length >= 0.0
    ensures AdmittedIn(log, k, a, a + length) <= (length / cooldown).Floor + 1
  {
    var n := AdmittedIn(log, k, a, a + length);
    if n > 0 {
      var last := LatestAdmission(log, k, a, a + length);
      SpacedAdmissions(threshold, cooldown, log, k, a, a + length, last);
      SpanBound(n - 1, cooldown, length);
    } else {
      SpanBound(0, cooldown, length);
    }
  }

  lemma DivideBound(n: nat, d: real, length: real)
    requires d > 0.0 && n as real * d <= length
    ensures n <= (length / d).Floor
  {
    var q := length / d;
    assert q * d == length;
    assert (n as real - q) * d <= 0.0;
    assert n as real <= q;
  }
}
