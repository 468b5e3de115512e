/** Calling one seller tool: single attempts behind the circuit breaker, the retry loop under
    a shared budget, and the session that adds a context and one resend. */
module Seller {
  import opened Wrappers
  import opened Text
  import opened Retry
  import opened Breaker
  import opened Environment

  // ---- payloads and errors ----

  /** A tool's answer. `errors` is None unless it is a list; an entry is None unless it is an
      object. */
  datatype Payload = Payload(
    adcpError: Option<AdcpError>,
    errors: Option<seq<Option<AdcpError>>>,
    hasSuccessKey: bool,
    contextId: Option<string>,
    taskId: Option<string>,
    status: Option<string>)

  datatype Kind = CircuitOpen | Connection | Tool | Internal

  /** The exception a failed call ends with. `contextLost` says whether its message names an
      unknown or expired context. Internal is an exception that is no seller error: nothing
      catches it, and its other fields stand empty. */
  datatype CallError = CallError(kind: Kind, recovery: Recovery, retryAfter: Option<real>, contextLost: bool,
                                 retryCount: int)

  const INTERNAL := CallError(Internal, Terminal, None, false, 0)

  type Outcome = Result<Payload, CallError>
  type Params = map<string, string>

  /** Statuses 400 to 499 other than 408 and 429 will not improve by retrying. */
  function ConnectionRecovery(status: Option<int>): Recovery {
    if status.Some? && 400 <= status.value < 500 && status.value != 408 && status.value != 429
    then Terminal else Transient
  }

  /** The error object of a payload. */
  function ErrorOf(p: Payload): Option<AdcpError> {
    if p.adcpError.Some? then p.adcpError
    else if p.errors.Some? && p.errors.value != [] then p.errors.value[0]
    else None
  }

  /** The error object of a payload asks for a wait that no double can hold. */
  predicate HintRaises(p: Payload) {
    ErrorOf(p).Some? && OutOfRange(ErrorOf(p).value.retryAfter)
  }

  function ToolError(p: Payload, contextLost: bool): CallError {
    match ErrorOf(p)
    case None => CallError(Tool, Transient, None, contextLost, 0)
    case Some(e) =>
      match NormalizeRetryAfter(e.retryAfter)
      case Ok(wait) => CallError(Tool, RecoveryFor(e), wait, contextLost, 0)
      case Err(Overflow) => INTERNAL
  }

  predicate AllTransient(errors: seq<Option<AdcpError>>) {
    errors == [] || (errors[0].Some? && RecoveryFor(errors[0].value) == Transient && AllTransient(errors[1..]))
  }

  /** The retry hint of an answer without success content whose errors are all transient. */
  function TransientAnswer(p: Payload): Result<Option<Hint>, Overflow> {
    if p.errors.None? || p.errors.value == [] || p.hasSuccessKey then Ok(None)
    else if AllTransient(p.errors.value) then
      var wait :- NormalizeRetryAfter(p.errors.value[0].value.retryAfter);
      Ok(Some(AsHint(wait)))
    else Ok(None)
  }

  /** An answer is worth repeating exactly when it holds errors and nothing else, all of them
      transient; the wait is the one the first error asks for, and asking for more than a
      double can hold raises. */
  lemma TransientAnswerExactly(p: Payload)
    ensures var worth :=
              && p.errors.Some? && p.errors.value != [] && !p.hasSuccessKey
              && forall k :: 0 <= k < |p.errors.value| ==>
                   p.errors.value[k].Some? && RecoveryFor(p.errors.value[k].value) == Transient;
            var r := TransientAnswer(p);
            && (r.Err? <==> worth && OutOfRange(p.errors.value[0].value.retryAfter))
            && (r.Ok? && r.value.Some? <==> worth && !OutOfRange(p.errors.value[0].value.retryAfter))
            && (r.Ok? && r.value.Some? ==>
                  NormalizeRetryAfter(r.value.value) == NormalizeRetryAfter(p.errors.value[0].value.retryAfter))
  {
    if p.errors.Some? {
      AllTransientExactly(p.errors.value);
      if AllTransient(p.errors.value) && p.errors.value != [] && TransientAnswer(p).Ok? && !p.hasSuccessKey {
        NormalizeTwice(p.errors.value[0].value.retryAfter);
      }
    }
  }

  lemma {:induction false} AllTransientExactly(errors: seq<Option<AdcpError>>)
    ensures AllTransient(errors) <==>
            forall k :: 0 <= k < |errors| ==> errors[k].Some? && RecoveryFor(errors[k].value) == Transient
  {
    if errors == [] {
    } else {
      AllTransientExactly(errors[1..]);
      assert forall k :: 1 <= k < |errors| ==> errors[k] == errors[1..][k - 1];
    }
  }

  predicate IsMutating(tool: string) {
    tool in {
      "create_media_buy", "update_media_buy", "buy_products", "accept_proposal", "control_media_buy",
      "sync_creatives", "sync_accounts", "sync_catalogs", "sync_event_sources", "sync_audiences",
      "sync_governance", "activate_signal", "provide_performance_feedback", "report_usage",
      "log_event", "acquire_rights", "request_proposals", "refine_proposals", "decline_proposals"
    }
  }

  /** Reads may be repeated; a mutation only with an idempotency key on a seller that replays
      safely. */
  predicate RetryPermitted(idempotent: bool, tool: string, params: Params) {
    IsMutating(tool) ==> "idempotency_key" in params && params["idempotency_key"] != "" && idempotent
  }

  /** What may not be repeated: the nineteen mutations, unless the seller replays safely and the
      call has a key that is not empty. */
  lemma PermittedExactly(idempotent: bool, tool: string, params: Params)
    ensures RetryPermitted(idempotent, tool, params) <==>
            !(tool in [
                "create_media_buy", "update_media_buy", "buy_products", "accept_proposal", "control_media_buy",
                "sync_creatives", "sync_accounts", "sync_catalogs", "sync_event_sources", "sync_audiences",
                "sync_governance", "activate_signal", "provide_performance_feedback", "report_usage",
                "log_event", "acquire_rights", "request_proposals", "refine_proposals", "decline_proposals"]
              && !(idempotent && "idempotency_key" in params && params["idempotency_key"] != ""))
  {}

  /** The hint of an attempt that may be retried, or None. */
  function RetryHint(r: Outcome): Option<Hint> {
    match r
    case Ok(p) => if TransientAnswer(p).Ok? then TransientAnswer(p).value else None
    case Err(e) => if e.recovery == Transient then Some(AsHint(e.retryAfter)) else None
  }

  /** What the call makes of its last attempt: a seller error says how many retries were made,
      and reading the hint of an answer can raise. */
  function Final(r: Outcome, retries: int): Outcome {
    match r
    case Ok(p) => if TransientAnswer(p).Ok? then r else Err(INTERNAL)
    case Err(e) => if e.kind == Internal then r else Err(e.(retryCount := retries))
  }

  /** A result is worth a retry exactly when it is a transient error, or an answer of errors
      only, all transient, whose first asks for a wait that a double can hold. */
  lemma RetryableExactly(r: Outcome)
    ensures RetryHint(r).Some? <==>
            match r
            case Err(e) => e.recovery == Transient
            case Ok(p) =>
              && p.errors.Some? && p.errors.value != [] && !p.hasSuccessKey
              && (forall k :: 0 <= k < |p.errors.value| ==>
                    p.errors.value[k].Some? && RecoveryFor(p.errors.value[k].value) == Transient)
              && NormalizeRetryAfter(p.errors.value[0].value.retryAfter).Ok?
    ensures r.Err? && RetryHint(r).Some? ==>
              RetryHint(r).value == if r.error.retryAfter.Some? then Fractional(r.error.retryAfter.value) else Absent
  {
    if r.Ok? {
      TransientAnswerExactly(r.value);
    }
  }

  /** The caller gets the last answer, or the last error with the number of retries; an answer
      whose hint raises and an error that nothing catches reach it as they are raised. */
  lemma FinalExactly(r: Outcome, retries: int)
    ensures r.Ok? && TransientAnswer(r.value).Ok? ==> Final(r, retries) == r
    ensures r.Ok? && TransientAnswer(r.value).Err? ==>
              Final(r, retries) == Err(CallError(Internal, Terminal, None, false, 0))
    ensures r.Err? && r.error.kind == Internal ==> Final(r, retries) == r
    ensures r.Err? && r.error.kind != Internal ==>
              var e := r.error;
              Final(r, retries) == Err(CallError(e.kind, e.recovery, e.retryAfter, e.contextLost, retries))
  {}

  lemma HintFacts(r: Outcome, retries: int)
    requires r.Err? && r.error.kind == Internal ==> r.error.recovery == Terminal
    ensures RetryHint(Final(r, retries)) == RetryHint(r)
    ensures RetryHint(r).Some? ==> !OutOfRange(RetryHint(r).value)
  {}

  // ---- the environment ----

  /** What connecting and calling a tool ends with: a lost connection, a failed tool, an answer,
      or a result that raises when it is read. */
  datatype Reply =
    | Disconnected(status: Option<int>, contextLost: bool)
    | ToolFailed(p: Payload, contextLost: bool)
    | Answered(p: Payload)
    | Unreadable(failed: bool)

  datatype Exchange = Exchange(params: Params, reply: Reply)

  /** What building the transport of an attempt depends on: whether requests are signed, whether
      the signing key was loaded before or can be read now, and whether the transport takes the
      URL of the seller. */
  datatype Setup = Setup(signing: bool, keyLoaded: bool, keyReadable: bool, urlAccepted: bool)

  predicate Builds(s: Setup) {
    s.urlAccepted && (s.signing ==> s.keyLoaded || s.keyReadable)
  }

  /** A seller agent, whose setup and replies are arbitrary. `sent` records every exchange: a
      connection made to call a tool, and what came of it. */
  class Agent {
    const idempotent: bool
    ghost var sent: seq<Exchange>

    constructor (idempotent: bool)
      ensures this.idempotent == idempotent && sent == []
    {
      this.idempotent := idempotent;
      sent := [];
    }

    method Prepare() returns (setup: Setup)
    {
      setup := *;
    }

    method Send(w: World, params: Params) returns (reply: Reply)
      modifies this, w
      ensures w.now >= old(w.now) && w.slept == old(w.slept)
      ensures sent == old(sent) + [Exchange(params, reply)]
    {
      var t := w.Clock();
      reply := *;
      sent := sent + [Exchange(params, reply)];
    }
  }

  /** The breaker's log ends no later than the present. */
  ghost predicate Ready(b: CircuitBreaker, w: World)
    reads b, w
  {
    b.Valid() && NotBefore(b.log, w.now)
  }

  // ---- one attempt ----

  /** What became of an attempt: the breaker rejected it, or admitted it; then there is a reply
      unless the transport could not be built. */
  datatype Fate = Rejected | Admitted(setup: Setup, reply: Option<Reply>)

  /** One attempt, and the time at which it asked the breaker. */
  datatype Attempt = Attempt(params: Params, asked: real, fate: Fate, outcome: Outcome)

  /** What a reply means to the caller. */
  function OutcomeOf(reply: Reply): Outcome {
    match reply
    case Disconnected(status, lost) => Err(CallError(Connection, ConnectionRecovery(status), None, lost, 0))
    case ToolFailed(p, lost) => Err(ToolError(p, lost))
    case Answered(p) => Ok(p)
    case Unreadable(_) => Err(INTERNAL)
  }

  /** Lost connections and transient errors count against the seller's health; account and
      validation errors do not. */
  predicate CountsAsFailure(r: Outcome) {
    r.Err? && (r.error.kind == Connection || (r.error.kind == Tool && r.error.recovery == Transient))
  }

  /** A failed tool whose error cannot be built: the exception comes before anything is
      recorded. */
  predicate Raises(reply: Reply) {
    (reply.ToolFailed? && HintRaises(reply.p)) || reply == Unreadable(true)
  }

  /** An attempt was admitted, and an exception nothing catches came before its outcome was
      recorded. */
  predicate Forgotten(f: Fate) {
    f.Admitted? && (f.reply.None? || Raises(f.reply.value))
  }

  /** What an admitted attempt means to the caller. */
  function FateOutcome(reply: Option<Reply>): Outcome {
    if reply.Some? then OutcomeOf(reply.value) else Err(INTERNAL)
  }

  /** The outcome that is recorded for the request at position `of`. */
  predicate Records(e: Event, of: nat, r: Outcome) {
    if CountsAsFailure(r) then e.Failure? && e.of == of else e == Success(of)
  }

  /** The breaker events of one attempt, from position `at` on: a rejected request alone, or an
      admitted one followed by its outcome, unless that is forgotten. */
  ghost predicate AttemptEvents(at: nat, events: Log, a: Attempt) {
    match a.fate
    case Rejected =>
      && events == [Ask(a.asked, false)]
      && a.outcome.Err? && a.outcome.error.kind == CircuitOpen && a.outcome.error.recovery == Terminal
    case Admitted(setup, reply) =>
      && (reply.Some? <==> Builds(setup))
      && |events| == Width(a) && events[0] == Ask(a.asked, true)
      && a.outcome == FateOutcome(reply)
      && (!Forgotten(a.fate) ==> Records(events[1], at, a.outcome))
  }

  /** What replies mean: a connection that is refused with a status from 400 to 499 other than 408
      and 429 is not worth a retry, any other lost one is; a failed tool is classified by its
      error object, and is worth a retry without any. */
  lemma OutcomeExactly(reply: Reply)
    ensures reply.Answered? ==> OutcomeOf(reply) == Ok(reply.p)
    ensures reply.Disconnected? ==>
              var n := reply.status.GetOr(0);
              var recovery := if 400 <= n < 408 || 409 <= n < 429 || 430 <= n < 500 then Terminal else Transient;
              OutcomeOf(reply) == Err(CallError(Connection, recovery, None, reply.contextLost, 0))
    ensures reply.ToolFailed? ==>
              var p := reply.p;
              var blamed :=
                if p.adcpError.Some? then p.adcpError
                else if p.errors.Some? && |p.errors.value| > 0 then p.errors.value[0] else None;
              OutcomeOf(reply) ==
              if blamed.None? then Err(CallError(Tool, Transient, None, reply.contextLost, 0))
              else
                match NormalizeRetryAfter(blamed.value.retryAfter)
                case Ok(wait) => Err(CallError(Tool, RecoveryFor(blamed.value), wait, reply.contextLost, 0))
                case Err(_) => Err(CallError(Internal, Terminal, None, false, 0))
    ensures reply.Unreadable? ==> OutcomeOf(reply) == Err(CallError(Internal, Terminal, None, false, 0))
  {}

  /** What the breaker learns of an admitted attempt: a failure when the connection was lost or
      the tool failed transiently, a success when it answered or failed in another way, and
      nothing when the transport or the tool error could not be built. */
  lemma RecordedExactly(at: nat, events: Log, a: Attempt)
    requires AttemptEvents(at, events, a) && a.fate.Admitted?
    ensures |events| >= 1 && events[0] == Ask(a.asked, true)
    ensures a.fate.reply.None? ==> |events| == 1
    ensures a.fate.reply.Some? ==>
              match a.fate.reply.value
              case Answered(_) => events[1..] == [Success(at)]
              case Unreadable(failed) => events[1..] == if failed then [] else [Success(at)]
              case Disconnected(_, _) => |events| == 2 && events[1].Failure? && events[1].of == at
              case ToolFailed(p, _) =>
                var r := OutcomeOf(a.fate.reply.value);
                if r == Err(CallError(Internal, Terminal, None, false, 0)) then |events| == 1
                else if r.error.recovery == Transient then |events| == 2 && events[1].Failure? && events[1].of == at
                else events[1..] == [Success(at)]
  {
    if |events| == 2 {
      assert events == [events[0], events[1]];
    }
  }

  lemma OutcomeFacts(at: nat, events: Log, a: Attempt)
    requires AttemptEvents(at, events, a)
    ensures a.outcome.Err? && a.outcome.error.kind == Internal ==> a.outcome.error == INTERNAL
    ensures a.outcome.Err? && a.outcome.error.kind == CircuitOpen <==> a.fate.Rejected?
    ensures Forgotten(a.fate) ==> a.outcome == Err(INTERNAL)
    ensures |events| == Width(a)
  {}

  /** An admitted attempt records exactly one outcome, its own, exactly when its transport can
      be built and its reply is not a failed tool whose error cannot be built. */
  lemma OneOutcomeExactly(at: nat, events: Log, a: Attempt)
    requires AttemptEvents(at, events, a) && a.fate.Admitted?
    ensures (exists m :: 0 <= m < |events| && IsOutcome(events[m])) <==>
            && a.fate.setup.urlAccepted
            && (a.fate.setup.signing ==> a.fate.setup.keyLoaded || a.fate.setup.keyReadable)
            && !Raises(a.fate.reply.value)
    ensures forall m, n :: 0 <= m < |events| && 0 <= n < |events| && IsOutcome(events[m]) && IsOutcome(events[n]) ==>
              m == n && events[m].of == at
  {
    if !Forgotten(a.fate) {
      assert IsOutcome(events[1]);
    }
  }

  /** A probe that is forgotten: its transport could not be built, or the seller answered it
      with an error that cannot be. From then on the breaker admits nothing, however late, until
      the outcome of an older request comes. */
  lemma ForgottenProbe(threshold: int, cooldown: real, log: Log, a: Attempt, events: Log, more: Log, now: real)
    requires Tripped(threshold, log) && AttemptEvents(|log|, events, a) && Forgotten(a.fate)
    requires forall m :: 0 <= m < |more| ==> !IsOutcome(more[m])
    ensures !Allows(threshold, cooldown, log + events + more, now)
  {
    var after := log + events + more;
    assert after[..|log|] == log && after[|log|] == events[0];
    assert forall m :: |log| < m < |after| ==> after[m] == more[m - |log| - 1];
    UnansweredProbeBlocks(threshold, cooldown, after, |log|, now);
  }

  /** An error with a retry hint that no double can hold cannot be built. */
  lemma HugeHintForgotten(setup: Setup, e: AdcpError, p: Payload, contextLost: bool)
    requires e.retryAfter == Whole(FloatLimit()) && p.adcpError == Some(e)
    ensures Forgotten(Admitted(setup, Some(ToolFailed(p, contextLost))))
  {}

  /** A signing key that was never loaded and cannot be read any more: the attempt is admitted,
      connects to nothing and records nothing. */
  lemma MissingKeyForgotten(at: nat, events: Log, a: Attempt)
    requires AttemptEvents(at, events, a)
    requires a.fate.Admitted? && a.fate.setup == Setup(true, false, false, true)
    ensures Forgotten(a.fate) && events == [Ask(a.asked, true)] && Exchanges([a]) == []
  {
    ExchangesOfOne(a);
  }

  lemma LaterNotBefore(log: Log, now: real, e: Event, later: real)
    requires NotBefore(log, now) && now <= later && (e.Success? || e.at <= later)
    ensures NotBefore(log + [e], later)
  {
    assert forall k :: 0 <= k < |log| ==> (log + [e])[k] == log[k];
  }

  /** Record the outcome of an admitted request, or let the exception pass. */
  method RecordOutcome(b: CircuitBreaker, w: World, reply: Reply, ghost of: nat) returns (r: Outcome, ghost more: Log)
    requires Ready(b, w)
    modifies b, w
    ensures Ready(b, w) && w.now >= old(w.now) && w.slept == old(w.slept)
    ensures b.log == old(b.log) + more && r == OutcomeOf(reply)
    ensures if Raises(reply) then more == [] else |more| == 1 && Records(more[0], of, r)
  {
    ghost var before, start := b.log, w.now;
    r := OutcomeOf(reply);
    more := [];
    if Raises(reply) {
      assert before + more == before;
      return;
    }
    if CountsAsFailure(r) {
      var t := w.Clock();
      b.RecordFailure(t, of);
      more := [Failure(of, t)];
      LaterNotBefore(before, start, more[0], w.now);
    } else {
      b.RecordSuccess(of);
      more := [Success(of)];
      LaterNotBefore(before, start, more[0], w.now);
    }
  }

  /** An admitted attempt: build the transport, connect and call, and record the outcome. An
      exception from building the transport passes everything by. */
  method Connect(a: Agent, b: CircuitBreaker, w: World, params: Params, ghost of: nat, ghost asked: real)
    returns (r: Outcome, ghost attempt: Attempt, ghost more: Log)
    requires Ready(b, w)
    modifies a, b, w
    ensures Ready(b, w) && w.now >= old(w.now) && w.slept == old(w.slept)
    ensures attempt.params == params && attempt.asked == asked && attempt.outcome == r && Followed(of, more, attempt)
    ensures a.sent == old(a.sent) + Sends(attempt) && b.log == old(b.log) + more
  {
    var setup := a.Prepare();
    if !Builds(setup) {
      r := Err(INTERNAL);
      attempt, more := Attempt(params, asked, Admitted(setup, None), r), [];
      return;
    }
    var reply := a.Send(w, params);
    r, more := RecordOutcome(b, w, reply, of);
    attempt := Attempt(params, asked, Admitted(setup, Some(reply)), r);
  }

  /** What follows the admission of an attempt in the log. */
  ghost predicate Followed(of: nat, more: Log, a: Attempt) {
    && a.fate.Admitted? && (a.fate.reply.Some? <==> Builds(a.fate.setup)) && a.outcome == FateOutcome(a.fate.reply)
    && if Forgotten(a.fate) then more == [] else |more| == 1 && Records(more[0], of, a.outcome)
  }

  /** A rejected attempt. What is left of the cooldown goes into the message of its error only. */
  method Reject(b: CircuitBreaker, w: World, params: Params, ghost of: nat, ghost asked: real)
    returns (r: Outcome, ghost attempt: Attempt)
    requires Ready(b, w)
    modifies w
    ensures Ready(b, w) && w.now >= old(w.now) && w.slept == old(w.slept)
    ensures attempt == Attempt(params, asked, Rejected, r) && AttemptEvents(of, [Ask(asked, false)], attempt)
    ensures r.Err? && r.error.retryCount == 0
  {
    var t := w.Clock();
    var left := b.RemainingCooldown(t);
    var lost: bool := *;
    r := Err(CallError(CircuitOpen, Terminal, None, lost, 0));
    attempt := Attempt(params, asked, Rejected, r);
  }

  /** Ask the breaker for admission, at the present time. */
  method AskBreaker(b: CircuitBreaker, w: World) returns (admitted: bool, ghost asked: real)
    requires Ready(b, w)
    modifies b, w
    ensures Ready(b, w) && old(w.now) <= asked <= w.now && w.slept == old(w.slept)
    ensures b.log == old(b.log) + [Ask(asked, admitted)]
    ensures admitted <==> Allows(b.threshold, b.cooldown, old(b.log), asked)
  {
    ghost var before := b.log;
    var t := w.Clock();
    asked := t;
    admitted := b.AllowRequest(t);
    LaterNotBefore(before, t, Ask(t, admitted), t);
  }

  /** One attempt. It connects once when the breaker admits it and its transport can be built,
      and not at all otherwise. */
  method CallOnce(a: Agent, b: CircuitBreaker, w: World, params: Params)
    returns (r: Outcome, ghost attempt: Attempt, ghost events: Log)
    requires Ready(b, w)
    modifies a, b, w
    ensures Ready(b, w) && w.now >= old(w.now) && w.slept == old(w.slept)
    ensures attempt.params == params && attempt.outcome == r
    ensures b.log == old(b.log) + events && AttemptEvents(|old(b.log)|, events, attempt)
    ensures a.sent == old(a.sent) + Sends(attempt)
    ensures old(w.now) <= attempt.asked <= w.now
    ensures attempt.fate.Admitted? <==> Allows(b.threshold, b.cooldown, old(b.log), attempt.asked)
    ensures r.Err? ==> r.error.retryCount == 0
  {
    ghost var before := b.log;
    ghost var t: real;
    var admitted: bool;
    admitted, t := AskBreaker(b, w);
    if !admitted {
      r, attempt := Reject(b, w, params, |before|, t);
      events := [Ask(t, false)];
      NothingSent(a.sent, attempt);
    } else {
      ghost var more;
      r, attempt, more := Connect(a, b, w, params, |before|, t);
      events := [Ask(t, true)] + more;
      AdmittedEvents(before, t, more, attempt);
    }
  }

  lemma NothingSent(sent: seq<Exchange>, a: Attempt)
    requires a.fate.Rejected?
    ensures sent == sent + Sends(a)
  {}

  lemma AdmittedEvents(log: Log, t: real, more: Log, a: Attempt)
    requires Followed(|log|, more, a) && a.asked == t
    ensures AttemptEvents(|log|, [Ask(t, true)] + more, a)
    ensures log + [Ask(t, true)] + more == log + ([Ask(t, true)] + more)
  {}

  /** What a sequence of attempts sent. */
  function Exchanges(run: seq<Attempt>): seq<Exchange> {
    if run == [] then []
    else
      var last := run[|run| - 1];
      Exchanges(run[..|run| - 1]) + Sends(last)
  }

  function Sends(a: Attempt): seq<Exchange> {
    if a.fate.Admitted? && a.fate.reply.Some? then [Exchange(a.params, a.fate.reply.value)] else []
  }

  lemma ExchangesOfOne(a: Attempt)
    ensures Exchanges([a]) == Sends(a)
  {
    assert [a][..0] == [];
  }

  lemma ExchangesStep(most: seq<Attempt>, last: Attempt)
    ensures Exchanges(most + [last]) == Exchanges(most) + Sends(last)
  {
    assert (most + [last])[..|most|] == most;
  }

  lemma {:induction false} ExchangesAppend(run: seq<Attempt>, next: seq<Attempt>)
    ensures Exchanges(run + next) == Exchanges(run) + Exchanges(next)
    decreases |next|
  {
    if next == [] {
      assert run + next == run;
    } else {
      var most, last := next[..|next| - 1], next[|next| - 1];
      LastJoins(run, next);
      ExchangesAppend(run, most);
      ExchangesStep(run + most, last);
      ExchangesStep(most, last);
      Assoc(Exchanges(run), Exchanges(most), Sends(last));
    }
  }

  // ---- the retry loop ----

  /** What is waited at least after an attempt that is retried, when k retries were made before:
      what the seller asks for, or else three quarters of the doubling delay. */
  function WaitAfter(r: Outcome, k: nat): real {
    var hint := RetryHint(r);
    if hint.Some? && !OutOfRange(hint.value) then LeastDelay(hint.value, k) else 0.0
  }

  /** Every attempt but the first was made that long after the one before, when `first` retries
      were made before them all. */
  ghost predicate Spaced(first: nat, run: seq<Attempt>) {
    forall k :: 0 < k < |run| ==> run[k].asked >= run[k - 1].asked + WaitAfter(run[k - 1].outcome, first + k - 1)
  }

  /** Attempts that all failed in a way that may be retried, and was allowed to be. */
  ghost predicate AllRetryable(allowed: bool, params: Params, run: seq<Attempt>) {
    forall k :: 0 <= k < |run| ==> run[k].params == params && allowed && RetryHint(run[k].outcome).Some?
  }

  /** Attempts one tool call makes: all with the same parameters, and each but the last one
      retryable. */
  ghost predicate ToolRun(allowed: bool, params: Params, run: seq<Attempt>) {
    && run != [] && run[|run| - 1].params == params
    && AllRetryable(allowed, params, run[..|run| - 1])
  }

  /** The loop goes on: every attempt so far may be retried, and the last wait is over. */
  ghost predicate GoesOn(allowed: bool, params: Params, first: nat, run: seq<Attempt>, now: real) {
    && AllRetryable(allowed, params, run) && Spaced(first, run)
    && (run != [] ==> now >= run[|run| - 1].asked + WaitAfter(run[|run| - 1].outcome, first + |run| - 1))
  }

  lemma RunGrows(allowed: bool, params: Params, first: nat, run: seq<Attempt>, now: real, a: Attempt)
    requires GoesOn(allowed, params, first, run, now) && a.params == params && a.asked >= now
    ensures ToolRun(allowed, params, run + [a]) && Spaced(first, run + [a])
  {
    var next := run + [a];
    assert next[..|run|] == run && next[|run|] == a;
    forall k | 0 < k < |next|
      ensures next[k].asked >= next[k - 1].asked + WaitAfter(next[k - 1].outcome, first + k - 1)
    {
      assert next[k - 1] == run[k - 1] && (k < |run| ==> next[k] == run[k]);
    }
  }

  lemma RunGoesOn(allowed: bool, params: Params, first: nat, run: seq<Attempt>, now: real, a: Attempt, later: real,
                  k: nat)
    requires GoesOn(allowed, params, first, run, now) && a.params == params && a.asked >= now
    requires allowed && RetryHint(a.outcome).Some? && k == first + |run| && later >= a.asked + WaitAfter(a.outcome, k)
    ensures GoesOn(allowed, params, first, run + [a], later)
  {
    RunGrows(allowed, params, first, run, now, a);
    var next := run + [a];
    assert next[|run|] == a && forall k :: 0 <= k < |run| ==> next[k] == run[k];
  }

  lemma RunParams(allowed: bool, params: Params, run: seq<Attempt>, k: nat)
    requires ToolRun(allowed, params, run) && k < |run|
    ensures run[k].params == params
    ensures k < |run| - 1 ==> allowed && RetryHint(run[k].outcome).Some?
  {
    assert k < |run| - 1 ==> run[..|run| - 1][k] == run[k];
  }

  /** How many breaker events an attempt has. */
  function Width(a: Attempt): nat {
    if a.fate.Rejected? || Forgotten(a.fate) then 1 else 2
  }

  /** The breaker events of a sequence of attempts, attempt by attempt, from position `at` on. */
  ghost predicate RunEvents(at: nat, events: Log, run: seq<Attempt>)
    decreases |run|
  {
    if run == [] then events == []
    else
      var last := run[|run| - 1];
      var n := Width(last);
      && |events| >= n
      && AttemptEvents(at + |events| - n, events[|events| - n..], last)
      && RunEvents(at, events[..|events| - n], run[..|run| - 1])
  }

  lemma RunEventsGrow(at: nat, events: Log, run: seq<Attempt>, more: Log, a: Attempt)
    requires RunEvents(at, events, run) && AttemptEvents(at + |events|, more, a)
    ensures RunEvents(at, events + more, run + [a])
  {
    OutcomeFacts(at + |events|, more, a);
    assert (run + [a])[..|run|] == run;
    assert (events + more)[|events|..] == more && (events + more)[..|events|] == events;
  }

  /** A run happened between two states of the breaker's log and of the agent: it added these
      events, and the exchanges of its attempts. */
  ghost predicate Ran(log: Log, after: Log, sent: seq<Exchange>, sentAfter: seq<Exchange>, events: Log,
                      run: seq<Attempt>)
  {
    after == log + events && sentAfter == sent + Exchanges(run) && RunEvents(|log|, events, run)
  }

  /** The events of the last attempt, and those before. */
  lemma RunEventsLast(at: nat, events: Log, run: seq<Attempt>) returns (early: Log, late: Log)
    requires RunEvents(at, events, run) && run != []
    ensures events == early + late && RunEvents(at, early, run[..|run| - 1])
    ensures AttemptEvents(at + |early|, late, run[|run| - 1])
  {
    var n := |events| - Width(run[|run| - 1]);
    early, late := events[..n], events[n..];
  }

  /** The delays slept since `base` fit both the time that passed and the ceiling. */
  ghost predicate WithinBudget(budget: RetryBudget, w: World, base: real)
    reads budget, w
  {
    && budget.Valid() && budget.startedAt <= w.now
    && w.slept - base <= w.now - budget.startedAt
    && w.slept - base <= budget.maxSeconds
  }

  /** A result that is worth a retry, and is not retried because the budget may refuse. */
  ghost predicate GivesUp(r: Outcome, budget: RetryBudget, w: World)
    requires budget.attempted >= 0
    reads budget, w
  {
    RetryHint(r).Some? ==> !OutOfRange(RetryHint(r).value) && budget.MayRefuse(RetryHint(r).value, w.now)
  }

  /** The body of the loop up to its sleep: one attempt, and the delay before the next one or
      None when this was the last. */
  method TryOnce(allowed: bool, a: Agent, b: CircuitBreaker, budget: RetryBudget, w: World, params: Params,
                 ghost base: real)
    returns (r: Outcome, delay: Option<real>, ghost attempt: Attempt, ghost more: Log)
    requires Ready(b, w) && WithinBudget(budget, w, base)
    modifies a, b, w, budget
    ensures Ready(b, w) && WithinBudget(budget, w, base) && w.slept == old(w.slept)
    ensures attempt.params == params && a.sent == old(a.sent) + Sends(attempt)
    ensures b.log == old(b.log) + more && AttemptEvents(|old(b.log)|, more, attempt)
    ensures budget.attempted == old(budget.attempted) + (if delay.Some? then 1 else 0)
    ensures delay.Some? ==> allowed && RetryHint(attempt.outcome).Some?
    ensures delay.Some? ==> delay.value >= 1.0 && w.now - budget.startedAt + delay.value <= budget.maxSeconds
    ensures old(w.now) <= attempt.asked <= w.now
    ensures delay.Some? ==> delay.value >= WaitAfter(attempt.outcome, old(budget.attempted))
    ensures delay.None? ==> r == Final(attempt.outcome, budget.attempted)
    ensures delay.None? && allowed ==> GivesUp(r, budget, w)
  {
    ghost var at := |b.log|;
    r, attempt, more := CallOnce(a, b, w, params);
    OutcomeFacts(at, more, attempt);
    HintFacts(r, budget.attempted);
    var hint := RetryHint(r);
    delay := None;
    if hint.Some? && allowed {
      var rng := w.Random();
      var now := w.Clock();
      var granted := budget.NextDelay(hint.value, rng, now);
      delay := granted.value;
    }
    if delay.None? {
      r := Final(r, budget.attempted);
    }
  }

  /** The body of the loop, with its sleep. `run` goes on with one more attempt, and there will
      be another one exactly when `again`. */
  method TryAndRest(allowed: bool, a: Agent, b: CircuitBreaker, budget: RetryBudget, w: World, params: Params,
                    ghost base: real, ghost first: nat, ghost log0: Log, ghost sent0: seq<Exchange>,
                    ghost events0: Log, ghost run0: seq<Attempt>)
    returns (r: Outcome, again: bool, ghost run: seq<Attempt>, ghost events: Log)
    requires Ready(b, w) && WithinBudget(budget, w, base)
    requires Ran(log0, b.log, sent0, a.sent, events0, run0) && GoesOn(allowed, params, first, run0, w.now)
    requires |run0| == budget.attempted - first
    modifies a, b, w, budget
    ensures Ready(b, w) && WithinBudget(budget, w, base)
    ensures Ran(log0, b.log, sent0, a.sent, events, run) && |run| == |run0| + 1
    ensures budget.attempted == old(budget.attempted) + (if again then 1 else 0)
    ensures again ==> GoesOn(allowed, params, first, run, w.now)
    ensures !again ==> ToolRun(allowed, params, run) && Spaced(first, run)
    ensures !again ==> r == Final(run[|run| - 1].outcome, budget.attempted)
    ensures !again && allowed ==> GivesUp(r, budget, w)
  {
    ghost var start, k := w.now, budget.attempted;
    ghost var more: Log, attempt: Attempt;
    var delay: Option<real>;
    r, delay, attempt, more := TryOnce(allowed, a, b, budget, w, params, base);
    Grows(log0, b.log, sent0, a.sent, events0, run0, more, attempt);
    run, events, again := run0 + [attempt], events0 + more, delay.Some?;
    if again {
      w.Sleep(delay.value);
      RunGoesOn(allowed, params, first, run0, start, attempt, w.now, k);
    } else {
      RunGrows(allowed, params, first, run0, start, attempt);
    }
  }

  /** Attempts until one is not to be repeated. `base` is what had been slept when the budget
      was started. */
  method RetryLoop(allowed: bool, a: Agent, b: CircuitBreaker, budget: RetryBudget, w: World, params: Params,
                   ghost base: real)
    returns (r: Outcome, ghost run: seq<Attempt>, ghost events: Log)
    requires Ready(b, w) && WithinBudget(budget, w, base)
    modifies a, b, w, budget
    ensures Ready(b, w) && WithinBudget(budget, w, base)
    ensures Ran(old(b.log), b.log, old(a.sent), a.sent, events, run) && ToolRun(allowed, params, run)
    ensures |run| == 1 + budget.attempted - old(budget.attempted) && Spaced(old(budget.attempted), run)
    ensures r == Final(run[|run| - 1].outcome, budget.attempted)
    ensures allowed ==> GivesUp(r, budget, w)
  {
    run, events := [], [];
    ghost var log0, sent0, first := b.log, a.sent, budget.attempted;
    while true
      invariant Ready(b, w) && WithinBudget(budget, w, base)
      invariant Ran(log0, b.log, sent0, a.sent, events, run)
      invariant |run| == budget.attempted - first && GoesOn(allowed, params, first, run, w.now)
      decreases budget.maxRetries - budget.attempted
    {
      var again;
      r, again, run, events := TryAndRest(allowed, a, b, budget, w, params, base, first, log0, sent0, events, run);
      if !again {
        return;
      }
    }
  }

  lemma Grows(log: Log, after: Log, sent: seq<Exchange>, sentAfter: seq<Exchange>, events: Log, run: seq<Attempt>,
              more: Log, a: Attempt)
    requires after == log + events + more && sentAfter == sent + Exchanges(run) + Sends(a)
    requires RunEvents(|log|, events, run) && AttemptEvents(|log + events|, more, a)
    ensures Ran(log, after, sent, sentAfter, events + more, run + [a])
  {
    RunEventsGrow(|log|, events, run, more, a);
    ExchangesStep(run, a);
    Assoc(sent, Exchanges(run), Sends(a));
    Assoc(log, events, more);
  }

  /** Call a tool: retries are made as long as they are permitted, useful and paid for. */
  method CallSellerTool(a: Agent, b: CircuitBreaker, budget: RetryBudget, w: World,
                        tool: string, params: Params, ghost base: real)
    returns (r: Outcome, ghost run: seq<Attempt>, ghost events: Log)
    requires Ready(b, w) && WithinBudget(budget, w, base)
    modifies a, b, w, budget
    ensures Ready(b, w) && WithinBudget(budget, w, base)
    ensures Ran(old(b.log), b.log, old(a.sent), a.sent, events, run)
    ensures ToolRun(RetryPermitted(a.idempotent, tool, params), params, run)
    ensures |run| == 1 + budget.attempted - old(budget.attempted) && Spaced(old(budget.attempted), run)
    ensures r == Final(run[|run| - 1].outcome, budget.attempted)
    ensures RetryPermitted(a.idempotent, tool, params) ==> GivesUp(r, budget, w)
    // a mutation is made once, unless the seller replays safely and there is a key; any other
    // call that ends with a retryable result does so because the budget may refuse
    ensures var once :=
              && tool in [
                "create_media_buy", "update_media_buy", "buy_products", "accept_proposal", "control_media_buy",
                "sync_creatives", "sync_accounts", "sync_catalogs", "sync_event_sources", "sync_audiences",
                "sync_governance", "activate_signal", "provide_performance_feedback", "report_usage",
                "log_event", "acquire_rights", "request_proposals", "refine_proposals", "decline_proposals"]
              && !(a.idempotent && "idempotency_key" in params && params["idempotency_key"] != "");
            && (once ==> |run| == 1 && |a.sent| <= |old(a.sent)| + 1)
            && (!once && RetryHint(r).Some? ==>
                  !OutOfRange(RetryHint(r).value) && budget.MayRefuse(RetryHint(r).value, w.now))
  {
    var allowed := RetryPermitted(a.idempotent, tool, params);
    r, run, events := RetryLoop(allowed, a, b, budget, w, params, base);
    PermittedExactly(a.idempotent, tool, params);
    if !allowed {
      UnpermittedSentOnce(params, run);
    }
  }

  // ---- what a run costs ----

  /** A mutation that may not be repeated is attempted once. The seller is called once, or not
      at all when the breaker rejects the attempt or its transport cannot be built. */
  lemma UnpermittedSentOnce(params: Params, run: seq<Attempt>)
    requires ToolRun(false, params, run)
    ensures |run| == 1
    ensures Exchanges(run) == Sends(run[0]) && |Exchanges(run)| <= 1
  {
    RunParams(false, params, run, 0);
    var a := run[0];
    assert run == [a] && a.params == params;
    ExchangesOfOne(a);
  }

  lemma {:induction false} RejectedIsTerminal(at: nat, run: seq<Attempt>, events: Log, k: nat)
    requires RunEvents(at, events, run) && k < |run|
    ensures run[k].fate.Rejected? ==> RetryHint(run[k].outcome).None?
    decreases |run|
  {
    if k == |run| - 1 {
    } else {
      var early, late := RunEventsLast(at, events, run);
      RejectedIsTerminal(at, run[..|run| - 1], early, k);
    }
  }

  /** An open circuit ends the run: only its last attempt can have met one. */
  lemma OpenCircuitEndsRun(allowed: bool, params: Params, at: nat, run: seq<Attempt>, events: Log, k: nat)
    requires ToolRun(allowed, params, run) && RunEvents(at, events, run)
    requires k < |run| && run[k].fate.Rejected?
    ensures k == |run| - 1
  {
    RejectedIsTerminal(at, run, events, k);
    RunParams(allowed, params, run, k);
  }

  /** Attempts whose recorded outcome was a failure. */
  function Failures(run: seq<Attempt>): nat {
    if run == [] then 0
    else Failures(run[..|run| - 1]) + (if CountsAsFailure(run[|run| - 1].outcome) then 1 else 0)
  }

  /** Failures among events. */
  function FailureEvents(events: Log): nat {
    if events == [] then 0
    else FailureEvents(events[..|events| - 1]) + (if events[|events| - 1].Failure? then 1 else 0)
  }

  lemma {:induction false} FailureEventsAppend(events: Log, more: Log)
    ensures FailureEvents(events + more) == FailureEvents(events) + FailureEvents(more)
    decreases |more|
  {
    if more == [] {
      assert events + more == events;
    } else {
      FailureEventsAppend(events, more[..|more| - 1]);
      assert (events + more)[..|events + more| - 1] == events + more[..|more| - 1];
    }
  }

  lemma AttemptFailures(at: nat, events: Log, a: Attempt)
    requires AttemptEvents(at, events, a)
    ensures FailureEvents(events) == if CountsAsFailure(a.outcome) then 1 else 0
  {
    OutcomeFacts(at, events, a);
    OneFailureEvent(events[0]);
    if |events| == 1 {
      assert events == [events[0]];
    } else {
      assert events == [events[0]] + [events[1]];
      OneFailureEvent(events[1]);
      FailureEventsAppend([events[0]], [events[1]]);
    }
  }

  lemma OneFailureEvent(e: Event)
    ensures FailureEvents([e]) == if e.Failure? then 1 else 0
  {
    assert [e][..0] == [];
  }

  lemma {:induction false} FailsGrow(log: Log, events: Log)
    ensures Fails(log + events) <= Fails(log) + FailureEvents(events)
    ensures NoSuccess(events, 0) ==> Fails(log + events) == Fails(log) + FailureEvents(events)
    decreases |events|
  {
    if events == [] {
      assert log + events == log;
    } else {
      var most := events[..|events| - 1];
      FailsGrow(log, most);
      assert (log + events)[..|log + events| - 1] == log + most;
    }
  }

  /** The failures a run records are those of its attempts: over the run the failure count
      grows by at most them, and by exactly them when nothing succeeded. */
  lemma {:induction false} RunFailures(log: Log, events: Log, run: seq<Attempt>)
    requires RunEvents(|log|, events, run)
    ensures FailureEvents(events) == Failures(run) <= |run|
    ensures Fails(log + events) <= Fails(log) + Failures(run)
    ensures NoSuccess(events, 0) ==> Fails(log + events) == Fails(log) + Failures(run)
    decreases |run|
  {
    if run == [] {
    } else {
      var early, late := RunEventsLast(|log|, events, run);
      RunFailures(log, early, run[..|run| - 1]);
      AttemptFailures(|log| + |early|, late, run[|run| - 1]);
      FailureEventsAppend(early, late);
    }
    FailsGrow(log, events);
  }

  /** What a run adds to an attributed log is attributed: every outcome it records is that of
      its own request. */
  lemma {:induction false} RunAttributed(log: Log, events: Log, run: seq<Attempt>)
    requires RunEvents(|log|, events, run) && Attributed(log)
    ensures Attributed(log + events)
    decreases |run|
  {
    if run == [] {
      assert log + events == log;
    } else {
      var early, late := RunEventsLast(|log|, events, run);
      RunAttributed(log, early, run[..|run| - 1]);
      AttemptAttributed(log + early, late, run[|run| - 1]);
      Assoc(log, early, late);
    }
  }

  lemma AttemptAttributed(log: Log, events: Log, a: Attempt)
    requires Attributed(log) && AttemptEvents(|log|, events, a)
    ensures Attributed(log + events)
  {
    OutcomeFacts(|log|, events, a);
    var next := log + events;
    assert forall k :: 0 <= k < |log| ==> next[k] == log[k];
    assert next[|log|] == events[0] && (|events| == 2 ==> next[|log| + 1] == events[1]);
  }

  // ---- the session ----

  datatype Task = Task(tool: string, status: string)

  /** The parameters a session sends: the caller's, with the session's context and the optional
      application context and webhook configuration put over them. */
  function FullParams(params: Params, contextId: string, context: Option<string>, push: Option<string>): Params {
    var p1 := if contextId != "" then params["context_id" := contextId] else params;
    var p2 := if context.Some? then p1["context" := context.value] else p1;
    if push.Some? then p2["push_notification_config" := push.value] else p2
  }

  /** Which parameters are sent: the context of the session unless it has none, the application
      context and the webhook configuration when they are given, and everything else as the
      caller has it. */
  lemma FullParamsExactly(params: Params, contextId: string, context: Option<string>, push: Option<string>)
    ensures var full := FullParams(params, contextId, context, push);
            && (contextId != "" ==> "context_id" in full && full["context_id"] == contextId)
            && (context.Some? ==> "context" in full && full["context"] == context.value)
            && (push.Some? ==> "push_notification_config" in full && full["push_notification_config"] == push.value)
            && forall key ::
                 (key == "context_id" ==> contextId == "") && (key == "context" ==> context.None?)
                 && (key == "push_notification_config" ==> push.None?) ==>
                   (key in full <==> key in params) && (key in params ==> full[key] == params[key])
  {
    assert "context_id" != "context" && "context_id" != "push_notification_config"
           && "context" != "push_notification_config";
  }

  /** The session changes nothing about whether a call may be repeated. */
  lemma PermittedAlike(idempotent: bool, tool: string, params: Params, contextId: string, context: Option<string>,
                       push: Option<string>)
    ensures RetryPermitted(idempotent, tool, FullParams(params, contextId, context, push)) <==>
            RetryPermitted(idempotent, tool, params)
  {}

  class SellerSession {
    const agent: Agent
    const breaker: CircuitBreaker
    /** The context of the conversation; "" when there is none. */
    var contextId: string
    var activeTasks: map<string, Task>

    constructor (agent: Agent, breaker: CircuitBreaker)
      ensures contextId == "" && activeTasks == map[]
      ensures this.agent == agent && this.breaker == breaker
    {
      this.agent, this.breaker := agent, breaker;
      contextId, activeTasks := "", map[];
    }

    method Reset()
      modifies this
      ensures contextId == "" && activeTasks == map[]
    {
      contextId, activeTasks := "", map[];
    }

    method Call(w: World, budget: RetryBudget, tool: string, params: Params,
                context: Option<string>, push: Option<string>, ghost base: real)
      returns (r: Outcome, ghost run: seq<Attempt>, ghost events: Log)
      requires Ready(breaker, w) && WithinBudget(budget, w, base)
      modifies this, agent, breaker, w, budget
      ensures Ready(breaker, w) && WithinBudget(budget, w, base)
      ensures Ran(old(breaker.log), breaker.log, old(agent.sent), agent.sent, events, run)
      ensures var full := FullParams(params, old(contextId), context, push);
              ToolRun(RetryPermitted(agent.idempotent, tool, full), full, run)
      ensures |run| == 1 + budget.attempted - old(budget.attempted) && Spaced(old(budget.attempted), run)
      ensures r == Final(run[|run| - 1].outcome, budget.attempted)
      ensures RetryPermitted(agent.idempotent, tool, params) ==> GivesUp(r, budget, w)
      ensures contextId == ContextAfter(r, old(contextId))
      ensures activeTasks ==
              if r.Ok? && r.value.taskId.Some?
              then old(activeTasks)[r.value.taskId.value :=
                     Task(tool, if r.value.status.Some? then r.value.status.value else "unknown")]
              else old(activeTasks)
    {
      var full := FullParams(params, contextId, context, push);
      PermittedAlike(agent.idempotent, tool, params, contextId, context, push);
      r, run, events := CallSellerTool(agent, breaker, budget, w, tool, full, base);
      if r.Ok? {
        if r.value.contextId.Some? {
          contextId := r.value.contextId.value;
        }
        if r.value.taskId.Some? {
          var status := if r.value.status.Some? then r.value.status.value else "unknown";
          activeTasks := activeTasks[r.value.taskId.value := Task(tool, status)];
        }
      }
    }

    /** The resend after a lost context: it consumes a retry and starts without a context. Its
        attempts follow those of the call, `run0`. */
    method Resend(w: World, budget: RetryBudget, tool: string, params: Params, context: Option<string>,
                  push: Option<string>, ghost base: real, ghost context0: string, ghost log0: Log,
                  ghost sent0: seq<Exchange>, ghost events0: Log, ghost run0: seq<Attempt>)
      returns (r: Outcome, ghost run: seq<Attempt>, ghost events: Log)
      requires Ready(breaker, w) && WithinBudget(budget, w, base) && !budget.Exhausted()
      requires Ran(log0, breaker.log, sent0, agent.sent, events0, run0) && |run0| == 1 + budget.attempted
      requires var first := FullParams(params, context0, context, push);
               ToolRun(RetryPermitted(agent.idempotent, tool, first), first, run0)
      requires run0[|run0| - 1].outcome.Err? && run0[|run0| - 1].outcome.error.contextLost && Spaced(0, run0)
      modifies this, agent, breaker, w, budget
      ensures Ready(breaker, w) && WithinBudget(budget, w, base)
      ensures Ran(log0, breaker.log, sent0, agent.sent, events, run)
      ensures TwoRuns(agent.idempotent, tool, params, context0, context, push, run, |run0|)
      ensures Resent(run, |run0|, budget.maxRetries) && |run0| < |run| == 1 + budget.attempted
      ensures r == Final(run[|run| - 1].outcome, |run| - 1)
      ensures RetryPermitted(agent.idempotent, tool, params) ==> GivesUp(r, budget, w)
      ensures contextId == ContextAfter(r, "")
    {
      ghost var log1, sent1 := breaker.log, agent.sent;
      budget.attempted := budget.attempted + 1;
      Reset();
      r, run, events := Call(w, budget, tool, params, context, push, base);
      JoinLogs(log0, log1, breaker.log, sent0, sent1, agent.sent, events0, run0, events, run);
      JoinRuns(agent.idempotent, tool, params, context0, context, push, run0, run, budget.maxRetries);
      run, events := run0 + run, events0 + events;
    }

    /** A call, and the resend when the seller lost the context, under one budget. The first
        `cut` attempts belong to the call. */
    method CallAndResend(w: World, budget: RetryBudget, tool: string, params: Params,
                         context: Option<string>, push: Option<string>, ghost base: real)
      returns (r: Outcome, ghost run: seq<Attempt>, ghost cut: nat, ghost events: Log)
      requires Ready(breaker, w) && WithinBudget(budget, w, base) && budget.attempted == 0
      modifies this, agent, breaker, w, budget
      ensures Ready(breaker, w) && WithinBudget(budget, w, base)
      ensures Ran(old(breaker.log), breaker.log, old(agent.sent), agent.sent, events, run)
      ensures TwoRuns(agent.idempotent, tool, params, old(contextId), context, push, run, cut)
      ensures Resent(run, cut, budget.maxRetries)
      ensures r == Final(run[|run| - 1].outcome, |run| - 1)
      ensures RetryPermitted(agent.idempotent, tool, params) ==> GivesUp(r, budget, w)
      ensures contextId == ContextAfter(r, if cut < |run| then "" else old(contextId))
      ensures |run| == 1 + budget.attempted
    {
      ghost var log0, sent0, context0 := breaker.log, agent.sent, contextId;
      r, run, events := Call(w, budget, tool, params, context, push, base);
      cut := |run|;
      LostInLast(run, cut - 1);
      if !(r.Err? && r.error.contextLost) || budget.Exhausted() {
        NotResent(agent.idempotent, tool, params, context0, context, push, run, budget.maxRetries);
        return;
      }
      r, run, events := Resend(w, budget, tool, params, context, push, base, context0, log0, sent0, events, run);
    }

    /** An operation under a budget of its own, which starts at `start`. */
    method CallWithin(w: World, maxRetries: int, maxSeconds: real, tool: string, params: Params,
                      context: Option<string>, push: Option<string>)
      returns (r: Outcome, ghost run: seq<Attempt>, ghost cut: nat, ghost events: Log, ghost start: real)
      requires Ready(breaker, w)
      modifies this, agent, breaker, w
      ensures Ready(breaker, w)
      ensures Ran(old(breaker.log), breaker.log, old(agent.sent), agent.sent, events, run)
      ensures TwoRuns(agent.idempotent, tool, params, old(contextId), context, push, run, cut)
      ensures Resent(run, cut, if maxRetries < 0 then 0 else if maxRetries > 3 then 3 else maxRetries)
      ensures r == Final(run[|run| - 1].outcome, |run| - 1)
      ensures contextId == ContextAfter(r, if cut < |run| then "" else old(contextId))
      // at most one attempt more than the clamped number of retries
      ensures |run| <= 1 + (if maxRetries < 0 then 0 else if maxRetries > 3 then 3 else maxRetries)
      // the delays of the whole operation fit the clamped ceiling
      ensures w.slept - old(w.slept) <=
              if maxSeconds < 0.0 then 0.0 else if maxSeconds > 300.0 then 300.0 else maxSeconds
      ensures old(w.now) <= start <= w.now
      ensures RetryPermitted(agent.idempotent, tool, params) && RetryHint(r).Some? ==>
                && !OutOfRange(RetryHint(r).value)
                && (|run| - 1 >= (if maxRetries < 0 then 0 else if maxRetries > 3 then 3 else maxRetries)
                    || w.now - start + MostDelay(RetryHint(r).value, |run| - 1) >
                       if maxSeconds < 0.0 then 0.0 else if maxSeconds > 300.0 then 300.0 else maxSeconds)
    {
      var started := w.Clock();
      start := started;
      var budget := new RetryBudget(maxRetries, maxSeconds, started);
      r, run, cut, events := CallAndResend(w, budget, tool, params, context, push, w.slept);
    }

    /** One operation under a budget of its own, with the configured limits clamped. */
    method CallWithRetry(w: World, maxRetries: int, maxSeconds: real, tool: string, params: Params,
                         context: Option<string>, push: Option<string>)
      returns (r: Outcome, ghost run: seq<Attempt>, ghost cut: nat, ghost events: Log, ghost start: real)
      requires Ready(breaker, w)
      modifies this, agent, breaker, w
      ensures Ready(breaker, w)
      ensures Ran(old(breaker.log), breaker.log, old(agent.sent), agent.sent, events, run)
      ensures TwoRuns(agent.idempotent, tool, params, old(contextId), context, push, run, cut)
      ensures Resent(run, cut, if maxRetries < 0 then 0 else if maxRetries > 3 then 3 else maxRetries)
      ensures r == Final(run[|run| - 1].outcome, |run| - 1)
      ensures contextId == ContextAfter(r, if cut < |run| then "" else old(contextId))
      // at most one attempt more than the clamped number of retries
      ensures |run| <= 1 + (if maxRetries < 0 then 0 else if maxRetries > 3 then 3 else maxRetries)
      // the delays of the whole operation fit the clamped ceiling
      ensures w.slept - old(w.slept) <=
              if maxSeconds < 0.0 then 0.0 else if maxSeconds > 300.0 then 300.0 else maxSeconds
      // a mutation is made once by the call and once by the resend, unless the seller replays
      // safely and there is a key; any other operation that ends with a retryable result does so
      // because no retry is left, or because some jitter takes the wait past the ceiling
      ensures old(w.now) <= start <= w.now
      ensures var once :=
                && tool in [
                  "create_media_buy", "update_media_buy", "buy_products", "accept_proposal", "control_media_buy",
                  "sync_creatives", "sync_accounts", "sync_catalogs", "sync_event_sources", "sync_audiences",
                  "sync_governance", "activate_signal", "provide_performance_feedback", "report_usage",
                  "log_event", "acquire_rights", "request_proposals", "refine_proposals", "decline_proposals"]
                && !(agent.idempotent && "idempotency_key" in params && params["idempotency_key"] != "");
              && (once ==> OnceEach(run, cut))
              && (!once && RetryHint(r).Some? ==>
                    && !OutOfRange(RetryHint(r).value)
                    && (|run| - 1 >= (if maxRetries < 0 then 0 else if maxRetries > 3 then 3 else maxRetries)
                        || w.now - start + MostDelay(RetryHint(r).value, |run| - 1) >
                           if maxSeconds < 0.0 then 0.0 else if maxSeconds > 300.0 then 300.0 else maxSeconds))
    {
      r, run, cut, events, start := CallWithin(w, maxRetries, maxSeconds, tool, params, context, push);
      PermittedExactly(agent.idempotent, tool, params);
      if !RetryPermitted(agent.idempotent, tool, params) {
        UnpermittedOnceEach(agent.idempotent, tool, params, old(contextId), context, push, run, cut);
      }
    }
  }

  /** The context a session holds after a result: that of an answer, or the one it had. */
  function ContextAfter(r: Outcome, before: string): string {
    if r.Ok? && r.value.contextId.Some? then r.value.contextId.value else before
  }

  /** The call ended with a lost context exactly when its last attempt did. */
  lemma LostInLast(run: seq<Attempt>, retries: int)
    requires run != []
    ensures var r := Final(run[|run| - 1].outcome, retries);
            r.Err? && r.error.contextLost <==>
            run[|run| - 1].outcome.Err? && run[|run| - 1].outcome.error.contextLost
  {}

  /** Two runs, one after the other, are one. */
  lemma JoinLogs(log: Log, middle: Log, after: Log, sent: seq<Exchange>, sentMiddle: seq<Exchange>,
                 sentAfter: seq<Exchange>, events: Log, run: seq<Attempt>, more: Log, next: seq<Attempt>)
    requires Ran(log, middle, sent, sentMiddle, events, run) && Ran(middle, after, sentMiddle, sentAfter, more, next)
    ensures Ran(log, after, sent, sentAfter, events + more, run + next)
  {
    RunEventsAppend(|log|, events, run, more, next);
    ExchangesAppend(run, next);
    Assoc(sent, Exchanges(run), Exchanges(next));
    Assoc(log, events, more);
  }

  lemma NotResent(idempotent: bool, tool: string, params: Params, contextId: string,
                  context: Option<string>, push: Option<string>, run: seq<Attempt>, retries: int)
    requires var first := FullParams(params, contextId, context, push);
             ToolRun(RetryPermitted(idempotent, tool, first), first, run)
    requires !(run[|run| - 1].outcome.Err? && run[|run| - 1].outcome.error.contextLost && |run| - 1 < retries)
    requires Spaced(0, run)
    ensures TwoRuns(idempotent, tool, params, contextId, context, push, run, |run|)
    ensures Resent(run, |run|, retries)
  {
    assert run[..|run|] == run;
  }

  lemma JoinRuns(idempotent: bool, tool: string, params: Params, contextId: string, context: Option<string>,
                 push: Option<string>, run: seq<Attempt>, next: seq<Attempt>, retries: int)
    requires var first := FullParams(params, contextId, context, push);
             ToolRun(RetryPermitted(idempotent, tool, first), first, run)
    requires run[|run| - 1].outcome.Err? && run[|run| - 1].outcome.error.contextLost && |run| - 1 < retries
    requires var again := FullParams(params, "", context, push);
             ToolRun(RetryPermitted(idempotent, tool, again), again, next)
    requires Spaced(0, run) && Spaced(|run|, next)
    ensures TwoRuns(idempotent, tool, params, contextId, context, push, run + next, |run|)
    ensures Resent(run + next, |run|, retries)
    ensures |run + next| > |run| && (run + next)[|run + next| - 1] == next[|next| - 1]
  {
    assert (run + next)[..|run|] == run && (run + next)[|run|..] == next;
    assert (run + next)[|run| - 1] == run[|run| - 1];
  }

  /** The attempts of one operation: those of the call, with the session's context, and those
      of the resend, without it; there is a resend only after the context was lost. Only the
      resend itself comes without a wait. */
  ghost predicate TwoRuns(idempotent: bool, tool: string, params: Params, contextId: string,
                          context: Option<string>, push: Option<string>, run: seq<Attempt>, cut: nat)
  {
    var first := FullParams(params, contextId, context, push);
    var again := FullParams(params, "", context, push);
    && cut <= |run|
    && ToolRun(RetryPermitted(idempotent, tool, first), first, run[..cut]) && Spaced(0, run[..cut])
    && (cut < |run| ==>
          && Spaced(cut, run[cut..])
          && run[cut - 1].outcome.Err? && run[cut - 1].outcome.error.contextLost
          && ToolRun(RetryPermitted(idempotent, tool, again), again, run[cut..]))
  }

  /** There is a resend exactly when the call ended with a lost context and a retry was left. */
  ghost predicate Resent(run: seq<Attempt>, cut: nat, retries: int) {
    && 0 < cut <= |run|
    && (cut < |run| <==> run[cut - 1].outcome.Err? && run[cut - 1].outcome.error.contextLost && cut - 1 < retries)
  }

  /** The call makes one attempt and the resend at most one, and each calls the seller once at
      most. */
  ghost predicate OnceEach(run: seq<Attempt>, cut: nat) {
    && cut == 1 <= |run| && |Exchanges(run[..cut])| <= 1
    && |run[cut..]| <= 1 && |Exchanges(run[cut..])| <= 1
  }

  lemma UnpermittedOnceEach(idempotent: bool, tool: string, params: Params, contextId: string,
                            context: Option<string>, push: Option<string>, run: seq<Attempt>, cut: nat)
    requires TwoRuns(idempotent, tool, params, contextId, context, push, run, cut)
    requires !RetryPermitted(idempotent, tool, params)
    ensures OnceEach(run, cut)
  {
    PermittedAlike(idempotent, tool, params, contextId, context, push);
    PermittedAlike(idempotent, tool, params, "", context, push);
    UnpermittedSentOnce(FullParams(params, contextId, context, push), run[..cut]);
    if cut < |run| {
      UnpermittedSentOnce(FullParams(params, "", context, push), run[cut..]);
    }
  }

  lemma ContextIsOneKey(params: Params, contextId: string, context: Option<string>, push: Option<string>)
    ensures FullParams(params, contextId, context, push) - {"context_id"} ==
            FullParams(params, "", context, push) - {"context_id"}
  {}

  /** All attempts of an operation carry the same parameters except the context. */
  lemma OnlyContextDiffers(idempotent: bool, tool: string, params: Params, contextId: string,
                           context: Option<string>, push: Option<string>, run: seq<Attempt>, cut: nat, i: nat, j: nat)
    requires TwoRuns(idempotent, tool, params, contextId, context, push, run, cut)
    requires i < |run| && j < |run|
    ensures run[i].params - {"context_id"} == run[j].params - {"context_id"}
  {
    ContextIsOneKey(params, contextId, context, push);
    forall k | 0 <= k < |run|
      ensures run[k].params == FullParams(params, contextId, context, push)
              || run[k].params == FullParams(params, "", context, push)
    {
      if k < cut {
        var first := FullParams(params, contextId, context, push);
        RunParams(RetryPermitted(idempotent, tool, first), first, run[..cut], k);
      } else {
        var again := FullParams(params, "", context, push);
        RunParams(RetryPermitted(idempotent, tool, again), again, run[cut..], k - cut);
      }
    }
  }

  /** One operation alone, of at most four attempts, never opens a breaker that was four
      failures or more below its threshold, at any of its steps: with no failure recorded and
      the default threshold of five the circuit stays closed throughout. */
  lemma OperationKeepsClosed(threshold: int, log: Log, events: Log, run: seq<Attempt>, n: nat)
    requires RunEvents(|log|, events, run) && |run| <= 4 && n <= |events|
    requires Fails(log) + 4 < threshold
    ensures !Tripped(threshold, log + events[..n])
  {
    RunFailures(log, events, run);
    CutJoins(events, n);
    FailureEventsAppend(events[..n], events[n..]);
    FailsGrow(log, events[..n]);
  }

  lemma RunEventsJoin(at: nat, events: Log, run: seq<Attempt>, early: Log, most: seq<Attempt>, late: Log, last: Attempt)
    requires RunEvents(at, events + early, run + most) && AttemptEvents(at + |events + early|, late, last)
    ensures RunEvents(at, events + (early + late), run + (most + [last]))
  {
    RunEventsGrow(at, events + early, run + most, late, last);
    Assoc(events, early, late);
    Assoc(run, most, [last]);
  }

  lemma {:induction false} RunEventsAppend(at: nat, events: Log, run: seq<Attempt>, more: Log, next: seq<Attempt>)
    requires RunEvents(at, events, run) && RunEvents(at + |events|, more, next)
    ensures RunEvents(at, events + more, run + next)
    decreases |next|
  {
    if next == [] {
      assert events + more == events && run + next == run;
    } else {
      var most, last := next[..|next| - 1], next[|next| - 1];
      var early, late := RunEventsLast(at + |events|, more, next);
      RunEventsAppend(at, events, run, early, most);
      RunEventsJoin(at, events, run, early, most, late, last);
      LastJoins(run, next);
    }
  }
}
