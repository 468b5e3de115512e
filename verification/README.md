# Verification model of the buyer agent

This project models the parts of the buyer agent where a mistake would be expensive and hard
to see, and proves what those parts are for:

- **URLs as identifiers** (`Percent.dfy`, `DotSegments.dfy`, `UrlCanon.dfy`,
  `UrlFixedPoint.dfy`, `UrlMeaning.dfy`, `Signing.dfy`): percent normalization, dot-segment removal,
  splitting and reassembly, comparison of URLs, what a URL is read as and what comes out of it, and the
  signature base built on them.
- **Calling an unreliable seller** (`CircuitBreaker.dfy`, `Retry.dfy`, `Seller.dfy`,
  `ExceptionSearch.dfy`): the breaker and its clock, the retry budget, the retry loop, the session
  that shares the budget, and the search for a status in a graph of exceptions.
- **Limiting, tracking, polling** (`RateLimiter.dfy`, `Tracker.dfy`, `Poller.dfy`).
- **Authorization over cached documents** (`Adagents.dfy`, `BrandResolver.dfy`, `TtlCache.dfy`,
  `SafeFetch.dfy`).

`Wrappers.dfy`, `Text.dfy` and `Environment.dfy` hold result types, string operations, and clock,
sleep and random numbers. Objects the program updates in place are classes with a ghost log of what
happened to them; their methods are proved against functions of that log, and the theorems about
whole runs are lemmas about logs. Tables and rules that decide an answer (codes, tools, ports,
intervals, tags, statuses) are used by the operations under a name and stated a second time, written
out, in a law about it. `dafny verify dfyconfig.toml` checks everything.

## How the world is modelled

- Time is real-valued. The clock is monotone, a sleep lasts at least its delay, a random number
  lies in [0, 1). Nothing else is known of them: they are nondeterministic.
- What a seller answers, what a document fetch returns, which webhooks arrive at an await and
  whether an error message speaks of a lost context are arbitrary. The documents of the web may
  change between two fetches. Calls of sellers, polls and document fetches are logged where they are
  made, so a contract can say how many there were.
- Whether the transport of a seller call can be built depends on the signing key and on the URL of the
  seller (`Seller.Setup`), and is arbitrary for each attempt.
- The database is a table of rows that changes only where operations are saved.
- Whether the poller finds the seller of an operation is an input: any function of the round and the
  operation, which may also say that looking raises.
- A result whose text cannot be parsed is a reply of its own; so the exceptions of a call are those
  of the seller and those nothing catches.
- Host encoding (`idna`), the address parsers (`ipaddress`) and `str.isdigit` are a parameter,
  `UrlCanon.Hosts`. `UrlCanon.Contract` says what is assumed of it: encoded hosts are lower-case
  letters, digits, dots and hyphens, encoding is stable on its own output, ASCII hosts gain no
  trailing dot, addresses have the alphabet of addresses. `UrlFixedPoint.ContractIsMet` shows the
  contract is not contradictory.
- In a cache, "less than its lifetime ago" is measured from the moment a load finished to the
  moment the cached entry was looked at.

## Where the code and its descriptions differ

- `src/protocol/url_canon.py:11` says the query is kept byte for byte; line 181 normalizes its
  percent triplets. The model follows line 181: "http://h/?%41" becomes "http://h/?A"
  (`UrlFixedPoint.QueryRewritten`), and `UrlFixedPoint.QueryKeptExactly` says which queries are kept.
- Percent normalization is not idempotent on stray percent signs (`%%34%31`, then `%41`, then `A`),
  and the host encoder can add a root dot that a second run drops. `Percent.IdempotentExactly` and
  `UrlFixedPoint.FixedPointExactly` give the exact conditions. For the same reason an encoded dot
  segment can survive dot removal (`DotSegments.EncodedDotRemains`).
- `src/connections/circuit_breaker.py:50` speaks of one probe at a time. A late outcome of an older
  request clears the flag, so two probes can be outstanding: `Breaker.TwoProbesRun` is such a run,
  `Breaker.TwoProbesExactly` says exactly when it happens. What always holds is one admission per
  recorded outcome (`Breaker.OneAdmissionPerOutcome`) and a distance between admissions
  (`Breaker.ProbeSpacing`).
- `src/connections/retry.py:110` says non-finite values are absent. An integer beyond the range of a
  double raises instead (`Retry.NormalizedExactly`).
- The outcome of an admitted request is not always recorded: when the transport cannot be built
  (`src/connections/seller.py:138-140`, before the `try`; a signing key that was never loaded and has
  become unreadable is one case, `Seller.MissingKeyForgotten`) and when a tool error cannot be built
  (a retry hint out of range is one case, `Seller.HugeHintForgotten`). `Seller.OneOutcomeExactly` says
  exactly when it is. A probe that is forgotten leaves the breaker rejecting every request until an
  outcome of an older one comes (`Seller.ForgottenProbe`).
- `src/brand/resolver.py:190` announces at most three hops. A fifth document, four hops away, can still
  be fetched, and what it holds makes no difference (`BrandResolver.FifthUnseen`).
  `BrandResolver.FiveExactly` says when that happens, `BrandResolver.FourHops` is such a web.
- A cached fetch error with an empty message is raised with another message
  (`src/authorization/adagents.py:217`): `Adagents.EmptyMessageReplaced`. `Adagents.CachedAnswersExactly`
  says exactly when cached answers are the uncached ones. No `FetchError` of `src/protocol/safe_fetch.py`
  or `src/authorization/adagents.py` has an empty message, so only a fetch function passed to the
  authorizer can show the difference.
- `src/buying/poller.py:71` says an operation is polled only when its interval has elapsed. The time is
  forgotten when a poll leaves the operation terminal, so one that a webhook puts back can be polled
  sooner: `Poller.SubmittedSooner` is such a run. `Poller.EveryVisitRight` and `Poller.LatestStamp` say
  exactly when a poll is made, `Poller.PollLoop` what distance always holds.

## Model

| member | source | states |
|---|---|---|
| `Percent.DecodeNormalized` | src/protocol/url_canon.py:40-47 | what normalized text decodes to, for every text: a stray percent sign and the two literal or encoded hex digits behind it become the octet they spell, everything else decodes as before |
| `Percent.DecodePreservedExactly` | src/protocol/url_canon.py:40-47 | normalizing keeps the decoded octets exactly when no stray percent sign is followed by two units that are hex digits, literally or encoded |
| `Percent.IdempotentExactly` | src/protocol/url_canon.py:40-47 | a second pass changes nothing exactly when every stray percent sign that such digits complete yields an upper-case triplet of a reserved octet; the condition reads the input only |
| `Percent.NormalIsFixedPoint` | src/protocol/url_canon.py:40-47 | text is left alone exactly when all its triplets are upper case and encode reserved octets; text never grows |
| `Percent.WellFormedSettles` | src/protocol/url_canon.py:40-47 | well-formed triplets meet both conditions and stay well formed |
| `Percent.StrayPercentCounterexample` | src/protocol/url_canon.py:40-47 | the input on which two passes differ |
| `Percent.HomomorphicAtDelimiter` | src/protocol/url_canon.py:40-47 | any text may be normalized piece by piece between delimiters |
| `Percent.Homomorphic` | src/protocol/url_canon.py:40-47 | normalization distributes over concatenation after well-formed text |
| `Percent.DelimitersKept` | src/protocol/url_canon.py:40-47 | no "/", "?", "#" or other delimiter is created or removed |
| `Percent.NormalSpelling` | src/protocol/url_canon.py:40-47 | in normal text nothing unreserved hides behind a triplet |
| `Percent.HexExactly` | src/protocol/url_canon.py:21 | the hexadecimal digits and their values |
| `Percent.UnreservedExactly` | src/protocol/url_canon.py:22 | the 66 unreserved characters |
| `DotSegments.RemoveDotSegments` | src/protocol/url_canon.py:50-82 | the rewriting loop computes, for every path, the fold over segments: skip ".", pop on "..", a trailing dot segment leaves "/" |
| `DotSegments.RemoveIsFold` | src/protocol/url_canon.py:50-82 | an absolute path stays absolute and its segments are those of the fold, none of them "." or ".." |
| `DotSegments.RemoveFixesExactly` | src/protocol/url_canon.py:50-82 | a path is unchanged exactly when it has no dot segment; runs of slashes are kept; no path grows |
| `DotSegments.RemoveIdempotent` | src/protocol/url_canon.py:50-82 | removal is a fixed point (section 5.2.4 of RFC 3986) |
| `DotSegments.DotVanishes` | src/protocol/url_canon.py:50-82 | a "." segment vanishes, wherever it stands, and leaves a slash at the end |
| `DotSegments.ParentCancels` | src/protocol/url_canon.py:50-82 | a ".." segment takes the segment before it along, an empty one included, whatever surrounds the two |
| `DotSegments.ParentAtEnds` | src/protocol/url_canon.py:50-82 | a leading ".." segment vanishes, and one at the end counts as if a slash followed; with the two laws above this decides every absolute path |
| `DotSegments.RelativeDots` | src/protocol/url_canon.py:50-82 | leading dot segments of a relative path are dropped |
| `DotSegments.RemoveNormalized` | src/protocol/url_canon.py:174-176 | percent normalization followed by dot removal yields the raw segments that survive dot removal with encoded dots read as dots, each normalized |
| `DotSegments.NoEncodedDotSegment` | src/protocol/url_canon.py:174-176 | it leaves no dot segment, not even an encoded one, exactly when no surviving raw segment spells "." or ".." with a stray percent sign that decoding completes |
| `DotSegments.EncodedDotRemains` | src/protocol/url_canon.py:174-176 | a path on which an encoded dot segment remains: "/%%32e" becomes "/%2e" |
| `UrlCanon.SplitAuthority` | src/protocol/url_canon.py:119-126 | the authority ends at the first "/", "?" or "#" |
| `UrlCanon.CanonicalizeUrl` | src/protocol/url_canon.py:151-182 | the code with its loops computes the function the theorems below are about, errors included |
| `UrlFixedPoint.ParseCompose` | src/protocol/url_canon.py:119-182 | a canonical URL splits again into exactly the parts it was put together from |
| `UrlFixedPoint.HostFixedExactly` | src/protocol/url_canon.py:85-116 | a canonical host is canonical again exactly when it has no root dot |
| `UrlFixedPoint.TargetFixedExactly` | src/protocol/url_canon.py:151-182 | canonicalizing a canonical URL returns the same target, authority, scheme and host exactly when its triplets are normal and its host has no root dot |
| `UrlFixedPoint.FixedPointExactly` | src/protocol/url_canon.py:151-182 | a second run changes nothing exactly when, in the URL as given, the encoder adds no root dot to the host and the stray percent signs of the query and of every surviving path segment settle |
| `UrlFixedPoint.FixedPoint` | src/protocol/url_canon.py:151-182 | hence canonicalization is a fixed point for ASCII hosts and well-formed triplets |
| `UrlFixedPoint.QueryKeptExactly` | src/protocol/url_canon.py:177-182 | the query of an accepted URL is kept byte for byte exactly when it has no triplet that is not upper case or encodes an unreserved octet |
| `UrlFixedPoint.QueryRewritten` | src/protocol/url_canon.py:177-182 | a URL whose query is rewritten |
| `UrlFixedPoint.StrayPercentUrl` | src/protocol/url_canon.py:151-182 | a URL whose canonical form is not canonical because of a stray percent sign |
| `UrlFixedPoint.RootDotUrl` | src/protocol/url_canon.py:96-116 | a URL whose canonical form is not canonical because the encoder maps the last character of its host to a dot |
| `UrlFixedPoint.TargetDetermines` | src/protocol/url_canon.py:185-190 | URLs with equal targets have equal authority, scheme and host |
| `UrlFixedPoint.EquivalentExactly` | src/protocol/url_canon.py:185-190 | accepted URLs are equivalent exactly when their parts agree one by one |
| `UrlFixedPoint.DecorationIgnored` | src/protocol/url_canon.py:151-182 | the case of the scheme, user information and a fragment do not matter |
| `UrlFixedPoint.ImpliedPortIgnored` | src/protocol/url_canon.py:168-172 | port 443 of https and port 80 of http do not matter, whatever the case of the scheme and whatever authority without a port they are written after (section 6.2.3 of RFC 3986) |
| `UrlFixedPoint.OtherPortKept` | src/protocol/url_canon.py:168-172 | any other port of digits, 80 of https and 443 of http among them, stays in the authority, whatever it is written after |
| `UrlFixedPoint.RootDotIgnored` | src/protocol/url_canon.py:96-116 | one trailing root dot of a DNS host does not matter |
| `UrlMeaning.SchemeExactly` | src/protocol/url_canon.py:20 | what a scheme is, character by character |
| `UrlMeaning.HostPortExactly` | src/protocol/url_canon.py:129-148 | which texts are read as which host and port, and which are refused, for each of the four reasons |
| `UrlMeaning.WrittenRead` | src/protocol/url_canon.py:119-176 | a URL written from parts (scheme, user information, host, port, path, query, fragment) is read as those parts |
| `UrlMeaning.ReadWritten` | src/protocol/url_canon.py:119-176 | every URL that is read was written from such parts |
| `UrlMeaning.UnreadExactly` | src/protocol/url_canon.py:153-159 | when a URL is refused for the lack of a scheme or of an authority |
| `UrlMeaning.BracketHostExactly` | src/protocol/url_canon.py:85-93 | a bracketed host is accepted exactly when it holds an IPv6 address without a zone |
| `UrlMeaning.DnsHostExactly` | src/protocol/url_canon.py:96-116 | any other host, with or without a root dot, is an IPv4 address in lower case or what the encoder makes of it, or is refused |
| `UrlMeaning.CanonicalText` | src/protocol/url_canon.py:151-182 | the canonical URL, its authority, scheme and host as texts, or the error, from the parts as they are written, with the implied ports spelled out |
| `Text.StripExactly` | src/signing/rfc9421.py:58 | what is stripped of a header value is white space, all of it, and only at its ends |
| `Signing.LoweredAt` | src/signing/rfc9421.py:58 | a header is signed under its lower-case name with its stripped value; of several spellings the last one counts |
| `Signing.SignatureBase` | src/signing/rfc9421.py:49-71 | the loops lower the headers and build one line per covered component and the parameters line, or report the missing header |
| `Signing.BaseExactly` | src/signing/rfc9421.py:49-71 | the text of a base: one line per component, in order, with the upper-case verb, the target, the authority or the stripped value of the last header of that name, then the parameters; a URL that is refused is an error, and so is the first header that is missing |
| `Signing.EquivalentUrlsSameBase` | src/signing/rfc9421.py:57-71 | equivalent URLs always yield the same signature base (section 2.5 of RFC 9421) |
| `Signing.BaseDeterminesUrl` | src/signing/rfc9421.py:57-71 | a base that covers the target URI is shared by equivalent URLs only, whatever header values, component names and parameters hold, newlines included |
| `SafeFetch.NestingDepth` | src/protocol/safe_fetch.py:136-148 | the explicit stack terminates and computes the recursive nesting depth |
| `SafeFetch.DepthExactly` | src/protocol/safe_fetch.py:136-148 | the depth is the length of the longest chain of containers inside each other |
| `SafeFetch.ReadCapped` | src/protocol/safe_fetch.py:162-173 | reading chunk by chunk refuses exactly the bodies that are declared or turn out longer than the cap, and otherwise returns the whole body; a declared length of digits that are no number raises |
| `SafeFetch.RejectDuplicateKeys` | src/protocol/safe_fetch.py:127-133 | the hook accepts exactly the objects whose keys are distinct |
| `SafeFetch.ParseStrict` | src/protocol/safe_fetch.py:151-159 | a text is accepted exactly when it parses, no object names a key twice and nothing is nested too deeply; an object with a duplicate key that is complete before the text turns out malformed is what gets reported |
| `SafeFetch.UniqueKeysExactly` | src/protocol/safe_fetch.py:127-133 | a document is refused for a duplicate key exactly when some object in it, however deep, names a key twice |
| `SafeFetch.ReadDocument` | src/protocol/safe_fetch.py:151-173 | a document is accepted exactly when it is within the cap and strict parsing accepts it, and each error says what is wrong with it |
| `SafeFetch.Fetch` | src/protocol/safe_fetch.py:176-224 | at most one request more than the allowed redirects, each cleared by its check and each where the previous answer led; every result is explained by the last answer, by the check that stopped it or by the number of redirects, exceptions nothing catches included |
| `SafeFetch.ChainStaysOnSite` | src/protocol/safe_fetch.py:105-124 | no chain of redirects leaves the site of the first URL: HTTPS, same port, same host, its www counterpart or, under the same-site rule, a subdomain |
| `SafeFetch.AllowedExactly` | src/protocol/safe_fetch.py:105-124 | exactly which redirects are allowed, under each of the three rules |
| `Breaker.CircuitBreaker.RecordSuccess` | src/connections/circuit_breaker.py:84-89 | a success of a request closes the breaker, clears the gauge and restarts the count in the log |
| `Breaker.CircuitBreaker.RecordFailure` | src/connections/circuit_breaker.py:91-98 | a failure of a request is logged; fields, state and gauge go on saying what the log says |
| `Breaker.CircuitBreaker.CurrentState` | src/connections/circuit_breaker.py:69-76 | reading the state: closed while the failures since the last success stay below the threshold, half-open once the cooldown has passed |
| `Breaker.CircuitBreaker.AllowRequest` | src/connections/circuit_breaker.py:100-110 | admission agrees with the log: closed, or cooled down with nothing admitted since the last recorded outcome |
| `Breaker.CircuitBreaker.RemainingCooldown` | src/connections/circuit_breaker.py:112-116 | a positive answer is exactly the time until a request would be admitted |
| `Breaker.ProbeSpacing` | src/connections/circuit_breaker.py:91-110 | while nothing succeeds after the breaker opened, admitted requests are at least the cooldown apart |
| `Breaker.ProbeRate` | src/connections/circuit_breaker.py:91-110 | hence an interval of length L admits at most floor(L / cooldown) + 1 of them |
| `Breaker.OneAdmissionPerOutcome` | src/connections/circuit_breaker.py:100-110 | between two admissions of an open breaker an outcome is recorded |
| `Breaker.AdmittedBesides` | src/connections/circuit_breaker.py:91-110 | while a request has no outcome, an open breaker admits a further one exactly when the outcome of another request was recorded, nothing has been admitted since, and the cooldown has passed since the last failure |
| `Breaker.TwoProbesExactly` | src/connections/circuit_breaker.py:91-110 | two probes are outstanding at once somewhere in a run exactly when, with a probe unanswered, the outcome of another request was recorded and a request came after the cooldown had passed again |
| `Breaker.TwoProbesRun` | src/connections/circuit_breaker.py:91-110 | a run in which every outcome belongs to an admitted request and two probes are outstanding |
| `Breaker.UnansweredProbeBlocks` | src/connections/circuit_breaker.py:100-110 | as long as no outcome is recorded after a probe, nothing is admitted, however late |
| `Retry.NormalizeTwice` | src/connections/retry.py:109-115 | normalizing a retry hint a second time changes nothing and raises nothing; hints end in [1, 3600], rounded up |
| `Retry.NormalizedExactly` | src/connections/retry.py:109-115 | an integer hint raises exactly from the limit of the doubles on, 10^400 among them, and is clamped otherwise |
| `Retry.HintExactly` | src/connections/retry.py:109-115 | what becomes of each kind of hint, in numbers: rounded up and clamped to [1, 3600], absent, or raised |
| `Retry.RecoveryExactly` | src/connections/retry.py:101-106 | a declared recovery decides, one that is not known is terminal; without any the code decides, and one that is not known is transient |
| `Retry.CorrectableExactly` | src/connections/retry.py:31-69 | the 28 correctable codes |
| `Retry.TerminalExactly` | src/connections/retry.py:31-69 | the six terminal codes |
| `Retry.BackoffExactly` | src/connections/retry.py:118-121 | the backoff starts at 2 s, doubles with every retry up to 60 s, and is spread evenly by a quarter up and down |
| `Retry.DelayBounds` | src/connections/retry.py:118-121 | hinted delays lie in [1, 3600], others within a quarter of the capped doubling |
| `Retry.RetryBudget.constructor` | src/connections/retry.py:135-139 | configured limits are clamped to 3 retries and 300 s |
| `Retry.RetryBudget.NextDelay` | src/connections/retry.py:151-161 | a retry is granted exactly when one is left and its delay still fits the ceiling, and is then counted; a hint out of range raises, unless no retry is left |
| `Seller.TransientAnswerExactly` | src/connections/seller.py:200-214 | an answer is retried exactly when it holds errors, all transient, and no success content; the wait is the first error's, and raises exactly when no double can hold it |
| `Seller.OutcomeExactly` | src/connections/seller.py:148-197 | what every reply means to the caller: kind, recovery and wait |
| `Seller.RecordedExactly` | src/connections/seller.py:237-256 | what the breaker learns of every reply: a failure, a success, or nothing |
| `Seller.RetryableExactly` | src/connections/seller.py:273-297 | which results are worth a retry |
| `Seller.PermittedExactly` | src/connections/seller.py:217-221 | which calls may be repeated, with the nineteen mutations by name |
| `Seller.CallOnce` | src/connections/seller.py:231-257 | an attempt calls the seller once exactly when the breaker admits it and its transport can be built, and not at all otherwise; which outcome it has and what is recorded follows |
| `Seller.Connect` | src/connections/seller.py:127-151 | an admitted attempt whose transport cannot be built connects to nothing and records nothing; any other connects once, and its outcome is recorded unless the tool error cannot be built |
| `Seller.OneOutcomeExactly` | src/connections/seller.py:231-257 | an admitted attempt records one outcome, its own, exactly when its transport can be built and its reply is not a failed tool whose error cannot be built; it never records two |
| `Seller.ForgottenProbe` | src/connections/seller.py:233-253 | after a probe whose outcome is not recorded the breaker rejects every request, however late, until an outcome of an older one comes |
| `Seller.HugeHintForgotten` | src/connections/seller.py:184-197 | the error of a failed tool cannot be built when its retry hint is beyond the range of a double |
| `Seller.MissingKeyForgotten` | src/connections/seller.py:61-63 | an attempt whose signing key was never loaded and cannot be read is admitted, connects to nothing and leaves only its admission in the log |
| `Seller.RetryLoop` | src/connections/seller.py:275-309 | the loop terminates; every attempt but the last failed retryably with permission; each comes at least as long after the one before as the seller asked for, or three quarters of the doubling delay; attempts and budget agree; it gives up on a retryable result only when the budget may refuse |
| `Seller.CallSellerTool` | src/connections/seller.py:260-309 | one of the nineteen mutations without a key, or on a seller that does not replay safely, is attempted once and calls the seller once at most; any other call that ends with a retryable result does so because the budget may refuse; and all that holds of the loop |
| `Seller.UnpermittedSentOnce` | src/connections/seller.py:217-221 | a mutation that may not be repeated is attempted once per call: the seller is called once, or not at all when the breaker rejects the attempt or its transport cannot be built |
| `Seller.OpenCircuitEndsRun` | src/connections/seller.py:273-297 | an open circuit ends the call at once: only the last attempt can have met one |
| `Seller.RunFailures` | src/connections/seller.py:231-257 | over a call the recorded failures are those of the attempts; the breaker's failure count grows by no more, and by exactly them when nothing succeeded |
| `Seller.RunAttributed` | src/connections/seller.py:231-257 | every outcome a call records belongs to its own admitted request, and no request gets two |
| `Seller.OperationKeepsClosed` | src/connections/seller.py:231-309 | one operation alone never opens a breaker four failures below its threshold, at any of its steps |
| `Seller.SellerSession.Call` | src/connections/session.py:32-74 | the context is sent, and the context and task of an answer are remembered; an error changes nothing |
| `Seller.FullParamsExactly` | src/connections/session.py:49-58 | which parameters are sent, key by key |
| `Seller.SellerSession.CallWithRetry` | src/connections/session.py:76-99 | call and resend share one budget: at most one attempt more than the clamped retries (never more than 4), and all delays together fit the clamped ceiling (never more than 300 s); retries wait as long as the seller asks, the resend does not wait; there is a resend exactly when the context was lost and a retry was left, and the last outcome is what the caller gets; a mutation that may not be repeated is attempted once by the call and at most once by the resend, and any other operation that ends with a retryable result does so because no retry is left or the ceiling may not allow it |
| `Seller.OnlyContextDiffers` | src/connections/session.py:88-99 | all attempts of an operation carry the same parameters except the context |
| `ExceptionSearch.StatusCode` | src/connections/seller.py:107-124 | on any graph, cyclic or not, the search ends; it returns a status only from a reachable exception and None exactly when none carries one |
| `RateLimiter.Limiter.Handle` | src/middleware.py:86-110 | the decision equals that of a limiter that keeps the full history, across pruning and clean-up; every thousandth admission leaves only clients with a recent hit |
| `RateLimiter.Limiter.Cleanup` | src/middleware.py:128-132 | exactly the clients without a hit since the start of the window are forgotten, and the agreement with the full history stays |
| `RateLimiter.WindowBound` | src/middleware.py:91-110 | no client is admitted more than `rate` times in any window (t - W, t] |
| `Tracker.OperationTracker.InitDb` | src/buying/tracker.py:89-130 | loading leaves the gauge alone and adds exactly the loaded rows of each status |
| `Tracker.OperationTracker.Create` | src/buying/tracker.py:181-202 | creation keeps the histogram (gauge plus loaded equals the operations of each status) and saves the operation once the database is in use |
| `Tracker.OperationTracker.UpdateFromResponse` | src/buying/tracker.py:204-251 | an update keeps the histogram and changes the one operation only: its status, identifiers, error and input message as the response says |
| `Tracker.TerminalExactly` | src/buying/tracker.py:204-221 | which responses leave an operation terminal, whatever it was before: a terminal status, or an error without a status; any other response puts a terminal operation back |
| `Tracker.StatusExactly` | src/buying/tracker.py:209-212 | the ten names a response can spell, in any case and with hyphens or underscores, and the status of each |
| `Tracker.StatusMissing` | src/buying/tracker.py:213-221 | what a response without a status of its own means |
| `Tracker.FieldsExactly` | src/buying/tracker.py:204-238 | what a response makes of every field |
| `Tracker.OperationTracker.MarkFailed` | src/buying/tracker.py:253-263 | marking a failure keeps the histogram |
| `Tracker.OperationTracker.GetPending` | src/buying/tracker.py:274-280 | exactly the submitted and working operations, each once |
| `Tracker.StatusRoundTrip` | src/buying/tracker.py:100-107 | reading a stored status gives it back, and nothing else reads as that status |
| `Tracker.RowExactly` | src/buying/tracker.py:98-107 | every stored row is read as stored, and as of unknown status when its status is no name of one |
| `Tracker.OperationTracker.Persist` | src/buying/tracker.py:132-179 | saving writes the one row, once the database is in use, and the table goes on holding every saved operation as it was when last saved |
| `Tracker.RestartGivesSaved` | src/buying/tracker.py:98-179 | after a restart every operation is there as it was when last saved, with all its fields, and rows never saved over are read as they were |
| `Tracker.RestartKeepsExactly` | src/buying/tracker.py:98-179 | a restart loses nothing exactly when every operation was saved and none has changed since it was last saved |
| `Poller.PollLoop` | src/buying/poller.py:67-107 | every status request is a poll of a round, and every round is right and complete; only working and submitted operations are polled; polls of one operation start at least 5 s apart, and those of a submitted one at least 60 s after every earlier one, unless a poll from that one on left it terminal; whatever webhooks do meanwhile |
| `Poller.SubmittedSooner` | src/buying/poller.py:88-102 | a run in which a submitted operation is polled 10 s after an earlier poll, because one in between left it terminal |
| `Poller.PollRound` | src/buying/poller.py:76-105 | a round visits each operation pending at its start once, one after the other, unless looking for the seller of a due operation raises, which ends it |
| `Poller.EveryVisitRight` | src/buying/poller.py:76-105 | every visit of a round polls exactly when the operation has a task, its seller is found, and it is working and 5 s have passed since its timestamp or submitted and 60 s have passed, at that point of the tracker's history and of the polls made |
| `Poller.VisitOne` | src/buying/poller.py:80-102 | the same for the one operation that is visited, and a poll is a request that is sent |
| `Poller.PollSingle` | src/buying/poller.py:109-126 | a poll is one request for the task; its answer is taken over by that operation as the tracker's update says, counted once there and on no other operation, and saved afterwards; a failed request does none of this; all with any tracker calls at the awaits |
| `Poller.LatestStamp` | src/buying/poller.py:97-102 | the timestamp of an operation is the start of its latest poll, and absent when that left it terminal |
| `Poller.AddSpaced` | src/buying/poller.py:88-98 | a poll allowed by its timestamp is spaced from every earlier one |
| `Adagents.GrantedIds` | src/authorization/adagents.py:98-124 | the accumulated set holds exactly the properties the entry grants |
| `Adagents.WithTagsExactly` | src/authorization/adagents.py:81-83 | tags select exactly the properties that share one with the wanted |
| `Adagents.ClaimedExactly` | src/authorization/adagents.py:86-95 | what a selector claims, for each kind of selection |
| `Adagents.GrantsExactly` | src/authorization/adagents.py:98-124 | what an entry grants, for each of the four kinds |
| `Adagents.AppliesExactly` | src/authorization/adagents.py:127-153 | when an entry applies to a purchase |
| `Adagents.ReasonExactly` | src/authorization/adagents.py:127-153 | why an entry does not apply: the first of the six conditions, in order |
| `Adagents.GrantsInScope` | src/authorization/adagents.py:302-312 | the loop collects exactly the properties granted by entries in scope, and the reasons of the others in order |
| `Adagents.CheckSelector` | src/authorization/adagents.py:270-316 | each verdict, with the precedence of the checks, says what is true of the document: revoked, nothing claimed, exactly the unknown ids, not listed, the scope problems in file order, or exactly the properties not granted; in terms of the ids, tags, domains and kinds of grant that the document holds |
| `Adagents.VerdictIsExact` | src/authorization/adagents.py:270-316 | a selector passes exactly when the domain is not revoked, claims are non-empty and by_id claims known, and in-scope grants of the seller's entries cover every claim |
| `Adagents.AuthorizedMeans` | src/authorization/adagents.py:270-316 | a selector passes exactly when the domain is not revoked, something is claimed, ids are known, and for every claimed property some entry of the seller in force gives it, all in terms of the document |
| `Adagents.OrderDoesNotMatter` | src/authorization/adagents.py:291-313 | order and repetition of entries do not matter |
| `Adagents.MoreEntries` | src/authorization/adagents.py:291-313 | adding entries takes nothing away |
| `Adagents.NarrowerPurchase` | src/authorization/adagents.py:143-153 | what is authorized for some countries and placements is authorized for fewer, unless narrowing leaves none named |
| `Adagents.EquivalentSellers` | src/authorization/adagents.py:291-297 | sellers with equivalent URLs get the same verdict, down to the reason of a denial |
| `Adagents.SalesAgentAuthorizer.GetAdagents` | src/authorization/adagents.py:210-226 | every answer is the outcome of a load made for it, or what is raised for a load that was finished before and whose lifetime is not over; a load is made only when needed, and only documents and fetch errors are remembered |
| `Adagents.SalesAgentAuthorizer.VerifyProduct` | src/authorization/adagents.py:228-316 | passes when every selector passed on a vouched-for document; otherwise the error is the one the first failing selector deserves: malformed, the exception its document is loaded with, or the verdict on its document |
| `Adagents.UnchangingVerdict` | src/authorization/adagents.py:228-316 | with unchanging documents every selector of a passing product holds at the time of its check; a denied one fails at that time, for the reason its document gives or the exception it is loaded with; a malformed one fails at any time |
| `Adagents.CachedAnswersExactly` | src/authorization/adagents.py:210-226 | with unchanging documents every answer for a key is the uncached one exactly when loading does not fail with an empty message, failures have no lifetime or nothing was loaded for the key |
| `Adagents.EmptyMessageReplaced` | src/authorization/adagents.py:215-217 | a cached failure that is raised with another message |
| `TtlCache.Logged` | src/brand/resolver.py:335-359 | one more load keeps every entry the outcome of the latest cached load of its key, and keeps loads from being made before they are needed |
| `TtlCache.Served` | src/brand/resolver.py:340-344 | what is served was loaded less than its lifetime ago |
| `BrandResolver.Follow` | src/brand/resolver.py:189-215 | on a web that may change, the loop fetches the well-known document and then what each document names, and nothing else; how it ends is what the last document says |
| `BrandResolver.FollowAgrees` | src/brand/resolver.py:189-215 | on a web that does not change it computes the specification function, errors included |
| `BrandResolver.DomainExactly` | src/brand/resolver.py:72-74 | domains are compared in lower case, without white space around them and without one root dot |
| `BrandResolver.FifthUnseen` | src/brand/resolver.py:194-215 | at most five documents are fetched, and when five are, what the fifth holds makes no difference |
| `BrandResolver.FiveExactly` | src/brand/resolver.py:194-215 | five are fetched exactly when the first can be and three hops from it lead to a document that names one more |
| `BrandResolver.FourHops` | src/brand/resolver.py:194-215 | a web on which five are fetched |
| `BrandResolver.WithinThreeHops` | src/brand/resolver.py:189-215 | following succeeds exactly when a final document is at most three hops away, and reports a loop exactly when four hops can be fetched |
| `BrandResolver.BrandAuthorizationResolver.Resolve` | src/brand/resolver.py:335-359 | an answer is the outcome of a load made now, or of an unexpired one unless a refresh was forced; only the listed failures are served from the cache |
| `BrandResolver.UnchangingResolution` | src/brand/resolver.py:335-359 | with unchanging documents a cached resolution is the uncached one |

## Left out

- Host encoding and address parsing: `idna` and `ipaddress` are assumed to meet a contract; Unicode hosts enter the fixed-point theorem only through the condition on the root dot.
- Letter case outside ASCII: lower and upper case of country codes, domains, methods and status texts are those of ASCII.
- Floating point: times, delays and hints are reals, so rounding is not modelled.
- Task cancellation: an attempt cancelled in flight records no outcome; the model has no cancellation.
- Other operations on the same breaker during one operation: the breaker's own theorems cover any interleaving of events, the count of failures per operation assumes it runs alone.
- Concurrent loads of one cache key: loads of one cache follow one another.
- HTTP and MCP transport, DNS, SQL, metrics other than the two gauges, logging, cryptography, base64 and the parsing of JSON text: library calls; where they can raise, their result is an arbitrary input of the model.
- `Tracker.OperationTracker.Persist`: does not model two writes of one operation at the same time, or a write that fails; a write is one step, with webhooks before and after it.
- `_load` of the authorizer, and what `_resolve_uncached` of the brand resolver does with a followed document: uncached outcomes are arbitrary, so the cache results hold for any of them.
- `operator_entry_authorizes` and `verify_operator` (`src/brand/resolver.py`): a conjunction of checks on one document, without state or recursion.
- The public-address check before each request (`src/protocol/safe_fetch.py`): an arbitrary answer per hop, which may also raise.
- `Tracker.OperationTracker.Create`: does not model a repeated identifier, because identifiers are random UUIDs; application context, request and response data, creative deadline and time stamps of an operation are not modelled.
- `Tracker.OperationTracker.GetPending`: does not model the order of the list, which is that of a dictionary.
- `Poller.PollLoop`: does not model a restart of the poller, which begins with empty timestamps; the number of rounds is a parameter, so the theorem is about every finite run of one loop.
- Placements of a product, accounts, request shaping, discovery, ranking, the orchestrator, the publisher tools and deployment are outside the four areas listed at the top.
