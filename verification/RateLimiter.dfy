/** The sliding-window limiter, which prunes what it remembers, against a limiter that keeps
    everything. */
module RateLimiter {
  import opened Wrappers

  /** One decided request. */
  datatype Hit = Hit(client: string, at: real, admitted: bool)

  type History = seq<Hit>

  // ---- the reference limiter ----

  /** Times after `cutoff`. */
  function After(times: seq<real>, cutoff: real): seq<real> {
    if times == [] then []
    else
      var last := times[|times| - 1];
      var earlier := After(times[..|times| - 1], cutoff);
      if last > cutoff then earlier + [last] else earlier
  }

  /** The times at which a client was admitted, in order. */
  function Admitted(h: History, client: string): seq<real> {
    if h == [] then []
    else
      var e := h[|h| - 1];
      var earlier := Admitted(h[..|h| - 1], client);
      if e.client == client && e.admitted then earlier + [e.at] else earlier
  }

  /** Admit when fewer than `rate` admissions of the client, out of all it ever had, lie in the
      window that ends now. */
  predicate Allows(rate: int, window: real, h: History, client: string, now: real) {
    |After(Admitted(h, client), now - window)| < rate
  }

  predicate NotBefore(h: History, now: real) {
    forall k :: 0 <= k < |h| ==> h[k].at <= now
  }

  /** A history the reference limiter produces under a monotone clock. */
  predicate Legal(rate: int, window: real, h: History) {
    if h == [] then true
    else
      var before, e := h[..|h| - 1], h[|h| - 1];
      && Legal(rate, window, before)
      && NotBefore(before, e.at)
      && e.admitted == Allows(rate, window, before, e.client, e.at)
  }

  // ---- lists of times ----

  predicate Ascending(times: seq<real>) {
    forall i, j :: 0 <= i < j < |times| ==> times[i] <= times[j]
  }

  lemma AfterAppend(times: seq<real>, t: real, cutoff: real)
    ensures After(times + [t], cutoff) == if t > cutoff then After(times, cutoff) + [t] else After(times, cutoff)
  {
    assert (times + [t])[..|times|] == times;
  }

  /** Pruning at an earlier cutoff is not noticed at a later one. */
  lemma {:induction false} AfterAfter(times: seq<real>, early: real, late: real)
    requires early <= late
    ensures After(After(times, early), late) == After(times, late)
  {
    if times != [] {
      var last := times[|times| - 1];
      AfterAfter(times[..|times| - 1], early, late);
      if last > early {
        AfterAppend(After(times[..|times| - 1], early), last, late);
      } else {
        assert After(times, early) == After(times[..|times| - 1], early);
      }
    }
  }

  lemma {:induction false} AfterNone(times: seq<real>, cutoff: real)
    requires forall k :: 0 <= k < |times| ==> times[k] <= cutoff
    ensures After(times, cutoff) == []
  {
    if times == [] {
    } else {
      AfterNone(times[..|times| - 1], cutoff);
    }
  }

  lemma {:induction false} AfterKeeps(times: seq<real>, cutoff: real, bound: real)
    requires Ascending(times) && (forall k :: 0 <= k < |times| ==> times[k] <= bound)
    ensures Ascending(After(times, cutoff))
    ensures forall k :: 0 <= k < |After(times, cutoff)| ==> After(times, cutoff)[k] <= bound
    ensures times != [] ==> forall k :: 0 <= k < |After(times, cutoff)| ==>
              After(times, cutoff)[k] <= times[|times| - 1]
  {
    if times == [] {
    } else {
      AfterKeeps(times[..|times| - 1], cutoff, times[|times| - 1]);
    }
  }

  /** The loop of the list comprehension. */
  method Prune(hits: seq<real>, cutoff: real) returns (kept: seq<real>)
    ensures kept == After(hits, cutoff)
  {
    kept := [];
    assert hits[..0] == [];
    for i := 0 to |hits|
      invariant kept == After(hits[..i], cutoff)
    {
      assert hits[..i + 1] == hits[..i] + [hits[i]];
      AfterAppend(hits[..i], hits[i], cutoff);
      if hits[i] > cutoff {
        kept := kept + [hits[i]];
      }
    }
    assert hits[..|hits|] == hits;
  }

  lemma AdmittedAppend(h: History, e: Hit, client: string)
    ensures Admitted(h + [e], client) ==
            if e.client == client && e.admitted then Admitted(h, client) + [e.at] else Admitted(h, client)
  {
    assert (h + [e])[..|h|] == h;
  }

  // ---- the limiter ----

  function Remembered(hits: map<string, seq<real>>, client: string): seq<real> {
    if client in hits then hits[client] else []
  }

  /** What is remembered of a client agrees with its full history on every window that has not
      ended before the last request. */
  ghost predicate Agrees(r: seq<real>, clock: real, window: real, history: History, client: string) {
    && Ascending(r)
    && (forall k :: 0 <= k < |r| ==> r[k] <= clock)
    && (forall cutoff: real :: cutoff >= clock - window ==>
          After(r, cutoff) == After(Admitted(history, client), cutoff))
  }

  /** A client without a hit at or after the cutoff can be forgotten. */
  lemma ForgetStale(r: seq<real>, clock: real, window: real, history: History, client: string)
    requires Agrees(r, clock, window, history, client)
    requires r == [] || r[|r| - 1] < clock - window
    ensures Agrees([], clock, window, history, client)
  {
    forall c: real | c >= clock - window
      ensures After([], c) == After(Admitted(history, client), c)
    {
      AfterNone(r, c);
    }
  }

  /** A list after a decision: the time is appended on admission. */
  function Extended(times: seq<real>, at: real, admitted: bool): seq<real> {
    if admitted then times + [at] else times
  }

  lemma AdmittedExtended(h: History, e: Hit)
    ensures Admitted(h + [e], e.client) == Extended(Admitted(h, e.client), e.at, e.admitted)
  {
    AdmittedAppend(h, e, e.client);
  }

  /** What is remembered after a decision: `r` pruned, and extended. */
  function Decided(r: seq<real>, cutoff: real, now: real, admitted: bool): seq<real> {
    Extended(After(r, cutoff), now, admitted)
  }

  lemma OneCutoff(r: seq<real>, full: seq<real>, cutoff: real, now: real, admitted: bool, c: real)
    requires c >= cutoff && After(r, c) == After(full, c)
    ensures After(Decided(r, cutoff, now, admitted), c) == After(Extended(full, now, admitted), c)
  {
    AfterAfter(r, cutoff, c);
    AfterAppend(After(r, cutoff), now, c);
    AfterAppend(full, now, c);
  }

  lemma DecidedAscends(r: seq<real>, clock: real, cutoff: real, now: real, admitted: bool)
    requires Ascending(r) && (forall k :: 0 <= k < |r| ==> r[k] <= clock) && clock <= now
    ensures var kept := Decided(r, cutoff, now, admitted);
            Ascending(kept) && forall k :: 0 <= k < |kept| ==> kept[k] <= now
  {
    AfterKeeps(r, cutoff, clock);
  }

  /** One decision keeps the agreement. */
  lemma DecisionAgrees(r: seq<real>, clock: real, window: real, history: History, e: Hit, kept: seq<real>)
    requires Agrees(r, clock, window, history, e.client) && clock <= e.at
    requires kept == Decided(r, e.at - window, e.at, e.admitted)
    ensures Agrees(kept, e.at, window, history + [e], e.client)
  {
    DecidedAscends(r, clock, e.at - window, e.at, e.admitted);
    forall c: real | c >= e.at - window
      ensures After(kept, c) == After(Admitted(history + [e], e.client), c)
    {
      DecisionAt(r, clock, window, history, e, c);
    }
  }

  lemma DecisionAt(r: seq<real>, clock: real, window: real, history: History, e: Hit, c: real)
    requires Agrees(r, clock, window, history, e.client) && clock <= e.at && c >= e.at - window
    ensures After(Decided(r, e.at - window, e.at, e.admitted), c) == After(Admitted(history + [e], e.client), c)
  {
    AgreesAt(r, clock, window, history, e.client, c);
    OneCutoff(r, Admitted(history, e.client), e.at - window, e.at, e.admitted, c);
    AdmittedExtended(history, e);
  }

  lemma AgreesAt(r: seq<real>, clock: real, window: real, history: History, client: string, c: real)
    requires Agrees(r, clock, window, history, client) && c >= clock - window
    ensures After(r, c) == After(Admitted(history, client), c)
  {}

  /** The whole table agrees after one decision. */
  lemma TableAgrees(hits: map<string, seq<real>>, clock: real, window: real, history: History,
                    e: Hit, next: map<string, seq<real>>, after: History)
    requires forall client :: Agrees(Remembered(hits, client), clock, window, history, client)
    requires clock <= e.at && after == history + [e]
    requires next == hits[e.client := Decided(Remembered(hits, e.client), e.at - window, e.at, e.admitted)]
    ensures forall client :: Agrees(Remembered(next, client), e.at, window, after, client)
  {
    forall client
      ensures Agrees(Remembered(next, client), e.at, window, after, client)
    {
      assert Agrees(Remembered(hits, client), clock, window, history, client);
      if client == e.client {
        DecisionAgrees(Remembered(hits, client), clock, window, history, e, Remembered(next, client));
      } else {
        OthersAgree(Remembered(hits, client), clock, window, history, client, e);
      }
    }
  }

  lemma LegalAppend(rate: int, window: real, h: History, clock: real, e: Hit)
    requires Legal(rate, window, h) && NotBefore(h, clock) && clock <= e.at
    requires e.admitted == Allows(rate, window, h, e.client, e.at)
    ensures Legal(rate, window, h + [e]) && NotBefore(h + [e], e.at)
  {
    assert (h + [e])[..|h|] == h;
    assert forall k :: 0 <= k < |h| ==> (h + [e])[k] == h[k];
  }

  lemma OthersAgree(r: seq<real>, clock: real, window: real, history: History, client: string, e: Hit)
    requires Agrees(r, clock, window, history, client) && clock <= e.at && e.client != client
    ensures Agrees(r, e.at, window, history + [e], client)
  {
    AdmittedAppend(history, e, client);
  }

  class Limiter {
    const rate: int
    const window: real
    var hits: map<string, seq<real>>
    var callCount: nat
    ghost var history: History
    ghost var clock: real

    ghost predicate Valid()
      reads this
    {
      && Legal(rate, window, history)
      && NotBefore(history, clock)
      && forall client :: Agrees(Remembered(hits, client), clock, window, history, client)
    }

    constructor (rate: int, window: real, now: real)
      ensures Valid() && history == [] && clock == now
      ensures this.rate == rate && this.window == window
    {
      this.rate, this.window := rate, window;
      hits, callCount := map[], 0;
      history, clock := [], now;
    }

    /** The last hit lies in the window that ends now, or at its start. */
    predicate Recent(times: seq<real>, now: real) {
      times != [] && times[|times| - 1] >= now - window
    }

    /** Drop the clients without a hit at or after the start of the window. */
    method Cleanup(now: real)
      requires Valid() && clock == now
      modifies this`hits
      ensures Valid() && forall client :: client in hits ==> Recent(hits[client], now)
      ensures hits == map client | client in old(hits) && Recent(old(hits)[client], now) :: old(hits)[client]
    {
      ghost var before := hits;
      var cutoff := now - window;
      hits := map k | k in hits && !(hits[k] == [] || hits[k][|hits[k]| - 1] < cutoff) :: hits[k];
      forall client
        ensures Agrees(Remembered(hits, client), clock, window, history, client)
      {
        assert Agrees(Remembered(before, client), clock, window, history, client);
        if client in before && client !in hits {
          ForgetStale(before[client], clock, window, history, client);
        }
      }
    }

    /** Prune what is remembered of a client, and admit it when few enough hits are left. */
    method Decide(key: string, now: real) returns (admitted: bool)
      requires Valid() && clock <= now
      modifies this
      ensures Valid() && clock == now
      ensures admitted == Allows(rate, window, old(history), key, now)
      ensures history == old(history) + [Hit(key, now, admitted)]
      ensures callCount == old(callCount) + (if admitted then 1 else 0)
      ensures key in hits && hits == old(hits)[key := hits[key]]
    {
      ghost var before := history;
      var mine := if key in hits then hits[key] else [];
      var cutoff := now - window;
      var kept := Prune(mine, cutoff);
      assert Agrees(Remembered(hits, key), clock, window, before, key);
      assert kept == After(Admitted(before, key), cutoff);
      if |kept| >= rate {
        admitted := false;
      } else {
        admitted := true;
        kept := kept + [now];
        callCount := callCount + 1;
      }
      ghost var e := Hit(key, now, admitted);
      TableAgrees(hits, clock, window, before, e, hits[key := kept], before + [e]);
      LegalAppend(rate, window, before, clock, e);
      hits := hits[key := kept];
      history := before + [e];
      clock := now;
    }

    /** One request of a client at time `now`. Traffic that is not HTTP does not get here; a
        client without an address is the client "unknown". Every thousandth admission cleans
        up. */
    method Handle(client: Option<string>, now: real) returns (admitted: bool)
      requires Valid() && clock <= now
      modifies this
      ensures Valid() && clock == now
      ensures var key := if client.Some? then client.value else "unknown";
              && admitted == Allows(rate, window, old(history), key, now)
              && history == old(history) + [Hit(key, now, admitted)]
      ensures callCount == old(callCount) + (if admitted then 1 else 0)
      ensures var key := if client.Some? then client.value else "unknown";
              if admitted && callCount % 1000 == 0 then forall other :: other in hits ==> Recent(hits[other], now)
              else
                forall other :: other in old(hits) && other != key ==> other in hits && hits[other] == old(hits)[other]
    {
      var key := if client.Some? then client.value else "unknown";
      admitted := Decide(key, now);
      if admitted && callCount % 1000 == 0 {
        Cleanup(now);
      }
    }
  }

  // ---- what holds of every run ----

  lemma {:induction false} TimesFollowHistory(rate: int, window: real, h: History, client: string)
    requires Legal(rate, window, h)
    ensures Ascending(Admitted(h, client))
    ensures forall k :: 0 <= k < |Admitted(h, client)| ==>
              exists i :: 0 <= i < |h| && h[i].at == Admitted(h, client)[k]
    decreases |h|
  {
    if h == [] {
    } else {
      var before, e := h[..|h| - 1], h[|h| - 1];
      TimesFollowHistory(rate, window, before, client);
      var times := Admitted(before, client);
      forall k | 0 <= k < |times|
        ensures times[k] <= e.at && exists i :: 0 <= i < |h| && h[i].at == times[k]
      {
        var i :| 0 <= i < |before| && before[i].at == times[k];
        assert before[i] == h[i];
      }
      assert h[|h| - 1].at == e.at;
    }
  }

  /** Times in (t - window, t]. */
  function InWindow(times: seq<real>, window: real, t: real): seq<real> {
    if times == [] then []
    else
      var last := times[|times| - 1];
      var earlier := InWindow(times[..|times| - 1], window, t);
      if t - window < last <= t then earlier + [last] else earlier
  }

  lemma {:induction false} WindowIsAfter(times: seq<real>, window: real, t: real)
    requires forall k :: 0 <= k < |times| ==> times[k] <= t
    ensures InWindow(times, window, t) == After(times, t - window)
  {
    if times == [] {
    } else {
      WindowIsAfter(times[..|times| - 1], window, t);
    }
  }

  lemma {:induction false} AfterShrinks(times: seq<real>, early: real, late: real)
    requires early <= late
    ensures |After(times, late)| <= |After(times, early)|
  {
    if times == [] {
    } else {
      AfterShrinks(times[..|times| - 1], early, late);
    }
  }

  lemma AdmittedBefore(rate: int, window: real, h: History, client: string, t: real)
    requires Legal(rate, window, h) && NotBefore(h, t)
    ensures forall k :: 0 <= k < |Admitted(h, client)| ==> Admitted(h, client)[k] <= t
  {
    TimesFollowHistory(rate, window, h, client);
    var times := Admitted(h, client);
    forall k | 0 <= k < |times|
      ensures times[k] <= t
    {
      var i :| 0 <= i < |h| && h[i].at == times[k];
    }
  }

  /** An admission at `at` fits every window that contains it. */
  lemma AdmissionFits(rate: int, window: real, before: History, client: string, at: real, t: real)
    requires Legal(rate, window, before) && NotBefore(before, at)
    requires Allows(rate, window, before, client, at) && t - window < at <= t
    ensures |InWindow(Admitted(before, client), window, t)| < rate
  {
    AdmittedBefore(rate, window, before, client, at);
    WindowCount(Admitted(before, client), window, at, t);
  }

  lemma WindowCount(times: seq<real>, window: real, at: real, t: real)
    requires forall k :: 0 <= k < |times| ==> times[k] <= at
    requires at <= t
    ensures |InWindow(times, window, t)| <= |After(times, at - window)|
  {
    WindowIsAfter(times, window, t);
    AfterShrinks(times, at - window, t - window);
  }

  /** No client is ever admitted more than `rate` times in a window (t - window, t], for any
      time t, whether or not a request was made then. */
  lemma {:induction false} WindowBound(rate: int, window: real, h: History, client: string, t: real)
    requires Legal(rate, window, h)
    ensures |InWindow(Admitted(h, client), window, t)| <= if rate < 0 then 0 else rate
    decreases |h|
  {
    if h == [] {
    } else {
      var before, e := h[..|h| - 1], h[|h| - 1];
      WindowBound(rate, window, before, client, t);
      if e.client == client && e.admitted {
        assert Admitted(h, client)[..|Admitted(before, client)|] == Admitted(before, client);
        if t - window < e.at <= t {
          AdmissionFits(rate, window, before, client, e.at, t);
        }
      }
    }
  }
}
