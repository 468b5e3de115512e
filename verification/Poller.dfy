/** The background poller, with webhooks arriving whenever it waits. */
module Poller {
  import opened Wrappers
  import opened Tracker
  import opened Environment

  /** One poll: the operation and its task, when it started, the status and interval it was
      decided on, the round of the loop it belongs to, and whether the operation was terminal
      when it ended. */
  datatype Poll = Poll(id: string, taskId: string, start: real, status: Status, interval: int, round: nat,
                       leftTerminal: bool)

  /** Polls are of working operations, at an interval of 5 s, and of submitted ones, at 60 s. */
  ghost predicate Justified(p: Poll) {
    (p.status.Working? && p.interval == 5) || (p.status.Submitted? && p.interval == 60)
  }

  /** No poll between i and j is of the same operation. */
  ghost predicate Successive(polls: seq<Poll>, i: nat, j: nat)
    requires j <= |polls|
  {
    forall k :: i < k < j ==> polls[k].id != polls[i].id
  }

  /** Two polls of one operation start at least 5 s apart; successive ones, unless the first
      left the operation terminal, at least the interval of the later one. */
  ghost predicate Spaced(polls: seq<Poll>) {
    forall i, j :: 0 <= i < j < |polls| && polls[i].id == polls[j].id ==>
      && polls[j].start - polls[i].start >= 5.0
      && (Successive(polls, i, j) && !polls[i].leftTerminal ==>
            polls[j].start - polls[i].start >= polls[j].interval as real)
  }

  /** No poll of that operation from i on, and before j, left it terminal. */
  ghost predicate NoneTerminal(polls: seq<Poll>, i: nat, j: nat)
    requires i < j <= |polls|
  {
    forall k :: i <= k < j && polls[k].id == polls[i].id ==> !polls[k].leftTerminal
  }

  /** Submitted operations are polled 60 s apart, as long as they are not left terminal. */
  lemma {:induction false} SubmittedSpaced(polls: seq<Poll>, i: nat, j: nat)
    requires Spaced(polls) && i < j < |polls| && polls[i].id == polls[j].id
    requires Justified(polls[j]) && polls[j].status.Submitted? && NoneTerminal(polls, i, j)
    ensures polls[j].start - polls[i].start >= 60.0
    decreases j - i
  {
    if Successive(polls, i, j) {
    } else {
      var k :| i < k < j && polls[k].id == polls[i].id;
      SubmittedSpaced(polls, k, j);
    }
  }

  // ---- what happens at an await ----

  /** The same operations, and perhaps new ones; the database still holds what was saved. */
  twostate predicate Continues(tracker: OperationTracker)
    reads tracker, tracker.operations.Values
  {
    && old(tracker.history) <= tracker.history && (old(tracker.Persisted()) ==> tracker.Persisted())
    && (forall id :: id in old(tracker.operations) ==>
          id in tracker.operations && tracker.operations[id] == old(tracker.operations[id]))
    && (forall id :: id in tracker.operations && id !in old(tracker.operations) ==> fresh(tracker.operations[id]))
  }

  /** No save is undone: an operation may be saved again, never earlier. */
  twostate predicate KeepsSaves(tracker: OperationTracker)
    reads tracker
  {
    && tracker.dbEnabled == old(tracker.dbEnabled)
    && forall id :: id in old(tracker.saved) && old(tracker.saved[id] < |tracker.history|) ==>
         id in tracker.saved && old(tracker.saved[id]) <= tracker.saved[id] < |tracker.history|
  }

  /** The polls counted on the operations: n more on the one, no more on the others. */
  ghost predicate Counted(before: Contents, after: Contents, id: string, n: nat) {
    forall other :: other in before ==>
      other in after && after[other].pollCount == before[other].pollCount + (if other == id then n else 0)
  }

  lemma CountedThen(before: Contents, middle: Contents, after: Contents, id: string, m: nat, n: nat)
    requires Counted(before, middle, id, m) && Counted(middle, after, id, n)
    ensures Counted(before, after, id, m + n)
  {
    forall other | other in before
      ensures other in after && after[other].pollCount == before[other].pollCount + (if other == id then m + n else 0)
    {
      assert other in middle;
    }
  }

  lemma CountedNone(before: Contents, after: Contents, id: string, other: string)
    requires Counted(before, after, id, 0)
    ensures Counted(before, after, other, 0)
  {}

  /** What may happen at an await: any number of creations, responses, local failures and
      saves. */
  method Webhooks(tracker: OperationTracker, w: World)
    requires tracker.Valid()
    modifies tracker, tracker.operations.Values, w
    ensures tracker.Valid() && Continues(tracker) && KeepsSaves(tracker) && w.now >= old(w.now)
    ensures Counted(old(tracker.Value()), tracker.Value(), "", 0)
  {
    var t := w.Clock();
    var events: int := *;
    while 0 < events
      invariant tracker.Valid() && Continues(tracker) && KeepsSaves(tracker) && w.now >= old(w.now)
      invariant Counted(old(tracker.Value()), tracker.Value(), "", 0)
    {
      Webhook(tracker);
      events := events - 1;
    }
  }

  lemma CountedUpdate(m: Contents, id: string, f: Fields, n: nat)
    requires id in m ==> f.pollCount == m[id].pollCount + n
    ensures Counted(m, m[id := f], id, n)
  {}

  /** A response or a local failure. */
  method Report(tracker: OperationTracker, id: string)
    requires tracker.Valid() && id in tracker.operations
    modifies tracker`gauge, tracker`history, tracker.operations[id]
    ensures tracker.Valid() && Continues(tracker)
    ensures Counted(old(tracker.Value()), tracker.Value(), "", 0)
  {
    ghost var before := tracker.Value();
    var failure: bool := *;
    var found;
    if failure {
      var error: string := *;
      found := tracker.MarkFailed(id, error);
    } else {
      var response: Response := *;
      found := tracker.UpdateFromResponse(id, response);
    }
    CountedUpdate(before, id, tracker.Value()[id], 0);
    CountedNone(before, tracker.Value(), id, "");
  }

  method Webhook(tracker: OperationTracker)
    requires tracker.Valid()
    modifies tracker, tracker.operations.Values
    ensures tracker.Valid() && Continues(tracker) && KeepsSaves(tracker)
    ensures Counted(old(tracker.Value()), tracker.Value(), "", 0)
  {
    var id: string := *;
    var saving: bool := *;
    ghost var before := tracker.Value();
    if id !in tracker.operations {
      var op := tracker.Create(id);
      CountedUpdate(before, id, NEW_OPERATION, 0);
      CountedNone(before, tracker.Value(), id, "");
    } else if saving {
      tracker.Persist(tracker.operations[id]);
    } else {
      Report(tracker, id);
    }
  }

  /** A status request, as it is handed to the call of the seller's tool. */
  datatype Request = Request(id: string, taskId: string, at: real)

  /** The sellers' side; `requests` records every status request and `answers` what came of it. */
  class Wire {
    ghost var requests: seq<Request>
    ghost var answers: seq<Option<Response>>

    constructor ()
      ensures requests == [] && answers == []
    {
      requests, answers := [], [];
    }

    /** Ask a seller for the status of a task; None when that fails, for whatever reason. */
    method TasksGet(w: World, ghost id: string, taskId: string) returns (response: Option<Response>)
      modifies this
      ensures requests == old(requests) + [Request(id, taskId, w.now)]
      ensures answers == old(answers) + [response]
    {
      requests := requests + [Request(id, taskId, w.now)];
      response := *;
      answers := answers + [response];
    }
  }

  /** At that moment of the history an operation took over an answer, and then counted it. */
  ghost predicate TookOver(history: seq<Contents>, at: nat, id: string, r: Response) {
    && 0 < at && at + 1 < |history| && id in history[at - 1]
    && var f := FieldsAfter(r, history[at - 1][id]);
       && history[at] == history[at - 1][id := f]
       && history[at + 1] == history[at][id := f.(pollCount := f.pollCount + 1)]
  }

  lemma TookOverNow(history: seq<Contents>, after: seq<Contents>, m: Contents, taken: Contents, last: Contents,
                    id: string, r: Response)
    requires history != [] && history[|history| - 1] == m && after == history + [taken] + [last]
    requires id in m && taken == m[id := FieldsAfter(r, m[id])]
    requires last == taken[id := taken[id].(pollCount := taken[id].pollCount + 1)]
    ensures TookOver(after, |history|, id, r) && Counted(m, last, id, 1) && history <= after
  {
    assert after[|history| - 1] == m;
  }

  lemma TookOverLater(history: seq<Contents>, later: seq<Contents>, at: nat, id: string, r: Response)
    requires TookOver(history, at, id, r) && history <= later
    ensures TookOver(later, at, id, r)
  {
    assert later[at - 1] == history[at - 1] && later[at] == history[at] && later[at + 1] == history[at + 1];
  }

  /** Update an operation, by its identifier, from an answer. */
  method UpdatePolled(tracker: OperationTracker, op: TrackedOperation, response: Response)
    requires tracker.Valid() && op.id in tracker.operations && tracker.operations[op.id] == op
    modifies tracker`gauge, tracker`history, op
    ensures tracker.Valid() && tracker.history == old(tracker.history) + [tracker.Value()]
    ensures op.id in old(tracker.Value())
    ensures tracker.Value() == old(tracker.Value())[op.id := FieldsAfter(response, old(tracker.Value())[op.id])]
    ensures old(tracker.Persisted()) ==> tracker.Persisted()
  {
    var found := tracker.UpdateFromResponse(op.id, response);
  }

  /** Update an operation from an answer, and count the poll. */
  method TakeAnswer(tracker: OperationTracker, op: TrackedOperation, response: Response) returns (ghost at: nat)
    requires tracker.Valid() && op.id in tracker.operations && tracker.operations[op.id] == op
    modifies tracker`gauge, tracker`history, op
    ensures tracker.Valid() && (old(tracker.Persisted()) ==> tracker.Persisted())
    ensures old(tracker.history) <= tracker.history
    ensures at == |old(tracker.history)| && TookOver(tracker.history, at, op.id, response)
    ensures Counted(old(tracker.Value()), tracker.Value(), op.id, 1)
  {
    ghost var before, history := tracker.Value(), tracker.history;
    at := |history|;
    UpdatePolled(tracker, op, response);
    ghost var taken := tracker.Value();
    tracker.CountPoll(op);
    TookOverNow(history, tracker.history, before, taken, tracker.Value(), op.id, response);
  }

  /** Save an operation, which waits before it reads the fields. */
  method SaveNext(tracker: OperationTracker, w: World, op: TrackedOperation)
    requires tracker.Valid() && op.id in tracker.operations && tracker.operations[op.id] == op
    modifies tracker, tracker.operations.Values, w
    ensures tracker.Valid() && Continues(tracker) && KeepsSaves(tracker) && w.now >= old(w.now)
    ensures tracker.dbEnabled ==> op.id in tracker.saved && tracker.saved[op.id] == |tracker.history| - 1
    ensures Counted(old(tracker.Value()), tracker.Value(), "", 0)
  {
    Webhooks(tracker, w);
    tracker.Persist(op);
  }

  /** Save an operation, and wait for the database. */
  method Save(tracker: OperationTracker, w: World, op: TrackedOperation)
    requires tracker.Valid() && op.id in tracker.operations && tracker.operations[op.id] == op
    modifies tracker, tracker.operations.Values, w
    ensures tracker.Valid() && Continues(tracker) && KeepsSaves(tracker) && w.now >= old(w.now)
    ensures tracker.dbEnabled ==> op.id in tracker.saved && tracker.saved[op.id] >= |old(tracker.history)| - 1
    ensures Counted(old(tracker.Value()), tracker.Value(), "", 0)
  {
    SaveNext(tracker, w, op);
    Webhooks(tracker, w);
  }

  /** Take over an answer, count it and save the operation. */
  method Absorb(tracker: OperationTracker, w: World, op: TrackedOperation, response: Response) returns (ghost at: nat)
    requires tracker.Valid() && op.id in tracker.operations && tracker.operations[op.id] == op
    modifies tracker, tracker.operations.Values, w
    ensures tracker.Valid() && Continues(tracker) && w.now >= old(w.now)
    ensures |old(tracker.history)| <= at && TookOver(tracker.history, at, op.id, response)
    ensures tracker.dbEnabled ==> op.id in tracker.saved && tracker.saved[op.id] > at
    ensures Counted(old(tracker.Value()), tracker.Value(), op.id, 1)
  {
    ghost var before := tracker.Value();
    at := TakeAnswer(tracker, op, response);
    ghost var taken, history := tracker.Value(), tracker.history;
    Save(tracker, w, op);
    TookOverLater(history, tracker.history, at, op.id, response);
    CountedNone(taken, tracker.Value(), "", op.id);
    CountedThen(before, taken, tracker.Value(), op.id, 1, 0);
  }

  /** Ask for the status of an operation, and wait for the answer. */
  method Ask(tracker: OperationTracker, wire: Wire, w: World, op: TrackedOperation) returns (response: Option<Response>)
    requires tracker.Valid() && op.id in tracker.operations && tracker.operations[op.id] == op
    modifies tracker, tracker.operations.Values, wire, w
    ensures tracker.Valid() && Continues(tracker) && w.now >= old(w.now)
    ensures wire.requests == old(wire.requests) + [Request(op.id, old(op.taskId), old(w.now))]
    ensures wire.answers == old(wire.answers) + [response]
    ensures Counted(old(tracker.Value()), tracker.Value(), op.id, 0)
  {
    ghost var before := tracker.Value();
    response := wire.TasksGet(w, op.id, op.taskId);
    Webhooks(tracker, w);
    CountedNone(before, tracker.Value(), "", op.id);
  }

  /** Poll one operation, with one request. An answer updates it and is counted and saved; a
      failed request changes nothing but what webhooks do meanwhile. */
  method PollSingle(tracker: OperationTracker, wire: Wire, w: World, op: TrackedOperation)
    returns (response: Option<Response>, ghost at: nat)
    requires tracker.Valid() && op.id in tracker.operations && tracker.operations[op.id] == op
    modifies tracker, tracker.operations.Values, wire, w
    ensures tracker.Valid() && Continues(tracker) && w.now >= old(w.now)
    ensures wire.requests == old(wire.requests) + [Request(op.id, old(op.taskId), old(w.now))]
    ensures wire.answers == old(wire.answers) + [response]
    ensures response.Some? ==>
              |old(tracker.history)| <= at && TookOver(tracker.history, at, op.id, response.value)
              && (tracker.dbEnabled ==> op.id in tracker.saved && tracker.saved[op.id] > at)
    ensures Counted(old(tracker.Value()), tracker.Value(), op.id, if response.Some? then 1 else 0)
  {
    ghost var before := tracker.Value();
    response := Ask(tracker, wire, w, op);
    at := 0;
    if response.Some? {
      ghost var middle := tracker.Value();
      at := Absorb(tracker, w, op, response.value);
      CountedThen(before, middle, tracker.Value(), op.id, 0, 1);
    }
  }

  // ---- the loop ----

  /** No later poll is of the same operation. */
  ghost predicate Latest(polls: seq<Poll>, i: nat)
    requires i < |polls|
  {
    forall k :: i < k < |polls| ==> polls[k].id != polls[i].id
  }

  /** The start of the latest poll of an operation, unless that left it terminal. */
  function StampOf(polls: seq<Poll>, id: string): Option<real> {
    if polls == [] then None
    else
      var last := polls[|polls| - 1];
      if last.id == id then (if last.leftTerminal then None else Some(last.start))
      else StampOf(polls[..|polls| - 1], id)
  }

  function Lookup(stamps: map<string, real>, id: string): Option<real> {
    if id in stamps then Some(stamps[id]) else None
  }

  /** The timestamps are those of the polls made. */
  ghost predicate Stamped(stamps: map<string, real>, polls: seq<Poll>) {
    forall id :: Lookup(stamps, id) == StampOf(polls, id)
  }

  lemma {:induction false} LatestStamp(polls: seq<Poll>, i: nat)
    requires i < |polls| && Latest(polls, i)
    ensures StampOf(polls, polls[i].id) == if polls[i].leftTerminal then None else Some(polls[i].start)
    decreases |polls|
  {
    if i == |polls| - 1 {
    } else {
      var most := polls[..|polls| - 1];
      assert forall k :: 0 <= k < |most| ==> most[k] == polls[k];
      assert polls[|polls| - 1].id != polls[i].id;
      LatestStamp(most, i);
    }
  }

  /** Polls of earlier rounds started 5 s or more before this round; those of this round are of
      operations already visited in it. */
  ghost predicate Timed(polls: seq<Poll>, round: nat, roundStart: real, visits: seq<Visit>) {
    forall i :: 0 <= i < |polls| ==>
      if polls[i].round < round then polls[i].start + 5.0 <= roundStart
      else polls[i].round == round && Visited(visits, polls[i].id)
  }

  ghost predicate Visited(visits: seq<Visit>, id: string) {
    exists v :: v in visits && v.id == id
  }

  lemma VisitedGrows(visits: seq<Visit>, v: Visit, id: string)
    ensures Visited(visits + [v], id) <==> Visited(visits, id) || id == v.id
  {
    if Visited(visits, id) {
      var u :| u in visits && u.id == id;
      assert u in visits + [v];
    }
    assert v in visits + [v];
  }

  lemma SuccessiveBefore(polls: seq<Poll>, p: Poll, i: nat, j: nat)
    requires i < j <= |polls| && Successive(polls + [p], i, j)
    ensures Successive(polls, i, j)
  {
    assert forall k :: 0 <= k < |polls| ==> (polls + [p])[k] == polls[k];
  }

  /** The new poll against an earlier poll of the same operation. */
  lemma NewPair(polls: seq<Poll>, p: Poll, stamps: map<string, real>, i: nat)
    requires Stamped(stamps, polls) && i < |polls| && polls[i].id == p.id
    requires p.id in stamps ==> p.start - stamps[p.id] >= p.interval as real
    requires Successive(polls, i, |polls|) && !polls[i].leftTerminal
    ensures p.start - polls[i].start >= p.interval as real
  {
    assert Latest(polls, i);
    LatestStamp(polls, i);
    assert Lookup(stamps, p.id) == StampOf(polls, p.id);
  }

  lemma AddSpaced(polls: seq<Poll>, p: Poll, stamps: map<string, real>)
    requires Spaced(polls) && Stamped(stamps, polls)
    requires forall i :: 0 <= i < |polls| && polls[i].id == p.id ==> p.start - polls[i].start >= 5.0
    requires p.id in stamps ==> p.start - stamps[p.id] >= p.interval as real
    ensures Spaced(polls + [p])
  {
    var next := polls + [p];
    assert next[|polls|] == p && forall k :: 0 <= k < |polls| ==> next[k] == polls[k];
    forall i, j | 0 <= i < j < |next| && next[i].id == next[j].id
      ensures next[j].start - next[i].start >= 5.0
      ensures Successive(next, i, j) && !next[i].leftTerminal ==>
                next[j].start - next[i].start >= next[j].interval as real
    {
      if Successive(next, i, j) && !next[i].leftTerminal {
        SuccessiveBefore(polls, p, i, j);
        if j == |polls| {
          NewPair(polls, p, stamps, i);
        }
      }
    }
  }

  lemma AddStamped(polls: seq<Poll>, p: Poll, stamps: map<string, real>, after: map<string, real>)
    requires Stamped(stamps, polls)
    requires after == if p.leftTerminal then stamps - {p.id} else stamps[p.id := p.start]
    ensures Stamped(after, polls + [p])
  {
    var next := polls + [p];
    assert next[..|polls|] == polls && next[|polls|] == p;
    forall id
      ensures Lookup(after, id) == StampOf(next, id)
    {
      assert Lookup(stamps, id) == StampOf(polls, id);
    }
  }

  function StampOrZero(stamps: map<string, real>, id: string): real {
    if id in stamps then stamps[id] else 0.0
  }

  /** What holds of the polls and timestamps during a round. */
  ghost predicate InRound(polls: seq<Poll>, stamps: map<string, real>, round: nat, roundStart: real,
                          visits: seq<Visit>, now: real)
  {
    && (forall i :: 0 <= i < |polls| ==> Justified(polls[i]) && polls[i].start <= now)
    && Spaced(polls) && Stamped(stamps, polls) && Timed(polls, round, roundStart, visits)
    && roundStart <= now
  }

  lemma InRoundLater(polls: seq<Poll>, stamps: map<string, real>, round: nat, roundStart: real, visits: seq<Visit>,
                     now: real, v: Visit, later: real)
    requires InRound(polls, stamps, round, roundStart, visits, now) && now <= later
    ensures InRound(polls, stamps, round, roundStart, visits + [v], later)
  {
    forall i | 0 <= i < |polls|
      ensures Visited(visits, polls[i].id) ==> Visited(visits + [v], polls[i].id)
    {
      VisitedGrows(visits, v, polls[i].id);
    }
  }

  lemma InRoundPolled(polls: seq<Poll>, stamps: map<string, real>, round: nat, roundStart: real, visits: seq<Visit>,
                      now: real, p: Poll, after: map<string, real>, v: Visit, later: real)
    requires InRound(polls, stamps, round, roundStart, visits, now) && now <= p.start <= later
    requires Justified(p) && p.round == round && !Visited(visits, p.id) && v.id == p.id
    requires p.start - StampOrZero(stamps, p.id) >= p.interval as real
    requires after == if p.leftTerminal then stamps - {p.id} else stamps[p.id := p.start]
    ensures InRound(polls + [p], after, round, roundStart, visits + [v], later)
  {
    AddSpaced(polls, p, stamps);
    AddStamped(polls, p, stamps, after);
    InRoundLater(polls, stamps, round, roundStart, visits, now, v, later);
    VisitedGrows(visits, v, p.id);
    var next := polls + [p];
    assert next[|polls|] == p && forall i :: 0 <= i < |polls| ==> next[i] == polls[i];
  }

  // ---- visits ----

  /** What looking for the seller of an operation comes to, in each round. */
  datatype Search = Found | NotFound | Raises

  type Sellers = (nat, string) -> Search

  type History = seq<Contents>

  /** One look at a pending operation. It is decided on the contents at position `moment` of the
      tracker's history and on the first `made` polls, at time `now`; the history has reached
      position `after` when it is over. */
  datatype Visit = Visit(id: string, moment: nat, after: nat, made: nat, now: real, polled: bool)

  ghost predicate Placed(history: History, polls: seq<Poll>, v: Visit) {
    v.moment <= v.after < |history| && v.id in history[v.moment] && v.id in history[v.after] && v.made <= |polls|
  }

  /** The seller gave the operation a task, and it is working and 5 s have passed since its
      timestamp, or submitted and 60 s have passed. */
  ghost predicate Due(history: History, polls: seq<Poll>, v: Visit)
    requires Placed(history, polls, v)
  {
    var f := history[v.moment][v.id];
    && f.taskId != ""
    && ((f.status.Working? && v.now - StampOf(polls[..v.made], v.id).GetOr(0.0) >= 5.0)
        || (f.status.Submitted? && v.now - StampOf(polls[..v.made], v.id).GetOr(0.0) >= 60.0))
  }

  /** The poll a visit makes. */
  ghost function PollOf(history: History, polls: seq<Poll>, round: nat, v: Visit): Poll
    requires Placed(history, polls, v) && Due(history, polls, v)
  {
    var f := history[v.moment][v.id];
    var leftTerminal := IsTerminal(history[v.after][v.id].status);
    Poll(v.id, f.taskId, v.now, f.status, if f.status.Submitted? then 60 else 5, round, leftTerminal)
  }

  /** An operation is polled exactly when it is due and its seller is found, and nothing happens
      on a visit that does not poll. */
  ghost predicate Right(history: History, polls: seq<Poll>, find: Sellers, round: nat, v: Visit) {
    && Placed(history, polls, v)
    && (v.polled <==> Due(history, polls, v) && find(round, v.id) == Found)
    && (if v.polled then v.made < |polls| && polls[v.made] == PollOf(history, polls, round, v) else v.after == v.moment)
  }

  /** Looking for the seller of a due operation raises, which ends the round. */
  ghost predicate Breaks(history: History, polls: seq<Poll>, find: Sellers, round: nat, v: Visit) {
    Placed(history, polls, v) && Due(history, polls, v) && find(round, v.id) == Raises
  }

  /** What is true of a visit stays true. */
  lemma RightLater(history: History, polls: seq<Poll>, later: History, more: seq<Poll>, find: Sellers, round: nat,
                   v: Visit)
    requires history <= later && polls <= more && Right(history, polls, find, round, v)
    ensures Right(later, more, find, round, v)
    ensures Breaks(later, more, find, round, v) <==> Breaks(history, polls, find, round, v)
  {
    assert more[..v.made] == polls[..v.made];
    assert later[v.moment] == history[v.moment] && later[v.after] == history[v.after];
  }

  /** Where things stand: the position in the history, the number of polls, and the time. */
  datatype Mark = Mark(moment: nat, made: nat, at: real)

  /** Where they stand after visits that began at a mark. */
  function After(mark: Mark, visits: seq<Visit>): Mark {
    if visits == [] then mark
    else
      var last := visits[|visits| - 1];
      Mark(last.after, last.made + (if last.polled then 1 else 0), last.now)
  }

  /** An operation is working or submitted. */
  ghost predicate PendingIn(contents: Contents, id: string) {
    id in contents && (contents[id].status.Submitted? || contents[id].status.Working?)
  }

  ghost predicate AllVisited(contents: Contents, visits: seq<Visit>) {
    forall id :: PendingIn(contents, id) ==> Visited(visits, id)
  }

  /** A visit that begins where the visits before it ended. */
  ghost predicate NextVisit(history: History, polls: seq<Poll>, find: Sellers, round: nat, mark: Mark,
                            before: seq<Visit>, v: Visit)
  {
    var m := After(mark, before);
    && v.moment == m.moment && v.made == m.made && v.now >= m.at
    && Right(history, polls, find, round, v)
    && mark.moment < |history| && PendingIn(history[mark.moment], v.id) && !Visited(before, v.id)
  }

  /** The last of the visits broke the round off. */
  ghost predicate BrokeOff(history: History, polls: seq<Poll>, find: Sellers, round: nat, visits: seq<Visit>) {
    visits != [] && Breaks(history, polls, find, round, visits[|visits| - 1])
  }

  /** Visits of a round: of operations pending at its start, each once and each right, and none
      after one that broke it off. */
  ghost predicate Visiting(history: History, polls: seq<Poll>, find: Sellers, round: nat, mark: Mark,
                           visits: seq<Visit>)
    decreases |visits|
  {
    if visits == [] then true
    else
      var before := visits[..|visits| - 1];
      && Visiting(history, polls, find, round, mark, before)
      && !BrokeOff(history, polls, find, round, before)
      && NextVisit(history, polls, find, round, mark, before, visits[|visits| - 1])
  }

  /** A round: where things stood when it began, and its visits. */
  datatype Round = Round(mark: Mark, visits: seq<Visit>)

  /** Every operation pending at the start was visited, or the last visit broke the round off. */
  ghost predicate Complete(history: History, polls: seq<Poll>, find: Sellers, round: nat, r: Round)
    requires r.mark.moment < |history|
  {
    BrokeOff(history, polls, find, round, r.visits) || AllVisited(history[r.mark.moment], r.visits)
  }

  ghost predicate RoundOk(history: History, polls: seq<Poll>, find: Sellers, round: nat, r: Round) {
    && r.mark.moment < |history|
    && Visiting(history, polls, find, round, r.mark, r.visits) && Complete(history, polls, find, round, r)
  }

  lemma {:induction false} VisitingLater(history: History, polls: seq<Poll>, later: History, more: seq<Poll>,
                                         find: Sellers, round: nat, mark: Mark, visits: seq<Visit>)
    requires history <= later && polls <= more && Visiting(history, polls, find, round, mark, visits)
    ensures Visiting(later, more, find, round, mark, visits)
    ensures BrokeOff(later, more, find, round, visits) <==> BrokeOff(history, polls, find, round, visits)
    decreases |visits|
  {
    if visits == [] {
    } else {
      var before, v := visits[..|visits| - 1], visits[|visits| - 1];
      VisitingLater(history, polls, later, more, find, round, mark, before);
      RightLater(history, polls, later, more, find, round, v);
      assert later[mark.moment] == history[mark.moment];
    }
  }

  lemma RoundLater(history: History, polls: seq<Poll>, later: History, more: seq<Poll>, find: Sellers, round: nat,
                   r: Round)
    requires history <= later && polls <= more && RoundOk(history, polls, find, round, r)
    ensures RoundOk(later, more, find, round, r)
  {
    VisitingLater(history, polls, later, more, find, round, r.mark, r.visits);
    assert later[r.mark.moment] == history[r.mark.moment];
  }

  /** One more visit. */
  lemma VisitAdded(history: History, polls: seq<Poll>, later: History, more: seq<Poll>, find: Sellers, round: nat,
                   mark: Mark, before: seq<Visit>, v: Visit)
    requires history <= later && polls <= more && Visiting(history, polls, find, round, mark, before)
    requires !BrokeOff(history, polls, find, round, before) && NextVisit(later, more, find, round, mark, before, v)
    ensures Visiting(later, more, find, round, mark, before + [v])
    ensures BrokeOff(later, more, find, round, before + [v]) <==> Breaks(later, more, find, round, v)
    ensures After(mark, before + [v]) == Mark(v.after, v.made + (if v.polled then 1 else 0), v.now)
  {
    VisitingLater(history, polls, later, more, find, round, mark, before);
    var next := before + [v];
    assert next[..|next| - 1] == before && next[|next| - 1] == v;
  }

  /** Every visit of a round is right. */
  lemma {:induction false} EveryVisitRight(history: History, polls: seq<Poll>, find: Sellers, round: nat, mark: Mark,
                                           visits: seq<Visit>, v: Visit)
    requires Visiting(history, polls, find, round, mark, visits) && v in visits
    ensures Right(history, polls, find, round, v) && mark.moment < |history| && PendingIn(history[mark.moment], v.id)
    ensures var f, since := history[v.moment][v.id], v.now - StampOf(polls[..v.made], v.id).GetOr(0.0);
            v.polled <==>
            && f.taskId != "" && find(round, v.id) == Found
            && ((f.status.Working? && since >= 5.0) || (f.status.Submitted? && since >= 60.0))
    decreases |visits|
  {
    var before, last := visits[..|visits| - 1], visits[|visits| - 1];
    if v == last {
    } else {
      assert visits == before + [last];
      EveryVisitRight(history, polls, find, round, mark, before, v);
    }
  }

  // ---- the loop ----

  /** Decide on one pending operation. The clock is read only for an operation with a task and
      an interval. */
  method IsDue(op: TrackedOperation, stamps: map<string, real>, w: World) returns (due: bool, now: real, interval: int)
    modifies w
    ensures w.now >= old(w.now) && now == w.now
    ensures due <==>
              && op.taskId != ""
              && ((op.status.Working? && now - StampOrZero(stamps, op.id) >= 5.0)
                  || (op.status.Submitted? && now - StampOrZero(stamps, op.id) >= 60.0))
    ensures due ==> interval == if op.status.Submitted? then 60 else 5
  {
    due, now, interval := false, w.now, 0;
    if op.taskId == "" {
      return;
    }
    var wanted := PollInterval(op.status);
    if wanted.None? {
      return;
    }
    interval := wanted.value;
    now := w.Clock();
    var last := if op.id in stamps then stamps[op.id] else 0.0;
    due := now - last >= interval as real;
  }

  /** The timestamps after a poll that started at `now`. */
  function StampsAfter(stamps: map<string, real>, id: string, now: real, terminal: bool): map<string, real> {
    if terminal then stamps - {id} else stamps[id := now]
  }

  function RequestOf(p: Poll): Request {
    Request(p.id, p.taskId, p.start)
  }

  /** The requests that polls make. */
  function Requests(polls: seq<Poll>): (r: seq<Request>)
    ensures |r| == |polls|
  {
    seq(|polls|, k requires 0 <= k < |polls| => RequestOf(polls[k]))
  }

  lemma RequestsGrow(polls: seq<Poll>, p: Poll, sent: seq<Request>)
    ensures sent + Requests(polls) + [RequestOf(p)] == sent + Requests(polls + [p])
  {}

  /** Things stand at the end of the history and of the polls, and no later than now. */
  ghost predicate Reached(mark: Mark, history: History, polls: seq<Poll>, now: real) {
    mark.moment == |history| - 1 && mark.made == |polls| && mark.at <= now
  }

  /** Where the loop stands. */
  datatype Present = Present(history: History, polls: seq<Poll>, stamps: map<string, real>, now: real)

  ghost predicate BetweenOk(s: Present, find: Sellers, rounds: seq<Round>) {
    && InRound(s.polls, s.stamps, |rounds|, s.now, [], s.now)
    && Rounds(s.history, s.polls, find, rounds) && AllIn(s.polls, rounds)
    && (rounds != [] ==> s.history != [] && Follows(rounds[|rounds| - 1], Mark(|s.history| - 1, |s.polls|, s.now)))
  }

  /** Where the loop can stand between two rounds. */
  ghost function Between(find: Sellers, rounds: seq<Round>): Present -> bool {
    (s: Present) => BetweenOk(s, find, rounds)
  }

  ghost predicate DuringOk(s: Present, find: Sellers, round: nat, mark: Mark, visits: seq<Visit>) {
    && InRound(s.polls, s.stamps, round, mark.at, visits, s.now)
    && Reached(After(mark, visits), s.history, s.polls, s.now)
    && mark.moment < |s.history| && Visiting(s.history, s.polls, find, round, mark, visits)
  }

  /** Where it can stand during a round, after these visits. */
  ghost function During(find: Sellers, round: nat, mark: Mark, visits: seq<Visit>): Present -> bool {
    (s: Present) => DuringOk(s, find, round, mark, visits)
  }

  lemma DuringMeans(s: Present, find: Sellers, round: nat, mark: Mark, visits: seq<Visit>)
    ensures During(find, round, mark, visits)(s) <==> DuringOk(s, find, round, mark, visits)
  {}

  /** The next operation to visit: it was pending at the start and has not been visited. */
  ghost predicate Upcoming(s: Present, find: Sellers, round: nat, mark: Mark, visits: seq<Visit>, id: string) {
    && s.history != [] && id in s.history[|s.history| - 1]
    && mark.moment < |s.history| && PendingIn(s.history[mark.moment], id)
    && !Visited(visits, id) && !BrokeOff(s.history, s.polls, find, round, visits)
  }

  /** A look at an operation at the present moment. */
  function Look(s: Present, id: string, now: real): Visit
    requires s.history != []
  {
    Visit(id, |s.history| - 1, |s.history| - 1, |s.polls|, now, false)
  }

  lemma Skipped(s: Present, find: Sellers, round: nat, mark: Mark, visits: seq<Visit>, id: string, now: real)
    requires During(find, round, mark, visits)(s) && Upcoming(s, find, round, mark, visits, id) && s.now <= now
    requires !(Due(s.history, s.polls, Look(s, id, now)) && find(round, id) == Found)
    ensures During(find, round, mark, visits + [Look(s, id, now)])(s.(now := now))
    ensures BrokeOff(s.history, s.polls, find, round, visits + [Look(s, id, now)]) <==>
            Breaks(s.history, s.polls, find, round, Look(s, id, now))
  {
    var v := Look(s, id, now);
    DuringMeans(s, find, round, mark, visits);
    InRoundLater(s.polls, s.stamps, round, mark.at, visits, s.now, v, now);
    VisitAdded(s.history, s.polls, s.history, s.polls, find, round, mark, visits, v);
    DuringMeans(s.(now := now), find, round, mark, visits + [v]);
  }

  /** Where things stand after a poll that started at `now`. */
  ghost predicate AfterPoll(s: Present, t: Present, round: nat, id: string, now: real)
    requires s.history != [] && id in s.history[|s.history| - 1]
  {
    var v := Look(s, id, now);
    && s.history <= t.history && id in t.history[|t.history| - 1] && s.now <= now <= t.now
    && Due(s.history, s.polls, v)
    && var terminal := IsTerminal(t.history[|t.history| - 1][id].status);
       && t.stamps == StampsAfter(s.stamps, id, now, terminal)
       && t.polls == s.polls + [PollOf(s.history, s.polls, round, v).(leftTerminal := terminal)]
  }

  lemma PolledVisit(s: Present, t: Present, find: Sellers, round: nat, mark: Mark, visits: seq<Visit>, id: string,
                    now: real)
    requires DuringOk(s, find, round, mark, visits) && Upcoming(s, find, round, mark, visits, id)
    requires AfterPoll(s, t, round, id, now) && find(round, id) == Found
    ensures var w := Look(s, id, now).(after := |t.history| - 1, polled := true);
            DuringOk(t, find, round, mark, visits + [w]) && !BrokeOff(t.history, t.polls, find, round, visits + [w])
  {
    var v := Look(s, id, now);
    var w := v.(after := |t.history| - 1, polled := true);
    var p := t.polls[|s.polls|];
    assert t.history[v.moment] == s.history[v.moment];
    assert Lookup(s.stamps, id) == StampOf(s.polls, id) && s.polls[..|s.polls|] == s.polls;
    assert p == PollOf(t.history, s.polls, round, w);
    InRoundPolled(s.polls, s.stamps, round, mark.at, visits, s.now, p, t.stamps, w, t.now);
    PolledRight(t.history, s.polls, find, round, w, p);
    VisitAdded(s.history, s.polls, t.history, t.polls, find, round, mark, visits, w);
  }

  lemma Polled(s: Present, t: Present, find: Sellers, round: nat, mark: Mark, visits: seq<Visit>, id: string,
               now: real, w: Visit)
    requires During(find, round, mark, visits)(s) && Upcoming(s, find, round, mark, visits, id)
    requires AfterPoll(s, t, round, id, now) && find(round, id) == Found
    requires w == Look(s, id, now).(after := |t.history| - 1, polled := true)
    ensures During(find, round, mark, visits + [w])(t) && !BrokeOff(t.history, t.polls, find, round, visits + [w])
  {
    DuringMeans(s, find, round, mark, visits);
    PolledVisit(s, t, find, round, mark, visits, id, now);
    DuringMeans(t, find, round, mark, visits + [w]);
  }

  lemma PolledRight(history: History, polls: seq<Poll>, find: Sellers, round: nat, v: Visit, p: Poll)
    requires Placed(history, polls, v) && Due(history, polls, v) && find(round, v.id) == Found
    requires v.made == |polls| && v.polled && p == PollOf(history, polls, round, v)
    ensures Right(history, polls + [p], find, round, v) && !Breaks(history, polls + [p], find, round, v)
  {
    assert (polls + [p])[..|polls|] == polls[..|polls|];
  }

  /** Poll an operation that is due, and keep the timestamp unless it has become terminal. */
  method PollNow(tracker: OperationTracker, wire: Wire, w: World, round: nat, op: TrackedOperation,
                 stamps0: map<string, real>, now: real, ghost s: Present, ghost sent: seq<Request>)
    returns (stamps: map<string, real>, ghost t: Present)
    requires tracker.Valid() && op.id in tracker.operations && tracker.operations[op.id] == op
    requires s.history == tracker.history && s.stamps == stamps0 && s.now <= now == w.now
    requires Due(s.history, s.polls, Look(s, op.id, now))
    requires wire.requests == sent + Requests(s.polls)
    modifies tracker, tracker.operations.Values, wire, w
    ensures tracker.Valid() && Continues(tracker)
    ensures AfterPoll(s, t, round, op.id, now)
    ensures t.history == tracker.history && t.stamps == stamps && t.now == w.now
    ensures wire.requests == sent + Requests(t.polls)
  {
    assert tracker.Value()[op.id] == op.Value();
    ghost var p := PollOf(s.history, s.polls, round, Look(s, op.id, now));
    var response, at := PollSingle(tracker, wire, w, op);
    var terminal := IsTerminal(op.status);
    assert tracker.Value()[op.id] == op.Value();
    stamps := stamps0[op.id := now];
    if terminal {
      stamps := stamps - {op.id};
    }
    assert stamps == StampsAfter(stamps0, op.id, now, terminal);
    RequestsGrow(s.polls, p.(leftTerminal := terminal), sent);
    t := Present(tracker.history, s.polls + [p.(leftTerminal := terminal)], stamps, w.now);
  }

  /** Decide on an operation: go on and poll it, skip it, or break the round off. */
  method Decide(tracker: OperationTracker, w: World, find: Sellers, round: nat, op: TrackedOperation,
                stamps: map<string, real>, ghost s: Present, ghost mark: Mark, ghost visits: seq<Visit>)
    returns (go: bool, broke: bool, now: real)
    requires tracker.Valid() && op.id in tracker.operations && tracker.operations[op.id] == op
    requires s.history == tracker.history && s.stamps == stamps && During(find, round, mark, visits)(s)
    modifies w
    ensures now == w.now >= old(w.now) && Placed(s.history, s.polls, Look(s, op.id, now))
    ensures go <==> Due(s.history, s.polls, Look(s, op.id, now)) && find(round, op.id) == Found
    ensures broke <==> Breaks(s.history, s.polls, find, round, Look(s, op.id, now))
  {
    var due, interval;
    due, now, interval := IsDue(op, stamps, w);
    DuringMeans(s, find, round, mark, visits);
    assert Lookup(stamps, op.id) == StampOf(s.polls, op.id) && s.polls[..|s.polls|] == s.polls;
    assert tracker.Value()[op.id] == op.Value();
    go, broke := false, false;
    if due {
      var seller := find(round, op.id);
      go, broke := seller == Found, seller == Raises;
    }
  }

  /** One more visit, of this operation. */
  ghost predicate Extends(visits: seq<Visit>, before: seq<Visit>, id: string) {
    |visits| == |before| + 1 && visits[..|before|] == before && visits[|before|].id == id
  }

  lemma LookMeans(s: Present, id: string, now: real)
    requires s.history != [] && Placed(s.history, s.polls, Look(s, id, now))
    ensures var f, since := s.history[|s.history| - 1][id], now - StampOf(s.polls, id).GetOr(0.0);
            Due(s.history, s.polls, Look(s, id, now)) <==>
            f.taskId != "" && ((f.status.Working? && since >= 5.0) || (f.status.Submitted? && since >= 60.0))
  {
    assert s.polls[..|s.polls|] == s.polls;
  }

  /** Visit one operation of the list. */
  method VisitOne(tracker: OperationTracker, wire: Wire, w: World, find: Sellers, round: nat, op: TrackedOperation,
                  stamps0: map<string, real>, ghost s: Present, ghost mark: Mark, ghost visits0: seq<Visit>,
                  ghost sent: seq<Request>)
    returns (stamps: map<string, real>, broke: bool, ghost t: Present, ghost visits: seq<Visit>)
    requires tracker.Valid() && op.id in tracker.operations && tracker.operations[op.id] == op
    requires s.history == tracker.history && s.stamps == stamps0 && s.now == w.now
             && wire.requests == sent + Requests(s.polls)
    requires During(find, round, mark, visits0)(s) && Upcoming(s, find, round, mark, visits0, op.id)
    modifies tracker, tracker.operations.Values, wire, w
    ensures tracker.Valid() && Continues(tracker)
    ensures t.history == tracker.history && t.stamps == stamps && t.now == w.now
            && wire.requests == sent + Requests(t.polls)
    ensures During(find, round, mark, visits)(t) && s.polls <= t.polls
    ensures Extends(visits, visits0, op.id)
    ensures broke <==> BrokeOff(t.history, t.polls, find, round, visits)
    ensures var f := s.history[|s.history| - 1][op.id];
            var since := visits[|visits0|].now - StampOf(s.polls, op.id).GetOr(0.0);
            |t.polls| > |s.polls| <==>
            && f.taskId != "" && find(round, op.id) == Found
            && ((f.status.Working? && since >= 5.0) || (f.status.Submitted? && since >= 60.0))
  {
    var go, now;
    go, broke, now := Decide(tracker, w, find, round, op, stamps0, s, mark, visits0);
    ghost var v := Look(s, op.id, now);
    if go {
      stamps, t := PollNow(tracker, wire, w, round, op, stamps0, now, s, sent);
      v := v.(after := |t.history| - 1, polled := true);
      Polled(s, t, find, round, mark, visits0, op.id, now, v);
    } else {
      Skipped(s, find, round, mark, visits0, op.id, now);
      stamps, t := stamps0, s.(now := now);
    }
    visits := visits0 + [v];
    LookMeans(s, op.id, now);
  }

  /** Visits are of these operations, in this order. */
  ghost predicate SameIds(visits: seq<Visit>, ids: seq<string>) {
    |visits| <= |ids| && forall i :: 0 <= i < |visits| ==> visits[i].id == ids[i]
  }

  lemma NotYet(visits: seq<Visit>, ids: seq<string>)
    requires SameIds(visits, ids) && |visits| < |ids|
    requires forall i, j :: 0 <= i < j < |ids| ==> ids[i] != ids[j]
    ensures !Visited(visits, ids[|visits|])
  {}

  lemma SameIdsGrow(visits: seq<Visit>, ids: seq<string>, next: seq<Visit>)
    requires SameIds(visits, ids) && |visits| < |ids| && Extends(next, visits, ids[|visits|])
    ensures SameIds(next, ids) && |next| == |visits| + 1
  {
    assert forall i :: 0 <= i < |visits| ==> next[i] == visits[i];
  }

  /** Visit the next operation of a list. */
  method VisitNext(tracker: OperationTracker, wire: Wire, w: World, find: Sellers, round: nat, op: TrackedOperation,
                   stamps0: map<string, real>, ghost s: Present, ghost mark: Mark, ghost visits0: seq<Visit>,
                   ghost contents: Contents, ghost ids: seq<string>, ghost sent: seq<Request>)
    returns (stamps: map<string, real>, broke: bool, ghost t: Present, ghost visits: seq<Visit>)
    requires tracker.Valid() && op.id in tracker.operations && tracker.operations[op.id] == op
    requires s.history == tracker.history && s.stamps == stamps0 && s.now == w.now
             && wire.requests == sent + Requests(s.polls)
    requires During(find, round, mark, visits0)(s) && !BrokeOff(s.history, s.polls, find, round, visits0)
    requires mark.moment < |s.history| && s.history[mark.moment] == contents && PendingIn(contents, op.id)
    requires SameIds(visits0, ids) && |visits0| < |ids| && ids[|visits0|] == op.id
    requires forall i, j :: 0 <= i < j < |ids| ==> ids[i] != ids[j]
    modifies tracker, tracker.operations.Values, wire, w
    ensures tracker.Valid() && Continues(tracker)
    ensures t.history == tracker.history && t.stamps == stamps && t.now == w.now
            && wire.requests == sent + Requests(t.polls)
    ensures During(find, round, mark, visits)(t) && s.polls <= t.polls
    ensures broke <==> BrokeOff(t.history, t.polls, find, round, visits)
    ensures SameIds(visits, ids) && |visits| == |visits0| + 1
  {
    NotYet(visits0, ids);
    assert op.id in tracker.Value();
    stamps, broke, t, visits := VisitOne(tracker, wire, w, find, round, op, stamps0, s, mark, visits0, sent);
    SameIdsGrow(visits0, ids, visits);
  }

  /** Visit the operations of a list, until one breaks the round off. */
  method VisitAll(tracker: OperationTracker, wire: Wire, w: World, find: Sellers, round: nat,
                  pending: seq<TrackedOperation>,
                  stamps0: map<string, real>, ghost s: Present, ghost mark: Mark, ghost contents: Contents,
                  ghost ids: seq<string>, ghost sent: seq<Request>)
    returns (stamps: map<string, real>, ghost t: Present, ghost visits: seq<Visit>)
    requires tracker.Valid() && Listed(tracker.operations, pending, ids)
    requires forall i, j :: 0 <= i < j < |ids| ==> ids[i] != ids[j]
    requires forall i :: 0 <= i < |ids| ==> PendingIn(contents, ids[i])
    requires s.history == tracker.history && s.stamps == stamps0 && s.now == w.now
             && wire.requests == sent + Requests(s.polls)
    requires During(find, round, mark, [])(s) && mark.moment < |s.history| && s.history[mark.moment] == contents
    modifies tracker, tracker.operations.Values, wire, w
    ensures tracker.Valid() && Continues(tracker)
    ensures t.history == tracker.history && t.stamps == stamps && t.now == w.now
            && wire.requests == sent + Requests(t.polls)
    ensures During(find, round, mark, visits)(t) && s.polls <= t.polls
    ensures SameIds(visits, ids) && (|visits| == |ids| || BrokeOff(t.history, t.polls, find, round, visits))
  {
    stamps, t, visits := stamps0, s, [];
    for n := 0 to |pending|
      invariant tracker.Valid() && Continues(tracker) && Listed(tracker.operations, pending, ids)
      invariant mark.moment < |tracker.history| && tracker.history[mark.moment] == contents
      invariant |visits| == n && SameIds(visits, ids)
      invariant t.history == tracker.history && t.stamps == stamps && t.now == w.now
                && wire.requests == sent + Requests(t.polls)
      invariant During(find, round, mark, visits)(t) && s.polls <= t.polls
      invariant !BrokeOff(t.history, t.polls, find, round, visits)
    {
      var broke: bool;
      stamps, broke, t, visits :=
        VisitNext(tracker, wire, w, find, round, pending[n], stamps, t, mark, visits, contents, ids, sent);
      if broke {
        return;
      }
    }
  }

  ghost predicate Listed(operations: map<string, TrackedOperation>, pending: seq<TrackedOperation>, ids: seq<string>) {
    |ids| == |pending| && forall i :: 0 <= i < |pending| ==>
      pending[i].id == ids[i] && ids[i] in operations && operations[ids[i]] == pending[i]
  }

  /** The operations to visit in a round, and their identifiers. */
  method ListPending(tracker: OperationTracker) returns (pending: seq<TrackedOperation>, ghost ids: seq<string>)
    requires tracker.Valid()
    ensures Listed(tracker.operations, pending, ids)
    ensures forall i, j :: 0 <= i < j < |ids| ==> ids[i] != ids[j]
    ensures forall id :: PendingIn(tracker.Value(), id) <==> id in ids
  {
    pending := tracker.GetPending();
    ids := seq(|pending|, i requires 0 <= i < |pending| => pending[i].id);
    forall id | PendingIn(tracker.Value(), id)
      ensures id in ids
    {
      var i :| 0 <= i < |pending| && pending[i] == tracker.operations[id];
      assert ids[i] == id;
    }
  }

  /** One round. */
  method PollRound(tracker: OperationTracker, wire: Wire, w: World, find: Sellers, round: nat,
                   stamps0: map<string, real>, ghost s: Present, ghost rounds: seq<Round>, ghost sent: seq<Request>)
    returns (stamps: map<string, real>, ghost t: Present, ghost r: Round)
    requires tracker.Valid() && |rounds| == round && Between(find, rounds)(s)
    requires s.history == tracker.history && s.stamps == stamps0 && s.now == w.now
             && wire.requests == sent + Requests(s.polls)
    modifies tracker, tracker.operations.Values, wire, w
    ensures tracker.Valid() && Continues(tracker)
    ensures t.history == tracker.history && t.stamps == stamps && t.now == w.now
            && wire.requests == sent + Requests(t.polls)
    ensures r.mark == Mark(|s.history| - 1, |s.polls|, s.now) && s.polls <= t.polls
    ensures During(find, round, r.mark, r.visits)(t) && RoundOk(t.history, t.polls, find, round, r)
  {
    ghost var mark, contents := Mark(|s.history| - 1, |s.polls|, s.now), tracker.Value();
    RoundBegins(s, find, rounds, mark);
    var pending;
    ghost var ids;
    pending, ids := ListPending(tracker);
    ghost var visits: seq<Visit>;
    stamps, t, visits := VisitAll(tracker, wire, w, find, round, pending, stamps0, s, mark, contents, ids, sent);
    r := Round(mark, visits);
    if |visits| == |ids| {
      AllIdsVisited(contents, visits, ids);
    }
    RoundEnds(t, find, round, r, contents);
  }

  lemma RoundBegins(s: Present, find: Sellers, rounds: seq<Round>, mark: Mark)
    requires Between(find, rounds)(s) && s.history != [] && mark == Mark(|s.history| - 1, |s.polls|, s.now)
    ensures During(find, |rounds|, mark, [])(s)
  {}

  lemma RoundEnds(s: Present, find: Sellers, round: nat, r: Round, contents: Contents)
    requires During(find, round, r.mark, r.visits)(s)
    requires r.mark.moment < |s.history| && s.history[r.mark.moment] == contents
    requires AllVisited(contents, r.visits) || BrokeOff(s.history, s.polls, find, round, r.visits)
    ensures RoundOk(s.history, s.polls, find, round, r)
  {}

  lemma AllIdsVisited(contents: Contents, visits: seq<Visit>, ids: seq<string>)
    requires SameIds(visits, ids) && |visits| == |ids|
    requires forall id :: PendingIn(contents, id) ==> id in ids
    ensures AllVisited(contents, visits)
  {
    forall id | PendingIn(contents, id)
      ensures Visited(visits, id)
    {
      var i :| 0 <= i < |ids| && ids[i] == id;
      assert visits[i] in visits;
    }
  }

  /** Rounds one after the other, at least 5 s apart: each begins with the polls of those before
      it. */
  ghost predicate Rounds(history: History, polls: seq<Poll>, find: Sellers, rounds: seq<Round>)
    decreases |rounds|
  {
    if rounds == [] then true
    else
      var before, r := rounds[..|rounds| - 1], rounds[|rounds| - 1];
      && Rounds(history, polls, find, before) && RoundOk(history, polls, find, |before|, r)
      && (if before == [] then r.mark.made == 0 else Follows(before[|before| - 1], r.mark))
  }

  ghost predicate Follows(r: Round, next: Mark) {
    var m := After(r.mark, r.visits);
    next.made == m.made && next.moment >= m.moment && next.at >= m.at + 5.0
  }

  /** Every poll was made in one of the rounds. */
  ghost predicate AllIn(polls: seq<Poll>, rounds: seq<Round>) {
    |polls| == if rounds == [] then 0 else After(rounds[|rounds| - 1].mark, rounds[|rounds| - 1].visits).made
  }

  lemma {:induction false} RoundsLater(history: History, polls: seq<Poll>, later: History, more: seq<Poll>,
                                       find: Sellers, rounds: seq<Round>)
    requires history <= later && polls <= more && Rounds(history, polls, find, rounds)
    ensures Rounds(later, more, find, rounds)
    decreases |rounds|
  {
    if rounds == [] {
    } else {
      RoundsLater(history, polls, later, more, find, rounds[..|rounds| - 1]);
      RoundLater(history, polls, later, more, find, |rounds| - 1, rounds[|rounds| - 1]);
    }
  }

  lemma RoundAdded(history: History, polls: seq<Poll>, find: Sellers, rounds: seq<Round>, r: Round)
    requires Rounds(history, polls, find, rounds) && RoundOk(history, polls, find, |rounds|, r)
    requires if rounds == [] then r.mark.made == 0 else Follows(rounds[|rounds| - 1], r.mark)
    ensures Rounds(history, polls, find, rounds + [r]) && (rounds + [r])[|rounds|] == r
  {
    assert (rounds + [r])[..|rounds|] == rounds;
  }

  /** A round and the wait after it, of at least 5 s. */
  lemma RoundDone(s: Present, find: Sellers, rounds: seq<Round>, r: Round, m: Present, t: Present)
    requires BetweenOk(s, find, rounds) && s.history != []
    requires s.history <= m.history <= t.history && s.polls <= m.polls
    requires t == Present(t.history, m.polls, m.stamps, t.now) && t.now >= m.now + 5.0
    requires r.mark == Mark(|s.history| - 1, |s.polls|, s.now)
    requires DuringOk(m, find, |rounds|, r.mark, r.visits)
    requires RoundOk(m.history, m.polls, find, |rounds|, r)
    ensures BetweenOk(t, find, rounds + [r])
  {
    RoundsLater(s.history, s.polls, t.history, t.polls, find, rounds);
    RoundLater(m.history, m.polls, t.history, t.polls, find, |rounds|, r);
    RoundAdded(t.history, t.polls, find, rounds, r);
  }

  lemma RoundOver(s: Present, find: Sellers, rounds: seq<Round>, r: Round, m: Present, t: Present)
    requires Between(find, rounds)(s) && s.history != []
    requires s.history <= m.history <= t.history && s.polls <= m.polls
    requires t == Present(t.history, m.polls, m.stamps, t.now) && t.now >= m.now + 5.0
    requires r.mark == Mark(|s.history| - 1, |s.polls|, s.now)
    requires During(find, |rounds|, r.mark, r.visits)(m) && RoundOk(m.history, m.polls, find, |rounds|, r)
    ensures Between(find, rounds + [r])(t)
  {
    DuringMeans(m, find, |rounds|, r.mark, r.visits);
    RoundDone(s, find, rounds, r, m, t);
  }

  // ---- a submitted operation that is polled sooner ----

  lemma OneVisit(history: History, polls: seq<Poll>, find: Sellers, round: nat, mark: Mark, v: Visit)
    requires mark.moment < |history| && history[mark.moment].Keys == {v.id} && PendingIn(history[mark.moment], v.id)
    requires v.moment == mark.moment && v.made == mark.made && v.now >= mark.at
    requires Right(history, polls, find, round, v)
    ensures RoundOk(history, polls, find, round, Round(mark, [v]))
    ensures After(mark, [v]) == Mark(v.after, v.made + (if v.polled then 1 else 0), v.now)
  {
    assert [v][..0] == [];
    assert v in [v];
  }

  function Alone(status: Status): Contents {
    map["a" := Fields(status, "t", "", "", "", "", 0)]
  }

  const ALWAYS: Sellers := (round, id) => Found

  /** Working, completed by a poll, and then put back to submitted. */
  const PUT_BACK := [Alone(Working), Alone(Completed), Alone(Submitted)]

  const SOONER := [
    Poll("a", "t", 100.0, Working, 5, 0, false),
    Poll("a", "t", 105.0, Working, 5, 1, true),
    Poll("a", "t", 110.0, Submitted, 60, 2, false)]

  lemma SoonerStamps()
    ensures StampOf(SOONER[..0], "a") == None && StampOf(SOONER[..1], "a") == Some(100.0)
    ensures StampOf(SOONER[..2], "a") == None
  {
    assert SOONER[..1] == [SOONER[0]] && SOONER[..2] == [SOONER[0], SOONER[1]];
  }

  lemma SoonerRound(n: nat, v: Visit)
    requires n < 3
    requires v == [
      Visit("a", 0, 0, 0, 100.0, true), Visit("a", 0, 1, 1, 105.0, true), Visit("a", 2, 2, 2, 110.0, true)][n]
    ensures RoundOk(PUT_BACK, SOONER, ALWAYS, n, Round(Mark(v.moment, n, v.now), [v]))
    ensures After(Mark(v.moment, n, v.now), [v]) == Mark(v.after, n + 1, v.now)
  {
    SoonerStamps();
    OneVisit(PUT_BACK, SOONER, ALWAYS, n, Mark(v.moment, n, v.now), v);
  }

  /** A run in which a submitted operation is polled 10 s after an earlier poll that did not
      leave it terminal, because one in between did. */
  lemma SubmittedSooner() returns (rounds: seq<Round>)
    ensures Rounds(PUT_BACK, SOONER, ALWAYS, rounds) && AllIn(SOONER, rounds) && Spaced(SOONER)
    ensures SOONER[0].id == SOONER[2].id && SOONER[2].status == Submitted && !SOONER[0].leftTerminal
    ensures SOONER[2].start - SOONER[0].start == 10.0
  {
    var u, v, w := Visit("a", 0, 0, 0, 100.0, true), Visit("a", 0, 1, 1, 105.0, true),
                   Visit("a", 2, 2, 2, 110.0, true);
    SoonerRound(0, u);
    SoonerRound(1, v);
    SoonerRound(2, w);
    var r0, r1, r2 := Round(Mark(0, 0, 100.0), [u]), Round(Mark(0, 1, 105.0), [v]), Round(Mark(2, 2, 110.0), [w]);
    RoundAdded(PUT_BACK, SOONER, ALWAYS, [], r0);
    RoundAdded(PUT_BACK, SOONER, ALWAYS, [r0], r1);
    RoundAdded(PUT_BACK, SOONER, ALWAYS, [r0] + [r1], r2);
    rounds := [r0] + [r1] + [r2];
    assert [] + [r0] == [r0];
  }

  /** The wait between two rounds. */
  method Pause(tracker: OperationTracker, w: World)
    requires tracker.Valid()
    modifies tracker, tracker.operations.Values, w
    ensures tracker.Valid() && Continues(tracker) && w.now >= old(w.now) + 5.0
  {
    w.Sleep(5.0);
    Webhooks(tracker, w);
  }

  /** A round, and the wait after it. */
  method RoundAndPause(tracker: OperationTracker, wire: Wire, w: World, find: Sellers, round: nat,
                       stamps0: map<string, real>,
                       ghost s: Present, ghost rounds0: seq<Round>, ghost sent: seq<Request>)
    returns (stamps: map<string, real>, ghost t: Present, ghost rounds: seq<Round>)
    requires tracker.Valid() && |rounds0| == round && Between(find, rounds0)(s)
    requires s.history == tracker.history && s.stamps == stamps0 && s.now == w.now
             && wire.requests == sent + Requests(s.polls)
    modifies tracker, tracker.operations.Values, wire, w
    ensures tracker.Valid() && Continues(tracker)
    ensures t.history == tracker.history && t.stamps == stamps && t.now == w.now
            && wire.requests == sent + Requests(t.polls)
    ensures |rounds| == round + 1 && Between(find, rounds)(t)
  {
    ghost var m, r;
    stamps, m, r := PollRound(tracker, wire, w, find, round, stamps0, s, rounds0, sent);
    Pause(tracker, w);
    t, rounds := Present(tracker.history, m.polls, stamps, w.now), rounds0 + [r];
    RoundOver(s, find, rounds0, r, m, t);
  }

  /** The polling loop, stopped after any number of rounds. */
  method PollLoop(tracker: OperationTracker, wire: Wire, w: World, find: Sellers, total: nat)
    returns (ghost polls: seq<Poll>, ghost rounds: seq<Round>)
    requires tracker.Valid()
    modifies tracker, tracker.operations.Values, wire, w
    ensures tracker.Valid() && Continues(tracker)
    ensures wire.requests == old(wire.requests) + Requests(polls)
    ensures forall i :: 0 <= i < |polls| ==> Justified(polls[i])
    ensures Spaced(polls)
    // a submitted operation is polled 60 s after any earlier poll of it, and a working one 5 s
    // after, unless a poll from that one on left it terminal
    ensures forall i, j :: 0 <= i < j < |polls| && polls[i].id == polls[j].id ==>
              && (polls[j].status.Working? || polls[j].status.Submitted?)
              && polls[j].start - polls[i].start >= 5.0
              && (polls[j].status.Submitted? && NoneTerminal(polls, i, j) ==> polls[j].start - polls[i].start >= 60.0)
    ensures |rounds| == total && Rounds(tracker.history, polls, find, rounds) && AllIn(polls, rounds)
  {
    var stamps: map<string, real> := map[];
    ghost var sent := wire.requests;
    rounds := [];
    ghost var s := Present(tracker.history, [], stamps, w.now);
    assert sent + Requests([]) == sent;
    for round := 0 to total
      invariant tracker.Valid() && Continues(tracker)
      invariant s.history == tracker.history && s.stamps == stamps && s.now == w.now
                && wire.requests == sent + Requests(s.polls)
      invariant |rounds| == round && Between(find, rounds)(s)
    {
      stamps, s, rounds := RoundAndPause(tracker, wire, w, find, round, stamps, s, rounds, sent);
    }
    polls := s.polls;
    forall i, j | 0 <= i < j < |polls| && polls[i].id == polls[j].id && polls[j].status.Submitted?
                  && NoneTerminal(polls, i, j)
      ensures polls[j].start - polls[i].start >= 60.0
    {
      SubmittedSpaced(polls, i, j);
    }
  }
}
