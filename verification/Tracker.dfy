/** The operation tracker and its gauge of operations per status. */
module Tracker {
  import opened Wrappers
  import opened Text

  datatype Status =
    | Pending | Submitted | Working | InputRequired | Completed
    | Failed | Canceled | AuthRequired | Rejected | Unknown

  predicate IsTerminal(s: Status) {
    s.Completed? || s.Failed? || s.Canceled? || s.Rejected?
  }

  predicate NeedsPolling(s: Status) {
    s.Submitted? || s.Working?
  }

  /** Seconds between polls, or None when the status is not polled. */
  function PollInterval(s: Status): Option<int> {
    match s
    case Working => Some(5)
    case Submitted => Some(60)
    case _ => None
  }

  function StatusOf(text: string): Option<Status> {
    match text
    case "pending" => Some(Pending)
    case "submitted" => Some(Submitted)
    case "working" => Some(Working)
    case "input-required" => Some(InputRequired)
    case "completed" => Some(Completed)
    case "failed" => Some(Failed)
    case "canceled" => Some(Canceled)
    case "auth-required" => Some(AuthRequired)
    case "rejected" => Some(Rejected)
    case "unknown" => Some(Unknown)
    case _ => None
  }

  /** The stored spelling of a status. */
  function TextOf(s: Status): string {
    match s
    case Pending => "pending"
    case Submitted => "submitted"
    case Working => "working"
    case InputRequired => "input-required"
    case Completed => "completed"
    case Failed => "failed"
    case Canceled => "canceled"
    case AuthRequired => "auth-required"
    case Rejected => "rejected"
    case Unknown => "unknown"
  }

  /** Reading a status undoes storing it, and nothing else reads as that status. */
  lemma StatusRoundTrip(text: string, s: Status)
    ensures StatusOf(text) == Some(s) <==> text == TextOf(s)
  {
    match s
    case Pending =>
    case Submitted =>
    case Working =>
    case InputRequired =>
    case Completed =>
    case Failed =>
    case Canceled =>
    case AuthRequired =>
    case Rejected =>
    case Unknown =>
  }

  function Dashed(s: string): (r: string)
    ensures |r| == |s|
  {
    seq(|s|, k requires 0 <= k < |s| => if s[k] == '_' then '-' else s[k])
  }

  /** A seller's response, as far as the tracker reads it. */
  datatype Response = Response(
    status: string,
    error: Option<string>,
    errors: Option<string>,
    message: string,
    taskId: Option<string>,
    contextId: Option<string>,
    mediaBuyId: Option<string>)

  /** The status a response puts an operation in, whatever its status was before. */
  function StatusAfter(r: Response): Status {
    match StatusOf(Dashed(Lower(r.status)))
    case Some(s) => s
    case None => if r.error.Some? || r.errors.Some? then Failed else Unknown
  }

  /** The responses that leave an operation terminal, whatever status it had: those with a
      terminal status of their own, and errors without a status. Any other response puts even a
      terminal operation back. */
  lemma TerminalExactly(r: Response)
    ensures IsTerminal(StatusAfter(r)) <==>
            var text := Dashed(Lower(r.status));
            || text == "completed" || text == "failed" || text == "canceled" || text == "rejected"
            || ((forall s :: text != TextOf(s)) && (r.error.Some? || r.errors.Some?))
  {
    var text := Dashed(Lower(r.status));
    forall s
      ensures StatusOf(text) == Some(s) <==> text == TextOf(s)
    {
      StatusRoundTrip(text, s);
    }
    if IsTerminal(StatusAfter(r)) && StatusOf(text).Some? {
      assert text == TextOf(StatusAfter(r));
    }
    assert TextOf(Completed) == "completed" && TextOf(Failed) == "failed";
    assert TextOf(Canceled) == "canceled" && TextOf(Rejected) == "rejected";
  }

  /** A text spells a name: letters in either case, hyphens perhaps as underscores. */
  predicate Spells(text: string, name: string) {
    |text| == |name| && forall k :: 0 <= k < |text| ==>
      LowerChar(text[k]) == name[k] || (text[k] == '_' && name[k] == '-')
  }

  lemma DashedSpells(text: string, name: string)
    requires '_' !in name
    ensures Dashed(Lower(text)) == name <==> Spells(text, name)
  {
    var d := Dashed(Lower(text));
    if Spells(text, name) {
      assert forall k :: 0 <= k < |name| ==> d[k] == name[k];
    }
    if d == name {
      assert forall k :: 0 <= k < |text| ==> d[k] == name[k] && name[k] != '_';
    }
  }

  const STATUS_NAMES := [
    "pending", "submitted", "working", "input-required", "completed",
    "failed", "canceled", "auth-required", "rejected", "unknown"]

  /** The names are those of the statuses. */
  lemma Named(text: string)
    ensures StatusOf(text).Some? <==> text in STATUS_NAMES
  {
    if StatusOf(text).Some? {
      StatusRoundTrip(text, StatusOf(text).value);
    }
  }

  /** The status a response names, in any case and with hyphens or underscores. */
  lemma StatusExactly(r: Response, name: string, s: Status)
    requires
      || (name == "pending" && s == Pending) || (name == "submitted" && s == Submitted)
      || (name == "working" && s == Working) || (name == "input-required" && s == InputRequired)
      || (name == "completed" && s == Completed) || (name == "failed" && s == Failed)
      || (name == "canceled" && s == Canceled) || (name == "auth-required" && s == AuthRequired)
      || (name == "rejected" && s == Rejected) || (name == "unknown" && s == Unknown)
    ensures Spells(r.status, name) ==> StatusAfter(r) == s
  {
    DashedSpells(r.status, name);
  }

  /** Without one, a response with an error means that the operation failed. */
  lemma StatusMissing(r: Response)
    requires forall name :: name in STATUS_NAMES ==> !Spells(r.status, name)
    ensures StatusAfter(r) == if r.error.Some? || r.errors.Some? then Failed else Unknown
  {
    var text := Dashed(Lower(r.status));
    Named(text);
    if text in STATUS_NAMES {
      DashedSpells(r.status, text);
    }
  }

  /** The error text of a response without a status of its own. */
  function ErrorText(r: Response): string {
    if r.error.Some? && r.error.value != "" then r.error.value
    else if r.errors.Some? then r.errors.value
    else "None"
  }

  // ---- operations ----

  /** What is known of an operation; an absent text is "". */
  datatype Fields = Fields(
    status: Status,
    taskId: string,
    contextId: string,
    mediaBuyId: string,
    error: string,
    inputMessage: string,
    pollCount: nat)

  const NEW_OPERATION := Fields(Pending, "", "", "", "", "", 0)

  function Given(now: Option<string>, before: string): string {
    if now.Some? then now.value else before
  }

  /** What a response makes of an operation: identifiers it names replace those before, an
      error is read only from a response without a status, and a message is kept only when
      input is asked for. */
  function FieldsAfter(r: Response, f: Fields): Fields {
    var status := StatusAfter(r);
    Fields(
      status,
      Given(r.taskId, f.taskId),
      Given(r.contextId, f.contextId),
      Given(r.mediaBuyId, f.mediaBuyId),
      if status == Failed && StatusOf(Dashed(Lower(r.status))).None? then ErrorText(r) else f.error,
      if status == InputRequired then r.message else f.inputMessage,
      f.pollCount)
  }

  /** What becomes of each field. */
  lemma FieldsExactly(r: Response, f: Fields)
    ensures var g := FieldsAfter(r, f);
            var named := exists name :: name in STATUS_NAMES && Spells(r.status, name);
            && g.status == StatusAfter(r) && g.pollCount == f.pollCount
            && g.taskId == (if r.taskId.Some? then r.taskId.value else f.taskId)
            && g.contextId == (if r.contextId.Some? then r.contextId.value else f.contextId)
            && g.mediaBuyId == (if r.mediaBuyId.Some? then r.mediaBuyId.value else f.mediaBuyId)
            && g.inputMessage == (if g.status == InputRequired then r.message else f.inputMessage)
            && (named ==> g.error == f.error)
            && (!named ==>
                  g.error ==
                  if r.error.Some? && r.error.value != "" then r.error.value
                  else if r.errors.Some? then r.errors.value
                  else if r.error.Some? then "None" else f.error)
  {
    forall name | name in STATUS_NAMES
      ensures Dashed(Lower(r.status)) == name <==> Spells(r.status, name)
    {
      DashedSpells(r.status, name);
    }
    Named(Dashed(Lower(r.status)));
  }

  class TrackedOperation {
    const id: string
    var status: Status
    var taskId: string
    var contextId: string
    var mediaBuyId: string
    var error: string
    var inputMessage: string
    var pollCount: nat

    function Value(): Fields
      reads this
    {
      Fields(status, taskId, contextId, mediaBuyId, error, inputMessage, pollCount)
    }

    constructor (id: string, f: Fields)
      ensures this.id == id && Value() == f
    {
      this.id, status, taskId, contextId := id, f.status, f.taskId, f.contextId;
      mediaBuyId, error, inputMessage, pollCount := f.mediaBuyId, f.error, f.inputMessage, f.pollCount;
    }

    method CountPoll()
      modifies this
      ensures Value() == old(Value()).(pollCount := old(pollCount) + 1)
    {
      pollCount := pollCount + 1;
    }

    method Fail(error: string)
      modifies this
      ensures Value() == old(Value()).(status := Failed, error := error)
    {
      status := Failed;
      this.error := error;
    }

    /** Take over what a response says. */
    method ReadResponse(response: Response)
      modifies this
      ensures Value() == FieldsAfter(response, old(Value()))
    {
      var parsed := StatusOf(Dashed(Lower(response.status)));
      if parsed.Some? {
        status := parsed.value;
      } else if response.error.Some? || response.errors.Some? {
        status := Failed;
        error := ErrorText(response);
      } else {
        status := Unknown;
      }
      if response.taskId.Some? {
        taskId := response.taskId.value;
      }
      if response.contextId.Some? {
        contextId := response.contextId.value;
      }
      if response.mediaBuyId.Some? {
        mediaBuyId := response.mediaBuyId.value;
      }
      if status == InputRequired {
        inputMessage := response.message;
      }
    }
  }

  type Contents = map<string, Fields>

  /** A stored row. */
  datatype Row = Row(id: string, status: string, rest: Fields)

  function RowStatus(row: Row): Status {
    match StatusOf(row.status)
    case Some(s) => s
    case None => Unknown
  }

  /** The operation a row is read as; the status is stored as text. */
  function RowFields(row: Row): Fields {
    row.rest.(status := RowStatus(row))
  }

  /** A row whose status is no name of one is read as an operation of unknown status. */
  lemma RowExactly(row: Row)
    ensures forall s :: row.status == TextOf(s) ==> RowFields(row) == row.rest.(status := s)
    ensures (forall s :: row.status != TextOf(s)) ==> RowFields(row) == row.rest.(status := Unknown)
  {
    forall s
      ensures StatusOf(row.status) == Some(s) <==> row.status == TextOf(s)
    {
      StatusRoundTrip(row.status, s);
    }
  }

  // ---- counting ----

  type Tally = map<Status, int>

  function Get(t: Tally, s: Status): int {
    if s in t then t[s] else 0
  }

  function Bump(t: Tally, s: Status, n: int): Tally {
    t[s := Get(t, s) + n]
  }

  ghost function Having(m: Contents, s: Status): set<string> {
    set id | id in m && m[id].status == s
  }

  /** How many operations have status s. */
  ghost function CountStatus(m: Contents, s: Status): nat {
    |Having(m, s)|
  }

  function One(b: bool): int {
    if b then 1 else 0
  }

  lemma HavingChanged(m: Contents, id: string, to: Fields, s: Status)
    ensures var others := Having(m, s) - {id};
            Having(m[id := to], s) == if to.status == s then others + {id} else others
  {}

  lemma CountChanged(m: Contents, id: string, to: Fields, s: Status)
    ensures CountStatus(m[id := to], s) ==
            CountStatus(m, s) - One(id in m && m[id].status == s) + One(to.status == s)
  {
    HavingChanged(m, id, to, s);
    var others := Having(m, s) - {id};
    assert Having(m, s) == if id in Having(m, s) then others + {id} else others;
  }

  /** The gauge, with what was loaded, counts the operations of each status. */
  ghost predicate Balanced(gauge: Tally, loaded: Tally, m: Contents) {
    forall s :: Get(gauge, s) + Get(loaded, s) == CountStatus(m, s)
  }

  /** The gauge after an operation moved from one status to another. */
  function Moved(gauge: Tally, from: Status, to: Status): Tally {
    if from == to then gauge else Bump(Bump(gauge, from, -1), to, 1)
  }

  lemma MoveBalances(gauge: Tally, loaded: Tally, m: Contents, id: string, to: Fields)
    requires Balanced(gauge, loaded, m) && id in m
    ensures Balanced(Moved(gauge, m[id].status, to.status), loaded, m[id := to])
  {
    forall s
      ensures Get(Moved(gauge, m[id].status, to.status), s) + Get(loaded, s) == CountStatus(m[id := to], s)
    {
      CountChanged(m, id, to, s);
    }
  }

  lemma AddBalances(gauge: Tally, loaded: Tally, m: Contents, id: string, to: Fields)
    requires Balanced(gauge, loaded, m) && id !in m
    ensures Balanced(Bump(gauge, to.status, 1), loaded, m[id := to])
  {
    forall s
      ensures Get(Bump(gauge, to.status, 1), s) + Get(loaded, s) == CountStatus(m[id := to], s)
    {
      CountChanged(m, id, to, s);
    }
  }

  /** What loading contributed, after one more row. */
  function LoadedAfter(loaded: Tally, m: Contents, id: string, to: Fields): Tally {
    Bump(if id in m then Bump(loaded, m[id].status, -1) else loaded, to.status, 1)
  }

  lemma LoadBalances(gauge: Tally, loaded: Tally, m: Contents, id: string, to: Fields)
    requires Balanced(gauge, loaded, m)
    ensures Balanced(gauge, LoadedAfter(loaded, m, id, to), m[id := to])
  {
    forall s
      ensures Get(gauge, s) + Get(LoadedAfter(loaded, m, id, to), s) == CountStatus(m[id := to], s)
    {
      CountChanged(m, id, to, s);
    }
  }

  /** The operations after loading rows one by one. */
  function Loaded(m: Contents, rows: seq<Row>): Contents {
    if rows == [] then m
    else
      var last := rows[|rows| - 1];
      Loaded(m, rows[..|rows| - 1])[last.id := RowFields(last)]
  }

  function RowsWith(rows: seq<Row>, s: Status): nat {
    if rows == [] then 0
    else RowsWith(rows[..|rows| - 1], s) + One(RowStatus(rows[|rows| - 1]) == s)
  }

  predicate NewIds(m: Contents, rows: seq<Row>) {
    && (forall k :: 0 <= k < |rows| ==> rows[k].id !in m)
    && (forall i, j :: 0 <= i < j < |rows| ==> rows[i].id != rows[j].id)
  }

  lemma {:induction false} LoadedIds(m: Contents, rows: seq<Row>, id: string)
    requires id in Loaded(m, rows) && id !in m
    ensures exists k :: 0 <= k < |rows| && rows[k].id == id
    decreases |rows|
  {
    var most, last := rows[..|rows| - 1], rows[|rows| - 1];
    if id == last.id {
    } else {
      LoadedIds(m, most, id);
      var k :| 0 <= k < |most| && most[k].id == id;
      assert rows[k].id == id;
    }
  }

  /** Loading rows with new identifiers adds exactly the rows of each status. */
  lemma {:induction false} LoadCounts(m: Contents, rows: seq<Row>, s: Status)
    requires NewIds(m, rows)
    ensures CountStatus(Loaded(m, rows), s) == CountStatus(m, s) + RowsWith(rows, s)
    decreases |rows|
  {
    if rows == [] {
    } else {
      var most, last := rows[..|rows| - 1], rows[|rows| - 1];
      assert forall k :: 0 <= k < |most| ==> most[k] == rows[k];
      LoadCounts(m, most, s);
      if last.id in Loaded(m, most) {
        LoadedIds(m, most, last.id);
        assert false;
      }
      CountChanged(Loaded(m, most), last.id, RowFields(last), s);
    }
  }

  /** What loading contributes when no identifier is known yet. */
  lemma LoadedCounts(gauge: Tally, loaded: Tally, m: Contents, after: Tally, rows: seq<Row>)
    requires Balanced(gauge, loaded, m) && Balanced(gauge, after, Loaded(m, rows))
    ensures NewIds(m, rows) ==> forall s :: Get(after, s) == Get(loaded, s) + RowsWith(rows, s)
  {
    if NewIds(m, rows) {
      forall s
        ensures Get(after, s) == Get(loaded, s) + RowsWith(rows, s)
      {
        LoadCounts(m, rows, s);
      }
    }
  }

  function StoredRow(id: string, f: Fields): Row {
    Row(id, TextOf(f.status), f)
  }

  type Table = map<string, Row>

  /** The table, which held `initial` when the tracker started, holds every operation saved since
      as it was at that moment of the history. */
  ghost predicate Backed(table: Table, initial: Table, saved: map<string, nat>, history: seq<Contents>) {
    && table.Keys == initial.Keys + saved.Keys
    && (forall id :: id in table && id !in saved ==> table[id] == initial[id])
    && (forall id :: id in saved ==>
          saved[id] < |history| && id in history[saved[id]] && table[id] == StoredRow(id, history[saved[id]][id]))
  }

  lemma BackedLater(table: Table, initial: Table, saved: map<string, nat>, history: seq<Contents>, later: seq<Contents>)
    requires Backed(table, initial, saved, history) && history <= later
    ensures Backed(table, initial, saved, later)
  {}

  lemma BackedSaved(table: Table, initial: Table, saved: map<string, nat>, history: seq<Contents>, id: string)
    requires Backed(table, initial, saved, history) && history != [] && id in history[|history| - 1]
    ensures Backed(table[id := StoredRow(id, history[|history| - 1][id])], initial, saved[id := |history| - 1], history)
  {}

  /** The tables that go with what was saved. */
  ghost function Backing(initial: Table, saved: map<string, nat>, history: seq<Contents>): Table -> bool {
    (table: Table) => Backed(table, initial, saved, history)
  }

  lemma BackingMeans(table: Table, initial: Table, saved: map<string, nat>, history: seq<Contents>)
    ensures Backing(initial, saved, history)(table) <==> Backed(table, initial, saved, history)
  {}

  lemma BackingLater(table: Table, initial: Table, saved: map<string, nat>, history: seq<Contents>,
                     later: seq<Contents>)
    requires history <= later
    ensures Backing(initial, saved, history)(table) ==> Backing(initial, saved, later)(table)
  {
    BackingMeans(table, initial, saved, history);
    BackingMeans(table, initial, saved, later);
    if Backed(table, initial, saved, history) {
      BackedLater(table, initial, saved, history, later);
    }
  }

  lemma BackingSaved(table: Table, initial: Table, saved: map<string, nat>, history: seq<Contents>, id: string,
                     row: Row)
    requires history != [] && id in history[|history| - 1] && row == StoredRow(id, history[|history| - 1][id])
    ensures Backing(initial, saved, history)(table) ==>
              Backing(initial, saved[id := |history| - 1], history)(table[id := row])
  {
    BackingMeans(table, initial, saved, history);
    BackingMeans(table[id := row], initial, saved[id := |history| - 1], history);
    if Backed(table, initial, saved, history) {
      BackedSaved(table, initial, saved, history, id);
    }
  }

  /** The rows of a table, each once, in some order. */
  ghost predicate Listing(rows: seq<Row>, table: Table) {
    && (forall k :: 0 <= k < |rows| ==> rows[k].id in table && rows[k] == table[rows[k].id])
    && (forall i, j :: 0 <= i < j < |rows| ==> rows[i].id != rows[j].id)
    && (forall id :: id in table ==> exists k :: 0 <= k < |rows| && rows[k].id == id)
  }

  /** Loading finds, for each identifier, the last row that has it. */
  lemma {:induction false} LoadedRow(m: Contents, rows: seq<Row>, k: nat)
    requires k < |rows| && forall j :: k < j < |rows| ==> rows[j].id != rows[k].id
    ensures rows[k].id in Loaded(m, rows) && Loaded(m, rows)[rows[k].id] == RowFields(rows[k])
    decreases |rows|
  {
    if k == |rows| - 1 {
    } else {
      var most := rows[..|rows| - 1];
      assert forall j :: 0 <= j < |most| ==> most[j] == rows[j];
      LoadedRow(m, most, k);
    }
  }

  lemma StoredRowRead(id: string, f: Fields)
    ensures RowFields(StoredRow(id, f)) == f
  {
    StatusRoundTrip(TextOf(f.status), f.status);
  }

  /** After a restart: every operation saved is there as it was when last saved, with all its
      fields, and the others as they were before. */
  lemma RestartGivesSaved(rows: seq<Row>, table: Table, initial: Table, saved: map<string, nat>, history: seq<Contents>)
    requires Listing(rows, table) && Backed(table, initial, saved, history)
    ensures Loaded(map[], rows) ==
            map id | id in table :: if id in saved then history[saved[id]][id] else RowFields(initial[id])
  {
    var m := Loaded(map[], rows);
    forall id | id in table
      ensures id in m && m[id] == if id in saved then history[saved[id]][id] else RowFields(initial[id])
    {
      var k :| 0 <= k < |rows| && rows[k].id == id;
      LoadedRow(map[], rows, k);
      if id in saved {
        StoredRowRead(id, history[saved[id]][id]);
      }
    }
    forall id | id in m
      ensures id in table
    {
      LoadedIds(map[], rows, id);
    }
  }

  /** A restart loses nothing exactly when every operation was saved, and none has changed since
      it was last saved. */
  lemma RestartKeepsExactly(rows: seq<Row>, table: Table, saved: map<string, nat>, history: seq<Contents>)
    requires Listing(rows, table) && Backed(table, map[], saved, history) && history != []
    ensures Loaded(map[], rows) == history[|history| - 1] <==>
            && history[|history| - 1].Keys == saved.Keys
            && forall id :: id in saved ==> history[saved[id]][id] == history[|history| - 1][id]
  {
    RestartGivesSaved(rows, table, map[], saved, history);
    var m, last := Loaded(map[], rows), history[|history| - 1];
    assert m.Keys == table.Keys == saved.Keys;
  }

  // ---- the tracker ----

  class OperationTracker {
    var operations: map<string, TrackedOperation>
    var gauge: Tally
    /** What loading from the database contributed per status, minus what it replaced. */
    ghost var loaded: Tally
    /** The contents after every step, ending with the present ones. */
    ghost var history: seq<Contents>
    var dbEnabled: bool
    /** The rows of the database: what they were at the start, what they are, and the moment of
        the history at which each operation was last saved. */
    ghost const initial: Table
    var table: Table
    ghost var saved: map<string, nat>

    /** The database holds what was saved. */
    ghost predicate Persisted()
      reads this
    {
      Backing(initial, saved, history)(table)
    }

    ghost function Value(): Contents
      reads this`operations, operations.Values
    {
      map id | id in operations :: operations[id].Value()
    }

    ghost predicate Valid()
      reads this, operations.Values
    {
      && (forall id :: id in operations ==> operations[id].id == id)
      && Balanced(gauge, loaded, Value())
      && history != [] && history[|history| - 1] == Value()
    }

    constructor (table: Table)
      ensures Valid() && operations == map[] && gauge == map[] && loaded == map[] && history == [map[]]
      ensures Persisted() && this.table == initial == table && saved == map[] && !dbEnabled
    {
      operations, gauge, loaded := map[], map[], map[];
      history := [map[]];
      dbEnabled, this.table, initial, saved := false, table, table, map[];
      BackingMeans(table, table, map[], [map[]]);
    }

    /** Save an operation, once the database is in use. */
    method Persist(op: TrackedOperation)
      requires Valid() && op.id in operations && operations[op.id] == op
      modifies this`table, this`saved
      ensures Valid() && (old(Persisted()) ==> Persisted())
      ensures table == if dbEnabled then old(table)[op.id := StoredRow(op.id, op.Value())] else old(table)
      ensures saved == if dbEnabled then old(saved)[op.id := |history| - 1] else old(saved)
    {
      if dbEnabled {
        assert Value()[op.id] == op.Value();
        BackingSaved(table, initial, saved, history, op.id, StoredRow(op.id, op.Value()));
        table := table[op.id := StoredRow(op.id, op.Value())];
        saved := saved[op.id := |history| - 1];
      }
    }

    /** Log the contents after a step. */
    ghost method Record(contents: Contents)
      modifies this`history
      ensures history == old(history) + [contents] && (old(Persisted()) ==> Persisted())
    {
      history := history + [contents];
      BackingLater(table, initial, saved, old(history), history);
    }

    ghost method RecordLoad(after: Tally, contents: Contents)
      modifies this`loaded, this`history
      ensures loaded == after && history == old(history) + [contents] && (old(Persisted()) ==> Persisted())
    {
      loaded := after;
      Record(contents);
    }

    method LoadRow(row: Row)
      requires Valid()
      modifies this`operations, this`loaded, this`history
      ensures Valid() && gauge == old(gauge) && (old(Persisted()) ==> Persisted())
      ensures Value() == old(Value())[row.id := RowFields(row)]
      ensures history == old(history) + [Value()]
    {
      ghost var m := Value();
      LoadBalances(gauge, loaded, m, row.id, RowFields(row));
      var op := new TrackedOperation(row.id, RowFields(row));
      operations := operations[row.id := op];
      RecordLoad(LoadedAfter(loaded, m, row.id, RowFields(row)), m[row.id := RowFields(row)]);
      assert Value() == m[row.id := RowFields(row)];
      assert Balanced(gauge, loaded, m[row.id := RowFields(row)]);
    }

    method LoadRows(rows: seq<Row>)
      requires Valid()
      modifies this`operations, this`loaded, this`history
      ensures Valid() && gauge == old(gauge) && (old(Persisted()) ==> Persisted())
      ensures Value() == Loaded(old(Value()), rows) && old(history) <= history
    {
      ghost var before, history0 := Value(), history;
      for i := 0 to |rows|
        invariant Valid() && gauge == old(gauge) && history0 <= history
        invariant old(Persisted()) ==> Persisted()
        invariant Value() == Loaded(before, rows[..i])
      {
        assert rows[..i + 1] == rows[..i] + [rows[i]];
        LoadRow(rows[i]);
      }
      assert rows[..|rows|] == rows;
    }

    /** Load stored operations; one with a known identifier is replaced. The gauge is not
        touched. */
    method InitDb(rows: seq<Row>)
      requires Valid()
      modifies this`operations, this`loaded, this`history, this`dbEnabled
      ensures Valid() && gauge == old(gauge) && dbEnabled && (old(Persisted()) ==> Persisted())
      ensures Value() == Loaded(old(Value()), rows)
      ensures NewIds(old(Value()), rows) ==>
                forall s :: Get(loaded, s) == Get(old(loaded), s) + RowsWith(rows, s)
      ensures old(history) <= history
    {
      ghost var before, loaded0 := Value(), loaded;
      dbEnabled := true;
      assert Value() == before;
      LoadRows(rows);
      LoadedCounts(gauge, loaded0, before, loaded, rows);
    }

    method RaiseGauge(to: Status, ghost contents: Contents)
      modifies this`gauge, this`history
      ensures gauge == Bump(old(gauge), to, 1)
      ensures history == old(history) + [contents] && (old(Persisted()) ==> Persisted())
    {
      gauge := Bump(gauge, to, 1);
      Record(contents);
    }

    method Add(id: string) returns (op: TrackedOperation)
      requires Valid() && id !in operations
      modifies this`operations, this`gauge, this`history
      ensures Valid() && fresh(op) && op.id == id && op.Value() == NEW_OPERATION && (old(Persisted()) ==> Persisted())
      ensures operations == old(operations)[id := op]
      ensures Value() == old(Value())[id := NEW_OPERATION] && history == old(history) + [Value()]
    {
      ghost var m := Value();
      AddBalances(gauge, loaded, m, id, NEW_OPERATION);
      op := new TrackedOperation(id, NEW_OPERATION);
      operations := operations[id := op];
      RaiseGauge(op.status, m[id := NEW_OPERATION]);
      assert Value() == m[id := NEW_OPERATION];
      assert Balanced(gauge, loaded, m[id := NEW_OPERATION]);
    }

    /** A new operation under a fresh identifier, saved at once. */
    method Create(id: string) returns (op: TrackedOperation)
      requires Valid() && id !in operations
      modifies this
      ensures Valid() && fresh(op) && op.id == id && (old(Persisted()) ==> Persisted())
      ensures operations == old(operations)[id := op] && loaded == old(loaded) && dbEnabled == old(dbEnabled)
      ensures Value() == old(Value())[id := NEW_OPERATION] && history == old(history) + [Value()]
      ensures op.Value() == Fields(Pending, "", "", "", "", "", 0)
      ensures table == if dbEnabled then old(table)[id := StoredRow(id, NEW_OPERATION)] else old(table)
      ensures saved == if dbEnabled then old(saved)[id := |history| - 1] else old(saved)
    {
      op := Add(id);
      Persist(op);
    }

    /** Move an operation's share of the gauge, and log the contents. */
    method MoveGauge(from: Status, to: Status, ghost contents: Contents)
      modifies this`gauge, this`history
      ensures gauge == Moved(old(gauge), from, to)
      ensures history == old(history) + [contents] && (old(Persisted()) ==> Persisted())
    {
      if to != from {
        gauge := Bump(gauge, from, -1);
        gauge := Bump(gauge, to, 1);
      }
      Record(contents);
    }

    /** Update an operation from a response. */
    method Update(op: TrackedOperation, response: Response)
      requires Valid() && op.id in operations && operations[op.id] == op
      modifies this`gauge, this`history, op
      ensures Valid() && (old(Persisted()) ==> Persisted()) && history == old(history) + [Value()]
      ensures op.id in old(Value()) && Value() == old(Value())[op.id := FieldsAfter(response, old(Value())[op.id])]
    {
      ghost var m, to := Value(), FieldsAfter(response, Value()[op.id]);
      MoveBalances(gauge, loaded, m, op.id, to);
      var oldStatus := op.status;
      op.ReadResponse(response);
      MoveGauge(oldStatus, op.status, m[op.id := to]);
      assert Value() == m[op.id := to];
      assert Balanced(gauge, loaded, m[op.id := to]);
    }

    /** Update from a response; false stands for the KeyError of an unknown identifier. */
    method UpdateFromResponse(id: string, response: Response) returns (found: bool)
      requires Valid()
      modifies this`gauge, this`history, if id in operations then {operations[id]} else {}
      ensures Valid() && found == (id in operations) && (old(Persisted()) ==> Persisted())
      ensures if found
              then Value() == old(Value())[id := FieldsAfter(response, old(Value())[id])]
                && history == old(history) + [Value()]
              else gauge == old(gauge) && Value() == old(Value()) && history == old(history)
    {
      found := id in operations;
      if found {
        Update(operations[id], response);
      }
    }

    method MarkFailed(id: string, error: string) returns (found: bool)
      requires Valid()
      modifies this`gauge, this`history, if id in operations then {operations[id]} else {}
      ensures Valid() && found == (id in operations) && (old(Persisted()) ==> Persisted())
      ensures if found
              then Value() == old(Value())[id := old(Value())[id].(status := Failed, error := error)]
                   && history == old(history) + [Value()]
              else gauge == old(gauge) && Value() == old(Value()) && history == old(history)
    {
      if id !in operations {
        return false;
      }
      ghost var m, to := Value(), Value()[id].(status := Failed, error := error);
      MoveBalances(gauge, loaded, m, id, to);
      var op := operations[id];
      var oldStatus := op.status;
      op.Fail(error);
      MoveGauge(oldStatus, Failed, m[id := to]);
      assert Value() == m[id := to];
      assert Balanced(gauge, loaded, m[id := to]);
      found := true;
    }

    /** The poller counts its answered polls on the operation itself. */
    method CountPoll(op: TrackedOperation)
      requires Valid() && op.id in operations && operations[op.id] == op
      modifies op, this`history
      ensures Valid() && (old(Persisted()) ==> Persisted()) && history == old(history) + [Value()]
      ensures op.id in old(Value())
      ensures var f := old(Value())[op.id]; Value() == old(Value())[op.id := f.(pollCount := f.pollCount + 1)]
    {
      ghost var m, to := Value(), Value()[op.id].(pollCount := Value()[op.id].pollCount + 1);
      MoveBalances(gauge, loaded, m, op.id, to);
      op.CountPoll();
      Record(m[op.id := to]);
      assert Value() == m[op.id := to];
      assert Balanced(gauge, loaded, m[op.id := to]);
    }

    /** The operations that need polling, each once, in some order. */
    method GetPending() returns (pending: seq<TrackedOperation>)
      requires Valid()
      ensures forall i :: 0 <= i < |pending| ==>
                pending[i].id in operations && operations[pending[i].id] == pending[i]
                && (pending[i].status.Submitted? || pending[i].status.Working?)
      ensures forall i, j :: 0 <= i < j < |pending| ==> pending[i].id != pending[j].id
      ensures forall id :: id in operations && (operations[id].status.Submitted? || operations[id].status.Working?) ==>
                operations[id] in pending
    {
      pending := [];
      var todo := operations.Keys;
      while todo != {}
        invariant todo <= operations.Keys
        invariant forall i :: 0 <= i < |pending| ==>
                    pending[i].id in operations && operations[pending[i].id] == pending[i] && pending[i].id !in todo
                    && NeedsPolling(pending[i].status)
        invariant forall i, j :: 0 <= i < j < |pending| ==> pending[i].id != pending[j].id
        invariant forall id :: id in operations && id !in todo && NeedsPolling(operations[id].status) ==>
                    operations[id] in pending
        decreases |todo|
      {
        var id :| id in todo;
        todo := todo - {id};
        var op := operations[id];
        if NeedsPolling(op.status) {
          pending := pending + [op];
        }
      }
    }
  }
}
