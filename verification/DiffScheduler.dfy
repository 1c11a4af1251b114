// Scheduled queries: the stream of snapshots, additions and removals must rebuild the table it abbreviates.
module DiffScheduler {
  import opened Collections

  type Row = map<string, string>
  datatype Column = Column(name: string, value: string)
  datatype ResultAction = Snapshot | Added | Removed
  datatype Result = Result(query: string, rows: seq<seq<Column>>, action: ResultAction)

  // One turn of a query task: the query fails, or osquery answers with a status code and rows.
  datatype Tick = QueryError | Answer(code: int, rows: seq<Row>)

  /// Rows and their columns

  function RowOf(columns: seq<Column>): Row {
    if columns == [] then map[]
    else RowOf(columns[..|columns| - 1])[columns[|columns| - 1].name := columns[|columns| - 1].value]
  }

  function RowsOf(rows: seq<seq<Column>>): (r: seq<Row>)
    ensures |r| == |rows|
  {
    seq(|rows|, i requires 0 <= i < |rows| => RowOf(rows[i]))
  }

  // A map hands out its entries in any order.
  method ColumnsOf(row: Row) returns (columns: seq<Column>)
    ensures RowOf(columns) == row
    ensures forall c | c in columns :: c.name in row && c.value == row[c.name]
    ensures forall k | k in row :: Column(k, row[k]) in columns
  {
    columns := [];
    var left := row.Keys;
    while left != {}
      invariant left <= row.Keys
      invariant RowOf(columns) == map k | k in row && k !in left :: row[k]
      invariant forall c | c in columns :: c.name in row && c.value == row[c.name]
      invariant forall k | k in row && k !in left :: Column(k, row[k]) in columns
    {
      var k :| k in left;
      var next := columns + [Column(k, row[k])];
      assert next[..|columns|] == columns;
      left := left - {k};
      columns := next;
    }
  }

  /** The columns of each built row convert back to the row. */
  method BuildResult(query: string, rows: seq<Row>, action: ResultAction) returns (r: Result)
    ensures r.query == query && r.action == action && RowsOf(r.rows) == rows
  {
    var built: seq<seq<Column>> := [];
    for i := 0 to |rows|
      invariant |built| == i && forall j | 0 <= j < i :: RowOf(built[j]) == rows[j]
    {
      var columns := ColumnsOf(rows[i]);
      built := built + [columns];
    }
    r := Result(query, built, action);
  }

  /// The difference of two answers

  /** Both differences as sets, each row once, in any order. */
  method ComputeDiff(previous: seq<Row>, current: seq<Row>) returns (added: seq<Row>, removed: seq<Row>)
    ensures ToSet(added) == ToSet(current) - ToSet(previous) && Distinct(added)
    ensures ToSet(removed) == ToSet(previous) - ToSet(current) && Distinct(removed)
  {
    var prevSet := HashRows(previous);
    var currSet := HashRows(current);
    added := Enumerate(currSet - prevSet);
    removed := Enumerate(prevSet - currSet);
  }

  method HashRows(rows: seq<Row>) returns (s: set<Row>)
    ensures s == ToSet(rows)
  {
    s := {};
    for i := 0 to |rows|
      invariant s == ToSet(rows[..i])
    {
      assert rows[..i + 1] == rows[..i] + [rows[i]];
      s := s + {rows[i]};
    }
    assert rows[..|rows|] == rows;
  }

  method Enumerate(s: set<Row>) returns (q: seq<Row>)
    ensures ToSet(q) == s && Distinct(q)
  {
    q := [];
    var left := s;
    while left != {}
      invariant left <= s && ToSet(q) == s - left && Distinct(q)
    {
      var x :| x in left;
      assert forall i | 0 <= i < |q| :: q[i] in ToSet(q);
      assert ToSet(q + [x]) == ToSet(q) + {x};
      q := q + [x];
      left := left - {x};
    }
  }

  /// A consumer

  function Apply(table: set<Row>, r: Result): set<Row> {
    match r.action
    case Snapshot => ToSet(RowsOf(r.rows))
    case Added => table + ToSet(RowsOf(r.rows))
    case Removed => table - ToSet(RowsOf(r.rows))
  }

  function Replay(table: set<Row>, stream: seq<Result>): set<Row> {
    if stream == [] then table else Apply(Replay(table, stream[..|stream| - 1]), stream[|stream| - 1])
  }

  lemma ReplaySnoc(table: set<Row>, stream: seq<Result>, r: Result)
    ensures Replay(table, stream + [r]) == Apply(Replay(table, stream), r)
  {
    assert (stream + [r])[..|stream|] == stream;
  }

  lemma {:induction false} ReplayConcat(table: set<Row>, a: seq<Result>, b: seq<Result>)
    ensures Replay(table, a + b) == Replay(Replay(table, a), b)
    decreases |b|
  {
    if b == [] {
      assert a + b == a;
    } else {
      ReplayConcat(table, a, b[..|b| - 1]);
      assert (a + b)[..|a + b| - 1] == a + b[..|b| - 1];
    }
  }

  /// What one tick may emit

  predicate Successful(t: Tick) {
    t.Answer? && t.code == 0
  }

  function TableOf(rows: Option<seq<Row>>): set<Row> {
    if rows.Some? then ToSet(rows.value) else {}
  }

  ghost predicate Carries(r: Result, query: string, action: ResultAction, rows: set<Row>) {
    r.query == query && r.action == action && ToSet(RowsOf(r.rows)) == rows
  }

  // last is the answer of the latest successful tick before, if any.
  ghost predicate Emits(query: string, snapshot: bool, last: Option<seq<Row>>, t: Tick, out: seq<Result>) {
    if !Successful(t) then out == []
    else if snapshot || last.None? then |out| == 1 && Carries(out[0], query, Snapshot, ToSet(t.rows))
    else
      var added, removed := ToSet(t.rows) - ToSet(last.value), ToSet(last.value) - ToSet(t.rows);
      if added == {} && removed == {} then out == []
      else if removed == {} then |out| == 1 && Carries(out[0], query, Added, added)
      else if added == {} then |out| == 1 && Carries(out[0], query, Removed, removed)
      else |out| == 2 && Carries(out[0], query, Added, added) && Carries(out[1], query, Removed, removed)
  }

  function Latest(last: Option<seq<Row>>, t: Tick): Option<seq<Row>> {
    if Successful(t) then Some(t.rows) else last
  }

  lemma EmissionUpdatesTable(query: string, snapshot: bool, last: Option<seq<Row>>, t: Tick, out: seq<Result>)
    requires Emits(query, snapshot, last, t, out)
    ensures Replay(TableOf(last), out) == TableOf(Latest(last, t))
    ensures forall r | r in out :: r.query == query
  {
    if |out| == 1 {
      ReplayOne(TableOf(last), out[0]);
      assert out == [out[0]];
    } else if |out| == 2 {
      ReplayTwo(TableOf(last), out[0], out[1]);
      assert out == [out[0], out[1]];
    }
    if Successful(t) && last.Some? {
      SetsFromDifferences(ToSet(last.value), ToSet(t.rows));
    }
  }

  lemma ReplayOne(table: set<Row>, r: Result)
    ensures Replay(table, [r]) == Apply(table, r)
  {
    assert [] + [r] == [r];
    ReplaySnoc(table, [], r);
  }

  lemma ReplayTwo(table: set<Row>, r: Result, q: Result)
    ensures Replay(table, [r, q]) == Apply(Apply(table, r), q)
  {
    assert [r] + [q] == [r, q];
    ReplayOne(table, r);
    ReplaySnoc(table, [r], q);
  }

  lemma SetsFromDifferences(a: set<Row>, b: set<Row>)
    ensures a + (b - a) - (a - b) == b
    ensures a - b == {} ==> a + (b - a) == b
    ensures b - a == {} ==> a - (a - b) == b
    ensures a - b == {} && b - a == {} ==> a == b
  {
  }

  /** Only the set of rows is visible: a differential tick is silent exactly when the answer has the same
      rows, whatever their number and order. */
  lemma SilentIffSameRows(query: string, last: seq<Row>, t: Tick, out: seq<Result>)
    requires Successful(t) && Emits(query, false, Some(last), t, out)
    ensures out == [] <==> ToSet(t.rows) == ToSet(last)
  {
    SetsFromDifferences(ToSet(last), ToSet(t.rows));
  }

  /// One task

  function LastOf(ticks: seq<Tick>): Option<seq<Row>> {
    if ticks == [] then None else Latest(LastOf(ticks[..|ticks| - 1]), ticks[|ticks| - 1])
  }

  // The results of one successful tick: a snapshot, or what was added and then what was removed.
  method ResultsOf(query: string, snapshot: bool, firstRun: bool, previousRows: seq<Row>, rows: seq<Row>)
    returns (out: seq<Result>)
    ensures Emits(query, snapshot, if firstRun then None else Some(previousRows), Answer(0, rows), out)
  {
    if snapshot || firstRun {
      var result := BuildResult(query, rows, Snapshot);
      return [result];
    }
    var added, removed := ComputeDiff(previousRows, rows);
    assert added != [] ==> added[0] in ToSet(added);
    assert removed != [] ==> removed[0] in ToSet(removed);
    out := [];
    if added != [] {
      var result := BuildResult(query, added, Added);
      out := out + [result];
    }
    if removed != [] {
      var result := BuildResult(query, removed, Removed);
      out := out + [result];
    }
  }

  lemma EmitsInSnapshotMode(query: string, a: Option<seq<Row>>, b: Option<seq<Row>>, t: Tick, out: seq<Result>)
    requires Emits(query, true, a, t, out)
    ensures Emits(query, true, b, t, out)
  {
  }

  /** The per-query loop. The channel accepts `room` results and is closed then; `done` ticks complete.
      After them the replayed stream is the table of the latest successful tick. */
  method QueryTask(query: string, snapshot: bool, ticks: seq<Tick>, room: nat)
    returns (sent: seq<Result>, done: nat, ghost emissions: seq<seq<Result>>)
    ensures done <= |ticks| && |emissions| == done && |sent| <= room
    ensures forall k | 0 <= k < done :: Emits(query, snapshot, LastOf(ticks[..k]), ticks[k], emissions[k])
    ensures Flatten(emissions) <= sent
    ensures Replay({}, Flatten(emissions)) == TableOf(LastOf(ticks[..done]))
    ensures done == |ticks| ==> sent == Flatten(emissions)
    ensures done < |ticks| ==> |sent| == room
  {
    hide Emits, Replay, LastOf, Flatten, TableOf;
    sent, done, emissions := [], 0, [];
    NothingYet();
    var previousRows: seq<Row> := [];
    var firstRun := true;
    while done < |ticks|
      invariant done <= |ticks| && |emissions| == done && |sent| <= room
      invariant forall k | 0 <= k < done :: Emits(query, snapshot, LastOf(ticks[..k]), ticks[k], emissions[k])
      invariant sent == Flatten(emissions)
      invariant Replay({}, sent) == TableOf(LastOf(ticks[..done]))
      invariant !snapshot ==> LastOf(ticks[..done]) == if firstRun then None else Some(previousRows)
    {
      var t := ticks[done];
      ghost var last := LastOf(ticks[..done]);
      ghost var before := sent;
      LastOfNext(ticks, done);
      var out := [];
      if Successful(t) {
        out := ResultsOf(query, snapshot, firstRun, previousRows, t.rows);
        if snapshot {
          EmitsInSnapshotMode(query, if firstRun then None else Some(previousRows), last, t, out);
        }
      } else {
        NothingOnFailure(query, snapshot, last, t);
      }
      for i := 0 to |out|
        invariant |sent| <= room && sent == before + out[..i]
      {
        if |sent| == room {
          return;
        }
        assert out[..i + 1] == out[..i] + [out[i]];
        sent := sent + [out[i]];
      }
      assert out[..|out|] == out;
      if Successful(t) && !snapshot {
        firstRun := false;
        previousRows := t.rows;
      }
      TickDone(query, snapshot, ticks, done, before, out);
      FlattenSnoc(emissions, out);
      emissions := emissions + [out];
      done := done + 1;
    }
  }

  lemma NothingYet()
    ensures Replay({}, []) == {} == TableOf(None) && LastOf([]) == None && Flatten([]) == []
  {
  }

  lemma LastOfNext(ticks: seq<Tick>, k: nat)
    requires k < |ticks|
    ensures LastOf(ticks[..k + 1]) == Latest(LastOf(ticks[..k]), ticks[k])
  {
    assert ticks[..k + 1][..k] == ticks[..k];
  }

  lemma LastOfSnoc(ticks: seq<Tick>, t: Tick)
    ensures LastOf(ticks + [t]) == Latest(LastOf(ticks), t)
  {
    assert (ticks + [t])[..|ticks|] == ticks;
  }

  lemma FlattenSnoc(emissions: seq<seq<Result>>, out: seq<Result>)
    ensures Flatten(emissions + [out]) == Flatten(emissions) + out
  {
    assert (emissions + [out])[..|emissions|] == emissions;
  }

  lemma TickDone(query: string, snapshot: bool, ticks: seq<Tick>, k: nat, before: seq<Result>, out: seq<Result>)
    requires k < |ticks| && Replay({}, before) == TableOf(LastOf(ticks[..k]))
    requires Emits(query, snapshot, LastOf(ticks[..k]), ticks[k], out)
    ensures Replay({}, before + out) == TableOf(LastOf(ticks[..k + 1]))
  {
    LastOfNext(ticks, k);
    EmissionUpdatesTable(query, snapshot, LastOf(ticks[..k]), ticks[k], out);
    ReplayConcat({}, before, out);
  }

  lemma NothingOnFailure(query: string, snapshot: bool, last: Option<seq<Row>>, t: Tick)
    requires !Successful(t)
    ensures Emits(query, snapshot, last, t, [])
  {
  }

  function Flatten(emissions: seq<seq<Result>>): seq<Result> {
    if emissions == [] then [] else Flatten(emissions[..|emissions| - 1]) + emissions[|emissions| - 1]
  }

  /// All tasks on one channel

  // pending are results of the current tick not sent yet; a task whose send fails stops for good.
  datatype Task = Task(snapshot: bool, last: Option<seq<Row>>, pending: seq<Result>, stopped: bool)
  datatype System = System(tasks: map<string, Task>, channel: seq<Result>)

  datatype Action =
    | TickAt(query: string, tick: Tick, out: seq<Result>)
    | Send(query: string, ok: bool)

  // A task ticks only when the results of its previous tick are sent.
  ghost predicate Enabled(s: System, a: Action) {
    && a.query in s.tasks && !s.tasks[a.query].stopped
    && match a
       case TickAt(q, t, out) =>
         s.tasks[q].pending == [] && Emits(q, s.tasks[q].snapshot, s.tasks[q].last, t, out)
       case Send(q, _) => s.tasks[q].pending != []
  }

  function Next(s: System, a: Action): System
    requires a.query in s.tasks && (a.Send? ==> s.tasks[a.query].pending != [])
  {
    var task := s.tasks[a.query];
    match a
    case TickAt(q, t, out) => s.(tasks := s.tasks[q := task.(last := Latest(task.last, t), pending := out)])
    case Send(q, ok) =>
      if ok then System(s.tasks[q := task.(pending := task.pending[1..])], s.channel + [task.pending[0]])
      else s.(tasks := s.tasks[q := task.(stopped := true)])
  }

  ghost predicate Reaches(start: System, actions: seq<Action>, end: System)
    decreases |actions|
  {
    if actions == [] then start == end
    else
      var front, a := actions[..|actions| - 1], actions[|actions| - 1];
      exists mid :: Reaches(start, front, mid) && Moves(mid, a, end)
  }

  ghost predicate Moves(s: System, a: Action, s': System) {
    Enabled(s, a) && s' == Next(s, a)
  }

  ghost predicate Fresh(s: System) {
    && s.channel == []
    && forall q | q in s.tasks :: s.tasks[q].last == None && s.tasks[q].pending == [] && !s.tasks[q].stopped
  }

  // What a consumer of one query picks from the shared channel.
  function Pick(channel: seq<Result>, query: string): seq<Result> {
    if channel == [] then []
    else
      var r := channel[|channel| - 1];
      if r.query == query then Pick(channel[..|channel| - 1], query) + [r] else Pick(channel[..|channel| - 1], query)
  }

  lemma PickSnoc(channel: seq<Result>, r: Result, query: string)
    ensures Pick(channel + [r], query) == if r.query == query then Pick(channel, query) + [r] else Pick(channel, query)
  {
    assert (channel + [r])[..|channel|] == channel;
  }

  // Once the pending results are delivered too, the consumer is up to date.
  ghost predicate TaskOk(s: System, q: string)
    requires q in s.tasks
  {
    var task := s.tasks[q];
    && (forall r | r in task.pending :: r.query == q)
    && (!task.stopped ==> Replay({}, Pick(s.channel, q) + task.pending) == TableOf(task.last))
  }

  ghost predicate Inv(s: System) {
    forall q | q in s.tasks :: TaskOk(s, q)
  }

  lemma TickKeeps(s: System, a: Action)
    requires Inv(s) && Enabled(s, a) && a.TickAt?
    ensures Inv(Next(s, a))
  {
    var s', q, task := Next(s, a), a.query, s.tasks[a.query];
    forall p | p in s'.tasks
      ensures TaskOk(s', p)
    {
      assert TaskOk(s, p);
      if p == q {
        EmissionUpdatesTable(q, task.snapshot, task.last, a.tick, a.out);
        assert Pick(s.channel, q) + [] == Pick(s.channel, q);
        ReplayConcat({}, Pick(s.channel, q), a.out);
      }
    }
  }

  lemma SendKeeps(s: System, a: Action)
    requires Inv(s) && Enabled(s, a) && a.Send?
    ensures Inv(Next(s, a))
  {
    var s', q, task := Next(s, a), a.query, s.tasks[a.query];
    var r := task.pending[0];
    assert TaskOk(s, q);
    assert r in task.pending;
    forall p | p in s'.tasks
      ensures TaskOk(s', p)
    {
      assert TaskOk(s, p);
      if a.ok {
        PickSnoc(s.channel, r, p);
        if p == q {
          assert Pick(s.channel, q) + task.pending == Pick(s.channel, q) + [r] + task.pending[1..];
        }
      }
    }
  }

  lemma {:induction false} ReachableOk(start: System, actions: seq<Action>, end: System)
    requires Fresh(start) && Reaches(start, actions, end)
    ensures Inv(end)
    decreases |actions|
  {
    if actions != [] {
      var front, a := actions[..|actions| - 1], actions[|actions| - 1];
      var mid :| Reaches(start, front, mid) && Moves(mid, a, end);
      ReachableOk(start, front, mid);
      if a.TickAt? {
        TickKeeps(mid, a);
      } else {
        SendKeeps(mid, a);
      }
    }
  }

  /** Whatever the ticks and however tasks interleave on the channel, a consumer that replays one query's
      results holds, when that query's tick is complete, exactly the rows of its latest successful tick. */
  lemma ConsumerHoldsTheTable(start: System, actions: seq<Action>, end: System, query: string)
    requires Fresh(start) && Reaches(start, actions, end)
    requires query in end.tasks && !end.tasks[query].stopped && end.tasks[query].pending == []
    ensures Replay({}, Pick(end.channel, query)) == TableOf(end.tasks[query].last)
  {
    ReachableOk(start, actions, end);
    assert TaskOk(end, query);
    assert Pick(end.channel, query) + [] == Pick(end.channel, query);
  }

  // The ticks a run gave one query, successful or not.
  function TicksOf(actions: seq<Action>, query: string): seq<Tick> {
    if actions == [] then []
    else
      var a := actions[|actions| - 1];
      TicksOf(actions[..|actions| - 1], query) + if a.TickAt? && a.query == query then [a.tick] else []
  }

  /** The `last` of a task is the answer of the latest successful tick of that query in the run. */
  lemma {:induction false} LastIsLatest(start: System, actions: seq<Action>, end: System, query: string)
    requires Fresh(start) && Reaches(start, actions, end) && query in start.tasks
    ensures query in end.tasks && end.tasks[query].last == LastOf(TicksOf(actions, query))
    decreases |actions|
  {
    hide Emits, LastOf;
    if actions == [] {
      NothingYet();
    } else {
      var front, a := actions[..|actions| - 1], actions[|actions| - 1];
      var mid :| Reaches(start, front, mid) && Moves(mid, a, end);
      LastIsLatest(start, front, mid, query);
      if a.TickAt? && a.query == query {
        assert TicksOf(actions, query) == TicksOf(front, query) + [a.tick];
        LastOfSnoc(TicksOf(front, query), a.tick);
      } else {
        assert TicksOf(front, query) + [] == TicksOf(front, query);
      }
    }
  }
}
