// Event logs: a table that ignores inserts of a known event id, and the micro-batching worker before it.
module LogStore {
  import opened Collections

  type EventId = nat
  datatype Log = Log(id: EventId, payload: string)
  type Table = map<EventId, Log>

  const BATCH_SIZE: nat := 50

  /// The table

  // Inserts row by row; a row whose id is taken, also by an earlier row of the same batch, is dropped.
  function Insert(table: Table, logs: seq<Log>): Table {
    if logs == [] then table
    else
      var t, l := Insert(table, logs[..|logs| - 1]), logs[|logs| - 1];
      if l.id in t then t else t[l.id := l]
  }

  /** The loop of one multi-row insert. */
  method InsertBatch(table: Table, logs: seq<Log>) returns (r: Table)
    ensures r == Insert(table, logs)
  {
    r := table;
    if logs == [] {
      return;
    }
    for i := 0 to |logs|
      invariant r == Insert(table, logs[..i])
    {
      assert logs[..i + 1][..i] == logs[..i];
      if logs[i].id !in r {
        r := r[logs[i].id := logs[i]];
      }
    }
    assert logs[..|logs|] == logs;
  }

  function Ids(logs: seq<Log>): (ids: seq<EventId>)
    ensures |ids| == |logs| && forall i | 0 <= i < |logs| :: ids[i] == logs[i].id
  {
    seq(|logs|, i requires 0 <= i < |logs| => logs[i].id)
  }

  /** First write wins: an old row stays; otherwise the row of an id is its first occurrence in the batch. */
  lemma {:induction false} FirstWriteWins(table: Table, logs: seq<Log>, id: EventId)
    ensures var i := IndexOf(Ids(logs), id);
            && (id in Insert(table, logs) <==> id in table || i < |logs|)
            && (id in table ==> Insert(table, logs)[id] == table[id])
            && (id !in table && i < |logs| ==> Insert(table, logs)[id] == logs[i])
    decreases |logs|
  {
    if logs != [] {
      var front, l := logs[..|logs| - 1], logs[|logs| - 1];
      FirstWriteWins(table, front, id);
      assert Ids(logs) == Ids(front) + [l.id];
      IndexOfSnoc(Ids(front), l.id, id);
    }
  }

  lemma {:induction false} InsertConcat(table: Table, a: seq<Log>, b: seq<Log>)
    ensures Insert(Insert(table, a), b) == Insert(table, a + b)
    decreases |b|
  {
    if b == [] {
      assert a + b == a;
    } else {
      InsertConcat(table, a, b[..|b| - 1]);
      assert (a + b)[..|a + b| - 1] == a + b[..|b| - 1];
    }
  }

  function InsertAll(table: Table, batches: seq<seq<Log>>): Table {
    if batches == [] then table else Insert(InsertAll(table, batches[..|batches| - 1]), batches[|batches| - 1])
  }

  function Concat(batches: seq<seq<Log>>): seq<Log> {
    if batches == [] then [] else Concat(batches[..|batches| - 1]) + batches[|batches| - 1]
  }

  /** However a stream is cut into batches, the table is the first-write-wins map of the stream. */
  lemma {:induction false} BatchingDoesNotMatter(table: Table, batches: seq<seq<Log>>)
    ensures InsertAll(table, batches) == Insert(table, Concat(batches))
    decreases |batches|
  {
    if batches != [] {
      BatchingDoesNotMatter(table, batches[..|batches| - 1]);
      InsertConcat(table, Concat(batches[..|batches| - 1]), batches[|batches| - 1]);
    }
  }

  /** Delivering an event again, from whatever topic and however late, changes nothing. */
  lemma RedeliveryDoesNotMatter(table: Table, stream: seq<Log>, again: Log, after: seq<Log>)
    requires exists l :: l in stream && l.id == again.id
    ensures Insert(table, stream + [again] + after) == Insert(table, stream + after)
  {
    var l :| l in stream && l.id == again.id;
    FirstWriteWins(table, stream, again.id);
    assert again.id in Insert(table, stream) by {
      var k :| 0 <= k < |stream| && stream[k] == l;
      assert IndexOf(Ids(stream), again.id) <= k;
    }
    assert (stream + [again])[..|stream|] == stream;
    InsertConcat(table, stream + [again], after);
    InsertConcat(table, stream, after);
  }

  /// The worker

  // What the select picked, and whether an insert made in that turn succeeds.
  datatype Event =
    | Received(log: Log, ok: bool)
    | Tick(ok: bool)
    | ChannelClosed(ok: bool)
    | Shutdown(ok: bool)

  datatype Flush = Flush(logs: seq<Log>, ok: bool, final: bool)
  datatype State = State(batch: seq<Log>, flushes: seq<Flush>, table: Table, stopped: bool)

  function Persist(s: State, ok: bool, final: bool): State {
    State([], s.flushes + [Flush(s.batch, ok, final)], if ok then Insert(s.table, s.batch) else s.table, final)
  }

  function Step(s: State, e: Event): State {
    if s.stopped then s
    else match e
      case Received(log, ok) =>
        var s' := s.(batch := s.batch + [log]);
        if |s'.batch| >= BATCH_SIZE then Persist(s', ok, false) else s'
      case Tick(ok) => if s.batch != [] then Persist(s, ok, false) else s
      case ChannelClosed(ok) => if s.batch != [] then Persist(s, ok, true) else s.(stopped := true)
      case Shutdown(ok) => if s.batch != [] then Persist(s, ok, true) else s.(stopped := true)
  }

  function Run(table: Table, events: seq<Event>): State {
    if events == [] then State([], [], table, false)
    else Step(Run(table, events[..|events| - 1]), events[|events| - 1])
  }

  /** The worker's loop, with its own batch. */
  method Worker(table: Table, events: seq<Event>)
    returns (r: Table, batch: seq<Log>, flushes: seq<Flush>, stopped: bool)
    ensures Run(table, events) == State(batch, flushes, r, stopped)
  {
    r, batch, flushes, stopped := table, [], [], false;
    var i := 0;
    while i < |events| && !stopped
      invariant i <= |events|
      invariant Run(table, events[..i]) == State(batch, flushes, r, stopped)
    {
      assert events[..i + 1][..i] == events[..i];
      var e := events[i];
      var due := false;
      match e {
        case Received(log, _) =>
          batch := batch + [log];
          due := |batch| >= BATCH_SIZE;
        case Tick(_) =>
          due := batch != [];
        case ChannelClosed(_) =>
          due, stopped := batch != [], true;
        case Shutdown(_) =>
          due, stopped := batch != [], true;
      }
      if due {
        flushes := flushes + [Flush(batch, e.ok, stopped)];
        if e.ok {
          r := InsertBatch(r, batch);
        }
        batch := [];
      }
      i := i + 1;
    }
    StoppedStays(table, events, i);
  }

  lemma {:induction false} StoppedStays(table: Table, events: seq<Event>, i: nat)
    requires i <= |events| && (i < |events| ==> Run(table, events[..i]).stopped)
    ensures Run(table, events) == Run(table, events[..i])
    decreases |events|
  {
    if i == |events| {
      assert events[..i] == events;
    } else {
      var front := events[..|events| - 1];
      assert front[..i] == events[..i];
      StoppedStays(table, front, i);
    }
  }

  // What the worker took out of the channel before it stopped.
  function Taken(table: Table, events: seq<Event>): seq<Log> {
    if events == [] then []
    else
      var front, e := events[..|events| - 1], events[|events| - 1];
      Taken(table, front) + if !Run(table, front).stopped && e.Received? then [e.log] else []
  }

  function Sent(flushes: seq<Flush>): seq<Log> {
    if flushes == [] then [] else Sent(flushes[..|flushes| - 1]) + flushes[|flushes| - 1].logs
  }

  // The logs of the batches whose insert succeeded.
  function Stored(flushes: seq<Flush>): seq<Log> {
    if flushes == [] then []
    else Stored(flushes[..|flushes| - 1]) + if flushes[|flushes| - 1].ok then flushes[|flushes| - 1].logs else []
  }

  lemma FlushSnoc(flushes: seq<Flush>, f: Flush)
    ensures Sent(flushes + [f]) == Sent(flushes) + f.logs
    ensures Stored(flushes + [f]) == Stored(flushes) + if f.ok then f.logs else []
  {
    assert (flushes + [f])[..|flushes|] == flushes;
  }

  ghost predicate Accounted(table: Table, s: State) {
    && s.table == Insert(table, Stored(s.flushes))
    && (forall f | f in s.flushes :: 1 <= |f.logs| <= BATCH_SIZE)
    && |s.batch| < BATCH_SIZE
    && (s.stopped ==> s.batch == [])
  }

  lemma StepAccounts(table: Table, s: State, e: Event)
    requires Accounted(table, s) && !s.stopped
    ensures Accounted(table, Step(s, e))
    ensures Sent(Step(s, e).flushes) + Step(s, e).batch
         == Sent(s.flushes) + s.batch + if e.Received? then [e.log] else []
  {
    hide Sent, Stored, Insert;
    var s' := Step(s, e);
    if s'.flushes != s.flushes {
      var f := s'.flushes[|s.flushes|];
      assert s'.flushes == s.flushes + [f] && s'.batch == [];
      FlushSnoc(s.flushes, f);
      InsertConcat(table, Stored(s.flushes), f.logs);
      assert Stored(s.flushes) + [] == Stored(s.flushes);
    }
  }

  /** Batches of 1 to 50 carry the received logs in order, and the table is the first-write-wins map of
      exactly those whose insert succeeded. */
  lemma {:induction false} WorkerAccounts(table: Table, events: seq<Event>)
    ensures var s := Run(table, events);
            Accounted(table, s) && Sent(s.flushes) + s.batch == Taken(table, events)
    decreases |events|
  {
    if events != [] {
      var front, e := events[..|events| - 1], events[|events| - 1];
      WorkerAccounts(table, front);
      if !Run(table, front).stopped {
        StepAccounts(table, Run(table, front), e);
      } else {
        assert Taken(table, front) + [] == Taken(table, front);
      }
    }
  }

  /** When every insert succeeds, the table holds the first-write-wins map of all that was received, once
      the worker has stopped or its batch is empty: the schedule of ticks and batches leaves no trace. */
  lemma ScheduleDoesNotMatter(table: Table, events: seq<Event>)
    requires forall e | e in events :: e.ok
    requires Run(table, events).stopped || Run(table, events).batch == []
    ensures Run(table, events).table == Insert(table, Taken(table, events))
  {
    WorkerAccounts(table, events);
    AllFlushesOk(table, events);
    AllStored(Run(table, events).flushes);
    var s := Run(table, events);
    assert Sent(s.flushes) + [] == Sent(s.flushes);
  }

  lemma {:induction false} AllFlushesOk(table: Table, events: seq<Event>)
    requires forall e | e in events :: e.ok
    ensures forall f | f in Run(table, events).flushes :: f.ok
    decreases |events|
  {
    if events != [] {
      assert events[|events| - 1] in events;
      assert forall e | e in events[..|events| - 1] :: e in events;
      AllFlushesOk(table, events[..|events| - 1]);
    }
  }

  lemma {:induction false} AllStored(flushes: seq<Flush>)
    requires forall f | f in flushes :: f.ok
    ensures Stored(flushes) == Sent(flushes)
    decreases |flushes|
  {
    if flushes != [] {
      assert flushes[|flushes| - 1] in flushes;
      assert forall f | f in flushes[..|flushes| - 1] :: f in flushes;
      AllStored(flushes[..|flushes| - 1]);
    }
  }
}
