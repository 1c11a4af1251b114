// The agent's offline event buffer: a table of auto-increment ids that must behave as a bounded FIFO.
module OfflineBuffer {
  import opened Collections

  const TWO_63: int := 0x8000_0000_0000_0000
  const TWO_64: int := 0x1_0000_0000_0000_0000

  datatype Stored = Stored(id: nat, payload: string)
  type Table = seq<Stored>

  type U64 = n: int | 0 <= n < 0x1_0000_0000_0000_0000

  /// Machine integers and SQL

  // A 64-bit result, wrapped to the signed range.
  function Wrap64(n: int): (r: int)
    ensures -TWO_63 <= r < TWO_63
    ensures -TWO_63 <= n < TWO_63 ==> r == n
  {
    (n + TWO_63) % TWO_64 - TWO_63
  }

  // ORDER BY id ASC LIMIT n on a table kept in id order; a negative limit is no limit.
  function Oldest(t: Table, n: int): Table {
    if n < 0 || n > |t| then t else t[..n]
  }

  // DELETE ... WHERE id IN (ids)
  function DeleteIds(t: Table, ids: set<nat>): Table {
    if t == [] then [] else (if t[0].id in ids then [] else [t[0]]) + DeleteIds(t[1..], ids)
  }

  function Ids(t: Table): set<nat> {
    set r | r in t :: r.id
  }

  function Payloads(t: Table): (p: seq<string>)
    ensures |p| == |t| && forall i | 0 <= i < |t| :: p[i] == t[i].payload
  {
    seq(|t|, i requires 0 <= i < |t| => t[i].payload)
  }

  // The ids of a table are the last |t| ids below next.
  ghost predicate Consecutive(t: Table, next: nat) {
    |t| < next && forall i | 0 <= i < |t| :: t[i].id == next - |t| + i
  }

  lemma {:induction false} DeleteNone(t: Table, ids: set<nat>)
    requires Ids(t) !! ids
    ensures DeleteIds(t, ids) == t
  {
    if t != [] {
      assert t[0] in t;
      assert forall r | r in t[1..] :: r in t;
      DeleteNone(t[1..], ids);
    }
  }

  lemma {:induction false} DeleteOldest(t: Table, next: nat, n: nat)
    requires Consecutive(t, next) && n <= |t|
    ensures DeleteIds(t, Ids(t[..n])) == t[n..]
  {
    DeletePrefix(t, next, n, Ids(t[..n]));
  }

  lemma {:induction false} DeletePrefix(t: Table, next: nat, n: nat, ids: set<nat>)
    requires Consecutive(t, next) && n <= |t|
    requires forall i | 0 <= i < |t| :: t[i].id in ids <==> i < n
    ensures DeleteIds(t, ids) == t[n..]
    decreases |t|
  {
    if n == 0 {
      DeleteNone(t, ids);
    } else {
      DeletePrefix(t[1..], next, n - 1, ids);
    }
  }

  lemma SelectedIds(selected: Table, ids: seq<nat>)
    requires |ids| == |selected| && forall i | 0 <= i < |ids| :: ids[i] == selected[i].id
    ensures ToSet(ids) == Ids(selected)
  {
    assert forall r | r in selected :: exists i :: 0 <= i < |ids| && ids[i] == r.id;
  }

  lemma RestIsConsecutive(t: Table, next: nat, n: nat)
    requires Consecutive(t, next) && n <= |t|
    ensures Consecutive(t[n..], next)
  {
  }

  lemma NewestIsConsecutive(t: Table, next: nat, payload: string, n: nat)
    requires Consecutive(t, next)
    ensures Consecutive(LastN(t + [Stored(next, payload)], n), next + 1)
  {
  }

  /// One push: insert, count, evict

  function AsI64(n: U64): int {
    if n < TWO_63 then n else n - TWO_64
  }

  function Pushed(t: Table, next: nat, payload: string, maxEvents: U64): Table {
    var u := t + [Stored(next, payload)];
    if |u| > AsI64(maxEvents) then DeleteIds(u, Ids(Oldest(u, Wrap64(|u| - AsI64(maxEvents))))) else u
  }

  // The capacity the eviction really enforces: a maximum beyond the signed range turns negative.
  function Capacity(maxEvents: U64): nat {
    if maxEvents < TWO_63 then maxEvents else 0
  }

  /** A push keeps the newest rows up to the capacity. */
  lemma PushKeepsNewest(t: Table, next: nat, payload: string, maxEvents: U64)
    requires Consecutive(t, next) && next < TWO_63
    ensures Pushed(t, next, payload, maxEvents) == LastN(t + [Stored(next, payload)], Capacity(maxEvents))
  {
    hide Wrap64, DeleteIds;
    var u := t + [Stored(next, payload)];
    var m := AsI64(maxEvents);
    if |u| > m {
      var n := Wrap64(|u| - m);
      WrappedExcess(|u|, maxEvents);
      var k := if n < 0 || n > |u| then |u| else n;
      assert Oldest(u, n) == u[..k];
      assert Consecutive(u, next + 1);
      DeleteOldest(u, next + 1, k);
      assert k == |u| - |LastN(u, Capacity(maxEvents))|;
    }
  }

  lemma WrappedExcess(count: nat, maxEvents: U64)
    requires 0 < count < TWO_63
    ensures maxEvents < TWO_63 ==> Wrap64(count - AsI64(maxEvents)) == count - maxEvents
    ensures maxEvents >= TWO_63 ==> var n := Wrap64(count - AsI64(maxEvents)); n < 0 || n >= count
  {
    if maxEvents >= TWO_63 {
      var d := count + TWO_64 - maxEvents;
      assert d >= TWO_63 ==> Wrap64(d) == d - TWO_64;
    }
  }

  /** The documented bound, the newest `maxEvents` rows, is met if and only if the configured maximum is
      below 2^63; from there on every push empties the buffer. */
  lemma BoundHoldsIffSigned(t: Table, next: nat, payload: string, maxEvents: U64)
    requires Consecutive(t, next) && next < TWO_63
    ensures Pushed(t, next, payload, maxEvents) == LastN(t + [Stored(next, payload)], maxEvents)
            <==> maxEvents < TWO_63
    ensures maxEvents >= TWO_63 ==> Pushed(t, next, payload, maxEvents) == []
  {
    PushKeepsNewest(t, next, payload, maxEvents);
  }

  /// Any sequence of pushes and drains

  datatype Op = Push(payload: string) | Drain(batchSize: nat)
  datatype Fate = Drained | Evicted
  datatype Gone = Gone(row: Stored, fate: Fate)
  datatype History = History(rows: Table, next: nat, gone: seq<Gone>)

  function Mark(t: Table, fate: Fate): (g: seq<Gone>)
    ensures |g| == |t|
  {
    seq(|t|, i requires 0 <= i < |t| => Gone(t[i], fate))
  }

  function Perform(h: History, op: Op, cap: nat): History {
    match op
    case Push(p) =>
      var u := h.rows + [Stored(h.next, p)];
      var kept := LastN(u, cap);
      History(kept, h.next + 1, h.gone + Mark(u[..|u| - |kept|], Evicted))
    case Drain(n) =>
      var k := if n < |h.rows| then n else |h.rows|;
      History(h.rows[k..], h.next, h.gone + Mark(h.rows[..k], Drained))
  }

  function PerformAll(ops: seq<Op>, cap: nat): History {
    if ops == [] then History([], 1, []) else Perform(PerformAll(ops[..|ops| - 1], cap), ops[|ops| - 1], cap)
  }

  function RowsOf(gone: seq<Gone>): (t: Table)
    ensures |t| == |gone|
  {
    seq(|gone|, i requires 0 <= i < |gone| => gone[i].row)
  }

  // Every row ever inserted, in order.
  function Inserted(ops: seq<Op>): Table {
    if ops == [] then []
    else
      var t := Inserted(ops[..|ops| - 1]);
      match ops[|ops| - 1] case Push(p) => t + [Stored(|t| + 1, p)] case Drain(_) => t
  }

  // gone + kept, as one sequence of rows with consecutive ids.
  ghost predicate Fifo(h: History, all: Table, cap: nat) {
    && RowsOf(h.gone) + h.rows == all
    && h.next == |all| + 1
    && Consecutive(all, h.next)
    && |h.rows| <= cap
  }

  // Moving the k oldest rows of u behind those already gone.
  lemma MoveOldest(gone: seq<Gone>, u: Table, k: nat, fate: Fate)
    requires k <= |u|
    ensures RowsOf(gone + Mark(u[..k], fate)) + u[k..] == RowsOf(gone) + u
  {
    assert RowsOf(gone + Mark(u[..k], fate)) == RowsOf(gone) + u[..k];
    assert u == u[..k] + u[k..];
  }

  lemma PerformIsFifo(h: History, all: Table, op: Op, cap: nat)
    requires Fifo(h, all, cap)
    ensures Fifo(Perform(h, op, cap), match op case Push(p) => all + [Stored(|all| + 1, p)] case Drain(_) => all, cap)
  {
    hide RowsOf, Mark;
    match op
    case Push(p) =>
      var u := h.rows + [Stored(h.next, p)];
      MoveOldest(h.gone, u, |u| - |LastN(u, cap)|, Evicted);
      assert RowsOf(h.gone) + u == all + [Stored(h.next, p)];
    case Drain(n) =>
      MoveOldest(h.gone, h.rows, if n < |h.rows| then n else |h.rows|, Drained);
  }

  /** The rows removed so far, drained or evicted, are a prefix of all rows ever inserted and the rows kept
      are the rest: a FIFO, bounded after every push. */
  lemma {:induction false} BufferIsFifo(ops: seq<Op>, cap: nat)
    ensures Fifo(PerformAll(ops, cap), Inserted(ops), cap)
    decreases |ops|
  {
    if ops != [] {
      BufferIsFifo(ops[..|ops| - 1], cap);
      PerformIsFifo(PerformAll(ops[..|ops| - 1], cap), Inserted(ops[..|ops| - 1]), ops[|ops| - 1], cap);
    }
  }

  lemma PerformAllSnoc(ops: seq<Op>, op: Op, cap: nat)
    ensures PerformAll(ops + [op], cap) == Perform(PerformAll(ops, cap), op, cap)
  {
    assert (ops + [op])[..|ops|] == ops;
  }

  lemma PerformDrain(h: History, n: nat, cap: nat)
    ensures var k := if n < |h.rows| then n else |h.rows|;
            Perform(h, Op.Drain(n), cap) == History(h.rows[k..], h.next, Perform(h, Op.Drain(n), cap).gone)
  {
  }

  lemma DrainedTable(t: Table, next: nat, n: nat)
    requires Consecutive(t, next)
    ensures var k := if n < |t| then n else |t|;
            && Oldest(t, n) == t[..k] && DeleteIds(t, Ids(Oldest(t, n))) == t[k..]
            && Consecutive(t[k..], next) && (k == 0 ==> t[k..] == t)
            && Payloads(t[..k]) == Payloads(t)[..k]
  {
    var k := if n < |t| then n else |t|;
    OldestIsPrefix(t, n);
    hide *;
    DeleteOldest(t, next, k);
    RestIsConsecutive(t, next, k);
    PayloadsOfParts(t, k);
  }

  lemma OldestIsPrefix(t: Table, n: nat)
    ensures Oldest(t, n) == t[..if n < |t| then n else |t|]
  {
    assert t[..|t|] == t;
  }

  lemma PayloadsOfParts(t: Table, k: nat)
    requires k <= |t|
    ensures Payloads(t[..k]) == Payloads(t)[..k] && Payloads(t[k..]) == Payloads(t)[k..]
  {
  }

  /// The buffer

  method ReadRows(selected: Table) returns (events: seq<string>, ids: seq<nat>)
    ensures events == Payloads(selected)
    ensures |ids| == |selected| && forall i | 0 <= i < |ids| :: ids[i] == selected[i].id
  {
    events, ids := [], [];
    for i := 0 to |selected|
      invariant events == Payloads(selected)[..i]
      invariant |ids| == i && forall j | 0 <= j < i :: ids[j] == selected[j].id
    {
      ids := ids + [selected[i].id];
      events := events + [selected[i].payload];
    }
  }

  class EventBuffer {
    const maxEvents: U64
    var rows: Table
    // The next id the database will assign.
    var next: nat
    // The rows removed so far, and the operations that succeeded.
    ghost var gone: seq<Gone>
    ghost var ops: seq<Op>

    ghost function H(): History
      reads this
    {
      History(rows, next, gone)
    }

    ghost predicate Valid()
      reads this
    {
      && H() == PerformAll(ops, Capacity(maxEvents))
      && Fifo(H(), Inserted(ops), Capacity(maxEvents))
      && Consecutive(rows, next)
      && next <= TWO_63
    }

    constructor (maxEvents: U64)
      ensures Valid() && H() == History([], 1, []) && ops == [] && this.maxEvents == maxEvents
    {
      this.maxEvents := maxEvents;
      rows, next := [], 1;
      gone, ops := [], [];
    }

    // Records an operation and what it removed.
    ghost method Record(op: Op)
      requires H() == PerformAll(ops, Capacity(maxEvents))
      modifies this`gone, this`ops
      ensures ops == old(ops) + [op] && gone == Perform(old(H()), op, Capacity(maxEvents)).gone
      ensures PerformAll(ops, Capacity(maxEvents)) == Perform(old(H()), op, Capacity(maxEvents))
      ensures Fifo(PerformAll(ops, Capacity(maxEvents)), Inserted(ops), Capacity(maxEvents))
    {
      hide Perform, PerformAll, Inserted, Fifo;
      PerformAllSnoc(ops, op, Capacity(maxEvents));
      BufferIsFifo(ops + [op], Capacity(maxEvents));
      gone := Perform(H(), op, Capacity(maxEvents)).gone;
      ops := ops + [op];
    }

    /** Appends one row and drops the oldest beyond the capacity; fails only when the ids are used up. */
    method Push(payload: string) returns (ok: bool)
      requires Valid()
      modifies this
      ensures Valid() && (ok <==> old(next) < TWO_63)
      ensures ok ==> ops == old(ops) + [Op.Push(payload)]
      ensures ok ==> H() == Perform(old(H()), Op.Push(payload), Capacity(maxEvents))
      ensures ok ==> next == old(next) + 1
      ensures ok ==> rows == LastN(old(rows) + [Stored(old(next), payload)], Capacity(maxEvents))
      ensures !ok ==> H() == old(H()) && ops == old(ops)
    {
      hide PerformAll, Fifo, DeleteIds, Mark, Ids, Oldest, Wrap64, Consecutive;
      if next >= TWO_63 {
        return false;
      }
      PushKeepsNewest(rows, next, payload, maxEvents);
      NewestIsConsecutive(rows, next, payload, Capacity(maxEvents));
      Record(Op.Push(payload));
      rows := rows + [Stored(next, payload)];
      next := next + 1;
      var count := |rows|;
      if count > AsI64(maxEvents) {
        var toDelete := Wrap64(count - AsI64(maxEvents));
        rows := DeleteIds(rows, Ids(Oldest(rows, toDelete)));
      }
      return true;
    }

    /** Returns and removes the oldest rows, in order. */
    method Drain(batchSize: nat) returns (events: seq<string>)
      requires Valid()
      modifies this
      ensures Valid() && ops == old(ops) + [Op.Drain(batchSize)]
      ensures H() == Perform(old(H()), Op.Drain(batchSize), Capacity(maxEvents))
      ensures var n := if batchSize < |old(rows)| then batchSize else |old(rows)|;
              events == Payloads(old(rows))[..n] && rows == old(rows)[n..]
    {
      hide PerformAll, Perform, Inserted, Fifo, Mark, Payloads, Oldest, DeleteIds, Ids, ToSet, Consecutive, Capacity;
      DrainedTable(rows, next, batchSize);
      PerformDrain(H(), batchSize, Capacity(maxEvents));
      var selected := Oldest(rows, batchSize);
      var ids;
      events, ids := ReadRows(selected);
      SelectedIds(selected, ids);
      Record(Op.Drain(batchSize));
      if ids != [] {
        rows := DeleteIds(rows, ToSet(ids));
      }
    }

    method Len() returns (n: nat)
      ensures n == |rows|
    {
      n := |rows|;
    }
  }
}
