// Draining the offline buffer to the fleet: batches that fail, in whole or in part, go back to the buffer
// while collectors keep pushing.
module DrainLoop {
  import opened Collections
  import opened OfflineBuffer

  type Event = string

  /// Sending one batch

  datatype Outcome = Accepted | Rejected | Failed

  /** Sends event by event into a channel that accepts `room` more events before it closes. A closed channel
      fails the batch after the part already sent; without a connection nothing is sent. */
  method SendEvents(connected: bool, batch: seq<Event>, room: nat) returns (outcome: Outcome, sent: seq<Event>)
    ensures outcome != Rejected
    ensures outcome == Accepted <==> connected && |batch| <= room
    ensures sent == if !connected then [] else if |batch| <= room then batch else batch[..room]
  {
    sent := [];
    if !connected {
      return Failed, [];
    }
    for i := 0 to |batch|
      invariant i <= room && sent == batch[..i]
    {
      if |sent| == room {
        return Failed, sent;
      }
      sent := sent + [batch[i]];
    }
    return Accepted, sent;
  }

  /// The loop among concurrent pushes

  datatype Hand =
    | Idle
    | Sending(events: seq<Event>)
    | Requeueing(events: seq<Event>)

  // The multisets record where events went: collected from osquery, delivered in accepted batches, thrown
  // away unparsed, evicted by the capacity, put into the outbound channel, and held by batches that failed.
  datatype State = State(
    buffer: seq<Event>, hand: Hand,
    collected: multiset<Event>, accepted: multiset<Event>, discarded: multiset<Event>,
    evicted: multiset<Event>, entered: multiset<Event>, failed: multiset<Event>)

  const START := State([], Idle, multiset{}, multiset{}, multiset{}, multiset{}, multiset{}, multiset{})

  // Which stored strings parse again is up to the JSON library.
  type Parser = Event -> bool

  function Filter(events: seq<Event>, parses: Parser, keep: bool): seq<Event> {
    if events == [] then []
    else (if parses(events[0]) == keep then [events[0]] else []) + Filter(events[1..], parses, keep)
  }

  function Held(h: Hand): seq<Event> {
    if h.Idle? then [] else h.events
  }

  function PushEvent(s: State, e: Event, cap: nat): State {
    var u := s.buffer + [e];
    s.(buffer := LastN(u, cap), evicted := s.evicted + multiset(u[..|u| - |LastN(u, cap)|]))
  }

  datatype Action =
    | Collect(event: Event)
    | Drain(batchSize: nat)
    | Send(outcome: Outcome, count: nat)
    | Requeue

  function Step(s: State, a: Action, cap: nat, parses: Parser): State {
    match a
    case Collect(e) =>
      PushEvent(s, e, cap).(collected := s.collected + multiset{e})
    case Drain(n) =>
      if !s.hand.Idle? then s
      else
        var k := if n < |s.buffer| then n else |s.buffer|;
        var events := s.buffer[..k];
        if Filter(events, parses, true) == []
        // Nothing to send: the unparsable rest of the batch is gone.
        then s.(buffer := s.buffer[k..], discarded := s.discarded + multiset(events))
        else s.(buffer := s.buffer[k..], hand := Sending(events))
    case Send(outcome, count) =>
      if !s.hand.Sending? then s
      else
        var events := s.hand.events;
        var parsed := Filter(events, parses, true);
        var n := if outcome != Failed || count > |parsed| then |parsed| else count;
        var s' := s.(entered := s.entered + multiset(parsed[..n]));
        if outcome == Accepted
        then s'.(hand := Idle, accepted := s.accepted + multiset(parsed),
                 discarded := s.discarded + multiset(Filter(events, parses, false)))
        else s'.(hand := Requeueing(events), failed := s.failed + multiset(parsed))
    case Requeue =>
      if !s.hand.Requeueing? then s
      else
        var rest := s.hand.events;
        if rest == [] then s.(hand := Idle)
        else PushEvent(s, rest[0], cap).(hand := Requeueing(rest[1..]))
  }

  function Run(actions: seq<Action>, cap: nat, parses: Parser): State {
    if actions == [] then START
    else Step(Run(actions[..|actions| - 1], cap, parses), actions[|actions| - 1], cap, parses)
  }

  /// Conservation

  lemma {:induction false} FilterSplits(events: seq<Event>, parses: Parser)
    ensures multiset(Filter(events, parses, true)) + multiset(Filter(events, parses, false)) == multiset(events)
  {
    if events != [] {
      FilterSplits(events[1..], parses);
      assert events == [events[0]] + events[1..];
    }
  }

  ghost predicate Conserved(s: State) {
    s.collected == s.accepted + s.discarded + s.evicted + multiset(s.buffer) + multiset(Held(s.hand))
  }

  // An event in the channel more often than collected was in a failed batch before.
  ghost predicate Bounded(s: State) {
    forall e :: s.entered[e] + multiset(s.buffer)[e] + multiset(Held(s.hand))[e] <= s.collected[e] + s.failed[e]
  }

  lemma SplitMultiset(u: seq<Event>, k: nat)
    requires k <= |u|
    ensures multiset(u) == multiset(u[..k]) + multiset(u[k..])
  {
    assert u == u[..k] + u[k..];
  }

  lemma PushConserves(s: State, e: Event, cap: nat)
    ensures var s' := PushEvent(s, e, cap);
            && s' == s.(buffer := s'.buffer, evicted := s'.evicted)
            && |s'.buffer| <= cap
            && s'.evicted + multiset(s'.buffer) == s.evicted + multiset(s.buffer) + multiset{e}
            && multiset(s'.buffer) <= multiset(s.buffer) + multiset{e}
  {
    var u := s.buffer + [e];
    var k := |u| - |LastN(u, cap)|;
    assert LastN(u, cap) == u[k..];
    SplitOnto(s.evicted, s.buffer, e, k);
    assert multiset(u[k..]) <= multiset(u) by { SplitMultiset(u, k); }
  }

  lemma SplitOnto(onto: multiset<Event>, q: seq<Event>, e: Event, k: nat)
    requires k <= |q| + 1
    ensures onto + multiset((q + [e])[..k]) + multiset((q + [e])[k..]) == onto + multiset(q) + multiset{e}
    ensures multiset(q + [e]) == multiset(q) + multiset{e}
  {
    SplitMultiset(q + [e], k);
    assert multiset(q + [e]) == multiset(q) + multiset{e};
    calc {
      onto + multiset((q + [e])[..k]) + multiset((q + [e])[k..]);
      onto + (multiset((q + [e])[..k]) + multiset((q + [e])[k..]));
      onto + (multiset(q) + multiset{e});
    }
  }

  lemma CollectKeeps(s: State, e: Event, cap: nat, parses: Parser)
    requires Conserved(s) && Bounded(s)
    ensures Conserved(Step(s, Collect(e), cap, parses)) && Bounded(Step(s, Collect(e), cap, parses))
  {
    PushConserves(s, e, cap);
    hide PushEvent;
    var s' := PushEvent(s, e, cap);
    calc {
      s.collected + multiset{e};
      s.accepted + s.discarded + multiset(Held(s.hand)) + (s.evicted + multiset(s.buffer) + multiset{e});
      s.accepted + s.discarded + multiset(Held(s.hand)) + (s'.evicted + multiset(s'.buffer));
      s.accepted + s.discarded + s'.evicted + multiset(s'.buffer) + multiset(Held(s.hand));
    }
  }

  // A drained batch is discarded or in hand.
  lemma DrainMoves(s: State, n: nat, cap: nat, parses: Parser)
    requires s.hand.Idle?
    ensures var k := if n < |s.buffer| then n else |s.buffer|;
            var s' := Step(s, Action.Drain(n), cap, parses);
            && s' == s.(buffer := s.buffer[k..], hand := s'.hand, discarded := s'.discarded)
            && s'.discarded + multiset(Held(s'.hand)) == s.discarded + multiset(s.buffer[..k])
            && multiset(Held(s'.hand)) <= multiset(s.buffer[..k])
  {
    hide Filter;
  }

  lemma DrainKeeps(s: State, n: nat, cap: nat, parses: Parser)
    requires Conserved(s) && Bounded(s)
    ensures Conserved(Step(s, Action.Drain(n), cap, parses)) && Bounded(Step(s, Action.Drain(n), cap, parses))
  {
    if s.hand.Idle? {
      DrainMoves(s, n, cap, parses);
      hide Step;
      var k := if n < |s.buffer| then n else |s.buffer|;
      SplitMultiset(s.buffer, k);
      MoveInHand(s, Step(s, Action.Drain(n), cap, parses), multiset(s.buffer[..k]));
    }
  }

  lemma MoveInHand(s: State, s': State, events: multiset<Event>)
    requires Conserved(s) && Bounded(s) && s.hand.Idle?
    requires s' == s.(buffer := s'.buffer, hand := s'.hand, discarded := s'.discarded)
    requires multiset(s.buffer) == events + multiset(s'.buffer)
    requires s'.discarded + multiset(Held(s'.hand)) == s.discarded + events && multiset(Held(s'.hand)) <= events
    ensures Conserved(s') && Bounded(s')
  {
    var rest, held := multiset(s'.buffer), multiset(Held(s'.hand));
    calc {
      s.collected;
      s.accepted + s.evicted + rest + (s.discarded + events);
      s.accepted + s.evicted + rest + (s'.discarded + held);
      s'.accepted + s'.discarded + s'.evicted + rest + held;
    }
  }

  lemma SendKeeps(s: State, outcome: Outcome, count: nat, cap: nat, parses: Parser)
    requires Conserved(s) && Bounded(s)
    ensures Conserved(Step(s, Send(outcome, count), cap, parses)) && Bounded(Step(s, Send(outcome, count), cap, parses))
  {
    hide Filter, PushEvent;
    if s.hand.Sending? {
      var parsed := Filter(s.hand.events, parses, true);
      FilterSplits(s.hand.events, parses);
      var n := if outcome != Failed || count > |parsed| then |parsed| else count;
      SplitMultiset(parsed, n);
    }
  }

  lemma RequeueKeeps(s: State, cap: nat, parses: Parser)
    requires Conserved(s) && Bounded(s)
    ensures Conserved(Step(s, Requeue, cap, parses)) && Bounded(Step(s, Requeue, cap, parses))
  {
    if s.hand.Requeueing? && s.hand.events != [] {
      var e, rest := s.hand.events[0], s.hand.events[1..];
      assert s.hand.events == [e] + rest;
      PushConserves(s, e, cap);
      hide PushEvent;
      MoveBack(s, Step(s, Requeue, cap, parses), e);
    }
  }

  lemma MoveBack(s: State, s': State, e: Event)
    requires Conserved(s) && Bounded(s)
    requires s' == s.(buffer := s'.buffer, hand := s'.hand, evicted := s'.evicted)
    requires s'.evicted + multiset(s'.buffer) == s.evicted + multiset(s.buffer) + multiset{e}
    requires multiset(s'.buffer) <= multiset(s.buffer) + multiset{e}
    requires multiset(Held(s.hand)) == multiset{e} + multiset(Held(s'.hand))
    ensures Conserved(s') && Bounded(s')
  {
    var rest := multiset(Held(s'.hand));
    calc {
      s.collected;
      s.accepted + s.discarded + rest + (s.evicted + multiset(s.buffer) + multiset{e});
      s.accepted + s.discarded + rest + (s'.evicted + multiset(s'.buffer));
      s'.accepted + s'.discarded + s'.evicted + multiset(s'.buffer) + rest;
    }
  }

  /** Over any run no event is lost or made up: what was collected is what accepted batches delivered, what
      was thrown away unparsed, what the capacity evicted, and what is buffered or in hand. */
  lemma {:induction false} EventsAreConserved(actions: seq<Action>, cap: nat, parses: Parser)
    ensures Conserved(Run(actions, cap, parses)) && Bounded(Run(actions, cap, parses))
    decreases |actions|
  {
    if actions != [] {
      var front := actions[..|actions| - 1];
      EventsAreConserved(front, cap, parses);
      match actions[|actions| - 1]
      case Collect(e) => CollectKeeps(Run(front, cap, parses), e, cap, parses);
      case Drain(n) => DrainKeeps(Run(front, cap, parses), n, cap, parses);
      case Send(outcome, count) => SendKeeps(Run(front, cap, parses), outcome, count, cap, parses);
      case Requeue => RequeueKeeps(Run(front, cap, parses), cap, parses);
    }
  }

  /** An event enters the outbound channel more often than it was collected, so twice if collected once, only
      if a batch holding it failed. */
  lemma TwiceOnlyAfterFailure(actions: seq<Action>, cap: nat, parses: Parser, e: Event)
    ensures var s := Run(actions, cap, parses);
            s.entered[e] > s.collected[e] ==> e in s.failed
  {
    EventsAreConserved(actions, cap, parses);
  }

  /// One tick without interference

  // All the pushes of a failed batch, with no collector in between.
  function Requeued(s: State, cap: nat, parses: Parser): State
    requires s.hand.Requeueing?
    decreases |s.hand.events|
  {
    var s' := Step(s, Requeue, cap, parses);
    if s'.hand.Idle? then s' else Requeued(s', cap, parses)
  }

  lemma {:induction false} RequeueAppends(s: State, cap: nat, parses: Parser)
    requires s.hand.Requeueing? && |s.buffer| + |s.hand.events| <= cap
    ensures Requeued(s, cap, parses) == s.(buffer := s.buffer + s.hand.events, hand := Idle)
    decreases |s.hand.events|
  {
    var events := s.hand.events;
    if events != [] {
      assert s.evicted + multiset([]) == s.evicted;
      var s' := s.(buffer := s.buffer + [events[0]], hand := Requeueing(events[1..]));
      assert Step(s, Requeue, cap, parses) == s';
      RequeueAppends(s', cap, parses);
      assert s.buffer + [events[0]] + events[1..] == s.buffer + events;
    } else {
      assert s.buffer + [] == s.buffer;
    }
  }

  // Drain, send and, if the batch failed, push it back.
  function Tick(s: State, batchSize: nat, outcome: Outcome, count: nat, cap: nat, parses: Parser): State {
    var s' := Step(Step(s, Action.Drain(batchSize), cap, parses), Send(outcome, count), cap, parses);
    if s'.hand.Requeueing? then Requeued(s', cap, parses) else s'
  }

  /** A tick nobody interferes with, in the machine: accepted, the batch leaves the buffer; failed, the whole
      batch, unparsable events included, comes back behind the younger ones and nothing is evicted. */
  lemma QuietTick(s: State, batchSize: nat, outcome: Outcome, count: nat, cap: nat, parses: Parser)
    requires s.hand.Idle? && |s.buffer| <= cap
    ensures var n := if batchSize < |s.buffer| then batchSize else |s.buffer|;
            var kept := outcome != Accepted && Filter(s.buffer[..n], parses, true) != [];
            var end := Tick(s, batchSize, outcome, count, cap, parses);
            && end.hand.Idle? && end.evicted == s.evicted
            && end.buffer == s.buffer[n..] + if kept then s.buffer[..n] else []
  {
    hide Filter;
    var s' := Step(Step(s, Action.Drain(batchSize), cap, parses), Send(outcome, count), cap, parses);
    if s'.hand.Requeueing? {
      RequeueAppends(s', cap, parses);
    }
  }

  /// The machine on the real buffer

  // The payloads evicted, in order.
  function EvictedOf(gone: seq<Gone>): seq<Event> {
    if gone == [] then []
    else
      var g := gone[|gone| - 1];
      EvictedOf(gone[..|gone| - 1]) + if g.fate == Evicted then [g.row.payload] else []
  }

  // The machine sees the payloads of the table and the payloads evicted from it.
  ghost predicate Abstracts(h: History, s: State) {
    s.buffer == Payloads(h.rows) && s.evicted == multiset(EvictedOf(h.gone))
  }

  lemma {:induction false} EvictedConcat(gone: seq<Gone>, t: Table, fate: Fate)
    ensures EvictedOf(gone + Mark(t, fate)) == EvictedOf(gone) + if fate == Evicted then Payloads(t) else []
    decreases |t|
  {
    var all := gone + Mark(t, fate);
    if t == [] {
      assert all == gone;
    } else {
      var front, last := t[..|t| - 1], t[|t| - 1];
      EvictedConcat(gone, front, fate);
      assert all[..|all| - 1] == gone + Mark(front, fate);
      assert Payloads(t) == Payloads(front) + [last.payload];
    }
  }

  lemma PushRefines(h: History, s: State, e: Event, cap: nat)
    requires Abstracts(h, s)
    ensures Abstracts(Perform(h, Op.Push(e), cap), PushEvent(s, e, cap))
  {
    hide Mark, EvictedOf;
    var u := h.rows + [Stored(h.next, e)];
    var k := |u| - |LastN(u, cap)|;
    EvictedConcat(h.gone, u[..k], Evicted);
    PayloadsOfParts(u, k);
    assert Payloads(u) == s.buffer + [e];
    hide Payloads;
    assert LastN(u, cap) == u[k..] && LastN(Payloads(u), cap) == Payloads(u)[k..];
  }

  lemma DrainRefines(h: History, s: State, n: nat, cap: nat, parses: Parser)
    requires Abstracts(h, s) && s.hand.Idle?
    ensures Abstracts(Perform(h, Op.Drain(n), cap), Step(s, Action.Drain(n), cap, parses))
  {
    hide Filter, Mark, EvictedOf;
    var k := if n < |h.rows| then n else |h.rows|;
    EvictedConcat(h.gone, h.rows[..k], Drained);
    PayloadsOfParts(h.rows, k);
    DrainMoves(s, n, cap, parses);
    hide Step, Payloads;
  }

  // What an action does to the buffer.
  function OpsOf(s: State, a: Action): seq<Op> {
    match a
    case Collect(e) => [Op.Push(e)]
    case Drain(n) => if s.hand.Idle? then [Op.Drain(n)] else []
    case Send(_, _) => []
    case Requeue => if s.hand.Requeueing? && s.hand.events != [] then [Op.Push(s.hand.events[0])] else []
  }

  function BufferOps(actions: seq<Action>, cap: nat, parses: Parser): seq<Op> {
    if actions == [] then []
    else
      var front := actions[..|actions| - 1];
      BufferOps(front, cap, parses) + OpsOf(Run(front, cap, parses), actions[|actions| - 1])
  }

  lemma StepRefines(h: History, s: State, a: Action, cap: nat, parses: Parser)
    requires Abstracts(h, s)
    ensures |OpsOf(s, a)| <= 1
    ensures Abstracts(if OpsOf(s, a) == [] then h else Perform(h, OpsOf(s, a)[0], cap), Step(s, a, cap, parses))
  {
    hide Perform, PushEvent, Filter;
    match a
    case Collect(e) => PushRefines(h, s, e, cap);
    case Drain(n) => if s.hand.Idle? { DrainRefines(h, s, n, cap, parses); }
    case Send(_, _) =>
    case Requeue =>
      if s.hand.Requeueing? && s.hand.events != [] {
        PushRefines(h, s, s.hand.events[0], cap);
      }
  }

  /** Every run of the machine is a run of the event buffer: its buffer is the payloads of the buffer's table, and what
      it counts as evicted is what the buffer evicted. */
  lemma {:induction false} RunIsBuffer(actions: seq<Action>, cap: nat, parses: Parser)
    ensures Abstracts(PerformAll(BufferOps(actions, cap, parses), cap), Run(actions, cap, parses))
    decreases |actions|
  {
    if actions != [] {
      var front, a := actions[..|actions| - 1], actions[|actions| - 1];
      var ops, s := BufferOps(front, cap, parses), Run(front, cap, parses);
      RunIsBuffer(front, cap, parses);
      StepRefines(PerformAll(ops, cap), s, a, cap, parses);
      hide Step, OpsOf, Abstracts, PerformAll, Perform;
      if OpsOf(s, a) == [] {
        assert ops + [] == ops;
      } else {
        PerformAllSnoc(ops, OpsOf(s, a)[0], cap);
        assert OpsOf(s, a) == [OpsOf(s, a)[0]];
      }
    }
  }

  /// One turn of the task

  method ParsedOf(events: seq<Event>, parses: Parser) returns (parsed: seq<Event>)
    ensures parsed == Filter(events, parses, true)
  {
    parsed := [];
    for i := 0 to |events|
      invariant parsed + Filter(events[i..], parses, true) == Filter(events, parses, true)
    {
      assert events[i..][0] == events[i] && events[i..][1..] == events[i + 1..];
      if parses(events[i]) {
        parsed := parsed + [events[i]];
      }
    }
  }

  lemma RequeueOne(h: History, s: State, events: seq<Event>, i: nat, cap: nat, parses: Parser)
    requires Abstracts(h, s) && i < |events| && s.hand == Requeueing(events[i..])
    ensures var s' := Step(s, Requeue, cap, parses);
            && Abstracts(Perform(h, Op.Push(events[i]), cap), s')
            && s'.hand == Requeueing(events[i + 1..])
            && Requeued(s', cap, parses) == Requeued(s, cap, parses)
  {
    hide Perform, PushEvent;
    PushRefines(h, s, events[i], cap);
    assert events[i..][0] == events[i] && events[i..][1..] == events[i + 1..];
  }

  lemma RequeueEnds(h: History, s: State, cap: nat, parses: Parser)
    requires Abstracts(h, s) && s.hand == Requeueing([])
    ensures Abstracts(h, Requeued(s, cap, parses))
  {
  }

  /** Pushes a failed batch back, one event at a time. */
  method RequeueBatch(buffer: EventBuffer, events: seq<Event>, parses: Parser, ghost s: State)
    requires buffer.Valid() && buffer.next + |events| <= TWO_63
    requires Abstracts(buffer.H(), s) && s.hand == Requeueing(events)
    modifies buffer
    ensures buffer.Valid()
    ensures Abstracts(buffer.H(), Requeued(s, Capacity(buffer.maxEvents), parses))
  {
    hide Perform, PerformAll, Inserted, Fifo, Consecutive, Abstracts, Step, Requeued, Capacity;
    ghost var cap := Capacity(buffer.maxEvents);
    ghost var s' := s;
    assert events[0..] == events;
    for i := 0 to |events|
      invariant buffer.Valid() && buffer.next <= TWO_63 - |events| + i
      invariant Abstracts(buffer.H(), s') && s'.hand == Requeueing(events[i..])
      invariant Requeued(s', cap, parses) == Requeued(s, cap, parses)
    {
      RequeueOne(buffer.H(), s', events, i, cap, parses);
      s' := Step(s', Requeue, cap, parses);
      var ok := buffer.Push(events[i]);
    }
    assert events[|events|..] == [];
    RequeueEnds(buffer.H(), s', cap, parses);
  }

  /** One turn of the drain task on the real buffer does what the machine's turn does, whatever the capacity evicts
      (as long as ids last, so that pushes succeed). The batch is accepted exactly when nothing in it parses or all
      that parses is sent; what is sent is a prefix of what parses. */
  method DrainTick(buffer: EventBuffer, batchSize: nat, parses: Parser, connected: bool, room: nat, ghost s: State)
    returns (outcome: Outcome, sent: seq<Event>)
    requires buffer.Valid() && buffer.next + |buffer.rows| <= TWO_63
    requires Abstracts(buffer.H(), s) && s.hand.Idle?
    modifies buffer
    ensures buffer.Valid()
    ensures Abstracts(buffer.H(), Tick(s, batchSize, outcome, |sent|, Capacity(buffer.maxEvents), parses))
    ensures var n := if batchSize < |old(buffer.rows)| then batchSize else |old(buffer.rows)|;
            var parsed := Filter(Payloads(old(buffer.rows))[..n], parses, true);
            && (outcome == Accepted <==> parsed == [] || (connected && |parsed| <= room))
            && sent == (if parsed == [] || !connected then [] else if |parsed| <= room then parsed else parsed[..room])
            && Payloads(buffer.rows)
               == Payloads(old(buffer.rows))[n..] + if outcome == Accepted then [] else Payloads(old(buffer.rows))[..n]
  {
    hide Filter, Perform, Abstracts, Step;
    DrainRefines(buffer.H(), s, batchSize, Capacity(buffer.maxEvents), parses);
    HandMoves(s, batchSize, Capacity(buffer.maxEvents), parses);
    ghost var drained := Step(s, Action.Drain(batchSize), Capacity(buffer.maxEvents), parses);
    SameBuffer(buffer.H(), s);
    var events := buffer.Drain(batchSize);
    var parsed := ParsedOf(events, parses);
    if parsed == [] {
      outcome, sent := Accepted, [];
    } else {
      outcome, sent := SendEvents(connected, parsed, room);
    }
    SendLeavesBuffer(buffer.H(), drained, outcome, |sent|, Capacity(buffer.maxEvents), parses);
    if outcome != Accepted {
      RequeueBatch(buffer, events, parses, Step(drained, Send(outcome, |sent|), Capacity(buffer.maxEvents), parses));
    }
    QuietTick(s, batchSize, outcome, |sent|, Capacity(buffer.maxEvents), parses);
    SameBuffer(buffer.H(), Tick(s, batchSize, outcome, |sent|, Capacity(buffer.maxEvents), parses));
  }

  lemma SameBuffer(h: History, s: State)
    requires Abstracts(h, s)
    ensures s.buffer == Payloads(h.rows)
  {
  }

  // What the task holds after draining.
  lemma HandMoves(s: State, n: nat, cap: nat, parses: Parser)
    requires s.hand.Idle?
    ensures var events := s.buffer[..if n < |s.buffer| then n else |s.buffer|];
            Step(s, Action.Drain(n), cap, parses).hand
            == if Filter(events, parses, true) == [] then Idle else Sending(events)
  {
    hide Filter;
  }

  // Sending does not touch the buffer; a failed batch stays in hand.
  lemma SendLeavesBuffer(h: History, s: State, outcome: Outcome, count: nat, cap: nat, parses: Parser)
    requires Abstracts(h, s)
    ensures var s' := Step(s, Send(outcome, count), cap, parses);
            && Abstracts(h, s')
            && s'.hand == if !s.hand.Sending? then s.hand
                          else if outcome == Accepted then Idle
                          else Requeueing(s.hand.events)
  {
    hide Filter;
  }
}
