// The rule engine's alert batcher: one select loop over alerts, a restarted sleep, close and shutdown.
module AlertBatcher {
  import opened Collections

  type Alert = string
  type Time = nat

  // An alert with the instant it left the channel.
  datatype Item = Item(alert: Alert, at: Time)

  // What the select picked, when, and whether a batch sent in that turn is accepted.
  datatype Event =
    | Received(alert: Alert, at: Time, ok: bool)
    | SleepElapsed(at: Time, ok: bool)
    | ChannelClosed(at: Time, ok: bool)
    | Shutdown(at: Time, pending: seq<Alert>, ok: bool)

  datatype Reason = Routine | AtClose | AtShutdown
  datatype Flush = Flush(items: seq<Item>, at: Time, reason: Reason, ok: bool)
  datatype Config = Config(maxSize: nat, interval: nat)

  // turn is the instant the current turn of the loop began, and so when its sleep was started.
  datatype State = State(
    buffer: seq<Item>, lastFlush: Time, turn: Time, flushes: seq<Flush>, persisted: nat, stopped: bool)

  function Start(now: Time): State {
    State([], now, now, [], 0, false)
  }

  function SendBatch(s: State, at: Time, reason: Reason, ok: bool): State {
    s.(flushes := s.flushes + [Flush(s.buffer, at, reason, ok)],
       persisted := s.persisted + if ok && reason != AtClose then |s.buffer| else 0)
  }

  function FlushRoutine(s: State, at: Time, ok: bool): State {
    SendBatch(s, at, Routine, ok).(buffer := [], lastFlush := at)
  }

  function Stamp(alerts: seq<Alert>, at: Time): (r: seq<Item>)
    ensures |r| == |alerts|
  {
    seq(|alerts|, i requires 0 <= i < |alerts| => Item(alerts[i], at))
  }

  function Step(cfg: Config, s: State, e: Event): State {
    if s.stopped then s
    else match e
      case Received(alert, at, ok) =>
        var s' := s.(buffer := s.buffer + [Item(alert, at)], turn := at);
        if |s'.buffer| >= cfg.maxSize || Elapsed(at, s.lastFlush) >= cfg.interval then FlushRoutine(s', at, ok) else s'
      case SleepElapsed(at, ok) =>
        var s' := s.(turn := at);
        if s.buffer != [] && Elapsed(at, s.lastFlush) >= cfg.interval then FlushRoutine(s', at, ok) else s'
      case ChannelClosed(at, ok) =>
        // This last batch is not counted as persisted.
        var s' := if s.buffer == [] then s else SendBatch(s, at, AtClose, ok).(buffer := []);
        s'.(stopped := true)
      case Shutdown(at, pending, ok) =>
        var s' := s.(buffer := s.buffer + Stamp(pending, at));
        var s'' := if s'.buffer == [] then s' else SendBatch(s', at, AtShutdown, ok).(buffer := []);
        s''.(stopped := true)
  }

  function Run(cfg: Config, start: Time, events: seq<Event>): State {
    if events == [] then Start(start) else Step(cfg, Run(cfg, start, events[..|events| - 1]), events[|events| - 1])
  }

  /** The task's loop, with its own variables. */
  method BatcherTask(cfg: Config, start: Time, events: seq<Event>)
    returns (buffer: seq<Item>, flushes: seq<Flush>, persisted: nat, stopped: bool, lastFlush: Time)
    ensures var s := Run(cfg, start, events);
            && buffer == s.buffer && flushes == s.flushes && persisted == s.persisted
            && stopped == s.stopped && lastFlush == s.lastFlush
  {
    buffer, flushes, persisted, stopped := [], [], 0, false;
    var last := start;
    ghost var turn := start;
    var i := 0;
    while i < |events| && !stopped
      invariant i <= |events|
      invariant Run(cfg, start, events[..i]) == State(buffer, last, turn, flushes, persisted, stopped)
    {
      assert events[..i + 1][..i] == events[..i];
      match events[i] {
        case Shutdown(at, pending, ok) =>
          buffer := buffer + Stamp(pending, at);
          if buffer != [] {
            flushes := flushes + [Flush(buffer, at, AtShutdown, ok)];
            if ok {
              persisted := persisted + |buffer|;
            }
            buffer := [];
          }
          stopped := true;
        case Received(alert, at, ok) =>
          buffer := buffer + [Item(alert, at)];
          turn := at;
          if |buffer| >= cfg.maxSize || Elapsed(at, last) >= cfg.interval {
            flushes := flushes + [Flush(buffer, at, Routine, ok)];
            if ok {
              persisted := persisted + |buffer|;
            }
            buffer := [];
            last := at;
          }
        case ChannelClosed(at, ok) =>
          if buffer != [] {
            flushes := flushes + [Flush(buffer, at, AtClose, ok)];
            buffer := [];
          }
          stopped := true;
        case SleepElapsed(at, ok) =>
          turn := at;
          if buffer != [] && Elapsed(at, last) >= cfg.interval {
            flushes := flushes + [Flush(buffer, at, Routine, ok)];
            if ok {
              persisted := persisted + |buffer|;
            }
            buffer := [];
            last := at;
          }
      }
      i := i + 1;
    }
    StoppedStays(cfg, start, events, i);
    lastFlush := last;
  }

  lemma {:induction false} StoppedStays(cfg: Config, start: Time, events: seq<Event>, i: nat)
    requires i <= |events| && (i < |events| ==> Run(cfg, start, events[..i]).stopped)
    ensures Run(cfg, start, events) == Run(cfg, start, events[..i])
    decreases |events|
  {
    if i == |events| {
      assert events[..i] == events;
    } else {
      var front := events[..|events| - 1];
      assert front[..i] == events[..i];
      StoppedStays(cfg, start, front, i);
    }
  }

  /// Order, sizes and counting, for every interleaving

  function Sent(flushes: seq<Flush>): seq<Item> {
    if flushes == [] then [] else Sent(flushes[..|flushes| - 1]) + flushes[|flushes| - 1].items
  }

  // What the loop took out of the channel before it stopped.
  function Taken(cfg: Config, start: Time, events: seq<Event>): seq<Item> {
    if events == [] then []
    else
      var front := events[..|events| - 1];
      Taken(cfg, start, front)
      + if Run(cfg, start, front).stopped then []
        else TakenBy(events[|events| - 1])
  }

  // Alerts in batches that were accepted in time to be counted.
  function Counted(flushes: seq<Flush>): nat {
    if flushes == [] then 0
    else
      var f := flushes[|flushes| - 1];
      Counted(flushes[..|flushes| - 1]) + if f.ok && f.reason != AtClose then |f.items| else 0
  }

  function SizeLimit(cfg: Config): nat {
    if cfg.maxSize == 0 then 1 else cfg.maxSize
  }

  lemma FlushSnoc(flushes: seq<Flush>, f: Flush)
    ensures Sent(flushes + [f]) == Sent(flushes) + f.items
    ensures Counted(flushes + [f]) == Counted(flushes) + if f.ok && f.reason != AtClose then |f.items| else 0
  {
    assert (flushes + [f])[..|flushes|] == flushes;
  }

  ghost predicate Accounted(cfg: Config, s: State) {
    && (forall f | f in s.flushes :: f.items != [] && (f.reason == Routine ==> |f.items| <= SizeLimit(cfg)))
    && |s.buffer| < SizeLimit(cfg)
    && s.persisted == Counted(s.flushes)
    && (s.stopped ==> s.buffer == [])
  }

  function TakenBy(e: Event): seq<Item> {
    match e
    case Received(alert, at, _) => [Item(alert, at)]
    case Shutdown(at, pending, _) => Stamp(pending, at)
    case _ => []
  }

  lemma StepAccounts(cfg: Config, s: State, e: Event)
    requires Accounted(cfg, s) && !s.stopped
    ensures Accounted(cfg, Step(cfg, s, e))
    ensures Sent(Step(cfg, s, e).flushes) + Step(cfg, s, e).buffer == Sent(s.flushes) + s.buffer + TakenBy(e)
  {
    hide Sent, Counted;
    var s' := Step(cfg, s, e);
    if s'.flushes != s.flushes {
      var f := s'.flushes[|s.flushes|];
      assert s'.flushes == s.flushes + [f] && s'.buffer == [] && f.items == s.buffer + TakenBy(e);
      FlushSnoc(s.flushes, f);
    } else {
      assert s'.buffer == s.buffer + TakenBy(e);
    }
  }

  /** The batches sent, then the buffer, are what was received, in order and without loss or repetition;
      no batch is empty, routine batches stay within the limit, and the counter is exactly the alerts of
      accepted batches other than the one sent when the channel closes. */
  lemma {:induction false} BatchesPartitionTheStream(cfg: Config, start: Time, events: seq<Event>)
    ensures var s := Run(cfg, start, events);
            Accounted(cfg, s) && Sent(s.flushes) + s.buffer == Taken(cfg, start, events)
    decreases |events|
  {
    if events != [] {
      var front, e := events[..|events| - 1], events[|events| - 1];
      BatchesPartitionTheStream(cfg, start, front);
      if !Run(cfg, start, front).stopped {
        StepAccounts(cfg, Run(cfg, start, front), e);
      } else {
        assert Taken(cfg, start, front) + [] == Taken(cfg, start, front);
      }
    }
  }

  /// Latency, when the timer is timely and sends take no time

  // No turn outlasts its sleep, and time does not run backwards.
  predicate Timely(cfg: Config, s: State, e: Event) {
    && s.turn <= e.at <= s.turn + cfg.interval
    && (e.SleepElapsed? ==> e.at == s.turn + cfg.interval)
  }

  predicate TimelyRun(cfg: Config, start: Time, events: seq<Event>) {
    events == [] ||
    (TimelyRun(cfg, start, events[..|events| - 1])
     && Timely(cfg, Run(cfg, start, events[..|events| - 1]), events[|events| - 1]))
  }

  // Waited less than two intervals, or not at all.
  predicate Prompt(cfg: Config, item: Item, until: Time) {
    item.at <= until && (until < item.at + 2 * cfg.interval || until == item.at)
  }

  /** Although every alert restarts the sleep, a non-empty buffer has its deadline within two intervals of
      the last flush; so no alert waits two intervals, in the buffer or in any batch ever sent. */
  lemma {:induction false} NoAlertWaitsTwoIntervals(cfg: Config, start: Time, events: seq<Event>)
    requires TimelyRun(cfg, start, events)
    ensures var s := Run(cfg, start, events);
            && (!s.stopped && s.buffer != [] ==> s.turn + cfg.interval < s.lastFlush + 2 * cfg.interval)
            && (!s.stopped ==>
                  forall x | x in s.buffer ::
                    s.lastFlush <= x.at <= s.turn && Prompt(cfg, x, s.turn + cfg.interval))
            && (forall f, x | f in s.flushes && x in f.items :: Prompt(cfg, x, f.at))
            && s.lastFlush <= s.turn
    decreases |events|
  {
    if events != [] {
      NoAlertWaitsTwoIntervals(cfg, start, events[..|events| - 1]);
    }
  }

  /** With room for three alerts in a batch the bound is tight: for every interval there is a timely run in which an
      alert waits one tick short of two intervals. */
  lemma AnAlertCanWaitAlmostTwoIntervals(cfg: Config, start: Time, a: Alert, b: Alert)
    requires cfg.interval > 0 && cfg.maxSize > 2
    ensures var events := [Received(a, start, true), Received(b, start + cfg.interval - 1, true),
                           SleepElapsed(start + 2 * cfg.interval - 1, true)];
            && TimelyRun(cfg, start, events)
            && Run(cfg, start, events).flushes
               == [Flush([Item(a, start), Item(b, start + cfg.interval - 1)],
                         start + 2 * cfg.interval - 1, Routine, true)]
  {
    var e1, e2 := Received(a, start, true), Received(b, start + cfg.interval - 1, true);
    var e3 := SleepElapsed(start + 2 * cfg.interval - 1, true);
    assert [] + [e1] == [e1] && [e1] + [e2] == [e1, e2] && [e1, e2] + [e3] == [e1, e2, e3];
    var x, y := Item(a, start), Item(b, start + cfg.interval - 1);
    RunSnoc(cfg, start, [], e1);
    RunSnoc(cfg, start, [e1], e2);
    RunSnoc(cfg, start, [e1, e2], e3);
    var s0 := Run(cfg, start, []);
    assert Step(cfg, s0, e1) == State([x], start, start, [], 0, false);
    assert [x] + [y] == [x, y];
    hide Run, TimelyRun;
    assert Step(cfg, Step(cfg, s0, e1), e2) == State([x, y], start, start + cfg.interval - 1, [], 0, false);
  }

  lemma RunSnoc(cfg: Config, start: Time, events: seq<Event>, e: Event)
    ensures Run(cfg, start, events + [e]) == Step(cfg, Run(cfg, start, events), e)
    ensures TimelyRun(cfg, start, events + [e])
            <==> TimelyRun(cfg, start, events) && Timely(cfg, Run(cfg, start, events), e)
  {
    assert (events + [e])[..|events|] == events;
  }

  // Every alert sent was sent within one interval.
  ghost predicate WithinOneInterval(cfg: Config, s: State) {
    forall f, x | f in s.flushes && x in f.items :: f.at <= x.at + cfg.interval
  }

  // With room for two, a buffered alert is alone and its sleep is the one running.
  lemma {:induction false} SmallBatchesArePrompt(cfg: Config, start: Time, events: seq<Event>)
    requires cfg.maxSize <= 2 && TimelyRun(cfg, start, events)
    ensures var s := Run(cfg, start, events);
            && WithinOneInterval(cfg, s) && s.lastFlush <= s.turn
            && (!s.stopped ==> |s.buffer| <= 1 && forall x | x in s.buffer :: x.at == s.turn)
    decreases |events|
  {
    if events != [] {
      var front, e := events[..|events| - 1], events[|events| - 1];
      SmallBatchesArePrompt(cfg, start, front);
      SmallBatchStep(cfg, Run(cfg, start, front), e);
    }
  }

  lemma SmallBatchStep(cfg: Config, s: State, e: Event)
    requires cfg.maxSize <= 2 && WithinOneInterval(cfg, s) && s.lastFlush <= s.turn && Timely(cfg, s, e)
    requires !s.stopped ==> |s.buffer| <= 1 && forall x | x in s.buffer :: x.at == s.turn
    ensures var s' := Step(cfg, s, e);
            && WithinOneInterval(cfg, s') && s'.lastFlush <= s'.turn
            && (!s'.stopped ==> |s'.buffer| <= 1 && forall x | x in s'.buffer :: x.at == s'.turn)
  {
    if e.Shutdown? {
      assert forall x | x in Stamp(e.pending, e.at) :: x.at == e.at;
    }
  }

  /** One interval is a bound on every wait in every timely run if and only if a batch holds at most two alerts, or the
      interval is at most one tick. */
  lemma OneIntervalIsABoundIff(cfg: Config, start: Time)
    ensures (forall events | TimelyRun(cfg, start, events) :: WithinOneInterval(cfg, Run(cfg, start, events)))
            <==> cfg.maxSize <= 2 || cfg.interval <= 1
  {
    hide TimelyRun, Run, Step;
    if cfg.maxSize <= 2 {
      forall events | TimelyRun(cfg, start, events) ensures WithinOneInterval(cfg, Run(cfg, start, events)) {
        SmallBatchesArePrompt(cfg, start, events);
      }
    } else if cfg.interval <= 1 {
      forall events | TimelyRun(cfg, start, events) ensures WithinOneInterval(cfg, Run(cfg, start, events)) {
        NoAlertWaitsTwoIntervals(cfg, start, events);
      }
    } else {
      AnAlertCanWaitAlmostTwoIntervals(cfg, start, "a", "b");
      var late := start + 2 * cfg.interval - 1;
      var events := [Received("a", start, true), Received("b", start + cfg.interval - 1, true),
                     SleepElapsed(late, true)];
      var f := Flush([Item("a", start), Item("b", start + cfg.interval - 1)], late, Routine, true);
      assert Run(cfg, start, events).flushes == [f];
      assert f in [f] && f.items[0] in f.items && f.items[0].at == start;
      assert !WithinOneInterval(cfg, Run(cfg, start, events));
    }
  }
}
