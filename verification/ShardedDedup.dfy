// Sixteen shards chosen by a hash of the node, and the scanner loop that feeds them.
module ShardedDedup {
  import opened Collections
  import opened Dedup

  const SHARD_COUNT: nat := 16

  // The hash is whatever the platform's hasher computes.
  type Hasher = NodeId -> nat

  function ShardIndex(hash: Hasher, sig: Signature): (k: nat)
    ensures k < SHARD_COUNT
  {
    hash(sig.node) % SHARD_COUNT
  }

  // The checks of a history that reach shard k.
  function Project(t: Trace, hash: Hasher, k: nat): Trace {
    if t == [] then []
    else
      var c := t[|t| - 1];
      Project(t[..|t| - 1], hash, k) + if ShardIndex(hash, c.sig) == k then [c] else []
  }

  lemma ProjectSnoc(t: Trace, hash: Hasher, k: nat, c: Check)
    ensures Project(t + [c], hash, k)
         == if ShardIndex(hash, c.sig) == k then Project(t, hash, k) + [c] else Project(t, hash, k)
  {
    assert (t + [c])[..|t|] == t;
  }

  // What the whole deduplicator answers to a check after a history.
  predicate Answer(t: Trace, hash: Hasher, cap: nat, window: nat, c: Check) {
    Admits(Project(t, hash, ShardIndex(hash, c.sig)), cap, window, c)
  }

  class ShardedDeduplicator {
    const perShard: nat
    const window: nat
    const hash: Hasher
    var shards: seq<Shard>
    ghost var history: Trace

    ghost predicate Valid()
      reads this
    {
      && perShard > 0
      && |shards| == SHARD_COUNT
      && forall k | 0 <= k < SHARD_COUNT :: shards[k] == Run(Project(history, hash, k), perShard, window)
    }

    constructor Init(perShard: nat, window: nat, hash: Hasher)
      requires perShard > 0
      ensures Valid() && history == []
      ensures this.perShard == perShard && this.window == window && this.hash == hash
    {
      this.perShard := perShard;
      this.window := window;
      this.hash := hash;
      shards := seq(SHARD_COUNT, _ => []);
      history := [];
    }

    /** Fails exactly when the capacity does not reach one entry a shard. */
    static method New(totalCapacity: nat, window: nat, hash: Hasher) returns (r: Option<ShardedDeduplicator>)
      ensures r.None? <==> totalCapacity < SHARD_COUNT
      ensures r.Some? ==> fresh(r.value) && r.value.Valid() && r.value.history == []
      ensures r.Some? ==> r.value.perShard == totalCapacity / SHARD_COUNT
      ensures r.Some? ==> r.value.window == window && r.value.hash == hash
    {
      var perShard := totalCapacity / SHARD_COUNT;
      if perShard == 0 {
        return None;
      }
      var d := new ShardedDeduplicator.Init(perShard, window, hash);
      return Some(d);
    }

    /** Answers as the history of the signature's shard prescribes, and touches no other shard. */
    method CheckAndRecord(sig: Signature, now: Time) returns (admitted: bool)
      requires Valid()
      modifies this
      ensures Valid() && history == old(history) + [Check(sig, now)]
      ensures admitted == Answer(old(history), hash, perShard, window, Check(sig, now))
      ensures forall k | 0 <= k < SHARD_COUNT && k != ShardIndex(hash, sig) :: shards[k] == old(shards[k])
    {
      hide Run, Project, Answer, Admits, Find, ShardIndex;
      var idx := ShardIndex(hash, sig);
      var lock := shards[idx];
      ghost var c := Check(sig, now);
      var i := Find(lock, sig);
      if i < |lock| {
        // A lookup hit moves the entry to the front.
        var e := lock[i];
        var rest := lock[..i] + lock[i + 1..];
        if Elapsed(now, e.lastSeen) < window {
          lock := [Entry(sig, e.lastSeen, e.count + 1)] + rest;
          admitted := false;
        } else {
          lock := [Entry(sig, now, 1)] + rest;
          admitted := true;
        }
      } else {
        // An insert into a full shard drops the least recently used entry.
        if |lock| >= perShard {
          lock := lock[..perShard - 1];
        }
        lock := [Entry(sig, now, 1)] + lock;
        admitted := true;
      }
      assert (lock, admitted) == Step(shards[idx], perShard, window, c);
      ShardsFollow(history, hash, perShard, window, shards, c);
      shards := shards[idx := lock];
      history := history + [c];
    }
  }

  lemma ShardsFollow(t: Trace, hash: Hasher, cap: nat, window: nat, shards: seq<Shard>, c: Check)
    requires cap > 0 && |shards| == SHARD_COUNT
    requires forall k | 0 <= k < SHARD_COUNT :: shards[k] == Run(Project(t, hash, k), cap, window)
    ensures var idx := ShardIndex(hash, c.sig);
            var (lock, admitted) := Step(shards[idx], cap, window, c);
            && admitted == Answer(t, hash, cap, window, c)
            && forall k | 0 <= k < SHARD_COUNT ::
                 shards[idx := lock][k] == Run(Project(t + [c], hash, k), cap, window)
  {
    hide Step, Admits, Run, Project;
    var idx := ShardIndex(hash, c.sig);
    ShardAnswers(Project(t, hash, idx), cap, window, c);
    RunSnoc(Project(t, hash, idx), cap, window, c);
    forall k | 0 <= k < SHARD_COUNT
      ensures shards[idx := Step(shards[idx], cap, window, c).0][k] == Run(Project(t + [c], hash, k), cap, window)
    {
      ProjectSnoc(t, hash, k, c);
    }
  }

  lemma RunSnoc(t: Trace, cap: nat, window: nat, c: Check)
    requires cap > 0
    ensures Run(t + [c], cap, window) == Step(Run(t, cap, window), cap, window, c).0
  {
    assert (t + [c])[..|t|] == t;
  }

  /// Capacity

  function TotalEntries(shards: seq<Shard>): nat {
    if shards == [] then 0 else |shards[0]| + TotalEntries(shards[1..])
  }

  lemma {:induction false} TotalIsBounded(shards: seq<Shard>, cap: nat)
    requires forall s | s in shards :: |s| <= cap
    ensures TotalEntries(shards) <= |shards| * cap
  {
    if shards != [] {
      assert shards[0] in shards;
      TotalIsBounded(shards[1..], cap);
      OneMore(|shards|, cap);
    }
  }

  lemma OneMore(n: int, cap: int)
    ensures n * cap == cap + (n - 1) * cap
  {
  }

  /** After any history the shards together never hold more than the configured capacity. */
  lemma CapacityIsRespected(t: Trace, hash: Hasher, totalCapacity: nat, window: nat)
    requires totalCapacity >= SHARD_COUNT
    ensures var cap := totalCapacity / SHARD_COUNT;
            TotalEntries(seq(SHARD_COUNT, k requires 0 <= k => Run(Project(t, hash, k), cap, window))) <= totalCapacity
  {
    var cap := totalCapacity / SHARD_COUNT;
    var shards := seq(SHARD_COUNT, k requires 0 <= k => Run(Project(t, hash, k), cap, window));
    forall s | s in shards
      ensures |s| <= cap
    {
      var k :| 0 <= k < SHARD_COUNT && shards[k] == s;
      ShardContents(Project(t, hash, k), cap, window);
      assert |Keys(s)| <= cap;
    }
    TotalIsBounded(shards, cap);
  }

  /// Shards do not disturb each other

  /** Two checks on different shards commute: same answers, same shards. */
  lemma ChecksOnDifferentShardsCommute(t: Trace, hash: Hasher, cap: nat, window: nat, c: Check, d: Check)
    requires cap > 0 && ShardIndex(hash, c.sig) != ShardIndex(hash, d.sig)
    ensures Answer(t, hash, cap, window, c) == Answer(t + [d], hash, cap, window, c)
    ensures Answer(t + [c], hash, cap, window, d) == Answer(t, hash, cap, window, d)
    ensures forall k | 0 <= k < SHARD_COUNT ::
              Run(Project(t + [c] + [d], hash, k), cap, window) == Run(Project(t + [d] + [c], hash, k), cap, window)
  {
    hide Admits, Project, Run;
    forall k | 0 <= k < SHARD_COUNT
      ensures Project(t + [c] + [d], hash, k) == Project(t + [d] + [c], hash, k)
    {
      ProjectSnoc(t, hash, k, c);
      ProjectSnoc(t + [c], hash, k, d);
      ProjectSnoc(t, hash, k, d);
      ProjectSnoc(t + [d], hash, k, c);
    }
    ProjectSnoc(t, hash, ShardIndex(hash, c.sig), d);
    ProjectSnoc(t, hash, ShardIndex(hash, d.sig), c);
  }

  /// Against one unbounded map

  // One map over the whole history holds, for each signature, what a map over its shard's checks holds.
  lemma {:induction false} MapRunProjects(t: Trace, hash: Hasher, window: nat, sig: Signature)
    ensures var p := Project(t, hash, ShardIndex(hash, sig));
            && (sig in MapRun(t, window) <==> sig in MapRun(p, window))
            && (sig in MapRun(t, window) ==> MapRun(t, window)[sig] == MapRun(p, window)[sig])
    decreases |t|
  {
    if t != [] {
      var front, c := t[..|t| - 1], t[|t| - 1];
      var p := Project(front, hash, ShardIndex(hash, sig));
      MapRunProjects(front, hash, window, sig);
      if ShardIndex(hash, c.sig) == ShardIndex(hash, sig) {
        assert Project(t, hash, ShardIndex(hash, sig)) == p + [c];
        assert (p + [c])[..|p|] == p;
      } else {
        assert Project(t, hash, ShardIndex(hash, sig)) == p;
      }
    }
  }

  /** If no shard ever sees more than cap distinct signatures, the sharded cache answers every check like
      one unbounded last-admission map over the whole history. */
  lemma RoomyShardsAreOneUnboundedMap(t: Trace, hash: Hasher, cap: nat, window: nat, c: Check)
    requires forall k | 0 <= k < SHARD_COUNT :: |Sigs(Project(t + [c], hash, k))| <= cap
    ensures Answer(t, hash, cap, window, c) == MapAdmits(MapRun(t, window), window, c)
  {
    var k := ShardIndex(hash, c.sig);
    ProjectSnoc(t, hash, k, c);
    RoomyCacheIsUnbounded(Project(t, hash, k), cap, window, c);
    MapRunProjects(t, hash, window, c.sig);
  }

  /// The scanner loop

  datatype Alert = Alert(sig: Signature, at: Time, text: string)

  // What evaluating one event gives: alerts, or a failed scan.
  datatype Scan = Alerts(alerts: seq<Alert>) | ScanFailed

  function CheckOf(a: Alert): Check {
    Check(a.sig, a.at)
  }

  function ChecksOf(alerts: seq<Alert>): (t: Trace)
    ensures |t| == |alerts|
  {
    seq(|alerts|, i requires 0 <= i < |alerts| => CheckOf(alerts[i]))
  }

  function AllAlerts(scans: seq<Scan>): seq<Alert> {
    if scans == [] then []
    else AllAlerts(scans[..|scans| - 1]) + match scans[|scans| - 1] case Alerts(a) => a case ScanFailed => []
  }

  // The alerts that pass, judged by the history before each.
  function Passed(t: Trace, hash: Hasher, cap: nat, window: nat, alerts: seq<Alert>): seq<Alert> {
    if alerts == [] then []
    else
      var front, a := alerts[..|alerts| - 1], alerts[|alerts| - 1];
      Passed(t, hash, cap, window, front)
      + if Answer(t + ChecksOf(front), hash, cap, window, CheckOf(a)) then [a] else []
  }

  lemma PassedSnoc(t: Trace, hash: Hasher, cap: nat, window: nat, alerts: seq<Alert>, a: Alert)
    ensures ChecksOf(alerts + [a]) == ChecksOf(alerts) + [CheckOf(a)]
    ensures Passed(t, hash, cap, window, alerts + [a])
         == Passed(t, hash, cap, window, alerts)
            + if Answer(t + ChecksOf(alerts), hash, cap, window, CheckOf(a)) then [a] else []
  {
    hide Answer;
    assert (alerts + [a])[..|alerts|] == alerts;
  }

  lemma {:induction false} PassedConcat(t: Trace, hash: Hasher, cap: nat, window: nat, a: seq<Alert>, b: seq<Alert>)
    ensures ChecksOf(a + b) == ChecksOf(a) + ChecksOf(b)
    ensures Passed(t, hash, cap, window, a + b)
         == Passed(t, hash, cap, window, a) + Passed(t + ChecksOf(a), hash, cap, window, b)
    decreases |b|
  {
    hide Answer;
    if b == [] {
      assert a + b == a;
    } else {
      var front, last := b[..|b| - 1], b[|b| - 1];
      PassedConcat(t, hash, cap, window, a, front);
      assert (a + b)[..|a + b| - 1] == a + front;
      assert t + ChecksOf(a + front) == t + ChecksOf(a) + ChecksOf(front);
    }
  }

  // The alerts of one event.
  method ForwardAlerts(d: ShardedDeduplicator, alerts: seq<Alert>) returns (sent: seq<Alert>, suppressed: nat)
    requires d.Valid()
    modifies d
    ensures d.Valid() && d.history == old(d.history) + ChecksOf(alerts)
    ensures sent == Passed(old(d.history), d.hash, d.perShard, d.window, alerts)
    ensures suppressed == |alerts| - |sent|
  {
    hide Answer, Passed;
    sent, suppressed := [], 0;
    PassedNone(d.history, d.hash, d.perShard, d.window);
    for i := 0 to |alerts|
      invariant d.Valid() && d.history == old(d.history) + ChecksOf(alerts[..i])
      invariant sent == Passed(old(d.history), d.hash, d.perShard, d.window, alerts[..i])
      invariant suppressed == i - |sent|
    {
      var alert := alerts[i];
      PassedSnoc(old(d.history), d.hash, d.perShard, d.window, alerts[..i], alert);
      assert alerts[..i + 1] == alerts[..i] + [alert];
      var pass := d.CheckAndRecord(alert.sig, alert.at);
      if pass {
        sent := sent + [alert];
      } else {
        suppressed := suppressed + 1;
      }
    }
    assert alerts[..|alerts|] == alerts;
  }

  lemma PassedNone(t: Trace, hash: Hasher, cap: nat, window: nat)
    ensures Passed(t, hash, cap, window, []) == []
  {
  }

  /** Forwards exactly the admitted alerts in order; every generated alert is forwarded or counted as suppressed. */
  method ScannerLoop(d: ShardedDeduplicator, scans: seq<Scan>)
    returns (sent: seq<Alert>, scanned: nat, generated: nat, suppressed: nat)
    requires d.Valid()
    modifies d
    ensures d.Valid() && d.history == old(d.history) + ChecksOf(AllAlerts(scans))
    ensures sent == Passed(old(d.history), d.hash, d.perShard, d.window, AllAlerts(scans))
    ensures scanned == |scans| && generated == |AllAlerts(scans)| && suppressed == generated - |sent|
  {
    hide Answer, Passed;
    sent, scanned, generated, suppressed := [], 0, 0, 0;
    PassedNone(d.history, d.hash, d.perShard, d.window);
    assert d.history + ChecksOf([]) == d.history;
    while scanned < |scans|
      invariant scanned <= |scans| && d.Valid()
      invariant d.history == old(d.history) + ChecksOf(AllAlerts(scans[..scanned]))
      invariant sent == Passed(old(d.history), d.hash, d.perShard, d.window, AllAlerts(scans[..scanned]))
      invariant generated == |AllAlerts(scans[..scanned])| && suppressed == generated - |sent|
    {
      var scan := scans[scanned];
      ghost var before := AllAlerts(scans[..scanned]);
      assert scans[..scanned + 1][..scanned] == scans[..scanned];
      if scan.Alerts? {
        PassedConcat(old(d.history), d.hash, d.perShard, d.window, before, scan.alerts);
        var forwarded, dropped := ForwardAlerts(d, scan.alerts);
        sent := sent + forwarded;
        generated := generated + |scan.alerts|;
        suppressed := suppressed + dropped;
      } else {
        assert before + [] == before;
      }
      scanned := scanned + 1;
    }
    assert scans[..scanned] == scans;
  }
}
