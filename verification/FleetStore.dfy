// The node and health stores as single calls: what each does when it runs alone, and that this is what
// its statements do in the interleaved database.
module FleetStore {
  import opened Collections
  import opened FleetDb

  ghost function RunFrom(db: Db, actions: seq<Action>): Db
    decreases |actions|
  {
    if actions == [] then db else RunFrom(Step(db, actions[0]), actions[1..])
  }

  // The statements of one call, in order.
  function UpsertStatements(x: TxId, machine: MachineId, profile: Profile, freshId: NodeId, now: Time): seq<Action> {
    [BeginUpsert(x, machine, profile), Select(x), Write(x, freshId, now), WriteAudit(x), Commit(x)]
  }

  function HeartbeatStatements(x: TxId, node: NodeId, reported: string, buffered: int): seq<Action> {
    [BeginBeat(x, node, reported, buffered), InsertHealth(x), UpdateStatus(x), Commit(x)]
  }

  class PgStore {
    var nodes: map<NodeId, Node>
    var audit: seq<Audit>
    var health: seq<Health>
    ghost var enrolled: seq<Enrolled>
    ghost var commands: seq<Command>

    ghost function View(): Db
      reads this
    {
      Db(nodes, audit, health, map[], enrolled, commands)
    }

    ghost predicate Valid()
      reads this
    {
      Inv(View())
    }

    constructor ()
      ensures Valid() && View() == EMPTY
    {
      nodes, audit, health, enrolled, commands := map[], [], [], [], [];
    }

    /** Returns the node of the machine, new or old. Only a taken node id makes it fail, and then nothing
        is written. */
    method UpsertNode(machine: MachineId, profile: Profile, freshId: NodeId, now: Time) returns (r: Option<NodeId>)
      requires Valid()
      modifies this
      ensures Valid() && View() == RunFrom(old(View()), UpsertStatements(0, machine, profile, freshId, now))
      ensures r.None? <==> !HasMachine(old(nodes), machine) && freshId in old(nodes)
      ensures r.None? ==> View() == old(View())
      ensures r.Some? ==> r.value in nodes && nodes[r.value].machine == machine && nodes[r.value].profile == profile
      ensures r.Some? ==> r.value == freshId || r.value in old(nodes)
      ensures forall n | n in old(nodes) && Some(n) != r :: n in nodes && nodes[n] == old(nodes)[n]
      ensures r.Some? ==> |audit| == |old(audit)| + 1 && audit[|audit| - 1].node == r.value
    {
      hide Inv, RunFrom;
      ghost var before := View();
      RunFromKeeps(before, UpsertStatements(0, machine, profile, freshId, now));
      SoloUpsert(before, machine, profile, freshId, now);
      var kind;
      var node;
      if existing :| existing in nodes && nodes[existing].machine == machine {
        nodes := nodes[existing := nodes[existing].(profile := profile, lastEnrolled := now)];
        node, kind := existing, ReEnrollment;
        LookupIsUnique(before, existing);
      } else {
        if freshId in nodes {
          return None;
        }
        nodes := nodes[freshId := Node(machine, profile, HEALTHY, ACTIVE, now)];
        node, kind := freshId, NewEnrollment;
      }
      audit := audit + [Audit(node, kind, profile)];
      enrolled := enrolled + [Enrolled(machine, node)];
      return Some(node);
    }

    /** Appends a health row and sets agent_status, or does nothing for an unknown node. The operator's
        column is not touched. */
    method RecordHeartbeat(node: NodeId, reported: string, buffered: int) returns (ok: bool)
      requires Valid()
      modifies this
      ensures Valid() && View() == RunFrom(old(View()), HeartbeatStatements(0, node, reported, buffered))
      ensures ok <==> node in old(nodes)
      ensures !ok ==> View() == old(View())
      ensures ok ==> node in nodes && nodes[node] == old(nodes)[node].(agentStatus := Coerce(reported))
      ensures forall n | n in old(nodes) && n != node :: n in nodes && nodes[n] == old(nodes)[n]
    {
      hide Inv, RunFrom;
      ghost var before := View();
      SoloHeartbeat(before, node, reported, buffered);
      RunFromKeeps(before, HeartbeatStatements(0, node, reported, buffered));
      // The health insert is refused by its foreign key.
      if node !in nodes {
        return false;
      }
      var status := Coerce(reported);
      health := health + [Health(node, status, buffered)];
      nodes := nodes[node := nodes[node].(agentStatus := status)];
      return true;
    }

    method UpdateOperatorStatus(node: NodeId, status: string) returns (found: bool)
      requires Valid()
      modifies this
      ensures Valid() && View() == Step(old(View()), Operate(node, status))
      ensures found <==> node in old(nodes)
      ensures !found ==> View() == old(View())
      ensures found ==> node in nodes && nodes[node] == old(nodes)[node].(operatorStatus := status)
    {
      hide Inv;
      StepKeeps(View(), Operate(node, status));
      if node !in nodes {
        return false;
      }
      nodes := nodes[node := nodes[node].(operatorStatus := status)];
      commands := commands + [Command(node, status)];
      return true;
    }
  }

  lemma {:induction false} RunFromKeeps(db: Db, actions: seq<Action>)
    requires Inv(db)
    ensures Inv(RunFrom(db, actions))
    decreases |actions|
  {
    if actions != [] {
      StepKeeps(db, actions[0]);
      RunFromKeeps(Step(db, actions[0]), actions[1..]);
    }
  }

  // A database with one open transaction.
  function Alone(db: Db, t: Tx): Db {
    db.(txs := map[0 := t])
  }

  lemma AloneUpserting(db: Db, machine: MachineId, profile: Profile)
    requires db.txs == map[]
    ensures Step(db, BeginUpsert(0, machine, profile)) == Alone(db, Upserting(machine, profile))
    ensures Step(Alone(db, Upserting(machine, profile)), Select(0))
         == Alone(db, Looked(machine, profile, Lookup(db.nodes, machine)))
  {
  }

  lemma AloneWriting(db: Db, machine: MachineId, profile: Profile, freshId: NodeId, now: Time, found: Option<NodeId>)
    requires db.txs == map[] && found == Lookup(db.nodes, machine)
    ensures Step(Alone(db, Looked(machine, profile, found)), Write(0, freshId, now)) ==
            if found.Some? then Alone(db, Written(machine, profile, found.value, ReEnrollment, now))
            else if freshId in db.nodes then db
            else Alone(db, Written(machine, profile, freshId, NewEnrollment, now))
  {
  }

  lemma AloneClosing(db: Db, machine: MachineId, profile: Profile, node: NodeId, kind: Kind, now: Time)
    requires db.txs == map[]
    ensures Step(Alone(db, Written(machine, profile, node, kind, now)), WriteAudit(0))
         == Alone(db, Audited(machine, profile, node, kind, now))
    ensures Step(Alone(db, Audited(machine, profile, node, kind, now)), Commit(0))
         == CommitTx(db, 0, Audited(machine, profile, node, kind, now))
  {
    var t := Audited(machine, profile, node, kind, now);
    assert CommitTx(Alone(db, t), 0, t) == CommitTx(db, 0, t);
  }

  lemma NotOpen(db: Db)
    requires db.txs == map[]
    ensures Step(db, WriteAudit(0)) == db && Step(db, Commit(0)) == db
    ensures Step(db, UpdateStatus(0)) == db
  {
  }

  // A call whose transaction runs alone, statement by statement.
  lemma SoloUpsert(db: Db, machine: MachineId, profile: Profile, freshId: NodeId, now: Time)
    requires db.txs == map[]
    ensures var found := Lookup(db.nodes, machine);
            RunFrom(db, UpsertStatements(0, machine, profile, freshId, now)) ==
            if found.Some? then CommitTx(db, 0, Audited(machine, profile, found.value, ReEnrollment, now))
            else if freshId in db.nodes then db
            else CommitTx(db, 0, Audited(machine, profile, freshId, NewEnrollment, now))
  {
    hide Step, CommitTx, RunFrom, Alone;
    var ss := UpsertStatements(0, machine, profile, freshId, now);
    var found := Lookup(db.nodes, machine);
    AloneUpserting(db, machine, profile);
    AloneWriting(db, machine, profile, freshId, now, found);
    var d1, d2 := Alone(db, Upserting(machine, profile)), Alone(db, Looked(machine, profile, found));
    if found.None? && freshId in db.nodes {
      NotOpen(db);
      RunFromPrefixes(db, ss, [db, d1, d2, db, db, db]);
    } else {
      var node, kind := freshId, NewEnrollment;
      if found.Some? {
        node, kind := found.value, ReEnrollment;
      }
      AloneClosing(db, machine, profile, node, kind, now);
      var t := Audited(machine, profile, node, kind, now);
      var d3 := Alone(db, Written(machine, profile, node, kind, now));
      RunFromPrefixes(db, ss, [db, d1, d2, d3, Alone(db, t), CommitTx(db, 0, t)]);
    }
  }

  lemma AloneBeating(db: Db, beat: Health)
    requires db.txs == map[]
    ensures Step(Alone(db, Beating(beat)), InsertHealth(0))
         == if beat.node in db.nodes then Alone(db, Logged(beat)) else db
    ensures Step(Alone(db, Logged(beat)), UpdateStatus(0)) == Alone(db, Stamped(beat))
  {
  }

  lemma AloneStamped(db: Db, beat: Health)
    requires db.txs == map[]
    ensures Step(Alone(db, Stamped(beat)), Commit(0)) == CommitTx(db, 0, Stamped(beat))
  {
    assert CommitTx(Alone(db, Stamped(beat)), 0, Stamped(beat)) == CommitTx(db, 0, Stamped(beat));
  }

  lemma AloneBegins(db: Db, node: NodeId, reported: string, buffered: int)
    requires db.txs == map[]
    ensures Step(db, BeginBeat(0, node, reported, buffered))
         == Alone(db, Beating(Health(node, Coerce(reported), buffered)))
  {
  }

  lemma SoloHeartbeat(db: Db, node: NodeId, reported: string, buffered: int)
    requires db.txs == map[]
    ensures RunFrom(db, HeartbeatStatements(0, node, reported, buffered)) ==
            if node in db.nodes then CommitTx(db, 0, Stamped(Health(node, Coerce(reported), buffered))) else db
  {
    hide Step, CommitTx, RunFrom, Alone, Coerce;
    var ss := HeartbeatStatements(0, node, reported, buffered);
    var beat := Health(node, Coerce(reported), buffered);
    AloneBegins(db, node, reported, buffered);
    AloneBeating(db, beat);
    AloneStamped(db, beat);
    NotOpen(db);
    if node in db.nodes {
      RunFromPrefixes(db, ss, [db, Alone(db, Beating(beat)), Alone(db, Logged(beat)), Alone(db, Stamped(beat)),
                               CommitTx(db, 0, Stamped(beat))]);
    } else {
      RunFromPrefixes(db, ss, [db, Alone(db, Beating(beat)), db, db, db]);
    }
  }

  lemma LookupIsUnique(db: Db, node: NodeId)
    requires Inv(db) && node in db.nodes
    ensures Lookup(db.nodes, db.nodes[node].machine) == Some(node)
  {
  }

  lemma {:induction false} RunFromPrefixes(db: Db, actions: seq<Action>, states: seq<Db>)
    requires |states| == |actions| + 1 && states[0] == db
    requires forall i | 0 <= i < |actions| :: states[i + 1] == Step(states[i], actions[i])
    ensures RunFrom(db, actions) == states[|actions|]
    decreases |actions|
  {
    if actions != [] {
      RunFromPrefixes(states[1], actions[1..], states[1..]);
    }
  }
}
