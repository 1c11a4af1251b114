// Enrollment, heartbeat and operator writes as transactions of a shared database, interleaved
// statement by statement at the read-committed level.
module FleetDb {
  import opened Collections

  type NodeId = nat
  type TxId = nat
  type MachineId = string
  type Time = int

  datatype Profile = Profile(hostname: string, osVersion: string, agentVersion: string)
  datatype Node = Node(
    machine: MachineId, profile: Profile, agentStatus: string, operatorStatus: string, lastEnrolled: Time)
  datatype Kind = NewEnrollment | ReEnrollment
  datatype Audit = Audit(node: NodeId, kind: Kind, profile: Profile)
  datatype Health = Health(node: NodeId, status: string, buffered: int)
  datatype Command = Command(node: NodeId, status: string)
  datatype Enrolled = Enrolled(machine: MachineId, node: NodeId)

  /// What an agent may report

  const HEALTHY := "healthy"
  const DEGRADED := "degraded"
  const ACTIVE := "active"

  function Coerce(reported: string): (r: string)
    ensures r == HEALTHY <==> reported == HEALTHY
    ensures r != HEALTHY ==> r == DEGRADED
  {
    if reported == HEALTHY then HEALTHY else DEGRADED
  }

  /// Open transactions: where each stands, with what it wrote and nobody else can see yet

  datatype Tx =
    | Upserting(machine: MachineId, profile: Profile)
    | Looked(machine: MachineId, profile: Profile, found: Option<NodeId>)
    | Written(machine: MachineId, profile: Profile, node: NodeId, kind: Kind, now: Time)
    | Audited(machine: MachineId, profile: Profile, node: NodeId, kind: Kind, now: Time)
    | Beating(beat: Health)
    | Logged(beat: Health)
    | Stamped(beat: Health)

  // nodes, audit and health are committed rows. The last three fields only record what happened.
  datatype Db = Db(
    nodes: map<NodeId, Node>,
    audit: seq<Audit>,
    health: seq<Health>,
    txs: map<TxId, Tx>,
    enrolled: seq<Enrolled>,
    commands: seq<Command>)

  const EMPTY := Db(map[], [], [], map[], [], [])

  // A row of this transaction that is inserted but not committed.
  predicate Inserting(t: Tx) {
    (t.Written? || t.Audited?) && t.kind == NewEnrollment
  }

  predicate SameInsert(s: Tx, t: Tx) {
    Inserting(s) && Inserting(t) && s.machine == t.machine && s.node == t.node
  }

  // The node row a transaction updated and keeps locked until it ends.
  predicate Locks(t: Tx, node: NodeId) {
    || ((t.Written? || t.Audited?) && t.kind == ReEnrollment && t.node == node)
    || (t.Stamped? && t.beat.node == node)
  }

  predicate RowFree(db: Db, x: TxId, node: NodeId) {
    forall y | y in db.txs && y != x :: !Locks(db.txs[y], node)
  }

  // The unique index makes an insert wait for an open insert of the same machine or node id.
  predicate InsertFree(db: Db, x: TxId, machine: MachineId, node: NodeId) {
    forall y | y in db.txs && y != x && Inserting(db.txs[y]) :: db.txs[y].machine != machine && db.txs[y].node != node
  }

  predicate HasMachine(nodes: map<NodeId, Node>, machine: MachineId) {
    exists n | n in nodes :: nodes[n].machine == machine
  }

  ghost function Lookup(nodes: map<NodeId, Node>, machine: MachineId): (r: Option<NodeId>)
    ensures r.None? <==> !HasMachine(nodes, machine)
    ensures r.Some? ==> r.value in nodes && nodes[r.value].machine == machine
  {
    if HasMachine(nodes, machine) then
      var n :| n in nodes && nodes[n].machine == machine;
      Some(n)
    else None
  }

  /// Statements

  datatype Action =
    | BeginUpsert(x: TxId, machine: MachineId, profile: Profile)
    | Select(x: TxId)
    | Write(x: TxId, freshId: NodeId, now: Time)
    | WriteAudit(x: TxId)
    | BeginBeat(x: TxId, node: NodeId, reported: string, buffered: int)
    | InsertHealth(x: TxId)
    | UpdateStatus(x: TxId)
    | Commit(x: TxId)
    | Rollback(x: TxId)
    | Operate(node: NodeId, status: string)

  function Goto(db: Db, x: TxId, t: Tx): Db {
    db.(txs := db.txs[x := t])
  }

  function Close(db: Db, x: TxId): Db {
    db.(txs := db.txs - {x})
  }

  // A statement that has to wait for a lock, or that is not next in its transaction, changes nothing.
  ghost function Step(db: Db, a: Action): Db {
    match a
    case BeginUpsert(x, machine, profile) =>
      if x in db.txs then db else Goto(db, x, Upserting(machine, profile))
    case Select(x) =>
      if x in db.txs && db.txs[x].Upserting? then
        var t := db.txs[x];
        Goto(db, x, Looked(t.machine, t.profile, Lookup(db.nodes, t.machine)))
      else db
    case Write(x, freshId, now) =>
      if x in db.txs && db.txs[x].Looked? then WriteNode(db, x, db.txs[x], freshId, now) else db
    case WriteAudit(x) =>
      if x in db.txs && db.txs[x].Written? then
        var t := db.txs[x];
        Goto(db, x, Audited(t.machine, t.profile, t.node, t.kind, t.now))
      else db
    case BeginBeat(x, node, reported, buffered) =>
      if x in db.txs then db else Goto(db, x, Beating(Health(node, Coerce(reported), buffered)))
    case InsertHealth(x) =>
      if x in db.txs && db.txs[x].Beating? then
        // The foreign key refuses a heartbeat of a node nobody committed.
        if db.txs[x].beat.node in db.nodes then Goto(db, x, Logged(db.txs[x].beat)) else Close(db, x)
      else db
    case UpdateStatus(x) =>
      if x in db.txs && db.txs[x].Logged? && RowFree(db, x, db.txs[x].beat.node)
      then Goto(db, x, Stamped(db.txs[x].beat))
      else db
    case Commit(x) =>
      if x in db.txs then CommitTx(db, x, db.txs[x]) else db
    case Rollback(x) => Close(db, x)
    case Operate(node, status) =>
      if node in db.nodes && (forall y | y in db.txs :: !Locks(db.txs[y], node)) then
        db.(nodes := db.nodes[node := db.nodes[node].(operatorStatus := status)],
            commands := db.commands + [Command(node, status)])
      else db
  }

  function WriteNode(db: Db, x: TxId, t: Tx, freshId: NodeId, now: Time): Db
    requires t.Looked?
  {
    match t.found
    case None =>
      if !InsertFree(db, x, t.machine, freshId) then db
      else if HasMachine(db.nodes, t.machine) || freshId in db.nodes then Close(db, x)
      else Goto(db, x, Written(t.machine, t.profile, freshId, NewEnrollment, now))
    case Some(node) =>
      if !RowFree(db, x, node) then db
      else Goto(db, x, Written(t.machine, t.profile, node, ReEnrollment, now))
  }

  function CommitTx(db: Db, x: TxId, t: Tx): Db {
    match t
    case Audited(machine, profile, node, kind, now) =>
      var row :=
        if kind == ReEnrollment && node in db.nodes
        then db.nodes[node].(profile := profile, lastEnrolled := now)
        else Node(machine, profile, HEALTHY, ACTIVE, now);
      Close(db, x).(nodes := db.nodes[node := row],
                    audit := db.audit + [Audit(node, kind, profile)],
                    enrolled := db.enrolled + [Enrolled(machine, node)])
    case Stamped(beat) =>
      var nodes := if beat.node in db.nodes
                   then db.nodes[beat.node := db.nodes[beat.node].(agentStatus := beat.status)]
                   else db.nodes;
      Close(db, x).(nodes := nodes, health := db.health + [beat])
    case _ => db
  }

  ghost function Run(actions: seq<Action>): Db {
    if actions == [] then EMPTY else Step(Run(actions[..|actions| - 1]), actions[|actions| - 1])
  }

  /// What the logs say about one node

  function LastBeat(log: seq<Health>, node: NodeId): string {
    if log == [] then HEALTHY
    else if log[|log| - 1].node == node then log[|log| - 1].status
    else LastBeat(log[..|log| - 1], node)
  }

  function LastCommand(log: seq<Command>, node: NodeId): string {
    if log == [] then ACTIVE
    else if log[|log| - 1].node == node then log[|log| - 1].status
    else LastCommand(log[..|log| - 1], node)
  }

  function AuditOf(log: seq<Audit>, node: NodeId): seq<Audit> {
    if log == [] then []
    else
      var a := log[|log| - 1];
      if a.node == node then AuditOf(log[..|log| - 1], node) + [a] else AuditOf(log[..|log| - 1], node)
  }

  function Enrollments(log: seq<Enrolled>, node: NodeId): nat {
    if log == [] then 0
    else Enrollments(log[..|log| - 1], node) + if log[|log| - 1].node == node then 1 else 0
  }

  // One enrollment, then re-enrollments only.
  predicate AuditShape(rows: seq<Audit>) {
    && rows != []
    && rows[0].kind == NewEnrollment
    && forall i | 1 <= i < |rows| :: rows[i].kind == ReEnrollment
  }

  /// The invariant

  // Everything committed about a node row agrees with the logs.
  ghost predicate RowOk(db: Db, node: NodeId)
    requires node in db.nodes
  {
    var row, rows := db.nodes[node], AuditOf(db.audit, node);
    && row.operatorStatus == LastCommand(db.commands, node)
    && row.agentStatus == LastBeat(db.health, node)
    && (row.agentStatus == HEALTHY || row.agentStatus == DEGRADED)
    && AuditShape(rows)
    && row.profile == rows[|rows| - 1].profile
    && |rows| == Enrollments(db.enrolled, node)
  }

  // Nothing is logged about a node that has no row.
  ghost predicate UnknownOk(db: Db, node: NodeId) {
    && LastCommand(db.commands, node) == ACTIVE
    && LastBeat(db.health, node) == HEALTHY
    && AuditOf(db.audit, node) == []
    && Enrollments(db.enrolled, node) == 0
  }

  ghost predicate OneRowPerMachine(nodes: map<NodeId, Node>) {
    forall a, b | a in nodes && b in nodes && nodes[a].machine == nodes[b].machine :: a == b
  }

  ghost predicate TxOk(db: Db, t: Tx) {
    match t
    case Upserting(_, _) => true
    case Looked(machine, _, found) =>
      found.Some? ==> found.value in db.nodes && db.nodes[found.value].machine == machine
    case Written(machine, _, node, kind, _) => WriteOk(db, machine, node, kind)
    case Audited(machine, _, node, kind, _) => WriteOk(db, machine, node, kind)
    case Beating(beat) => beat.status == HEALTHY || beat.status == DEGRADED
    case Logged(beat) => (beat.status == HEALTHY || beat.status == DEGRADED) && beat.node in db.nodes
    case Stamped(beat) => (beat.status == HEALTHY || beat.status == DEGRADED) && beat.node in db.nodes
  }

  ghost predicate WriteOk(db: Db, machine: MachineId, node: NodeId, kind: Kind) {
    match kind
    case NewEnrollment => node !in db.nodes && !HasMachine(db.nodes, machine)
    case ReEnrollment => node in db.nodes && db.nodes[node].machine == machine
  }

  ghost predicate TxsOk(db: Db) {
    && (forall x | x in db.txs :: TxOk(db, db.txs[x]))
    && (forall x, y | x in db.txs && y in db.txs && x != y && Inserting(db.txs[x]) && Inserting(db.txs[y]) ::
          db.txs[x].machine != db.txs[y].machine && db.txs[x].node != db.txs[y].node)
    && (forall x, y, n | x in db.txs && y in db.txs && x != y && Locks(db.txs[x], n) :: !Locks(db.txs[y], n))
  }

  ghost predicate EnrolledOk(db: Db) {
    forall e | e in db.enrolled :: e.node in db.nodes && db.nodes[e.node].machine == e.machine
  }

  ghost predicate RowsOk(db: Db) {
    && (forall n | n in db.nodes :: RowOk(db, n))
    && (forall n | n !in db.nodes :: UnknownOk(db, n))
  }

  ghost predicate Inv(db: Db) {
    OneRowPerMachine(db.nodes) && TxsOk(db) && EnrolledOk(db) && RowsOk(db)
  }

  /// Each statement keeps it

  // A statement that only moves one transaction, to a place that is consistent with the others.
  lemma GotoKeeps(db: Db, x: TxId, t: Tx)
    requires Inv(db) && TxOk(db, t)
    requires Inserting(t) ==> InsertFree(db, x, t.machine, t.node) || (x in db.txs && SameInsert(db.txs[x], t))
    requires forall n | Locks(t, n) :: RowFree(db, x, n) || (x in db.txs && Locks(db.txs[x], n))
    ensures Inv(Goto(db, x, t))
  {
    hide RowsOk, OneRowPerMachine, TxOk, Locks, Inserting;
    var db' := Goto(db, x, t);
    SameTables(db, db');
    GotoExcludes(db, x, t);
    forall y | y in db'.txs
      ensures TxOk(db', db'.txs[y])
    {
      assert TxOk(db, db'.txs[y]);
    }
  }

  // Locks and open inserts stay exclusive.
  lemma GotoExcludes(db: Db, x: TxId, t: Tx)
    requires TxsOk(db)
    requires Inserting(t) ==> InsertFree(db, x, t.machine, t.node) || (x in db.txs && SameInsert(db.txs[x], t))
    requires forall n | Locks(t, n) :: RowFree(db, x, n) || (x in db.txs && Locks(db.txs[x], n))
    ensures var txs := Goto(db, x, t).txs;
            && (forall y | y in txs && y != x && Inserting(t) && Inserting(txs[y]) ::
                  t.machine != txs[y].machine && t.node != txs[y].node)
            && (forall y, n | y in txs && y != x && Locks(t, n) :: !Locks(txs[y], n))
  {
    hide TxOk, Locks, Inserting;
  }

  lemma SameTables(db: Db, db': Db)
    requires db' == db.(txs := db'.txs)
    ensures RowsOk(db) ==> RowsOk(db')
    ensures forall t | TxOk(db, t) :: TxOk(db', t)
  {
    assert forall n | n in db'.nodes :: RowOk(db, n) ==> RowOk(db', n);
  }

  lemma CloseKeeps(db: Db, x: TxId)
    requires Inv(db)
    ensures Inv(Close(db, x))
  {
    var db' := Close(db, x);
    SameTables(db, db');
    hide RowsOk, OneRowPerMachine, EnrolledOk, WriteOk;
    assert forall y | y in db'.txs :: TxOk(db, db.txs[y]);
  }

  lemma AuditSnoc(log: seq<Audit>, a: Audit, n: NodeId)
    ensures AuditOf(log + [a], n) == if a.node == n then AuditOf(log, n) + [a] else AuditOf(log, n)
  {
    assert (log + [a])[..|log|] == log;
  }

  lemma EnrolledSnoc(log: seq<Enrolled>, e: Enrolled, n: NodeId)
    ensures Enrollments(log + [e], n) == Enrollments(log, n) + if e.node == n then 1 else 0
  {
    assert (log + [e])[..|log|] == log;
  }

  lemma BeatSnoc(log: seq<Health>, b: Health, n: NodeId)
    ensures LastBeat(log + [b], n) == if b.node == n then b.status else LastBeat(log, n)
  {
    assert (log + [b])[..|log|] == log;
  }

  lemma CommandSnoc(log: seq<Command>, c: Command, n: NodeId)
    ensures LastCommand(log + [c], n) == if c.node == n then c.status else LastCommand(log, n)
  {
    assert (log + [c])[..|log|] == log;
  }

  lemma CommitUpsertRows(db: Db, x: TxId, t: Tx)
    requires Inv(db) && t.Audited? && TxOk(db, t)
    ensures RowsOk(CommitTx(db, x, t))
  {
    hide AuditOf, Enrollments, LastCommand, LastBeat, TxsOk, OneRowPerMachine, EnrolledOk;
    var db' := CommitTx(db, x, t);
    forall n
      ensures if n in db'.nodes then RowOk(db', n) else UnknownOk(db', n)
    {
      AuditSnoc(db.audit, Audit(t.node, t.kind, t.profile), n);
      EnrolledSnoc(db.enrolled, Enrolled(t.machine, t.node), n);
      assert if n in db.nodes then RowOk(db, n) else UnknownOk(db, n);
    }
  }

  lemma CommitUpsertKeeps(db: Db, x: TxId)
    requires Inv(db) && x in db.txs && db.txs[x].Audited?
    ensures Inv(CommitTx(db, x, db.txs[x]))
  {
    hide RowsOk, RowOk, UnknownOk;
    var t, db' := db.txs[x], CommitTx(db, x, db.txs[x]);
    assert TxOk(db, t);
    CommitUpsertRows(db, x, t) by { assert Inv(db); }
    forall y | y in db'.txs
      ensures TxOk(db', db'.txs[y])
    {
      assert TxOk(db, db.txs[y]);
    }
  }

  lemma CommitBeatRows(db: Db, x: TxId, beat: Health)
    requires RowsOk(db) && TxOk(db, Stamped(beat))
    ensures RowsOk(CommitTx(db, x, Stamped(beat)))
  {
    hide AuditOf, Enrollments, LastCommand, LastBeat;
    var db' := CommitTx(db, x, Stamped(beat));
    forall n
      ensures if n in db'.nodes then RowOk(db', n) else UnknownOk(db', n)
    {
      BeatSnoc(db.health, beat, n);
      assert if n in db.nodes then RowOk(db, n) else UnknownOk(db, n);
    }
  }

  lemma CommitBeatKeeps(db: Db, x: TxId)
    requires Inv(db) && x in db.txs && db.txs[x].Stamped?
    ensures Inv(CommitTx(db, x, db.txs[x]))
  {
    InvTx(db, x);
    CommitBeatRows(db, x, db.txs[x].beat);
    NodesKeepMachines(db, CommitTx(db, x, db.txs[x]), x);
    hide RowsOk, TxsOk, OneRowPerMachine, EnrolledOk, CommitTx;
  }

  // Replacing rows without changing a machine id leaves the other transactions as they were.
  lemma NodesKeepMachines(db: Db, db': Db, x: TxId)
    requires Inv(db)
    requires db'.txs == db.txs - {x} || db'.txs == db.txs
    requires db'.nodes.Keys == db.nodes.Keys && forall n | n in db.nodes :: db'.nodes[n].machine == db.nodes[n].machine
    requires db'.enrolled == db.enrolled
    ensures OneRowPerMachine(db'.nodes) && TxsOk(db') && EnrolledOk(db')
  {
    hide RowsOk;
    assert forall m :: HasMachine(db'.nodes, m) <==> HasMachine(db.nodes, m);
    forall y | y in db'.txs
      ensures TxOk(db', db'.txs[y])
    {
      assert TxOk(db, db.txs[y]);
    }
  }

  lemma OperateRows(db: Db, node: NodeId, status: string)
    requires RowsOk(db)
    ensures RowsOk(Step(db, Operate(node, status)))
  {
    hide AuditOf, Enrollments, LastCommand, LastBeat, Locks, CommitTx, WriteNode;
    var db' := Step(db, Operate(node, status));
    if db' != db {
      forall n
        ensures if n in db'.nodes then RowOk(db', n) else UnknownOk(db', n)
      {
        CommandSnoc(db.commands, Command(node, status), n);
        assert if n in db.nodes then RowOk(db, n) else UnknownOk(db, n);
      }
    }
  }

  lemma OperateKeeps(db: Db, node: NodeId, status: string)
    requires Inv(db)
    ensures Inv(Step(db, Operate(node, status)))
  {
    OperateRows(db, node, status);
    NodesKeepMachines(db, Step(db, Operate(node, status)), 0);
    hide RowsOk, TxsOk, OneRowPerMachine, EnrolledOk;
  }

  lemma WriteKeeps(db: Db, x: TxId, freshId: NodeId, now: Time)
    requires Inv(db) && x in db.txs && db.txs[x].Looked?
    ensures Inv(WriteNode(db, x, db.txs[x], freshId, now))
  {
    hide Inv;
    var t := db.txs[x];
    assert TxOk(db, t) by { InvTx(db, x); }
    CloseKeeps(db, x);
    match t.found
    case None =>
      if InsertFree(db, x, t.machine, freshId) && !HasMachine(db.nodes, t.machine) && freshId !in db.nodes {
        GotoKeeps(db, x, Written(t.machine, t.profile, freshId, NewEnrollment, now));
      }
    case Some(node) =>
      if RowFree(db, x, node) {
        GotoKeeps(db, x, Written(t.machine, t.profile, node, ReEnrollment, now));
      }
  }

  lemma InvTx(db: Db, x: TxId)
    requires Inv(db) && x in db.txs
    ensures TxOk(db, db.txs[x])
  {
  }

  lemma StepKeeps(db: Db, a: Action)
    requires Inv(db)
    ensures Inv(Step(db, a))
  {
    hide Inv;
    match a
    case Operate(node, status) =>
      OperateKeeps(db, node, status);
    case BeginUpsert(x, machine, profile) =>
      GotoKeeps(db, x, Upserting(machine, profile));
    case BeginBeat(x, node, reported, buffered) =>
      GotoKeeps(db, x, Beating(Health(node, Coerce(reported), buffered)));
    case _ =>
      CloseKeeps(db, a.x);
      if a.x in db.txs {
        InvTx(db, a.x);
        OpenTxStepKeeps(db, a, db.txs[a.x]);
      }
  }

  // A statement of a transaction that is already open.
  lemma OpenTxStepKeeps(db: Db, a: Action, t: Tx)
    requires Inv(db) && !a.Operate? && a.x in db.txs && db.txs[a.x] == t && TxOk(db, t)
    ensures Inv(Step(db, a))
  {
    hide Inv;
    CloseKeeps(db, a.x);
    match a
    case Select(x) =>
      if t.Upserting? {
        GotoKeeps(db, x, Looked(t.machine, t.profile, Lookup(db.nodes, t.machine)));
      }
    case Write(x, freshId, now) =>
      if t.Looked? {
        WriteKeeps(db, x, freshId, now);
      }
    case WriteAudit(x) =>
      if t.Written? {
        GotoKeeps(db, x, Audited(t.machine, t.profile, t.node, t.kind, t.now));
      }
    case InsertHealth(x) =>
      if t.Beating? && t.beat.node in db.nodes {
        GotoKeeps(db, x, Logged(t.beat));
      }
    case UpdateStatus(x) =>
      if t.Logged? && RowFree(db, x, t.beat.node) {
        GotoKeeps(db, x, Stamped(t.beat));
      }
    case Commit(x) =>
      if t.Audited? {
        CommitUpsertKeeps(db, x);
      } else if t.Stamped? {
        CommitBeatKeeps(db, x);
      }
    case _ =>
  }

  lemma {:induction false} RunKeeps(actions: seq<Action>)
    ensures Inv(Run(actions))
    decreases |actions|
  {
    if actions != [] {
      RunKeeps(actions[..|actions| - 1]);
      StepKeeps(Run(actions[..|actions| - 1]), actions[|actions| - 1]);
    }
  }

  /// Safety over every interleaving

  /** However transactions interleave, a machine never has two committed rows, and every successful
      upsert of one machine returned the same node id. */
  lemma MachinesHaveOneNode(actions: seq<Action>)
    ensures OneRowPerMachine(Run(actions).nodes)
    ensures forall e, f | e in Run(actions).enrolled && f in Run(actions).enrolled && e.machine == f.machine ::
              e.node == f.node
    ensures forall e | e in Run(actions).enrolled ::
              e.node in Run(actions).nodes && Run(actions).nodes[e.node].machine == e.machine
  {
    RunKeeps(actions);
    var db := Run(actions);
    forall e, f | e in db.enrolled && f in db.enrolled && e.machine == f.machine
      ensures e.node == f.node
    {
      assert db.nodes[e.node].machine == db.nodes[f.node].machine;
    }
  }

  /** Operators own operator_status, heartbeats own agent_status (which can never be anything but healthy
      or degraded), and upserts own the profile: each is what its log last said, whatever the others did. */
  lemma StatusesFollowTheirOwners(actions: seq<Action>, node: NodeId)
    requires node in Run(actions).nodes
    ensures var db := Run(actions);
            var row := db.nodes[node];
            && row.operatorStatus == LastCommand(db.commands, node)
            && row.agentStatus == LastBeat(db.health, node)
            && (row.agentStatus == HEALTHY || row.agentStatus == DEGRADED)
            && AuditOf(db.audit, node) != []
            && row.profile == AuditOf(db.audit, node)[|AuditOf(db.audit, node)| - 1].profile
  {
    RunKeeps(actions);
    assert RowOk(Run(actions), node);
  }

  /** The audit trail of a node is one enrollment followed by re-enrollments, one row for each successful
      upsert; a node id without a row has no trail at all. */
  lemma AuditTrail(actions: seq<Action>, node: NodeId)
    ensures var db := Run(actions);
            |AuditOf(db.audit, node)| == Enrollments(db.enrolled, node)
    ensures node in Run(actions).nodes <==> AuditOf(Run(actions).audit, node) != []
    ensures node in Run(actions).nodes ==> AuditShape(AuditOf(Run(actions).audit, node))
  {
    RunKeeps(actions);
    var db := Run(actions);
    assert if node in db.nodes then RowOk(db, node) else UnknownOk(db, node);
  }

  lemma StepKeepsNode(db: Db, a: Action, node: NodeId)
    requires Inv(db) && node in db.nodes
    ensures node in Step(db, a).nodes && Step(db, a).nodes[node].machine == db.nodes[node].machine
  {
    if !a.Operate? && a.x in db.txs {
      InvTx(db, a.x);
    }
  }

  /** Rows are never removed and never change their machine: what an upsert returned stays good for the rest of
      the run. */
  lemma {:induction false} NodesPersist(actions: seq<Action>, more: seq<Action>, node: NodeId)
    requires node in Run(actions).nodes
    ensures node in Run(actions + more).nodes
    ensures Run(actions + more).nodes[node].machine == Run(actions).nodes[node].machine
    decreases |more|
  {
    hide Inv, Step;
    if more == [] {
      assert actions + more == actions;
    } else {
      var front, a := more[..|more| - 1], more[|more| - 1];
      assert (actions + more)[..|actions + more| - 1] == actions + front;
      NodesPersist(actions, front, node);
      RunKeeps(actions + front);
      StepKeepsNode(Run(actions + front), a, node);
    }
  }

  /// Racing enrollments

  lemma RunSnoc(actions: seq<Action>, a: Action)
    ensures Run(actions + [a]) == Step(Run(actions), a)
  {
    assert (actions + [a])[..|actions|] == actions;
  }

  lemma StepGrowsEnrolled(db: Db, a: Action)
    ensures db.enrolled <= Step(db, a).enrolled
  {
    hide HasMachine, Lookup, RowFree, InsertFree, Locks;
  }

  // The record of successful upserts only grows.
  lemma {:induction false} EnrolledGrows(actions: seq<Action>, more: seq<Action>)
    ensures Run(actions).enrolled <= Run(actions + more).enrolled
    decreases |more|
  {
    if more == [] {
      assert actions + more == actions;
    } else {
      var front, a := more[..|more| - 1], more[|more| - 1];
      assert actions + more == actions + front + [a];
      EnrolledGrows(actions, front);
      RunSnoc(actions + front, a);
      StepGrowsEnrolled(Run(actions + front), a);
      hide Run, Step;
    }
  }

  lemma {:induction false} SomeEnrollment(log: seq<Enrolled>, node: NodeId) returns (i: nat)
    requires Enrollments(log, node) > 0
    ensures i < |log| && log[i].node == node
    decreases |log|
  {
    if log[|log| - 1].node == node {
      i := |log| - 1;
    } else {
      i := SomeEnrollment(log[..|log| - 1], node);
    }
  }

  // A machine has a row exactly when an upsert of it has succeeded.
  lemma RowIffEnrolled(db: Db, machine: MachineId)
    requires Inv(db)
    ensures HasMachine(db.nodes, machine) <==> exists i :: 0 <= i < |db.enrolled| && db.enrolled[i].machine == machine
  {
    hide TxsOk, OneRowPerMachine, UnknownOk, LastBeat, LastCommand, AuditOf;
    forall i | 0 <= i < |db.enrolled| && db.enrolled[i].machine == machine
      ensures HasMachine(db.nodes, machine)
    {
      assert db.enrolled[i] in db.enrolled;
    }
    if HasMachine(db.nodes, machine) {
      var n :| n in db.nodes && db.nodes[n].machine == machine;
      assert RowOk(db, n);
      var i := SomeEnrollment(db.enrolled, n);
      assert db.enrolled[i] in db.enrolled;
    }
  }

  // An upsert of the machine succeeded after the first n.
  predicate EnrolledSince(log: seq<Enrolled>, n: nat, machine: MachineId) {
    exists i :: n <= i < |log| && log[i].machine == machine
  }

  /** The transaction does not turn a racing first enrollment into a re-enrollment. An upsert that looked and found
      no row, whatever ran in between, fails at its insert (once nothing blocks it) if and only if an upsert of
      the machine was committed between the look and the insert, or the new id is taken. */
  lemma LateInsertFails(before: seq<Action>, x: TxId, between: seq<Action>, freshId: NodeId, now: Time)
    requires x in Run(before).txs && Run(before).txs[x].Upserting?
    requires forall a | a in between && !a.Operate? && a.x == x :: a.Write?
    requires var db := Run(before + [Select(x)] + between);
             && x in db.txs && db.txs[x] == Looked(Run(before).txs[x].machine, Run(before).txs[x].profile, None)
             && InsertFree(db, x, db.txs[x].machine, freshId)
    ensures var machine := Run(before).txs[x].machine;
            var db := Run(before + [Select(x)] + between);
            x !in Run(before + [Select(x)] + between + [Write(x, freshId, now)]).txs
            <==> EnrolledSince(db.enrolled, |Run(before).enrolled|, machine) || freshId in db.nodes
  {
    var looked := before + [Select(x)];
    var machine, n, db := Run(before).txs[x].machine, |Run(before).enrolled|, Run(looked + between);
    RunSnoc(before, Select(x));
    RunSnoc(looked + between, Write(x, freshId, now));
    EnrolledGrows(looked, between);
    RunKeeps(before);
    RunKeeps(looked + between);
    StaysLooked(looked, between, x);
    hide Inv, Run;
    RowIffEnrolled(Run(before), machine);
    RowIffEnrolled(db, machine);
    assert forall i | 0 <= i < n :: db.enrolled[i] == Run(before).enrolled[i];
  }

  // A transaction that is left alone, but for inserts that had to wait, still holds what it looked up.
  lemma {:induction false} StaysLooked(looked: seq<Action>, between: seq<Action>, x: TxId)
    requires forall a | a in between && !a.Operate? && a.x == x :: a.Write?
    requires x in Run(looked).txs && Run(looked).txs[x].Looked?
    requires x in Run(looked + between).txs && Run(looked + between).txs[x].Looked?
    ensures Run(looked + between).txs[x] == Run(looked).txs[x]
    decreases |between|
  {
    if between == [] {
      assert looked + between == looked;
    } else {
      var front, a := between[..|between| - 1], between[|between| - 1];
      assert looked + between == looked + front + [a];
      RunSnoc(looked + front, a);
      assert a in between;
      assert forall b | b in front :: b in between;
      OthersLeaveTx(Run(looked + front), a, x);
      StaysLooked(looked, front, x);
    }
  }

  // Nobody else moves a transaction, and an insert of its own that leaves it looking had to wait.
  lemma OthersLeaveTx(db: Db, a: Action, x: TxId)
    requires !a.Operate? && a.x == x ==> a.Write?
    requires x in Step(db, a).txs && Step(db, a).txs[x].Looked?
    ensures x in db.txs && db.txs[x] == Step(db, a).txs[x]
  {
    hide HasMachine, Lookup, RowFree, InsertFree;
  }

  /** Whenever two upserts of one machine have both looked and found no row, and the first goes through, the other
      fails at its insert and only the first has enrolled the machine. */
  lemma RacingEnrollmentLoses(db: Db, x: TxId, y: TxId, xId: NodeId, yId: NodeId, now: Time)
    requires x in db.txs && y in db.txs && x != y
    requires db.txs[x].Looked? && db.txs[x].found.None? && db.txs[y].Looked? && db.txs[y].found.None?
    requires db.txs[x].machine == db.txs[y].machine && !HasMachine(db.nodes, db.txs[y].machine)
    requires InsertFree(db, y, db.txs[y].machine, yId) && yId !in db.nodes
    requires InsertFree(Close(db, y), x, db.txs[x].machine, xId)
    ensures var won := Step(Step(Step(db, Write(y, yId, now)), WriteAudit(y)), Commit(y));
            var end := Step(won, Write(x, xId, now));
            && won.enrolled == db.enrolled + [Enrolled(db.txs[y].machine, yId)]
            && x in won.txs && x !in end.txs
            && end == Close(won, x)
  {
    var t := db.txs[y];
    var won := FirstCommits(db, y, yId, now);
    assert won.nodes[yId].machine == t.machine;
    assert won.txs == Close(db, y).txs;
    hide Lookup, CommitTx;
  }

  lemma FirstCommits(db: Db, y: TxId, yId: NodeId, now: Time) returns (won: Db)
    requires y in db.txs && db.txs[y].Looked? && db.txs[y].found.None?
    requires !HasMachine(db.nodes, db.txs[y].machine)
    requires InsertFree(db, y, db.txs[y].machine, yId) && yId !in db.nodes
    ensures won == Step(Step(Step(db, Write(y, yId, now)), WriteAudit(y)), Commit(y))
    ensures var t := db.txs[y];
            && won.nodes == db.nodes[yId := Node(t.machine, t.profile, HEALTHY, ACTIVE, now)]
            && won.txs == db.txs - {y} && won.enrolled == db.enrolled + [Enrolled(t.machine, yId)]
  {
    var t := db.txs[y];
    var d1 := Step(db, Write(y, yId, now));
    assert d1 == Goto(db, y, Written(t.machine, t.profile, yId, NewEnrollment, now));
    var d2 := Step(d1, WriteAudit(y));
    assert d2.txs[y] == Audited(t.machine, t.profile, yId, NewEnrollment, now);
    won := Step(d2, Commit(y));
    assert won.txs == db.txs - {y};
  }

  /// Progress

  // It has written: it may hold a row lock or an open insert, and has nothing left to wait for.
  predicate Holds(t: Tx) {
    t.Written? || t.Audited? || t.Stamped?
  }

  function Stage(t: Tx): nat {
    match t
    case Upserting(_, _) => 0
    case Looked(_, _, _) => 1
    case Written(_, _, _, _, _) => 2
    case Audited(_, _, _, _, _) => 3
    case Beating(_) => 0
    case Logged(_) => 1
    case Stamped(_) => 3
  }

  function NextStatement(x: TxId, t: Tx, freshId: NodeId, now: Time): Action {
    match t
    case Upserting(_, _) => Select(x)
    case Looked(_, _, _) => Write(x, freshId, now)
    case Written(_, _, _, _, _) => WriteAudit(x)
    case Beating(_) => InsertHealth(x)
    case Logged(_) => UpdateStatus(x)
    case _ => Commit(x)
  }

  // The transaction ended or got further, and no other moved.
  predicate Advances(db: Db, db': Db, x: TxId)
    requires x in db.txs
  {
    db'.txs - {x} == db.txs - {x} && (x in db'.txs ==> Stage(db'.txs[x]) > Stage(db.txs[x]))
  }

  predicate Unhindered(db: Db, x: TxId) {
    x in db.txs && (Holds(db.txs[x]) || forall y | y in db.txs && y != x :: !Holds(db.txs[y]))
  }

  lemma UnhinderedAdvances(db: Db, x: TxId, freshId: NodeId, now: Time)
    requires Unhindered(db, x)
    ensures Advances(db, Step(db, NextStatement(x, db.txs[x], freshId, now)), x)
  {
    hide Lookup, HasMachine;
    var t := db.txs[x];
    if !Holds(t) {
      assert forall y, n | y in db.txs && y != x :: !Locks(db.txs[y], n);
    }
  }

  lemma SomeoneUnhindered(db: Db) returns (x: TxId)
    requires db.txs != map[]
    ensures Unhindered(db, x)
  {
    if y :| y in db.txs && Holds(db.txs[y]) {
      x := y;
    } else {
      x :| x in db.txs;
    }
  }

  /** There is no deadlock: whenever transactions are open, one of them is not blocked, whatever node id it would
      insert. */
  lemma SomeoneCanMove(db: Db) returns (x: TxId)
    requires db.txs != map[]
    ensures x in db.txs
    ensures forall freshId, now :: Advances(db, Step(db, NextStatement(x, db.txs[x], freshId, now)), x)
  {
    x := SomeoneUnhindered(db);
    forall freshId, now ensures Advances(db, Step(db, NextStatement(x, db.txs[x], freshId, now)), x) {
      UnhinderedAdvances(db, x, freshId, now);
    }
  }

  // Statements of transactions that are open; nothing is rolled back.
  predicate OnlyGoesOn(actions: seq<Action>) {
    forall a | a in actions :: a.Select? || a.Write? || a.WriteAudit? || a.InsertHealth? || a.UpdateStatus? || a.Commit?
  }

  lemma {:induction false} OneCanFinish(actions: seq<Action>, x: TxId) returns (more: seq<Action>)
    requires Unhindered(Run(actions), x)
    ensures OnlyGoesOn(more) && Run(actions + more).txs == Run(actions).txs - {x}
    decreases 4 - Stage(Run(actions).txs[x])
  {
    var db := Run(actions);
    var a := NextStatement(x, db.txs[x], 0, 0);
    UnhinderedAdvances(db, x, 0, 0);
    RunSnoc(actions, a);
    hide Run, Step;
    var db' := Run(actions + [a]);
    OthersStay(db, db', x);
    hide Unhindered, Advances, Stage;
    if x in db'.txs {
      var rest := OneCanFinish(actions + [a], x);
      more := [a] + rest;
      assert actions + more == actions + [a] + rest;
    } else {
      more := [a];
    }
  }

  lemma OthersStay(db: Db, db': Db, x: TxId)
    requires Unhindered(db, x) && Advances(db, db', x)
    ensures x in db'.txs ==> Unhindered(db', x) && Stage(db.txs[x]) < Stage(db'.txs[x]) <= 3
    ensures x !in db'.txs ==> db'.txs == db.txs - {x}
    ensures db'.txs - {x} == db.txs - {x}
  {
    assert forall y | y in db'.txs && y != x :: y in db'.txs - {x} && db'.txs[y] == (db'.txs - {x})[y];
    if x in db'.txs {
      StillUnhindered(db, db', x);
    } else {
      assert db'.txs == db'.txs - {x};
    }
  }

  lemma StillUnhindered(db: Db, db': Db, x: TxId)
    requires Unhindered(db, x) && Advances(db, db', x) && x in db'.txs
    requires forall y | y in db'.txs && y != x :: y in db.txs && db'.txs[y] == db.txs[y]
    ensures Unhindered(db', x)
  {
  }

  /** From every reachable state all open transactions can be brought to an end by their own statements, without
      rolling one back from outside. */
  lemma {:induction false} AllCanFinish(actions: seq<Action>) returns (more: seq<Action>)
    ensures OnlyGoesOn(more) && Run(actions + more).txs == map[]
    decreases |Run(actions).txs|
  {
    hide Run, Unhindered;
    var db := Run(actions);
    if db.txs == map[] {
      more := [];
      assert actions + more == actions;
    } else {
      var x := SomeoneUnhindered(db);
      var first := OneCanFinish(actions, x);
      FewerOpen(db.txs, x);
      var rest := AllCanFinish(actions + first);
      more := first + rest;
      assert actions + more == actions + first + rest;
    }
  }

  lemma FewerOpen(txs: map<TxId, Tx>, x: TxId)
    requires x in txs
    ensures |txs - {x}| < |txs|
  {
    assert (txs - {x}).Keys == txs.Keys - {x};
    assert |txs.Keys - {x}| == |txs.Keys| - 1;
  }

  /// What agents report

  // The action that began a heartbeat recorded so: the literal healthy stays, everything else is degraded.
  predicate ReportedBy(a: Action, beat: Health) {
    && a.BeginBeat? && a.node == beat.node && a.buffered == beat.buffered
    && (beat.status == HEALTHY <==> a.reported == HEALTHY)
    && (beat.status == HEALTHY || beat.status == DEGRADED)
  }

  predicate Reported(actions: seq<Action>, beat: Health) {
    exists i :: 0 <= i < |actions| && ReportedBy(actions[i], beat)
  }

  predicate BeatOf(t: Tx, beat: Health) {
    (t.Beating? || t.Logged? || t.Stamped?) && t.beat == beat
  }

  lemma ReportedSnoc(actions: seq<Action>, a: Action, beat: Health)
    requires Reported(actions, beat) || ReportedBy(a, beat)
    ensures Reported(actions + [a], beat)
  {
    if Reported(actions, beat) {
      var i :| 0 <= i < |actions| && ReportedBy(actions[i], beat);
      assert (actions + [a])[i] == actions[i];
    } else {
      assert (actions + [a])[|actions|] == a;
    }
  }

  // Where the heartbeats of a state come from, one step back.
  lemma BeatsComeFrom(db: Db, a: Action, beat: Health)
    requires (exists x :: x in Step(db, a).txs && BeatOf(Step(db, a).txs[x], beat)) || beat in Step(db, a).health
    ensures (exists x :: x in db.txs && BeatOf(db.txs[x], beat)) || beat in db.health || ReportedBy(a, beat)
  {
    hide Lookup, RowFree, InsertFree, HasMachine;
    var db' := Step(db, a);
    if beat in db'.health {
      if beat !in db.health {
        assert a.Commit? && a.x in db.txs && BeatOf(db.txs[a.x], beat);
      }
    } else {
      var x :| x in db'.txs && BeatOf(db'.txs[x], beat);
      if !a.BeginBeat? {
        assert x in db.txs && BeatOf(db.txs[x], beat);
      }
    }
  }

  /** However heartbeats interleave, every health row and every heartbeat under way repeats what some agent reported
      for that node, except that any status but the literal healthy is recorded as degraded: no agent can
      put any other word, such as isolated, into agent_status. */
  lemma {:induction false} HeartbeatsAreReported(actions: seq<Action>, beat: Health)
    requires beat in Run(actions).health || exists x :: x in Run(actions).txs && BeatOf(Run(actions).txs[x], beat)
    ensures Reported(actions, beat)
    decreases |actions|
  {
    if actions != [] {
      var front, a := actions[..|actions| - 1], actions[|actions| - 1];
      BeatsComeFrom(Run(front), a, beat);
      hide Step;
      if !ReportedBy(a, beat) {
        HeartbeatsAreReported(front, beat);
      }
      ReportedSnoc(front, a, beat);
      assert actions == front + [a];
    }
  }
}
