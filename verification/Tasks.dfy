/**
The rows of the controller's task table, the moves a row may make, and the
dependency rule that decides whether a pending row may be handed to its agent.
 */
module Tasks {

  import opened Wrappers

  datatype Status = Pending | Running | Succeeded | Failed | Cancelled {
    predicate Terminal() {
      Succeeded? || Failed? || Cancelled?
    }
  }

  datatype Queue = Control | Query

  datatype Kind =
    | WgApply | WgStart | WgStop | WgDelete
    | GreApply | GreStart | GreStop
    | Udp2rawDelete | MimicDelete
    | Other(name: string)

  /** A JSON value read where an integer is expected. */
  datatype RawValue = Missing | NotInteger | Integer(value: int)

  /** A payload is an object in current databases; old ones may hold any JSON root. The subject is the endpoint or interface it names. */
  datatype Payload =
    | NotAnObject
    | Fields(dependsOn: RawValue, continueAfterFailure: bool, subject: Option<int>, content: string, bytes: nat)

  /** The part of a stored result that other handlers read; the code is empty when absent. */
  datatype Result = Result(errorCode: string, detail: string)

  datatype Task = Task(
    node: nat,
    plan: Option<nat>,
    kind: Kind,
    payload: Payload,
    queue: Queue,
    priority: int,
    status: Status,
    startedAt: Option<int>,
    deadline: Option<int>,
    dedup: Option<string>,
    result: Option<Result>)

  type Table = map<nat, Task>

  const RUNNING_TIMEOUT := 7200
  const POLL_BATCH_SIZE := 5
  const POLL_SCAN_LIMIT := 50
  const MAX_DEPENDENCY_DEPTH := 64
  const MAX_PAYLOAD_BYTES := 2 * 1024 * 1024

  // ---------------------------------------------------------------- row moves

  /** The columns no handler writes after the row was inserted. */
  predicate SameIdentity(a: Task, b: Task) {
    && a.node == b.node && a.plan == b.plan && a.kind == b.kind && a.queue == b.queue
    && a.priority == b.priority && a.deadline == b.deadline && a.dedup == b.dedup
  }

  /** One write to one row: a payload refresh while pending, or one status change. */
  predicate RowMoves(a: Task, b: Task) {
    && SameIdentity(a, b)
    && match a.status
       case Pending =>
         || b == a.(payload := b.payload)
         || ((b.status.Running? || b.status.Failed? || b.status.Cancelled?) && b.payload == a.payload)
       case Running => b.status.Terminal() && b.payload == a.payload
       case _ => false
  }

  /** What happens to a row even if payloads are overwritten: its status only moves forward, and its result stays. */
  predicate RowProceeds(a: Task, b: Task) {
    && SameIdentity(a, b)
    && (a.status.Terminal() ==> b == a.(payload := b.payload))
    && (!a.status.Pending? ==> !b.status.Pending?)
  }

  /** What happens to a row whose payload is never overwritten after it has left pending. */
  predicate RowEvolves(a: Task, b: Task) {
    RowProceeds(a, b) && (!a.status.Pending? ==> b.payload == a.payload)
  }

  ghost predicate Proceeds(t: Table, u: Table) {
    forall id :: id in t ==> id in u && RowProceeds(t[id], u[id])
  }

  /** Rows are never removed, new rows start pending, and old rows only evolve. */
  ghost predicate Evolves(t: Table, u: Table) {
    forall id :: id in t ==> id in u && RowEvolves(t[id], u[id])
  }

  /** One write to the table: a new pending row, or one move of one row. */
  ghost predicate TableMoves(t: Table, u: Table) {
    || (exists id :: id !in t && id in u && u[id].status.Pending? && u == t[id := u[id]])
    || (exists id :: id in t && id in u && RowMoves(t[id], u[id]) && u == t[id := u[id]])
  }

  lemma MovesEvolve(t: Table, u: Table)
    requires TableMoves(t, u)
    ensures Evolves(t, u)
  {
  }

  /** Rows are only claimed and closed: no row is added or refreshed. */
  ghost predicate OnlySettles(t: Table, u: Table) {
    && u.Keys == t.Keys
    && forall id :: id in t ==>
         && SameIdentity(t[id], u[id]) && u[id].payload == t[id].payload
         && (u[id].status.Pending? ==> t[id].status.Pending?)
  }

  lemma OnlySettlesTransitive(t: Table, u: Table, v: Table)
    requires OnlySettles(t, u) && OnlySettles(u, v)
    ensures OnlySettles(t, v)
  {
  }

  lemma EvolvesProceeds(t: Table, u: Table)
    requires Evolves(t, u)
    ensures Proceeds(t, u)
  {
  }

  lemma ProceedsTransitive(t: Table, u: Table, v: Table)
    requires Proceeds(t, u) && Proceeds(u, v)
    ensures Proceeds(t, v)
  {
  }

  lemma EvolvesTransitive(t: Table, u: Table, v: Table)
    requires Evolves(t, u) && Evolves(u, v)
    ensures Evolves(t, v)
  {
  }

  // ------------------------------------------------------- termination measure

  function Weight(s: Status): (w: nat)
    ensures w <= 2
  {
    match s
    case Pending => 2
    case Running => 1
    case _ => 0
  }

  /** Twice the pending rows plus the running rows, among the ids below `bound`. */
  function Measure(t: Table, bound: nat): nat {
    if bound == 0 then 0
    else Measure(t, bound - 1) + (if bound - 1 in t then Weight(t[bound - 1].status) else 0)
  }

  lemma {:induction false} MeasureCongruent(t: Table, u: Table, bound: nat)
    requires forall id :: id < bound ==> (id in t <==> id in u)
    requires forall id :: id < bound && id in t ==> t[id].status == u[id].status
    ensures Measure(t, bound) == Measure(u, bound)
  {
    if bound > 0 {
      MeasureCongruent(t, u, bound - 1);
    }
  }

  /** A status change of a row lowers the measure, and nothing else touches it. */
  lemma {:induction false} StatusChangeLowersMeasure(t: Table, u: Table, id: nat, bound: nat)
    requires id in t && id in u && id < bound
    requires RowMoves(t[id], u[id]) && u == t[id := u[id]]
    ensures Measure(u, bound) <= Measure(t, bound)
    ensures t[id].status != u[id].status ==> Measure(u, bound) < Measure(t, bound)
  {
    if id == bound - 1 {
      MeasureCongruent(t, u, bound - 1);
    } else {
      StatusChangeLowersMeasure(t, u, id, bound - 1);
    }
  }

  // -------------------------------------------------------------- dependencies

  /** The id in `depends_on_task_id`, when it converts to a positive integer. */
  function DependencyId(p: Payload): (d: Option<nat>)
    ensures forall id: nat :: d == Some(id) <==> id > 0 && p.Fields? && p.dependsOn == Integer(id)
  {
    if p.Fields? && p.dependsOn.Integer? && p.dependsOn.value > 0 then Some(p.dependsOn.value) else None
  }

  /**
  Following dependencies from `id`, a row without a dependency is reached in at
  most `hops` hops, and every row on the way exists and belongs to `node`.
   */
  predicate ReachesRoot(t: Table, node: nat, id: nat, hops: nat)
    decreases hops
  {
    && id in t
    && t[id].node == node
    && var d := DependencyId(t[id].payload);
       d.None? || (hops > 0 && ReachesRoot(t, node, d.value, hops - 1))
  }

  /** `to` is what following `hops` dependencies from `from` leads to. */
  predicate Leads(t: Table, from: nat, to: nat, hops: nat)
    decreases hops
  {
    if hops == 0 then from == to
    else from in t && DependencyId(t[from].payload).Some? && Leads(t, DependencyId(t[from].payload).value, to, hops - 1)
  }

  predicate ContinuesAfterFailure(kind: Kind, p: Payload) {
    && (kind.WgStop? || kind.GreStop? || kind.Udp2rawDelete? || kind.MimicDelete?)
    && p.Fields? && p.continueAfterFailure
  }

  datatype Verdict = Ready | Waiting | Rejected

  /** What the dependencies of a row say about handing it out now. */
  function Readiness(t: Table, id: nat): Verdict
    requires id in t
  {
    var row := t[id];
    match DependencyId(row.payload)
    case None => Ready
    case Some(d) =>
      if !ReachesRoot(t, row.node, d, MAX_DEPENDENCY_DEPTH - 1) then Rejected
      else if t[d].status.Succeeded? then Ready
      else if t[d].status.Failed? || t[d].status.Cancelled? then
        if ContinuesAfterFailure(row.kind, row.payload) then Ready else Rejected
      else Waiting
  }

  /** What a poll does with a pending row its agent supports. */
  function PollVerdict(t: Table, id: nat): Verdict
    requires id in t
  {
    var p := t[id].payload;
    if p.NotAnObject? then Rejected
    else if Readiness(t, id).Ready? && p.bytes > MAX_PAYLOAD_BYTES then Rejected
    else Readiness(t, id)
  }

  /** The dependency condition under which a payload may be handed out; stable once true. */
  ghost predicate DependencyMet(t: Table, kind: Kind, p: Payload) {
    var d := DependencyId(p);
    d.Some? ==>
      && d.value in t
      && (t[d.value].status.Succeeded? || (ContinuesAfterFailure(kind, p) && t[d.value].status.Terminal()))
  }

  lemma DependencyMetIsStable(t: Table, u: Table, kind: Kind, p: Payload)
    requires Proceeds(t, u) && DependencyMet(t, kind, p)
    ensures DependencyMet(u, kind, p)
  {
  }

  lemma LeadsExtends(t: Table, from: nat, mid: nat, hops: nat)
    requires Leads(t, from, mid, hops)
    requires mid in t && DependencyId(t[mid].payload).Some?
    ensures Leads(t, from, DependencyId(t[mid].payload).value, hops + 1)
    decreases hops
  {
    if hops > 0 {
      LeadsExtends(t, DependencyId(t[from].payload).value, mid, hops - 1);
    }
  }

  /** A row on a dependency cycle never reaches a root, however long the walk. */
  lemma {:induction false} CycleHasNoRoot(t: Table, node: nat, id: nat, length: nat, hops: nat)
    requires length > 0 && Leads(t, id, id, length)
    ensures !ReachesRoot(t, node, id, hops)
    decreases hops
  {
    if hops > 0 {
      var next := DependencyId(t[id].payload).value;
      LeadsExtends(t, next, id, length - 1);
      CycleHasNoRoot(t, node, next, length, hops - 1);
    }
  }

  lemma SubsetSize(a: set<nat>, b: set<nat>)
    requires a <= b
    ensures |a| <= |b|
  {
    assert b == a + (b - a);
  }

}
