/**
The controller's task handlers, with the loops they run over the task table and
the plan statuses they keep in step. Each handler is one transaction.
 */
module Controller {

  import opened Wrappers
  import opened Tasks
  import opened Plans
  import opened Protocol
  import opened ProtocolSafety
  import opened ChainWalk
  import opened PollSpec

  // ------------------------------------------------------------ row selections

  predicate OnNode(row: Task, node: Option<nat>) {
    node.Some? ==> row.node == node.value
  }

  /** A running row whose agent has not reported for longer than the timeout. */
  predicate StaleRunning(row: Task, node: Option<nat>, now: int) {
    row.status.Running? && row.startedAt.Some? && row.startedAt.value < now - RUNNING_TIMEOUT && OnNode(row, node)
  }

  /** A pending row whose deadline has passed. */
  predicate OverduePending(row: Task, node: Option<nat>, now: int) {
    row.status.Pending? && row.deadline.Some? && row.deadline.value <= now && OnNode(row, node)
  }

  function StaleIds(t: Table, node: Option<nat>, now: int): set<nat> {
    set id | id in t && StaleRunning(t[id], node, now)
  }

  function OverdueIds(t: Table, node: Option<nat>, now: int): set<nat> {
    set id | id in t && OverduePending(t[id], node, now)
  }

  /** The order in which a poll looks at pending rows: control before query, then priority, then id. */
  predicate ScanBefore(t: Table, i: nat, j: nat)
    requires i in t && j in t
  {
    var a, b := t[i], t[j];
    if a.queue != b.queue then a.queue.Control?
    else if a.priority != b.priority then a.priority < b.priority
    else i < j
  }

  lemma {:induction false} MinimalExists(t: Table, ids: set<nat>) returns (m: nat)
    requires ids != {} && forall id :: id in ids ==> id in t
    ensures m in ids && forall id :: id in ids && id != m ==> ScanBefore(t, m, id)
    decreases |ids|
  {
    m :| m in ids;
    if ids != {m} {
      var rest := ids - {m};
      assert |rest| < |ids|;
      var n := MinimalExists(t, rest);
      forall id | id in rest && !ScanBefore(t, n, m) ensures ScanBefore(t, m, id) {
        assert ScanBefore(t, m, n) && (id == n || ScanBefore(t, n, id));
      }
      if ScanBefore(t, n, m) {
        m := n;
      }
    }
  }

  /** The comparison of the query is the order of the columns. */
  lemma ScanBeforeIsOrder(t: Table, i: nat, j: nat)
    requires i in t && j in t
    ensures i != j ==> (ScanBefore(t, i, j) <==> Precedes(t, i, j))
  {
  }

  method ScanPending(t: Table, node: nat) returns (ids: seq<nat>)
    ensures IsScan(t, node, ids)
  {
    ids := [];
    var rest := set id | id in t && PendingOn(t, id, node);
    while |ids| < POLL_SCAN_LIMIT && rest != {}
      invariant |ids| <= POLL_SCAN_LIMIT
      invariant forall id :: id in rest ==> PendingOn(t, id, node) && id !in ids
      invariant forall id :: PendingOn(t, id, node) ==> id in rest || id in ids
      invariant forall id :: id in ids ==> PendingOn(t, id, node)
      invariant forall i, j :: 0 <= i < j < |ids| ==> Precedes(t, ids[i], ids[j])
      invariant forall x, id :: x in ids && id in rest ==> Precedes(t, x, id)
      decreases rest
    {
      ghost var least := MinimalExists(t, rest);
      var m :| m in rest && forall id | id in rest :: id != m ==> ScanBefore(t, m, id);
      forall id | id in rest && id != m ensures Precedes(t, m, id) {
        ScanBeforeIsOrder(t, m, id);
      }
      ids := ids + [m];
      rest := rest - {m};
    }
  }

  // ------------------------------------------------------------- closing rows

  function Close(row: Task, to: Status, result: Result): Task {
    row.(status := to, result := Some(result))
  }

  /** The table after a conditional update of the given rows. */
  function Closed(t: Table, ids: set<nat>, from: Status, to: Status, result: Task -> Result): Table {
    map id | id in t :: if id in ids && t[id].status == from then Close(t[id], to, result(t[id])) else t[id]
  }

  lemma ClosedNone(t: Table, from: Status, to: Status, result: Task -> Result)
    ensures Closed(t, {}, from, to, result) == t
  {
  }

  lemma ClosedOneMore(t: Table, done: set<nat>, id: nat, from: Status, to: Status, result: Task -> Result)
    requires id !in done && from != to
    ensures var u := Closed(t, done, from, to, result);
      Closed(t, done + {id}, from, to, result) ==
        if id in u && u[id].status == from then u[id := Close(u[id], to, result(u[id]))] else u
  {
  }

  lemma ClosedEvolves(t: Table, ids: set<nat>, from: Status, to: Status, result: Task -> Result)
    requires !from.Terminal() && (to.Failed? || to.Cancelled?)
    ensures Evolves(t, Closed(t, ids, from, to, result)) && OnlySettles(t, Closed(t, ids, from, to, result))
  {
  }

  /** Changing one row can only put its own plan out of step. */
  lemma RowChangeStales(t: Table, id: nat, row: Task, plans: PlanTable, stale: set<nat>)
    requires PlansAgree(t, plans, stale) && id in t && row.plan == t[id].plan
    ensures PlansAgree(t[id := row], plans, stale + if row.plan.Some? then {row.plan.value} else {})
  {
    var u := t[id := row];
    forall p | p in plans && p !in stale && row.plan != Some(p) ensures Agrees(u, p, plans[p]) {
      AgreesFrame(t, u, p, plans[p]);
    }
  }

  /** A claim puts no plan out of step: neither pending nor running is final. */
  lemma ClaimStalesNothing(t: Table, id: nat, row: Task, plans: PlanTable, stale: set<nat>)
    requires PlansAgree(t, plans, stale) && id in t && row.plan == t[id].plan
    requires t[id].status.Pending? && row.status.Running?
    ensures PlansAgree(t[id := row], plans, stale)
  {
    var u := t[id := row];
    forall p | p in plans && p !in stale ensures Agrees(u, p, plans[p]) {
      AgreesFrame(t, u, p, plans[p]);
    }
  }

  /** Re-aggregating one plan takes it off the list of plans out of step. */
  lemma UpdateSettles(t: Table, plans: PlanTable, stale: set<nat>, plan: nat)
    requires PlansAgree(t, plans, stale) && plan in plans && HasTasks(t, plan)
    requires plans[plan].PlanFailed? ==> SomeTaskFailed(t, plan)
    ensures PlansAgree(t, plans[plan := Aggregate(t, plan, plans[plan])], stale - {plan})
  {
    AggregateAgrees(t, plan, plans[plan]);
  }

  ghost predicate AllFailed(t: Table, plans: PlanTable, affected: set<nat>) {
    forall p :: p in affected ==> p in plans && SomeTaskFailed(t, p)
  }

  lemma FailedPlansGrow(t: Table, id: nat, row: Task, plans: PlanTable, affected: set<nat>)
    requires AllFailed(t, plans, affected) && id in t && row.plan == t[id].plan
    requires row.status.Failed? || row.status.Cancelled?
    requires row.plan.Some? ==> row.plan.value in plans
    ensures AllFailed(t[id := row], plans, affected + if row.plan.Some? then {row.plan.value} else {})
  {
    var u := t[id := row];
    assert row.plan.Some? ==> InPlan(u, id, row.plan.value);
    forall p | p in affected ensures SomeTaskFailed(u, p) {
      var x :| x in t && InPlan(t, x, p) && (t[x].status.Failed? || t[x].status.Cancelled?);
      assert InPlan(u, x, p);
    }
  }

  /** A plan without tasks is left alone. */
  ghost predicate OnlyPlansWithTasks(t: Table, before: PlanTable, after: PlanTable) {
    after.Keys == before.Keys && forall p :: p in before && !HasTasks(t, p) ==> after[p] == before[p]
  }

  lemma AgreementEvolves(t: Table, u: Table, before: PlanTable, after: PlanTable)
    requires PlansAgree(t, before, {}) && PlansAgree(u, after, {})
    requires Evolves(t, u) && u.Keys == t.Keys && OnlyPlansWithTasks(u, before, after)
    ensures PlansEvolve(before, after)
  {
    forall p | p in before
      ensures before[p].PlanSucceeded? || before[p].PlanFailed? || before[p].PlanCancelled? ==> after[p] == before[p]
      ensures !before[p].Draft? ==> !after[p].Draft?
    {
      assert Agrees(t, p, before[p]) && Agrees(u, p, after[p]);
      if HasTasks(u, p) {
        var id :| id in u && InPlan(u, id, p);
        assert InPlan(t, id, p);
        if before[p].PlanSucceeded? || before[p].PlanFailed? {
          AgreementKeepsFinal(t, u, p, before[p], after[p]);
        }
      }
    }
  }

  const NOT_AN_OBJECT := Result("", "agent task payload must be an object")
  const DEPENDENCY_FAILED := Result("", "dependency failed")
  const TOO_LARGE := Result("", "agent task payload exceeds response size limit")

  function TimedOut(row: Task): Result {
    Result("", "agent task timed out")
  }

  function Overdue(row: Task): Result {
    Result(if row.queue.Query? then "query_timeout" else "task_timeout", "task deadline expired before agent polling")
  }

  /** The two sweeps together fail exactly the rows the specification names. */
  lemma SweepsAreSwept(t: Table, node: nat, now: int)
    ensures var u := Closed(t, StaleIds(t, Some(node), now), Running, Failed, TimedOut);
      Closed(u, OverdueIds(u, Some(node), now), Pending, Failed, Overdue) == Swept(t, node, now)
  {
  }

  /** The sweeps only close rows, and change a status if they change anything. */
  lemma SweptChanges(t: Table, node: nat, now: int)
    ensures var u := Swept(t, node, now);
      Evolves(t, u) && OnlySettles(t, u) && (u != t ==> SomeStatusChanged(t, u))
  {
    var u := Swept(t, node, now);
    if u != t {
      var id :| id in t && u[id] != t[id];
      assert t[id].status != u[id].status;
    }
  }

  lemma ChangeStays(t: Table, u: Table, v: Table)
    requires Evolves(t, u) && Evolves(u, v)
    ensures SomeStatusChanged(t, u) ==> SomeStatusChanged(t, v)
  {
    if SomeStatusChanged(t, u) {
      var id :| id in t && id in u && t[id].status != u[id].status;
      assert RowEvolves(t[id], u[id]) && RowEvolves(u[id], v[id]);
      assert t[id].status != v[id].status;
    }
  }

  lemma OnlyPlansCompose(t: Table, u: Table, a: PlanTable, b: PlanTable, c: PlanTable)
    requires OnlyPlansWithTasks(t, a, b) && OnlyPlansWithTasks(u, b, c)
    requires u.Keys == t.Keys && forall id :: id in t ==> u[id].plan == t[id].plan
    ensures OnlyPlansWithTasks(u, a, c)
  {
    forall p | HasTasks(t, p) ensures HasTasks(u, p) {
      var id :| id in t && InPlan(t, id, p);
      assert InPlan(u, id, p);
    }
  }

  lemma PlansEvolveTransitive(a: PlanTable, b: PlanTable, c: PlanTable)
    requires PlansEvolve(a, b) && PlansEvolve(b, c)
    ensures PlansEvolve(a, c)
  {
  }

  datatype Response = NotFound | Invalid | Recorded | Conflict

  /** Nothing that failed in a plan stops being failed. */
  lemma FailuresStay(t: Table, u: Table, plan: nat)
    requires Proceeds(t, u)
    ensures SomeTaskFailed(t, plan) ==> SomeTaskFailed(u, plan)
  {
    if SomeTaskFailed(t, plan) {
      var x :| x in t && InPlan(t, x, plan) && (t[x].status.Failed? || t[x].status.Cancelled?);
      assert InPlan(u, x, plan);
    }
  }

  /** The plan table after a row of some plan was finished. */
  function PlansAfter(u: Table, plans: PlanTable, plan: Option<nat>): PlanTable {
    if plan.Some? && plan.value in plans then plans[plan.value := Aggregate(u, plan.value, plans[plan.value])] else plans
  }

  lemma FinishKeepsPlans(t: Table, id: nat, final: Status, result: Result, plans: PlanTable)
    requires PlansAgree(t, plans, {}) && id in t && t[id].status.Running? && final.Terminal()
    ensures var u := Finish(t, id, final, result);
      && Evolves(t, u) && u.Keys == t.Keys
      && PlansAgree(u, PlansAfter(u, plans, t[id].plan), {}) && PlansEvolve(plans, PlansAfter(u, plans, t[id].plan))
  {
    var plan, u := t[id].plan, Finish(t, id, final, result);
    RowChangeStales(t, id, u[id], plans, {});
    if plan.Some? {
      assert InPlan(u, id, plan.value);
      FailuresStay(t, u, plan.value);
      assert {} + {plan.value} == {plan.value} && {plan.value} - {plan.value} == {};
      UpdateSettles(u, plans, {plan.value}, plan.value);
    }
    AgreementEvolves(t, u, plans, PlansAfter(u, plans, plan));
  }

  function PlanRow(plan: nat, node: nat, kind: Kind, payload: Payload): Task {
    Task(node, Some(plan), kind, payload, Control, 100, Pending, None, None, None, None)
  }

  /** The rows a confirmed plan adds, from the first free id on. */
  function PlanRows(first: nat, plan: nat, node: nat, kind: Kind, payload: Payload, previous: Option<Payload>): Table
    requires payload.Fields? && (previous.Some? ==> previous.value.Fields?)
  {
    if previous.None? then map[first := PlanRow(plan, node, kind, payload)]
    else map[
      first := PlanRow(plan, node, WgStop, previous.value),
      first + 1 := PlanRow(plan, node, WgDelete, previous.value.(dependsOn := Integer(first))),
      first + 2 := PlanRow(plan, node, kind, payload.(dependsOn := Integer(first + 1)))]
  }

  lemma PlanRowsAreNew(t: Table, first: nat, plan: nat, node: nat, kind: Kind, payload: Payload, previous: Option<Payload>)
    requires payload.Fields? && (previous.Some? ==> previous.value.Fields?)
    requires forall id :: id in t ==> 0 < id < first
    ensures var rows := PlanRows(first, plan, node, kind, payload, previous);
      && first in rows && t.Keys !! rows.Keys
      && (forall id :: id in rows ==> first <= id < first + (if previous.Some? then 3 else 1))
      && (forall id :: id in rows ==> rows[id].plan == Some(plan) && rows[id].status.Pending?)
      && (forall id :: id in rows ==>
            rows[id] == Task(node, Some(plan), rows[id].kind, rows[id].payload, Control, 100, Pending, None, None, None, None))
  {
  }

  /** New pending rows of a plan that was a draft make it confirmed, and concern no other plan. */
  lemma ConfirmedAgrees(t: Table, rows: Table, first: nat, plans: PlanTable, plan: nat)
    requires PlansAgree(t, plans, {}) && plan in plans && plans[plan].Draft?
    requires first in rows && t.Keys !! rows.Keys
    requires forall id :: id in rows ==> rows[id].plan == Some(plan) && rows[id].status.Pending?
    ensures PlansAgree(t + rows, plans[plan := Confirmed], {}) && Evolves(t, t + rows)
    ensures PlansEvolve(plans, plans[plan := Confirmed])
  {
    var u, plans' := t + rows, plans[plan := Confirmed];
    forall p | p in plans' ensures Agrees(u, p, plans'[p]) {
      assert Agrees(t, p, plans[p]);
      if p == plan {
        assert InPlan(u, first, plan) && !HasTasks(t, plan);
      } else {
        assert forall id :: InPlan(u, id, p) <==> InPlan(t, id, p);
        assert HasTasks(u, p) <==> HasTasks(t, p);
        assert SomeTaskFailed(u, p) <==> SomeTaskFailed(t, p);
      }
    }
  }

  // --------------------------------------------------- handlers as protocol runs

  /** A sweep over running rows is a run of single expiries. */
  lemma {:induction false} RunningSweepIsRun(s: System, ids: set<nat>, node: Option<nat>, result: Task -> Result)
    returns (events: seq<Event>)
    requires forall id :: id in ids ==> id in s.tasks && StaleRunning(s.tasks[id], node, s.now)
    ensures Legal(s, events) && After(s, events) == s.(tasks := Closed(s.tasks, ids, Running, Failed, result))
    decreases ids
  {
    if ids == {} {
      ClosedNone(s.tasks, Running, Failed, result);
      return [];
    }
    var id :| id in ids;
    var rest := RunningSweepIsRun(s, ids - {id}, node, result);
    var mid := After(s, rest);
    var e := ExpireRunning(id, result(s.tasks[id]));
    ClosedOneMore(s.tasks, ids - {id}, id, Running, Failed, result);
    assert ids - {id} + {id} == ids;
    SingleEvent(mid, e);
    LegalConcat(s, rest, [e]);
    return rest + [e];
  }

  /** A sweep over overdue pending rows is a run of single expiries. */
  lemma {:induction false} PendingSweepIsRun(s: System, ids: set<nat>, node: Option<nat>, result: Task -> Result)
    returns (events: seq<Event>)
    requires forall id :: id in ids ==> id in s.tasks && OverduePending(s.tasks[id], node, s.now)
    ensures Legal(s, events) && After(s, events) == s.(tasks := Closed(s.tasks, ids, Pending, Failed, result))
    decreases ids
  {
    if ids == {} {
      ClosedNone(s.tasks, Pending, Failed, result);
      return [];
    }
    var id :| id in ids;
    var rest := PendingSweepIsRun(s, ids - {id}, node, result);
    var mid := After(s, rest);
    var e := ExpirePending(id, result(s.tasks[id]));
    ClosedOneMore(s.tasks, ids - {id}, id, Pending, Failed, result);
    assert ids - {id} + {id} == ids;
    SingleEvent(mid, e);
    LegalConcat(s, rest, [e]);
    return rest + [e];
  }

  /** Both sweeps together are a run of single expiries. */
  lemma SweptIsRun(s: System, node: nat) returns (events: seq<Event>)
    ensures Legal(s, events) && After(s, events) == s.(tasks := Swept(s.tasks, node, s.now))
  {
    events := RunningSweepIsRun(s, StaleIds(s.tasks, Some(node), s.now), Some(node), TimedOut);
    var u := After(s, events);
    var more := PendingSweepIsRun(u, OverdueIds(u.tasks, Some(node), s.now), Some(node), Overdue);
    LegalConcat(s, events, more);
    SweepsAreSwept(s.tasks, node, s.now);
    events := events + more;
  }

  /** A cancellation of pending rows is a run of single cancellations. */
  lemma {:induction false} CancellationIsRun(s: System, ids: set<nat>, result: Task -> Result)
    returns (events: seq<Event>)
    ensures Legal(s, events) && After(s, events) == s.(tasks := Closed(s.tasks, ids, Pending, Cancelled, result))
    decreases ids
  {
    if ids == {} {
      ClosedNone(s.tasks, Pending, Cancelled, result);
      return [];
    }
    var id :| id in ids;
    events := CancellationIsRun(s, ids - {id}, result);
    ClosedOneMore(s.tasks, ids - {id}, id, Pending, Cancelled, result);
    assert ids - {id} + {id} == ids;
    if HasStatus(s.tasks, id, Pending) {
      LastEvent(s, events, Cancel(id, result(s.tasks[id])));
      events := events + [Cancel(id, result(s.tasks[id]))];
    }
  }

  /** The system after an open poll has claimed `taken`, with the table as it is then. */
  function Polled(s: System, t: Table, p: nat, node: nat, taken: seq<Handout>): System {
    s.(tasks := t, polls := s.polls[p := PollSession(node, None, taken)], handed := s.handed + taken)
  }

  function ClaimRow(t: Table, id: nat, now: int): Table
    requires id in t
  {
    t[id := t[id].(status := Running, startedAt := Some(now))]
  }

  /** Considering one row is at most one rejection, or one selection and one claim. */
  lemma ConsideredIsRun(s: System, p: nat, node: nat, taken: seq<Handout>, id: nat, u: Table, supported: bool)
    returns (events: seq<Event>)
    requires PendingOn(s.tasks, id, node) && |taken| < POLL_BATCH_SIZE
    requires p in s.polls && s.polls[p] == PollSession(node, None, taken)
    requires Considered(s.tasks, u, id, supported, s.now)
    ensures Legal(s, events)
    ensures u[id].status.Running? ==>
      var h := Handout(p, node, id, s.tasks[id].kind, s.tasks[id].payload, s.tasks[id].payload);
      After(s, events) == s.(tasks := u, polls := s.polls[p := PollSession(node, None, taken + [h])], handed := s.handed + [h])
    ensures !u[id].status.Running? ==> After(s, events) == s.(tasks := u)
  {
    if u == s.tasks {
      return [];
    }
    if PollVerdict(s.tasks, id).Rejected? {
      var result := Rejection(s.tasks, id);
      SingleEvent(s, PollReject(p, id, result));
      return [PollReject(p, id, result)];
    }
    var mid := Apply(s, PollSelect(p, id));
    SingleEvent(s, PollSelect(p, id));
    SingleEvent(mid, PollClaim(p));
    LegalConcat(s, [PollSelect(p, id)], [PollClaim(p)]);
    return [PollSelect(p, id)] + [PollClaim(p)];
  }

  /** Plans stay in step while a row is considered, but for the plan whose update is put off. */
  lemma ConsideredKeepsPlans(t: Table, u: Table, id: nat, supported: bool, now: int,
                             plans: PlanTable, plans': PlanTable, stale: set<nat>, stalePlan: Option<nat>)
    requires id in t && t[id].status.Pending? && Considered(t, u, id, supported, now)
    requires PlansAgree(t, plans, stale) && AllFailed(t, plans, stale)
    requires !u[id].status.Failed? ==> plans' == plans && stalePlan.None?
    requires u[id].status.Failed? ==>
      var plan := u[id].plan;
      || (plans' == plans && stalePlan == plan)
      || (&& plan.Some? && plan.value in plans && stalePlan.None?
          && plans' == plans[plan.value := Aggregate(u, plan.value, plans[plan.value])])
    ensures var next := stale + if stalePlan.Some? then {stalePlan.value} else {};
      PlansAgree(u, plans', next) && AllFailed(u, plans', next) && OnlyPlansWithTasks(u, plans, plans')
  {
    var plan := t[id].plan;
    if u[id].status.Running? {
      ClaimStalesNothing(t, id, u[id], plans, stale);
      forall p | p in stale ensures SomeTaskFailed(u, p) {
        var x :| x in t && InPlan(t, x, p) && (t[x].status.Failed? || t[x].status.Cancelled?);
        assert InPlan(u, x, p);
      }
    } else if u[id].status.Failed? {
      RowChangeStales(t, id, u[id], plans, stale);
      FailedPlansGrow(t, id, u[id], plans, stale);
      if plan.Some? {
        assert InPlan(u, id, plan.value);
        UpdateSettles(u, plans, stale + {plan.value}, plan.value);
      }
    }
  }

  /** The events so far are a run of the protocol that leads to this table and these handouts. */
  ghost predicate Serves(s: System, events: seq<Event>, t: Table, p: nat, node: nat, handed: seq<Handout>) {
    Legal(s, events) && After(s, events) == Polled(s, t, p, node, handed)
  }

  lemma ServeRow(s: System, events: seq<Event>, t: Table, u: Table, p: nat, node: nat, handed: seq<Handout>, id: nat, supported: bool)
    returns (events': seq<Event>)
    requires Serves(s, events, t, p, node, handed) && |handed| < POLL_BATCH_SIZE
    requires PendingOn(t, id, node) && Considered(t, u, id, supported, s.now)
    ensures Serves(s, events', u, p, node, handed + HandedRow(u, p, node, id))
  {
    var mid := Polled(s, t, p, node, handed);
    var more := ConsideredIsRun(mid, p, node, handed, id, u, supported);
    LegalConcat(s, events, more);
    var add := HandedRow(u, p, node, id);
    assert s.handed + (handed + add) == s.handed + handed + add;
    assert s.polls[p := PollSession(node, None, handed)][p := PollSession(node, None, handed + add)]
        == s.polls[p := PollSession(node, None, handed + add)];
    events' := events + more;
    if add == [] {
      assert handed + add == handed && s.handed + handed + add == s.handed + handed;
      assert After(mid, more) == mid.(tasks := u);
    }
  }

  /** All that holds in the loop of a poll before its row `i`. */
  ghost predicate Going(t: Table, plans: PlanTable, u: Table, plans': PlanTable, stale: set<nat>, scan: seq<nat>, i: nat,
                        node: nat, supported: Kind -> bool, now: int, p: nat, handed: seq<Handout>)
  {
    && IsScan(t, node, scan) && i <= |scan|
    && Evolves(t, u) && Served(t, u, scan[..i], node, supported, now, p, handed)
    && PlansAgree(u, plans', stale) && AllFailed(u, plans', stale) && OnlyPlansWithTasks(u, plans, plans')
    && |handed| <= 5 && (|handed| == 5 ==> i > 0 && handed[4].task == scan[i - 1])
  }

  lemma GoingStarts(t: Table, plans: PlanTable, scan: seq<nat>, node: nat, supported: Kind -> bool, now: int, p: nat)
    requires IsScan(t, node, scan) && PlansAgree(t, plans, {})
    ensures Going(t, plans, t, plans, {}, scan, 0, node, supported, now, p, [])
  {
  }

  /** What the methods use of the loop's state about row `i`. */
  lemma GoingNext(t: Table, plans0: PlanTable, u: Table, plans: PlanTable, stale: set<nat>, scan: seq<nat>, i: nat,
                  node: nat, supported: Kind -> bool, now: int, p: nat, handed: seq<Handout>)
    requires Going(t, plans0, u, plans, stale, scan, i, node, supported, now, p, handed) && i < |scan|
    ensures PendingOn(u, scan[i], node) && PendingOn(t, scan[i], node) && u[scan[i]] == t[scan[i]]
    ensures PlansAgree(u, plans, stale) && AllFailed(u, plans, stale)
    ensures u[scan[i]].plan.Some? ==> u[scan[i]].plan.value in plans
  {
    AheadInScan(t, node, scan, i);
    assert scan[i] in scan && scan[i] !in Elements(scan[..i]);
  }

  lemma GoingOneMore(t: Table, plans0: PlanTable, u: Table, plans1: PlanTable, v: Table, plans2: PlanTable, stale: set<nat>, stale': set<nat>,
                     scan: seq<nat>, i: nat, node: nat, supported: Kind -> bool, now: int, p: nat, handed: seq<Handout>)
    requires Going(t, plans0, u, plans1, stale, scan, i, node, supported, now, p, handed) && i < |scan| && |handed| < 5
    requires scan[i] in u && Considered(u, v, scan[i], supported(u[scan[i]].kind), now)
    requires PlansAgree(v, plans2, stale') && AllFailed(v, plans2, stale') && OnlyPlansWithTasks(v, plans1, plans2)
    ensures Going(t, plans0, v, plans2, stale', scan, i + 1, node, supported, now, p, handed + HandedRow(v, p, node, scan[i]))
  {
    GoingNext(t, plans0, u, plans1, stale, scan, i, node, supported, now, p, handed);
    ConsideredEvolves(u, v, scan[i], supported(u[scan[i]].kind), now);
    EvolvesTransitive(t, u, v);
    OnlyPlansCompose(u, v, plans0, plans1, plans2);
    ServedOneMore(t, u, v, scan, i, node, supported, now, p, handed);
  }

  lemma GoingEnds(t: Table, plans0: PlanTable, u: Table, plans: PlanTable, stale: set<nat>, scan: seq<nat>, i: nat,
                  node: nat, supported: Kind -> bool, now: int, p: nat, handed: seq<Handout>)
    requires Going(t, plans0, u, plans, stale, scan, i, node, supported, now, p, handed) && (i == |scan| || |handed| == 5)
    ensures PollDoes(t, u, node, supported, now, p, handed)
    ensures Evolves(t, u) && OnlySettles(t, u)
    ensures PlansAgree(u, plans, stale) && AllFailed(u, plans, stale) && OnlyPlansWithTasks(u, plans0, plans)
  {
    ServedIsPoll(t, u, scan, i, node, supported, now, p, handed);
  }

  // ------------------------------------------------------------------ progress

  /**
  On a node where nothing runs, following dependencies from a pending row that
  waits leads to a pending row that does not wait.
   */
  lemma {:induction false} SomeRowDoesNotWait(t: Table, node: nat, id: nat, hops: nat) returns (found: nat)
    requires PendingOn(t, id, node) && ReachesRoot(t, node, id, hops)
    requires forall x :: x in t && t[x].node == node ==> !t[x].status.Running?
    ensures PendingOn(t, found, node) && !PollVerdict(t, found).Waiting?
    decreases hops
  {
    if !PollVerdict(t, id).Waiting? {
      return id;
    }
    var d := DependencyId(t[id].payload).value;
    assert PendingOn(t, d, node);
    found := SomeRowDoesNotWait(t, node, d, hops - 1);
  }

  /** Whatever the dependency graph, some pending row of an idle node can be handed out or rejected now. */
  lemma NoDependencyDeadlock(t: Table, node: nat, id: nat) returns (found: nat)
    requires PendingOn(t, id, node)
    requires forall x :: x in t && t[x].node == node ==> !t[x].status.Running?
    ensures PendingOn(t, found, node) && !PollVerdict(t, found).Waiting?
  {
    if !PollVerdict(t, id).Waiting? {
      return id;
    }
    assert ReachesRoot(t, node, id, MAX_DEPENDENCY_DEPTH);
    found := SomeRowDoesNotWait(t, node, id, MAX_DEPENDENCY_DEPTH);
  }

  /** The hypotheses under which one poll must move some row. */
  ghost predicate PollMustMove(t: Table, node: nat, supported: Kind -> bool) {
    var waiting := set id | id in t && PendingOn(t, id, node);
    && 0 < |waiting| <= POLL_SCAN_LIMIT
    && (forall id :: id in waiting ==> supported(t[id].kind))
    && (forall id :: id in t && t[id].node == node ==> !t[id].status.Running?)
  }

  lemma FitsWindow(t: Table, node: nat, id: nat)
    requires PendingOn(t, id, node) && |set x | x in t && PendingOn(t, x, node)| <= POLL_SCAN_LIMIT
    ensures InWindow(t, node, id)
  {
    var waiting := set x | x in t && PendingOn(t, x, node);
    assert Ahead(t, node, id) <= waiting - {id};
    SubsetSize(Ahead(t, node, id), waiting - {id});
  }

  /** A poll under these hypotheses does move some row. */
  lemma PollMoves(t: Table, u: Table, node: nat, supported: Kind -> bool, now: int, p: nat, handed: seq<Handout>)
    requires PollDoes(t, u, node, supported, now, p, handed) && PollMustMove(t, node, supported)
    ensures SomeStatusChanged(t, u)
  {
    var waiting := set id | id in t && PendingOn(t, id, node);
    var id :| id in waiting;
    var found := NoDependencyDeadlock(t, node, id);
    FitsWindow(t, node, found);
    if Reached(t, node, handed, found) {
      SeenNotWaiting(t, u, node, found);
      assert found in waiting && RowServed(t, u, node, found, supported, now);
      assert t[found].status != u[found].status;
    } else {
      var first := handed[4].task;
      assert first in HandedIds(handed);
      assert t[first].status != u[first].status;
    }
  }

  /** A condition on what the loop of a poll has changed so far. */
  type LoopState = (Table, PlanTable, set<nat>, nat, seq<Handout>, seq<Event>) -> bool

  /** The condition says that the loop is going and that its events serve it. */
  ghost predicate Underway(holds: LoopState, s: System, t: Table, plans0: PlanTable, scan: seq<nat>,
                           node: nat, supported: Kind -> bool, now: int, p: nat)
  {
    forall u, plans, stale, i, handed, events
      {:trigger Going(t, plans0, u, plans, stale, scan, i, node, supported, now, p, handed), Serves(s, events, u, p, node, handed)} ::
      holds(u, plans, stale, i, handed, events) <==>
        Going(t, plans0, u, plans, stale, scan, i, node, supported, now, p, handed) && Serves(s, events, u, p, node, handed)
  }

  ghost function StateOf(s: System, t: Table, plans0: PlanTable, scan: seq<nat>,
                         node: nat, supported: Kind -> bool, now: int, p: nat): (holds: LoopState)
    ensures Underway(holds, s, t, plans0, scan, node, supported, now, p)
  {
    (u, plans, stale, i, handed, events) =>
      Going(t, plans0, u, plans, stale, scan, i, node, supported, now, p, handed) && Serves(s, events, u, p, node, handed)
  }

  datatype ConfirmReply = UnknownPlan | NotADraft | NotAdmissible | Accepted(ids: seq<nat>)

  class Controller {
    var tasks: Table
    var plans: PlanTable
    var nextId: nat

    ghost predicate Valid()
      reads this
    {
      && nextId > 0
      && (forall id :: id in tasks ==> 0 < id < nextId)
      && PlansAgree(tasks, plans, {})
    }

    constructor ()
      ensures Valid() && tasks == map[] && plans == map[]
    {
      tasks, plans, nextId := map[], map[], 1;
    }

    /** Recomputes the plans in `affected`, each of which has a failed task. */
    method UpdatePlans(affected: set<nat>)
      requires PlansAgree(tasks, plans, affected) && AllFailed(tasks, plans, affected)
      modifies this`plans
      ensures PlansAgree(tasks, plans, {}) && OnlyPlansWithTasks(tasks, old(plans), plans)
    {
      var rest := affected;
      while rest != {}
        invariant rest <= affected && plans.Keys == old(plans).Keys
        invariant PlansAgree(tasks, plans, rest) && OnlyPlansWithTasks(tasks, old(plans), plans)
        decreases rest
      {
        var p :| p in rest;
        assert HasTasks(tasks, p);
        UpdateSettles(tasks, plans, rest, p);
        plans := plans[p := Aggregate(tasks, p, plans[p])];
        rest := rest - {p};
      }
    }

    /**
    The shape shared by both expiry sweeps and by cancellation: a conditional
    update of each selected row, then the plans of the rows actually written.
     */
    method CloseRows(ids: set<nat>, from: Status, to: Status, result: Task -> Result)
      requires Valid() && !from.Terminal() && (to.Failed? || to.Cancelled?)
      modifies this`tasks, this`plans
      ensures Valid() && PlansEvolve(old(plans), plans)
      ensures tasks == Closed(old(tasks), ids, from, to, result) && Evolves(old(tasks), tasks) && OnlySettles(old(tasks), tasks)
    {
      var rest, affected := ids, {};
      ClosedNone(tasks, from, to, result);
      assert ids - rest == {};
      while rest != {}
        invariant rest <= ids && plans == old(plans)
        invariant tasks == Closed(old(tasks), ids - rest, from, to, result)
        invariant PlansAgree(tasks, plans, affected) && AllFailed(tasks, plans, affected)
        decreases rest
      {
        var id :| id in rest;
        ClosedOneMore(old(tasks), ids - rest, id, from, to, result);
        assert ids - (rest - {id}) == ids - rest + {id};
        if id in tasks && tasks[id].status == from {
          var row := Close(tasks[id], to, result(tasks[id]));
          RowChangeStales(tasks, id, row, plans, affected);
          FailedPlansGrow(tasks, id, row, plans, affected);
          tasks := tasks[id := row];
          affected := affected + if row.plan.Some? then {row.plan.value} else {};
        }
        rest := rest - {id};
      }
      assert ids - rest == ids;
      ClosedEvolves(old(tasks), ids, from, to, result);
      UpdatePlans(affected);
      AgreementEvolves(old(tasks), tasks, old(plans), plans);
    }

    /** Fails the running rows of a node, or of all nodes, that timed out. */
    method ExpireStaleRunning(node: Option<nat>, now: int)
      requires Valid()
      modifies this`tasks, this`plans
      ensures Valid() && PlansEvolve(old(plans), plans)
      ensures tasks == Closed(old(tasks), StaleIds(old(tasks), node, now), Running, Failed, TimedOut)
      ensures tasks.Keys == old(tasks).Keys
      ensures forall id :: id in tasks ==>
        var row := old(tasks)[id];
        if && row.status == Running && row.startedAt.Some? && row.startedAt.value + 7200 < now
           && (node.None? || row.node == node.value)
        then tasks[id] == row.(status := Failed, result := tasks[id].result) && tasks[id].result.Some?
        else tasks[id] == row
      ensures Evolves(old(tasks), tasks) && OnlySettles(old(tasks), tasks)
    {
      CloseRows(StaleIds(tasks, node, now), Running, Failed, TimedOut);
    }

    /** Fails the pending rows of a node, or of all nodes, whose deadline passed. */
    method ExpireOverduePending(node: Option<nat>, now: int)
      requires Valid()
      modifies this`tasks, this`plans
      ensures Valid() && PlansEvolve(old(plans), plans)
      ensures tasks == Closed(old(tasks), OverdueIds(old(tasks), node, now), Pending, Failed, Overdue)
      ensures tasks.Keys == old(tasks).Keys
      ensures forall id :: id in tasks ==>
        var row := old(tasks)[id];
        if && row.status == Pending && row.deadline.Some? && row.deadline.value <= now
           && (node.None? || row.node == node.value)
        then && tasks[id] == row.(status := Failed, result := tasks[id].result) && tasks[id].result.Some?
             && tasks[id].result.value.errorCode == (if row.queue == Query then "query_timeout" else "task_timeout")
        else tasks[id] == row
      ensures Evolves(old(tasks), tasks) && OnlySettles(old(tasks), tasks)
    {
      CloseRows(OverdueIds(tasks, node, now), Pending, Failed, Overdue);
    }

    /**
    One pending row of a poll's scan: skipped, rejected, or claimed. A rejection
    for its dependencies updates the plan at once; the other rejections leave
    that to the end of the poll.
     */
    method ConsiderRow(id: nat, node: nat, supported: bool, now: int) returns (stalePlan: Option<nat>)
      requires PendingOn(tasks, id, node)
      requires tasks[id].plan.Some? ==> tasks[id].plan.value in plans
      modifies this`tasks, this`plans
      ensures Considered(old(tasks), tasks, id, supported, now)
      ensures !tasks[id].status.Failed? ==> plans == old(plans) && stalePlan.None?
      ensures tasks[id].status.Failed? ==>
        var plan := tasks[id].plan;
        || (plans == old(plans) && stalePlan == plan)
        || (&& plan.Some? && plan.value in old(plans) && stalePlan.None?
            && plans == old(plans)[plan.value := Aggregate(tasks, plan.value, old(plans)[plan.value])])
    {
      stalePlan := None;
      var row := tasks[id];
      if !supported {
        return;
      }
      if row.payload.NotAnObject? {
        tasks := Finish(tasks, id, Failed, NOT_AN_OBJECT);
        return row.plan;
      }
      var verdict := CheckReadiness(tasks, id);
      if verdict.Rejected? {
        tasks := Finish(tasks, id, Failed, DEPENDENCY_FAILED);
        if row.plan.Some? {
          plans := plans[row.plan.value := Aggregate(tasks, row.plan.value, plans[row.plan.value])];
        }
        return;
      }
      if verdict.Waiting? {
        return;
      }
      if row.payload.bytes > MAX_PAYLOAD_BYTES {
        tasks := Finish(tasks, id, Failed, TOO_LARGE);
        return row.plan;
      }
      tasks := ClaimRow(tasks, id, now);
    }

    /** Both sweeps that open a poll, as a run of single expiries. */
    method Sweep(node: nat, now: int, p: nat, ghost s: System) returns (ghost events: seq<Event>)
      requires Valid()
      requires s.tasks == tasks && s.now == now && p in s.polls && s.polls[p] == PollSession(node, None, [])
      modifies this`tasks, this`plans
      ensures Valid() && PlansEvolve(old(plans), plans)
      ensures OnlySettles(old(tasks), tasks) && Evolves(old(tasks), tasks)
      ensures tasks != old(tasks) ==> SomeStatusChanged(old(tasks), tasks)
      ensures tasks == Swept(old(tasks), node, now)
      ensures Serves(s, events, tasks, p, node, [])
    {
      ExpireStaleRunning(Some(node), now);
      ghost var plans1 := plans;
      ExpireOverduePending(Some(node), now);
      SweepsAreSwept(s.tasks, node, now);
      SweptChanges(s.tasks, node, now);
      PlansEvolveTransitive(old(plans), plans1, plans);
      events := SweptIsRun(s, node);
      assert s.handed + [] == s.handed && s.polls[p := PollSession(node, None, [])] == s.polls;
    }

    /** One round of the loop of a poll. */
    method ServeOne(scan: seq<nat>, i: nat, node: nat, supported: Kind -> bool, now: int, p: nat,
                    stale: set<nat>, handed: seq<Handout>,
                    ghost s: System, ghost events: seq<Event>, ghost t: Table, ghost plans0: PlanTable)
      returns (stale': set<nat>, handed': seq<Handout>, ghost events': seq<Event>)
      requires i < |scan| && |handed| < POLL_BATCH_SIZE
      requires Going(t, plans0, tasks, plans, stale, scan, i, node, supported, now, p, handed)
      requires Serves(s, events, tasks, p, node, handed) && s.now == now
      modifies this`tasks, this`plans
      ensures Going(t, plans0, tasks, plans, stale', scan, i + 1, node, supported, now, p, handed') == true
      ensures Serves(s, events', tasks, p, node, handed') == true && |handed'| <= |handed| + 1
    {
      var id := scan[i];
      ghost var u, plans1 := tasks, plans;
      GoingNext(t, plans0, tasks, plans, stale, scan, i, node, supported, now, p, handed);
      var ok := supported(tasks[id].kind);
      var stalePlan := ConsiderRow(id, node, ok, now);
      events' := ServeRow(s, events, u, tasks, p, node, handed, id, ok);
      ConsideredKeepsPlans(u, tasks, id, ok, now, plans1, plans, stale, stalePlan);
      stale' := stale + if stalePlan.Some? then {stalePlan.value} else {};
      GoingOneMore(t, plans0, u, plans1, tasks, plans, stale, stale', scan, i, node, supported, now, p, handed);
      handed' := handed + HandedRow(tasks, p, node, id);
    }

    /** One round of the loop, with the state of the loop as one fact. */
    method ServeNext(scan: seq<nat>, i: nat, node: nat, supported: Kind -> bool, now: int, p: nat,
                     stale: set<nat>, handed: seq<Handout>,
                     ghost s: System, ghost events: seq<Event>, ghost t: Table, ghost plans0: PlanTable, ghost holds: LoopState)
      returns (stale': set<nat>, handed': seq<Handout>, ghost events': seq<Event>)
      requires i < |scan| && |handed| < POLL_BATCH_SIZE && s.now == now
      requires Underway(holds, s, t, plans0, scan, node, supported, now, p)
      requires holds(tasks, plans, stale, i, handed, events)
      modifies this`tasks, this`plans
      ensures holds(tasks, plans, stale', i + 1, handed', events') && |handed'| <= |handed| + 1
    {
      ghost var going := Going(t, plans0, tasks, plans, stale, scan, i, node, supported, now, p, handed);
      ghost var serves := Serves(s, events, tasks, p, node, handed);
      assert going && serves;
      stale', handed', events' := ServeOne(scan, i, node, supported, now, p, stale, handed, s, events, t, plans0);
    }

    /** The loop of a poll over its scan, up to a full batch. */
    method ServeRows(scan: seq<nat>, node: nat, supported: Kind -> bool, now: int, p: nat,
                     ghost s: System, ghost past: seq<Event>, ghost t: Table, ghost plans0: PlanTable, ghost holds: LoopState)
      returns (i: nat, stale: set<nat>, handed: seq<Handout>, ghost events: seq<Event>)
      requires Underway(holds, s, t, plans0, scan, node, supported, now, p) && s.now == now
      requires holds(tasks, plans, {}, 0, [], past)
      modifies this`tasks, this`plans
      ensures holds(tasks, plans, stale, i, handed, events) && (i == |scan| || |handed| == POLL_BATCH_SIZE)
    {
      i, stale, handed, events := 0, {}, [], past;
      while i < |scan| && |handed| < POLL_BATCH_SIZE
        invariant i <= |scan| && |handed| <= POLL_BATCH_SIZE
        invariant holds(tasks, plans, stale, i, handed, events)
      {
        stale, handed, events := ServeNext(scan, i, node, supported, now, p, stale, handed, s, events, t, plans0, holds);
        i := i + 1;
      }
    }

    /** Serves the rows of a scan and then brings the plans up to date. */
    method ServeScan(scan: seq<nat>, node: nat, supported: Kind -> bool, now: int, p: nat, ghost s: System, ghost past: seq<Event>)
      returns (handed: seq<Handout>, ghost events: seq<Event>)
      requires Valid() && IsScan(tasks, node, scan)
      requires Serves(s, past, tasks, p, node, []) && s.now == now
      modifies this`tasks, this`plans
      ensures Valid() && PlansEvolve(old(plans), plans) && Evolves(old(tasks), tasks) && OnlySettles(old(tasks), tasks)
      ensures Serves(s, events, tasks, p, node, handed)
      ensures PollDoes(old(tasks), tasks, node, supported, now, p, handed)
    {
      GoingStarts(tasks, plans, scan, node, supported, now, p);
      ghost var holds := StateOf(s, tasks, plans, scan, node, supported, now, p);
      var i, stale;
      i, stale, handed, events := ServeRows(scan, node, supported, now, p, s, past, tasks, plans, holds);
      GoingEnds(old(tasks), old(plans), tasks, plans, stale, scan, i, node, supported, now, p, handed);
      SettlePlans(stale, old(tasks), old(plans));
    }

    /** Brings the plans still out of step at the end of a poll up to date. */
    method SettlePlans(stale: set<nat>, ghost t: Table, ghost plans0: PlanTable)
      requires PlansAgree(t, plans0, {}) && Evolves(t, tasks) && tasks.Keys == t.Keys
      requires PlansAgree(tasks, plans, stale) && AllFailed(tasks, plans, stale) && OnlyPlansWithTasks(tasks, plans0, plans)
      modifies this`plans
      ensures PlansAgree(tasks, plans, {}) && PlansEvolve(plans0, plans)
    {
      ghost var plans1 := plans;
      UpdatePlans(stale);
      OnlyPlansCompose(tasks, tasks, plans0, plans1, plans);
      AgreementEvolves(t, tasks, plans0, plans);
    }

    /**
    One poll of a node. After the sweeps it serves the first fifty pending rows in order, up
    to five handouts: a row that is due is handed out, or five in front of it are. The whole
    handler is a run of protocol events, and when the node is idle and its pending rows fit
    the scan, it moves some row.
     */
    method Poll(node: nat, supported: Kind -> bool, now: int, p: nat, ghost s: System)
      returns (handed: seq<Handout>, ghost events: seq<Event>)
      requires Valid()
      requires s.tasks == tasks && s.now == now && p in s.polls && s.polls[p] == PollSession(node, None, [])
      modifies this`tasks, this`plans
      ensures Valid() && PlansEvolve(old(plans), plans) && OnlySettles(old(tasks), tasks)
      ensures |handed| <= 5
      ensures Legal(s, events) && After(s, events) == Polled(s, tasks, p, node, handed)
      ensures var swept := Swept(old(tasks), node, now);
        && PollDoes(swept, tasks, node, supported, now, p, handed)
        && (forall id :: Due(swept, node, supported, id) && id !in HandedIds(handed) ==>
              |handed| == 5 && forall h :: h in handed ==> Precedes(swept, h.task, id))
      ensures PollMustMove(old(tasks), node, supported) ==> SomeStatusChanged(old(tasks), tasks)
    {
      events := Sweep(node, now, p, s);
      ghost var t, plans1 := tasks, plans;
      var scan := ScanPending(tasks, node);
      handed, events := ServeScan(scan, node, supported, now, p, s, events);
      PlansEvolveTransitive(old(plans), plans1, plans);
      OnlySettlesTransitive(old(tasks), t, tasks);
      DueRowsAreHanded(t, tasks, node, supported, now, p, handed);
      if PollMustMove(old(tasks), node, supported) {
        if t == old(tasks) {
          PollMoves(t, tasks, node, supported, now, p, handed);
        } else {
          ChangeStays(old(tasks), t, tasks);
        }
      }
    }

    /** Cancels the pending rows that a stop or delete supersedes. */
    method CancelPending(superseded: set<nat>, reason: Result)
      requires Valid()
      modifies this`tasks, this`plans
      ensures Valid() && PlansEvolve(old(plans), plans)
      ensures tasks == Closed(old(tasks), superseded, Pending, Cancelled, row => reason)
      ensures Evolves(old(tasks), tasks) && OnlySettles(old(tasks), tasks)
    {
      CloseRows(superseded, Pending, Cancelled, row => reason);
    }

    /** Writes a final status into a running row and brings its plan up to date. */
    method FinishRow(id: nat, final: Status, result: Result)
      requires Valid() && id in tasks && tasks[id].status.Running? && final.Terminal()
      modifies this`tasks, this`plans
      ensures Valid() && PlansEvolve(old(plans), plans)
      ensures tasks == Finish(old(tasks), id, final, result) && Evolves(old(tasks), tasks) && OnlySettles(old(tasks), tasks)
    {
      FinishKeepsPlans(tasks, id, final, result, plans);
      var plan := tasks[id].plan;
      tasks := Finish(tasks, id, final, result);
      plans := PlansAfter(tasks, plans, plan);
    }

    /**
    An agent's report. Only the first valid report of a running row is applied;
    a repetition of the recorded outcome is acknowledged, any other is refused.
     */
    method TaskResult(id: nat, node: nat, reported: Status, result: Result, valid: bool, demoted: bool, invalid: Result)
      returns (response: Response, applied: bool)
      requires Valid() && reported.Terminal()
      modifies this`tasks, this`plans
      ensures Valid() && PlansEvolve(old(plans), plans) && Evolves(old(tasks), tasks) && OnlySettles(old(tasks), tasks)
      ensures var found := id in old(tasks) && old(tasks)[id].node == node;
        var final := if reported.Succeeded? && demoted then Failed else reported;
        && (response.NotFound? <==> !found)
        && (response.Invalid? <==> found && !valid)
        && (response.Recorded? <==> found && valid && (old(tasks)[id].status.Running? || old(tasks)[id].status == final))
        && (applied <==> found && valid && old(tasks)[id].status.Running?)
        && tasks == (if applied then Finish(old(tasks), id, final, result)
                     else if found && !valid && old(tasks)[id].status.Running? then Finish(old(tasks), id, Failed, invalid)
                     else old(tasks))
      ensures forall s: System | s.tasks == old(tasks) && !reported.Cancelled? ::
        var recorded := Record(s, Report(id, node, reported.Succeeded?, result), valid, demoted, if valid then result else invalid);
        recorded.tasks == tasks && (applied <==> recorded.effects == s.effects + [id])
    {
      applied := false;
      if id !in tasks || tasks[id].node != node {
        return NotFound, false;
      }
      if !valid {
        if tasks[id].status.Running? {
          FinishRow(id, Failed, invalid);
        }
        return Invalid, false;
      }
      var final := if reported.Succeeded? && demoted then Failed else reported;
      if !tasks[id].status.Running? {
        return if tasks[id].status == final then Recorded else Conflict, false;
      }
      FinishRow(id, final, result);
      return Recorded, true;
    }

    /**
    The conditional update of a confirmation and what follows it. The update decides who
    creates the rows; a rename adds a stop and a delete of the old interface in front, each
    row depending on the one before.
     */
    method ClaimPlan(plan: nat, node: nat, kind: Kind, payload: Payload, previous: Option<Payload>) returns (ids: seq<nat>)
      requires Valid() && payload.Fields? && (previous.Some? ==> previous.value.Fields?)
      modifies this
      ensures Valid() && PlansEvolve(old(plans), plans) && Evolves(old(tasks), tasks)
      ensures !(plan in old(plans) && old(plans)[plan].Draft?) ==> ids == [] && tasks == old(tasks) && plans == old(plans)
      ensures plan in old(plans) && old(plans)[plan].Draft? ==>
        && plans == old(plans)[plan := Confirmed]
        && ids == (if previous.Some? then [old(nextId), old(nextId) + 1, old(nextId) + 2] else [old(nextId)])
        && tasks == old(tasks) + PlanRows(old(nextId), plan, node, kind, payload, previous)
    {
      if plan !in plans || !plans[plan].Draft? {
        return [];
      }
      var first := nextId;
      ghost var rows := PlanRows(first, plan, node, kind, payload, previous);
      PlanRowsAreNew(tasks, first, plan, node, kind, payload, previous);
      ConfirmedAgrees(tasks, rows, first, plans, plan);
      plans := plans[plan := Confirmed];
      ids := CreateTasks(plan, node, kind, payload, previous);
      nextId := first + |ids|;
    }

    /**
    A confirmation with nothing in between: the checks, then the conditional update. Whether
    the plan's content, node and interface admit it is decided elsewhere.
     */
    method ConfirmPlan(plan: nat, admissible: bool, node: nat, kind: Kind, payload: Payload, previous: Option<Payload>)
      returns (reply: ConfirmReply)
      requires Valid() && payload.Fields? && (previous.Some? ==> previous.value.Fields?)
      modifies this
      ensures Valid() && PlansEvolve(old(plans), plans) && Evolves(old(tasks), tasks)
      ensures reply.UnknownPlan? <==> plan !in old(plans)
      ensures reply.NotADraft? <==> plan in old(plans) && !old(plans)[plan].Draft?
      ensures reply.NotAdmissible? <==> plan in old(plans) && old(plans)[plan].Draft? && !admissible
      ensures !reply.Accepted? ==> tasks == old(tasks) && plans == old(plans)
      ensures reply.Accepted? ==>
        && plans == old(plans)[plan := Confirmed]
        && tasks == old(tasks) + PlanRows(old(nextId), plan, node, kind, payload, previous)
        && reply.ids == (if previous.Some? then [old(nextId), old(nextId) + 1, old(nextId) + 2] else [old(nextId)])
    {
      if plan !in plans {
        return UnknownPlan;
      }
      if !plans[plan].Draft? {
        return NotADraft;
      }
      if !admissible {
        return NotAdmissible;
      }
      var ids := ClaimPlan(plan, node, kind, payload, previous);
      return Accepted(ids);
    }

    /** Adds the rows of a plan to the table. */
    method CreateTasks(plan: nat, node: nat, kind: Kind, payload: Payload, previous: Option<Payload>) returns (ids: seq<nat>)
      requires payload.Fields? && (previous.Some? ==> previous.value.Fields?)
      modifies this`tasks
      ensures ids == if previous.Some? then [nextId, nextId + 1, nextId + 2] else [nextId]
      ensures tasks == old(tasks) + PlanRows(nextId, plan, node, kind, payload, previous)
    {
      if previous.None? {
        tasks := tasks[nextId := PlanRow(plan, node, kind, payload)];
        return [nextId];
      }
      var stop, delete, apply := nextId, nextId + 1, nextId + 2;
      tasks := tasks[stop := PlanRow(plan, node, WgStop, previous.value)];
      tasks := tasks[delete := PlanRow(plan, node, WgDelete, previous.value.(dependsOn := Integer(stop)))];
      tasks := tasks[apply := PlanRow(plan, node, kind, payload.(dependsOn := Integer(delete)))];
      return [stop, delete, apply];
    }

  }

}
