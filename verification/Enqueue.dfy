/**
Deduplicating enqueue of GRE endpoint tasks: reuse or refresh the pending row,
queue after the running one, or insert under the unique index.
 */
module Enqueue {

  import opened Wrappers
  import opened Tasks
  import opened Protocol
  import opened Keys
  import opened Plans
  import opened Controller

  /** The row with the largest id. */
  method Newest(ids: set<nat>) returns (newest: Option<nat>)
    ensures newest.None? <==> ids == {}
    ensures newest.Some? ==> newest.value in ids && forall id :: id in ids ==> id <= newest.value
  {
    newest := None;
    var rest := ids;
    while rest != {}
      invariant rest <= ids
      invariant newest.None? ==> rest == ids
      invariant newest.Some? ==> newest.value in ids && forall id :: id in ids ==> id in rest || id <= newest.value
      decreases rest
    {
      var id :| id in rest;
      rest := rest - {id};
      if newest.None? || newest.value < id {
        newest := Some(id);
      }
    }
  }

  function EndpointTask(node: nat, endpoint: int, kind: Kind, p: Payload): Task
    requires IsGre(kind)
  {
    Task(node, None, kind, p, Control, 100, Pending, None, None, Some(EndpointKey(endpoint, kind)), None)
  }

  lemma EndpointTaskFits(node: nat, endpoint: int, kind: Kind, p: Payload)
    requires IsGre(kind) && p.Fields? && p.subject == Some(endpoint)
    ensures RowFits(EndpointTask(node, endpoint, kind, p))
  {
    var row := EndpointTask(node, endpoint, kind, p);
    forall e, k | IsGre(k) ensures ForEndpoint(row, e, k) <==> row.dedup == Some(EndpointKey(e, k)) {
      if EndpointKey(endpoint, kind) == EndpointKey(e, k) {
        EndpointKeyInjective(endpoint, kind, e, k);
      }
    }
  }

  /** When no pending row serves the endpoint, the index accepts the new one. */
  lemma NoPendingMeansKeyFree(t: Table, endpoint: int, kind: Kind)
    requires KeysFit(t) && IsGre(kind)
    ensures EndpointRows(t, endpoint, kind, Pending) == {} <==> KeyIsFree(t, Some(EndpointKey(endpoint, kind)))
  {
    forall x | x in t && t[x].status.Pending?
      ensures t[x].dedup == Some(EndpointKey(endpoint, kind)) <==> x in EndpointRows(t, endpoint, kind, Pending)
    {
      assert RowFits(t[x]);
      assert ForEndpoint(t[x], endpoint, kind) <==> t[x].dedup == Some(EndpointKey(endpoint, kind));
    }
  }

  lemma RefreshKeepsPlans(t: Table, id: nat, payload: Payload, plans: PlanTable)
    requires PlansAgree(t, plans, {}) && id in t
    ensures PlansAgree(t[id := t[id].(payload := payload)], plans, {})
  {
    forall p | p in plans ensures Agrees(t[id := t[id].(payload := payload)], p, plans[p]) {
      AgreesFrame(t, t[id := t[id].(payload := payload)], p, plans[p]);
    }
  }

  lemma InsertKeepsPlans(t: Table, id: nat, row: Task, plans: PlanTable)
    requires PlansAgree(t, plans, {}) && id !in t && row.plan.None?
    ensures PlansAgree(t[id := row], plans, {})
  {
    var u := t[id := row];
    forall p | p in plans ensures Agrees(u, p, plans[p]) {
      assert Agrees(t, p, plans[p]);
      assert forall x :: InPlan(u, x, p) ==> InPlan(t, x, p) && u[x] == t[x];
      assert forall x :: InPlan(t, x, p) ==> InPlan(u, x, p) && u[x] == t[x];
    }
  }

  method RefreshPending(c: Controller, id: nat, endpoint: int, kind: Kind, payload: Payload)
    requires c.Valid() && KeysFit(c.tasks) && id in EndpointRows(c.tasks, endpoint, kind, Pending)
    requires payload.Fields? && payload.subject == Some(endpoint)
    modifies c`tasks
    ensures c.Valid() && KeysFit(c.tasks)
    ensures c.tasks == old(c.tasks)[id := old(c.tasks)[id].(payload := payload)]
  {
    RefreshKeepsKeys(c.tasks, id, payload);
    RefreshKeepsPlans(c.tasks, id, payload, c.plans);
    c.tasks := c.tasks[id := c.tasks[id].(payload := payload)];
  }

  method InsertTask(c: Controller, node: nat, endpoint: int, kind: Kind, payload: Payload) returns (id: nat)
    requires c.Valid() && KeysFit(c.tasks) && EndpointRows(c.tasks, endpoint, kind, Pending) == {}
    requires IsGre(kind) && payload.Fields? && payload.subject == Some(endpoint)
    modifies c`tasks, c`nextId
    ensures c.Valid() && KeysFit(c.tasks)
    ensures id == old(c.nextId) && c.nextId == id + 1
    ensures c.tasks == old(c.tasks)[id := EndpointTask(node, endpoint, kind, payload)]
  {
    id := c.nextId;
    NoPendingMeansKeyFree(c.tasks, endpoint, kind);
    EndpointTaskFits(node, endpoint, kind, payload);
    InsertKeepsKeys(c.tasks, id, EndpointTask(node, endpoint, kind, payload));
    InsertKeepsPlans(c.tasks, id, EndpointTask(node, endpoint, kind, payload), c.plans);
    c.tasks := c.tasks[id := EndpointTask(node, endpoint, kind, payload)];
    c.nextId := id + 1;
  }

  /** The payload of a new row: it follows the newest running row, unless it already follows another. */
  ghost predicate QueuedBehind(p: Payload, wanted: Payload, running: set<nat>) {
    if wanted.Fields? && p.Fields? && wanted.dependsOn == Missing && running != {} then
      exists r: nat :: r in running && p == wanted.(dependsOn := Integer(r)) && forall x :: x in running ==> x <= r
    else p == wanted
  }

  /** What enqueueing one task of an endpoint does to the table. */
  ghost predicate Enqueued(t: Table, u: Table, id: nat, node: nat, endpoint: int, kind: Kind, payload: Payload,
                           updatePending: bool, queueAfterRunning: bool)
    requires IsGre(kind)
  {
    var pending, running := EndpointRows(t, endpoint, kind, Pending), EndpointRows(t, endpoint, kind, Running);
    if pending != {} then
      pending == {id} && u == if updatePending then t[id := t[id].(payload := payload)] else t
    else if running != {} && !queueAfterRunning then
      id in running && (forall x :: x in running ==> x <= id) && u == t
    else
      && id !in t && id in u && u == t[id := EndpointTask(node, endpoint, kind, u[id].payload)]
      && QueuedBehind(u[id].payload, payload, running)
  }

  /** Creates, refreshes or reuses the task of one kind for an endpoint. */
  method CreateEndpointTask(c: Controller, node: nat, endpoint: int, kind: Kind, payload: Payload,
                            updatePending: bool, queueAfterRunning: bool)
    returns (id: nat)
    requires c.Valid() && KeysFit(c.tasks) && IsGre(kind)
    requires payload.Fields? && payload.subject == Some(endpoint)
    modifies c`tasks, c`nextId
    ensures c.Valid() && KeysFit(c.tasks) && id < c.nextId
    ensures Enqueued(old(c.tasks), c.tasks, id, node, endpoint, kind, payload, updatePending, queueAfterRunning)
  {
    var pending := EndpointRows(c.tasks, endpoint, kind, Pending);
    if pending != {} {
      id :| id in pending;
      forall x | x in pending ensures x == id {
        OnePendingPerEndpoint(c.tasks, endpoint, kind, x, id);
      }
      assert pending == {id};
      if updatePending {
        RefreshPending(c, id, endpoint, kind, payload);
      }
      return;
    }
    var running := Newest(EndpointRows(c.tasks, endpoint, kind, Running));
    if running.Some? && !queueAfterRunning {
      return running.value;
    }
    var merged := payload;
    if running.Some? && payload.dependsOn == Missing {
      merged := payload.(dependsOn := Integer(running.value));
    }
    id := InsertTask(c, node, endpoint, kind, merged);
  }

  /** After a refreshing, queueing enqueue the row is the endpoint's only pending row of its kind. */
  lemma EnqueuedIsOnlyPending(t: Table, u: Table, id: nat, node: nat, endpoint: int, kind: Kind, payload: Payload)
    requires IsGre(kind) && payload.Fields? && payload.subject == Some(endpoint)
    requires Enqueued(t, u, id, node, endpoint, kind, payload, true, true)
    requires payload.dependsOn == Missing ==> EndpointRows(t, endpoint, kind, Running) == {}
    ensures id in u && u[id].payload == payload && EndpointRows(u, endpoint, kind, Pending) == {id}
    ensures id !in t ==> u[id] == Task(node, None, kind, payload, Control, 100, Pending, None, None, u[id].dedup, None) && u[id].dedup.Some?
    ensures forall x :: x in t && x != id ==> x in u && u[x] == t[x]
    ensures forall k, status | k != kind :: EndpointRows(u, endpoint, k, status) == EndpointRows(t, endpoint, k, status)
    ensures Evolves(t, u)
  {
    forall x ensures x in EndpointRows(u, endpoint, kind, Pending) <==> x == id {
      assert x != id ==> (x in EndpointRows(u, endpoint, kind, Pending) <==> x in EndpointRows(t, endpoint, kind, Pending));
    }
    assert u[id].kind == kind;
    forall k, status | k != kind
      ensures EndpointRows(u, endpoint, k, status) == EndpointRows(t, endpoint, k, status)
    {
      assert forall x :: x in EndpointRows(u, endpoint, k, status) <==> x in EndpointRows(t, endpoint, k, status);
    }
  }

  function RunningRows(t: Table, endpoint: int): set<nat> {
    EndpointRows(t, endpoint, GreApply, Running)
    + EndpointRows(t, endpoint, GreStart, Running)
    + EndpointRows(t, endpoint, GreStop, Running)
  }

  /**
  Deploys and starts an endpoint: one pending apply and one pending start, both
  with the current configuration, the start after the apply and the apply after
  whatever is running for the endpoint.
   */
  method EnqueueApplyAndStart(c: Controller, node: nat, endpoint: int, config: Payload) returns (apply: nat, start: nat)
    requires c.Valid() && KeysFit(c.tasks)
    requires config.Fields? && config.subject == Some(endpoint) && config.dependsOn == Missing
    modifies c`tasks, c`nextId
    ensures c.Valid() && KeysFit(c.tasks) && Evolves(old(c.tasks), c.tasks)
    ensures EndpointRows(c.tasks, endpoint, GreApply, Pending) == {apply} && EndpointRows(c.tasks, endpoint, GreStart, Pending) == {start}
    ensures var running := RunningRows(old(c.tasks), endpoint);
      if running == {} then c.tasks[apply].payload == config
      else exists r: nat :: r in running && (forall x :: x in running ==> x <= r) && c.tasks[apply].payload == config.(dependsOn := Integer(r))
    ensures c.tasks[start].payload == config.(dependsOn := Integer(apply)) && DependencyId(c.tasks[start].payload) == Some(apply)
    ensures forall x :: x in old(c.tasks) && x != apply && x != start ==> x in c.tasks && c.tasks[x] == old(c.tasks)[x]
  {
    var running := Newest(RunningRows(c.tasks, endpoint));
    var wanted := if running.Some? then config.(dependsOn := Integer(running.value)) else config;
    apply := CreateEndpointTask(c, node, endpoint, GreApply, wanted, true, true);
    EnqueuedIsOnlyPending(old(c.tasks), c.tasks, apply, node, endpoint, GreApply, wanted);
    ghost var t := c.tasks;
    var after := config.(dependsOn := Integer(apply));
    start := CreateEndpointTask(c, node, endpoint, GreStart, after, true, true);
    EnqueuedIsOnlyPending(t, c.tasks, start, node, endpoint, GreStart, after);
    EvolvesTransitive(old(c.tasks), t, c.tasks);
    assert apply in EndpointRows(c.tasks, endpoint, GreApply, Pending);
    assert start in EndpointRows(c.tasks, endpoint, GreStart, Pending);
  }

  // ---------------------------------------------------------------- keys and the handlers

  /** Confirming a plan, which is never about an endpoint, keeps the keys in place; all other handlers only settle rows. */
  lemma ConfirmKeepsKeys(t: Table, first: nat, plan: nat, node: nat, kind: Kind, payload: Payload, previous: Option<Payload>)
    requires KeysFit(t) && !IsGre(kind) && payload.Fields? && (previous.Some? ==> previous.value.Fields?)
    requires forall id :: id in t ==> 0 < id < first
    ensures KeysFit(t + PlanRows(first, plan, node, kind, payload, previous))
  {
    var rows := PlanRows(first, plan, node, kind, payload, previous);
    PlanRowsAreNew(t, first, plan, node, kind, payload, previous);
    forall id | id in rows ensures RowFits(rows[id]) && rows[id].dedup.None? {
    }
  }

}
