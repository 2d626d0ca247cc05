/**
Change plans: the status a plan takes from the tasks that carry its id, and the
two ways the code computes it.
 */
module Plans {

  import opened Wrappers
  import opened Tasks

  datatype PlanStatus = Draft | Confirmed | PlanSucceeded | PlanFailed | PlanCancelled

  type PlanTable = map<nat, PlanStatus>

  predicate InPlan(t: Table, id: nat, plan: nat) {
    id in t && t[id].plan == Some(plan)
  }

  predicate HasTasks(t: Table, plan: nat) {
    exists id | id in t :: InPlan(t, id, plan)
  }

  predicate SomeTaskFailed(t: Table, plan: nat) {
    exists id | id in t :: InPlan(t, id, plan) && (t[id].status.Failed? || t[id].status.Cancelled?)
  }

  predicate AllTasksSucceeded(t: Table, plan: nat) {
    forall id | id in t :: InPlan(t, id, plan) ==> t[id].status.Succeeded?
  }

  /** The update of a plan after one of its tasks changed; a failed plan stays failed. */
  function Aggregate(t: Table, plan: nat, current: PlanStatus): PlanStatus {
    if SomeTaskFailed(t, plan) then PlanFailed
    else if HasTasks(t, plan) && AllTasksSucceeded(t, plan) then PlanSucceeded
    else if !current.PlanFailed? then Confirmed
    else current
  }

  /** What the status of a plan says about its tasks. */
  ghost predicate Agrees(t: Table, plan: nat, status: PlanStatus) {
    && (status.PlanFailed? <==> SomeTaskFailed(t, plan))
    && (status.PlanSucceeded? <==> HasTasks(t, plan) && AllTasksSucceeded(t, plan))
    && (status.Confirmed? <==> HasTasks(t, plan) && !SomeTaskFailed(t, plan) && !AllTasksSucceeded(t, plan))
  }

  /** Every plan outside `stale` agrees with its tasks, and every task's plan exists. */
  ghost predicate PlansAgree(t: Table, plans: PlanTable, stale: set<nat>) {
    && (forall id :: id in t && t[id].plan.Some? ==> t[id].plan.value in plans)
    && (forall p :: p in plans && p !in stale ==> Agrees(t, p, plans[p]))
  }

  /** Confirmation leaves draft once; success and failure are never left. */
  ghost predicate PlansEvolve(before: PlanTable, after: PlanTable) {
    forall p :: p in before ==>
      && p in after
      && (before[p].PlanSucceeded? || before[p].PlanFailed? || before[p].PlanCancelled? ==> after[p] == before[p])
      && (!before[p].Draft? ==> !after[p].Draft?)
  }

  /** A plan depends on nothing but whether each of its tasks failed and whether each succeeded. */
  lemma AgreesFrame(t: Table, u: Table, plan: nat, status: PlanStatus)
    requires Agrees(t, plan, status) && u.Keys == t.Keys
    requires forall id :: id in t ==> t[id].plan == u[id].plan
    requires forall id :: InPlan(t, id, plan) ==>
               (t[id].status.Succeeded? <==> u[id].status.Succeeded?)
               && (t[id].status.Failed? || t[id].status.Cancelled? <==> u[id].status.Failed? || u[id].status.Cancelled?)
    ensures Agrees(u, plan, status)
  {
    assert SomeTaskFailed(t, plan) ==> SomeTaskFailed(u, plan);
    assert SomeTaskFailed(u, plan) ==> SomeTaskFailed(t, plan);
    assert HasTasks(t, plan) ==> HasTasks(u, plan);
    assert HasTasks(u, plan) ==> HasTasks(t, plan);
  }

  /** Recomputing the status of a plan that has tasks brings it into agreement. */
  lemma AggregateAgrees(t: Table, plan: nat, current: PlanStatus)
    requires HasTasks(t, plan)
    requires current.PlanFailed? ==> SomeTaskFailed(t, plan)
    ensures Agrees(t, plan, Aggregate(t, plan, current))
  {
    if SomeTaskFailed(t, plan) {
      var id :| id in t && InPlan(t, id, plan) && (t[id].status.Failed? || t[id].status.Cancelled?);
      assert !AllTasksSucceeded(t, plan);
    }
  }

  /** Two agreeing tables of which the second is the later one keep final plan statuses. */
  lemma AgreementKeepsFinal(t: Table, u: Table, plan: nat, before: PlanStatus, after: PlanStatus)
    requires Agrees(t, plan, before) && Agrees(u, plan, after) && Proceeds(t, u)
    requires forall id :: InPlan(u, id, plan) && !before.Draft? ==> id in t
    requires before.PlanSucceeded? || before.PlanFailed?
    ensures after == before
  {
    if before.PlanFailed? {
      var id :| id in t && InPlan(t, id, plan) && (t[id].status.Failed? || t[id].status.Cancelled?);
      assert InPlan(u, id, plan);
    } else {
      var id :| id in t && InPlan(t, id, plan);
      assert InPlan(u, id, plan);
      forall id | InPlan(u, id, plan) ensures u[id].status.Succeeded? {
        assert InPlan(t, id, plan);
      }
    }
  }

  // ------------------------------------------- the status shown for a plan

  /** The first of `ids` whose row has the given status. */
  function FirstWith(t: Table, ids: seq<nat>, status: Status): (f: Option<nat>)
    requires forall id :: id in ids ==> id in t
    ensures f.Some? ==> f.value in ids && t[f.value].status == status
    ensures f.None? ==> forall id :: id in ids ==> t[id].status != status
  {
    if ids == [] then None
    else if t[ids[0]].status == status then Some(ids[0])
    else FirstWith(t, ids[1..], status)
  }

  /** How much a status tells about what is wrong or still to do. */
  function Urgency(status: Status): nat {
    match status
    case Failed => 4
    case Cancelled => 3
    case Running => 2
    case Pending => 1
    case Succeeded => 0
  }

  /** The row shown for a plan: a failure first, then unfinished work, else the last row. */
  function StatusTask(t: Table, ids: seq<nat>): (shown: Option<nat>)
    requires forall id :: id in ids ==> id in t
    ensures shown.None? <==> ids == []
    ensures shown.Some? ==> shown.value in ids && forall id :: id in ids ==> Urgency(t[id].status) <= Urgency(t[shown.value].status)
    ensures shown.Some? && Urgency(t[shown.value].status) == 0 ==> shown.value == ids[|ids| - 1]
  {
    if ids == [] then None
    else if FirstWith(t, ids, Failed).Some? then FirstWith(t, ids, Failed)
    else if FirstWith(t, ids, Cancelled).Some? then FirstWith(t, ids, Cancelled)
    else if FirstWith(t, ids, Running).Some? then FirstWith(t, ids, Running)
    else if FirstWith(t, ids, Pending).Some? then FirstWith(t, ids, Pending)
    else Some(ids[|ids| - 1])
  }

  /** The row shown for a plan and the aggregated status of the plan always tell the same story. */
  lemma StatusTaskAgrees(t: Table, plan: nat, status: PlanStatus, ids: seq<nat>)
    requires Agrees(t, plan, status)
    requires forall id :: id in ids ==> id in t
    requires forall id :: id in ids <==> InPlan(t, id, plan)
    ensures StatusTask(t, ids).None? <==> !HasTasks(t, plan)
    ensures StatusTask(t, ids).Some? ==>
      var shown := t[StatusTask(t, ids).value].status;
      && (status.PlanFailed? <==> shown.Failed? || shown.Cancelled?)
      && (status.PlanSucceeded? <==> shown.Succeeded?)
      && (status.Confirmed? <==> shown.Running? || shown.Pending?)
  {
    if ids == [] {
      assert !HasTasks(t, plan);
    } else {
      assert ids[0] in ids && InPlan(t, ids[0], plan) && ids[|ids| - 1] in ids;
    }
  }

}
