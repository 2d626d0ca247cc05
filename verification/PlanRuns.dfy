/**
Change plans over whole runs: the protocol with the plans its events bring up to date, and
confirmations whose check and conditional update are two steps with anything in between.
 */
module PlanRuns {

  import opened Wrappers
  import opened Tasks
  import opened Protocol
  import opened ProtocolSafety
  import opened Plans
  import opened Controller

  // ------------------------------------------------------------------------- the machine

  datatype Phase = SawDraft | Created(first: nat) | Refused

  /** A confirmation that has read the plan as a draft, and what it is going to create. */
  datatype Confirmation = Confirmation(plan: nat, node: nat, kind: Kind, payload: Payload, previous: Option<Payload>, phase: Phase)

  datatype PlanWorld = PlanWorld(sys: System, plans: PlanTable, confirms: map<nat, Confirmation>)

  const START := PlanWorld(INITIAL, map[], map[])

  predicate CanCreate(c: Confirmation) {
    c.payload.Fields? && (c.previous.Some? ==> c.previous.value.Fields?)
  }

  function RowsOf(c: Confirmation): Table
    requires CanCreate(c) && c.phase.Created?
  {
    PlanRows(c.phase.first, c.plan, c.node, c.kind, c.payload, c.previous)
  }

  /** Some row of the plan has reached a final status. */
  predicate RowClosed(t: Table, u: Table, plan: nat) {
    exists id | id in t :: InPlan(t, id, plan) && id in u && t[id].status != u[id].status && u[id].status.Terminal()
  }

  /** The plans after a write to the table: those of the rows that were closed are recomputed. */
  function PlansFollow(t: Table, u: Table, plans: PlanTable): PlanTable {
    map p | p in plans :: if RowClosed(t, u, p) then Aggregate(u, p, plans[p]) else plans[p]
  }

  datatype Move =
    | Write(event: Event)               // any event of the protocol
    | Draw(plan: nat)                   // a new draft
    | Discard(plan: nat)                // a draft is cancelled with its interface
    | Check(r: nat, confirm: Confirmation)
    | Claim(r: nat, first: nat)         // the conditional update, and the rows if it succeeds

  ghost predicate CanMove(w: PlanWorld, m: Move) {
    match m
    case Write(e) => Enabled(w.sys, e) && (e.Insert? ==> e.row.plan.None?)
    case Draw(p) => p !in w.plans
    case Discard(p) => p in w.plans && w.plans[p].Draft?
    case Check(r, c) => r !in w.confirms && CanCreate(c) && c.phase.SawDraft? && c.plan in w.plans && w.plans[c.plan].Draft?
    case Claim(r, first) =>
      && r in w.confirms && CanCreate(w.confirms[r]) && w.confirms[r].phase.SawDraft?
      && first > 0 && forall id :: id in w.sys.tasks ==> id < first
  }

  ghost function ClaimMoved(w: PlanWorld, r: nat, first: nat): PlanWorld
    requires CanMove(w, Claim(r, first))
  {
    var c := w.confirms[r];
    if c.plan in w.plans && w.plans[c.plan].Draft? then
      var made := c.(phase := Created(first));
      PlanWorld(w.sys.(tasks := w.sys.tasks + RowsOf(made)), w.plans[c.plan := Confirmed], w.confirms[r := made])
    else w.(confirms := w.confirms[r := c.(phase := Refused)])
  }

  ghost function Moved(w: PlanWorld, m: Move): PlanWorld
    requires CanMove(w, m)
  {
    match m
    case Write(e) =>
      var sys := Apply(w.sys, e);
      w.(sys := sys, plans := PlansFollow(w.sys.tasks, sys.tasks, w.plans))
    case Draw(p) => w.(plans := w.plans[p := Draft])
    case Discard(p) => w.(plans := w.plans[p := PlanCancelled])
    case Check(r, c) => w.(confirms := w.confirms[r := c])
    case Claim(r, first) => ClaimMoved(w, r, first)
  }

  // ----------------------------------------------------------------------- the invariant

  ghost predicate Unconfirmed(status: PlanStatus) {
    status.Draft? || status.PlanCancelled?
  }

  ghost predicate CreatedBy(w: PlanWorld, r: nat, p: nat) {
    r in w.confirms && w.confirms[r].plan == p && w.confirms[r].phase.Created?
  }

  /** The confirmations of a plan: none has created rows while it is unconfirmed, and otherwise exactly one has. */
  ghost predicate OneCreator(w: PlanWorld, p: nat)
    requires p in w.plans
  {
    && (forall i, j :: CreatedBy(w, i, p) && CreatedBy(w, j, p) ==> i == j)
    && (Unconfirmed(w.plans[p]) <==> forall r :: !CreatedBy(w, r, p))
  }

  /** The rows of a plan are those its creator made, each once and in place. */
  ghost predicate RowsMadeOnce(w: PlanWorld) {
    && (forall id :: id in w.sys.tasks && w.sys.tasks[id].plan.Some? ==>
          exists r :: CreatedBy(w, r, w.sys.tasks[id].plan.value) && CanCreate(w.confirms[r]) && id in RowsOf(w.confirms[r]))
    && (forall r :: r in w.confirms && w.confirms[r].phase.Created? && CanCreate(w.confirms[r]) ==>
          forall id :: id in RowsOf(w.confirms[r]) ==>
            id in w.sys.tasks && SameIdentity(RowsOf(w.confirms[r])[id], w.sys.tasks[id]))
  }

  ghost predicate ConfirmsOk(w: PlanWorld) {
    forall r :: r in w.confirms ==>
      && CanCreate(w.confirms[r]) && w.confirms[r].plan in w.plans
      && (w.confirms[r].phase.Refused? ==> !w.plans[w.confirms[r].plan].Draft?)
  }

  ghost predicate WorldOk(w: PlanWorld) {
    && Reachable(w.sys) && PlansAgree(w.sys.tasks, w.plans, {}) && ConfirmsOk(w) && RowsMadeOnce(w)
    && forall p :: p in w.plans ==> OneCreator(w, p)
  }

  // ----------------------------------------------------------------------- task events

  /** When no row of a plan is closed, its status still agrees; when one is, recomputing brings it into agreement. */
  lemma FollowAgrees(t: Table, u: Table, p: nat, status: PlanStatus)
    requires Agrees(t, p, status) && Proceeds(t, u)
    requires forall id :: id in u && id !in t ==> u[id].plan.None?
    ensures Agrees(u, p, if RowClosed(t, u, p) then Aggregate(u, p, status) else status)
  {
    if RowClosed(t, u, p) {
      var id :| id in t && InPlan(t, id, p) && id in u && t[id].status != u[id].status && u[id].status.Terminal();
      assert InPlan(u, id, p);
      FailuresStay(t, u, p);
      AggregateAgrees(u, p, status);
    } else {
      SameFinals(t, u, p);
      assert SomeTaskFailed(t, p) <==> SomeTaskFailed(u, p);
      assert HasTasks(t, p) <==> HasTasks(u, p);
      assert AllTasksSucceeded(t, p) <==> AllTasksSucceeded(u, p);
    }
  }

  lemma SameFinals(t: Table, u: Table, p: nat)
    requires Proceeds(t, u) && !RowClosed(t, u, p)
    requires forall id :: id in u && id !in t ==> u[id].plan.None?
    ensures forall id :: InPlan(u, id, p) <==> InPlan(t, id, p)
    ensures forall id :: InPlan(t, id, p) ==> (t[id].status.Terminal() || u[id].status.Terminal() ==> t[id].status == u[id].status)
  {
    forall id | InPlan(t, id, p)
      ensures t[id].status.Terminal() || u[id].status.Terminal() ==> t[id].status == u[id].status
    {
    }
  }

  lemma FollowEvolves(t: Table, u: Table, p: nat, before: PlanStatus, after: PlanStatus)
    requires Agrees(t, p, before) && Agrees(u, p, after) && Proceeds(t, u)
    requires forall id :: id in u && id !in t ==> u[id].plan.None?
    requires after == if RowClosed(t, u, p) then Aggregate(u, p, before) else before
    ensures before.PlanSucceeded? || before.PlanFailed? || before.PlanCancelled? ==> after == before
    ensures Unconfirmed(after) <==> Unconfirmed(before)
    ensures before.Draft? <==> after.Draft?
  {
    if before.PlanSucceeded? || before.PlanFailed? {
      AgreementKeepsFinal(t, u, p, before, after);
    }
    if RowClosed(t, u, p) {
      var id :| id in t && InPlan(t, id, p) && id in u && t[id].status != u[id].status && u[id].status.Terminal();
      assert HasTasks(t, p);
    }
  }

  lemma NewRowsHaveNoPlan(s: System, e: Event)
    requires Enabled(s, e) && (e.Insert? ==> e.row.plan.None?)
    ensures forall id :: id in Apply(s, e).tasks && id !in s.tasks ==> Apply(s, e).tasks[id].plan.None?
  {
    if !e.Insert? {
      EventMovesTable(s, e);
      NothingNew(s, e);
    }
  }

  lemma WritePlans(w: PlanWorld, e: Event)
    requires PlansAgree(w.sys.tasks, w.plans, {}) && CanMove(w, Write(e))
    ensures var w' := Moved(w, Write(e));
      && PlansAgree(w'.sys.tasks, w'.plans, {}) && PlansEvolve(w.plans, w'.plans)
      && forall p :: p in w.plans ==> p in w'.plans && (Unconfirmed(w'.plans[p]) <==> Unconfirmed(w.plans[p])) && (w'.plans[p].Draft? <==> w.plans[p].Draft?)
  {
    var t, u := w.sys.tasks, Apply(w.sys, e).tasks;
    var plans := PlansFollow(t, u, w.plans);
    EventMovesTable(w.sys, e);
    NewRowsHaveNoPlan(w.sys, e);
    forall p | p in w.plans
      ensures Agrees(u, p, plans[p]) && (Unconfirmed(plans[p]) <==> Unconfirmed(w.plans[p])) && (w.plans[p].Draft? <==> plans[p].Draft?)
      ensures w.plans[p].PlanSucceeded? || w.plans[p].PlanFailed? || w.plans[p].PlanCancelled? ==> plans[p] == w.plans[p]
    {
      FollowAgrees(t, u, p, w.plans[p]);
      FollowEvolves(t, u, p, w.plans[p], plans[p]);
    }
    forall id | id in u && u[id].plan.Some? ensures u[id].plan.value in plans {
      assert id in t && SameIdentity(t[id], u[id]);
    }
  }

  lemma WriteRows(w: PlanWorld, e: Event)
    requires RowsMadeOnce(w) && CanMove(w, Write(e))
    ensures RowsMadeOnce(Moved(w, Write(e)))
  {
    var t, w' := w.sys.tasks, Moved(w, Write(e));
    var u := w'.sys.tasks;
    EventMovesTable(w.sys, e);
    NewRowsHaveNoPlan(w.sys, e);
    forall id | id in u && u[id].plan.Some?
      ensures exists r :: CreatedBy(w', r, u[id].plan.value) && CanCreate(w'.confirms[r]) && id in RowsOf(w'.confirms[r])
    {
      assert id in t && t[id].plan == u[id].plan;
      var r :| CreatedBy(w, r, t[id].plan.value) && CanCreate(w.confirms[r]) && id in RowsOf(w.confirms[r]);
      assert CreatedBy(w', r, u[id].plan.value);
    }
  }

  lemma SameCreators(w: PlanWorld, w': PlanWorld, p: nat)
    requires p in w.plans && OneCreator(w, p) && p in w'.plans && (Unconfirmed(w'.plans[p]) <==> Unconfirmed(w.plans[p]))
    requires forall r :: CreatedBy(w', r, p) <==> CreatedBy(w, r, p)
    ensures OneCreator(w', p)
  {
  }

  lemma WriteOk(w: PlanWorld, e: Event)
    requires WorldOk(w) && CanMove(w, Write(e))
    ensures WorldOk(Moved(w, Write(e)))
  {
    var w' := Moved(w, Write(e));
    SingleEvent(w.sys, e);
    ReachableAfter(w.sys, [e]);
    WritePlans(w, e);
    WriteRows(w, e);
    forall p | p in w'.plans ensures OneCreator(w', p) {
      SameCreators(w, w', p);
    }
  }

  // ----------------------------------------------------------------- plans and confirmations

  lemma QuietMoveOk(w: PlanWorld, m: Move)
    requires WorldOk(w) && CanMove(w, m) && (m.Draw? || m.Discard? || m.Check?)
    ensures WorldOk(Moved(w, m))
  {
    var w' := Moved(w, m);
    assert w'.sys == w.sys;
    forall r, p ensures CreatedBy(w', r, p) <==> CreatedBy(w, r, p) {
    }
    forall p | p in w'.plans ensures OneCreator(w', p) && Agrees(w'.sys.tasks, p, w'.plans[p]) {
      if p in w.plans {
        assert Agrees(w.sys.tasks, p, w.plans[p]) && OneCreator(w, p);
      } else {
        NewPlanHasNothing(w, p);
      }
    }
    QuietRows(w, w');
  }

  lemma NewPlanHasNothing(w: PlanWorld, p: nat)
    requires WorldOk(w) && p !in w.plans
    ensures !HasTasks(w.sys.tasks, p) && !SomeTaskFailed(w.sys.tasks, p) && forall r :: !CreatedBy(w, r, p)
  {
  }

  lemma QuietRows(w: PlanWorld, w': PlanWorld)
    requires RowsMadeOnce(w) && w'.sys == w.sys
    requires forall r :: r in w.confirms ==> r in w'.confirms && w'.confirms[r] == w.confirms[r]
    requires forall r :: r in w'.confirms && w'.confirms[r].phase.Created? ==> r in w.confirms
    ensures RowsMadeOnce(w')
  {
    forall id | id in w'.sys.tasks && w'.sys.tasks[id].plan.Some?
      ensures exists r :: CreatedBy(w', r, w'.sys.tasks[id].plan.value) && CanCreate(w'.confirms[r]) && id in RowsOf(w'.confirms[r])
    {
      var r :| CreatedBy(w, r, w.sys.tasks[id].plan.value) && CanCreate(w.confirms[r]) && id in RowsOf(w.confirms[r]);
      assert CreatedBy(w', r, w'.sys.tasks[id].plan.value);
    }
  }

  /** The rows of a plan are inserted by one or three events of the protocol. */
  lemma InsertsReachable(s: System, first: nat, plan: nat, node: nat, kind: Kind, payload: Payload, previous: Option<Payload>)
    requires Reachable(s) && first > 0 && payload.Fields? && (previous.Some? ==> previous.value.Fields?)
    requires forall id :: id in s.tasks ==> id < first
    ensures Reachable(s.(tasks := s.tasks + PlanRows(first, plan, node, kind, payload, previous)))
  {
    var rows := PlanRows(first, plan, node, kind, payload, previous);
    if previous.None? {
      InsertReachable(s, first, rows[first]);
      assert s.tasks + rows == s.tasks[first := rows[first]];
    } else {
      ThreeInsertsReachable(s, first, rows[first], rows[first + 1], rows[first + 2]);
      assert s.tasks + rows == s.tasks[first := rows[first]][first + 1 := rows[first + 1]][first + 2 := rows[first + 2]];
    }
  }

  predicate Insertable(row: Task) {
    row.status.Pending? && row.dedup.None?
  }

  lemma ThreeInsertsReachable(s: System, first: nat, a: Task, b: Task, c: Task)
    requires Reachable(s) && (forall id :: id in s.tasks ==> id < first) && Insertable(a) && Insertable(b) && Insertable(c)
    ensures Reachable(s.(tasks := s.tasks[first := a][first + 1 := b][first + 2 := c]))
  {
    InsertReachable(s, first, a);
    InsertReachable(s.(tasks := s.tasks[first := a]), first + 1, b);
    InsertReachable(s.(tasks := s.tasks[first := a][first + 1 := b]), first + 2, c);
  }

  lemma InsertReachable(s: System, id: nat, row: Task)
    requires Reachable(s) && id !in s.tasks && Insertable(row)
    ensures Reachable(s.(tasks := s.tasks[id := row]))
  {
    SingleEvent(s, Insert(id, row));
    ReachableAfter(s, [Insert(id, row)]);
  }

  /** The new rows belong to the plan, are pending, and were not there before. */
  lemma NewRows(t: Table, c: Confirmation)
    requires CanCreate(c) && c.phase.Created? && forall id :: id in t ==> id < c.phase.first
    ensures var rows := RowsOf(c);
      && c.phase.first in rows && t.Keys !! rows.Keys
      && forall id :: id in rows ==> rows[id].plan == Some(c.plan) && rows[id].status.Pending?
  {
  }

  /** The confirmations that had created rows before are still the creators of theirs. */
  lemma OldRowsKept(w: PlanWorld, w': PlanWorld, r: nat, rows: Table)
    requires RowsMadeOnce(w) && r in w.confirms && w.confirms[r].phase.SawDraft?
    requires w'.sys.tasks == w.sys.tasks + rows && w.sys.tasks.Keys !! rows.Keys
    requires r in w'.confirms && w'.confirms == w.confirms[r := w'.confirms[r]]
    ensures forall id :: id in w.sys.tasks && w.sys.tasks[id].plan.Some? ==>
              exists q :: CreatedBy(w', q, w.sys.tasks[id].plan.value) && CanCreate(w'.confirms[q]) && id in RowsOf(w'.confirms[q])
    ensures forall q :: q in w'.confirms && q != r && w'.confirms[q].phase.Created? && CanCreate(w'.confirms[q]) ==>
              forall id :: id in RowsOf(w'.confirms[q]) ==>
                id in w'.sys.tasks && SameIdentity(RowsOf(w'.confirms[q])[id], w'.sys.tasks[id])
  {
    forall id | id in w.sys.tasks && w.sys.tasks[id].plan.Some?
      ensures exists q :: CreatedBy(w', q, w.sys.tasks[id].plan.value) && CanCreate(w'.confirms[q]) && id in RowsOf(w'.confirms[q])
    {
      var q :| CreatedBy(w, q, w.sys.tasks[id].plan.value) && CanCreate(w.confirms[q]) && id in RowsOf(w.confirms[q]);
      assert CreatedBy(w', q, w.sys.tasks[id].plan.value);
    }
  }

  lemma ClaimRows(w: PlanWorld, r: nat, first: nat)
    requires WorldOk(w) && CanMove(w, Claim(r, first)) && w.plans[w.confirms[r].plan].Draft?
    ensures RowsMadeOnce(Moved(w, Claim(r, first)))
  {
    var w', c := Moved(w, Claim(r, first)), w.confirms[r].(phase := Created(first));
    NewRows(w.sys.tasks, c);
    OldRowsKept(w, w', r, RowsOf(c));
    assert CreatedBy(w', r, c.plan);
  }

  lemma ClaimCreators(w: PlanWorld, r: nat, first: nat, p: nat)
    requires WorldOk(w) && CanMove(w, Claim(r, first)) && w.plans[w.confirms[r].plan].Draft? && p in w.plans
    ensures OneCreator(Moved(w, Claim(r, first)), p)
  {
    var w', plan := Moved(w, Claim(r, first)), w.confirms[r].plan;
    assert OneCreator(w, p);
    if p == plan {
      assert CreatedBy(w', r, p);
      assert forall q :: CreatedBy(w', q, p) ==> q == r || CreatedBy(w, q, p);
    } else {
      assert forall q :: CreatedBy(w', q, p) <==> CreatedBy(w, q, p);
    }
  }

  lemma ClaimOk(w: PlanWorld, r: nat, first: nat)
    requires WorldOk(w) && CanMove(w, Claim(r, first))
    ensures WorldOk(Moved(w, Claim(r, first)))
    ensures PlansEvolve(w.plans, Moved(w, Claim(r, first)).plans)
  {
    var w', c := Moved(w, Claim(r, first)), w.confirms[r];
    if w.plans[c.plan].Draft? {
      var made := c.(phase := Created(first));
      NewRows(w.sys.tasks, made);
      InsertsReachable(w.sys, first, c.plan, c.node, c.kind, c.payload, c.previous);
      ConfirmedAgrees(w.sys.tasks, RowsOf(made), first, w.plans, c.plan);
      ClaimRows(w, r, first);
      forall p | p in w'.plans ensures OneCreator(w', p) {
        ClaimCreators(w, r, first, p);
      }
    } else {
      RefusedOk(w, r, first);
    }
  }

  lemma RefusedOk(w: PlanWorld, r: nat, first: nat)
    requires WorldOk(w) && CanMove(w, Claim(r, first)) && !w.plans[w.confirms[r].plan].Draft?
    ensures WorldOk(Moved(w, Claim(r, first)))
  {
    var w' := Moved(w, Claim(r, first));
    forall q, p ensures CreatedBy(w', q, p) <==> CreatedBy(w, q, p) {
    }
    forall p | p in w'.plans ensures OneCreator(w', p) {
      SameCreators(w, w', p);
    }
    assert w.sys.tasks + map[] == w.sys.tasks;
    OldRowsKept(w, w', r, map[]);
  }

  lemma MoveOk(w: PlanWorld, m: Move)
    requires WorldOk(w) && CanMove(w, m)
    ensures WorldOk(Moved(w, m)) && PlansEvolve(w.plans, Moved(w, m).plans)
  {
    match m
    case Write(e) =>
      WriteOk(w, e);
      WritePlans(w, e);
    case Claim(r, first) => ClaimOk(w, r, first);
    case _ => QuietMoveOk(w, m);
  }

  // ------------------------------------------------------------------------- whole runs

  ghost predicate CanRun(w: PlanWorld, moves: seq<Move>)
    decreases |moves|
  {
    moves != [] ==> CanMove(w, moves[0]) && CanRun(Moved(w, moves[0]), moves[1..])
  }

  ghost function RunAll(w: PlanWorld, moves: seq<Move>): PlanWorld
    requires CanRun(w, moves)
    decreases |moves|
  {
    if moves == [] then w else RunAll(Moved(w, moves[0]), moves[1..])
  }

  ghost predicate Attainable(w: PlanWorld) {
    exists moves :: CanRun(START, moves) && RunAll(START, moves) == w
  }

  lemma {:induction false} RunOk(w: PlanWorld, moves: seq<Move>)
    requires WorldOk(w) && CanRun(w, moves)
    ensures WorldOk(RunAll(w, moves)) && PlansEvolve(w.plans, RunAll(w, moves).plans)
    decreases |moves|
  {
    if moves != [] {
      MoveOk(w, moves[0]);
      RunOk(Moved(w, moves[0]), moves[1..]);
      PlansEvolveTransitive(w.plans, Moved(w, moves[0]).plans, RunAll(w, moves).plans);
    }
  }

  lemma AttainableOk(w: PlanWorld)
    requires Attainable(w)
    ensures WorldOk(w)
  {
    var moves :| CanRun(START, moves) && RunAll(START, moves) == w;
    assert Legal(INITIAL, []) && After(INITIAL, []) == INITIAL;
    RunOk(START, moves);
  }

  /** In every run every plan agrees with its rows, whatever events, confirmations and cancellations came before. */
  lemma PlansAlwaysAgree(w: PlanWorld, p: nat)
    requires Attainable(w) && p in w.plans
    ensures Agrees(w.sys.tasks, p, w.plans[p]) && Reachable(w.sys)
  {
    AttainableOk(w);
  }

  /** In every continuation a plan that failed, succeeded or was cancelled stays so, and no plan becomes a draft again. */
  lemma FinalPlansStay(w: PlanWorld, moves: seq<Move>)
    requires Attainable(w) && CanRun(w, moves)
    ensures PlansEvolve(w.plans, RunAll(w, moves).plans)
  {
    AttainableOk(w);
    RunOk(w, moves);
  }

  /**
  Any number of confirmations of one plan may have seen it as a draft, and anything may happen
  before their conditional updates. At most one of them creates rows; once one of them has been
  refused and the plan was not cancelled, exactly one has; and the rows of the plan are
  exactly those that one made.
   */
  lemma ConfirmedOnce(w: PlanWorld, p: nat)
    requires Attainable(w) && p in w.plans
    ensures forall i, j :: CreatedBy(w, i, p) && CreatedBy(w, j, p) ==> i == j
    ensures (exists r :: r in w.confirms && w.confirms[r].plan == p && w.confirms[r].phase.Refused?) && !w.plans[p].PlanCancelled? ==>
              exists r :: CreatedBy(w, r, p)
    ensures forall r :: CreatedBy(w, r, p) ==>
              CanCreate(w.confirms[r]) && forall id :: id in RowsOf(w.confirms[r]) <==> InPlan(w.sys.tasks, id, p)
    ensures (forall r :: !CreatedBy(w, r, p)) ==> !HasTasks(w.sys.tasks, p)
  {
    AttainableOk(w);
    assert OneCreator(w, p);
    forall r | CreatedBy(w, r, p)
      ensures CanCreate(w.confirms[r]) && forall id :: id in RowsOf(w.confirms[r]) <==> InPlan(w.sys.tasks, id, p)
    {
      CreatorsRows(w, r, p);
    }
  }

  lemma CreatorsRows(w: PlanWorld, r: nat, p: nat)
    requires WorldOk(w) && p in w.plans && CreatedBy(w, r, p)
    ensures CanCreate(w.confirms[r]) && forall id :: id in RowsOf(w.confirms[r]) <==> InPlan(w.sys.tasks, id, p)
  {
    assert OneCreator(w, p);
    var rows := RowsOf(w.confirms[r]);
    NewRows(map[], w.confirms[r]);
    forall id ensures id in rows <==> InPlan(w.sys.tasks, id, p) {
      if InPlan(w.sys.tasks, id, p) {
        var q :| CreatedBy(w, q, p) && CanCreate(w.confirms[q]) && id in RowsOf(w.confirms[q]);
        assert q == r;
      }
    }
  }

  /** Of two confirmations that have both seen the draft, the first to reach its update creates the rows, and the other is refused whenever it comes. */
  lemma RaceHasOneWinner(w: PlanWorld, i: nat, j: nat, first: nat, between: seq<Move>, second: nat)
    requires Attainable(w) && i != j && CanMove(w, Claim(i, first)) && j in w.confirms && w.confirms[j].phase.SawDraft?
    requires w.confirms[i].plan == w.confirms[j].plan && w.confirms[i].plan in w.plans && w.plans[w.confirms[i].plan].Draft?
    requires CanRun(Moved(w, Claim(i, first)), between)
    requires CanMove(RunAll(Moved(w, Claim(i, first)), between), Claim(j, second))
    ensures var won := Moved(w, Claim(i, first));
      var now := RunAll(won, between);
      var end := Moved(now, Claim(j, second));
      && won.confirms[i].phase == Created(first) && end.confirms[j].phase == Refused
      && end.sys == now.sys && end.plans == now.plans
  {
    var plan, won := w.confirms[i].plan, Moved(w, Claim(i, first));
    AttainableOk(w);
    ClaimOk(w, i, first);
    ClaimWins(w, i, first, j);
    LateClaimRefused(won, between, j, second);
  }

  lemma ClaimWins(w: PlanWorld, i: nat, first: nat, j: nat)
    requires CanMove(w, Claim(i, first)) && i != j && j in w.confirms
    requires w.confirms[i].plan in w.plans && w.plans[w.confirms[i].plan].Draft?
    ensures var plan, won := w.confirms[i].plan, Moved(w, Claim(i, first));
      && plan in won.plans && won.plans[plan].Confirmed? && i in won.confirms && won.confirms[i].phase == Created(first)
      && j in won.confirms && won.confirms[j] == w.confirms[j]
  {
  }

  lemma LateClaimRefused(w: PlanWorld, moves: seq<Move>, r: nat, first: nat)
    requires WorldOk(w) && r in w.confirms && w.confirms[r].plan in w.plans && !w.plans[w.confirms[r].plan].Draft?
    requires CanRun(w, moves) && CanMove(RunAll(w, moves), Claim(r, first))
    ensures var now := RunAll(w, moves);
      var end := Moved(now, Claim(r, first));
      end.confirms[r].phase == Refused && end.sys == now.sys && end.plans == now.plans
  {
    RunOk(w, moves);
    KeepsTarget(w, moves, r);
  }

  /** A confirmation stays about the same plan. */
  lemma {:induction false} KeepsTarget(w: PlanWorld, moves: seq<Move>, r: nat)
    requires CanRun(w, moves) && r in w.confirms
    ensures r in RunAll(w, moves).confirms && RunAll(w, moves).confirms[r].plan == w.confirms[r].plan
    decreases |moves|
  {
    if moves != [] {
      KeepsTarget(Moved(w, moves[0]), moves[1..], r);
    }
  }

}
