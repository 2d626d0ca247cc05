/** What enqueueing guarantees whatever happens between its statements. */
module EnqueueRace {

  import opened Wrappers
  import opened Tasks
  import opened Protocol
  import opened ProtocolSafety
  import opened Keys
  import opened EnqueueSteps

  // -------------------------------------------------------------------- the invariant

  /** None of these rows is pending under the request's key; rows never become pending again. */
  ghost predicate NonePending(t: Table, q: Request, ids: set<nat>)
    requires WellFormed(q)
  {
    forall x :: x in ids && x in t ==> !(t[x].status.Pending? && t[x].dedup == Some(RequestKey(q)))
  }

  /** The payload of the request; if it names no dependency, it may be queued behind a row of the same endpoint and kind that was running. */
  ghost predicate CarriesRequest(t: Table, q: Request, p: Payload) {
    || p == q.payload
    || exists r: nat :: r in t && ForEndpoint(t[r], q.subject, q.kind) && !t[r].status.Pending?
         && q.payload.Fields? && q.payload.dependsOn == Missing && p == q.payload.(dependsOn := Integer(r))
  }

  /** Other requests' rows that came under the key after the lookup. */
  ghost predicate Rivals(t: Table, s: Session)
    requires WellFormed(s.request)
  {
    && s.rivals != {} && s.rivals !! s.free
    && forall x :: x in s.rivals ==> x in t && t[x].dedup == Some(RequestKey(s.request))
  }

  ghost predicate EndpointOk(t: Table, s: Session)
    requires WellFormed(s.request)
  {
    var q := s.request;
    match s.phase
    case Looking => true
    case Refreshing(id) => id in t && ForEndpoint(t[id], q.subject, q.kind) && NonePending(t, q, s.free)
    case LookingForRunning => NonePending(t, q, s.free)
    case Inserting(p) => NonePending(t, q, s.free) && CarriesRequest(t, q, p)
    case Recovering(p) => NonePending(t, q, s.free) && CarriesRequest(t, q, p) && Rivals(t, s)
    case RecoveryRefreshing(id, p) =>
      && CarriesRequest(t, q, p) && id in t && ForEndpoint(t[id], q.subject, q.kind) && id !in s.free
      && q.update && Rivals(t, s)
    case Finished(id, outcome) =>
      && id in t && ForEndpoint(t[id], q.subject, q.kind)
      && (outcome.Missed? ==> !t[id].status.Pending? && id !in s.free && Rivals(t, s))
    case Raised => Rivals(t, s) && forall x :: x in s.rivals ==> !t[x].status.Pending?
    case Overwriting(_, _) => false
  }

  /** An interface request writes its payload as it is, if at all, into a row of its kind. */
  ghost predicate InterfaceOk(t: Table, s: Session) {
    var q := s.request;
    match s.phase
    case Overwriting(id, p) => q.update && id in t && t[id].kind == q.kind && p == q.payload
    case Inserting(p) => p == q.payload
    case Recovering(p) => p == q.payload
    case Refreshing(_) => false
    case RecoveryRefreshing(_, _) => false
    case _ => true
  }

  /** A request that is to update a pending row and to queue behind a running one never ends by merely reusing a row. */
  predicate OutcomeFits(q: Request, outcome: Outcome) {
    (outcome.Reused? ==> !q.update) && (outcome.StillRunning? ==> !q.update || !q.queueAfterRunning)
    && (outcome.Missed? || outcome.TooLate? ==> q.update) && (outcome.TooLate? ==> q.style.ForAnInterface?)
  }

  ghost predicate RequestOk(t: Table, s: Session) {
    && WellFormed(s.request) && s.free <= t.Keys && s.rivals <= t.Keys
    && (s.request.style.ForAnEndpoint? ==> EndpointOk(t, s))
    && (s.request.style.ForAnInterface? ==> InterfaceOk(t, s))
    && (s.phase.Finished? ==> s.phase.id in t && t[s.phase.id].kind == s.request.kind && OutcomeFits(s.request, s.phase.outcome))
    && (s.phase.Finished? && (s.phase.outcome.Missed? || s.phase.outcome.TooLate?) ==> !t[s.phase.id].status.Pending?)
  }

  ghost predicate WorldOk(w: World) {
    Reachable(w.sys) && KeysFit(w.sys.tasks) && forall r :: r in w.sessions ==> RequestOk(w.sys.tasks, w.sessions[r])
  }

  /** Rows of endpoints keep their subject. */
  ghost predicate SubjectsKept(t: Table, u: Table) {
    forall id :: id in t && id in u && IsGre(t[id].kind) && t[id].payload.Fields? ==>
      u[id].payload.Fields? && u[id].payload.subject == t[id].payload.subject
  }

  lemma EventKeepsSubjects(s: System, e: Event)
    requires Enabled(s, e) && Disciplined(s, e)
    ensures SubjectsKept(s.tasks, Apply(s, e).tasks)
  {
    if !e.Insert? && !e.Refresh? && !e.Overwrite? {
      OtherEventsSettle(s, e);
    }
  }

  lemma CarriesFrame(t: Table, u: Table, q: Request, p: Payload)
    requires Proceeds(t, u) && SubjectsKept(t, u) && CarriesRequest(t, q, p) && IsGre(q.kind)
    ensures CarriesRequest(u, q, p)
  {
  }

  lemma SessionFrame(t: Table, u: Table, s: Session)
    requires Proceeds(t, u) && SubjectsKept(t, u) && RequestOk(t, s)
    ensures RequestOk(u, s)
  {
    var q := s.request;
    if q.style.ForAnEndpoint? {
      if s.phase.Inserting? || s.phase.Recovering? || s.phase.RecoveryRefreshing? {
        CarriesFrame(t, u, q, s.phase.payload);
      }
      assert NonePending(t, q, s.free) ==> NonePending(u, q, s.free);
    }
  }

  // ------------------------------------------------------------------ steps of a request

  /** A lookup that finds nothing shows that no row holds the key; one that finds a row shows that no other does. */
  lemma LookShows(t: Table, q: Request)
    requires KeysFit(t) && WellFormed(q) && q.style.ForAnEndpoint?
    ensures RowsFor(t, q, Pending) == RowsWithKey(t, q)
    ensures forall x :: x in t && t[x].status.Pending? && t[x].dedup == Some(RequestKey(q)) ==> x in RowsFor(t, q, Pending)
    ensures forall i, j :: i in RowsFor(t, q, Pending) && j in RowsFor(t, q, Pending) ==> i == j
  {
    forall x | x in t && t[x].status.Pending?
      ensures x in RowsFor(t, q, Pending) <==> x in RowsWithKey(t, q)
    {
      assert RowFits(t[x]);
      assert ForEndpoint(t[x], q.subject, q.kind) <==> t[x].dedup == Some(EndpointKey(q.subject, q.kind));
    }
    forall i, j | i in RowsFor(t, q, Pending) && j in RowsFor(t, q, Pending) ensures i == j {
      OnePendingPerEndpoint(t, q.subject, q.kind, i, j);
    }
  }

  lemma EndpointStepOk(t: Table, s: Session, newId: nat)
    requires KeysFit(t) && RequestOk(t, s) && s.request.style.ForAnEndpoint? && newId !in t
    requires StepOf(t, s.request, s.phase, newId).event.None?
    ensures RequestOk(t, NextSession(t, s, StepOf(t, s.request, s.phase, newId).phase))
  {
    var q := s.request;
    LookShows(t, q);
    match s.phase
    case Looking => LookOk(t, s);
    case LookingForRunning => LookForRunningOk(t, s);
    case Recovering(p) => RecoverOk(t, s);
    case _ =>
  }

  lemma LookOk(t: Table, s: Session)
    requires KeysFit(t) && RequestOk(t, s) && s.request.style.ForAnEndpoint? && s.phase.Looking? && Look(t, s.request).event.None?
    ensures RequestOk(t, NextSession(t, s, Look(t, s.request).phase))
  {
    LookShows(t, s.request);
  }

  lemma LookForRunningOk(t: Table, s: Session)
    requires RequestOk(t, s) && s.request.style.ForAnEndpoint? && s.phase.LookingForRunning?
    ensures RequestOk(t, NextSession(t, s, LookForRunning(t, s.request).phase))
  {
  }

  lemma RecoverOk(t: Table, s: Session)
    requires KeysFit(t) && RequestOk(t, s) && s.request.style.ForAnEndpoint? && s.phase.Recovering?
    ensures RequestOk(t, NextSession(t, s, Recover(t, s.request, s.phase.payload).phase))
  {
    LookShows(t, s.request);
  }

  lemma NewRowFits(q: Request, p: Payload)
    requires WellFormed(q) && (q.style.ForAnEndpoint? ==> p.Fields? && p.subject == Some(q.subject))
    ensures RowFits(NewRow(q, p))
  {
    var row := NewRow(q, p);
    forall e, k | IsGre(k) ensures ForEndpoint(row, e, k) <==> row.dedup == Some(EndpointKey(e, k)) {
      if q.style.ForAnEndpoint? {
        if EndpointKey(q.subject, q.kind) == EndpointKey(e, k) {
          EndpointKeyInjective(q.subject, q.kind, e, k);
        }
      } else {
        assert RequestKey(q)[0] == 'i' && EndpointKey(e, k)[0] == 'e';
      }
    }
  }

  /** What a request writes keeps the keys in place. */
  lemma StepDisciplined(sys: System, s: Session, newId: nat)
    requires RequestOk(sys.tasks, s) && newId !in sys.tasks
    requires StepOf(sys.tasks, s.request, s.phase, newId).event.Some?
    ensures var e := StepOf(sys.tasks, s.request, s.phase, newId).event.value;
      Enabled(sys, e) && Disciplined(sys, e)
  {
    var t, q := sys.tasks, s.request;
    StepIsEnabled(t, q, s.phase, newId);
    if s.phase.Inserting? {
      NewRowFits(q, s.phase.payload);
    }
  }

  /** The row a request inserts carries its payload. */
  ghost predicate InsertsFor(t: Table, q: Request, row: Task)
    requires WellFormed(q)
  {
    exists p ::
      row == NewRow(q, p) && (q.style.ForAnEndpoint? ==> CarriesRequest(t, q, p)) && (q.style.ForAnInterface? ==> p == q.payload)
  }

  /** After a write the request is finished, with its row carrying the payload. */
  lemma WritingFinishes(t: Table, s: Session, newId: nat)
    requires RequestOk(t, s) && newId !in t && StepOf(t, s.request, s.phase, newId).event.Some?
    ensures var effect := StepOf(t, s.request, s.phase, newId);
      var e := effect.event.value;
      && effect.phase.Finished? && effect.phase.id == e.id && (e.Refresh? || e.Insert? || e.Overwrite?)
      && (effect.phase.outcome.Inserted? <==> e.Insert?) && (effect.phase.outcome.TooLate? <==> e.Overwrite? && !HasStatus(t, e.id, Pending))
      && (effect.phase.outcome.Installed? || effect.phase.outcome.Inserted? || effect.phase.outcome.TooLate?)
      && (e.Refresh? ==> s.request.style.ForAnEndpoint? && HasStatus(t, e.id, Pending) && t[e.id].kind == s.request.kind)
      && (e.Overwrite? ==> s.request.style.ForAnInterface? && s.request.update && e.id in t && t[e.id].kind == s.request.kind && e.payload == s.request.payload)
      && (e.Insert? ==> e.id == newId && InsertsFor(t, s.request, e.row))
      && (e.Refresh? && s.request.style.ForAnEndpoint? ==> ForEndpoint(t[e.id], s.request.subject, s.request.kind) && CarriesRequest(t, s.request, e.payload))
  {
    if s.phase.Inserting? {
      assert StepOf(t, s.request, s.phase, newId).event.value.row == NewRow(s.request, s.phase.payload);
    }
  }

  lemma WriterOk(sys: System, s: Session, newId: nat)
    requires RequestOk(sys.tasks, s) && newId !in sys.tasks
    requires StepOf(sys.tasks, s.request, s.phase, newId).event.Some?
    requires Enabled(sys, StepOf(sys.tasks, s.request, s.phase, newId).event.value)
    ensures var effect := StepOf(sys.tasks, s.request, s.phase, newId);
      RequestOk(Apply(sys, effect.event.value).tasks, NextSession(sys.tasks, s, effect.phase))
  {
    WritingFinishes(sys.tasks, s, newId);
    var effect := StepOf(sys.tasks, s.request, s.phase, newId);
    var u, next := Apply(sys, effect.event.value).tasks, NextSession(sys.tasks, s, effect.phase);
    WrittenRow(sys, s, newId);
    assert u.Keys == sys.tasks.Keys + {effect.phase.id};
    WritersOutcome(u, next);
  }

  /** The row a request has written, right after it was written. */
  lemma WrittenRow(sys: System, s: Session, newId: nat)
    requires RequestOk(sys.tasks, s) && newId !in sys.tasks
    requires StepOf(sys.tasks, s.request, s.phase, newId).event.Some?
    requires Enabled(sys, StepOf(sys.tasks, s.request, s.phase, newId).event.value)
    ensures var q, effect := s.request, StepOf(sys.tasks, s.request, s.phase, newId);
      var u, id := Apply(sys, effect.event.value).tasks, if effect.phase.Finished? then effect.phase.id else 0;
      && effect.phase.Finished? && (effect.phase.outcome.Installed? || effect.phase.outcome.Inserted? || effect.phase.outcome.TooLate?)
      && id in u && u[id].kind == q.kind && u.Keys == sys.tasks.Keys + {id}
      && (effect.phase.outcome.TooLate? <==> !u[id].status.Pending?) && (effect.phase.outcome.TooLate? ==> q.style.ForAnInterface? && q.update && HasStatus(sys.tasks, id, u[id].status))
      && (q.style.ForAnInterface? ==> u[id].payload == q.payload)
      && (effect.phase.outcome.Inserted? ==> id == newId)
      && (q.style.ForAnEndpoint? ==> ForEndpoint(u[id], q.subject, q.kind) && CarriesRequest(sys.tasks, q, u[id].payload))
  {
    WritingFinishes(sys.tasks, s, newId);
  }

  predicate HasLeft(t: Table, id: nat) {
    id in t && !t[id].status.Pending?
  }

  lemma WritersOutcome(u: Table, s: Session)
    requires WellFormed(s.request) && s.free <= u.Keys && s.rivals <= u.Keys
    requires s.phase.Finished? && (s.phase.outcome.Installed? || s.phase.outcome.Inserted? || s.phase.outcome.TooLate?)
    requires s.phase.outcome.TooLate? ==> s.request.style.ForAnInterface? && s.request.update && HasLeft(u, s.phase.id)
    requires s.phase.id in u && u[s.phase.id].kind == s.request.kind
    requires s.request.style.ForAnEndpoint? ==> ForEndpoint(u[s.phase.id], s.request.subject, s.request.kind)
    ensures RequestOk(u, s)
  {
  }

  lemma InterfaceStepOk(t: Table, s: Session, newId: nat)
    requires RequestOk(t, s) && s.request.style.ForAnInterface? && newId !in t
    requires StepOf(t, s.request, s.phase, newId).event.None?
    ensures RequestOk(t, NextSession(t, s, StepOf(t, s.request, s.phase, newId).phase))
  {
  }

  // ------------------------------------------------------------------------- worlds

  lemma EventOk(w: World, e: Event)
    requires WorldOk(w) && Enabled(w.sys, e) && Disciplined(w.sys, e)
    ensures var u := Apply(w.sys, e).tasks;
      && Reachable(Apply(w.sys, e)) && KeysFit(u)
      && forall r :: r in w.sessions ==> RequestOk(u, w.sessions[r])
  {
    SingleEvent(w.sys, e);
    ReachableAfter(w.sys, [e]);
    EventKeepsKeys(w.sys, e);
    EventMovesTable(w.sys, e);
    EventKeepsSubjects(w.sys, e);
    forall r | r in w.sessions ensures RequestOk(Apply(w.sys, e).tasks, w.sessions[r]) {
      SessionFrame(w.sys.tasks, Apply(w.sys, e).tasks, w.sessions[r]);
    }
  }

  lemma AdvanceOk(w: World, r: nat, newId: nat)
    requires WorldOk(w) && CanMove(w, Advance(r, newId))
    ensures WorldOk(Moved(w, Advance(r, newId)))
  {
    var s := w.sessions[r];
    var effect := EffectOf(w, r, newId);
    if effect.event.None? {
      if s.request.style.ForAnEndpoint? {
        EndpointStepOk(w.sys.tasks, s, newId);
      } else {
        InterfaceStepOk(w.sys.tasks, s, newId);
      }
    } else {
      StepDisciplined(w.sys, s, newId);
      EventOk(w, effect.event.value);
      WriterOk(w.sys, s, newId);
    }
  }

  lemma MoveOk(w: World, m: Move)
    requires WorldOk(w) && CanMove(w, m)
    ensures WorldOk(Moved(w, m))
  {
    match m
    case Elsewhere(e) => EventOk(w, e);
    case Begin(r, q) =>
    case Advance(r, newId) => AdvanceOk(w, r, newId);
  }

  lemma {:induction false} RunOk(w: World, moves: seq<Move>)
    requires WorldOk(w) && CanRun(w, moves)
    ensures WorldOk(RunAll(w, moves))
    decreases |moves|
  {
    if moves != [] {
      MoveOk(w, moves[0]);
      RunOk(Moved(w, moves[0]), moves[1..]);
    }
  }

  lemma AttainableOk(w: World)
    requires Attainable(w)
    ensures WorldOk(w)
  {
    var moves :| CanRun(START, moves) && RunAll(START, moves) == w;
    assert Legal(INITIAL, []) && After(INITIAL, []) == INITIAL;
    RunOk(START, moves);
  }

  // --------------------------------------------------------------------- the theorems

  /**
  However the statements of any number of requests and all other events interleave, at most
  one pending row carries a key, and at most one pending row of a kind serves an endpoint.
   */
  lemma AtMostOnePending(w: World, i: nat, j: nat)
    requires Attainable(w) && HasStatus(w.sys.tasks, i, Pending) && HasStatus(w.sys.tasks, j, Pending)
    ensures w.sys.tasks[i].dedup.Some? && w.sys.tasks[i].dedup == w.sys.tasks[j].dedup ==> i == j
    ensures forall e, k :: IsGre(k) && ForEndpoint(w.sys.tasks[i], e, k) && ForEndpoint(w.sys.tasks[j], e, k) ==> i == j
  {
    AttainableOk(w);
    forall e, k | IsGre(k) && ForEndpoint(w.sys.tasks[i], e, k) && ForEndpoint(w.sys.tasks[j], e, k) ensures i == j {
      OnePendingPerEndpoint(w.sys.tasks, e, k, i, j);
    }
  }

  /** Late writes into rows that have been claimed do not touch what the protocol guarantees: each row is handed out, executed and applied at most once. */
  lemma StillAtMostOnce(w: World)
    requires Attainable(w)
    ensures Reachable(w.sys)
    ensures forall i, j :: 0 <= i < j < |w.sys.handed| ==> w.sys.handed[i].task != w.sys.handed[j].task
    ensures forall i, j :: 0 <= i < j < |w.sys.executed| ==> w.sys.executed[i].task != w.sys.executed[j].task
    ensures forall i, j :: 0 <= i < j < |w.sys.effects| ==> w.sys.effects[i] != w.sys.effects[j]
  {
    AttainableOk(w);
    AtMostOnce(w.sys);
  }

  /** A request that is to refresh and to queue ends with its payload in a pending row, or misses, comes too late, or raises. */
  lemma FinishedMeans(w: World, r: nat, newId: nat)
    requires Attainable(w) && CanMove(w, Advance(r, newId)) && !w.sessions[r].phase.Finished?
    requires Moved(w, Advance(r, newId)).sessions[r].phase.Finished?
    ensures var w' := Moved(w, Advance(r, newId));
      var q, id, outcome := w.sessions[r].request, w'.sessions[r].phase.id, w'.sessions[r].phase.outcome;
      && id in w'.sys.tasks && w'.sys.tasks[id].kind == q.kind
      && (outcome.Inserted? || outcome.Installed? ==> HasStatus(w'.sys.tasks, id, Pending))
      && (outcome.Inserted? ==> id == newId && id !in w.sys.tasks)
      && (q.style.ForAnEndpoint? && (outcome.Inserted? || outcome.Installed?) ==>
            && CarriesRequest(w.sys.tasks, q, w'.sys.tasks[id].payload)
            && RowsFor(w'.sys.tasks, q, Pending) == {id})
      && (q.style.ForAnInterface? && (outcome.Inserted? || outcome.Installed? || outcome.TooLate?) ==> w'.sys.tasks[id].payload == q.payload)
      && (outcome.TooLate? ==> q.style.ForAnInterface? && q.update && HasLeft(w.sys.tasks, id) && HasLeft(w'.sys.tasks, id))
      && (outcome.Reused? || outcome.StillRunning? || outcome.Missed? ==> w'.sys == w.sys)
      && (outcome.Reused? ==> !q.update && HasStatus(w.sys.tasks, id, Pending))
      && (outcome.StillRunning? ==> !(q.update && q.queueAfterRunning) && HasStatus(w.sys.tasks, id, Running))
      && (outcome.Missed? ==> q.update && !HasStatus(w.sys.tasks, id, Pending))
  {
    AttainableOk(w);
    AdvanceOk(w, r, newId);
    var w', s := Moved(w, Advance(r, newId)), w.sessions[r];
    var effect := EffectOf(w, r, newId);
    if effect.event.Some? {
      StepDisciplined(w.sys, s, newId);
      WrittenRow(w.sys, s, newId);
      if s.request.style.ForAnEndpoint? {
        OnlyOneFor(w'.sys.tasks, s.request, effect.phase.id);
      }
    } else {
      QuietFinish(w.sys.tasks, s, newId);
    }
  }

  lemma OnlyOneFor(t: Table, q: Request, id: nat)
    requires KeysFit(t) && WellFormed(q) && q.style.ForAnEndpoint?
    requires HasStatus(t, id, Pending) && ForEndpoint(t[id], q.subject, q.kind)
    ensures RowsFor(t, q, Pending) == {id}
  {
    LookShows(t, q);
    assert id in RowsFor(t, q, Pending);
  }

  lemma QuietFinish(t: Table, s: Session, newId: nat)
    requires KeysFit(t) && RequestOk(t, s) && newId !in t && !s.phase.Finished?
    requires StepOf(t, s.request, s.phase, newId).event.None? && StepOf(t, s.request, s.phase, newId).phase.Finished?
    ensures var q, phase := s.request, StepOf(t, s.request, s.phase, newId).phase;
      && phase.id in t && t[phase.id].kind == q.kind
      && !phase.outcome.Inserted? && !phase.outcome.Installed? && !phase.outcome.TooLate?
      && (phase.outcome.Reused? ==> HasStatus(t, phase.id, Pending))
      && (phase.outcome.StillRunning? ==> HasStatus(t, phase.id, Running))
      && (phase.outcome.Missed? ==> !HasStatus(t, phase.id, Pending))
      && OutcomeFits(q, phase.outcome)
  {
    if s.request.style.ForAnEndpoint? {
      LookShows(t, s.request);
    }
  }

  /** The recovery of an endpoint request raises exactly when no pending row holds its key any more. */
  lemma RaisesIff(w: World, r: nat, newId: nat)
    requires Attainable(w) && CanMove(w, Advance(r, newId)) && w.sessions[r].phase.Recovering?
    requires w.sessions[r].request.style.ForAnEndpoint?
    ensures Moved(w, Advance(r, newId)).sessions[r].phase.Raised?
      <==> RowsFor(w.sys.tasks, w.sessions[r].request, Pending) == {}
  {
    AttainableOk(w);
    LookShows(w.sys.tasks, w.sessions[r].request);
  }

  /** The payload is lost exactly when the row found by the recovery has left pending before its refresh. */
  lemma MissesIff(w: World, r: nat, newId: nat)
    requires Attainable(w) && CanMove(w, Advance(r, newId)) && w.sessions[r].phase.RecoveryRefreshing?
    ensures Moved(w, Advance(r, newId)).sessions[r].phase == Finished(w.sessions[r].phase.id, Missed)
      <==> !HasStatus(w.sys.tasks, w.sessions[r].phase.id, Pending)
  {
  }

  /** The recovery of an interface request goes by the oldest row: it is to be overwritten if pending, and the payload is dropped if it is running. */
  lemma InterfaceMissesIff(w: World, r: nat, newId: nat)
    requires Attainable(w) && CanMove(w, Advance(r, newId)) && w.sessions[r].phase.Recovering?
    requires w.sessions[r].request.style.ForAnInterface? && w.sessions[r].request.update
    ensures var q, phase := w.sessions[r].request, Moved(w, Advance(r, newId)).sessions[r].phase;
      var pending, running := RowsFor(w.sys.tasks, q, Pending), RowsFor(w.sys.tasks, q, Running);
      && (phase.Raised? <==> pending == {} && running == {})
      && (phase.Finished? && phase.outcome.Missed? <==> running != {} && forall x :: x in pending ==> Least(running) < x)
      && (phase.Overwriting? <==> pending != {} && forall x :: x in running ==> Least(pending) < x)
  {
    var t, q := w.sys.tasks, w.sessions[r].request;
    var pending, running := RowsFor(t, q, Pending), RowsFor(t, q, Running);
    if pending + running != {} {
      var id := Least(pending + running);
      assert id in pending <==> t[id].status.Pending?;
      assert forall x :: x in pending ==> x in pending + running;
      assert forall x :: x in running ==> x in pending + running;
    }
  }

  /**
  A request raises or loses its payload only through interference: another request's row
  came under the key after the lookup, and has been claimed or closed since.
   */
  lemma LossNeedsRivals(w: World, r: nat)
    requires Attainable(w) && r in w.sessions && w.sessions[r].request.style.ForAnEndpoint?
    requires w.sessions[r].phase.Raised? || (w.sessions[r].phase.Finished? && w.sessions[r].phase.outcome.Missed?)
    ensures var s := w.sessions[r];
      && s.rivals != {} && s.rivals !! s.free
      && (s.phase.Raised? ==> forall x :: x in s.rivals ==> x in w.sys.tasks && !w.sys.tasks[x].status.Pending?)
      && (s.phase.Finished? ==> s.phase.id !in s.free && s.phase.id in w.sys.tasks && !w.sys.tasks[s.phase.id].status.Pending?)
  {
    AttainableOk(w);
    assert RequestOk(w.sys.tasks, w.sessions[r]);
  }

}
