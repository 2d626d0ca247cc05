/** What becomes of an edit over its whole request: exactly when its payload ends in a pending row, is lost, or is refused. */
module EnqueueEdits {

  import opened Wrappers
  import opened Tasks
  import opened Protocol
  import opened EnqueueSteps
  import opened EnqueueRace

  // ---------------------------------------------------------- what leaves a row pending

  /** The event claims, cancels, expires or rejects the row, if it is pending. */
  ghost predicate TakesAway(s: System, e: Event, id: nat) {
    || ((e.Cancel? || e.ExpirePending? || e.PollReject?) && e.id == id)
    || (e.PollClaim? && e.poll in s.polls && s.polls[e.poll].ready.Some? && s.polls[e.poll].ready.value.task == id)
  }

  lemma EventTakesAwayIff(s: System, e: Event, id: nat)
    requires HasStatus(s.tasks, id, Pending) && Enabled(s, e)
    ensures HasStatus(Apply(s, e).tasks, id, Pending) <==> !TakesAway(s, e, id)
  {
  }

  /** No move of a run takes the row away. */
  ghost predicate Untaken(w: World, moves: seq<Move>, id: nat)
    requires CanRun(w, moves)
    decreases |moves|
  {
    moves != [] ==>
      && !(moves[0].Elsewhere? && TakesAway(w.sys, moves[0].event, id))
      && Untaken(Moved(w, moves[0]), moves[1..], id)
  }

  lemma RequestsTakeNothing(w: World, r: nat, newId: nat, id: nat)
    requires CanMove(w, Advance(r, newId)) && id in w.sys.tasks
    ensures id in Moved(w, Advance(r, newId)).sys.tasks
    ensures Moved(w, Advance(r, newId)).sys.tasks[id].status == w.sys.tasks[id].status
  {
    var s := w.sessions[r];
    StepIsEnabled(w.sys.tasks, s.request, s.phase, newId);
  }

  /** A row stays as it is, as far as its status goes, once it has left pending for good. */
  lemma MoveKeepsLeft(w: World, m: Move, id: nat)
    requires CanMove(w, m) && HasLeft(w.sys.tasks, id)
    ensures HasLeft(Moved(w, m).sys.tasks, id)
  {
    match m
    case Elsewhere(e) => EventKeepsLeft(w.sys, e, id);
    case Begin(_, _) =>
    case Advance(r, newId) => RequestsTakeNothing(w, r, newId, id);
  }

  lemma EventKeepsLeft(s: System, e: Event, id: nat)
    requires Enabled(s, e) && HasLeft(s.tasks, id)
    ensures HasLeft(Apply(s, e).tasks, id)
  {
  }

  lemma {:induction false} RunKeepsLeft(w: World, moves: seq<Move>, id: nat)
    requires CanRun(w, moves) && HasLeft(w.sys.tasks, id)
    ensures HasLeft(RunAll(w, moves).sys.tasks, id)
    decreases |moves|
  {
    if moves != [] {
      MoveKeepsLeft(w, moves[0], id);
      RunKeepsLeft(Moved(w, moves[0]), moves[1..], id);
    }
  }

  lemma MovePending(w: World, m: Move, id: nat)
    requires CanMove(w, m) && HasStatus(w.sys.tasks, id, Pending)
    ensures id in Moved(w, m).sys.tasks
    ensures HasStatus(Moved(w, m).sys.tasks, id, Pending) <==> !(m.Elsewhere? && TakesAway(w.sys, m.event, id))
  {
    match m
    case Elsewhere(e) => EventTakesAwayIff(w.sys, e, id); RowStays(w.sys, e, id);
    case Begin(_, _) =>
    case Advance(r, newId) => RequestsTakeNothing(w, r, newId, id);
  }

  lemma RowStays(s: System, e: Event, id: nat)
    requires Enabled(s, e) && id in s.tasks
    ensures id in Apply(s, e).tasks
  {
  }

  /** Whatever happens, a pending row is still pending exactly when nothing has taken it away. */
  lemma {:induction false} PendingIffUntaken(w: World, moves: seq<Move>, id: nat)
    requires CanRun(w, moves) && HasStatus(w.sys.tasks, id, Pending)
    ensures id in RunAll(w, moves).sys.tasks
    ensures HasStatus(RunAll(w, moves).sys.tasks, id, Pending) <==> Untaken(w, moves, id)
    decreases |moves|
  {
    if moves != [] {
      var next := Moved(w, moves[0]);
      MovePending(w, moves[0], id);
      if HasStatus(next.sys.tasks, id, Pending) {
        PendingIffUntaken(next, moves[1..], id);
      } else {
        RunKeepsLeft(next, moves[1..], id);
      }
    }
  }

  /** The request takes no step of its own in the run. */
  ghost predicate Rests(moves: seq<Move>, r: nat) {
    forall m :: m in moves ==> !(m.Advance? && m.r == r)
  }

  lemma {:induction false} RestingSession(w: World, moves: seq<Move>, r: nat)
    requires CanRun(w, moves) && r in w.sessions && Rests(moves, r)
    ensures r in RunAll(w, moves).sessions && RunAll(w, moves).sessions[r] == w.sessions[r]
    decreases |moves|
  {
    if moves != [] {
      assert moves[0] in moves;
      RestingSession(Moved(w, moves[0]), moves[1..], r);
    }
  }

  // ------------------------------------------------------------------ interface requests

  /** The row that a lookup of an interface edit has decided on. */
  ghost predicate FoundRow(phase: Phase) {
    phase.Overwriting? || (phase.Finished? && phase.outcome.Missed?)
  }

  lemma FoundPendingIff(t: Table, s: Session, newId: nat)
    requires RequestOk(t, s) && newId !in t && s.request.style.ForAnInterface? && s.request.update
    requires s.phase.Looking? || s.phase.Recovering?
    requires FoundRow(StepOf(t, s.request, s.phase, newId).phase)
    ensures StepOf(t, s.request, s.phase, newId).event.None?
    ensures var phase := StepOf(t, s.request, s.phase, newId).phase;
      && phase.id in t && (phase.Overwriting? <==> HasStatus(t, phase.id, Pending))
      && (phase.Overwriting? ==> phase.payload == s.request.payload)
      && (phase.Finished? ==> HasLeft(t, phase.id))
  {
  }

  /** The late write itself: the row's payload is replaced, whatever its status, and no other row is touched. */
  lemma LateWrite(w: World, r: nat, newId: nat)
    requires CanMove(w, Advance(r, newId)) && w.sessions[r].phase.Overwriting? && w.sessions[r].phase.id in w.sys.tasks
    ensures var id, p, w' := w.sessions[r].phase.id, w.sessions[r].phase.payload, Moved(w, Advance(r, newId));
      && w'.sys == w.sys.(tasks := w.sys.tasks[id := w.sys.tasks[id].(payload := p)])
      && w'.sessions[r].phase == Finished(id, if w.sys.tasks[id].status.Pending? then Installed else TooLate)
  {
  }

  /**
  An interface edit whose lookup, first or in recovery, found a row: its payload ends in that
  row still pending exactly when the row was pending at the lookup and nothing claimed, rejected,
  cancelled or expired it before the write. Otherwise the row has left pending, nothing is
  queued, and a payload that is written replaces that of a row that runs or is closed.
   */
  lemma InterfaceEditIff(w: World, r: nat, x: nat, between: seq<Move>, y: nat)
    requires Attainable(w) && CanMove(w, Advance(r, x))
    requires w.sessions[r].request.style.ForAnInterface? && w.sessions[r].request.update
    requires w.sessions[r].phase.Looking? || w.sessions[r].phase.Recovering?
    requires FoundRow(Moved(w, Advance(r, x)).sessions[r].phase)
    requires CanRun(Moved(w, Advance(r, x)), between) && Rests(between, r)
    requires CanMove(RunAll(Moved(w, Advance(r, x)), between), Advance(r, y))
    ensures var q, found := w.sessions[r].request, Moved(w, Advance(r, x));
      var now := RunAll(found, between);
      var end, id := Moved(now, Advance(r, y)), found.sessions[r].phase.id;
      var carried := HasStatus(w.sys.tasks, id, Pending) && Untaken(found, between, id);
      && id in w.sys.tasks && id in end.sys.tasks
      && (HasStatus(end.sys.tasks, id, Pending) && end.sys.tasks[id].payload == q.payload <==> carried)
      && (end.sessions[r].phase == Finished(id, Installed) <==> carried)
      && (!carried ==> HasLeft(end.sys.tasks, id) && end.sys.tasks.Keys == now.sys.tasks.Keys)
      && (!carried && HasStatus(w.sys.tasks, id, Pending) ==>
            end.sessions[r].phase == Finished(id, TooLate) && end.sys.tasks[id].payload == q.payload)
  {
    AttainableOk(w);
    var s, found := w.sessions[r], Moved(w, Advance(r, x));
    FoundPendingIff(w.sys.tasks, s, x);
    assert found.sys == w.sys;
    AfterFound(found, r, between, y);
  }

  /** The rest of an interface edit once a lookup has found a row. */
  lemma AfterFound(w: World, r: nat, moves: seq<Move>, y: nat)
    requires r in w.sessions && FoundRow(w.sessions[r].phase) && w.sessions[r].phase.id in w.sys.tasks
    requires w.sessions[r].phase.Overwriting? <==> HasStatus(w.sys.tasks, w.sessions[r].phase.id, Pending)
    requires CanRun(w, moves) && Rests(moves, r) && CanMove(RunAll(w, moves), Advance(r, y))
    ensures var now, id := RunAll(w, moves), w.sessions[r].phase.id;
      var end := Moved(now, Advance(r, y));
      && id in end.sys.tasks && end.sys.tasks.Keys == now.sys.tasks.Keys
      && (w.sessions[r].phase.Overwriting? ==>
            && end.sys.tasks[id].payload == w.sessions[r].phase.payload
            && (HasStatus(end.sys.tasks, id, Pending) <==> Untaken(w, moves, id))
            && end.sessions[r].phase == Finished(id, if Untaken(w, moves, id) then Installed else TooLate))
      && (w.sessions[r].phase.Finished? ==> HasLeft(end.sys.tasks, id) && end.sessions[r].phase == w.sessions[r].phase)
  {
    RestingSession(w, moves, r);
    var now, id := RunAll(w, moves), w.sessions[r].phase.id;
    if w.sessions[r].phase.Overwriting? {
      PendingIffUntaken(w, moves, id);
      LateWrite(now, r, y);
    } else {
      RunKeepsLeft(w, moves, id);
      FinalStays(now, r, y);
    }
  }

  // ------------------------------------------------------------------- endpoint requests

  lemma InsertAttempt(w: World, r: nat, x: nat)
    requires WorldOk(w) && CanMove(w, Advance(r, x)) && w.sessions[r].request.style.ForAnEndpoint? && w.sessions[r].phase.Inserting?
    ensures var refused, w' := RowsFor(w.sys.tasks, w.sessions[r].request, Pending) != {}, Moved(w, Advance(r, x));
      w'.sessions[r].phase == if refused then Recovering(w.sessions[r].phase.payload) else Finished(x, Inserted)
  {
    var t, q := w.sys.tasks, w.sessions[r].request;
    LookShows(t, q);
    assert KeyIsFree(t, Some(RequestKey(q))) <==> RowsWithKey(t, q) == {} by {
      assert forall id :: id in RowsWithKey(t, q) ==> id in t && t[id].status.Pending? && t[id].dedup == Some(RequestKey(q));
      assert forall id :: id in t && t[id].status.Pending? && t[id].dedup == Some(RequestKey(q)) ==> id in RowsWithKey(t, q);
    }
  }

  lemma RecoveryLookup(w: World, r: nat, x: nat)
    requires WorldOk(w) && CanMove(w, Advance(r, x)) && w.sessions[r].request.style.ForAnEndpoint? && w.sessions[r].request.update
    requires w.sessions[r].phase.Recovering?
    ensures var rows, w' := RowsFor(w.sys.tasks, w.sessions[r].request, Pending), Moved(w, Advance(r, x));
      && w'.sys == w.sys
      && w'.sessions[r].phase == if rows == {} then Raised else RecoveryRefreshing(Least(rows), w.sessions[r].phase.payload)
  {
    LookShows(w.sys.tasks, w.sessions[r].request);
  }

  lemma FinalStays(w: World, r: nat, x: nat)
    requires CanMove(w, Advance(r, x)) && (w.sessions[r].phase.Finished? || w.sessions[r].phase.Raised?)
    ensures Moved(w, Advance(r, x)).sessions[r].phase == w.sessions[r].phase
  {
  }

  /**
  An endpoint edit that has come to its insert, with anything between its remaining steps: it
  raises exactly when the insert is refused and no pending row is left for the endpoint at the
  recovery, and its payload is lost exactly when the insert is refused and the row found at the
  recovery is claimed, rejected, cancelled or expired before the refresh.
   */
  lemma EndpointEditIff(w: World, r: nat, x: nat, first: seq<Move>, y: nat, second: seq<Move>, z: nat)
    requires Attainable(w) && CanMove(w, Advance(r, x))
    requires w.sessions[r].request.style.ForAnEndpoint? && w.sessions[r].request.update && w.sessions[r].phase.Inserting?
    requires CanRun(Moved(w, Advance(r, x)), first) && Rests(first, r)
    requires CanMove(RunAll(Moved(w, Advance(r, x)), first), Advance(r, y))
    requires CanRun(Moved(RunAll(Moved(w, Advance(r, x)), first), Advance(r, y)), second) && Rests(second, r)
    requires CanMove(RunAll(Moved(RunAll(Moved(w, Advance(r, x)), first), Advance(r, y)), second), Advance(r, z))
    ensures var q, recovery := w.sessions[r].request, RunAll(Moved(w, Advance(r, x)), first);
      var found := Moved(recovery, Advance(r, y));
      var end := Moved(RunAll(found, second), Advance(r, z));
      var refused, rows := RowsFor(w.sys.tasks, q, Pending) != {}, RowsFor(recovery.sys.tasks, q, Pending);
      && (end.sessions[r].phase.Raised? <==> refused && rows == {})
      && (end.sessions[r].phase.Finished? && end.sessions[r].phase.outcome.Missed?
          <==> refused && rows != {} && !Untaken(found, second, Least(rows)))
      && (!refused ==> end.sessions[r].phase == Finished(x, Inserted))
  {
    AttainableOk(w);
    InsertAttempt(w, r, x);
    AdvanceOk(w, r, x);
    var tried := Moved(w, Advance(r, x));
    RunOk(tried, first);
    RestingSession(tried, first, r);
    AfterInsert(RunAll(tried, first), r, y, second, z);
  }

  /** The rest of an endpoint edit once its insert has been accepted or refused. */
  lemma AfterInsert(w: World, r: nat, y: nat, moves: seq<Move>, z: nat)
    requires WorldOk(w) && CanMove(w, Advance(r, y)) && w.sessions[r].request.style.ForAnEndpoint? && w.sessions[r].request.update
    requires w.sessions[r].phase.Recovering? || w.sessions[r].phase.Finished?
    requires CanRun(Moved(w, Advance(r, y)), moves) && Rests(moves, r)
    requires CanMove(RunAll(Moved(w, Advance(r, y)), moves), Advance(r, z))
    ensures var q, found := w.sessions[r].request, Moved(w, Advance(r, y));
      var phase, rows := Moved(RunAll(found, moves), Advance(r, z)).sessions[r].phase, RowsFor(w.sys.tasks, q, Pending);
      && (w.sessions[r].phase.Finished? ==> phase == w.sessions[r].phase)
      && (w.sessions[r].phase.Recovering? ==>
            && (phase.Raised? <==> rows == {})
            && (phase.Finished? && phase.outcome.Missed? <==> rows != {} && !Untaken(found, moves, Least(rows))))
  {
    var found := Moved(w, Advance(r, y));
    RestingSession(found, moves, r);
    var now, rows := RunAll(found, moves), RowsFor(w.sys.tasks, w.sessions[r].request, Pending);
    if w.sessions[r].phase.Finished? {
      FinalStays(w, r, y);
      FinalStays(now, r, z);
    } else {
      RecoveryLookup(w, r, y);
      if rows == {} {
        FinalStays(now, r, z);
      } else {
        PendingIffUntaken(found, moves, Least(rows));
        RecoveryRefresh(now, r, z);
      }
    }
  }

  lemma RecoveryRefresh(w: World, r: nat, z: nat)
    requires CanMove(w, Advance(r, z)) && w.sessions[r].phase.RecoveryRefreshing?
    ensures var id := w.sessions[r].phase.id;
      Moved(w, Advance(r, z)).sessions[r].phase == Finished(id, if HasStatus(w.sys.tasks, id, Pending) then Installed else Missed)
  {
  }

}
