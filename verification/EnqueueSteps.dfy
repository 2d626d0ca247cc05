/**
Enqueueing with its statements as separate steps: the lookups, the conditional refresh,
the insert that the unique index may refuse, and the recovery after a refusal. Any number
of requests advance in any order, between any events of the protocol.
 */
module EnqueueSteps {

  import opened Wrappers
  import opened Text
  import opened Tasks
  import opened Protocol
  import opened Keys

  // ------------------------------------------------------------------- requests

  /** Endpoint requests write payloads by conditional updates; interface requests write them whatever has become of the row. */
  datatype Style = ForAnEndpoint | ForAnInterface

  datatype Request = Request(style: Style, node: nat, subject: int, kind: Kind, payload: Payload,
                             update: bool, queueAfterRunning: bool)

  datatype Outcome =
    | Inserted      // a new row carries the payload
    | Installed     // a pending row was given the payload
    | Reused        // a pending row was found and is not to be changed
    | StillRunning  // a running row was found and nothing is to be queued behind it
    | TooLate       // the payload was written into a row that had left pending
    | Missed        // the row found during recovery was not given the payload, although it should have been

  datatype Phase =
    | Looking
    | Refreshing(id: nat)
    | Overwriting(id: nat, payload: Payload)
    | LookingForRunning
    | Inserting(payload: Payload)
    | Recovering(payload: Payload)
    | RecoveryRefreshing(id: nat, payload: Payload)
    | Finished(id: nat, outcome: Outcome)
    | Raised

  /**
  The last two fields are history: the rows that existed at the lookup and are known not to
  be pending for the request, and the pending rows that held its key when an insert was refused.
   */
  datatype Session = Session(request: Request, phase: Phase, free: set<nat>, rivals: set<nat>)

  datatype World = World(sys: System, sessions: map<nat, Session>)

  predicate WellFormed(q: Request) {
    && q.payload.Fields? && q.payload.subject == Some(q.subject)
    && (q.style.ForAnEndpoint? <==> IsGre(q.kind))
  }

  function RequestKey(q: Request): string
    requires WellFormed(q)
  {
    if q.style.ForAnEndpoint? then EndpointKey(q.subject, q.kind)
    else "interface:" + (IntText(q.subject) + ":" + KindName(q.kind))
  }

  function NewRow(q: Request, payload: Payload): Task
    requires WellFormed(q)
  {
    Task(q.node, None, q.kind, payload, Control, 100, Pending, None, None, Some(RequestKey(q)), None)
  }

  /** The rows of a status that the lookups of a request find. */
  function RowsFor(t: Table, q: Request, status: Status): set<nat> {
    EndpointRows(t, q.subject, q.kind, status)
  }

  function RowsWithKey(t: Table, q: Request): set<nat>
    requires WellFormed(q)
  {
    set id | id in t && t[id].status.Pending? && t[id].dedup == Some(RequestKey(q))
  }

  ghost function Least(ids: set<nat>): (m: nat)
    requires ids != {}
    ensures m in ids && forall id :: id in ids ==> m <= id
  {
    var x :| x in ids;
    if ids == {x} then x
    else
      assert forall id :: id in ids ==> id == x || id in ids - {x};
      var m := Least(ids - {x});
      if x < m then x else m
  }

  ghost function Greatest(ids: set<nat>): (m: nat)
    requires ids != {}
    ensures m in ids && forall id :: id in ids ==> id <= m
  {
    var x :| x in ids;
    if ids == {x} then x
    else
      assert forall id :: id in ids ==> id == x || id in ids - {x};
      var m := Greatest(ids - {x});
      if x > m then x else m
  }

  // ----------------------------------------------------------------------- steps

  /** What one step of a request does: at most one event of the protocol, and its next phase. */
  datatype Effect = Effect(event: Option<Event>, phase: Phase)

  ghost function Look(t: Table, q: Request): Effect {
    var pending := RowsFor(t, q, Pending);
    if pending == {} then Effect(None, LookingForRunning)
    else
      var id := Least(pending);
      if !q.update then Effect(None, Finished(id, Reused))
      else if q.style.ForAnEndpoint? then Effect(None, Refreshing(id))
      else Effect(None, Overwriting(id, q.payload))
  }

  ghost function LookForRunning(t: Table, q: Request): Effect
    requires WellFormed(q)
  {
    var running := RowsFor(t, q, Running);
    if running == {} then Effect(None, Inserting(q.payload))
    else if !q.queueAfterRunning then
      Effect(None, Finished(if q.style.ForAnEndpoint? then Greatest(running) else Least(running), StillRunning))
    else if q.style.ForAnEndpoint? && q.payload.dependsOn == Missing then
      Effect(None, Inserting(q.payload.(dependsOn := Integer(Greatest(running)))))
    else Effect(None, Inserting(q.payload))
  }

  ghost function Recover(t: Table, q: Request, payload: Payload): Effect
    requires WellFormed(q)
  {
    if q.style.ForAnEndpoint? then
      var found := RowsWithKey(t, q);
      if found == {} then Effect(None, Raised)
      else if q.update then Effect(None, RecoveryRefreshing(Least(found), payload))
      else Effect(None, Finished(Least(found), Reused))
    else
      var found := RowsFor(t, q, Pending) + RowsFor(t, q, Running);
      if found == {} then Effect(None, Raised)
      else
        var id := Least(found);
        if t[id].status.Running? then Effect(None, Finished(id, if q.update then Missed else StillRunning))
        else if q.update then Effect(None, Overwriting(id, payload))
        else Effect(None, Finished(id, Reused))
  }

  ghost function StepOf(t: Table, q: Request, phase: Phase, newId: nat): Effect
    requires WellFormed(q)
  {
    match phase
    case Looking => Look(t, q)
    case Refreshing(id) =>
      if HasStatus(t, id, Pending) then Effect(Some(Refresh(id, q.payload)), Finished(id, Installed))
      else Effect(None, LookingForRunning)
    case Overwriting(id, payload) =>
      if id !in t then Effect(None, phase)
      else Effect(Some(Overwrite(id, payload)), Finished(id, if t[id].status.Pending? then Installed else TooLate))
    case LookingForRunning => LookForRunning(t, q)
    case Inserting(payload) =>
      if KeyIsFree(t, Some(RequestKey(q))) then Effect(Some(Insert(newId, NewRow(q, payload))), Finished(newId, Inserted))
      else Effect(None, Recovering(payload))
    case Recovering(payload) => Recover(t, q, payload)
    case RecoveryRefreshing(id, payload) =>
      if HasStatus(t, id, Pending) then Effect(Some(Refresh(id, payload)), Finished(id, Installed))
      else Effect(None, Finished(id, Missed))
    case _ => Effect(None, phase)
  }

  datatype Move =
    | Elsewhere(event: Event)
    | Begin(r: nat, request: Request)
    | Advance(r: nat, newId: nat)

  ghost predicate CanMove(w: World, m: Move) {
    match m
    case Elsewhere(e) => Enabled(w.sys, e) && Disciplined(w.sys, e)
    case Begin(r, q) => r !in w.sessions && WellFormed(q)
    case Advance(r, newId) => r in w.sessions && WellFormed(w.sessions[r].request) && newId !in w.sys.tasks
  }

  ghost function EffectOf(w: World, r: nat, newId: nat): Effect
    requires r in w.sessions && WellFormed(w.sessions[r].request)
  {
    StepOf(w.sys.tasks, w.sessions[r].request, w.sessions[r].phase, newId)
  }

  ghost function NextSession(t: Table, session: Session, phase: Phase): Session
    requires WellFormed(session.request)
  {
    match session.phase
    case Looking => session.(phase := phase, free := if phase.Refreshing? then t.Keys - {phase.id} else t.Keys)
    case Refreshing(id) => session.(phase := phase, free := session.free + {id})
    case Inserting(_) => session.(phase := phase, rivals := RowsWithKey(t, session.request))
    case _ => session.(phase := phase)
  }

  lemma StepIsEnabled(t: Table, q: Request, phase: Phase, newId: nat)
    requires WellFormed(q) && newId !in t
    ensures var e := StepOf(t, q, phase, newId).event;
      e.Some? ==>
        || (e.value.Refresh? && HasStatus(t, e.value.id, Pending))
        || (e.value.Overwrite? && e.value.id in t)
        || (e.value.Insert? && e.value.id == newId && e.value.row.status.Pending? && KeyIsFree(t, e.value.row.dedup))
  {
  }

  ghost function Moved(w: World, m: Move): World
    requires CanMove(w, m)
  {
    match m
    case Elsewhere(e) => w.(sys := Apply(w.sys, e))
    case Begin(r, q) => w.(sessions := w.sessions[r := Session(q, Looking, {}, {})])
    case Advance(r, newId) =>
      var effect, session := EffectOf(w, r, newId), w.sessions[r];
      StepIsEnabled(w.sys.tasks, session.request, session.phase, newId);
      World(if effect.event.None? then w.sys else Apply(w.sys, effect.event.value),
            w.sessions[r := NextSession(w.sys.tasks, session, effect.phase)])
  }

  ghost predicate CanRun(w: World, moves: seq<Move>)
    decreases |moves|
  {
    moves != [] ==> CanMove(w, moves[0]) && CanRun(Moved(w, moves[0]), moves[1..])
  }

  ghost function RunAll(w: World, moves: seq<Move>): World
    requires CanRun(w, moves)
    decreases |moves|
  {
    if moves == [] then w else RunAll(Moved(w, moves[0]), moves[1..])
  }

  const START := World(INITIAL, map[])

  ghost predicate Attainable(w: World) {
    exists moves :: CanRun(START, moves) && RunAll(START, moves) == w
  }

}
