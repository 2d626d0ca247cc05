/**
Runs of enqueueing requests: two in which an edit is lost, and the one in which a request
is left alone and does what the atomic version does.
 */
module EnqueueRuns {

  import opened Wrappers
  import opened Tasks
  import opened Protocol
  import opened Keys
  import opened EnqueueSteps
  import opened EnqueueRace
  import opened Enqueue

  // -------------------------------------------------------------------- growing a run

  lemma {:induction false} RunConcat(w: World, first: seq<Move>, second: seq<Move>)
    requires CanRun(w, first) && CanRun(RunAll(w, first), second)
    ensures CanRun(w, first + second) && RunAll(w, first + second) == RunAll(RunAll(w, first), second)
    decreases |first|
  {
    if first == [] {
      assert first + second == second;
    } else {
      assert (first + second)[1..] == first[1..] + second;
      RunConcat(Moved(w, first[0]), first[1..], second);
    }
  }

  lemma OneMove(w: World, m: Move)
    requires CanMove(w, m)
    ensures CanRun(w, [m]) && RunAll(w, [m]) == Moved(w, m)
  {
    assert [m][1..] == [];
  }

  lemma NextMove(w: World, moves: seq<Move>, m: Move)
    requires CanRun(w, moves) && CanMove(RunAll(w, moves), m)
    ensures CanRun(w, moves + [m]) && RunAll(w, moves + [m]) == Moved(RunAll(w, moves), m)
  {
    OneMove(RunAll(w, moves), m);
    RunConcat(w, moves, [m]);
  }

  /** Some run leads from one world to another. */
  ghost predicate CanLead(w: World, v: World) {
    exists moves :: CanRun(w, moves) && RunAll(w, moves) == v
  }

  lemma LeadsOn(w: World, v: World, m: Move)
    requires CanLead(w, v) && CanMove(v, m)
    ensures CanLead(w, Moved(v, m))
  {
    var moves :| CanRun(w, moves) && RunAll(w, moves) == v;
    NextMove(w, moves, m);
  }

  lemma LeadsNowhere(w: World)
    ensures CanLead(w, w)
  {
    assert CanRun(w, []) && RunAll(w, []) == w;
  }

  // -------------------------------------------------------------------- two rivals

  /** An edit of an endpoint: refresh what is pending, queue behind what is running. */
  predicate IsEdit(q: Request) {
    WellFormed(q) && q.style.ForAnEndpoint? && q.update && q.queueAfterRunning && q.payload.dependsOn == Missing
  }

  predicate SameTarget(a: Request, b: Request) {
    a.node == b.node && a.subject == b.subject && a.kind == b.kind
  }

  /** On an empty table both lookups find nothing. */
  lemma LookTwice(w: World, r: nat, q: Request)
    requires CanLead(START, w) && w.sys.tasks == map[]
    requires r in w.sessions && w.sessions[r] == Session(q, Looking, {}, {}) && IsEdit(q)
    ensures CanLead(START, w.(sessions := w.sessions[r := Session(q, Inserting(q.payload), {}, {})]))
  {
    var m := Advance(r, 0);
    var v := w.(sessions := w.sessions[r := Session(q, LookingForRunning, {}, {})]);
    assert RowsFor(w.sys.tasks, q, Pending) == {} && w.sys.tasks.Keys == {};
    assert Moved(w, m) == v;
    LeadsOn(START, w, m);
    assert RowsFor(w.sys.tasks, q, Running) == {};
    assert Moved(v, m) == w.(sessions := w.sessions[r := Session(q, Inserting(q.payload), {}, {})]);
    LeadsOn(START, v, m);
  }

  function TwoSessions(a: Session, b: Session): map<nat, Session> {
    map[0 := a, 1 := b]
  }

  /** Both requests have looked and found nothing. */
  lemma BothLooked(a: Request, b: Request)
    requires IsEdit(a) && IsEdit(b)
    ensures CanLead(START, World(INITIAL, TwoSessions(Session(a, Inserting(a.payload), {}, {}), Session(b, Inserting(b.payload), {}, {}))))
  {
    LeadsNowhere(START);
    LeadsOn(START, START, Begin(0, a));
    var w1 := World(INITIAL, map[0 := Session(a, Looking, {}, {})]);
    assert Moved(START, Begin(0, a)) == w1;
    LeadsOn(START, w1, Begin(1, b));
    var w2 := World(INITIAL, TwoSessions(Session(a, Looking, {}, {}), Session(b, Looking, {}, {})));
    assert Moved(w1, Begin(1, b)) == w2;
    LookTwice(w2, 0, a);
    var w3 := World(INITIAL, TwoSessions(Session(a, Inserting(a.payload), {}, {}), Session(b, Looking, {}, {})));
    assert w3 == w2.(sessions := w2.sessions[0 := Session(a, Inserting(a.payload), {}, {})]);
    LookTwice(w3, 1, b);
    assert w3.sessions[1 := Session(b, Inserting(b.payload), {}, {})]
        == TwoSessions(Session(a, Inserting(a.payload), {}, {}), Session(b, Inserting(b.payload), {}, {}));
  }

  /** The second request inserts; the first is refused. */
  lemma FirstRefused(a: Request, b: Request, x: nat)
    requires IsEdit(a) && IsEdit(b) && SameTarget(a, b)
    ensures CanLead(START, World(INITIAL.(tasks := map[x := NewRow(b, b.payload)]),
              TwoSessions(Session(a, Recovering(a.payload), {}, {x}), Session(b, Finished(x, Inserted), {}, {}))))
  {
    BothLooked(a, b);
    var sa, sb := Session(a, Inserting(a.payload), {}, {}), Session(b, Inserting(b.payload), {}, {});
    var w := World(INITIAL, TwoSessions(sa, sb));
    assert RowsWithKey(map[], b) == {};
    LeadsOn(START, w, Advance(1, x));
    var v := Moved(w, Advance(1, x));
    var t := map[x := NewRow(b, b.payload)];
    assert v == World(INITIAL.(tasks := t), TwoSessions(sa, Session(b, Finished(x, Inserted), {}, {})));
    assert RowsWithKey(t, a) == {x};
    assert !KeyIsFree(t, Some(RequestKey(a)));
    LeadsOn(START, v, Advance(0, x + 1));
    assert Moved(v, Advance(0, x + 1))
        == World(v.sys, TwoSessions(Session(a, Recovering(a.payload), {}, {x}), Session(b, Finished(x, Inserted), {}, {})));
  }

  /**
  An edit that raises: the row that refused the insert is cancelled before the recovery
  looks for it. Nothing is queued for the endpoint.
   */
  lemma EditRaises(a: Request, b: Request, x: nat, reason: Result) returns (w: World)
    requires IsEdit(a) && IsEdit(b) && SameTarget(a, b)
    ensures Attainable(w) && 0 in w.sessions && w.sessions[0].request == a && w.sessions[0].phase == Raised
    ensures RowsFor(w.sys.tasks, a, Pending) == {}
  {
    FirstRefused(a, b, x);
    var t := map[x := NewRow(b, b.payload)];
    var w1 := World(INITIAL.(tasks := t), TwoSessions(Session(a, Recovering(a.payload), {}, {x}), Session(b, Finished(x, Inserted), {}, {})));
    var e := Elsewhere(Cancel(x, reason));
    LeadsOn(START, w1, e);
    var w2 := Moved(w1, e);
    assert RowsWithKey(w2.sys.tasks, a) == {};
    LeadsOn(START, w2, Advance(0, x + 1));
    w := Moved(w2, Advance(0, x + 1));
    assert RowsFor(w.sys.tasks, a, Pending) == {};
  }

  /**
  An edit that is lost: the row that refused the insert is claimed between the recovery's
  lookup and its refresh, whose row count is not looked at. The row runs with the other
  request's payload, and nothing is queued behind it.
   */
  lemma EditLost(a: Request, b: Request, x: nat) returns (w: World)
    requires IsEdit(a) && IsEdit(b) && SameTarget(a, b) && b.payload.bytes <= MAX_PAYLOAD_BYTES
    ensures Attainable(w) && 0 in w.sessions && w.sessions[0].request == a && w.sessions[0].phase == Finished(x, Missed)
    ensures HasStatus(w.sys.tasks, x, Running) && w.sys.tasks[x].payload == b.payload
    ensures RowsFor(w.sys.tasks, a, Pending) == {}
  {
    FirstRefused(a, b, x);
    var t := map[x := NewRow(b, b.payload)];
    var sb := Session(b, Finished(x, Inserted), {}, {});
    var w1 := World(INITIAL.(tasks := t), TwoSessions(Session(a, Recovering(a.payload), {}, {x}), sb));
    assert RowsWithKey(t, a) == {x};
    LeadsOn(START, w1, Advance(0, x + 1));
    var w2 := Moved(w1, Advance(0, x + 1));
    assert w2 == World(w1.sys, TwoSessions(Session(a, RecoveryRefreshing(x, a.payload), {}, {x}), sb));
    w := RefreshComesLate(w2, a, x);
  }

  lemma RefreshComesLate(w: World, a: Request, x: nat) returns (v: World)
    requires CanLead(START, w) && w.sys == INITIAL.(tasks := w.sys.tasks) && w.sys.tasks.Keys == {x}
    requires 0 in w.sessions && w.sessions[0].request == a && WellFormed(a) && w.sessions[0].phase == RecoveryRefreshing(x, a.payload)
    requires HasStatus(w.sys.tasks, x, Pending) && w.sys.tasks[x].node == a.node && PollVerdict(w.sys.tasks, x).Ready?
    ensures CanLead(START, v) && 0 in v.sessions && v.sessions[0].request == a && v.sessions[0].phase == Finished(x, Missed)
    ensures HasStatus(v.sys.tasks, x, Running) && v.sys.tasks[x].payload == w.sys.tasks[x].payload
    ensures RowsFor(v.sys.tasks, a, Pending) == {}
  {
    var w1 := ClaimInWorld(w, a.node, x);
    LeadsOn(START, w1, Advance(0, x + 1));
    v := Moved(w1, Advance(0, x + 1));
    assert RowsFor(v.sys.tasks, a, Pending) == {};
  }

  lemma ClaimInWorld(w: World, node: nat, x: nat) returns (v: World)
    requires CanLead(START, w) && w.sys == INITIAL.(tasks := w.sys.tasks)
    requires HasStatus(w.sys.tasks, x, Pending) && w.sys.tasks[x].node == node && PollVerdict(w.sys.tasks, x).Ready?
    ensures CanLead(START, v) && v.sessions == w.sessions
    ensures v.sys.tasks == w.sys.tasks[x := w.sys.tasks[x].(status := Running, startedAt := Some(0))]
    ensures v.sys.handed == [Handout(0, node, x, w.sys.tasks[x].kind, w.sys.tasks[x].payload, w.sys.tasks[x].payload)]
  {
    var row := w.sys.tasks[x];
    var h := Handout(0, node, x, row.kind, row.payload, row.payload);
    LeadsOn(START, w, Elsewhere(PollOpen(node)));
    var s1 := w.sys.(nextPoll := 1, polls := map[0 := PollSession(node, None, [])], agents := map[node := IDLE.(polling := Some(0))]);
    assert Moved(w, Elsewhere(PollOpen(node))) == w.(sys := s1);
    SelectInWorld(w.(sys := s1), node, x, h);
    var s2 := s1.(polls := map[0 := PollSession(node, Some(h), [])]);
    LeadsOn(START, w.(sys := s2), Elsewhere(PollClaim(0)));
    v := Moved(w.(sys := s2), Elsewhere(PollClaim(0)));
    assert [] + [h] == [h];
  }

  lemma SelectInWorld(w: World, node: nat, x: nat, h: Handout)
    requires CanLead(START, w) && w.sys.polls == map[0 := PollSession(node, None, [])]
    requires HasStatus(w.sys.tasks, x, Pending) && w.sys.tasks[x].node == node && PollVerdict(w.sys.tasks, x).Ready?
    requires h == Handout(0, node, x, w.sys.tasks[x].kind, w.sys.tasks[x].payload, w.sys.tasks[x].payload)
    ensures CanLead(START, w.(sys := w.sys.(polls := map[0 := PollSession(node, Some(h), [])])))
  {
    LeadsOn(START, w, Elsewhere(PollSelect(0, x)));
    assert Moved(w, Elsewhere(PollSelect(0, x))) == w.(sys := w.sys.(polls := map[0 := PollSession(node, Some(h), [])]));
  }

  // ----------------------------------------------------------------- interface requests

  /** An edit of an interface whose payload a poll can hand out at once. */
  predicate IsInterfaceEdit(q: Request) {
    && WellFormed(q) && q.style.ForAnInterface? && q.update && q.queueAfterRunning
    && q.payload.dependsOn == Missing && q.payload.bytes <= MAX_PAYLOAD_BYTES
  }

  lemma SameKeys(a: Request, b: Request)
    requires IsInterfaceEdit(a) && IsInterfaceEdit(b) && SameTarget(a, b)
    ensures RequestKey(a) == RequestKey(b)
  {
  }

  function WithSession(w: World, r: nat, s: Session): World {
    w.(sessions := w.sessions[r := s])
  }

  /** A request begins, and both its lookups find nothing pending; it is going to insert. */
  lemma BeginAndLook(w: World, r: nat, q: Request)
    requires CanLead(START, w) && r !in w.sessions && IsInterfaceEdit(q) && RowsFor(w.sys.tasks, q, Pending) == {}
    ensures CanLead(START, WithSession(w, r, Session(q, Inserting(q.payload), w.sys.tasks.Keys, {})))
  {
    LeadsOn(START, w, Begin(r, q));
    var w1 := WithSession(w, r, Session(q, Looking, {}, {}));
    var m := Advance(r, Unused(w.sys.tasks.Keys));
    LeadsOn(START, w1, m);
    var w2 := WithSession(w, r, Session(q, LookingForRunning, w.sys.tasks.Keys, {}));
    assert Moved(w1, m) == w2;
    LeadsOn(START, w2, m);
    assert Moved(w2, m) == WithSession(w, r, Session(q, Inserting(q.payload), w.sys.tasks.Keys, {}));
  }

  /** An id that no row has. */
  ghost function Unused(ids: set<nat>): (x: nat)
    ensures x !in ids
  {
    if ids == {} then 0 else Greatest(ids) + 1
  }

  lemma InsertNow(w: World, r: nat, q: Request, free: set<nat>, x: nat)
    requires CanLead(START, w) && IsInterfaceEdit(q) && x !in w.sys.tasks && RowsWithKey(w.sys.tasks, q) == {}
    requires r in w.sessions && w.sessions[r] == Session(q, Inserting(q.payload), free, {})
    ensures CanLead(START, World(w.sys.(tasks := w.sys.tasks[x := NewRow(q, q.payload)]), w.sessions[r := Session(q, Finished(x, Inserted), free, {})]))
  {
    NoKeyMeansFree(w.sys.tasks, q);
    LeadsOn(START, w, Advance(r, x));
  }

  lemma NoKeyMeansFree(t: Table, q: Request)
    requires WellFormed(q)
    ensures RowsWithKey(t, q) == {} <==> KeyIsFree(t, Some(RequestKey(q)))
  {
    assert forall id :: id in t && t[id].status.Pending? && t[id].dedup == Some(RequestKey(q)) <==> id in RowsWithKey(t, q);
  }

  /** One interface request has inserted its row. */
  lemma OneInserted(b: Request, x: nat) returns (w: World)
    requires IsInterfaceEdit(b)
    ensures CanLead(START, w) && w.sys == INITIAL.(tasks := map[x := NewRow(b, b.payload)])
    ensures w.sessions == map[1 := Session(b, Finished(x, Inserted), {}, {})]
  {
    LeadsNowhere(START);
    assert RowsFor(map[], b, Pending) == {} && RowsWithKey(map[], b) == {} && INITIAL.tasks.Keys == {};
    BeginAndLook(START, 1, b);
    var w1 := WithSession(START, 1, Session(b, Inserting(b.payload), {}, {}));
    InsertNow(w1, 1, b, {}, x);
    w := World(INITIAL.(tasks := map[x := NewRow(b, b.payload)]), map[1 := Session(b, Finished(x, Inserted), {}, {})]);
    assert w == World(w1.sys.(tasks := w1.sys.tasks[x := NewRow(b, b.payload)]), w1.sessions[1 := Session(b, Finished(x, Inserted), {}, {})]);
  }

  /**
  An interface edit that comes too late: the row it found pending is claimed before the write,
  which is not conditional. The agent has been given the old payload, the running row holds the
  new one, the request has succeeded, and nothing is queued.
   */
  lemma InterfaceEditTooLate(a: Request, b: Request, x: nat) returns (w: World)
    requires IsInterfaceEdit(a) && IsInterfaceEdit(b) && SameTarget(a, b)
    ensures Attainable(w) && 0 in w.sessions && w.sessions[0].request == a && w.sessions[0].phase == Finished(x, TooLate)
    ensures HasStatus(w.sys.tasks, x, Running) && w.sys.tasks[x].payload == a.payload
    ensures w.sys.handed == [Handout(0, b.node, x, b.kind, b.payload, b.payload)]
    ensures RowsFor(w.sys.tasks, a, Pending) == {}
  {
    var w0 := OneInserted(b, x);
    LeadsOn(START, w0, Begin(0, a));
    var w1 := WithSession(w0, 0, Session(a, Looking, {}, {}));
    assert RowsFor(w0.sys.tasks, a, Pending) == {x};
    LeadsOn(START, w1, Advance(0, x + 1));
    var w2 := Moved(w1, Advance(0, x + 1));
    assert w2.sys == w0.sys && w2.sessions[0].phase == Overwriting(x, a.payload);
    assert PollVerdict(w0.sys.tasks, x).Ready?;
    var w3 := ClaimInWorld(w2, b.node, x);
    LeadsOn(START, w3, Advance(0, x + 1));
    w := Moved(w3, Advance(0, x + 1));
    assert RowsFor(w.sys.tasks, a, Pending) == {};
  }

  /** A row runs, and two requests are going to insert behind it. */
  lemma TwoBehindRunning(a: Request, b: Request, c: Request, x: nat) returns (w: World)
    requires IsInterfaceEdit(a) && IsInterfaceEdit(b) && IsInterfaceEdit(c) && SameTarget(a, b) && SameTarget(c, b)
    ensures CanLead(START, w) && w.sys.tasks == map[x := NewRow(b, b.payload).(status := Running, startedAt := Some(0))]
    ensures 0 in w.sessions && w.sessions[0] == Session(a, Inserting(a.payload), {x}, {})
    ensures 2 in w.sessions && w.sessions[2] == Session(c, Inserting(c.payload), {x}, {})
  {
    var w0 := OneInserted(b, x);
    assert PollVerdict(w0.sys.tasks, x).Ready?;
    var w1 := ClaimInWorld(w0, b.node, x);
    assert RowsFor(w1.sys.tasks, a, Pending) == {} && RowsFor(w1.sys.tasks, c, Pending) == {} && w1.sys.tasks.Keys == {x};
    BeginAndLook(w1, 0, a);
    var w2 := WithSession(w1, 0, Session(a, Inserting(a.payload), {x}, {}));
    BeginAndLook(w2, 2, c);
    w := WithSession(w2, 2, Session(c, Inserting(c.payload), {x}, {}));
  }

  /**
  An interface edit that misses: its insert is refused by a younger pending row, and the recovery
  finds the older running row first. The pending row keeps the other request's payload.
   */
  lemma InterfaceEditMissed(a: Request, b: Request, c: Request, x: nat, y: nat) returns (w: World)
    requires IsInterfaceEdit(a) && IsInterfaceEdit(b) && IsInterfaceEdit(c) && SameTarget(a, b) && SameTarget(c, b) && x < y
    ensures Attainable(w) && 0 in w.sessions && w.sessions[0].request == a && w.sessions[0].phase == Finished(x, Missed)
    ensures HasStatus(w.sys.tasks, x, Running) && w.sys.tasks[x].payload == b.payload
    ensures RowsFor(w.sys.tasks, a, Pending) == {y} && w.sys.tasks[y].payload == c.payload
  {
    var w0 := TwoBehindRunning(a, b, c, x);
    var w1 := RefusedByYounger(w0, a, c, x, y);
    assert RowsFor(w1.sys.tasks, a, Pending) == {y} && RowsFor(w1.sys.tasks, a, Running) == {x};
    w := OlderIsRunning(w1, a, x, y);
  }

  lemma OlderIsRunning(w: World, a: Request, x: nat, y: nat) returns (v: World)
    requires CanLead(START, w) && IsInterfaceEdit(a) && x < y && y + 1 !in w.sys.tasks
    requires RowsFor(w.sys.tasks, a, Pending) == {y} && RowsFor(w.sys.tasks, a, Running) == {x}
    requires 0 in w.sessions && w.sessions[0].request == a && w.sessions[0].phase == Recovering(a.payload)
    ensures CanLead(START, v) && v.sys == w.sys && 0 in v.sessions && v.sessions[0].request == a && v.sessions[0].phase == Finished(x, Missed)
  {
    assert RowsFor(w.sys.tasks, a, Pending) + RowsFor(w.sys.tasks, a, Running) == {x, y};
    assert x in RowsFor(w.sys.tasks, a, Running) && x in w.sys.tasks;
    LeadsOn(START, w, Advance(0, y + 1));
    v := Moved(w, Advance(0, y + 1));
  }

  lemma RefusedByYounger(w: World, a: Request, c: Request, x: nat, y: nat) returns (v: World)
    requires CanLead(START, w) && IsInterfaceEdit(a) && IsInterfaceEdit(c) && SameTarget(a, c) && x < y
    requires w.sys.tasks.Keys == {x} && HasLeft(w.sys.tasks, x)
    requires 0 in w.sessions && w.sessions[0] == Session(a, Inserting(a.payload), {x}, {})
    requires 2 in w.sessions && w.sessions[2] == Session(c, Inserting(c.payload), {x}, {})
    ensures CanLead(START, v) && v.sys.tasks == w.sys.tasks[y := NewRow(c, c.payload)]
    ensures 0 in v.sessions && v.sessions[0].request == a && v.sessions[0].phase == Recovering(a.payload)
  {
    var t := w.sys.tasks;
    assert RowsWithKey(t, c) == {};
    InsertNow(w, 2, c, {x}, y);
    var u := t[y := NewRow(c, c.payload)];
    var w1 := World(w.sys.(tasks := u), w.sessions[2 := Session(c, Finished(y, Inserted), {x}, {})]);
    SameKeys(a, c);
    assert RowsWithKey(u, a) == {y};
    NoKeyMeansFree(u, a);
    LeadsOn(START, w1, Advance(0, y + 1));
    v := Moved(w1, Advance(0, y + 1));
  }

  // ---------------------------------------------------------------- a request left alone

  /** A request in a world, advanced by itself alone. */
  ghost predicate Alone(w: World, r: nat, newId: nat, steps: nat, v: World)
    decreases steps
  {
    if steps == 0 then v == w
    else CanMove(w, Advance(r, newId)) && Alone(Moved(w, Advance(r, newId)), r, newId, steps - 1, v)
  }

  /** The request has finished with a row, and the tables relate as in the atomic version. */
  ghost predicate EndsAtomically(t: Table, v: World, r: nat, q: Request)
    requires WellFormed(q) && q.style.ForAnEndpoint?
  {
    && r in v.sessions && v.sessions[r].phase.Finished? && !v.sessions[r].phase.outcome.Missed?
    && Enqueued(t, v.sys.tasks, v.sessions[r].phase.id, q.node, q.subject, q.kind, q.payload, q.update, q.queueAfterRunning)
  }

  lemma AloneInserts(w: World, r: nat, newId: nat, payload: Payload) returns (v: World)
    requires WorldOk(w) && CanMove(w, Advance(r, newId)) && w.sessions[r].request.style.ForAnEndpoint?
    requires w.sessions[r].phase == Inserting(payload) && RowsFor(w.sys.tasks, w.sessions[r].request, Pending) == {}
    ensures Alone(w, r, newId, 1, v) && v == Moved(w, Advance(r, newId))
    ensures v.sessions[r].phase == Finished(newId, Inserted)
    ensures v.sys.tasks == w.sys.tasks[newId := NewRow(w.sessions[r].request, payload)]
  {
    var q := w.sessions[r].request;
    NoPendingMeansKeyFree(w.sys.tasks, q.subject, q.kind);
    v := Moved(w, Advance(r, newId));
    assert Alone(v, r, newId, 0, v);
  }

  lemma AloneFindsPending(w: World, r: nat, newId: nat) returns (v: World, steps: nat)
    requires WorldOk(w) && CanMove(w, Advance(r, newId)) && w.sessions[r].request.style.ForAnEndpoint?
    requires w.sessions[r].phase.Looking? && RowsFor(w.sys.tasks, w.sessions[r].request, Pending) != {}
    ensures Alone(w, r, newId, steps, v) && EndsAtomically(w.sys.tasks, v, r, w.sessions[r].request)
  {
    var q, m := w.sessions[r].request, Advance(r, newId);
    LookShows(w.sys.tasks, q);
    var id := Least(RowsFor(w.sys.tasks, q, Pending));
    assert RowsFor(w.sys.tasks, q, Pending) == {id};
    v := Moved(w, m);
    if !q.update {
      assert Alone(v, r, newId, 0, v);
      return v, 1;
    }
    var v2 := Moved(v, m);
    assert Alone(v2, r, newId, 0, v2);
    assert Alone(v, r, newId, 1, v2);
    return v2, 2;
  }

  lemma AloneFindsNone(w: World, r: nat, newId: nat) returns (v: World, steps: nat)
    requires WorldOk(w) && CanMove(w, Advance(r, newId)) && w.sessions[r].request.style.ForAnEndpoint?
    requires w.sessions[r].phase.Looking? && RowsFor(w.sys.tasks, w.sessions[r].request, Pending) == {}
    ensures Alone(w, r, newId, steps, v) && EndsAtomically(w.sys.tasks, v, r, w.sessions[r].request)
  {
    var q, m, t := w.sessions[r].request, Advance(r, newId), w.sys.tasks;
    var running := RowsFor(t, q, Running);
    var w1 := Moved(w, m);
    var w2 := Moved(w1, m);
    assert w1.sys == w.sys && w2.sys == w.sys;
    AdvanceOk(w, r, newId);
    AdvanceOk(w1, r, newId);
    if running != {} && !q.queueAfterRunning {
      assert Alone(w2, r, newId, 0, w2);
      assert Alone(w1, r, newId, 1, w2);
      return w2, 2;
    }
    var payload := w2.sessions[r].phase.payload;
    v := AloneInserts(w2, r, newId, payload);
    assert Alone(w1, r, newId, 2, v);
    assert QueuedBehind(payload, q.payload, running);
    steps := 3;
  }

  /** Left alone, a request neither misses nor raises, and does what the atomic version does. */
  lemma AloneIsAtomic(w: World, r: nat, newId: nat) returns (v: World, steps: nat)
    requires Attainable(w) && CanMove(w, Advance(r, newId)) && w.sessions[r].request.style.ForAnEndpoint?
    requires w.sessions[r].phase.Looking?
    ensures Alone(w, r, newId, steps, v) && EndsAtomically(w.sys.tasks, v, r, w.sessions[r].request)
  {
    AttainableOk(w);
    if RowsFor(w.sys.tasks, w.sessions[r].request, Pending) == {} {
      v, steps := AloneFindsNone(w, r, newId);
    } else {
      v, steps := AloneFindsPending(w, r, newId);
    }
  }

  // --------------------------------------------------------------------- apply and start

  /**
  Deploying and starting an endpoint with anything in between: when the start has been
  enqueued behind the row that enqueueing the apply returned, it is the endpoint's only
  pending start and depends on that row, which is the endpoint's only pending apply or has
  been claimed or closed since.
   */
  lemma StartFollowsApply(w: World, a: nat, b: nat, newId: nat)
    requires Attainable(w) && CanMove(w, Advance(b, newId)) && a in w.sessions && a != b
    requires w.sessions[a].request.kind == GreApply && w.sessions[a].phase.Finished? && w.sessions[a].phase.id > 0
    requires w.sessions[b].request.kind == GreStart && w.sessions[b].request.subject == w.sessions[a].request.subject
    requires w.sessions[b].request.payload.Fields? && w.sessions[b].request.payload.dependsOn == Integer(w.sessions[a].phase.id)
    requires !w.sessions[b].phase.Finished?
    requires var next := Moved(w, Advance(b, newId)).sessions[b].phase;
      next.Finished? && (next.outcome.Inserted? || next.outcome.Installed?)
    ensures var w', e := Moved(w, Advance(b, newId)), w.sessions[b].request.subject;
      var apply, start := w.sessions[a].phase.id, w'.sessions[b].phase.id;
      && EndpointRows(w'.sys.tasks, e, GreStart, Pending) == {start}
      && w'.sys.tasks[start].payload == w.sessions[b].request.payload && DependencyId(w'.sys.tasks[start].payload) == Some(apply)
      && apply in w'.sys.tasks && ForEndpoint(w'.sys.tasks[apply], e, GreApply)
      && (EndpointRows(w'.sys.tasks, e, GreApply, Pending) == {apply} || !w'.sys.tasks[apply].status.Pending?)
  {
    FinishedMeans(w, b, newId);
    AttainableOk(w);
    AdvanceOk(w, b, newId);
    var w' := Moved(w, Advance(b, newId));
    var q, apply := w.sessions[a].request, w.sessions[a].phase.id;
    assert RequestOk(w'.sys.tasks, w'.sessions[a]) && RequestOk(w'.sys.tasks, w'.sessions[b]);
    if w'.sys.tasks[apply].status.Pending? {
      OnlyOneFor(w'.sys.tasks, q, apply);
    }
  }

}
