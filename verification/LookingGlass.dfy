/**
Looking Glass queries: external records that mirror a query task under a queue
deadline, a total deadline and a retention period, admitted through a bounded
queue per node.
 */
module LookingGlass {

  import opened Wrappers
  import opened Tasks

  datatype QueryStatus = Queued | Executing | Answered | Refused | Withdrawn | Expired {
    predicate Active() {
      Queued? || Executing?
    }
  }

  datatype Query = Query(key: nat, node: nat, fingerprint: string, status: QueryStatus, task: nat,
                         createdAt: int, deadline: int, expiresAt: int)

  datatype State = State(now: int, tasks: Table, queries: map<nat, Query>)

  const QUEUE_LIMIT := 20
  const QUEUE_TIMEOUT := 30
  const TOTAL_DEADLINE := 60
  const RETENTION := 600
  const CACHE_WINDOW := 5

  const TIMED_OUT := Result("query_timeout", "query queue timeout before agent polling")

  /** What refreshing a query writes into its task: only an overdue pending row is failed. */
  function RefreshedTask(task: Task, now: int): Task {
    if task.status.Pending? && task.deadline.Some? && task.deadline.value <= now then
      task.(status := Failed, result := Some(TIMED_OUT))
    else task
  }

  /** The status a task gives to its query, before the query's own deadline is looked at. */
  function Mirrored(task: Task, now: int): QueryStatus {
    match RefreshedTask(task, now).status
    case Pending => Queued
    case Running => Executing
    case Succeeded => if task.result.Some? && task.result.value.errorCode != "" then Refused else Answered
    case Failed => Refused
    case Cancelled => Withdrawn
  }

  function RefreshedStatus(q: Query, task: Task, now: int): QueryStatus {
    if Mirrored(task, now).Active() && q.deadline <= now then Refused else Mirrored(task, now)
  }

  /** A refresh shows a query as active exactly while its task is unfinished and neither deadline has passed. */
  lemma RefreshActiveIff(q: Query, task: Task, now: int)
    ensures RefreshedStatus(q, task, now).Active() <==>
      && now < q.deadline
      && (task.status.Running? || (task.status.Pending? && (task.deadline.None? || now < task.deadline.value)))
  {
  }

  /**
  What a refresh shows of a query, by the outcome of its task: the answer of a success
  without an error code, a refusal for an error, a failure or a deadline that passed, a
  withdrawal for a cancellation, and otherwise whether the task waits or runs.
   */
  lemma RefreshShows(q: Query, task: Task, now: int)
    ensures var shown := RefreshedStatus(q, task, now);
      var overdue := task.status == Pending && task.deadline.Some? && task.deadline.value <= now;
      var unfinished := task.status == Pending || task.status == Running;
      && (shown == Answered <==> task.status == Succeeded && (task.result.None? || task.result.value.errorCode == ""))
      && (shown == Withdrawn <==> task.status == Cancelled)
      && (shown == Refused <==>
            || task.status == Failed || overdue || (unfinished && q.deadline <= now)
            || (task.status == Succeeded && task.result.Some? && task.result.value.errorCode != ""))
      && (shown == Queued <==> task.status == Pending && !overdue && now < q.deadline)
      && (shown == Executing <==> task.status == Running && now < q.deadline)
      && shown != Expired
      && RefreshedTask(task, now) == (if overdue then task.(status := Failed, result := RefreshedTask(task, now).result) else task)
  {
  }

  // ---------------------------------------------------------------------- steps

  datatype Event =
    | Tick(seconds: nat)
    | Move(id: nat, row: Task)
    | InsertControl(id: nat, row: Task)
    | Submit(query: nat, id: nat, key: nat, node: nat, fingerprint: string, kind: Kind, payload: Payload)
    | Reuse(query: nat)
    | Get(query: nat)
    | Report(id: nat, row: Task)

  function OpenQueryTasks(t: Table, node: nat): set<nat> {
    set id | id in t && t[id].node == node && t[id].queue.Query? && !t[id].status.Terminal()
  }

  predicate SameRequest(a: Query, key: nat, node: nat, fingerprint: string) {
    a.key == key && a.node == node && a.fingerprint == fingerprint
  }

  ghost predicate Enabled(s: State, e: Event) {
    match e
    case Tick(_) => true
    case Move(id, row) => id in s.tasks && RowMoves(s.tasks[id], row)
    case InsertControl(id, row) => id !in s.tasks && row.status.Pending? && row.queue.Control?
    case Submit(query, id, key, node, fingerprint, _, _) =>
      // Admission is serialized by the write lock on the node; the index on active queries arbitrates requests.
      && query !in s.queries && id !in s.tasks
      && |OpenQueryTasks(s.tasks, node)| < QUEUE_LIMIT
      && forall q :: q in s.queries && s.queries[q].status.Active() ==> !SameRequest(s.queries[q], key, node, fingerprint)
    case Reuse(query) =>
      && query in s.queries && s.queries[query].task in s.tasks
      && (s.queries[query].status.Active()
          || (s.queries[query].status.Answered? && s.queries[query].createdAt >= s.now - CACHE_WINDOW))
    case Get(query) => query in s.queries && s.queries[query].task in s.tasks
    case Report(id, row) => id in s.tasks && s.tasks[id].status.Running? && RowMoves(s.tasks[id], row)
  }

  function Refresh(s: State, query: nat): State
    requires query in s.queries && s.queries[query].task in s.tasks
  {
    var q := s.queries[query];
    var task := s.tasks[q.task];
    s.(tasks := s.tasks[q.task := RefreshedTask(task, s.now)],
       queries := s.queries[query := q.(status := RefreshedStatus(q, task, s.now))])
  }

  /** The queries whose task is `id`, refreshed after its report was recorded. */
  function RefreshAll(queries: map<nat, Query>, id: nat, task: Task, now: int): map<nat, Query> {
    map q | q in queries :: if queries[q].task == id then queries[q].(status := RefreshedStatus(queries[q], task, now)) else queries[q]
  }

  function Apply(s: State, e: Event): State
    requires Enabled(s, e)
  {
    match e
    case Tick(seconds) => s.(now := s.now + seconds)
    case Move(id, row) => s.(tasks := s.tasks[id := row])
    case InsertControl(id, row) => s.(tasks := s.tasks[id := row])
    case Submit(query, id, key, node, fingerprint, kind, payload) =>
      s.(tasks := s.tasks[id := Task(node, None, kind, payload, Queue.Query, 50, Pending, None, Some(s.now + QUEUE_TIMEOUT), None, None)],
         queries := s.queries[query := Query.Query(key, node, fingerprint, Queued, id, s.now, s.now + TOTAL_DEADLINE, s.now + RETENTION)])
    case Reuse(query) => Refresh(s, query)
    case Get(query) =>
      if s.queries[query].expiresAt <= s.now then
        s.(queries := s.queries[query := s.queries[query].(status := Expired)])
      else Refresh(s, query)
    case Report(id, row) => s.(tasks := s.tasks[id := row], queries := RefreshAll(s.queries, id, row, s.now))
  }

  ghost predicate Legal(s: State, events: seq<Event>)
    decreases |events|
  {
    events != [] ==> Enabled(s, events[0]) && Legal(Apply(s, events[0]), events[1..])
  }

  ghost function After(s: State, events: seq<Event>): State
    requires Legal(s, events)
    decreases |events|
  {
    if events == [] then s else After(Apply(s, events[0]), events[1..])
  }

  const INITIAL := State(0, map[], map[])

  ghost predicate Reachable(s: State) {
    exists events :: Legal(INITIAL, events) && After(INITIAL, events) == s
  }

  // ------------------------------------------------------------------ invariant

  /** A query that is no longer active can never be shown as active again. */
  ghost predicate Over(s: State, q: Query)
    requires q.task in s.tasks
  {
    s.tasks[q.task].status.Terminal() || q.deadline <= s.now
  }

  ghost predicate QueryOk(s: State, q: Query) {
    && q.task in s.tasks
    && q.deadline == q.createdAt + TOTAL_DEADLINE && q.expiresAt == q.createdAt + RETENTION
    && (!q.status.Active() ==> Over(s, q))
  }

  ghost predicate QueriesOk(s: State) {
    forall q :: q in s.queries ==> QueryOk(s, s.queries[q])
  }

  ghost predicate OneActive(queries: map<nat, Query>) {
    forall i, j | i in queries && j in queries && queries[i].status.Active() && queries[j].status.Active() ::
      SameRequest(queries[i], queries[j].key, queries[j].node, queries[j].fingerprint) ==> i == j
  }

  ghost predicate QueueBounded(t: Table) {
    forall node: nat :: |OpenQueryTasks(t, node)| <= QUEUE_LIMIT
  }

  ghost predicate Inv(s: State) {
    QueriesOk(s) && OneActive(s.queries) && QueueBounded(s.tasks)
  }

  lemma RefreshMoves(task: Task, now: int)
    ensures RefreshedTask(task, now) == task || RowMoves(task, RefreshedTask(task, now))
  {
  }

  /** A query without a chance of being active is not made active by a refresh. */
  lemma ClosedStaysInactive(s: State, q: Query)
    requires q.task in s.tasks && Over(s, q)
    ensures !RefreshedStatus(q, s.tasks[q.task], s.now).Active()
  {
  }

  /** Writing one existing row opens no query task. */
  lemma MoveKeepsQueue(t: Table, id: nat, row: Task)
    requires QueueBounded(t) && id in t && (row == t[id] || RowMoves(t[id], row))
    ensures QueueBounded(t[id := row])
  {
    var u := t[id := row];
    forall node: nat ensures |OpenQueryTasks(u, node)| <= QUEUE_LIMIT {
      SubsetSize(OpenQueryTasks(u, node), OpenQueryTasks(t, node));
    }
  }

  /** A new row takes at most one place, in the queue of its own node. */
  lemma InsertKeepsQueue(t: Table, id: nat, row: Task)
    requires QueueBounded(t) && id !in t
    requires row.queue.Query? ==> |OpenQueryTasks(t, row.node)| < QUEUE_LIMIT
    ensures QueueBounded(t[id := row])
  {
    var u := t[id := row];
    forall node: nat ensures |OpenQueryTasks(u, node)| <= QUEUE_LIMIT {
      var before := OpenQueryTasks(t, node);
      assert OpenQueryTasks(u, node) == before || OpenQueryTasks(u, node) == before + {id};
      assert node != row.node || row.queue.Control? ==> OpenQueryTasks(u, node) == before;
    }
  }

  lemma StepKeepsQueue(s: State, e: Event)
    requires QueueBounded(s.tasks) && Enabled(s, e)
    ensures QueueBounded(Apply(s, e).tasks)
  {
    match e
    case Tick(_) =>
    case Move(id, row) => MoveKeepsQueue(s.tasks, id, row);
    case Report(id, row) => MoveKeepsQueue(s.tasks, id, row);
    case InsertControl(id, row) => InsertKeepsQueue(s.tasks, id, row);
    case Submit(_, id, _, _, _, _, _) => InsertKeepsQueue(s.tasks, id, Apply(s, e).tasks[id]);
    case Reuse(query) => RefreshKeepsQueue(s, query);
    case Get(query) => RefreshKeepsQueue(s, query);
  }

  lemma RefreshKeepsQueue(s: State, query: nat)
    requires QueueBounded(s.tasks) && query in s.queries && s.queries[query].task in s.tasks
    ensures QueueBounded(Refresh(s, query).tasks)
  {
    var id := s.queries[query].task;
    RefreshMoves(s.tasks[id], s.now);
    MoveKeepsQueue(s.tasks, id, RefreshedTask(s.tasks[id], s.now));
  }

  lemma StepEvolves(s: State, e: Event)
    requires Enabled(s, e)
    ensures Evolves(s.tasks, Apply(s, e).tasks) && s.now <= Apply(s, e).now
  {
  }

  /** No step makes an inactive query active; new queries are the only new active ones. */
  lemma StepKeepsInactive(s: State, e: Event, q: nat)
    requires QueriesOk(s) && Enabled(s, e) && q in s.queries && !s.queries[q].status.Active()
    ensures q in Apply(s, e).queries && !Apply(s, e).queries[q].status.Active()
  {
    assert QueryOk(s, s.queries[q]);
    ClosedStaysInactive(s, s.queries[q]);
  }

  lemma StepKeepsQueries(s: State, e: Event)
    requires QueriesOk(s) && Enabled(s, e)
    ensures QueriesOk(Apply(s, e))
  {
    var s' := Apply(s, e);
    StepEvolves(s, e);
    forall q | q in s'.queries ensures QueryOk(s', s'.queries[q]) {
      if q in s.queries {
        assert QueryOk(s, s.queries[q]);
        RefreshActiveIff(s.queries[q], s.tasks[s.queries[q].task], s.now);
      }
    }
  }

  lemma StepKeepsOneActive(s: State, e: Event)
    requires QueriesOk(s) && OneActive(s.queries) && Enabled(s, e)
    ensures OneActive(Apply(s, e).queries)
  {
    var before, after := s.queries, Apply(s, e).queries;
    forall q | q in before
      ensures q in after && SameRequest(after[q], before[q].key, before[q].node, before[q].fingerprint)
      ensures after[q].status.Active() ==> before[q].status.Active()
    {
      if !before[q].status.Active() {
        StepKeepsInactive(s, e, q);
      }
    }
  }

  lemma {:induction false} RunKeepsInv(s: State, events: seq<Event>)
    requires Inv(s) && Legal(s, events)
    ensures Inv(After(s, events))
    decreases |events|
  {
    if events != [] {
      StepKeepsQueue(s, events[0]);
      StepKeepsQueries(s, events[0]);
      StepKeepsOneActive(s, events[0]);
      RunKeepsInv(Apply(s, events[0]), events[1..]);
    }
  }

  lemma ReachableInv(s: State)
    requires Reachable(s)
    ensures Inv(s)
  {
    var events :| Legal(INITIAL, events) && After(INITIAL, events) == s;
    assert forall node: nat :: OpenQueryTasks(map[], node) == {};
    RunKeepsInv(INITIAL, events);
  }

  // ----------------------------------------------------------------- properties

  lemma {:induction false} InactiveForEver(s: State, events: seq<Event>, q: nat)
    requires QueriesOk(s) && Legal(s, events) && q in s.queries && !s.queries[q].status.Active()
    ensures q in After(s, events).queries && !After(s, events).queries[q].status.Active()
    decreases |events|
  {
    if events != [] {
      StepKeepsInactive(s, events[0], q);
      StepKeepsQueries(s, events[0]);
      InactiveForEver(Apply(s, events[0]), events[1..], q);
    }
  }

  /**
  The times of a query in every run: an answer is due within a minute and kept for ten, its task
  can be fetched for half a minute, and an answer is reused only within five seconds of the request.
   */
  lemma QueryTimes(s: State, q: nat)
    requires Reachable(s) && q in s.queries
    ensures s.queries[q].deadline == s.queries[q].createdAt + 60 && s.queries[q].expiresAt == s.queries[q].createdAt + 600
    ensures Enabled(s, Reuse(q)) && !s.queries[q].status.Active() ==> s.queries[q].status == Answered && s.now <= s.queries[q].createdAt + 5
    ensures forall e: Event | e.Submit? && Enabled(s, e) ::
      var u := Apply(s, e).tasks; e.id in u && u[e.id].queue == Queue.Query && u[e.id].deadline == Some(s.now + 30)
  {
    ReachableInv(s);
    assert QueryOk(s, s.queries[q]);
  }

  /** In every run, a query that has left queued and running never returns to either. */
  lemma QueryNeverReopens(s: State, events: seq<Event>, q: nat)
    requires Reachable(s) && Legal(s, events) && q in s.queries && !s.queries[q].status.Active()
    ensures q in After(s, events).queries && !After(s, events).queries[q].status.Active()
  {
    ReachableInv(s);
    InactiveForEver(s, events, q);
  }

  /** In every run, one request has at most one active query and a node at most twenty open query tasks. */
  lemma AdmissionHolds(s: State, node: nat)
    requires Reachable(s)
    ensures |OpenQueryTasks(s.tasks, node)| <= 20
    ensures forall i, j | i in s.queries && j in s.queries && s.queries[i].status.Active() && s.queries[j].status.Active() ::
      SameRequest(s.queries[i], s.queries[j].key, s.queries[j].node, s.queries[j].fingerprint) ==> i == j
  {
    ReachableInv(s);
  }

}
