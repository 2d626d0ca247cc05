/**
The controller/agent task protocol as a state machine. Each event is one write of
a handler: a poll checks a row and claims it in two events, an insert is guarded by
the unique index, a report is written by a compare-and-set, and a payload is replaced
either while the row is pending or whatever its status. The network may lose poll
responses, lose, delay and repeat reports; agents may time out and restart at any moment.
 */
module Protocol {

  import opened Wrappers
  import opened Tasks

  /**
  A task as it appears in one poll response. The payload is read after the row was
  claimed; `checked` is history, the payload that the dependency check had read.
   */
  datatype Handout = Handout(poll: nat, node: nat, task: nat, kind: Kind, payload: Payload, checked: Payload)

  /** A poll request being served: the row just found ready, and the rows claimed so far. */
  datatype PollSession = PollSession(node: nat, ready: Option<Handout>, taken: seq<Handout>)

  /** What an agent says about a task it executed. */
  datatype Report = Report(task: nat, node: nat, success: bool, result: Result)

  datatype Agent = Agent(polling: Option<nat>, queue: seq<Handout>, pending: map<nat, Report>)

  const IDLE := Agent(None, [], map[])

  /** The last three fields are the history that the properties speak about. */
  datatype System = System(
    now: int,
    tasks: Table,
    nextPoll: nat,
    polls: map<nat, PollSession>,
    responses: map<nat, PollSession>,
    agents: map<nat, Agent>,
    reports: set<Report>,
    handed: seq<Handout>,
    executed: seq<Report>,
    effects: seq<nat>)

  datatype Event =
    | Tick(seconds: nat)
    | Insert(id: nat, row: Task)
    | Refresh(id: nat, payload: Payload)
    | Overwrite(id: nat, payload: Payload)
    | Cancel(id: nat, result: Result)
    | ExpireRunning(id: nat, result: Result)
    | ExpirePending(id: nat, result: Result)
    | PollOpen(node: nat)
    | PollReject(poll: nat, id: nat, result: Result)
    | PollSelect(poll: nat, id: nat)
    | PollClaim(poll: nat)
    | PollRespond(poll: nat)
    | PollLose(poll: nat)
    | PollReceive(poll: nat)
    | PollTimeout(node: nat)
    | Execute(node: nat, success: bool, result: Result)
    | Send(node: nat, id: nat)
    | Deliver(report: Report, valid: bool, demoted: bool, stored: Result)
    | Acknowledge(node: nat, id: nat)
    | Restart(node: nat)

  const INITIAL := System(0, map[], 0, map[], map[], map[], {}, [], [], [])

  function AgentOf(s: System, node: nat): Agent {
    if node in s.agents then s.agents[node] else IDLE
  }

  predicate HasStatus(t: Table, id: nat, status: Status) {
    id in t && t[id].status == status
  }

  /** The partial unique index: no other pending row carries this key. */
  ghost predicate KeyIsFree(t: Table, key: Option<string>) {
    key.Some? ==> forall id :: id in t && t[id].status.Pending? ==> t[id].dedup != key
  }

  ghost predicate Enabled(s: System, e: Event) {
    match e
    case Tick(_) => true
    case Insert(id, row) => id !in s.tasks && row.status.Pending? && KeyIsFree(s.tasks, row.dedup)
    case Refresh(id, _) => HasStatus(s.tasks, id, Pending)
    case Overwrite(id, _) =>
      // Interface requests write a payload without looking at the status again.
      id in s.tasks
    case Cancel(id, _) => HasStatus(s.tasks, id, Pending)
    case ExpireRunning(id, _) =>
      HasStatus(s.tasks, id, Running) && s.tasks[id].startedAt.Some? && s.tasks[id].startedAt.value < s.now - RUNNING_TIMEOUT
    case ExpirePending(id, _) =>
      HasStatus(s.tasks, id, Pending) && s.tasks[id].deadline.Some? && s.tasks[id].deadline.value <= s.now
    case PollOpen(node) =>
      // The agent polls only when nothing it executed is still unacknowledged.
      AgentOf(s, node) == IDLE
    case PollReject(p, id, _) =>
      // The check was made earlier, and the write does not look at the status again.
      p in s.polls && id in s.tasks && !s.tasks[id].status.Terminal() && s.tasks[id].node == s.polls[p].node
    case PollSelect(p, id) =>
      && p in s.polls && s.polls[p].ready.None? && |s.polls[p].taken| < POLL_BATCH_SIZE
      && HasStatus(s.tasks, id, Pending) && s.tasks[id].node == s.polls[p].node
      && PollVerdict(s.tasks, id).Ready?
    case PollClaim(p) => p in s.polls && s.polls[p].ready.Some?
    case PollRespond(p) => p in s.polls && s.polls[p].ready.None?
    case PollLose(p) => p in s.responses
    case PollReceive(p) => p in s.responses && AgentOf(s, s.responses[p].node).polling == Some(p)
    case PollTimeout(node) => AgentOf(s, node).polling.Some?
    case Execute(node, _, _) => |AgentOf(s, node).queue| > 0
    case Send(node, id) => id in AgentOf(s, node).pending
    case Deliver(r, _, _, _) => r in s.reports
    case Acknowledge(node, id) => id in AgentOf(s, node).pending
    case Restart(_) => true
  }

  function Finish(t: Table, id: nat, status: Status, result: Result): Table
    requires id in t
  {
    t[id := t[id].(status := status, result := Some(result))]
  }

  function SetAgent(s: System, node: nat, a: Agent): System {
    s.(agents := s.agents[node := a])
  }

  function Apply(s: System, e: Event): System
    requires Enabled(s, e)
  {
    match e
    case Tick(seconds) => s.(now := s.now + seconds)
    case Insert(id, row) => s.(tasks := s.tasks[id := row])
    case Refresh(id, payload) => s.(tasks := s.tasks[id := s.tasks[id].(payload := payload)])
    case Overwrite(id, payload) => s.(tasks := s.tasks[id := s.tasks[id].(payload := payload)])
    case Cancel(id, result) => s.(tasks := Finish(s.tasks, id, Cancelled, result))
    case ExpireRunning(id, result) => s.(tasks := Finish(s.tasks, id, Failed, result))
    case ExpirePending(id, result) => s.(tasks := Finish(s.tasks, id, Failed, result))
    case PollOpen(node) =>
      var p := s.nextPoll;
      SetAgent(s, node, IDLE.(polling := Some(p))).(nextPoll := p + 1, polls := s.polls[p := PollSession(node, None, [])])
    case PollReject(p, id, result) => s.(tasks := Finish(s.tasks, id, Failed, result))
    case PollSelect(p, id) =>
      var row := s.tasks[id];
      s.(polls := s.polls[p := s.polls[p].(ready := Some(Handout(p, row.node, id, row.kind, row.payload, row.payload)))])
    case PollClaim(p) => Claim(s, p)
    case PollRespond(p) => s.(polls := s.polls - {p}, responses := s.responses[p := s.polls[p]])
    case PollLose(p) => s.(responses := s.responses - {p})
    case PollReceive(p) =>
      SetAgent(s, s.responses[p].node, IDLE.(queue := s.responses[p].taken)).(responses := s.responses - {p})
    case PollTimeout(node) => SetAgent(s, node, AgentOf(s, node).(polling := None))
    case Execute(node, success, result) =>
      var a := AgentOf(s, node);
      var r := Report(a.queue[0].task, node, success, result);
      SetAgent(s, node, a.(queue := a.queue[1..], pending := a.pending[r.task := r])).(executed := s.executed + [r])
    case Send(node, id) => s.(reports := s.reports + {AgentOf(s, node).pending[id]})
    case Deliver(r, valid, demoted, stored) => Record(s, r, valid, demoted, stored)
    case Acknowledge(node, id) =>
      var a := AgentOf(s, node);
      SetAgent(s, node, a.(pending := a.pending - {id}))
    case Restart(node) => SetAgent(s, node, IDLE)
  }

  /**
  The conditional update of a claim: it takes the row only if it is still pending,
  and hands out what the row holds by then.
   */
  function Claim(s: System, p: nat): System
    requires p in s.polls && s.polls[p].ready.Some?
  {
    var session := s.polls[p];
    var id := session.ready.value.task;
    if HasStatus(s.tasks, id, Pending) then
      var h := session.ready.value.(payload := s.tasks[id].payload);
      s.(tasks := s.tasks[id := s.tasks[id].(status := Running, startedAt := Some(s.now))],
         polls := s.polls[p := session.(ready := None, taken := session.taken + [h])],
         handed := s.handed + [h])
    else
      s.(polls := s.polls[p := session.(ready := None)])
  }

  /**
  The conditional update of a report: only a running row is written, and only
  the write of a valid result has business side effects. A success may be
  demoted to a failure (an old agent whose stop command failed), never the
  other way round.
   */
  function Record(s: System, r: Report, valid: bool, demoted: bool, stored: Result): System {
    if !HasStatus(s.tasks, r.task, Running) || s.tasks[r.task].node != r.node then s
    else if !valid then s.(tasks := Finish(s.tasks, r.task, Failed, stored))
    else
      s.(tasks := Finish(s.tasks, r.task, if r.success && !demoted then Succeeded else Failed, stored),
         effects := s.effects + [r.task])
  }

  // ---------------------------------------------------------------------- runs

  ghost predicate Legal(s: System, events: seq<Event>)
    decreases |events|
  {
    events != [] ==> Enabled(s, events[0]) && Legal(Apply(s, events[0]), events[1..])
  }

  ghost function After(s: System, events: seq<Event>): System
    requires Legal(s, events)
    decreases |events|
  {
    if events == [] then s else After(Apply(s, events[0]), events[1..])
  }

  ghost predicate Reachable(s: System) {
    exists events :: Legal(INITIAL, events) && After(INITIAL, events) == s
  }

}
