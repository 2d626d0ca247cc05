/** Every row that is ready can be brought to its end: handed out, executed, reported, recorded and acknowledged. */
module Completion {

  import opened Wrappers
  import opened Tasks
  import opened Protocol
  import opened ProtocolSafety

  /** A run from one state to another. */
  ghost predicate Leads(s: System, events: seq<Event>, t: System) {
    Legal(s, events) && After(s, events) == t
  }

  lemma ThenOne(s: System, events: seq<Event>, t: System, e: Event)
    requires Leads(s, events, t) && Enabled(t, e)
    ensures Leads(s, events + [e], Apply(t, e))
  {
    LastEvent(s, events, e);
  }

  lemma Start(s: System)
    ensures Leads(s, [], s)
  {
  }

  function HandoutOf(s: System, id: nat): Handout
    requires id in s.tasks
  {
    var row := s.tasks[id];
    Handout(s.nextPoll, row.node, id, row.kind, row.payload, row.payload)
  }

  /** The state after a poll of an idle agent has handed it this row, and nothing else. */
  ghost predicate HandedTo(s: System, id: nat, t: System) {
    && HasStatus(s.tasks, id, Pending)
    && t.tasks == s.tasks[id := s.tasks[id].(status := Running, startedAt := Some(s.now))]
    && t.handed == s.handed + [HandoutOf(s, id)]
    && AgentOf(t, s.tasks[id].node) == IDLE.(queue := [HandoutOf(s, id)])
    && t.executed == s.executed && t.effects == s.effects && t.now == s.now
  }

  /** The state after an open poll of an idle agent has claimed this row. */
  ghost predicate ClaimedBy(s: System, id: nat, t: System) {
    && HasStatus(s.tasks, id, Pending)
    && var node, p := s.tasks[id].node, s.nextPoll;
    && t.tasks == s.tasks[id := s.tasks[id].(status := Running, startedAt := Some(s.now))]
    && t.handed == s.handed + [HandoutOf(s, id)]
    && p in t.polls && t.polls[p] == PollSession(node, None, [HandoutOf(s, id)])
    && AgentOf(t, node) == IDLE.(polling := Some(p))
    && t.executed == s.executed && t.effects == s.effects && t.now == s.now
  }

  lemma PollClaims(s: System, id: nat) returns (events: seq<Event>, t: System)
    requires HasStatus(s.tasks, id, Pending) && PollVerdict(s.tasks, id).Ready?
    requires AgentOf(s, s.tasks[id].node) == IDLE
    ensures Leads(s, events, t) && ClaimedBy(s, id, t)
  {
    var node, p := s.tasks[id].node, s.nextPoll;
    Start(s);
    ThenOne(s, [], s, PollOpen(node));
    var s1 := Apply(s, PollOpen(node));
    var e1 := [] + [PollOpen(node)];
    ThenOne(s, e1, s1, PollSelect(p, id));
    var s2 := Apply(s1, PollSelect(p, id));
    var e2 := e1 + [PollSelect(p, id)];
    ThenOne(s, e2, s2, PollClaim(p));
    t := Apply(s2, PollClaim(p));
    events := e2 + [PollClaim(p)];
  }

  lemma PollHands(s: System, id: nat) returns (events: seq<Event>, t: System)
    requires HasStatus(s.tasks, id, Pending) && PollVerdict(s.tasks, id).Ready?
    requires AgentOf(s, s.tasks[id].node) == IDLE
    ensures Leads(s, events, t) && HandedTo(s, id, t)
  {
    var p := s.nextPoll;
    var e3, s3 := PollClaims(s, id);
    ThenOne(s, e3, s3, PollRespond(p));
    var s4 := Apply(s3, PollRespond(p));
    var e4 := e3 + [PollRespond(p)];
    ThenOne(s, e4, s4, PollReceive(p));
    t := Apply(s4, PollReceive(p));
    events := e4 + [PollReceive(p)];
  }

  /** The row was executed once and its report recorded once, with its side effects, and the agent is idle again. */
  ghost predicate Completed(s: System, id: nat, success: bool, result: Result, t: System) {
    && id in s.tasks
    && var row, report := s.tasks[id], Report(id, s.tasks[id].node, success, result);
    && t.tasks == s.tasks[id := row.(status := if success then Succeeded else Failed, result := Some(result), startedAt := Some(s.now))]
    && t.handed == s.handed + [HandoutOf(s, id)]
    && t.executed == s.executed + [report]
    && t.effects == s.effects + [id]
    && AgentOf(t, row.node) == IDLE
  }

  /** The agent has executed the row and sent its report, which it still holds. */
  ghost predicate Reported(s: System, id: nat, report: Report, t: System) {
    && HasStatus(s.tasks, id, Pending)
    && t.tasks == s.tasks[id := s.tasks[id].(status := Running, startedAt := Some(s.now))]
    && t.handed == s.handed + [HandoutOf(s, id)] && t.executed == s.executed + [report] && t.effects == s.effects
    && report in t.reports && AgentOf(t, s.tasks[id].node) == Agent(None, [], map[id := report])
  }

  lemma AgentReports(s: System, id: nat, past: seq<Event>, t0: System, success: bool, result: Result) returns (events: seq<Event>, t: System)
    requires Leads(s, past, t0) && HandedTo(s, id, t0)
    ensures Leads(s, events, t) && Reported(s, id, Report(id, s.tasks[id].node, success, result), t)
  {
    var node := s.tasks[id].node;
    ThenOne(s, past, t0, Execute(node, success, result));
    var t1 := Apply(t0, Execute(node, success, result));
    var e1 := past + [Execute(node, success, result)];
    ThenOne(s, e1, t1, Send(node, id));
    t := Apply(t1, Send(node, id));
    events := e1 + [Send(node, id)];
  }

  lemma AgentCompletes(s: System, id: nat, past: seq<Event>, t0: System, success: bool, result: Result) returns (events: seq<Event>, t: System)
    requires Leads(s, past, t0) && HandedTo(s, id, t0)
    ensures Leads(s, events, t) && Completed(s, id, success, result, t)
  {
    var node := s.tasks[id].node;
    var report := Report(id, node, success, result);
    var e2, t2 := AgentReports(s, id, past, t0, success, result);
    ThenOne(s, e2, t2, Deliver(report, true, false, result));
    var t3 := Apply(t2, Deliver(report, true, false, result));
    var e3 := e2 + [Deliver(report, true, false, result)];
    ThenOne(s, e3, t3, Acknowledge(node, id));
    t := Apply(t3, Acknowledge(node, id));
    events := e3 + [Acknowledge(node, id)];
    assert map[id := report] - {id} == map[];
  }

  /**
  From every state in which a row is pending and ready and its agent is idle, some run hands
  it out, executes it and records its outcome, whatever that is, and leaves the agent ready for the next.
   */
  lemma TaskCompletes(s: System, id: nat, success: bool, result: Result) returns (events: seq<Event>)
    requires HasStatus(s.tasks, id, Pending) && PollVerdict(s.tasks, id).Ready?
    requires AgentOf(s, s.tasks[id].node) == IDLE
    ensures Legal(s, events) && Completed(s, id, success, result, After(s, events))
  {
    var past, t0 := PollHands(s, id);
    var all, t := AgentCompletes(s, id, past, t0, success, result);
    events := all;
  }

}
