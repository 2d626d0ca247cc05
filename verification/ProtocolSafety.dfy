/**
The invariant of the task protocol, its preservation by every event, and the
properties of every run that follow from it.
 */
module ProtocolSafety {

  import opened Wrappers
  import opened Tasks
  import opened Protocol

  // ----------------------------------------------------------------- invariant

  ghost predicate WasHanded(handed: seq<Handout>, id: nat) {
    exists h :: h in handed && h.task == id
  }

  ghost predicate WasExecuted(executed: seq<Report>, id: nat) {
    exists r :: r in executed && r.task == id
  }

  ghost predicate DistinctHandouts(hs: seq<Handout>) {
    forall i, j :: 0 <= i < j < |hs| ==> hs[i].task != hs[j].task
  }

  ghost predicate DistinctReports(rs: seq<Report>) {
    forall i, j :: 0 <= i < j < |rs| ==> rs[i].task != rs[j].task
  }

  /** A poll whose response the agent has taken, or that was lost. */
  ghost predicate Consumed(s: System, poll: nat) {
    poll < s.nextPoll && poll !in s.polls && poll !in s.responses
  }

  /** Claimed rows have left `pending`, each was claimed once, and no other row has run. */
  ghost predicate HandedInv(s: System) {
    && DistinctHandouts(s.handed)
    && (forall h :: h in s.handed ==>
          && h.task in s.tasks && !s.tasks[h.task].status.Pending?
          && s.tasks[h.task].node == h.node && s.tasks[h.task].kind == h.kind
          && h.poll < s.nextPoll)
    && (forall id :: id in s.tasks && (s.tasks[id].status.Running? || s.tasks[id].status.Succeeded?) ==>
          WasHanded(s.handed, id))
  }

  /** A dependency that permits a handout is met, and its row was handed out among those before. */
  ghost predicate Follows(t: Table, before: seq<Handout>, kind: Kind, p: Payload) {
    var d := DependencyId(p);
    && DependencyMet(t, kind, p)
    && (d.Some? && !ContinuesAfterFailure(kind, p) ==> WasHanded(before, d.value))
  }

  /** The `i`-th handout follows the dependency that was checked. */
  ghost predicate Ordered(t: Table, handed: seq<Handout>, i: nat)
    requires i < |handed|
  {
    Follows(t, handed[..i], handed[i].kind, handed[i].checked)
  }

  ghost predicate OrderInv(s: System) {
    forall i :: 0 <= i < |s.handed| ==> Ordered(s.tasks, s.handed, i)
  }

  ghost predicate SessionOk(s: System, p: nat, session: PollSession) {
    && p < s.nextPoll
    && |session.taken| <= POLL_BATCH_SIZE
    && DistinctHandouts(session.taken)
    && (forall h :: h in session.taken ==> h in s.handed && h.poll == p && h.node == session.node)
  }

  ghost predicate ReadyOk(s: System, p: nat, session: PollSession) {
    session.ready.Some? ==>
      var h := session.ready.value;
      && |session.taken| < POLL_BATCH_SIZE
      && h.poll == p && h.node == session.node
      && h.task in s.tasks && s.tasks[h.task].node == h.node && s.tasks[h.task].kind == h.kind
      && DependencyMet(s.tasks, h.kind, h.checked)
  }

  ghost predicate SessionsInv(s: System) {
    && s.polls.Keys !! s.responses.Keys
    && (forall p :: p in s.polls ==> SessionOk(s, p, s.polls[p]) && ReadyOk(s, p, s.polls[p]))
    && (forall p :: p in s.responses ==> SessionOk(s, p, s.responses[p]))
  }

  ghost predicate AgentOk(s: System, node: nat, a: Agent) {
    && (a.polling.Some? ==> a == IDLE.(polling := a.polling))
    && |a.queue| + |a.pending| <= POLL_BATCH_SIZE
    && DistinctHandouts(a.queue)
    && (forall h :: h in a.queue ==>
          h in s.handed && h.node == node && Consumed(s, h.poll) && !WasExecuted(s.executed, h.task))
    && (forall id :: id in a.pending ==> a.pending[id].task == id && a.pending[id] in s.executed)
  }

  ghost predicate AgentsInv(s: System) {
    forall node :: node in s.agents ==> AgentOk(s, node, s.agents[node])
  }

  /** Executed tasks were handed out in a consumed poll, each is executed once, and reports repeat executions. */
  ghost predicate ExecutedInv(s: System) {
    && DistinctReports(s.executed)
    && (forall r :: r in s.executed ==>
          exists h :: h in s.handed && h.task == r.task && h.node == r.node && Consumed(s, h.poll))
    && (forall r :: r in s.reports ==> r in s.executed)
  }

  ghost predicate OutcomeInv(s: System) {
    && (forall id :: id in s.tasks && s.tasks[id].status.Succeeded? ==>
          exists r :: r in s.executed && r.task == id && r.success)
    && (forall i, j :: 0 <= i < j < |s.effects| ==> s.effects[i] != s.effects[j])
    && (forall id :: id in s.effects ==> id in s.tasks && s.tasks[id].status.Terminal())
  }

  ghost predicate UniqueKeys(t: Table) {
    forall i, j | i in t && j in t && t[i].status.Pending? && t[j].status.Pending? ::
      t[i].dedup.Some? && t[i].dedup == t[j].dedup ==> i == j
  }

  ghost predicate Inv(s: System) {
    && HandedInv(s) && OrderInv(s) && SessionsInv(s) && AgentsInv(s)
    && ExecutedInv(s) && OutcomeInv(s) && UniqueKeys(s.tasks)
  }

  // -------------------------------------------------------------- preservation

  /** The events that touch no agent, no poll and no history: one row moves, or time passes. */
  predicate TableEvent(e: Event) {
    e.Tick? || e.Insert? || e.Refresh? || e.Overwrite? || e.Cancel? || e.ExpireRunning? || e.ExpirePending? || e.PollReject?
  }

  lemma TableEventMoves(s: System, e: Event)
    requires Enabled(s, e) && TableEvent(e) && !e.Tick? && !e.Overwrite?
    ensures TableMoves(s.tasks, Apply(s, e).tasks)
  {
    var t, u := s.tasks, Apply(s, e).tasks;
    var id :=
      match e
      case Insert(id, _) => id
      case Refresh(id, _) => id
      case Cancel(id, _) => id
      case ExpireRunning(id, _) => id
      case ExpirePending(id, _) => id
      case PollReject(_, id, _) => id;
    assert u == t[id := u[id]];
    assert id !in t || RowMoves(t[id], u[id]);
  }

  lemma ClaimMoves(s: System, p: nat)
    requires p in s.polls && s.polls[p].ready.Some?
    ensures Claim(s, p).tasks == s.tasks || TableMoves(s.tasks, Claim(s, p).tasks)
  {
    var t, u, id := s.tasks, Claim(s, p).tasks, s.polls[p].ready.value.task;
    if t != u {
      assert u == t[id := u[id]] && RowMoves(t[id], u[id]);
    }
  }

  lemma RecordMoves(s: System, r: Report, valid: bool, demoted: bool, stored: Result)
    ensures var u := Record(s, r, valid, demoted, stored).tasks; u == s.tasks || TableMoves(s.tasks, u)
  {
    var t, u := s.tasks, Record(s, r, valid, demoted, stored).tasks;
    if t != u {
      assert u == t[r.task := u[r.task]] && RowMoves(t[r.task], u[r.task]);
    }
  }

  lemma OtherEventsWriteNoRow(s: System, e: Event)
    requires Enabled(s, e) && (e.Tick? || !TableEvent(e)) && !e.PollClaim? && !e.Deliver?
    ensures Apply(s, e).tasks == s.tasks
  {
  }

  /** Every event writes at most one row: by a legal move or insert, or by overwriting its payload. */
  lemma EventMovesTable(s: System, e: Event)
    requires Enabled(s, e)
    ensures !e.Overwrite? ==> Apply(s, e).tasks == s.tasks || TableMoves(s.tasks, Apply(s, e).tasks)
    ensures e.Overwrite? ==> Apply(s, e).tasks == s.tasks[e.id := s.tasks[e.id].(payload := e.payload)]
    ensures Proceeds(s.tasks, Apply(s, e).tasks)
  {
    var u := Apply(s, e).tasks;
    if e.Overwrite? {
      return;
    }
    if e.PollClaim? {
      ClaimMoves(s, e.poll);
    } else if e.Deliver? {
      RecordMoves(s, e.report, e.valid, e.demoted, e.stored);
    } else if e.Tick? || !TableEvent(e) {
      OtherEventsWriteNoRow(s, e);
    } else {
      TableEventMoves(s, e);
    }
    SameOrMovesEvolve(s.tasks, u);
    EvolvesProceeds(s.tasks, u);
  }

  lemma SameOrMovesEvolve(t: Table, u: Table)
    requires t == u || TableMoves(t, u)
    ensures Evolves(t, u)
  {
    if t != u {
      MovesEvolve(t, u);
    }
  }

  lemma SameHandout(s: System, g: Handout, h: Handout)
    requires HandedInv(s) && g in s.handed && h in s.handed && g.task == h.task
    ensures g == h
  {
    var i :| 0 <= i < |s.handed| && s.handed[i] == g;
    var j :| 0 <= j < |s.handed| && s.handed[j] == h;
    assert !(i < j) && !(j < i);
  }

  // What each part of the invariant depends on.

  ghost predicate NoRowStarts(t: Table, u: Table) {
    forall id :: id in u && (u[id].status.Running? || u[id].status.Succeeded?) ==>
      id in t && (t[id].status.Running? || t[id].status.Succeeded?)
  }

  ghost predicate NoRowSucceeds(t: Table, u: Table) {
    forall id :: id in u && u[id].status.Succeeded? ==> id in t && t[id].status.Succeeded?
  }

  lemma HandedFrame(s: System, s': System)
    requires HandedInv(s) && Proceeds(s.tasks, s'.tasks) && NoRowStarts(s.tasks, s'.tasks)
    requires s'.handed == s.handed && s'.nextPoll >= s.nextPoll
    ensures HandedInv(s')
  {
  }

  lemma OrderFrame(s: System, s': System)
    requires OrderInv(s) && Proceeds(s.tasks, s'.tasks) && s'.handed == s.handed
    ensures OrderInv(s')
  {
    forall i | 0 <= i < |s.handed| ensures Ordered(s'.tasks, s'.handed, i) {
      assert Ordered(s.tasks, s.handed, i);
      DependencyMetIsStable(s.tasks, s'.tasks, s.handed[i].kind, s.handed[i].checked);
    }
  }

  lemma ReadyFrame(s: System, s': System, p: nat, session: PollSession)
    requires ReadyOk(s, p, session) && Proceeds(s.tasks, s'.tasks)
    ensures ReadyOk(s', p, session)
  {
    if session.ready.Some? {
      DependencyMetIsStable(s.tasks, s'.tasks, session.ready.value.kind, session.ready.value.checked);
    }
  }

  lemma SessionsFrame(s: System, s': System)
    requires SessionsInv(s) && Proceeds(s.tasks, s'.tasks)
    requires s'.polls == s.polls && s'.responses == s.responses && s'.handed == s.handed && s'.nextPoll == s.nextPoll
    ensures SessionsInv(s')
  {
    forall p | p in s'.polls ensures ReadyOk(s', p, s'.polls[p]) {
      ReadyFrame(s, s', p, s.polls[p]);
    }
  }

  /** Handouts and consumed polls stay, and nothing new is executed. */
  ghost predicate Keeps(s: System, s': System) {
    && (forall h :: h in s.handed ==> h in s'.handed)
    && (forall p :: Consumed(s, p) ==> Consumed(s', p))
    && s'.executed == s.executed
  }

  lemma AgentsFrame(s: System, s': System)
    requires AgentsInv(s) && Keeps(s, s') && s'.agents == s.agents
    ensures AgentsInv(s')
  {
    forall node | node in s'.agents ensures AgentOk(s', node, s'.agents[node]) {
      assert AgentOk(s, node, s.agents[node]);
    }
  }

  lemma ExecutedFrame(s: System, s': System)
    requires ExecutedInv(s) && Keeps(s, s') && s'.reports == s.reports
    ensures ExecutedInv(s')
  {
    forall r | r in s'.executed
      ensures exists h :: h in s'.handed && h.task == r.task && h.node == r.node && Consumed(s', h.poll)
    {
      var h :| h in s.handed && h.task == r.task && h.node == r.node && Consumed(s, h.poll);
      assert h in s'.handed && Consumed(s', h.poll);
    }
  }

  lemma OutcomeFrame(s: System, s': System)
    requires OutcomeInv(s) && Proceeds(s.tasks, s'.tasks)
    requires NoRowSucceeds(s.tasks, s'.tasks)
    requires s'.effects == s.effects && forall r :: r in s.executed ==> r in s'.executed
    ensures OutcomeInv(s')
  {
    forall id | id in s'.tasks && s'.tasks[id].status.Succeeded?
      ensures exists r :: r in s'.executed && r.task == id && r.success
    {
      var r :| r in s.executed && r.task == id && r.success;
      assert r in s'.executed;
    }
  }

  lemma TableEventFacts(s: System, e: Event)
    requires UniqueKeys(s.tasks) && Enabled(s, e) && TableEvent(e)
    ensures var s' := Apply(s, e);
      && s' == s.(now := s'.now, tasks := s'.tasks)
      && NoRowStarts(s.tasks, s'.tasks) && NoRowSucceeds(s.tasks, s'.tasks) && UniqueKeys(s'.tasks)
  {
  }

  lemma TableEventKeepsInv(s: System, e: Event)
    requires Inv(s) && Enabled(s, e) && TableEvent(e)
    ensures Inv(Apply(s, e))
  {
    var s' := Apply(s, e);
    EventMovesTable(s, e);
    TableEventFacts(s, e);
    HandedFrame(s, s');
    OrderFrame(s, s');
    SessionsFrame(s, s');
    KeepsEverything(s, s');
    AgentsFrame(s, s');
    ExecutedFrame(s, s');
    OutcomeFrame(s, s');
  }

  lemma KeepsEverything(s: System, s': System)
    requires s'.polls.Keys == s.polls.Keys && s'.responses.Keys == s.responses.Keys && s'.nextPoll == s.nextPoll
    requires s.handed <= s'.handed && s'.executed == s.executed
    ensures Keeps(s, s')
  {
    forall h | h in s.handed ensures h in s'.handed {
      var i :| 0 <= i < |s.handed| && s.handed[i] == h;
      assert s'.handed[i] == h;
    }
  }

  lemma ClaimFacts(s: System, p: nat)
    requires UniqueKeys(s.tasks) && Enabled(s, PollClaim(p))
    ensures var s' := Apply(s, PollClaim(p));
      && NoRowSucceeds(s.tasks, s'.tasks) && UniqueKeys(s'.tasks)
      && s'.polls.Keys == s.polls.Keys && s.handed <= s'.handed
      && (!HasStatus(s.tasks, s.polls[p].ready.value.task, Pending) ==> NoRowStarts(s.tasks, s'.tasks))
  {
  }

  lemma ClaimKeepsInv(s: System, p: nat)
    requires Inv(s) && Enabled(s, PollClaim(p))
    ensures Inv(Apply(s, PollClaim(p)))
  {
    var s' := Apply(s, PollClaim(p));
    EventMovesTable(s, PollClaim(p));
    ClaimFacts(s, p);
    KeepsEverything(s, s');
    AgentsFrame(s, s');
    ExecutedFrame(s, s');
    OutcomeFrame(s, s');
    if HasStatus(s.tasks, s.polls[p].ready.value.task, Pending) {
      ClaimedRowIsNew(s, p);
    } else {
      HandedFrame(s, s');
      OrderFrame(s, s');
    }
    ClaimKeepsSessions(s, p);
  }

  lemma ClaimKeepsSessions(s: System, p: nat)
    requires SessionsInv(s) && Enabled(s, PollClaim(p)) && Proceeds(s.tasks, Apply(s, PollClaim(p)).tasks)
    requires DistinctHandouts(Apply(s, PollClaim(p)).polls[p].taken) && Keeps(s, Apply(s, PollClaim(p)))
    ensures SessionsInv(Apply(s, PollClaim(p)))
  {
    var s', session := Apply(s, PollClaim(p)), s.polls[p];
    var h := session.ready.value;
    assert SessionOk(s, p, session) && ReadyOk(s, p, session);
    assert s'.polls[p].taken == session.taken || s'.polls[p].taken == session.taken + [h.(payload := s.tasks[h.task].payload)];
    forall q | q in s'.polls ensures SessionOk(s', q, s'.polls[q]) && ReadyOk(s', q, s'.polls[q]) {
      assert SessionOk(s, q, s.polls[q]);
      ReadyFrame(s, s', q, s.polls[q]);
    }
  }

  /** A successful claim appends a handout of a row never handed out, whose dependency was. */
  lemma ClaimedRowIsNew(s: System, p: nat)
    requires Inv(s) && Enabled(s, PollClaim(p))
    requires HasStatus(s.tasks, s.polls[p].ready.value.task, Pending)
    ensures HandedInv(Apply(s, PollClaim(p))) && OrderInv(Apply(s, PollClaim(p)))
    ensures DistinctHandouts(Apply(s, PollClaim(p)).polls[p].taken)
  {
    var s' := Apply(s, PollClaim(p));
    var id := s.polls[p].ready.value.task;
    var h := s.polls[p].ready.value.(payload := s.tasks[id].payload);
    assert !WasHanded(s.handed, h.task);
    EventMovesTable(s, PollClaim(p));
    assert ReadyOk(s, p, s.polls[p]) && SessionOk(s, p, s.polls[p]);
    HandedGrows(s, s', h);
    OrderGrows(s, s', h);
  }

  lemma HandedGrows(s: System, s': System, h: Handout)
    requires HandedInv(s) && !WasHanded(s.handed, h.task) && s'.handed == s.handed + [h] && s'.nextPoll == s.nextPoll
    requires h.poll < s.nextPoll && h.task in s.tasks && s.tasks[h.task].node == h.node && !s.tasks[h.task].status.Terminal()
    requires forall id :: id in s'.tasks && id != h.task ==> id in s.tasks && s'.tasks[id] == s.tasks[id]
    requires forall id :: id in s.tasks ==> id in s'.tasks && s'.tasks[id].node == s.tasks[id].node
    requires s'.tasks[h.task].status.Running? && s'.tasks[h.task].kind == h.kind && s'.tasks[h.task].payload == h.payload
    ensures HandedInv(s')
  {
    forall id | id in s'.tasks && (s'.tasks[id].status.Running? || s'.tasks[id].status.Succeeded?)
      ensures WasHanded(s'.handed, id)
    {
      if id == h.task {
        assert h in s'.handed;
      } else {
        var g :| g in s.handed && g.task == id;
        assert g in s'.handed;
      }
    }
  }

  lemma OrderGrows(s: System, s': System, h: Handout)
    requires HandedInv(s) && OrderInv(s) && Proceeds(s.tasks, s'.tasks) && s'.handed == s.handed + [h]
    requires DependencyMet(s.tasks, h.kind, h.checked)
    ensures OrderInv(s')
  {
    forall i | 0 <= i < |s'.handed| ensures Ordered(s'.tasks, s'.handed, i) {
      if i < |s.handed| {
        assert Ordered(s.tasks, s.handed, i) && s'.handed[i] == s.handed[i];
        assert s'.handed[..i] == s.handed[..i];
        DependencyMetIsStable(s.tasks, s'.tasks, s.handed[i].kind, s.handed[i].checked);
      } else {
        assert s'.handed[i] == h && s'.handed[..i] == s.handed;
        DependencyMetIsStable(s.tasks, s'.tasks, h.kind, h.checked);
      }
    }
  }

  lemma AgentFrame(s: System, s': System, node: nat, a: Agent)
    requires AgentsInv(s) && Keeps(s, s') && s'.agents == s.agents[node := a] && AgentOk(s', node, a)
    ensures AgentsInv(s')
  {
    forall n | n in s'.agents ensures AgentOk(s', n, s'.agents[n]) {
      assert n != node ==> AgentOk(s, n, s.agents[n]);
    }
  }

  lemma SameSessionsFrame(s: System, s': System)
    requires SessionsInv(s) && s'.tasks == s.tasks && s'.handed == s.handed && s'.nextPoll == s.nextPoll
    requires s'.polls == s.polls && s'.responses.Keys <= s.responses.Keys
    requires forall p :: p in s'.responses ==> s'.responses[p] == s.responses[p]
    ensures SessionsInv(s')
  {
    forall p | p in s'.polls ensures SessionOk(s', p, s'.polls[p]) && ReadyOk(s', p, s'.polls[p]) {
      assert SessionOk(s, p, s.polls[p]) && ReadyOk(s, p, s.polls[p]);
    }
    forall p | p in s'.responses ensures SessionOk(s', p, s'.responses[p]) {
      assert SessionOk(s, p, s.responses[p]);
    }
  }

  /** Events that write no row keep the parts of the invariant about rows and history. */
  lemma SameTableFrame(s: System, s': System)
    requires HandedInv(s) && OrderInv(s) && OutcomeInv(s)
    requires s'.tasks == s.tasks && s'.handed == s.handed && s'.effects == s.effects && s'.nextPoll >= s.nextPoll
    requires s.executed <= s'.executed
    ensures HandedInv(s') && OrderInv(s') && OutcomeInv(s')
  {
    HandedFrame(s, s');
    OrderFrame(s, s');
    forall r | r in s.executed ensures r in s'.executed {
      var i :| 0 <= i < |s.executed| && s.executed[i] == r;
      assert s'.executed[i] == r;
    }
    OutcomeFrame(s, s');
  }

  lemma ReadyMeansMet(t: Table, id: nat)
    requires id in t && PollVerdict(t, id).Ready?
    ensures DependencyMet(t, t[id].kind, t[id].payload)
  {
  }

  /** Opening, selecting, answering and losing a poll. */
  lemma PollEventKeepsInv(s: System, e: Event)
    requires Inv(s) && Enabled(s, e) && (e.PollOpen? || e.PollSelect? || e.PollRespond? || e.PollLose?)
    ensures Inv(Apply(s, e))
  {
    var s' := Apply(s, e);
    SameTableFrame(s, s');
    PollEventKeeps(s, e);
    if e.PollOpen? {
      AgentFrame(s, s', e.node, IDLE.(polling := Some(s.nextPoll)));
    } else {
      AgentsFrame(s, s');
    }
    ExecutedFrame(s, s');
    PollEventKeepsSessions(s, e);
  }

  lemma PollEventKeeps(s: System, e: Event)
    requires Enabled(s, e) && (e.PollOpen? || e.PollSelect? || e.PollRespond? || e.PollLose?)
    ensures Keeps(s, Apply(s, e))
  {
  }

  lemma PollEventKeepsSessions(s: System, e: Event)
    requires SessionsInv(s) && Enabled(s, e) && (e.PollOpen? || e.PollSelect? || e.PollRespond? || e.PollLose?)
    ensures SessionsInv(Apply(s, e))
  {
    var s' := Apply(s, e);
    if e.PollSelect? {
      ReadyMeansMet(s.tasks, e.id);
    }
    forall q | q in s'.polls ensures SessionOk(s', q, s'.polls[q]) && ReadyOk(s', q, s'.polls[q]) {
      assert q in s.polls ==> SessionOk(s, q, s.polls[q]) && ReadyOk(s, q, s.polls[q]);
    }
    forall q | q in s'.responses ensures SessionOk(s', q, s'.responses[q]) {
      assert q in s.responses ==> SessionOk(s, q, s.responses[q]);
      assert q in s.polls ==> SessionOk(s, q, s.polls[q]);
    }
  }

  lemma ReceiveKeepsInv(s: System, p: nat)
    requires Inv(s) && Enabled(s, PollReceive(p))
    ensures Inv(Apply(s, PollReceive(p)))
  {
    var s' := Apply(s, PollReceive(p));
    SameTableFrame(s, s');
    ReceiveIsFresh(s, p);
    AgentFrame(s, s', s.responses[p].node, IDLE.(queue := s.responses[p].taken));
    ExecutedFrame(s, s');
    SameSessionsFrame(s, s');
  }

  /** Nothing in a response that has not been received yet was executed before. */
  lemma ReceiveIsFresh(s: System, p: nat)
    requires HandedInv(s) && SessionsInv(s) && ExecutedInv(s) && Enabled(s, PollReceive(p))
    ensures var s' := Apply(s, PollReceive(p));
      Keeps(s, s') && AgentOk(s', s.responses[p].node, IDLE.(queue := s.responses[p].taken))
  {
    var session := s.responses[p];
    assert SessionOk(s, p, session);
    forall h | h in session.taken ensures !WasExecuted(s.executed, h.task) {
      if r :| r in s.executed && r.task == h.task {
        var g :| g in s.handed && g.task == r.task && g.node == r.node && Consumed(s, g.poll);
        SameHandout(s, g, h);
        assert false;
      }
    }
  }

  lemma ExecuteKeepsInv(s: System, e: Event)
    requires Inv(s) && e.Execute? && Enabled(s, e)
    ensures Inv(Apply(s, e))
  {
    var s' := Apply(s, e);
    SameTableFrame(s, s');
    SameSessionsFrame(s, s');
    ExecuteKeepsAgents(s, e);
    ExecuteKeepsExecuted(s, e);
  }

  lemma ExecuteKeepsAgents(s: System, e: Event)
    requires HandedInv(s) && AgentsInv(s) && e.Execute? && Enabled(s, e)
    ensures AgentsInv(Apply(s, e))
  {
    var s' := Apply(s, e);
    var a := AgentOf(s, e.node);
    var head, r := a.queue[0], Report(a.queue[0].task, e.node, e.success, e.result);
    assert AgentOk(s, e.node, a) && head in a.queue;
    KeepsHandouts(s, s');
    forall n | n in s'.agents ensures AgentOk(s', n, s'.agents[n]) {
      if n == e.node {
        ExecutingAgentOk(s, s', n, a, r);
      } else {
        OtherAgentOk(s, s', n, head, r);
      }
    }
  }

  lemma KeepsHandouts(s: System, s': System)
    requires s'.handed == s.handed && s'.polls == s.polls && s'.responses == s.responses && s'.nextPoll == s.nextPoll
    ensures forall p :: Consumed(s, p) <==> Consumed(s', p)
  {
  }

  /** The agent that executes takes the task off its queue and holds its report. */
  lemma ExecutingAgentOk(s: System, s': System, node: nat, a: Agent, r: Report)
    requires AgentOk(s, node, a) && a.queue != [] && r.task == a.queue[0].task && s'.executed == s.executed + [r]
    requires s'.handed == s.handed && forall p :: Consumed(s, p) <==> Consumed(s', p)
    ensures AgentOk(s', node, a.(queue := a.queue[1..], pending := a.pending[r.task := r]))
  {
    var rest := a.queue[1..];
    forall h | h in rest ensures h in a.queue && h.task != r.task && !WasExecuted(s'.executed, h.task) {
      var i :| 0 <= i < |rest| && rest[i] == h;
      assert a.queue[i + 1] == h && !WasExecuted(s.executed, h.task);
    }
    assert |rest| + |a.pending[r.task := r]| <= POLL_BATCH_SIZE;
  }

  /** Other agents have never been handed that task. */
  lemma OtherAgentOk(s: System, s': System, node: nat, head: Handout, r: Report)
    requires HandedInv(s) && node in s.agents && AgentOk(s, node, s.agents[node]) && head in s.handed && head.node != node
    requires r.task == head.task && s'.executed == s.executed + [r]
    requires s'.handed == s.handed && forall p :: Consumed(s, p) <==> Consumed(s', p)
    ensures AgentOk(s', node, s.agents[node])
  {
    forall h | h in s.agents[node].queue ensures h.task != r.task && !WasExecuted(s'.executed, h.task) {
      if h.task == head.task {
        SameHandout(s, h, head);
      }
      assert !WasExecuted(s.executed, h.task);
    }
  }

  lemma ExecuteKeepsExecuted(s: System, e: Event)
    requires AgentsInv(s) && ExecutedInv(s) && e.Execute? && Enabled(s, e)
    ensures ExecutedInv(Apply(s, e))
  {
    var s' := Apply(s, e);
    var a := AgentOf(s, e.node);
    var head, r := a.queue[0], Report(a.queue[0].task, e.node, e.success, e.result);
    assert AgentOk(s, e.node, a) && head in a.queue;
    assert head in s.handed && head.node == e.node && Consumed(s, head.poll) && !WasExecuted(s.executed, r.task);
    ExecutedExtends(s, s', head, r);
  }

  lemma ExecutedExtends(s: System, s': System, head: Handout, r: Report)
    requires ExecutedInv(s) && s' == s.(agents := s'.agents, executed := s.executed + [r])
    requires head in s.handed && head.task == r.task && head.node == r.node && Consumed(s, head.poll)
    requires !WasExecuted(s.executed, r.task)
    ensures ExecutedInv(s')
  {
    forall q | q in s'.executed
      ensures exists h :: h in s'.handed && h.task == q.task && h.node == q.node && Consumed(s', h.poll)
    {
      var h := head;
      if q != r {
        h :| h in s.handed && h.task == q.task && h.node == q.node && Consumed(s, h.poll);
      }
      assert Consumed(s', h.poll);
    }
  }

  lemma DeliverKeepsInv(s: System, e: Event)
    requires Inv(s) && e.Deliver? && Enabled(s, e)
    ensures Inv(Apply(s, e))
  {
    var s' := Apply(s, e);
    EventMovesTable(s, e);
    DeliverFacts(s, e);
    HandedFrame(s, s');
    OrderFrame(s, s');
    SessionsFrame(s, s');
    KeepsEverything(s, s');
    AgentsFrame(s, s');
    ExecutedFrame(s, s');
    DeliverKeepsOutcome(s, e);
  }

  lemma DeliverFacts(s: System, e: Event)
    requires UniqueKeys(s.tasks) && e.Deliver? && Enabled(s, e)
    ensures var s' := Apply(s, e);
      && s' == s.(tasks := s'.tasks, effects := s'.effects)
      && NoRowStarts(s.tasks, s'.tasks) && UniqueKeys(s'.tasks)
  {
  }

  /** A recorded success repeats a successful execution, and side effects happen on the first write only. */
  lemma DeliverKeepsOutcome(s: System, e: Event)
    requires OutcomeInv(s) && ExecutedInv(s) && e.Deliver? && Enabled(s, e)
    ensures OutcomeInv(Apply(s, e))
  {
    var s' := Apply(s, e);
    assert e.report in s.executed;
    forall id | id in s'.tasks && s'.tasks[id].status.Succeeded?
      ensures exists r :: r in s'.executed && r.task == id && r.success
    {
      if id !in s.tasks || !s.tasks[id].status.Succeeded? {
        assert e.report.task == id && e.report.success;
      }
    }
  }

  /** The events of one agent that execute nothing: giving up a poll, sending, forgetting, restarting. */
  lemma AgentEventKeepsInv(s: System, e: Event)
    requires Inv(s) && Enabled(s, e) && (e.PollTimeout? || e.Send? || e.Acknowledge? || e.Restart?)
    ensures Inv(Apply(s, e))
  {
    var s' := Apply(s, e);
    AgentEventFacts(s, e);
    SameTableFrame(s, s');
    SameSessionsFrame(s, s');
    KeepsEverything(s, s');
    AgentStaysOk(s, e);
    if e.Send? {
      AgentsFrame(s, s');
      SendKeepsExecuted(s, s', AgentOf(s, e.node).pending[e.id]);
    } else {
      AgentFrame(s, s', e.node, s'.agents[e.node]);
      ExecutedFrame(s, s');
    }
  }

  lemma AgentEventFacts(s: System, e: Event)
    requires Enabled(s, e) && (e.PollTimeout? || e.Send? || e.Acknowledge? || e.Restart?)
    ensures var s' := Apply(s, e);
      && s' == s.(agents := s'.agents, reports := s'.reports)
      && (e.Send? ==> s'.agents == s.agents && s'.reports == s.reports + {AgentOf(s, e.node).pending[e.id]})
      && (!e.Send? ==> s'.reports == s.reports && e.node in s'.agents && s'.agents == s.agents[e.node := s'.agents[e.node]])
  {
  }

  lemma SendKeepsExecuted(s: System, s': System, r: Report)
    requires ExecutedInv(s) && s' == s.(reports := s.reports + {r}) && r in s.executed
    ensures ExecutedInv(s')
  {
    KeepsEverything(s, s');
    ExecutedFrame(s, s'.(reports := s.reports));
  }

  lemma AgentStaysOk(s: System, e: Event)
    requires AgentsInv(s) && Enabled(s, e) && (e.PollTimeout? || e.Send? || e.Acknowledge? || e.Restart?)
    ensures AgentOk(Apply(s, e), e.node, AgentOf(Apply(s, e), e.node))
    ensures e.Send? ==> AgentOf(s, e.node).pending[e.id] in s.executed
  {
    assert AgentOk(s, e.node, AgentOf(s, e.node));
    if e.Acknowledge? {
      var a := AgentOf(s, e.node);
      assert (a.pending - {e.id}).Keys == a.pending.Keys - {e.id};
    }
  }

  lemma StepKeepsInv(s: System, e: Event)
    requires Inv(s) && Enabled(s, e)
    ensures Inv(Apply(s, e))
  {
    match e
    case PollClaim(p) => ClaimKeepsInv(s, p);
    case PollReceive(p) => ReceiveKeepsInv(s, p);
    case Execute(_, _, _) => ExecuteKeepsInv(s, e);
    case Deliver(_, _, _, _) => DeliverKeepsInv(s, e);
    case PollOpen(_) => PollEventKeepsInv(s, e);
    case PollSelect(_, _) => PollEventKeepsInv(s, e);
    case PollRespond(_) => PollEventKeepsInv(s, e);
    case PollLose(_) => PollEventKeepsInv(s, e);
    case PollTimeout(_) => AgentEventKeepsInv(s, e);
    case Send(_, _) => AgentEventKeepsInv(s, e);
    case Acknowledge(_, _) => AgentEventKeepsInv(s, e);
    case Restart(_) => AgentEventKeepsInv(s, e);
    case _ => TableEventKeepsInv(s, e);
  }

  lemma {:induction false} RunKeepsInv(s: System, events: seq<Event>)
    requires Inv(s) && Legal(s, events)
    ensures Inv(After(s, events))
    decreases |events|
  {
    if events != [] {
      StepKeepsInv(s, events[0]);
      RunKeepsInv(Apply(s, events[0]), events[1..]);
    }
  }

  lemma ReachableInv(s: System)
    requires Reachable(s)
    ensures Inv(s)
  {
    var events :| Legal(INITIAL, events) && After(INITIAL, events) == s;
    RunKeepsInv(INITIAL, events);
  }

  // ---------------------------------------------------------------- properties

  /**
  In every run a task id is in at most one poll response, is executed at most
  once, and has its result applied at most once, whatever is lost or repeated.
   */
  lemma AtMostOnce(s: System)
    requires Reachable(s)
    ensures forall i, j :: 0 <= i < j < |s.handed| ==> s.handed[i].task != s.handed[j].task
    ensures forall i, j :: 0 <= i < j < |s.executed| ==> s.executed[i].task != s.executed[j].task
    ensures forall i, j :: 0 <= i < j < |s.effects| ==> s.effects[i] != s.effects[j]
  {
    ReachableInv(s);
  }

  /** A recorded success was handed to the row's own node, executed there, and succeeded there. */
  lemma SuccessWasExecuted(s: System, id: nat)
    requires Reachable(s) && HasStatus(s.tasks, id, Succeeded)
    ensures exists r :: r in s.executed && r.task == id && r.node == s.tasks[id].node && r.success
    ensures exists h :: h in s.handed && h.task == id && h.node == s.tasks[id].node
  {
    ReachableInv(s);
    var r :| r in s.executed && r.task == id && r.success;
    var h :| h in s.handed && h.task == r.task && h.node == r.node && Consumed(s, h.poll);
  }

  /**
  A handout whose checked payload has no continue flag comes after the dependency
  that was checked was itself handed out and recorded as succeeded.
   */
  lemma CheckedHappensBefore(s: System, i: nat)
    requires Reachable(s) && i < |s.handed|
    requires DependencyId(s.handed[i].checked).Some?
    requires !ContinuesAfterFailure(s.handed[i].kind, s.handed[i].checked)
    ensures var d := DependencyId(s.handed[i].checked).value;
      HasStatus(s.tasks, d, Succeeded) && exists j :: 0 <= j < i && s.handed[j].task == d
  {
    ReachableInv(s);
    assert Ordered(s.tasks, s.handed, i);
    HandedEarlier(s.handed, i, DependencyId(s.handed[i].checked).value);
  }

  lemma HandedEarlier(handed: seq<Handout>, i: nat, id: nat)
    requires i <= |handed| && WasHanded(handed[..i], id)
    ensures exists j :: 0 <= j < i && handed[j].task == id
  {
    var h :| h in handed[..i] && h.task == id;
    var j :| 0 <= j < i && handed[..i][j] == h;
    assert handed[j].task == id;
  }

  lemma {:induction false} RunProceeds(s: System, events: seq<Event>)
    requires Legal(s, events)
    ensures Proceeds(s.tasks, After(s, events).tasks)
    decreases |events|
  {
    if events != [] {
      var s' := Apply(s, events[0]);
      EventMovesTable(s, events[0]);
      RunProceeds(s', events[1..]);
      ProceedsTransitive(s.tasks, s'.tasks, After(s', events[1..]).tasks);
    }
  }

  // --------------------------------------------------------------- overwritten payloads

  /** An overwriting write finds its row pending, or leaves its payload as it is. */
  ghost predicate CleanWrite(s: System, e: Event) {
    e.Overwrite? && e.id in s.tasks ==> s.tasks[e.id].status.Pending? || s.tasks[e.id].payload == e.payload
  }

  ghost predicate CleanRun(s: System, events: seq<Event>)
    requires Legal(s, events)
    decreases |events|
  {
    events != [] ==> CleanWrite(s, events[0]) && CleanRun(Apply(s, events[0]), events[1..])
  }

  /** Rows evolve over every single event of a run. */
  ghost predicate EvolvesThroughout(s: System, events: seq<Event>)
    requires Legal(s, events)
    decreases |events|
  {
    events != [] ==> Evolves(s.tasks, Apply(s, events[0]).tasks) && EvolvesThroughout(Apply(s, events[0]), events[1..])
  }

  /** An event lets every row evolve exactly when it is not a write into a row that has left pending. */
  lemma EventEvolvesIff(s: System, e: Event)
    requires Enabled(s, e)
    ensures Evolves(s.tasks, Apply(s, e).tasks) <==> CleanWrite(s, e)
  {
    EventMovesTable(s, e);
    if !e.Overwrite? {
      SameOrMovesEvolve(s.tasks, Apply(s, e).tasks);
    }
  }

  /**
  Rows evolve over a whole run, terminal rows and the payloads of rows that left pending
  never changing, exactly when every overwriting write finds its row pending or leaves its payload.
   */
  lemma {:induction false} RunEvolvesIff(s: System, events: seq<Event>)
    requires Legal(s, events)
    ensures EvolvesThroughout(s, events) <==> CleanRun(s, events)
    ensures EvolvesThroughout(s, events) ==> Evolves(s.tasks, After(s, events).tasks)
    decreases |events|
  {
    if events != [] {
      var s' := Apply(s, events[0]);
      EventEvolvesIff(s, events[0]);
      RunEvolvesIff(s', events[1..]);
      if EvolvesThroughout(s, events) {
        EvolvesTransitive(s.tasks, s'.tasks, After(s', events[1..]).tasks);
      }
    }
  }

  /** While a run is clean, every row that was handed out still holds the payload it was handed out with. */
  ghost predicate HandedPayloads(s: System) {
    forall h :: h in s.handed && h.task in s.tasks ==> s.tasks[h.task].payload == h.payload
  }

  lemma StepKeepsHandedPayloads(s: System, e: Event)
    requires HandedInv(s) && HandedPayloads(s) && Enabled(s, e) && CleanWrite(s, e)
    ensures HandedPayloads(Apply(s, e))
  {
    EventEvolvesIff(s, e);
    if e.PollClaim? {
      ClaimKeepsHandedPayloads(s, e.poll);
    } else {
      OthersHandNothingOut(s, e);
    }
  }

  lemma ClaimKeepsHandedPayloads(s: System, p: nat)
    requires HandedInv(s) && HandedPayloads(s) && p in s.polls && s.polls[p].ready.Some?
    ensures HandedPayloads(Claim(s, p))
  {
  }

  lemma OthersHandNothingOut(s: System, e: Event)
    requires Enabled(s, e) && !e.PollClaim?
    ensures Apply(s, e).handed == s.handed
  {
  }

  lemma {:induction false} CleanRunKeepsHandedPayloads(s: System, events: seq<Event>)
    requires Inv(s) && HandedPayloads(s) && Legal(s, events) && CleanRun(s, events)
    ensures HandedPayloads(After(s, events))
    decreases |events|
  {
    if events != [] {
      StepKeepsInv(s, events[0]);
      StepKeepsHandedPayloads(s, events[0]);
      CleanRunKeepsHandedPayloads(Apply(s, events[0]), events[1..]);
    }
  }

  lemma NothingNew(s: System, e: Event)
    requires Enabled(s, e) && !e.Insert?
    ensures Apply(s, e).tasks.Keys == s.tasks.Keys
  {
  }

  ghost predicate SomeStatusChanged(t: Table, u: Table) {
    exists id :: id in t && id in u && t[id].status != u[id].status
  }

  /** The number of events of a run that change the status of a row. */
  ghost function Transitions(s: System, events: seq<Event>): nat
    requires Legal(s, events)
    decreases |events|
  {
    if events == [] then 0
    else
      var s' := Apply(s, events[0]);
      (if SomeStatusChanged(s.tasks, s'.tasks) then 1 else 0) + Transitions(s', events[1..])
  }

  lemma EventLowersMeasure(s: System, e: Event, bound: nat)
    requires Enabled(s, e) && !e.Insert? && forall id :: id in s.tasks ==> id < bound
    ensures Measure(Apply(s, e).tasks, bound) <= Measure(s.tasks, bound)
    ensures SomeStatusChanged(s.tasks, Apply(s, e).tasks) ==> Measure(Apply(s, e).tasks, bound) < Measure(s.tasks, bound)
  {
    var t, u := s.tasks, Apply(s, e).tasks;
    EventMovesTable(s, e);
    NothingNew(s, e);
    if e.Overwrite? {
      MeasureCongruent(t, u, bound);
    } else if t != u {
      var id :| id in t && id in u && RowMoves(t[id], u[id]) && u == t[id := u[id]];
      StatusChangeLowersMeasure(t, u, id, bound);
    }
  }

  /**
  Every run without new rows changes statuses at most `2 * pending + running` times,
  counted where it starts, however many other events it has.
   */
  lemma {:induction false} FinitelyManyTransitions(s: System, events: seq<Event>, bound: nat)
    requires Legal(s, events) && (forall e :: e in events ==> !e.Insert?) && forall id :: id in s.tasks ==> id < bound
    ensures Transitions(s, events) <= Measure(s.tasks, bound)
    decreases |events|
  {
    if events != [] {
      EventLowersMeasure(s, events[0], bound);
      NothingNew(s, events[0]);
      FinitelyManyTransitions(Apply(s, events[0]), events[1..], bound);
    }
  }

  lemma {:induction false} LegalConcat(s: System, first: seq<Event>, second: seq<Event>)
    requires Legal(s, first) && Legal(After(s, first), second)
    ensures Legal(s, first + second) && After(s, first + second) == After(After(s, first), second)
    decreases |first|
  {
    if first == [] {
      assert first + second == second;
    } else {
      LegalConcat(Apply(s, first[0]), first[1..], second);
      assert (first + second)[1..] == first[1..] + second;
    }
  }

  lemma SingleEvent(s: System, e: Event)
    requires Enabled(s, e)
    ensures Legal(s, [e]) && After(s, [e]) == Apply(s, e)
  {
    assert [e][1..] == [];
  }

  /** A run grows by one event at its end. */
  lemma LastEvent(s: System, events: seq<Event>, e: Event)
    requires Legal(s, events) && Enabled(After(s, events), e)
    ensures Legal(s, events + [e]) && After(s, events + [e]) == Apply(After(s, events), e)
  {
    SingleEvent(After(s, events), e);
    LegalConcat(s, events, [e]);
  }

  lemma ReachableAfter(s: System, events: seq<Event>)
    requires Reachable(s) && Legal(s, events)
    ensures Reachable(After(s, events))
  {
    var past :| Legal(INITIAL, past) && After(INITIAL, past) == s;
    LegalConcat(INITIAL, past, events);
  }

  /**
  An agent never holds more than one batch of queued tasks and unacknowledged
  reports, it polls only when it holds none, and whatever it holds or has ever
  sent says what its one execution of the task said.
   */
  lemma AgentBufferBounded(s: System, node: nat)
    requires Reachable(s)
    ensures var a := AgentOf(s, node);
      && |a.queue| + |a.pending| <= POLL_BATCH_SIZE
      && (a.polling.Some? ==> a.queue == [] && a.pending == map[])
      && (forall id :: id in a.pending ==> a.pending[id].task == id && a.pending[id] in s.executed)
    ensures forall r :: r in s.reports ==> r in s.executed
  {
    ReachableInv(s);
    assert node in s.agents ==> AgentOk(s, node, s.agents[node]);
  }

  /** At most one pending row carries a given key, in every run. */
  lemma PendingKeysUnique(s: System, i: nat, j: nat)
    requires Reachable(s) && HasStatus(s.tasks, i, Pending) && HasStatus(s.tasks, j, Pending)
    requires s.tasks[i].dedup.Some? && s.tasks[i].dedup == s.tasks[j].dedup
    ensures i == j
  {
    ReachableInv(s);
  }

}
