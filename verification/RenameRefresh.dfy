/** Every payload that does not keep a row's place in a rename plan breaks the order in some run. */
module RenameRefresh {

  import opened Wrappers
  import opened Tasks
  import opened Protocol
  import opened ProtocolSafety
  import opened HandoutOrder
  import opened RenamePlan

  // ---------------------------------------------------------- pieces of a witness run

  /** An idle agent is handed one ready row. */
  lemma HandOut(s: System, node: nat, id: nat)
    requires AgentOf(s, node) == IDLE && s.nextPoll !in s.polls
    requires HasStatus(s.tasks, id, Pending) && s.tasks[id].node == node && PollVerdict(s.tasks, id).Ready?
    ensures var p, row := s.nextPoll, s.tasks[id];
      var events := [PollOpen(node), PollSelect(p, id), PollClaim(p)];
      var h := Handout(p, node, id, row.kind, row.payload, row.payload);
      && Legal(s, events)
      && After(s, events) == s.(tasks := s.tasks[id := row.(status := Running, startedAt := Some(s.now))], nextPoll := p + 1,
           polls := s.polls[p := PollSession(node, None, [h])], agents := s.agents[node := IDLE.(polling := Some(p))],
           handed := s.handed + [h])
  {
    var p, row := s.nextPoll, s.tasks[id];
    var e1, e2, e3 := PollOpen(node), PollSelect(p, id), PollClaim(p);
    SingleEvent(s, e1);
    var s1 := Apply(s, e1);
    assert s1.tasks == s.tasks && s1.polls[p] == PollSession(node, None, []);
    LastEvent(s, [e1], e2);
    LastEvent(s, [e1] + [e2], e3);
    assert [e1] + [e2] + [e3] == [e1, e2, e3];
    assert [] + [Handout(p, node, id, row.kind, row.payload, row.payload)] == [Handout(p, node, id, row.kind, row.payload, row.payload)];
  }

  /** The agent receives the response, executes its one row and holds the report. */
  lemma ExecuteOne(s: System, node: nat, p: nat, h: Handout, result: Result)
    requires p in s.polls && s.polls[p] == PollSession(node, None, [h]) && AgentOf(s, node).polling == Some(p)
    requires p !in s.responses
    ensures var r := Report(h.task, node, true, result);
      var events := [PollRespond(p), PollReceive(p), Execute(node, true, result)];
      && Legal(s, events)
      && After(s, events) == s.(polls := s.polls - {p}, agents := s.agents[node := IDLE.(pending := map[h.task := r])],
                                executed := s.executed + [r])
  {
    var e1, e2, e3 := PollRespond(p), PollReceive(p), Execute(node, true, result);
    SingleEvent(s, e1);
    LastEvent(s, [e1], e2);
    var s2 := After(s, [e1] + [e2]);
    assert s2 == s.(polls := s.polls - {p}, agents := s.agents[node := IDLE.(queue := [h])]) by {
      assert s.responses[p := s.polls[p]] - {p} == s.responses;
    }
    LastEvent(s, [e1] + [e2], e3);
    assert [h][1..] == [];
    assert [e1] + [e2] + [e3] == [e1, e2, e3];
  }

  /** The report is sent, recorded as a success and acknowledged. */
  lemma ReportOne(s: System, node: nat, r: Report)
    requires AgentOf(s, node) == IDLE.(pending := map[r.task := r]) && r.node == node && r.success
    requires HasStatus(s.tasks, r.task, Running) && s.tasks[r.task].node == node
    ensures var events := [Send(node, r.task), Deliver(r, true, false, r.result), Acknowledge(node, r.task)];
      && Legal(s, events)
      && After(s, events) == s.(tasks := Finish(s.tasks, r.task, Succeeded, r.result), reports := s.reports + {r},
                                effects := s.effects + [r.task], agents := s.agents[node := IDLE])
  {
    var e1, e2, e3 := Send(node, r.task), Deliver(r, true, false, r.result), Acknowledge(node, r.task);
    SingleEvent(s, e1);
    LastEvent(s, [e1], e2);
    var s2 := After(s, [e1] + [e2]);
    assert AgentOf(s2, node) == AgentOf(s, node);
    LastEvent(s, [e1] + [e2], e3);
    assert map[r.task := r] - {r.task} == map[];
    assert [e1] + [e2] + [e3] == [e1, e2, e3];
  }

  /** What a run of one row to its success leaves behind. */
  ghost predicate Finished(s: System, s': System, node: nat, x: nat)
    requires x in s.tasks
  {
    && s'.tasks.Keys == s.tasks.Keys && HasStatus(s'.tasks, x, Succeeded) && s'.tasks[x].payload == s.tasks[x].payload
    && s'.tasks[x].node == s.tasks[x].node
    && (forall id :: id in s.tasks && id != x ==> s'.tasks[id] == s.tasks[id])
    && AgentOf(s', node) == IDLE && s'.nextPoll == s.nextPoll + 1 && s'.polls == s.polls
  }

  lemma RunToSuccess(s: System, node: nat, x: nat) returns (events: seq<Event>)
    requires AgentOf(s, node) == IDLE && s.nextPoll !in s.polls && s.nextPoll !in s.responses
    requires HasStatus(s.tasks, x, Pending) && s.tasks[x].node == node && PollVerdict(s.tasks, x).Ready?
    ensures Legal(s, events) && Finished(s, After(s, events), node, x)
    ensures forall e :: e in events ==> !e.Refresh? && !e.Overwrite?
  {
    var p, row, result := s.nextPoll, s.tasks[x], Result("", "");
    var h := Handout(p, node, x, row.kind, row.payload, row.payload);
    var first := [PollOpen(node), PollSelect(p, x), PollClaim(p)];
    HandOut(s, node, x);
    var s1 := After(s, first);
    var second := [PollRespond(p), PollReceive(p), Execute(node, true, result)];
    ExecuteOne(s1, node, p, h, result);
    LegalConcat(s, first, second);
    var s2 := After(s1, second);
    var r := Report(x, node, true, result);
    var third := [Send(node, x), Deliver(r, true, false, result), Acknowledge(node, x)];
    ReportOne(s2, node, r);
    LegalConcat(s, first + second, third);
    events := first + second + third;
    assert s.polls[p := PollSession(node, None, [h])] - {p} == s.polls;
  }

  // -------------------------------------------------------------------- the witnesses

  /** A freshly confirmed rename on an idle node. */
  function RenameTable(stop: nat, del: nat, app: nat): Table {
    map[stop := FreshRow(0, WgStop, Depending(0)), del := FreshRow(0, WgDelete, Depending(stop)),
        app := FreshRow(0, WgApply, Depending(del))]
  }

  predicate DistinctIds(stop: nat, del: nat, app: nat) {
    0 < stop && 0 < del && 0 < app && stop != del && stop != app && del != app
  }

  lemma RenameStart(stop: nat, del: nat, app: nat)
    requires DistinctIds(stop, del, app)
    ensures var s := INITIAL.(tasks := RenameTable(stop, del, app));
      Reachable(s) && RenameQueued(s, stop, del, app)
  {
    var t := RenameTable(stop, del, app);
    var e1, e2, e3 := Insert(stop, t[stop]), Insert(del, t[del]), Insert(app, t[app]);
    SingleEvent(INITIAL, e1);
    LastEvent(INITIAL, [e1], e2);
    LastEvent(INITIAL, [e1] + [e2], e3);
    assert After(INITIAL, [e1] + [e2] + [e3]) == INITIAL.(tasks := t);
  }

  /** The only refreshes of the two dependent rows install the given payload in the given row. */
  ghost predicate OnlyRefresh(events: seq<Event>, del: nat, app: nat, id: nat, q: Payload) {
    forall e :: e in events && (Rewrites(e, del) || Rewrites(e, app)) ==> Rewrites(e, id) && e.payload == q
  }

  /** A row without a dependency that can be met otherwise is handed out at once, while its predecessor is pending. */
  lemma RefreshThenHandOut(s: System, id: nat, q: Payload) returns (events: seq<Event>)
    requires AgentOf(s, 0) == IDLE && s.nextPoll !in s.polls
    requires HasStatus(s.tasks, id, Pending) && s.tasks[id].node == 0 && Deliverable(q)
    requires DependencyId(q).Some? ==> var x := DependencyId(q).value;
      x != id && HasStatus(s.tasks, x, Succeeded) && s.tasks[x].node == 0 && DependencyId(s.tasks[x].payload).None?
    ensures Legal(s, events) && WasHanded(After(s, events).handed, id)
    ensures forall x :: x in s.tasks && x != id ==> x in After(s, events).tasks && After(s, events).tasks[x] == s.tasks[x]
    ensures forall e :: e in events && (e.Refresh? || e.Overwrite?) ==> e == Refresh(id, q)
  {
    SingleEvent(s, Refresh(id, q));
    var s1 := Apply(s, Refresh(id, q));
    ReadyNow(s1.tasks, id);
    HandOut(s1, 0, id);
    var p := s1.nextPoll;
    var rest := [PollOpen(0), PollSelect(p, id), PollClaim(p)];
    LegalConcat(s, [Refresh(id, q)], rest);
    events := [Refresh(id, q)] + rest;
    var s2 := After(s1, rest);
    assert s2.handed[|s.handed|] in s2.handed;
  }

  lemma ReadyNow(t: Table, id: nat)
    requires id in t && t[id].node == 0 && Deliverable(t[id].payload)
    requires DependencyId(t[id].payload).Some? ==> var x := DependencyId(t[id].payload).value;
      HasStatus(t, x, Succeeded) && t[x].node == 0 && DependencyId(t[x].payload).None?
    ensures PollVerdict(t, id).Ready?
  {
  }

  /** The row whose success the payload waits for, run to success first; the predecessors of `id` stay pending. */
  lemma PrepareDependency(stop: nat, del: nat, app: nat, id: nat, x: nat) returns (events: seq<Event>)
    requires DistinctIds(stop, del, app) && (id == del || id == app) && x > 0
    requires x != del && x != app && (id == del ==> x != stop)
    ensures var s := INITIAL.(tasks := RenameTable(stop, del, app));
      && Legal(s, events)
      && var s' := After(s, events);
         && AgentOf(s', 0) == IDLE && s'.nextPoll !in s'.polls
         && HasStatus(s'.tasks, x, Succeeded) && s'.tasks[x].node == 0 && DependencyId(s'.tasks[x].payload).None?
         && (forall y :: (y == del || y == app || (y == stop && x != stop)) ==> y in s'.tasks && s'.tasks[y] == s.tasks[y])
    ensures forall e :: e in events ==> !e.Refresh? && !e.Overwrite?
  {
    var s := INITIAL.(tasks := RenameTable(stop, del, app));
    events := [];
    var s1 := s;
    if x != stop {
      var e := Insert(x, FreshRow(0, WgStart, Depending(0)));
      SingleEvent(s, e);
      events, s1 := [e], Apply(s, e);
    }
    assert Legal(s, events) && After(s, events) == s1;
    ReadyNow(s1.tasks, x);
    var more := RunToSuccess(s1, 0, x);
    LegalConcat(s, events, more);
    events := events + more;
  }

  /** The refreshed row has been handed out while the row before it in the plan is still pending. */
  ghost predicate Overtakes(s: System, stop: nat, del: nat, app: nat, id: nat) {
    WasHanded(s.handed, id) && HasStatus(s.tasks, if id == app then del else stop, Pending)
  }

  /** A payload that does not keep the row's place lets the row overtake its predecessor in some run. */
  lemma HarmfulRefreshOvertakes(stop: nat, del: nat, app: nat, id: nat, q: Payload) returns (events: seq<Event>)
    requires DistinctIds(stop, del, app) && (id == del || id == app) && !Harmless(stop, del, app, id, q)
    ensures var s := INITIAL.(tasks := RenameTable(stop, del, app));
      && Reachable(s) && RenameQueued(s, stop, del, app)
      && Legal(s, events) && OnlyRefresh(events, del, app, id, q)
      && Overtakes(After(s, events), stop, del, app, id)
  {
    var s := INITIAL.(tasks := RenameTable(stop, del, app));
    RenameStart(stop, del, app);
    var first: seq<Event> := [];
    if DependencyId(q).Some? {
      first := PrepareDependency(stop, del, app, id, DependencyId(q).value);
    }
    var rest := RefreshThenHandOut(After(s, first), id, q);
    LegalConcat(s, first, rest);
    events := first + rest;
  }

  /**
  The order of a rename plan survives the refreshes of a row with a payload, in every
  continuation of every state in which the plan is queued, exactly when that payload
  depends on the row's predecessor, or lets the row never be handed out.
   */
  lemma RenameInOrderIff(stop: nat, del: nat, app: nat, id: nat, q: Payload)
    requires DistinctIds(stop, del, app) && (id == del || id == app)
    ensures (forall s, events :: Reachable(s) && RenameQueued(s, stop, del, app) && Legal(s, events) && OnlyRefresh(events, del, app, id, q)
               ==> InOrder(After(s, events), stop, del, app))
      <==> Harmless(stop, del, app, id, q)
  {
    if Harmless(stop, del, app, id, q) {
      forall s, events | Reachable(s) && RenameQueued(s, stop, del, app) && Legal(s, events) && OnlyRefresh(events, del, app, id, q)
        ensures InOrder(After(s, events), stop, del, app)
      {
        RenameInOrder(s, events, stop, del, app);
      }
    } else {
      var events := HarmfulRefreshOvertakes(stop, del, app, id, q);
      var s := INITIAL.(tasks := RenameTable(stop, del, app));
      OvertakingIsDisorder(After(s, events), stop, del, app, id);
    }
  }

  lemma OvertakingIsDisorder(s: System, stop: nat, del: nat, app: nat, id: nat)
    requires (id == del || id == app) && del != app && Overtakes(s, stop, del, app, id)
    ensures !InOrder(s, stop, del, app)
  {
    var h :| h in s.handed && h.task == id;
    var i :| 0 <= i < |s.handed| && s.handed[i] == h;
  }

}
