/**
Whether a row is handed out after its own dependency. A poll checks a row and claims
it in two steps, and what it hands out is the row as it is after the claim, so a
payload that is replaced in between is handed out unchecked.
 */
module HandoutOrder {

  import opened Wrappers
  import opened Tasks
  import opened Protocol
  import opened ProtocolSafety

  // ------------------------------------------------ between a selection and its claim

  /** The event replaces the payload of the row. */
  predicate Rewrites(e: Event, id: nat) {
    (e.Refresh? || e.Overwrite?) && e.id == id
  }

  /** The payload that the last write of a row's payload installed, if there was any. */
  function LastRefresh(events: seq<Event>, id: nat): Option<Payload> {
    if events == [] then None
    else
      var last := events[|events| - 1];
      if Rewrites(last, id) then Some(last.payload) else LastRefresh(events[..|events| - 1], id)
  }

  /** A poll has found a row ready, and the payload of the row is the one given. */
  ghost predicate Selected(s: System, p: nat, h: Handout, payload: Payload) {
    && p < s.nextPoll && p in s.polls && s.polls[p].ready == Some(h)
    && h.task in s.tasks && s.tasks[h.task].payload == payload
  }

  lemma StepKeepsSelected(s: System, e: Event, p: nat, h: Handout, payload: Payload)
    requires Selected(s, p, h, payload) && Enabled(s, e) && e != PollClaim(p)
    ensures Selected(Apply(s, e), p, h, if Rewrites(e, h.task) then e.payload else payload)
  {
  }

  lemma {:induction false} LegalPrefix(s: System, events: seq<Event>, e: Event)
    requires Legal(s, events + [e])
    ensures Legal(s, events) && Enabled(After(s, events), e) && After(s, events + [e]) == Apply(After(s, events), e)
    decreases |events|
  {
    if events == [] {
      assert events + [e] == [e] && [e][1..] == [];
    } else {
      assert (events + [e])[1..] == events[1..] + [e];
      LegalPrefix(Apply(s, events[0]), events[1..], e);
    }
  }

  lemma {:induction false} RunKeepsSelected(s: System, events: seq<Event>, p: nat, h: Handout, payload: Payload)
    requires Selected(s, p, h, payload) && Legal(s, events) && PollClaim(p) !in events
    ensures Selected(After(s, events), p, h, if LastRefresh(events, h.task).Some? then LastRefresh(events, h.task).value else payload)
    decreases |events|
  {
    if events != [] {
      var front, last := events[..|events| - 1], events[|events| - 1];
      assert events == front + [last];
      LegalPrefix(s, front, last);
      RunKeepsSelected(s, front, p, h, payload);
      var before := if LastRefresh(front, h.task).Some? then LastRefresh(front, h.task).value else payload;
      StepKeepsSelected(After(s, front), last, p, h, before);
    }
  }

  /** What the dependency of a row asks for is there as soon as it is met: rows that succeeded were handed out. */
  lemma MetMeansFollows(s: System, kind: Kind, payload: Payload)
    requires HandedInv(s)
    ensures Follows(s.tasks, s.handed, kind, payload) <==> DependencyMet(s.tasks, kind, payload)
  {
  }

  /** A claim of a row that is still pending hands out the row's own payload. */
  lemma ClaimHandsOutRow(s: System, p: nat, h: Handout, payload: Payload)
    requires Selected(s, p, h, payload) && HasStatus(s.tasks, h.task, Pending)
    ensures var s' := Apply(s, PollClaim(p));
      && s'.handed == s.handed + [h.(payload := payload)]
      && HasStatus(s'.tasks, h.task, Running) && s'.tasks[h.task].payload == payload
      && (forall id :: id != h.task ==> (id in s'.tasks <==> id in s.tasks) && (id in s.tasks ==> s'.tasks[id] == s.tasks[id]))
  {
  }

  /**
  Between its selection and its claim anything may happen. The row is handed out after
  its own dependency exactly when no refresh in between left it with an unmet one.
   */
  lemma OwnDependencyIff(s: System, p: nat, id: nat, events: seq<Event>)
    requires Reachable(s) && Enabled(s, PollSelect(p, id))
    requires Legal(Apply(s, PollSelect(p, id)), events) && PollClaim(p) !in events
    requires HasStatus(After(Apply(s, PollSelect(p, id)), events).tasks, id, Pending)
    ensures var now := After(Apply(s, PollSelect(p, id)), events);
      var kind, refreshed := s.tasks[id].kind, LastRefresh(events, id);
      && p in now.polls && now.polls[p].ready.Some?
      && var next := Apply(now, PollClaim(p));
         && HasStatus(next.tasks, id, Running)
         && next.tasks[id].payload == (if refreshed.Some? then refreshed.value else s.tasks[id].payload)
         && |next.handed| == |now.handed| + 1 && next.handed[..|now.handed|] == now.handed
         && next.handed[|now.handed|].task == id && next.handed[|now.handed|].payload == next.tasks[id].payload
         && (Follows(now.tasks, now.handed, kind, next.tasks[id].payload)
             <==> (refreshed.None? || DependencyMet(now.tasks, kind, refreshed.value)))
  {
    var s1 := Apply(s, PollSelect(p, id));
    var now, h := After(s1, events), s1.polls[p].ready.value;
    ReachableInv(s);
    assert SessionOk(s, p, s.polls[p]);
    RunKeepsSelected(s1, events, p, h, s.tasks[id].payload);
    var payload := now.tasks[id].payload;
    ClaimHandsOutRow(now, p, h, payload);
    SelectedStateReachable(s, p, id, events);
    ReachableInv(now);
    MetMeansFollows(now, s.tasks[id].kind, payload);
    if LastRefresh(events, id).None? {
      CheckedStaysMet(s, p, id, events);
    }
  }

  lemma SelectedStateReachable(s: System, p: nat, id: nat, events: seq<Event>)
    requires Reachable(s) && Enabled(s, PollSelect(p, id)) && Legal(Apply(s, PollSelect(p, id)), events)
    ensures Reachable(After(Apply(s, PollSelect(p, id)), events))
  {
    SingleEvent(s, PollSelect(p, id));
    ReachableAfter(s, [PollSelect(p, id)]);
    ReachableAfter(Apply(s, PollSelect(p, id)), events);
  }

  lemma CheckedStaysMet(s: System, p: nat, id: nat, events: seq<Event>)
    requires Enabled(s, PollSelect(p, id)) && Legal(Apply(s, PollSelect(p, id)), events)
    ensures DependencyMet(After(Apply(s, PollSelect(p, id)), events).tasks, s.tasks[id].kind, s.tasks[id].payload)
  {
    var s1 := Apply(s, PollSelect(p, id));
    assert s1.tasks == s.tasks;
    ReadyMeansMet(s.tasks, id);
    RunProceeds(s1, events);
    DependencyMetIsStable(s.tasks, After(s1, events).tasks, s.tasks[id].kind, s.tasks[id].payload);
  }

  // --------------------------------------------------------------------- whole runs

  /** A refresh that finds its row selected by some poll installs a dependency that is met. */
  ghost predicate QuietStep(s: System, e: Event) {
    (e.Refresh? || e.Overwrite?) && e.id in s.tasks ==>
      forall p :: p in s.polls && s.polls[p].ready.Some? && s.polls[p].ready.value.task == e.id ==>
        DependencyMet(s.tasks, s.tasks[e.id].kind, e.payload)
  }

  ghost predicate Quiet(s: System, events: seq<Event>)
    requires Legal(s, events)
    decreases |events|
  {
    events != [] ==> QuietStep(s, events[0]) && Quiet(Apply(s, events[0]), events[1..])
  }

  /** Every row was handed out after its own dependency. */
  ghost predicate OwnOrder(t: Table, handed: seq<Handout>) {
    forall i :: 0 <= i < |handed| ==> Follows(t, handed[..i], handed[i].kind, handed[i].payload)
  }

  /** A row that a poll has selected and that is still pending has a dependency that is met. */
  ghost predicate SelectedMet(s: System, p: nat)
    requires p in s.polls
  {
    var ready := s.polls[p].ready;
    ready.Some? && HasStatus(s.tasks, ready.value.task, Pending) ==>
      DependencyMet(s.tasks, s.tasks[ready.value.task].kind, s.tasks[ready.value.task].payload)
  }

  ghost predicate OwnInv(s: System) {
    OwnOrder(s.tasks, s.handed) && forall p :: p in s.polls ==> SelectedMet(s, p)
  }

  lemma OwnOrderFrame(t: Table, u: Table, handed: seq<Handout>)
    requires OwnOrder(t, handed) && Proceeds(t, u)
    ensures OwnOrder(u, handed)
  {
    forall i | 0 <= i < |handed| ensures Follows(u, handed[..i], handed[i].kind, handed[i].payload) {
      assert Follows(t, handed[..i], handed[i].kind, handed[i].payload);
      DependencyMetIsStable(t, u, handed[i].kind, handed[i].payload);
    }
  }

  /** A pending row keeps its payload unless it is refreshed, and rows never become pending again. */
  lemma PendingPayloadKept(s: System, e: Event, id: nat)
    requires Enabled(s, e) && id in s.tasks && HasStatus(Apply(s, e).tasks, id, Pending)
    ensures HasStatus(s.tasks, id, Pending) && Apply(s, e).tasks[id].kind == s.tasks[id].kind
    ensures !Rewrites(e, id) ==> Apply(s, e).tasks[id].payload == s.tasks[id].payload
  {
  }

  lemma SelectedMetKept(s: System, e: Event, p: nat)
    requires Enabled(s, e) && QuietStep(s, e) && Proceeds(s.tasks, Apply(s, e).tasks)
    requires p in s.polls && p in Apply(s, e).polls && Apply(s, e).polls[p].ready == s.polls[p].ready
    requires s.polls[p].ready.Some? ==> s.polls[p].ready.value.task in s.tasks
    requires SelectedMet(s, p)
    ensures SelectedMet(Apply(s, e), p)
  {
    var s', ready := Apply(s, e), s.polls[p].ready;
    if ready.Some? && HasStatus(s'.tasks, ready.value.task, Pending) {
      var id := ready.value.task;
      PendingPayloadKept(s, e, id);
      DependencyMetIsStable(s.tasks, s'.tasks, s.tasks[id].kind, s'.tasks[id].payload);
    }
  }

  /** How an event changes the sessions: it opens one, selects, claims or removes one, or leaves it. */
  lemma SessionsAfter(s: System, e: Event, p: nat)
    requires Enabled(s, e) && p in Apply(s, e).polls && p != s.nextPoll
    ensures p in s.polls
    ensures !(e.PollSelect? && e.poll == p) && e != PollClaim(p) ==> Apply(s, e).polls[p].ready == s.polls[p].ready
  {
  }

  lemma OpenedSession(s: System, e: Event)
    requires Enabled(s, e) && s.nextPoll !in s.polls && s.nextPoll in Apply(s, e).polls
    ensures Apply(s, e).polls[s.nextPoll].ready.None?
  {
  }

  lemma ClaimKeepsOwnOrder(s: System, p: nat)
    requires Inv(s) && OwnInv(s) && Enabled(s, PollClaim(p))
    ensures OwnOrder(Apply(s, PollClaim(p)).tasks, Apply(s, PollClaim(p)).handed)
  {
    var s', ready := Apply(s, PollClaim(p)), s.polls[p].ready.value;
    EventMovesTable(s, PollClaim(p));
    OwnOrderFrame(s.tasks, s'.tasks, s.handed);
    if HasStatus(s.tasks, ready.task, Pending) {
      var h := ready.(payload := s.tasks[ready.task].payload);
      assert SelectedMet(s, p) && ReadyOk(s, p, s.polls[p]);
      MetMeansFollows(s, h.kind, h.payload);
      DependencyMetIsStable(s.tasks, s'.tasks, h.kind, h.payload);
      OwnOrderGrows(s'.tasks, s.handed, h);
    }
  }

  lemma OwnOrderGrows(t: Table, handed: seq<Handout>, h: Handout)
    requires OwnOrder(t, handed) && Follows(t, handed, h.kind, h.payload)
    ensures OwnOrder(t, handed + [h])
  {
    var all := handed + [h];
    forall i | 0 <= i < |all| ensures Follows(t, all[..i], all[i].kind, all[i].payload) {
      assert all[..i] == handed[..i];
      assert i == |handed| ==> handed[..i] == handed;
    }
  }

  lemma StepKeepsOwnInv(s: System, e: Event)
    requires Inv(s) && OwnInv(s) && Enabled(s, e) && QuietStep(s, e)
    ensures OwnInv(Apply(s, e))
  {
    var s' := Apply(s, e);
    EventMovesTable(s, e);
    if e.PollClaim? {
      ClaimKeepsOwnOrder(s, e.poll);
    } else {
      OthersHandNothingOut(s, e);
      OwnOrderFrame(s.tasks, s'.tasks, s.handed);
    }
    forall p | p in s'.polls ensures SelectedMet(s', p) {
      StepKeepsSelectedMet(s, e, p);
    }
  }

  lemma StepKeepsSelectedMet(s: System, e: Event, p: nat)
    requires Inv(s) && OwnInv(s) && Enabled(s, e) && QuietStep(s, e) && Proceeds(s.tasks, Apply(s, e).tasks)
    requires p in Apply(s, e).polls
    ensures SelectedMet(Apply(s, e), p)
  {
    assert s.nextPoll in s.polls ==> SessionOk(s, s.nextPoll, s.polls[s.nextPoll]);
    if p == s.nextPoll {
      OpenedSession(s, e);
    } else {
      SessionsAfter(s, e, p);
      if e.PollSelect? && e.poll == p {
        ReadyMeansMet(s.tasks, e.id);
      } else if e != PollClaim(p) {
        assert ReadyOk(s, p, s.polls[p]);
        SelectedMetKept(s, e, p);
      }
    }
  }

  lemma {:induction false} RunKeepsOwnInv(s: System, events: seq<Event>)
    requires Inv(s) && OwnInv(s) && Legal(s, events) && Quiet(s, events)
    ensures OwnInv(After(s, events))
    decreases |events|
  {
    if events != [] {
      StepKeepsInv(s, events[0]);
      StepKeepsOwnInv(s, events[0]);
      RunKeepsOwnInv(Apply(s, events[0]), events[1..]);
    }
  }

  /**
  In every run in which no refresh gives a row that a poll has just selected an unmet
  dependency, a row without the continue flag is handed out only after its own dependency
  was handed out and has succeeded. In a clean run that dependency is still the row's.
   */
  lemma HappensBefore(events: seq<Event>, i: nat)
    requires Legal(INITIAL, events) && Quiet(INITIAL, events) && i < |After(INITIAL, events).handed|
    ensures var s := After(INITIAL, events);
      var id := s.handed[i].task;
      && id in s.tasks && s.tasks[id].kind == s.handed[i].kind
      && (CleanRun(INITIAL, events) ==> s.tasks[id].payload == s.handed[i].payload)
      && var d := DependencyId(s.handed[i].payload);
         d.Some? && !ContinuesAfterFailure(s.handed[i].kind, s.handed[i].payload) ==>
           HasStatus(s.tasks, d.value, Succeeded) && exists j :: 0 <= j < i && s.handed[j].task == d.value
  {
    RunHappensBefore(INITIAL, events, i);
  }

  lemma RunHappensBefore(start: System, events: seq<Event>, i: nat)
    requires Inv(start) && OwnInv(start) && HandedPayloads(start)
    requires Legal(start, events) && Quiet(start, events) && i < |After(start, events).handed|
    ensures var s := After(start, events);
      && HandedInv(s) && OwnInv(s) && s.handed[i].task in s.tasks
      && (CleanRun(start, events) ==> s.tasks[s.handed[i].task].payload == s.handed[i].payload)
      && s.tasks[s.handed[i].task].kind == s.handed[i].kind
      && var d := DependencyId(s.handed[i].payload);
         d.Some? && !ContinuesAfterFailure(s.handed[i].kind, s.handed[i].payload) ==>
           HasStatus(s.tasks, d.value, Succeeded) && exists j :: 0 <= j < i && s.handed[j].task == d.value
  {
    RunKeepsInv(start, events);
    RunKeepsOwnInv(start, events);
    if CleanRun(start, events) {
      CleanRunKeepsHandedPayloads(start, events);
    }
    var s := After(start, events);
    assert s.handed[i] in s.handed;
    OwnInvMeans(s, i);
  }

  lemma OwnInvMeans(s: System, i: nat)
    requires HandedInv(s) && OwnInv(s) && i < |s.handed|
    ensures var h := s.handed[i];
      && h.task in s.tasks && s.tasks[h.task].kind == h.kind
      && var d := DependencyId(h.payload);
         d.Some? && !ContinuesAfterFailure(h.kind, h.payload) ==>
           HasStatus(s.tasks, d.value, Succeeded) && exists j :: 0 <= j < i && s.handed[j].task == d.value
  {
    var h := s.handed[i];
    assert h in s.handed && Follows(s.tasks, s.handed[..i], h.kind, h.payload);
    var d := DependencyId(h.payload);
    if d.Some? && !ContinuesAfterFailure(h.kind, h.payload) {
      HandedEarlier(s.handed, i, d.value);
    }
  }

  // ----------------------------------------------------------------- the open window

  function FreshRow(node: nat, kind: Kind, payload: Payload): Task {
    Task(node, None, kind, payload, Control, 100, Pending, None, None, None, None)
  }

  function Depending(d: int): Payload {
    Fields(if d > 0 then Integer(d) else Missing, false, None, "", 0)
  }

  /**
  Two rows are queued, one of them is selected, refreshed so that it depends on the other,
  and claimed: it runs while its dependency is still pending.
   */
  lemma RefreshInWindow(node: nat, kind: Kind, id: nat, d: nat)
    requires id != d && d > 0
    ensures var free := FreshRow(node, kind, Depending(0));
      var events := [Insert(id, free), Insert(d, free), PollOpen(node), PollSelect(0, id), Refresh(id, Depending(d)), PollClaim(0)];
      && Legal(INITIAL, events)
      && var s := After(INITIAL, events);
         && HasStatus(s.tasks, id, Running) && DependencyId(s.tasks[id].payload) == Some(d) && HasStatus(s.tasks, d, Pending)
         && s.handed == [Handout(0, node, id, kind, Depending(d), Depending(0))]
  {
    var free := FreshRow(node, kind, Depending(0));
    var first := [Insert(id, free), Insert(d, free), PollOpen(node)];
    var second := [PollSelect(0, id), Refresh(id, Depending(d)), PollClaim(0)];
    TwoRowsAndAPoll(node, free, id, d);
    SelectRefreshClaim(After(INITIAL, first), node, kind, id, d);
    LegalConcat(INITIAL, first, second);
    assert first + second == [Insert(id, free), Insert(d, free), PollOpen(node), PollSelect(0, id), Refresh(id, Depending(d)), PollClaim(0)];
  }

  lemma TwoRowsAndAPoll(node: nat, row: Task, id: nat, d: nat)
    requires id != d && row.status.Pending? && row.dedup.None?
    ensures var events := [Insert(id, row), Insert(d, row), PollOpen(node)];
      && Legal(INITIAL, events)
      && After(INITIAL, events) == INITIAL.(tasks := map[id := row, d := row], nextPoll := 1,
           polls := map[0 := PollSession(node, None, [])], agents := map[node := IDLE.(polling := Some(0))])
  {
    var e1, e2, e3 := Insert(id, row), Insert(d, row), PollOpen(node);
    SingleEvent(INITIAL, e1);
    LastEvent(INITIAL, [e1], e2);
    LastEvent(INITIAL, [e1] + [e2], e3);
    assert [e1] + [e2] + [e3] == [e1, e2, e3];
  }

  lemma SelectRefreshClaim(s: System, node: nat, kind: Kind, id: nat, d: nat)
    requires id != d && d > 0 && HasStatus(s.tasks, d, Pending)
    requires id in s.tasks && s.tasks[id] == FreshRow(node, kind, Depending(0))
    requires 0 in s.polls && s.polls[0] == PollSession(node, None, []) && s.handed == []
    ensures var events := [PollSelect(0, id), Refresh(id, Depending(d)), PollClaim(0)];
      && Legal(s, events)
      && var s' := After(s, events);
         && HasStatus(s'.tasks, id, Running) && DependencyId(s'.tasks[id].payload) == Some(d) && HasStatus(s'.tasks, d, Pending)
         && s'.handed == [Handout(0, node, id, kind, Depending(d), Depending(0))]
  {
    var e1, e2, e3 := PollSelect(0, id), Refresh(id, Depending(d)), PollClaim(0);
    assert PollVerdict(s.tasks, id).Ready?;
    SingleEvent(s, e1);
    LastEvent(s, [e1], e2);
    LastEvent(s, [e1] + [e2], e3);
    assert [e1] + [e2] + [e3] == [e1, e2, e3];
  }

}
