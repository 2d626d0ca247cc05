/**
A deployment plan that renames an interface: stop the old interface, delete its
configuration, apply the new one, each depending on the one before. Other handlers may
replace the payload of a row that is still pending; the order survives exactly the
replacements that keep the row's place.
 */
module RenamePlan {

  import opened Wrappers
  import opened Tasks
  import opened Protocol
  import opened ProtocolSafety
  import opened HandoutOrder

  // ------------------------------------------------------- payloads that keep a place

  /** A payload a poll can hand out, as far as the payload itself goes. */
  predicate Deliverable(q: Payload) {
    q.Fields? && q.bytes <= MAX_PAYLOAD_BYTES
  }

  predicate DependsOnOneOf(q: Payload, deps: set<nat>) {
    DependencyId(q).Some? && DependencyId(q).value in deps
  }

  /** With this payload the row is handed out after one of `deps`, or is never handed out. */
  predicate KeepsPlace(q: Payload, id: nat, deps: set<nat>) {
    Deliverable(q) ==> DependsOnOneOf(q, deps + {id})
  }

  /** The replacement payloads that leave a rename plan in order; an apply and a delete have no continue flag to obey. */
  predicate Harmless(stop: nat, del: nat, app: nat, id: nat, q: Payload) {
    (id == app ==> KeepsPlace(q, app, {del})) && (id == del ==> KeepsPlace(q, del, {stop, app}))
  }

  ghost predicate HarmlessRefreshes(events: seq<Event>, stop: nat, del: nat, app: nat) {
    forall e :: e in events && (e.Refresh? || e.Overwrite?) ==> Harmless(stop, del, app, e.id, e.payload)
  }

  /** Whatever a poll has read of the row depends on one of `deps`, and the row keeps its place. */
  ghost predicate Tracked(s: System, id: nat, kind: Kind, deps: set<nat>) {
    && id in s.tasks && s.tasks[id].kind == kind && KeepsPlace(s.tasks[id].payload, id, deps)
    && (forall q :: q in s.polls && s.polls[q].ready.Some? && s.polls[q].ready.value.task == id ==>
          s.polls[q].ready.value.kind == kind && DependsOnOneOf(s.polls[q].ready.value.checked, deps))
    && (forall h :: h in s.handed && h.task == id ==> h.kind == kind && DependsOnOneOf(h.checked, deps))
  }

  /** A row that depends on itself is never ready, nor is one whose payload cannot be handed out. */
  lemma ReadyKeepsPlace(t: Table, id: nat, deps: set<nat>)
    requires id in t && PollVerdict(t, id).Ready? && KeepsPlace(t[id].payload, id, deps)
    ensures DependsOnOneOf(t[id].payload, deps)
  {
    if DependencyId(t[id].payload) == Some(id) {
      assert Leads(t, id, id, 1) by {
        assert Leads(t, id, id, 0);
      }
      CycleHasNoRoot(t, t[id].node, id, 1, MAX_DEPENDENCY_DEPTH - 1);
    }
  }

  lemma TableEventTracked(s: System, e: Event, id: nat, kind: Kind, deps: set<nat>)
    requires Tracked(s, id, kind, deps) && Enabled(s, e) && TableEvent(e)
    requires Rewrites(e, id) ==> KeepsPlace(e.payload, id, deps)
    ensures Tracked(Apply(s, e), id, kind, deps)
  {
  }

  lemma ClaimTracked(s: System, p: nat, id: nat, kind: Kind, deps: set<nat>)
    requires Tracked(s, id, kind, deps) && p in s.polls && s.polls[p].ready.Some?
    ensures Tracked(Claim(s, p), id, kind, deps)
  {
  }

  lemma SelectTracked(s: System, p: nat, x: nat, id: nat, kind: Kind, deps: set<nat>)
    requires Tracked(s, id, kind, deps) && Enabled(s, PollSelect(p, x))
    ensures Tracked(Apply(s, PollSelect(p, x)), id, kind, deps)
  {
    if x == id {
      ReadyKeepsPlace(s.tasks, id, deps);
    }
  }

  lemma OtherEventTracked(s: System, e: Event, id: nat, kind: Kind, deps: set<nat>)
    requires Tracked(s, id, kind, deps) && Enabled(s, e) && !TableEvent(e) && !e.PollClaim? && !e.PollSelect?
    requires Proceeds(s.tasks, Apply(s, e).tasks)
    ensures Tracked(Apply(s, e), id, kind, deps)
  {
    if e.Deliver? {
      assert Apply(s, e).polls == s.polls && Apply(s, e).handed == s.handed;
    } else {
      OtherEventsWriteNoRow(s, e);
    }
  }

  lemma StepTracked(s: System, e: Event, id: nat, kind: Kind, deps: set<nat>)
    requires Tracked(s, id, kind, deps) && Enabled(s, e)
    requires Rewrites(e, id) ==> KeepsPlace(e.payload, id, deps)
    ensures Tracked(Apply(s, e), id, kind, deps)
  {
    EventMovesTable(s, e);
    if TableEvent(e) {
      TableEventTracked(s, e, id, kind, deps);
    } else if e.PollClaim? {
      ClaimTracked(s, e.poll, id, kind, deps);
    } else if e.PollSelect? {
      SelectTracked(s, e.poll, e.id, id, kind, deps);
    } else {
      OtherEventTracked(s, e, id, kind, deps);
    }
  }

  lemma {:induction false} RunTracked(s: System, events: seq<Event>, id: nat, kind: Kind, deps: set<nat>)
    requires Tracked(s, id, kind, deps) && Legal(s, events)
    requires forall e :: e in events && Rewrites(e, id) ==> KeepsPlace(e.payload, id, deps)
    ensures Tracked(After(s, events), id, kind, deps)
    decreases |events|
  {
    if events != [] {
      StepTracked(s, events[0], id, kind, deps);
      RunTracked(Apply(s, events[0]), events[1..], id, kind, deps);
    }
  }

  // ------------------------------------------------------------------- the two theorems

  /** No poll has looked at the row. */
  ghost predicate Unseen(s: System, id: nat) {
    && (forall q :: q in s.polls && s.polls[q].ready.Some? ==> s.polls[q].ready.value.task != id)
    && !WasHanded(s.handed, id)
  }

  /** The two dependent rows of a confirmed rename plan, before any poll has looked at them. */
  ghost predicate RenameQueued(s: System, stop: nat, del: nat, app: nat) {
    && del in s.tasks && s.tasks[del].kind == WgDelete && DependencyId(s.tasks[del].payload) == Some(stop) && Unseen(s, del)
    && app in s.tasks && s.tasks[app].kind == WgApply && DependencyId(s.tasks[app].payload) == Some(del) && Unseen(s, app)
  }

  /** The row was handed out before the `i`-th handout and has succeeded. */
  ghost predicate DoneBefore(s: System, id: nat, i: nat)
    requires i <= |s.handed|
  {
    HasStatus(s.tasks, id, Succeeded) && exists j :: 0 <= j < i && s.handed[j].task == id
  }

  /** The delete is handed out after the stop, and the apply after the delete, each having succeeded. */
  ghost predicate InOrder(s: System, stop: nat, del: nat, app: nat) {
    && (forall i :: 0 <= i < |s.handed| && s.handed[i].task == del ==> DoneBefore(s, stop, i))
    && (forall i :: 0 <= i < |s.handed| && s.handed[i].task == app ==> DoneBefore(s, del, i) && DoneBefore(s, stop, i))
  }

  /** A tracked row is handed out after one of its possible dependencies. */
  lemma TrackedIsAfter(s: System, id: nat, kind: Kind, deps: set<nat>, i: nat) returns (d: nat)
    requires Reachable(s) && Tracked(s, id, kind, deps) && (kind.WgApply? || kind.WgDelete?)
    requires i < |s.handed| && s.handed[i].task == id
    ensures d in deps && DoneBefore(s, d, i)
  {
    assert s.handed[i] in s.handed;
    d := DependencyId(s.handed[i].checked).value;
    CheckedHappensBefore(s, i);
  }

  /** The delete cannot have come after the apply, because the apply comes after the delete. */
  lemma DeleteAfterStop(s: System, stop: nat, del: nat, app: nat, i: nat)
    requires Reachable(s) && Tracked(s, del, WgDelete, {stop, app}) && Tracked(s, app, WgApply, {del})
    requires i < |s.handed| && s.handed[i].task == del
    ensures DoneBefore(s, stop, i)
  {
    var d := TrackedIsAfter(s, del, WgDelete, {stop, app}, i);
    if d != stop {
      var j :| 0 <= j < i && s.handed[j].task == app;
      var e := TrackedIsAfter(s, app, WgApply, {del}, j);
      var k :| 0 <= k < j && s.handed[k].task == del;
      AtMostOnce(s);
      assert false;
    }
  }

  lemma TrackedInOrder(s: System, stop: nat, del: nat, app: nat)
    requires Reachable(s) && Tracked(s, del, WgDelete, {stop, app}) && Tracked(s, app, WgApply, {del})
    ensures InOrder(s, stop, del, app)
  {
    forall i | 0 <= i < |s.handed| && s.handed[i].task == del ensures DoneBefore(s, stop, i) {
      DeleteAfterStop(s, stop, del, app, i);
    }
    forall i | 0 <= i < |s.handed| && s.handed[i].task == app ensures DoneBefore(s, del, i) && DoneBefore(s, stop, i) {
      var d := TrackedIsAfter(s, app, WgApply, {del}, i);
      var j :| 0 <= j < i && s.handed[j].task == del;
      DeleteAfterStop(s, stop, del, app, j);
      var k :| 0 <= k < j && s.handed[k].task == stop;
      assert 0 <= k < i;
    }
  }

  lemma RenameTracked(s: System, events: seq<Event>, stop: nat, del: nat, app: nat)
    requires RenameQueued(s, stop, del, app) && Legal(s, events) && HarmlessRefreshes(events, stop, del, app)
    ensures Tracked(After(s, events), del, WgDelete, {stop, app}) && Tracked(After(s, events), app, WgApply, {del})
  {
    assert Tracked(s, del, WgDelete, {stop, app}) && Tracked(s, app, WgApply, {del});
    RunTracked(s, events, del, WgDelete, {stop, app});
    RunTracked(s, events, app, WgApply, {del});
  }

  /**
  In every continuation whose refreshes are harmless the delete is handed out only after the
  stop, and the apply only after the delete, and both have succeeded by then.
   */
  lemma RenameInOrder(s: System, events: seq<Event>, stop: nat, del: nat, app: nat)
    requires Reachable(s) && RenameQueued(s, stop, del, app) && Legal(s, events)
    requires HarmlessRefreshes(events, stop, del, app)
    ensures InOrder(After(s, events), stop, del, app)
  {
    ReachableAfter(s, events);
    RenameTracked(s, events, stop, del, app);
    TrackedInOrder(After(s, events), stop, del, app);
  }

  /** Once the stop has failed or was cancelled, neither of the other two is ever handed out. */
  lemma FailedStopEndsRename(s: System, events: seq<Event>, stop: nat, del: nat, app: nat)
    requires Reachable(s) && RenameQueued(s, stop, del, app) && Legal(s, events)
    requires HasStatus(s.tasks, stop, Failed) || HasStatus(s.tasks, stop, Cancelled)
    requires HarmlessRefreshes(events, stop, del, app)
    ensures !WasHanded(After(s, events).handed, del) && !WasHanded(After(s, events).handed, app)
  {
    var s' := After(s, events);
    RenameInOrder(s, events, stop, del, app);
    RunProceeds(s, events);
    assert !HasStatus(s'.tasks, stop, Succeeded);
    forall h | h in s'.handed ensures h.task != del && h.task != app {
      var i :| 0 <= i < |s'.handed| && s'.handed[i] == h;
      assert !DoneBefore(s', stop, i);
    }
  }

  /** The three inserts of a confirmed rename put the plan in the state the theorems start from. */
  lemma ConfirmQueuesRename(s: System, stop: nat, stopRow: Task, delRow: Task, appRow: Task)
    requires Reachable(s) && stop > 0 && stop !in s.tasks && stop + 1 !in s.tasks && stop + 2 !in s.tasks
    requires stopRow.status.Pending? && delRow.status.Pending? && appRow.status.Pending?
    requires stopRow.dedup.None? && delRow.dedup.None? && appRow.dedup.None?
    requires delRow.kind == WgDelete && DependencyId(delRow.payload) == Some(stop)
    requires appRow.kind == WgApply && DependencyId(appRow.payload) == Some(stop + 1)
    ensures var events := [Insert(stop, stopRow), Insert(stop + 1, delRow), Insert(stop + 2, appRow)];
      && Legal(s, events) && Reachable(After(s, events))
      && After(s, events) == s.(tasks := s.tasks[stop := stopRow][stop + 1 := delRow][stop + 2 := appRow])
      && RenameQueued(After(s, events), stop, stop + 1, stop + 2)
  {
    var e1, e2, e3 := Insert(stop, stopRow), Insert(stop + 1, delRow), Insert(stop + 2, appRow);
    SingleEvent(s, e1);
    LastEvent(s, [e1], e2);
    LastEvent(s, [e1] + [e2], e3);
    assert [e1] + [e2] + [e3] == [e1, e2, e3];
    var s3 := After(s, [e1, e2, e3]);
    assert s3 == s.(tasks := s.tasks[stop := stopRow][stop + 1 := delRow][stop + 2 := appRow]);
    ReachableAfter(s, [e1, e2, e3]);
    ReachableInv(s);
    NewRowUnseen(s, s3, stop + 1);
    NewRowUnseen(s, s3, stop + 2);
  }

  /** No poll and no history knows a row that did not exist before. */
  lemma NewRowUnseen(s: System, s': System, id: nat)
    requires HandedInv(s) && SessionsInv(s) && id !in s.tasks
    requires s'.polls == s.polls && s'.handed == s.handed
    ensures Unseen(s', id)
  {
    assert forall h :: h in s.handed ==> h.task in s.tasks;
    assert forall q :: q in s.polls ==> ReadyOk(s, q, s.polls[q]);
  }

}
