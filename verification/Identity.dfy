/**
Matching a late task result to the configuration it was made for, although the
database reuses row ids: each configuration gets a fresh token the first time an
identity is asked for, and a task carries the identity it was created with.
 */
module Identity {

  import opened Wrappers

  datatype ConfigTable = Interfaces | Endpoints

  datatype Key = Key(table: ConfigTable, id: nat)

  /** The identity string `prefix:id:token`; neither an id nor a token contains the separator. */
  datatype Id = Id(key: Key, token: nat)

  /** What a result may write: runtime status, deployed text and the previous-name marker. */
  datatype Fields = Fields(runtime: string, deployed: string, previousName: Option<string>)

  /** The incarnation is history: it counts creations and is read by no handler. */
  datatype Row = Row(node: nat, token: Option<nat>, fields: Fields, incarnation: nat)

  /** `madeFor` is history: the incarnation a task with an identity was created for. */
  datatype ConfigTask = ConfigTask(node: nat, target: Key, identity: Option<Id>, madeFor: nat)

  datatype State = State(rows: map<Key, Row>, tasks: map<nat, ConfigTask>, nextToken: nat, nextIncarnation: nat)

  datatype Event =
    | Create(key: Key, node: nat, fields: Fields)
    | Delete(key: Key)
    | Edit(key: Key, fields: Fields)
    | Enqueue(id: nat, key: Key)
    | EnqueueWithoutIdentity(id: nat, key: Key)
    | Report(id: nat, fields: Fields)

  const INITIAL := State(map[], map[], 0, 0)

  /** The state after the identity of a row was asked for: a missing token is minted and stored. */
  function Minted(s: State, key: Key): State
    requires key in s.rows
  {
    if s.rows[key].token.Some? then s
    else s.(rows := s.rows[key := s.rows[key].(token := Some(s.nextToken))], nextToken := s.nextToken + 1)
  }

  function IdentityOf(s: State, key: Key): Id
    requires key in s.rows
  {
    Id(key, if s.rows[key].token.Some? then s.rows[key].token.value else s.nextToken)
  }

  /** Whether a result of this task may be written to the row its payload names. */
  predicate Targets(s: State, task: ConfigTask) {
    && task.target in s.rows
    && s.rows[task.target].node == task.node
    && (task.identity.None? || task.identity.value == IdentityOf(s, task.target))
  }

  /** The check itself asks for the identity of an existing row on the same node. */
  function Checked(s: State, task: ConfigTask): State {
    if task.target in s.rows && s.rows[task.target].node == task.node && task.identity.Some? then Minted(s, task.target) else s
  }

  ghost predicate Enabled(s: State, e: Event) {
    match e
    case Create(key, _, _) => key !in s.rows
    case Delete(key) => key in s.rows
    case Edit(key, _) => key in s.rows
    case Enqueue(id, key) => id !in s.tasks && key in s.rows
    case EnqueueWithoutIdentity(id, key) => id !in s.tasks && key in s.rows
    case Report(id, _) => id in s.tasks
  }

  function Apply(s: State, e: Event): State
    requires Enabled(s, e)
  {
    match e
    case Create(key, node, fields) =>
      s.(rows := s.rows[key := Row(node, None, fields, s.nextIncarnation)], nextIncarnation := s.nextIncarnation + 1)
    case Delete(key) => s.(rows := s.rows - {key})
    case Edit(key, fields) => s.(rows := s.rows[key := s.rows[key].(fields := fields)])
    case Enqueue(id, key) =>
      var m := Minted(s, key);
      m.(tasks := s.tasks[id := ConfigTask(s.rows[key].node, key, Some(IdentityOf(s, key)), s.rows[key].incarnation)])
    case EnqueueWithoutIdentity(id, key) =>
      s.(tasks := s.tasks[id := ConfigTask(s.rows[key].node, key, None, s.rows[key].incarnation)])
    case Report(id, fields) =>
      var task := s.tasks[id];
      var m := Checked(s, task);
      if Targets(s, task) then m.(rows := m.rows[task.target := m.rows[task.target].(fields := fields)]) else m
  }

  ghost predicate Legal(s: State, events: seq<Event>)
    decreases |events|
  {
    events != [] ==> Enabled(s, events[0]) && Legal(Apply(s, events[0]), events[1..])
  }

  ghost function After(s: State, events: seq<Event>): State
    requires Legal(s, events)
    decreases |events|
  {
    if events == [] then s else After(Apply(s, events[0]), events[1..])
  }

  ghost predicate Reachable(s: State) {
    exists events :: Legal(INITIAL, events) && After(INITIAL, events) == s
  }

  // ------------------------------------------------------------------ invariant

  ghost predicate RowsOk(s: State) {
    && (forall k :: k in s.rows ==> s.rows[k].incarnation < s.nextIncarnation)
    && (forall k :: k in s.rows && s.rows[k].token.Some? ==> s.rows[k].token.value < s.nextToken)
    && (forall k, l | k in s.rows && l in s.rows :: s.rows[k].incarnation == s.rows[l].incarnation ==> k == l)
  }

  /** A task's token is the token of the incarnation it was made for, and of no other row. */
  ghost predicate TaskOk(s: State, task: ConfigTask) {
    && task.madeFor < s.nextIncarnation
    && (task.identity.Some? ==>
          && task.identity.value.key == task.target && task.identity.value.token < s.nextToken
          && (task.target in s.rows ==>
                (s.rows[task.target].token == Some(task.identity.value.token)
                 <==> s.rows[task.target].incarnation == task.madeFor)))
  }

  ghost predicate Inv(s: State) {
    RowsOk(s) && forall id :: id in s.tasks ==> TaskOk(s, s.tasks[id])
  }

  lemma MintKeepsInv(s: State, key: Key)
    requires Inv(s) && key in s.rows
    ensures Inv(Minted(s, key))
  {
    forall id | id in s.tasks ensures TaskOk(Minted(s, key), s.tasks[id]) {
      assert TaskOk(s, s.tasks[id]);
    }
  }

  lemma StepKeepsInv(s: State, e: Event)
    requires Inv(s) && Enabled(s, e)
    ensures Inv(Apply(s, e))
  {
    var s' := Apply(s, e);
    if e.Enqueue? {
      MintKeepsInv(s, e.key);
    }
    if e.Report? && Checked(s, s.tasks[e.id]) != s {
      MintKeepsInv(s, s.tasks[e.id].target);
    }
    forall id | id in s'.tasks ensures TaskOk(s', s'.tasks[id]) {
      assert id in s.tasks ==> TaskOk(s, s.tasks[id]);
    }
  }

  lemma {:induction false} RunKeepsInv(s: State, events: seq<Event>)
    requires Inv(s) && Legal(s, events)
    ensures Inv(After(s, events))
    decreases |events|
  {
    if events != [] {
      StepKeepsInv(s, events[0]);
      RunKeepsInv(Apply(s, events[0]), events[1..]);
    }
  }

  // ----------------------------------------------------------------- properties

  /**
  In every run of creations, deletions, re-creations under the same id, enqueues
  and late reports, a task that carries an identity targets a row of its node
  exactly when that row is the incarnation the task was made for.
   */
  lemma TargetsOwnIncarnation(s: State, id: nat)
    requires Reachable(s) && id in s.tasks && s.tasks[id].identity.Some?
    ensures var task := s.tasks[id];
      Targets(s, task) <==>
        && task.target in s.rows && s.rows[task.target].node == task.node
        && s.rows[task.target].incarnation == task.madeFor
  {
    var events :| Legal(INITIAL, events) && After(INITIAL, events) == s;
    RunKeepsInv(INITIAL, events);
    assert TaskOk(s, s.tasks[id]);
  }

  /** Hence a report changes what a row says only in the incarnation its task was made for. */
  lemma LateReportIsHarmless(s: State, id: nat, fields: Fields, key: Key)
    requires Reachable(s) && id in s.tasks && s.tasks[id].identity.Some? && key in s.rows
    ensures var s' := Apply(s, Report(id, fields));
      && key in s'.rows && s'.rows[key].incarnation == s.rows[key].incarnation
      && (s'.rows[key].fields != s.rows[key].fields ==>
            key == s.tasks[id].target && s.rows[key].incarnation == s.tasks[id].madeFor)
  {
    TargetsOwnIncarnation(s, id);
  }

  /** The row a task was made for still stands, on the task's node. */
  predicate StillThere(s: State, task: ConfigTask) {
    && task.target in s.rows && s.rows[task.target].node == task.node
    && s.rows[task.target].incarnation == task.madeFor
  }

  /**
  What a report of a task with an identity writes, row by row: the target row gets
  the reported fields if it is on the task's node and of the incarnation the task
  was made for, and every other row, or that row otherwise, keeps its own.
   */
  lemma ReportWritesExactly(s: State, id: nat, fields: Fields)
    requires Reachable(s) && id in s.tasks && s.tasks[id].identity.Some?
    ensures var task, s' := s.tasks[id], Apply(s, Report(id, fields));
      && s'.tasks == s.tasks && s'.rows.Keys == s.rows.Keys
      && forall key :: key in s.rows ==>
           && s'.rows[key].node == s.rows[key].node && s'.rows[key].incarnation == s.rows[key].incarnation
           && s'.rows[key].fields ==
                if key == task.target && s.rows[key].node == task.node && s.rows[key].incarnation == task.madeFor
                then fields else s.rows[key].fields
  {
    TargetsOwnIncarnation(s, id);
  }

  /** The row a task was made for has been deleted. */
  ghost predicate Superseded(s: State, task: ConfigTask) {
    && task.madeFor < s.nextIncarnation
    && (task.target in s.rows ==> s.rows[task.target].incarnation != task.madeFor)
  }

  lemma StepSupersedes(s: State, e: Event, id: nat)
    requires Enabled(s, e) && id in s.tasks && Inv(s)
    ensures var s', task := Apply(s, e), s.tasks[id];
      && id in s'.tasks && s'.tasks[id] == task
      && (Superseded(s, task) ==> Superseded(s', task))
      && (StillThere(s, task) ==> if e == Delete(task.target) then Superseded(s', task) else StillThere(s', task))
  {
    assert TaskOk(s, s.tasks[id]);
  }

  /** A deletion ends what a task was made for, once and for all; nothing else does. */
  lemma {:induction false} DeletionSupersedes(s: State, events: seq<Event>, id: nat)
    requires Legal(s, events) && id in s.tasks && Inv(s)
    ensures var s', task := After(s, events), s.tasks[id];
      && id in s'.tasks && s'.tasks[id] == task
      && (Superseded(s, task) ==> Superseded(s', task))
      && (StillThere(s, task) ==> if Delete(task.target) in events then Superseded(s', task) else StillThere(s', task))
    decreases |events|
  {
    if events != [] {
      StepSupersedes(s, events[0], id);
      StepKeepsInv(s, events[0]);
      DeletionSupersedes(Apply(s, events[0]), events[1..], id);
      assert events == [events[0]] + events[1..];
    }
  }

  lemma EnqueuedStands(s: State, id: nat, key: Key)
    requires Inv(s) && Enabled(s, Enqueue(id, key))
    ensures var s1 := Apply(s, Enqueue(id, key));
      Inv(s1) && id in s1.tasks && s1.tasks[id].target == key && s1.tasks[id].identity.Some? && StillThere(s1, s1.tasks[id])
  {
    StepKeepsInv(s, Enqueue(id, key));
  }

  lemma ReportWrites(s: State, id: nat, fields: Fields)
    requires Inv(s) && id in s.tasks && s.tasks[id].identity.Some?
    ensures var task, s' := s.tasks[id], Apply(s, Report(id, fields));
      && (StillThere(s, task) ==> task.target in s'.rows && s'.rows[task.target].fields == fields)
      && (Superseded(s, task) ==> s'.rows.Keys == s.rows.Keys && forall k :: k in s.rows ==> s'.rows[k].fields == s.rows[k].fields)
  {
    assert TaskOk(s, s.tasks[id]);
  }

  /**
  From the moment a task is enqueued, whatever happens before its report: the report
  is written to the row if and only if the row was not deleted in between, even if
  another row has taken its id.
   */
  lemma ReportWrittenIffNotDeleted(s: State, id: nat, key: Key, events: seq<Event>, fields: Fields)
    requires Reachable(s) && Enabled(s, Enqueue(id, key)) && Legal(Apply(s, Enqueue(id, key)), events)
    ensures var before := After(Apply(s, Enqueue(id, key)), events);
      id in before.tasks &&
      var after := Apply(before, Report(id, fields));
      && (Delete(key) !in events ==> key in after.rows && after.rows[key].fields == fields)
      && (Delete(key) in events ==>
            after.rows.Keys == before.rows.Keys && forall k :: k in before.rows ==> after.rows[k].fields == before.rows[k].fields)
  {
    var past :| Legal(INITIAL, past) && After(INITIAL, past) == s;
    RunKeepsInv(INITIAL, past);
    var s1 := Apply(s, Enqueue(id, key));
    EnqueuedStands(s, id, key);
    DeletionSupersedes(s1, events, id);
    RunKeepsInv(s1, events);
    ReportWrites(After(s1, events), id, fields);
  }

  /** The identity is needed: a task without one changes whatever row has the id when it reports. */
  lemma ReportWithoutIdentityHitsSuccessor(key: Key, first: Fields, second: Fields, late: Fields)
    requires late != second
    ensures var events := [Create(key, 1, first), EnqueueWithoutIdentity(7, key), Delete(key), Create(key, 1, second)];
      && Legal(INITIAL, events)
      && var s := After(INITIAL, events);
         && key in s.rows && 7 in s.tasks && s.rows[key].incarnation != s.tasks[7].madeFor
         && Apply(s, Report(7, late)).rows[key].fields != s.rows[key].fields
  {
    var e1, e2, e3, e4 := Create(key, 1, first), EnqueueWithoutIdentity(7, key), Delete(key), Create(key, 1, second);
    var events := [e1, e2, e3, e4];
    assert events[1..] == [e2, e3, e4] && [e2, e3, e4][1..] == [e3, e4] && [e3, e4][1..] == [e4] && [e4][1..] == [];
    var s1 := Apply(INITIAL, e1);
    var s2 := Apply(s1, e2);
    var s3 := Apply(s2, e3);
    var s4 := Apply(s3, e4);
    assert Legal(s4, []) && After(s4, []) == s4;
    assert Legal(s3, [e4]) && After(s3, [e4]) == s4;
    assert Legal(s2, [e3, e4]) && After(s2, [e3, e4]) == s4;
    assert Legal(s1, [e2, e3, e4]) && After(s1, [e2, e3, e4]) == s4;
    assert Legal(INITIAL, events) && After(INITIAL, events) == s4;
  }

}
