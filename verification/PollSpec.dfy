/**
What one poll of a node does to the task table and what it hands out, written
over the columns of the table without the handler's loops.
 */
module PollSpec {

  import opened Wrappers
  import opened Tasks
  import opened Protocol

  predicate PendingOn(t: Table, id: nat, node: nat) {
    id in t && t[id].status.Pending? && t[id].node == node
  }

  /** The order of rows: a control row before a query row, then the lower priority number, then the lower id. */
  predicate Precedes(t: Table, i: nat, j: nat) {
    && i in t && j in t
    && (|| (t[i].queue.Control? && t[j].queue.Query?)
        || (t[i].queue == t[j].queue && t[i].priority < t[j].priority)
        || (t[i].queue == t[j].queue && t[i].priority == t[j].priority && i < j))
  }

  /** The pending rows of a node that come before row `id`. */
  function Ahead(t: Table, node: nat, id: nat): set<nat>
    requires id in t
  {
    set x | x in t && PendingOn(t, x, node) && Precedes(t, x, id)
  }

  /** The row is one of the first fifty pending rows of the node. */
  predicate InWindow(t: Table, node: nat, id: nat) {
    PendingOn(t, id, node) && |Ahead(t, node, id)| < 50
  }

  /** The table after the sweeps that open a poll: running rows of the node without a report for two hours and pending ones past their deadline fail. */
  function Swept(t: Table, node: nat, now: int): Table {
    map id | id in t ::
      var row := t[id];
      if row.node == node && row.status.Running? && row.startedAt.Some? && row.startedAt.value + 7200 < now then
        row.(status := Failed, result := Some(Result("", "agent task timed out")))
      else if row.node == node && row.status.Pending? && row.deadline.Some? && row.deadline.value <= now then
        row.(status := Failed,
             result := Some(Result(if row.queue.Query? then "query_timeout" else "task_timeout",
                                   "task deadline expired before agent polling")))
      else row
  }

  // -------------------------------------------------------------- one row served

  /** Why a poll rejects a row. */
  function Rejection(t: Table, id: nat): Result
    requires id in t
  {
    if t[id].payload.NotAnObject? then Result("", "agent task payload must be an object")
    else if Readiness(t, id).Rejected? then Result("", "dependency failed")
    else Result("", "agent task payload exceeds response size limit")
  }

  /** What the poll sees of the dependency of row `id`: the outcome of this very poll if the dependency is ahead, else the table it started from. */
  function Seen(t: Table, u: Table, node: nat, id: nat): Table
    requires id in t
  {
    var d := DependencyId(t[id].payload);
    if d.Some? && d.value in Ahead(t, node, id) then u else t
  }

  /** What becomes of a row that a poll reaches. */
  ghost predicate RowServed(t: Table, u: Table, node: nat, id: nat, supported: Kind -> bool, now: int)
    requires id in t && id in u
  {
    var seen := Seen(t, u, node, id);
    if !supported(t[id].kind) || PollVerdict(seen, id).Waiting? then u[id] == t[id]
    else if PollVerdict(seen, id).Ready? then u[id] == t[id].(status := Running, startedAt := Some(now))
    else u[id] == t[id].(status := Failed, result := Some(Rejection(seen, id)))
  }

  /** What considering one pending row, against the table as it is by then, does to the table. */
  ghost predicate Considered(t: Table, u: Table, id: nat, supported: bool, now: int)
    requires id in t
  {
    if !supported || PollVerdict(t, id).Waiting? then u == t
    else if PollVerdict(t, id).Rejected? then u == Finish(t, id, Failed, Rejection(t, id))
    else u == t[id := t[id].(status := Running, startedAt := Some(now))]
  }

  lemma ConsideredEvolves(t: Table, u: Table, id: nat, supported: bool, now: int)
    requires id in t && t[id].status.Pending? && Considered(t, u, id, supported, now)
    ensures Evolves(t, u) && OnlySettles(t, u) && u == t[id := u[id]]
  {
  }

  lemma {:induction false} RootFrame(t: Table, u: Table, node: nat, id: nat, hops: nat)
    requires OnlySettles(t, u)
    ensures ReachesRoot(t, node, id, hops) == ReachesRoot(u, node, id, hops)
    decreases hops
  {
    if hops > 0 && id in t && DependencyId(t[id].payload).Some? {
      RootFrame(t, u, node, DependencyId(t[id].payload).value, hops - 1);
    }
  }

  /** While rows are only claimed and closed, the verdict on a row depends on the status of its own dependency alone. */
  lemma VerdictFrame(t: Table, u: Table, id: nat)
    requires OnlySettles(t, u) && id in t
    requires var d := DependencyId(t[id].payload); d.Some? && d.value in t ==> u[d.value].status == t[d.value].status
    ensures PollVerdict(u, id) == PollVerdict(t, id) && Rejection(u, id) == Rejection(t, id)
  {
    var d := DependencyId(t[id].payload);
    if d.Some? {
      RootFrame(t, u, t[id].node, d.value, MAX_DEPENDENCY_DEPTH - 1);
    }
  }

  /** A row that does not wait at first does not wait when the poll reaches it. */
  lemma SeenNotWaiting(t: Table, u: Table, node: nat, id: nat)
    requires OnlySettles(t, u) && id in t && !PollVerdict(t, id).Waiting?
    ensures !PollVerdict(Seen(t, u, node, id), id).Waiting?
  {
    var d := DependencyId(t[id].payload);
    if d.Some? && d.value in Ahead(t, node, id) {
      RootFrame(t, u, t[id].node, d.value, MAX_DEPENDENCY_DEPTH - 1);
    }
  }

  /** A later row does not change what became of an earlier one. */
  lemma ServedStays(t: Table, u: Table, v: Table, node: nat, id: nat, next: nat, supported: Kind -> bool, now: int)
    requires OnlySettles(t, u) && OnlySettles(u, v) && id in t && next in t && Precedes(t, id, next)
    requires v == u[next := v[next]] && RowServed(t, u, node, id, supported, now)
    ensures RowServed(t, v, node, id, supported, now)
  {
    var d := DependencyId(t[id].payload);
    if d.Some? && d.value in Ahead(t, node, id) {
      assert d.value != next;
      VerdictFrame(u, v, id);
    }
  }

  /** What the handler does with the next row is what the specification says of it. */
  lemma ServedNext(t: Table, u: Table, v: Table, seen: seq<nat>, node: nat, next: nat, supported: Kind -> bool, now: int)
    requires OnlySettles(t, u) && OnlySettles(u, v) && next in t && t[next] == u[next]
    requires forall x :: x in t ==> (x in Ahead(t, node, next) <==> x in seen)
    requires forall x :: x in t && x !in seen ==> u[x] == t[x]
    requires Considered(u, v, next, supported(u[next].kind), now)
    ensures RowServed(t, v, node, next, supported, now)
  {
    var d := DependencyId(t[next].payload);
    if d.Some? && d.value in Ahead(t, node, next) {
      assert d.value != next;
      VerdictFrame(u, v, next);
    } else {
      VerdictFrame(t, u, next);
    }
  }

  // ------------------------------------------------------------------ the window

  /** The pending rows of a node in order, cut off at fifty. */
  ghost predicate IsScan(t: Table, node: nat, ids: seq<nat>) {
    && |ids| <= 50
    && (forall id :: id in ids ==> PendingOn(t, id, node))
    && (forall i, j :: 0 <= i < j < |ids| ==> Precedes(t, ids[i], ids[j]))
    && (forall id :: PendingOn(t, id, node) && id !in ids ==>
          |ids| == 50 && forall x :: x in ids ==> Precedes(t, x, id))
  }

  function Elements(ids: seq<nat>): set<nat> {
    set id | id in ids
  }

  lemma {:induction false} DistinctCount(ids: seq<nat>)
    requires forall i, j :: 0 <= i < j < |ids| ==> ids[i] != ids[j]
    ensures |Elements(ids)| == |ids|
  {
    if ids != [] {
      var front, last := ids[..|ids| - 1], ids[|ids| - 1];
      DistinctCount(front);
      assert Elements(ids) == Elements(front) + {last};
    }
  }

  lemma ScanCount(t: Table, node: nat, scan: seq<nat>, k: nat)
    requires IsScan(t, node, scan) && k <= |scan|
    ensures |Elements(scan[..k])| == k
  {
    forall i, j | 0 <= i < j < k ensures scan[i] != scan[j] {
      assert Precedes(t, scan[i], scan[j]);
    }
    DistinctCount(scan[..k]);
  }

  lemma NotAhead(t: Table, node: nat, scan: seq<nat>, j: nat, k: nat)
    requires IsScan(t, node, scan) && j < |scan| && k < |scan| && Precedes(t, scan[j], scan[k])
    ensures j < k
  {
    forall a, b | 0 <= a < b < |scan| ensures !Precedes(t, scan[b], scan[a]) {
      assert Precedes(t, scan[a], scan[b]);
    }
  }

  /** The rows ahead of a row of the scan are those that the scan lists before it. */
  lemma AheadInScan(t: Table, node: nat, scan: seq<nat>, k: nat)
    requires IsScan(t, node, scan) && k < |scan|
    ensures scan[k] in t && Ahead(t, node, scan[k]) == Elements(scan[..k])
  {
    assert scan[k] in scan;
    forall x | x in Ahead(t, node, scan[k]) ensures x in scan[..k] {
      assert PendingOn(t, x, node) && Precedes(t, x, scan[k]) && x in scan;
      var j :| 0 <= j < |scan| && scan[j] == x;
      NotAhead(t, node, scan, j, k);
    }
    forall x | x in scan[..k] ensures x in Ahead(t, node, scan[k]) {
      assert x in scan;
    }
  }

  /** The scan lists exactly the first fifty pending rows. */
  lemma ScanIsWindow(t: Table, node: nat, scan: seq<nat>, id: nat)
    requires IsScan(t, node, scan)
    ensures id in scan <==> InWindow(t, node, id)
  {
    if id in scan {
      var k :| 0 <= k < |scan| && scan[k] == id;
      AheadInScan(t, node, scan, k);
      ScanCount(t, node, scan, k);
    } else if PendingOn(t, id, node) {
      assert scan[..|scan|] == scan;
      ScanCount(t, node, scan, |scan|);
      assert Elements(scan) <= Ahead(t, node, id);
      SubsetSize(Elements(scan), Ahead(t, node, id));
    }
  }

  // ---------------------------------------------------------------- a whole poll

  function HandedIds(handed: seq<Handout>): set<nat> {
    set h | h in handed :: h.task
  }

  /** Every handout is a row as the table has it, and they come in order. */
  ghost predicate HandoutsFit(t: Table, p: nat, node: nat, handed: seq<Handout>) {
    && (forall h :: h in handed ==> h.task in t && h == Handout(p, node, h.task, t[h.task].kind, t[h.task].payload, t[h.task].payload))
    && (forall i, j :: 0 <= i < j < |handed| ==> Precedes(t, handed[i].task, handed[j].task))
  }

  /** A poll that has gone through the rows of `seen`, in this order. */
  ghost predicate Served(t: Table, u: Table, seen: seq<nat>, node: nat, supported: Kind -> bool, now: int, p: nat, handed: seq<Handout>) {
    && OnlySettles(t, u) && HandoutsFit(t, p, node, handed)
    && AllServed(t, u, seen, node, supported, now)
    && (forall id :: id in t && id !in seen ==> u[id] == t[id])
    && HandedRun(u, seen, handed)
  }

  ghost predicate AllServed(t: Table, u: Table, seen: seq<nat>, node: nat, supported: Kind -> bool, now: int)
    requires u.Keys == t.Keys
  {
    forall id :: id in seen ==> PendingOn(t, id, node) && RowServed(t, u, node, id, supported, now)
  }

  /** Of the rows gone through, those that run are the ones handed out. */
  ghost predicate HandedRun(u: Table, seen: seq<nat>, handed: seq<Handout>) {
    forall id :: id in HandedIds(handed) <==> id in seen && id in u && u[id].status.Running?
  }

  /** The handout of a row that was claimed. */
  function HandedRow(t: Table, p: nat, node: nat, id: nat): seq<Handout>
    requires id in t
  {
    if t[id].status.Running? then [Handout(p, node, id, t[id].kind, t[id].payload, t[id].payload)] else []
  }

  /** The next row of the scan is served, and the earlier ones stay as they are. */
  lemma RowsServedOneMore(t: Table, u: Table, v: Table, scan: seq<nat>, i: nat, node: nat, supported: Kind -> bool, now: int, p: nat, handed: seq<Handout>)
    requires IsScan(t, node, scan) && i < |scan| && Served(t, u, scan[..i], node, supported, now, p, handed)
    requires PendingOn(t, scan[i], node) && u[scan[i]] == t[scan[i]] && OnlySettles(u, v)
    requires Considered(u, v, scan[i], supported(t[scan[i]].kind), now)
    ensures AllServed(t, v, scan[..i + 1], node, supported, now)
  {
    var next := scan[i];
    AheadInScan(t, node, scan, i);
    ServedNext(t, u, v, scan[..i], node, next, supported, now);
    forall id | id in scan[..i] ensures PendingOn(t, id, node) && RowServed(t, v, node, id, supported, now) {
      assert id in Elements(scan[..i]);
      ServedStays(t, u, v, node, id, next, supported, now);
    }
    assert scan[..i + 1] == scan[..i] + [next];
  }

  lemma ServedOneMore(t: Table, u: Table, v: Table, scan: seq<nat>, i: nat, node: nat, supported: Kind -> bool, now: int, p: nat, handed: seq<Handout>)
    requires IsScan(t, node, scan) && i < |scan| && Served(t, u, scan[..i], node, supported, now, p, handed)
    requires PendingOn(t, scan[i], node) && u[scan[i]] == t[scan[i]] && OnlySettles(u, v)
    requires Considered(u, v, scan[i], supported(t[scan[i]].kind), now)
    ensures Served(t, v, scan[..i + 1], node, supported, now, p, handed + HandedRow(v, p, node, scan[i]))
  {
    RowsServedOneMore(t, u, v, scan, i, node, supported, now, p, handed);
    HandedOneMore(t, u, v, scan, i, node, p, handed);
    OnlySettlesTransitive(t, u, v);
    OthersKept(t, u, v, scan, i);
  }

  lemma OthersKept(t: Table, u: Table, v: Table, scan: seq<nat>, i: nat)
    requires i < |scan| && u.Keys == t.Keys && v.Keys == u.Keys && scan[i] in v && v == u[scan[i] := v[scan[i]]]
    requires forall id :: id in t && id !in scan[..i] ==> u[id] == t[id]
    ensures forall id :: id in t && id !in scan[..i + 1] ==> v[id] == t[id]
  {
    assert scan[..i + 1] == scan[..i] + [scan[i]];
  }

  lemma HandedOneMore(t: Table, u: Table, v: Table, scan: seq<nat>, i: nat, node: nat, p: nat, handed: seq<Handout>)
    requires IsScan(t, node, scan) && i < |scan| && HandedRun(u, scan[..i], handed) && HandoutsFit(t, p, node, handed)
    requires OnlySettles(t, u) && OnlySettles(u, v) && scan[i] in u && v == u[scan[i] := v[scan[i]]]
    ensures HandedRun(v, scan[..i + 1], handed + HandedRow(v, p, node, scan[i]))
    ensures HandoutsFit(t, p, node, handed + HandedRow(v, p, node, scan[i]))
  {
    AheadInScan(t, node, scan, i);
    var more := HandedRow(v, p, node, scan[i]);
    assert HandedIds(handed + more) == HandedIds(handed) + HandedIds(more);
    assert scan[..i + 1] == scan[..i] + [scan[i]];
    forall id | id in HandedIds(handed) ensures Precedes(t, id, scan[i]) {
      assert id in Elements(scan[..i]);
    }
    HandoutsGrow(t, p, node, handed, more, scan[i]);
    assert scan[i] !in scan[..i] by {
      assert scan[i] !in Elements(scan[..i]);
    }
  }

  lemma HandoutsGrow(t: Table, p: nat, node: nat, handed: seq<Handout>, more: seq<Handout>, next: nat)
    requires HandoutsFit(t, p, node, handed) && next in t
    requires forall id :: id in HandedIds(handed) ==> Precedes(t, id, next)
    requires more == [] || more == [Handout(p, node, next, t[next].kind, t[next].payload, t[next].payload)]
    ensures HandoutsFit(t, p, node, handed + more)
  {
    assert forall h :: h in handed ==> h.task in HandedIds(handed);
  }

  /** The rows a poll reaches: the first fifty, or those up to the fifth it hands out. */
  predicate Reached(t: Table, node: nat, handed: seq<Handout>, id: nat)
    requires forall h :: h in handed ==> h.task in t
  {
    InWindow(t, node, id) && (|handed| >= 5 ==> id == handed[4].task || Precedes(t, id, handed[4].task))
  }

  /**
  A poll that started from table `t` of a node and ended in `u`: exactly the rows
  reached are served, all other rows are left alone, and the handouts are the rows
  served that now run, in order.
   */
  ghost predicate PollDoes(t: Table, u: Table, node: nat, supported: Kind -> bool, now: int, p: nat, handed: seq<Handout>) {
    && |handed| <= 5 && OnlySettles(t, u) && HandoutsFit(t, p, node, handed)
    && (forall id :: id in t ==>
          if Reached(t, node, handed, id) then RowServed(t, u, node, id, supported, now) else u[id] == t[id])
    && (forall id :: id in HandedIds(handed) <==> id in t && Reached(t, node, handed, id) && u[id].status.Running?)
  }

  lemma ReachedInScan(t: Table, scan: seq<nat>, i: nat, node: nat, handed: seq<Handout>, id: nat)
    requires IsScan(t, node, scan) && i <= |scan| && forall h :: h in handed ==> h.task in t
    requires |handed| <= 5 && (|handed| == 5 ==> i > 0 && handed[4].task == scan[i - 1])
    requires |handed| < 5 ==> i == |scan|
    ensures id in scan[..i] <==> Reached(t, node, handed, id)
  {
    ScanIsWindow(t, node, scan, id);
    if |handed| == 5 {
      AheadInScan(t, node, scan, i - 1);
      assert scan[..i] == scan[..i - 1] + [scan[i - 1]];
      assert id in Elements(scan[..i - 1]) <==> id in scan[..i - 1];
      assert id in scan[..i] ==> id in scan;
    } else {
      assert scan[..i] == scan;
    }
  }

  /** The end of the loop: the scan is used up, or the last row looked at was the fifth handed out. */
  lemma ServedIsPoll(t: Table, u: Table, scan: seq<nat>, i: nat, node: nat, supported: Kind -> bool, now: int, p: nat, handed: seq<Handout>)
    requires IsScan(t, node, scan) && i <= |scan| && Served(t, u, scan[..i], node, supported, now, p, handed)
    requires |handed| <= 5 && (|handed| == 5 ==> i > 0 && handed[4].task == scan[i - 1])
    requires |handed| < 5 ==> i == |scan|
    ensures PollDoes(t, u, node, supported, now, p, handed)
  {
    forall id | id in t ensures id in scan[..i] <==> Reached(t, node, handed, id) {
      ReachedInScan(t, scan, i, node, handed, id);
    }
  }

  /** The row may be handed out: it is among the first fifty, its agent supports it, and it is ready. */
  predicate Due(t: Table, node: nat, supported: Kind -> bool, id: nat) {
    InWindow(t, node, id) && supported(t[id].kind) && PollVerdict(t, id).Ready?
  }

  /** A row due is reached only to be handed out. */
  lemma DueIsHanded(t: Table, u: Table, node: nat, supported: Kind -> bool, now: int, p: nat, handed: seq<Handout>, id: nat)
    requires PollDoes(t, u, node, supported, now, p, handed) && Due(t, node, supported, id) && Reached(t, node, handed, id)
    ensures id in HandedIds(handed)
  {
    var d := DependencyId(t[id].payload);
    assert d.Some? ==> !PendingOn(t, d.value, node);
    assert RowServed(t, u, node, id, supported, now);
  }

  /** A row due is handed out, or five rows in front of it are. */
  lemma DueRowsAreHanded(t: Table, u: Table, node: nat, supported: Kind -> bool, now: int, p: nat, handed: seq<Handout>)
    requires PollDoes(t, u, node, supported, now, p, handed)
    ensures forall id :: Due(t, node, supported, id) && id !in HandedIds(handed) ==>
      |handed| == 5 && forall h :: h in handed ==> Precedes(t, h.task, id)
  {
    forall id | Due(t, node, supported, id) && id !in HandedIds(handed)
      ensures |handed| == 5 && forall h :: h in handed ==> Precedes(t, h.task, id)
    {
      if Reached(t, node, handed, id) {
        DueIsHanded(t, u, node, supported, now, p, handed, id);
      }
      forall h | h in handed ensures Precedes(t, h.task, id) {
        var k :| 0 <= k < |handed| && handed[k] == h;
        assert k < 4 ==> Precedes(t, handed[k].task, handed[4].task);
      }
    }
  }

}
