/**
A poll rejects a row in two steps as well: it decides on what it has read, and writes the
failure later without looking at the status again. Rejections of rows that are still open
are events of the protocol; this module says what the others do.
 */
module Rejections {

  import opened Wrappers
  import opened Tasks
  import opened Protocol
  import opened ProtocolSafety
  import opened HandoutOrder

  /** The rejections that a poll has decided on and not yet written. */
  datatype Decision = Decision(poll: nat, id: nat)

  datatype Desk = Desk(sys: System, decided: set<Decision>)

  datatype Move =
    | Elsewhere(event: Event)
    | Decide(decision: Decision)
    | Write(decision: Decision, result: Result)

  const START := Desk(INITIAL, {})

  ghost predicate CanMove(d: Desk, m: Move) {
    match m
    case Elsewhere(e) => Enabled(d.sys, e) && !e.PollReject? && (e.PollRespond? ==> forall x :: x in d.decided ==> x.poll != e.poll)
    case Decide(x) =>
      && x.poll in d.sys.polls && HasStatus(d.sys.tasks, x.id, Pending) && d.sys.tasks[x.id].node == d.sys.polls[x.poll].node
      && PollVerdict(d.sys.tasks, x.id).Rejected?
    case Write(x, _) => x in d.decided && x.id in d.sys.tasks
  }

  ghost function Moved(d: Desk, m: Move): Desk
    requires CanMove(d, m)
  {
    match m
    case Elsewhere(e) => d.(sys := Apply(d.sys, e))
    case Decide(x) => d.(decided := d.decided + {x})
    case Write(x, result) => Desk(d.sys.(tasks := Finish(d.sys.tasks, x.id, Failed, result)), d.decided - {x})
  }

  ghost predicate CanRun(d: Desk, moves: seq<Move>)
    decreases |moves|
  {
    moves != [] ==> CanMove(d, moves[0]) && CanRun(Moved(d, moves[0]), moves[1..])
  }

  ghost function RunAll(d: Desk, moves: seq<Move>): Desk
    requires CanRun(d, moves)
    decreases |moves|
  {
    if moves == [] then d else RunAll(Moved(d, moves[0]), moves[1..])
  }

  // ------------------------------------------------------------ when the rows proceed

  /** The write finds its row still open, or changes nothing. */
  ghost predicate InTime(d: Desk, m: Move)
    requires CanMove(d, m)
  {
    m.Write? ==> !d.sys.tasks[m.decision.id].status.Terminal() || Moved(d, m).sys == d.sys
  }

  ghost predicate AllInTime(d: Desk, moves: seq<Move>)
    requires CanRun(d, moves)
    decreases |moves|
  {
    moves != [] ==> InTime(d, moves[0]) && AllInTime(Moved(d, moves[0]), moves[1..])
  }

  /** A move lets every row proceed exactly when it is not a rejection of a row that is already closed. */
  lemma ProceedsIffInTime(d: Desk, m: Move)
    requires CanMove(d, m)
    ensures Proceeds(d.sys.tasks, Moved(d, m).sys.tasks) <==> InTime(d, m)
  {
    match m
    case Elsewhere(e) => EventMovesTable(d.sys, e);
    case Decide(_) =>
    case Write(x, result) =>
      var t := d.sys.tasks;
      var u := Finish(t, x.id, Failed, result);
      if t[x.id].status.Terminal() && Proceeds(t, u) {
        assert RowProceeds(t[x.id], u[x.id]);
        assert u == t;
      }
  }

  // -------------------------------------------------------------------- whole runs

  /** What a poll has decided on is a row of its node, and the poll is still being served. */
  ghost predicate DecisionsOk(d: Desk) {
    forall x :: x in d.decided ==>
      x.poll in d.sys.polls && x.id in d.sys.tasks && d.sys.tasks[x.id].node == d.sys.polls[x.poll].node
  }

  lemma SessionStays(s: System, e: Event, p: nat)
    requires Enabled(s, e) && p in s.polls && p != s.nextPoll && !(e.PollRespond? && e.poll == p)
    ensures p in Apply(s, e).polls && Apply(s, e).polls[p].node == s.polls[p].node
  {
  }

  lemma ElsewhereOk(d: Desk, e: Event)
    requires Reachable(d.sys) && DecisionsOk(d) && CanMove(d, Elsewhere(e))
    ensures Reachable(Apply(d.sys, e)) && DecisionsOk(Moved(d, Elsewhere(e)))
  {
    SingleEvent(d.sys, e);
    ReachableAfter(d.sys, [e]);
    ReachableInv(d.sys);
    EventMovesTable(d.sys, e);
    var s' := Apply(d.sys, e);
    forall x | x in d.decided
      ensures x.poll in s'.polls && x.id in s'.tasks && s'.tasks[x.id].node == s'.polls[x.poll].node
    {
      assert SessionOk(d.sys, x.poll, d.sys.polls[x.poll]);
      SessionStays(d.sys, e, x.poll);
      assert RowProceeds(d.sys.tasks[x.id], s'.tasks[x.id]);
    }
  }

  /** A rejection in time is an event of the protocol. */
  lemma WriteOk(d: Desk, x: Decision, result: Result)
    requires Reachable(d.sys) && DecisionsOk(d) && CanMove(d, Write(x, result)) && InTime(d, Write(x, result))
    ensures Reachable(Moved(d, Write(x, result)).sys) && DecisionsOk(Moved(d, Write(x, result)))
  {
    if !d.sys.tasks[x.id].status.Terminal() {
      var e := PollReject(x.poll, x.id, result);
      SingleEvent(d.sys, e);
      ReachableAfter(d.sys, [e]);
    }
  }

  /** As long as every rejection is written in time, the system stays a reachable state of the protocol, and all its theorems hold. */
  lemma {:induction false} InTimeRunsAreRuns(d: Desk, moves: seq<Move>)
    requires Reachable(d.sys) && DecisionsOk(d) && CanRun(d, moves) && AllInTime(d, moves)
    ensures Reachable(RunAll(d, moves).sys)
    decreases |moves|
  {
    if moves != [] {
      match moves[0] {
        case Elsewhere(e) => ElsewhereOk(d, e);
        case Decide(x) =>
        case Write(x, result) => WriteOk(d, x, result);
      }
      InTimeRunsAreRuns(Moved(d, moves[0]), moves[1..]);
    }
  }

  /**
  A rejection that comes too late: a row with a missing dependency is cancelled after the poll
  has decided to reject it, and the cancelled row becomes a failed one.
   */
  lemma LateRejection(node: nat, kind: Kind, id: nat, d: nat, reason: Result, result: Result)
    requires d > 0 && id != d
    ensures var row, x := FreshRow(node, kind, Depending(d)), Decision(0, id);
      var before := [Elsewhere(Insert(id, row)), Elsewhere(PollOpen(node)), Decide(x), Elsewhere(Cancel(id, reason))];
      && CanRun(START, before) && HasStatus(RunAll(START, before).sys.tasks, id, Cancelled)
      && CanMove(RunAll(START, before), Write(x, result))
      && HasStatus(Moved(RunAll(START, before), Write(x, result)).sys.tasks, id, Failed)
  {
    var row, x := FreshRow(node, kind, Depending(d)), Decision(0, id);
    var m1, m2, m3, m4 := Elsewhere(Insert(id, row)), Elsewhere(PollOpen(node)), Decide(x), Elsewhere(Cancel(id, reason));
    var d1 := Moved(START, m1);
    assert d1.sys == INITIAL.(tasks := map[id := row]);
    var d2 := Moved(d1, m2);
    assert d2.sys.tasks == map[id := row] && d2.sys.polls == map[0 := PollSession(node, None, [])];
    assert PollVerdict(d2.sys.tasks, id).Rejected?;
    var d3 := Moved(d2, m3);
    var d4 := Moved(d3, m4);
    assert [m1, m2, m3, m4][1..] == [m2, m3, m4] && [m2, m3, m4][1..] == [m3, m4] && [m3, m4][1..] == [m4] && [m4][1..] == [];
    assert CanRun(d4, []) && RunAll(d4, []) == d4;
    assert CanRun(d3, [m4]) && RunAll(d3, [m4]) == d4;
    assert CanRun(d2, [m3, m4]) && RunAll(d2, [m3, m4]) == d4;
    assert CanRun(d1, [m2, m3, m4]) && RunAll(d1, [m2, m3, m4]) == d4;
  }

}
