/**
The agent's side of reporting: a dictionary of results the controller has not
acknowledged, retransmitted before anything new is polled.
 */
module AgentClient {

  import opened Tasks
  import opened Protocol

  datatype Reply = Accepted | HttpError(code: nat) | NoConnection

  /** After these replies the report is dropped: it was recorded, or it never will be. */
  predicate Settles(reply: Reply) {
    || reply.Accepted?
    || (reply.HttpError? && 400 <= reply.code < 500 && reply.code !in {401, 403, 408, 429})
  }

  function Outcomes(batch: seq<nat>, outcome: nat -> Report): seq<Report> {
    seq(|batch|, i requires 0 <= i < |batch| => outcome(batch[i]))
  }

  class Client {
    var pending: map<nat, Report>
    /** History: what was put on the wire, and which tasks were executed here. */
    ghost var sent: seq<Report>
    ghost var executed: seq<nat>

    constructor ()
      ensures pending == map[] && sent == [] && executed == []
    {
      pending, sent, executed := map[], [], [];
    }

    /** Sends one stored report; only a settling reply removes it. */
    method SendReport(id: nat) returns (reply: Reply)
      requires id in pending
      modifies this`pending, this`sent
      ensures sent == old(sent) + [old(pending)[id]]
      ensures pending == if Settles(reply) then old(pending) - {id} else old(pending)
      ensures id in pending <==>
        || reply == NoConnection
        || (reply.HttpError? && (reply.code < 400 || reply.code > 499 || reply.code in {401, 403, 408, 429}))
    {
      reply := *;
      sent := sent + [pending[id]];
      if Settles(reply) {
        pending := pending - {id};
      }
    }

    method ReportTask(id: nat, report: Report) returns (reply: Reply)
      modifies this`pending, this`sent
      ensures sent == old(sent) + [report]
      ensures pending == if Settles(reply) then old(pending) - {id} else old(pending)[id := report]
      ensures id in pending <==>
        || reply == NoConnection
        || (reply.HttpError? && (reply.code < 400 || reply.code > 499 || reply.code in {401, 403, 408, 429}))
    {
      pending := pending[id := report];
      reply := SendReport(id);
    }

    /** Retransmits every report held at the start once, unchanged; nothing new is stored. */
    method RetryReports()
      modifies this`pending, this`sent
      ensures pending.Keys <= old(pending).Keys
      ensures forall id :: id in pending ==> pending[id] == old(pending)[id]
      ensures |sent| == |old(sent)| + |old(pending)| && old(sent) <= sent
      ensures forall i :: |old(sent)| <= i < |sent| ==> exists id :: id in old(pending) && sent[i] == old(pending)[id]
      ensures forall id :: id in old(pending) ==> old(pending)[id] in sent[|old(sent)|..]
    {
      var rest := pending.Keys;
      while rest != {}
        invariant rest <= old(pending).Keys
        invariant pending.Keys <= old(pending).Keys && rest <= pending.Keys
        invariant forall id :: id in pending ==> pending[id] == old(pending)[id]
        invariant |sent| == |old(sent)| + |old(pending).Keys| - |rest| && old(sent) <= sent
        invariant forall i :: |old(sent)| <= i < |sent| ==> exists id :: id in old(pending) && sent[i] == old(pending)[id]
        invariant forall id :: id in old(pending) && id !in rest ==> old(pending)[id] in sent[|old(sent)|..]
        decreases rest
      {
        var id :| id in rest;
        ghost var before := sent;
        var reply := SendReport(id);
        assert sent[|old(sent)|..] == before[|old(sent)|..] + [old(pending)[id]];
        rest := rest - {id};
      }
    }

    /** Executes each task of a batch once and reports it, whatever becomes of the reports. */
    method ExecuteBatch(batch: seq<nat>, outcome: nat -> Report)
      requires pending == map[]
      modifies this
      ensures |pending| <= |batch|
      ensures executed == old(executed) + batch
      ensures forall id :: id in pending ==> id in batch && pending[id] == outcome(id)
      ensures sent == old(sent) + Outcomes(batch, outcome)
    {
      var i := 0;
      while i < |batch|
        invariant 0 <= i <= |batch|
        invariant executed == old(executed) + batch[..i]
        invariant forall id :: id in pending ==> id in batch && pending[id] == outcome(id)
        invariant sent == old(sent) + Outcomes(batch[..i], outcome)
      {
        executed := executed + [batch[i]];
        var reply := ReportTask(batch[i], outcome(batch[i]));
        assert batch[..i + 1] == batch[..i] + [batch[i]];
        assert Outcomes(batch[..i + 1], outcome) == Outcomes(batch[..i], outcome) + [outcome(batch[i])];
        i := i + 1;
      }
      assert batch[..i] == batch;
      HeldWithin(pending.Keys, batch);
    }

    /**
    One cycle: retransmit, poll only when nothing is held back, execute and
    report. `batch` is what the controller would answer to the poll.
     */
    method RunOnce(batch: seq<nat>, outcome: nat -> Report) returns (polled: bool)
      requires |batch| <= POLL_BATCH_SIZE && |pending| <= POLL_BATCH_SIZE
      modifies this
      ensures |pending| <= POLL_BATCH_SIZE && old(sent) <= sent
      ensures forall id :: id in old(pending) ==> old(pending)[id] in sent[|old(sent)|..]
      ensures polled ==> executed == old(executed) + batch && |sent| == |old(sent)| + |old(pending)| + |batch|
      ensures polled ==> forall id :: id in pending ==> id in batch && pending[id] == outcome(id)
      ensures !polled ==> executed == old(executed) && |sent| == |old(sent)| + |old(pending)|
      ensures !polled ==> pending != map[] && forall id :: id in pending ==> id in old(pending) && pending[id] == old(pending)[id]
    {
      RetryReports();
      KeysBound(pending, old(pending));
      polled := pending == map[];
      if polled {
        ghost var retried := sent;
        ExecuteBatch(batch, outcome);
        assert sent[|old(sent)|..] == retried[|old(sent)|..] + Outcomes(batch, outcome);
      }
    }

  }

  lemma {:induction false} HeldWithin(ids: set<nat>, batch: seq<nat>)
    requires forall id :: id in ids ==> id in batch
    ensures |ids| <= |batch|
  {
    if batch != [] {
      var rest := ids - {batch[0]};
      HeldWithin(rest, batch[1..]);
      assert ids <= rest + {batch[0]};
      assert |ids| <= |rest| + 1;
    }
  }

  lemma KeysBound(a: map<nat, Report>, b: map<nat, Report>)
    requires a.Keys <= b.Keys
    ensures |a| <= |b|
  {
    assert b.Keys == a.Keys + (b.Keys - a.Keys);
    assert |a.Keys| == |a| && |b.Keys| == |b|;
  }

}
