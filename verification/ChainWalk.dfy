/**
The bounded walk along a dependency chain, with its cursor and its set of ids
already seen, and the readiness check built on it.
 */
module ChainWalk {

  import opened Tasks

  datatype Walk = Clear | MissingLink | CrossNode | Cycle | TooDeep

  /** Every id seen so far leads to the cursor in one hop or more. */
  ghost predicate AllLeadTo(t: Table, seen: set<nat>, cursor: nat) {
    forall y :: y in seen ==> exists m: nat :: m > 0 && Leads(t, y, cursor, m)
  }

  lemma AllLeadToNext(t: Table, seen: set<nat>, cursor: nat)
    requires AllLeadTo(t, seen, cursor)
    requires cursor in t && DependencyId(t[cursor].payload).Some?
    ensures AllLeadTo(t, seen + {cursor}, DependencyId(t[cursor].payload).value)
  {
    var next := DependencyId(t[cursor].payload).value;
    forall y | y in seen + {cursor}
      ensures exists m: nat :: m > 0 && Leads(t, y, next, m)
    {
      if y in seen {
        var m: nat :| m > 0 && Leads(t, y, cursor, m);
        LeadsExtends(t, y, cursor, m);
        assert Leads(t, y, next, m + 1);
      } else {
        assert Leads(t, cursor, next, 1);
      }
    }
  }

  /**
  Walks the dependencies of row `id`. It is clear exactly when a root is reached
  within the depth limit on existing rows of the same node; a reported cycle is
  one that no deeper walk would survive, and a reported gap is on the chain.
   */
  method WalkChain(t: Table, id: nat) returns (w: Walk)
    requires id in t && DependencyId(t[id].payload).Some?
    ensures w.Clear? <==> ReachesRoot(t, t[id].node, DependencyId(t[id].payload).value, MAX_DEPENDENCY_DEPTH - 1)
    ensures w.Cycle? ==> forall k: nat :: !ReachesRoot(t, t[id].node, DependencyId(t[id].payload).value, k)
    ensures w.MissingLink? ==> exists x: nat, k: nat :: Leads(t, id, x, k) && x !in t
    ensures w.CrossNode? ==> exists x: nat, k: nat :: Leads(t, id, x, k) && x in t && t[x].node != t[id].node
  {
    var node := t[id].node;
    var first := DependencyId(t[id].payload).value;
    assert Leads(t, id, first, 1);
    if first !in t {
      return MissingLink;
    }
    if t[first].node != node {
      return CrossNode;
    }
    var seen, cursor := {id}, first;
    ghost var hops: nat := 1;
    var i := 0;
    while i < MAX_DEPENDENCY_DEPTH
      invariant 0 <= i <= MAX_DEPENDENCY_DEPTH
      invariant cursor in t && t[cursor].node == node
      invariant Leads(t, id, cursor, hops)
      invariant AllLeadTo(t, seen, cursor)
      invariant i < MAX_DEPENDENCY_DEPTH ==>
                  (ReachesRoot(t, node, first, MAX_DEPENDENCY_DEPTH - 1)
                   <==> ReachesRoot(t, node, cursor, MAX_DEPENDENCY_DEPTH - 1 - i))
      invariant i == MAX_DEPENDENCY_DEPTH ==> !ReachesRoot(t, node, first, MAX_DEPENDENCY_DEPTH - 1)
      invariant forall k: nat :: ReachesRoot(t, node, first, k) ==> k >= i && ReachesRoot(t, node, cursor, k - i)
    {
      if cursor in seen {
        var m: nat :| m > 0 && Leads(t, cursor, cursor, m);
        forall k: nat {
          CycleHasNoRoot(t, node, cursor, m, k);
        }
        return Cycle;
      }
      var next := DependencyId(t[cursor].payload);
      if next.None? {
        return Clear;
      }
      AllLeadToNext(t, seen, cursor);
      LeadsExtends(t, id, cursor, hops);
      seen := seen + {cursor};
      hops := hops + 1;
      if next.value !in t {
        return MissingLink;
      }
      if t[next.value].node != node {
        return CrossNode;
      }
      cursor := next.value;
      i := i + 1;
    }
    return TooDeep;
  }

  /** The readiness check of one pending row, with the walk it performs. */
  method CheckReadiness(t: Table, id: nat) returns (v: Verdict)
    requires id in t
    ensures v == Readiness(t, id)
  {
    var row := t[id];
    var d := DependencyId(row.payload);
    if d.None? {
      return Ready;
    }
    var w := WalkChain(t, id);
    if !w.Clear? {
      return Rejected;
    }
    var status := t[d.value].status;
    if status.Succeeded? || (ContinuesAfterFailure(row.kind, row.payload) && (status.Failed? || status.Cancelled?)) {
      return Ready;
    }
    if status.Failed? || status.Cancelled? {
      return Rejected;
    }
    return Waiting;
  }

  /** Some row on the chain of `id` is missing, is on another node, or is more than `hops` away. */
  ghost predicate ChainBroken(t: Table, node: nat, id: nat, hops: nat) {
    exists x: nat, k: nat :: Leads(t, id, x, k) && (x !in t || t[x].node != node || k > hops)
  }

  /** Every row on a chain that reaches a root exists, is on the node, and is within the bound. */
  lemma {:induction false} RootedChainIsSound(t: Table, node: nat, id: nat, hops: nat, x: nat, k: nat)
    requires ReachesRoot(t, node, id, hops) && Leads(t, id, x, k)
    ensures x in t && t[x].node == node && k <= hops
    decreases k
  {
    if k > 0 {
      RootedChainIsSound(t, node, DependencyId(t[id].payload).value, hops - 1, x, k - 1);
    }
  }

  lemma {:induction false} RootlessChainIsBroken(t: Table, node: nat, id: nat, hops: nat) returns (x: nat, k: nat)
    requires !ReachesRoot(t, node, id, hops)
    ensures Leads(t, id, x, k) && (x !in t || t[x].node != node || k > hops)
    decreases hops
  {
    if id !in t || t[id].node != node {
      return id, 0;
    }
    var next := DependencyId(t[id].payload).value;
    if hops == 0 {
      return next, 1;
    }
    x, k := RootlessChainIsBroken(t, node, next, hops - 1);
    k := k + 1;
  }

  /** A root within the bound is the same as an unbroken chain. */
  lemma RootIffUnbroken(t: Table, node: nat, id: nat, hops: nat)
    ensures ReachesRoot(t, node, id, hops) <==> !ChainBroken(t, node, id, hops)
  {
    if ReachesRoot(t, node, id, hops) {
      forall x: nat, k: nat | Leads(t, id, x, k)
        ensures x in t && t[x].node == node && k <= hops
      {
        RootedChainIsSound(t, node, id, hops, x, k);
      }
    } else {
      var x, k := RootlessChainIsBroken(t, node, id, hops);
    }
  }

  /**
  A cycle, a missing link, a link to another node and more than the allowed
  number of dependencies all reject the row; none of them leaves it waiting.
   */
  lemma BrokenChainRejects(t: Table, id: nat)
    requires id in t
    requires ChainBroken(t, t[id].node, id, MAX_DEPENDENCY_DEPTH) || exists k: nat :: k > 0 && Leads(t, id, id, k)
    ensures Readiness(t, id).Rejected?
  {
    var node := t[id].node;
    if ReachesRoot(t, node, id, MAX_DEPENDENCY_DEPTH) {
      RootIffUnbroken(t, node, id, MAX_DEPENDENCY_DEPTH);
      var k: nat :| k > 0 && Leads(t, id, id, k);
      CycleHasNoRoot(t, node, id, k, MAX_DEPENDENCY_DEPTH);
    }
  }

  /** The dependency of a row with this kind and payload lets it go ahead: it succeeded, or failed and the row cleans up after failures. */
  predicate Permits(kind: Kind, p: Payload, dependency: Status) {
    || dependency == Succeeded
    || (&& (dependency == Failed || dependency == Cancelled)
        && kind in {WgStop, GreStop, Udp2rawDelete, MimicDelete} && p.Fields? && p.continueAfterFailure)
  }

  /**
  When a poll may hand a row out, in terms of the payload and the chain behind it: the
  payload is an object of at most two mebibytes, and there is no dependency, or an unbroken
  chain of at most 64 of them whose first permits it. Without that the row waits exactly
  while the chain is unbroken and the first dependency is unfinished.
   */
  lemma VerdictMeans(t: Table, id: nat)
    requires id in t
    ensures var row, d := t[id], DependencyId(t[id].payload);
      && (PollVerdict(t, id).Ready? <==>
            && row.payload.Fields? && row.payload.bytes <= 2097152
            && (d.Some? ==> !ChainBroken(t, row.node, id, 64) && d.value in t && Permits(row.kind, row.payload, t[d.value].status)))
      && (PollVerdict(t, id).Waiting? <==>
            && row.payload.Fields? && d.Some? && !ChainBroken(t, row.node, id, 64)
            && d.value in t && (t[d.value].status == Pending || t[d.value].status == Running))
  {
    RootIffUnbroken(t, t[id].node, id, 64);
  }

}
