/**
Deduplication keys: which key an endpoint's row carries, and that no handler puts a
pending row under a key that is not its own.
 */
module Keys {

  import opened Wrappers
  import opened Text
  import opened Tasks
  import opened Protocol
  import opened ProtocolSafety

  predicate IsGre(kind: Kind) {
    kind.GreApply? || kind.GreStart? || kind.GreStop?
  }

  function KindName(kind: Kind): string {
    match kind
    case GreApply => "gre.apply_config"
    case GreStart => "gre.start_interface"
    case GreStop => "gre.stop_interface"
    case WgApply => "wireguard.apply_config"
    case WgStart => "wireguard.start_interface"
    case WgStop => "wireguard.stop_interface"
    case WgDelete => "wireguard.delete_config"
    case Udp2rawDelete => "middleware.udp2raw.delete"
    case MimicDelete => "middleware.mimic.delete"
    case Other(name) => name
  }

  function EndpointKey(endpoint: int, kind: Kind): string
    requires IsGre(kind)
  {
    "endpoint:" + (IntText(endpoint) + ":" + KindName(kind))
  }

  lemma SplitAtColon(a: string, b: string, c: string, d: string)
    requires a + ":" + b == c + ":" + d && ':' !in a && ':' !in c
    ensures a == c && b == d
  {
    var s, t := a + ":" + b, c + ":" + d;
    assert s[|a|] == ':' && t[|c|] == ':';
    assert s[..|a|] == a && t[..|c|] == c && s[|a| + 1..] == b && t[|c| + 1..] == d;
  }

  /** The key names one endpoint and one kind of task. */
  lemma EndpointKeyInjective(e: int, k: Kind, f: int, l: Kind)
    requires IsGre(k) && IsGre(l) && EndpointKey(e, k) == EndpointKey(f, l)
    ensures e == f && k == l
  {
    var s, t := IntText(e) + ":" + KindName(k), IntText(f) + ":" + KindName(l);
    assert EndpointKey(e, k)[|"endpoint:"|..] == s && EndpointKey(f, l)[|"endpoint:"|..] == t;
    IntTextIsPlain(e);
    IntTextIsPlain(f);
    SplitAtColon(IntText(e), KindName(k), IntText(f), KindName(l));
    IntTextParses(e);
    IntTextParses(f);
    assert |KindName(GreApply)| == 16 && |KindName(GreStart)| == 19 && |KindName(GreStop)| == 18;
  }

  predicate ForEndpoint(row: Task, endpoint: int, kind: Kind) {
    row.kind == kind && row.payload.Fields? && row.payload.subject == Some(endpoint)
  }

  function EndpointRows(t: Table, endpoint: int, kind: Kind, status: Status): set<nat> {
    set id | id in t && t[id].status == status && ForEndpoint(t[id], endpoint, kind)
  }

  /** A row carries an endpoint key exactly when it is that endpoint's task of that kind. */
  ghost predicate RowFits(row: Task) {
    forall e, k | IsGre(k) :: ForEndpoint(row, e, k) <==> row.dedup == Some(EndpointKey(e, k))
  }

  /** Keys are unique, and pending rows carry the endpoint keys they should. */
  ghost predicate KeysFit(t: Table) {
    UniqueKeys(t) && forall id :: id in t && t[id].status.Pending? ==> RowFits(t[id])
  }

  lemma OnePendingPerEndpoint(t: Table, endpoint: int, kind: Kind, i: nat, j: nat)
    requires KeysFit(t) && IsGre(kind)
    requires i in EndpointRows(t, endpoint, kind, Pending) && j in EndpointRows(t, endpoint, kind, Pending)
    ensures i == j
  {
    assert RowFits(t[i]) && RowFits(t[j]);
    assert ForEndpoint(t[i], endpoint, kind) && ForEndpoint(t[j], endpoint, kind);
    assert t[i].dedup == Some(EndpointKey(endpoint, kind)) == t[j].dedup;
  }

  // ----------------------------------------------------------- what keeps keys in place

  /** Claiming and closing rows keeps every key in place. */
  lemma SettlingKeepsKeys(t: Table, u: Table)
    requires KeysFit(t) && OnlySettles(t, u)
    ensures KeysFit(u)
  {
    forall id | id in u && u[id].status.Pending? ensures RowFits(u[id]) {
      assert RowFits(t[id]);
      forall e, k | IsGre(k) ensures ForEndpoint(u[id], e, k) <==> u[id].dedup == Some(EndpointKey(e, k)) {
        assert ForEndpoint(t[id], e, k) <==> t[id].dedup == Some(EndpointKey(e, k));
      }
    }
  }

  /** A payload for the same subject. */
  predicate SameSubject(row: Task, p: Payload) {
    IsGre(row.kind) ==> p.Fields? && row.payload.Fields? && p.subject == row.payload.subject
  }

  lemma RefreshKeepsFit(row: Task, p: Payload)
    requires RowFits(row) && SameSubject(row, p)
    ensures RowFits(row.(payload := p))
  {
    forall e, k | IsGre(k) ensures ForEndpoint(row.(payload := p), e, k) <==> row.dedup == Some(EndpointKey(e, k)) {
      assert ForEndpoint(row, e, k) <==> row.dedup == Some(EndpointKey(e, k));
    }
  }

  lemma RefreshKeepsKeys(t: Table, id: nat, p: Payload)
    requires KeysFit(t) && id in t && SameSubject(t[id], p)
    ensures KeysFit(t[id := t[id].(payload := p)])
  {
    if t[id].status.Pending? {
      RefreshKeepsFit(t[id], p);
    }
  }

  /** The index accepts the row, and the row carries the key it should. */
  lemma InsertKeepsKeys(t: Table, id: nat, row: Task)
    requires KeysFit(t) && id !in t && KeyIsFree(t, row.dedup) && RowFits(row)
    ensures KeysFit(t[id := row])
  {
  }

  /** What every handler respects: endpoint rows are inserted with their key and refreshed for the same endpoint. */
  ghost predicate Disciplined(s: System, e: Event) {
    && (e.Insert? ==> RowFits(e.row))
    && ((e.Refresh? || e.Overwrite?) && e.id in s.tasks ==> SameSubject(s.tasks[e.id], e.payload))
  }

  lemma OtherEventsSettle(s: System, e: Event)
    requires Enabled(s, e) && !e.Insert? && !e.Refresh? && !e.Overwrite?
    ensures OnlySettles(s.tasks, Apply(s, e).tasks)
  {
    if e.PollClaim? {
      ClaimSettles(s, e.poll);
    } else if e.Deliver? {
      RecordSettles(s, e.report, e.valid, e.demoted, e.stored);
    } else if !TableEvent(e) || e.Tick? {
      OtherEventsWriteNoRow(s, e);
    } else {
      ClosingSettles(s, e);
    }
  }

  lemma ClaimSettles(s: System, p: nat)
    requires p in s.polls && s.polls[p].ready.Some?
    ensures OnlySettles(s.tasks, Claim(s, p).tasks)
  {
  }

  lemma RecordSettles(s: System, r: Report, valid: bool, demoted: bool, stored: Result)
    ensures OnlySettles(s.tasks, Record(s, r, valid, demoted, stored).tasks)
  {
  }

  lemma ClosingSettles(s: System, e: Event)
    requires Enabled(s, e) && (e.Cancel? || e.ExpireRunning? || e.ExpirePending? || e.PollReject?)
    ensures OnlySettles(s.tasks, Apply(s, e).tasks)
  {
  }

  lemma EventKeepsKeys(s: System, e: Event)
    requires KeysFit(s.tasks) && Enabled(s, e) && Disciplined(s, e)
    ensures KeysFit(Apply(s, e).tasks)
  {
    if e.Insert? {
      InsertKeepsKeys(s.tasks, e.id, e.row);
    } else if e.Refresh? || e.Overwrite? {
      RefreshKeepsKeys(s.tasks, e.id, e.payload);
    } else {
      OtherEventsSettle(s, e);
      SettlingKeepsKeys(s.tasks, Apply(s, e).tasks);
    }
  }

}
