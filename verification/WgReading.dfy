/**
What the parser makes of any text, said without its loop: each field is given by
the assignments to its key, in any case, in the sections it belongs to, taken in order.
 */
module WgReading {

  import opened Wrappers
  import opened Text
  import opened Lists
  import opened WgQuick

  // ------------------------------------------------------------------ the entries

  /** Where a line stands: in a section the parser knows, of which peers are counted, or elsewhere. */
  datatype Place = Outside | OfInterface | OfPeer(index: nat)

  /** An assignment and the place where it stands. */
  datatype Entry = Entry(place: Place, assign: Assign)

  /** How many peer sections begin in these lines. */
  function PeerHeaders(lines: seq<string>): nat {
    if lines == [] then 0
    else PeerHeaders(lines[..|lines| - 1]) + (if Classify(lines[|lines| - 1]) == SectionHeader("peer") then 1 else 0)
  }

  /** The place that the last header among these lines has begun. */
  function PlaceAfter(lines: seq<string>): Place {
    if lines == [] then Outside
    else
      var front, kind := lines[..|lines| - 1], Classify(lines[|lines| - 1]);
      if !kind.SectionHeader? then PlaceAfter(front)
      else if kind.name == "interface" then OfInterface
      else if kind.name == "peer" then OfPeer(PeerHeaders(front))
      else Outside
  }

  function Entries(lines: seq<string>): seq<Entry> {
    if lines == [] then []
    else
      var front, kind := lines[..|lines| - 1], Classify(lines[|lines| - 1]);
      Entries(front) + (if kind.Assignment? then [Entry(PlaceAfter(front), kind.assign)] else [])
  }

  /** The entry is for this field, whatever the case of its key. */
  predicate IsFor(e: Entry, place: Place, key: string) {
    e.place == place && Lower(e.assign.key) == key
  }

  /** The values given to a field, in order. */
  function Values(entries: seq<Entry>, place: Place, key: string): seq<string> {
    if entries == [] then []
    else
      var front, last := entries[..|entries| - 1], entries[|entries| - 1];
      Values(front, place, key) + (if IsFor(last, place, key) then [last.assign.value] else [])
  }

  // ------------------------------------------------------------------- the fields

  function LastText(values: seq<string>): Option<string> {
    if values == [] then None else Some(values[|values| - 1])
  }

  function LastNumber(values: seq<string>): Option<int> {
    if values == [] then None else ParseInt(values[|values| - 1])
  }

  /** The items of all the comma-separated values. */
  function Items(values: seq<string>): seq<string> {
    if values == [] then [] else Items(values[..|values| - 1]) + SplitCsv(values[|values| - 1])
  }

  const INTERFACE_KEYS := {"privatekey", "address", "listenport", "dns", "mtu", "table", "fwmark", "preup", "postup", "predown", "postdown"}
  const PEER_KEYS := {"publickey", "presharedkey", "allowedips", "endpoint", "persistentkeepalive"}

  predicate IsUnknown(e: Entry, place: Place, known: set<string>) {
    e.place == place && Lower(e.assign.key) !in known
  }

  /** Unknown fields under the spelling they were given, the last value winning. */
  function Unknown(entries: seq<Entry>, place: Place, known: set<string>): map<string, string> {
    if entries == [] then map[]
    else
      var front, last := entries[..|entries| - 1], entries[|entries| - 1];
      if IsUnknown(last, place, known) then Unknown(front, place, known)[last.assign.key := last.assign.value]
      else Unknown(front, place, known)
  }

  /** The fields of an interface section, of which there may be several. */
  predicate ReadsInterface(e: seq<Entry>, p: Parsed) {
    && p.privateKey == LastText(Values(e, OfInterface, "privatekey"))
    && p.addresses == Items(Values(e, OfInterface, "address"))
    && p.listenPort == LastNumber(Values(e, OfInterface, "listenport"))
    && p.dns == Items(Values(e, OfInterface, "dns"))
    && p.mtu == LastNumber(Values(e, OfInterface, "mtu"))
    && p.table == LastText(Values(e, OfInterface, "table"))
    && p.fwmark == LastText(Values(e, OfInterface, "fwmark"))
    && p.preUp == Values(e, OfInterface, "preup")
    && p.postUp == Values(e, OfInterface, "postup")
    && p.preDown == Values(e, OfInterface, "predown")
    && p.postDown == Values(e, OfInterface, "postdown")
    && p.extras == Unknown(e, OfInterface, INTERFACE_KEYS)
  }

  /** The fields of the peer section with this number. */
  predicate ReadsPeer(e: seq<Entry>, k: nat, q: ParsedPeer) {
    && q.publicKey == LastText(Values(e, OfPeer(k), "publickey"))
    && q.presharedKey == LastText(Values(e, OfPeer(k), "presharedkey"))
    && q.allowedIps == Items(Values(e, OfPeer(k), "allowedips"))
    && q.endpoint == LastText(Values(e, OfPeer(k), "endpoint"))
    && q.keepalive == LastNumber(Values(e, OfPeer(k), "persistentkeepalive"))
    && q.extras == Unknown(e, OfPeer(k), PEER_KEYS)
  }

  // ------------------------------------------------------------------- one entry

  /** Which field a key stands for, in any case. */
  lemma FieldNames(key: string)
    ensures var f, k := InterfaceField(key), Lower(key);
      && (f.PrivateKey? <==> k == "privatekey") && (f.AddressField? <==> k == "address") && (f.ListenPort? <==> k == "listenport")
      && (f.Dns? <==> k == "dns") && (f.Mtu? <==> k == "mtu") && (f.TableName? <==> k == "table") && (f.FwMark? <==> k == "fwmark")
      && (f.PreUp? <==> k == "preup") && (f.PostUp? <==> k == "postup")
      && (f.PreDown? <==> k == "predown") && (f.PostDown? <==> k == "postdown")
  {
    InterfaceKeysApart();
  }

  /** What one assignment in an interface section does to each single field and list. */
  lemma InterfaceStep(p: Parsed, a: Assign, n: nat)
    ensures var q, k, v := ApplyInterface(p, a, n), Lower(a.key), a.value;
      && q.privateKey == (if k == "privatekey" then Some(v) else p.privateKey)
      && q.addresses == (if k == "address" then p.addresses + SplitCsv(v) else p.addresses)
      && q.listenPort == (if k == "listenport" then ParseInt(v) else p.listenPort)
      && q.dns == (if k == "dns" then p.dns + SplitCsv(v) else p.dns)
      && q.mtu == (if k == "mtu" then ParseInt(v) else p.mtu)
      && q.table == (if k == "table" then Some(v) else p.table)
      && q.fwmark == (if k == "fwmark" then Some(v) else p.fwmark)
      && q.name == p.name && q.peers == p.peers
  {
    FieldNames(a.key);
  }

  /** And to the hooks. */
  lemma HookStep(p: Parsed, a: Assign, n: nat)
    ensures var q, k, v := ApplyInterface(p, a, n), Lower(a.key), a.value;
      && q.preUp == (if k == "preup" then p.preUp + [v] else p.preUp)
      && q.postUp == (if k == "postup" then p.postUp + [v] else p.postUp)
      && q.preDown == (if k == "predown" then p.preDown + [v] else p.preDown)
      && q.postDown == (if k == "postdown" then p.postDown + [v] else p.postDown)
  {
    FieldNames(a.key);
  }

  lemma KnownField(key: string)
    ensures InterfaceField(key).UnknownField? <==> Lower(key) !in INTERFACE_KEYS
    ensures !InterfaceField(key).PublicKey? && !InterfaceField(key).PresharedKey? && !InterfaceField(key).AllowedIps?
    ensures !InterfaceField(key).EndpointField? && !InterfaceField(key).Keepalive?
  {
  }

  /** And to the unknown fields. */
  lemma UnknownStep(p: Parsed, a: Assign, n: nat)
    ensures ApplyInterface(p, a, n).extras == if Lower(a.key) !in INTERFACE_KEYS then p.extras[a.key := a.value] else p.extras
  {
    KnownField(a.key);
  }

  lemma InterfaceKeysApart()
    ensures "privatekey" != "listenport" && "dns" != "mtu" && "table" != "preup" && "fwmark" != "postup" && "address" != "predown"
  {
    assert "privatekey"[0] == 'p' && "listenport"[0] == 'l';
    assert "dns"[0] == 'd' && "mtu"[0] == 'm';
    assert "table"[0] == 't' && "preup"[0] == 'p';
    assert "fwmark"[0] == 'f' && "postup"[0] == 'p';
    assert "address"[0] == 'a' && "predown"[0] == 'p';
  }

  lemma PeerStep(p: ParsedPeer, a: Assign, n: nat)
    ensures var q, k, v := ApplyPeer(p, a, n), Lower(a.key), a.value;
      && q.publicKey == (if k == "publickey" then Some(v) else p.publicKey)
      && q.presharedKey == (if k == "presharedkey" then Some(v) else p.presharedKey)
      && q.allowedIps == (if k == "allowedips" then p.allowedIps + SplitCsv(v) else p.allowedIps)
      && q.endpoint == (if k == "endpoint" then Some(v) else p.endpoint)
      && q.keepalive == (if k == "persistentkeepalive" then ParseInt(v) else p.keepalive)
      && q.extras == (if k !in PEER_KEYS then p.extras[a.key := v] else p.extras)
  {
  }

  lemma ValuesMore(e: seq<Entry>, x: Entry, place: Place, key: string)
    ensures Values(e + [x], place, key) == Values(e, place, key) + (if IsFor(x, place, key) then [x.assign.value] else [])
  {
    assert (e + [x])[..|e|] == e;
  }

  /** One more entry overrides a single value, and adds to a list. */
  lemma FieldMore(e: seq<Entry>, x: Entry, place: Place, key: string)
    ensures LastText(Values(e + [x], place, key)) == if IsFor(x, place, key) then Some(x.assign.value) else LastText(Values(e, place, key))
    ensures LastNumber(Values(e + [x], place, key)) == if IsFor(x, place, key) then ParseInt(x.assign.value) else LastNumber(Values(e, place, key))
    ensures Items(Values(e + [x], place, key))
         == if IsFor(x, place, key) then Items(Values(e, place, key)) + SplitCsv(x.assign.value) else Items(Values(e, place, key))
    ensures Values(e + [x], place, key) == if IsFor(x, place, key) then Values(e, place, key) + [x.assign.value] else Values(e, place, key)
  {
    ValuesMore(e, x, place, key);
    var before := Values(e, place, key);
    if IsFor(x, place, key) {
      assert (before + [x.assign.value])[..|before|] == before;
    } else {
      assert before + [] == before;
    }
  }

  lemma UnknownMore(e: seq<Entry>, x: Entry, place: Place, known: set<string>)
    ensures Unknown(e + [x], place, known)
         == if IsUnknown(x, place, known) then Unknown(e, place, known)[x.assign.key := x.assign.value] else Unknown(e, place, known)
  {
    assert (e + [x])[..|e|] == e;
  }

  lemma ReadsInterfaceMore(e: seq<Entry>, a: Assign, p: Parsed, n: nat)
    requires ReadsInterface(e, p)
    ensures ReadsInterface(e + [Entry(OfInterface, a)], ApplyInterface(p, a, n))
  {
    var x := Entry(OfInterface, a);
    InterfaceStep(p, a, n);
    HookStep(p, a, n);
    UnknownStep(p, a, n);
    FieldMore(e, x, OfInterface, "privatekey");
    FieldMore(e, x, OfInterface, "address");
    FieldMore(e, x, OfInterface, "listenport");
    FieldMore(e, x, OfInterface, "dns");
    FieldMore(e, x, OfInterface, "mtu");
    FieldMore(e, x, OfInterface, "table");
    FieldMore(e, x, OfInterface, "fwmark");
    FieldMore(e, x, OfInterface, "preup");
    FieldMore(e, x, OfInterface, "postup");
    FieldMore(e, x, OfInterface, "predown");
    FieldMore(e, x, OfInterface, "postdown");
    UnknownMore(e, x, OfInterface, INTERFACE_KEYS);
  }

  lemma ReadsPeerMore(e: seq<Entry>, k: nat, a: Assign, q: ParsedPeer, n: nat)
    requires ReadsPeer(e, k, q)
    ensures ReadsPeer(e + [Entry(OfPeer(k), a)], k, ApplyPeer(q, a, n))
  {
    var x := Entry(OfPeer(k), a);
    PeerStep(q, a, n);
    FieldMore(e, x, OfPeer(k), "publickey");
    FieldMore(e, x, OfPeer(k), "presharedkey");
    FieldMore(e, x, OfPeer(k), "allowedips");
    FieldMore(e, x, OfPeer(k), "endpoint");
    FieldMore(e, x, OfPeer(k), "persistentkeepalive");
    UnknownMore(e, x, OfPeer(k), PEER_KEYS);
  }

  /** An entry elsewhere changes no field of this place. */
  lemma ReadsElsewhere(e: seq<Entry>, x: Entry, place: Place)
    requires x.place != place
    ensures forall key :: Values(e + [x], place, key) == Values(e, place, key)
    ensures forall known :: Unknown(e + [x], place, known) == Unknown(e, place, known)
  {
    assert (e + [x])[..|e|] == e;
  }

  // ------------------------------------------------------------------- line by line

  /** The peer sections that entries can stand in have begun. */
  lemma {:induction false} PlacesBegun(lines: seq<string>)
    ensures PlaceAfter(lines).OfPeer? ==> PlaceAfter(lines).index == PeerHeaders(lines) - 1
    ensures forall x :: x in Entries(lines) && x.place.OfPeer? ==> x.place.index < PeerHeaders(lines)
    decreases |lines|
  {
    if lines != [] {
      PlacesBegun(lines[..|lines| - 1]);
    }
  }

  lemma {:induction false} NoneFor(e: seq<Entry>, place: Place)
    requires forall x :: x in e ==> x.place != place
    ensures forall key :: Values(e, place, key) == []
    ensures forall known :: Unknown(e, place, known) == map[]
    decreases |e|
  {
    if e != [] {
      NoneFor(e[..|e| - 1], place);
      assert e[|e| - 1] in e;
    }
  }

  predicate InPlace(where: Where, place: Place, peers: nat) {
    match place
    case Outside => where.Nowhere?
    case OfInterface => where.InInterface?
    case OfPeer(k) => where.InPeer? && k + 1 == peers
  }

  ghost predicate ReadsPeers(e: seq<Entry>, peers: seq<ParsedPeer>) {
    forall k :: 0 <= k < |peers| ==> ReadsPeer(e, k, peers[k])
  }

  lemma LinesMore(lines: seq<string>, raw: string)
    ensures var kind := Classify(raw);
      && PeerHeaders(lines + [raw]) == PeerHeaders(lines) + (if kind == SectionHeader("peer") then 1 else 0)
      && PlaceAfter(lines + [raw]) ==
           (if !kind.SectionHeader? then PlaceAfter(lines)
            else if kind.name == "interface" then OfInterface
            else if kind.name == "peer" then OfPeer(PeerHeaders(lines))
            else Outside)
      && Entries(lines + [raw]) == if kind.Assignment? then Entries(lines) + [Entry(PlaceAfter(lines), kind.assign)] else Entries(lines)
  {
    assert (lines + [raw])[..|lines|] == lines;
  }

  /** What has been read so far: the entries, the place reached, and the number of peer sections. */
  datatype Reading = Reading(entries: seq<Entry>, place: Place, peers: nat)

  function ReadingOf(lines: seq<string>): Reading {
    Reading(Entries(lines), PlaceAfter(lines), PeerHeaders(lines))
  }

  function NextReading(r: Reading, kind: LineKind): Reading {
    match kind
    case SectionHeader(name) =>
      if name == "interface" then r.(place := OfInterface)
      else if name == "peer" then r.(place := OfPeer(r.peers), peers := r.peers + 1)
      else r.(place := Outside)
    case Assignment(a) => r.(entries := r.entries + [Entry(r.place, a)])
    case _ => r
  }

  lemma ReadingMore(lines: seq<string>, raw: string)
    ensures ReadingOf(lines + [raw]) == NextReading(ReadingOf(lines), Classify(raw))
  {
    LinesMore(lines, raw);
  }

  /** The parser is in the section reached, and has begun as many peers. */
  ghost predicate Placed(r: Reading, st: Progress) {
    && InPlace(st.where, r.place, r.peers) && |st.parsed.peers| == r.peers
    && forall x :: x in r.entries && x.place.OfPeer? ==> x.place.index < r.peers
  }

  /** What holds at the start and is kept by every line holds after all lines. */
  lemma {:induction false} AlongLines(holds: (Reading, Progress) -> bool, lines: seq<string>, name: string)
    requires holds(Reading([], Outside, 0), Progress(EmptyParsed(name), Nowhere))
    requires forall r, st, kind, n :: holds(r, st) ==> holds(NextReading(r, kind), TakeLine(st, kind, n))
    ensures holds(ReadingOf(lines), Fold(ParseLine, Progress(EmptyParsed(name), Nowhere), lines, 1))
    decreases |lines|
  {
    if lines != [] {
      var front, last := lines[..|lines| - 1], lines[|lines| - 1];
      AlongLines(holds, front, name);
      FoldLast(Progress(EmptyParsed(name), Nowhere), front, last);
      ReadingMore(front, last);
      assert lines == front + [last];
    }
  }

  lemma ReadsNewPeer(e: seq<Entry>, peers: seq<ParsedPeer>)
    requires ReadsPeers(e, peers) && forall x :: x in e && x.place.OfPeer? ==> x.place.index < |peers|
    ensures ReadsPeers(e, peers + [EMPTY_PEER])
  {
    NoneFor(e, OfPeer(|peers|));
  }

  lemma ReadsPeersElsewhere(e: seq<Entry>, x: Entry, peers: seq<ParsedPeer>, n: nat)
    requires n <= |peers| && ReadsPeers(e, peers) && (x.place.OfPeer? ==> x.place.index >= n)
    ensures ReadsPeers(e + [x], peers[..n])
  {
    forall k: nat | k < n ensures ReadsPeer(e + [x], k, peers[k]) {
      assert ReadsPeer(e, k, peers[k]);
      ReadsElsewhere(e, x, OfPeer(k));
    }
  }

  lemma ReadsInterfaceElsewhere(e: seq<Entry>, x: Entry, p: Parsed)
    requires ReadsInterface(e, p) && !x.place.OfInterface?
    ensures ReadsInterface(e + [x], p)
  {
    ReadsElsewhere(e, x, OfInterface);
  }

  lemma ReadsInPeer(e: seq<Entry>, x: Entry, peers: seq<ParsedPeer>, next: ParsedPeer)
    requires ReadsPeers(e, peers) && peers != [] && x.place == OfPeer(|peers| - 1) && ReadsPeer(e + [x], |peers| - 1, next)
    ensures ReadsPeers(e + [x], peers[|peers| - 1 := next])
  {
    var k := |peers| - 1;
    var after := peers[k := next];
    ReadsPeersElsewhere(e, x, peers, k);
    assert after[..k] == peers[..k];
    assert forall j :: 0 <= j < k ==> after[j] == peers[..k][j];
  }

  lemma PlacedNext(r: Reading, st: Progress, kind: LineKind, n: nat)
    requires Placed(r, st)
    ensures Placed(NextReading(r, kind), TakeLine(st, kind, n))
  {
    if kind.Assignment? && r.place.OfInterface? {
      InterfaceStep(st.parsed, kind.assign, n);
    }
  }

  lemma ReadsWhatever(e: seq<Entry>, p: Parsed, q: Parsed)
    requires ReadsInterface(e, p) && q == p.(peers := q.peers, warnings := q.warnings)
    ensures ReadsInterface(e, q)
  {
  }

  /** A line elsewhere touches nothing but peers and warnings. */
  lemma ElsewhereLine(st: Progress, kind: LineKind, n: nat)
    requires !(kind.Assignment? && st.where.InInterface?)
    ensures var p, q := st.parsed, TakeLine(st, kind, n).parsed; q == p.(peers := q.peers, warnings := q.warnings)
  {
  }

  lemma InterfaceNext(r: Reading, st: Progress, kind: LineKind, n: nat)
    requires Placed(r, st) && ReadsInterface(r.entries, st.parsed)
    ensures ReadsInterface(NextReading(r, kind).entries, TakeLine(st, kind, n).parsed)
  {
    if kind.Assignment? && r.place.OfInterface? {
      ReadsInterfaceMore(r.entries, kind.assign, st.parsed, n);
    } else {
      ElsewhereLine(st, kind, n);
      if kind.Assignment? {
        ReadsInterfaceElsewhere(r.entries, Entry(r.place, kind.assign), st.parsed);
      }
      ReadsWhatever(NextReading(r, kind).entries, st.parsed, TakeLine(st, kind, n).parsed);
    }
  }

  lemma PeersNext(r: Reading, st: Progress, kind: LineKind, n: nat)
    requires Placed(r, st) && ReadsPeers(r.entries, st.parsed.peers)
    ensures ReadsPeers(NextReading(r, kind).entries, TakeLine(st, kind, n).parsed.peers)
  {
    var peers := st.parsed.peers;
    if kind.Assignment? && r.place.OfPeer? {
      PeerNext(r, peers, kind.assign, n);
    } else if kind.Assignment? {
      assert peers[..|peers|] == peers;
      ReadsPeersElsewhere(r.entries, Entry(r.place, kind.assign), peers, |peers|);
      InterfaceStep(st.parsed, kind.assign, n);
    } else if kind == SectionHeader("peer") {
      ReadsNewPeer(r.entries, peers);
    }
  }

  lemma PeerNext(r: Reading, peers: seq<ParsedPeer>, a: Assign, n: nat)
    requires r.place.OfPeer? && r.place.index == |peers| - 1 && ReadsPeers(r.entries, peers)
    ensures var k := |peers| - 1;
      ReadsPeers(r.entries + [Entry(r.place, a)], peers[k := ApplyPeer(peers[k], a, n)])
  {
    var k := |peers| - 1;
    ReadsPeerMore(r.entries, k, a, peers[k], n);
    ReadsInPeer(r.entries, Entry(r.place, a), peers, ApplyPeer(peers[k], a, n));
  }

  /** The parser, line by line, arrives at the place that the headers say. */
  lemma LinesPlaced(lines: seq<string>, name: string)
    ensures Placed(ReadingOf(lines), Fold(ParseLine, Progress(EmptyParsed(name), Nowhere), lines, 1))
  {
    var holds := (r: Reading, st: Progress) => Placed(r, st);
    forall r, st, kind, n | holds(r, st) ensures holds(NextReading(r, kind), TakeLine(st, kind, n)) {
      PlacedNext(r, st, kind, n);
    }
    AlongLines(holds, lines, name);
  }

  /** It arrives at the fields of the interface that the entries say. */
  lemma LinesReadInterface(lines: seq<string>, name: string)
    ensures ReadsInterface(Entries(lines), Fold(ParseLine, Progress(EmptyParsed(name), Nowhere), lines, 1).parsed)
  {
    var holds := (r: Reading, st: Progress) => Placed(r, st) && ReadsInterface(r.entries, st.parsed);
    forall r, st, kind, n | holds(r, st) ensures holds(NextReading(r, kind), TakeLine(st, kind, n)) {
      PlacedNext(r, st, kind, n);
      InterfaceNext(r, st, kind, n);
    }
    AlongLines(holds, lines, name);
  }

  /** And at the fields of the peers. */
  lemma LinesReadPeers(lines: seq<string>, name: string)
    ensures ReadsPeers(Entries(lines), Fold(ParseLine, Progress(EmptyParsed(name), Nowhere), lines, 1).parsed.peers)
  {
    var holds := (r: Reading, st: Progress) => Placed(r, st) && ReadsPeers(r.entries, st.parsed.peers);
    forall r, st, kind, n | holds(r, st) ensures holds(NextReading(r, kind), TakeLine(st, kind, n)) {
      PlacedNext(r, st, kind, n);
      PeersNext(r, st, kind, n);
    }
    AlongLines(holds, lines, name);
  }

  lemma FoldLast(st: Progress, lines: seq<string>, last: string)
    ensures Fold(ParseLine, st, lines + [last], 1) == ParseLine(Fold(ParseLine, st, lines, 1), last, |lines| + 1)
  {
    FoldConcat(ParseLine, st, lines, [last], 1);
    assert [last][1..] == [];
  }

  /** For every text: the fields of the interface and of each peer are what the assignments in their sections say. */
  lemma ParseReads(text: string, name: string)
    ensures var p, e := Parse(text, name), Entries(SplitLines(text));
      && p.name == name
      && |p.peers| == PeerHeaders(SplitLines(text))
      && ReadsInterface(e, p)
      && forall k :: 0 <= k < |p.peers| ==> ReadsPeer(e, k, p.peers[k])
  {
    LinesPlaced(SplitLines(text), name);
    LinesReadInterface(SplitLines(text), name);
    LinesReadPeers(SplitLines(text), name);
    NameStays(SplitLines(text), name);
  }

  lemma LineKeepsName(st: Progress, raw: string, n: nat)
    ensures ParseLine(st, raw, n).parsed.name == st.parsed.name
  {
    if Classify(raw).Assignment? && st.where.InInterface? {
      InterfaceStep(st.parsed, Classify(raw).assign, n);
    }
  }

  lemma {:induction false} NameStays(lines: seq<string>, name: string)
    ensures Fold(ParseLine, Progress(EmptyParsed(name), Nowhere), lines, 1).parsed.name == name
    decreases |lines|
  {
    if lines != [] {
      var front, last := lines[..|lines| - 1], lines[|lines| - 1];
      NameStays(front, name);
      FoldLast(Progress(EmptyParsed(name), Nowhere), front, last);
      LineKeepsName(Fold(ParseLine, Progress(EmptyParsed(name), Nowhere), front, 1), last, |lines|);
      assert lines == front + [last];
    }
  }

}
