/** Parsing a rendered configuration gives back what was rendered. */
module WgRoundTrip {

  import opened Wrappers
  import opened Text
  import opened Endpoint
  import opened Lists
  import opened WgQuick
  import opened WgFields
  import opened PeerOrder

  // ------------------------------------------------------- what can be rendered

  predicate PlainOption(value: Option<string>) {
    value.Some? ==> Plain(value.value)
  }

  /** Values without surrounding spaces or line breaks, and list items without commas. */
  ghost predicate PlainInterface(i: Interface) {
    && PlainOption(i.privateKey) && PlainOption(i.table) && PlainOption(i.fwmark)
    && CsvItems(i.tunnelIps) && CsvItems(i.dns)
    && Plains(i.preUp) && Plains(i.postUp) && Plains(i.preDown) && Plains(i.postDown)
  }

  ghost predicate PlainPeer(p: Peer) {
    && PlainOption(p.publicKey) && PlainOption(p.presharedKey) && CsvItems(p.allowedIps)
    && (p.endpointHost.Some? ==> OneLine(Trim(p.endpointHost.value)))
  }

  ghost predicate PlainPeers(peers: seq<Peer>) {
    forall p :: p in peers ==> PlainPeer(p)
  }

  /** Such values, and no custom lines. */
  ghost predicate RenderableInterface(i: Interface) {
    PlainInterface(i) && Raw(i.custom) == []
  }

  ghost predicate RenderablePeer(p: Peer) {
    PlainPeer(p) && Raw(p.custom) == []
  }

  ghost predicate RenderablePeers(peers: seq<Peer>) {
    forall p :: p in peers ==> RenderablePeer(p)
  }

  /** Canonical spellings of addresses are plain text. */
  ghost predicate PlainAddresses(address: string -> Option<Address>) {
    forall t :: address(t).Some? ==> Plain(address(t).value.text)
  }

  lemma PlainHostPort(host: string, port: int)
    requires Plain(host)
    ensures Plain(host + ":" + IntText(port))
    ensures Plain("[" + host + "]:" + IntText(port))
  {
    IntTextIsPlain(port);
    var digits := IntText(port);
    var s, t := host + ":" + digits, "[" + host + "]:" + digits;
    assert s[|s| - 1] == digits[|digits| - 1] && t[|t| - 1] == digits[|digits| - 1];
    assert host != "" ==> s[0] == host[0];
    assert OneLine(":") && OneLine("[") && OneLine("]:");
  }

  lemma EndpointIsPlain(address: string -> Option<Address>, p: Peer)
    requires PlainAddresses(address) && PlainPeer(p)
    ensures EndpointText(address, p).Some? ==> EndpointText(address, p).value != "" && Plain(EndpointText(address, p).value)
  {
    if EndpointText(address, p).Some? {
      var text, port := Trim(p.endpointHost.value), p.endpointPort.value;
      TrimIsTrimmed(p.endpointHost.value);
      PlainHostPort(text, port);
      if address(text).Some? {
        PlainHostPort(address(text).value.text, port);
      }
    }
  }

  ghost predicate AssignsOk(assigns: seq<Assign>) {
    forall a :: a in assigns ==> AssignOk(a)
  }

  lemma SingleOk(key: string, value: Option<string>)
    requires IsName(key) && PlainOption(value)
    ensures AssignsOk(Single(key, value))
  {
  }

  lemma NumberOk(key: string, value: Option<int>)
    requires IsName(key)
    ensures AssignsOk(Number(key, value))
  {
    if value.Some? {
      IntTextIsPlain(value.value);
    }
  }

  lemma CsvOk(key: string, values: seq<string>)
    requires IsName(key) && CsvItems(values)
    ensures AssignsOk(Csv(key, values))
  {
    if NonEmpty(values) != [] {
      CsvReadsBack(values);
    }
  }

  lemma {:induction false} ManyOk(key: string, values: seq<string>)
    requires IsName(key) && Plains(values)
    ensures AssignsOk(Many(key, values))
  {
    if values != [] {
      assert values[0] in values;
      ManyOk(key, values[1..]);
    }
  }

  lemma InterfaceAssignsOk(i: Interface)
    requires PlainInterface(i)
    ensures AssignsOk(InterfaceAssigns(i))
  {
    InterfaceKeysAreNames();
    SingleOk("PrivateKey", i.privateKey);
    CsvOk("Address", i.tunnelIps);
    NumberOk("ListenPort", i.listenPort);
    CsvOk("DNS", i.dns);
    NumberOk("MTU", i.mtu);
    SingleOk("Table", i.table);
    SingleOk("FwMark", i.fwmark);
    ManyOk("PreUp", i.preUp);
    ManyOk("PostUp", i.postUp);
    ManyOk("PreDown", i.preDown);
    ManyOk("PostDown", i.postDown);
  }

  lemma PeerAssignsOk(address: string -> Option<Address>, p: Peer)
    requires PlainAddresses(address) && PlainPeer(p)
    ensures AssignsOk(PeerAssigns(address, p))
  {
    PeerKeysAreNames();
    EndpointIsPlain(address, p);
    SingleOk("PublicKey", p.publicKey);
    SingleOk("PresharedKey", p.presharedKey);
    CsvOk("AllowedIPs", p.allowedIps);
    SingleOk("Endpoint", EndpointText(address, p));
    NumberOk("PersistentKeepalive", p.keepalive);
  }

  // ---------------------------------------------------------- reading the sections

  lemma {:induction false} ReadInterfaceFields(p: Parsed, assigns: seq<Assign>, n: nat)
    requires AssignsOk(assigns)
    ensures Fold(ParseLine, Progress(p, InInterface), AssignLines(assigns), n)
         == Progress(ApplyAll(ApplyInterface, p, assigns, n), InInterface)
    decreases |assigns|
  {
    if assigns != [] {
      var a := assigns[0];
      assert a in assigns;
      ClassifyAssign(a);
      var next := ApplyInterface(p, a, n);
      assert ParseLine(Progress(p, InInterface), AssignLine(a), n) == Progress(next, InInterface);
      assert AssignLines(assigns)[1..] == AssignLines(assigns[1..]);
      ReadInterfaceFields(next, assigns[1..], n + 1);
    }
  }

  /** The result with its last peer replaced. */
  function WithLast(p: Parsed, q: ParsedPeer): Parsed
    requires p.peers != []
  {
    p.(peers := p.peers[..|p.peers| - 1] + [q])
  }

  lemma ReadPeerLine(p: Parsed, a: Assign, n: nat)
    requires p.peers != [] && AssignOk(a)
    ensures ParseLine(Progress(p, InPeer), AssignLine(a), n)
         == Progress(WithLast(p, ApplyPeer(p.peers[|p.peers| - 1], a, n)), InPeer)
  {
    ClassifyAssign(a);
    var q := ApplyPeer(p.peers[|p.peers| - 1], a, n);
    assert p.peers[|p.peers| - 1 := q] == p.peers[..|p.peers| - 1] + [q];
  }

  lemma {:induction false} ReadPeerFields(p: Parsed, q: ParsedPeer, assigns: seq<Assign>, n: nat)
    requires AssignsOk(assigns)
    ensures Fold(ParseLine, Progress(p.(peers := p.peers + [q]), InPeer), AssignLines(assigns), n)
         == Progress(p.(peers := p.peers + [ApplyAll(ApplyPeer, q, assigns, n)]), InPeer)
    decreases |assigns|
  {
    if assigns != [] {
      var a := assigns[0];
      assert a in assigns;
      var here := p.(peers := p.peers + [q]);
      ReadPeerLine(here, a, n);
      var next := ApplyPeer(q, a, n);
      assert WithLast(here, next) == p.(peers := p.peers + [next]);
      assert AssignLines(assigns)[1..] == AssignLines(assigns[1..]);
      ReadPeerFields(p, next, assigns[1..], n + 1);
    }
  }

  lemma ReadHeaders(p: Parsed, where: Where, n: nat)
    ensures ParseLine(Progress(p, where), Header("Interface"), n) == Progress(p, InInterface)
    ensures ParseLine(Progress(p, where), Header("Peer"), n) == Progress(p.(peers := p.peers + [EMPTY_PEER]), InPeer)
    ensures ParseLine(Progress(p, where), "", n) == Progress(p, where)
  {
    HeaderNames();
    NameIsPlain("Interface");
    NameIsPlain("Peer");
    ClassifyHeader("Interface");
    ClassifyHeader("Peer");
  }

  lemma FoldOne<S>(step: (S, string, nat) -> S, s: S, line: string, rest: seq<string>, n: nat)
    ensures Fold(step, s, [line] + rest, n) == Fold(step, step(s, line, n), rest, n + 1)
  {
    assert ([line] + rest)[1..] == rest;
  }

  lemma ReadPeerStart(p: Parsed, where: Where, lines: seq<string>, n: nat)
    ensures Fold(ParseLine, Progress(p, where), ["", Header("Peer")] + lines, n)
         == Fold(ParseLine, Progress(p.(peers := p.peers + [EMPTY_PEER]), InPeer), lines, n + 2)
  {
    assert ["", Header("Peer")] + lines == [""] + ([Header("Peer")] + lines);
    FoldOne(ParseLine, Progress(p, where), "", [Header("Peer")] + lines, n);
    ReadHeaders(p, where, n);
    FoldOne(ParseLine, Progress(p, where), Header("Peer"), lines, n + 1);
    ReadHeaders(p, where, n + 1);
  }

  /** The lines of a peer add that peer to what was read before. */
  lemma ReadPeer(address: string -> Option<Address>, p: Parsed, where: Where, peer: Peer, n: nat)
    requires PlainAddresses(address) && RenderablePeer(peer)
    ensures Fold(ParseLine, Progress(p, where), PeerLines(address, peer), n)
         == Progress(p.(peers := p.peers + [ExpectedPeer(address, peer)]), InPeer)
  {
    var assigns := PeerAssigns(address, peer);
    var lines := AssignLines(assigns);
    ReadPeerStart(p, where, lines, n);
    assert PeerLines(address, peer) == ["", Header("Peer")] + [] + lines == ["", Header("Peer")] + lines;
    PeerAssignsOk(address, peer);
    ReadPeerFields(p, EMPTY_PEER, assigns, n + 2);
    EndpointIsPlain(address, peer);
    YieldsPeer(address, peer);
  }

  function ExpectedPeers(address: string -> Option<Address>, peers: seq<Peer>): (r: seq<ParsedPeer>)
    ensures |r| == |peers| && forall k :: 0 <= k < |peers| ==> r[k] == ExpectedPeer(address, peers[k])
  {
    if peers == [] then [] else ExpectedPeers(address, peers[..|peers| - 1]) + [ExpectedPeer(address, peers[|peers| - 1])]
  }

  /** Reading the lines of some peers adds them all. */
  ghost predicate AddsPeers(address: string -> Option<Address>, p: Parsed, peers: seq<Peer>, n: nat) {
    Fold(ParseLine, Progress(p, InInterface), FlatMap(PeerWriter(address), peers), n).parsed
      == p.(peers := p.peers + ExpectedPeers(address, peers))
  }

  lemma ReadOneMore(address: string -> Option<Address>, p: Parsed, front: seq<Peer>, last: Peer, n: nat)
    requires PlainAddresses(address) && RenderablePeer(last) && AddsPeers(address, p, front, n)
    ensures AddsPeers(address, p, front + [last], n)
  {
    var before := FlatMap(PeerWriter(address), front);
    assert (front + [last])[..|front|] == front;
    FoldConcat(ParseLine, Progress(p, InInterface), before, PeerLines(address, last), n);
    var st := Fold(ParseLine, Progress(p, InInterface), before, n);
    ReadPeer(address, st.parsed, st.where, last, n + |before|);
    assert st == Progress(st.parsed, st.where);
    Assoc(p.peers, ExpectedPeers(address, front), [ExpectedPeer(address, last)]);
  }

  lemma AddsNone(address: string -> Option<Address>, p: Parsed, n: nat)
    ensures AddsPeers(address, p, [], n)
  {
    assert p.peers + [] == p.peers;
  }

  lemma FrontAnd(peers: seq<Peer>, k: nat)
    requires 0 < k <= |peers|
    ensures peers[..k - 1] + [peers[k - 1]] == peers[..k]
  {
  }

  lemma RenderableAt(peers: seq<Peer>, k: nat)
    requires RenderablePeers(peers) && k < |peers|
    ensures RenderablePeer(peers[k])
  {
    assert peers[k] in peers;
  }

  lemma {:induction false} ReadFirst(address: string -> Option<Address>, p: Parsed, peers: seq<Peer>, k: nat, n: nat)
    requires PlainAddresses(address) && RenderablePeers(peers) && k <= |peers|
    ensures AddsPeers(address, p, peers[..k], n)
    decreases k
  {
    if k == 0 {
      AddsNone(address, p, n);
    } else {
      ReadFirst(address, p, peers, k - 1, n);
      RenderableAt(peers, k - 1);
      ReadOneMore(address, p, peers[..k - 1], peers[k - 1], n);
      FrontAnd(peers, k);
    }
  }

  lemma ReadPeers(address: string -> Option<Address>, p: Parsed, peers: seq<Peer>, n: nat)
    requires PlainAddresses(address) && RenderablePeers(peers)
    ensures AddsPeers(address, p, peers, n)
  {
    ReadFirst(address, p, peers, |peers|, n);
    assert peers[..|peers|] == peers;
  }

  lemma ReadInterface(name: string, i: Interface)
    requires RenderableInterface(i)
    ensures Fold(ParseLine, Progress(EmptyParsed(name), Nowhere), InterfaceLines(i), 1)
         == Progress(ExpectedInterface(name, i), InInterface)
  {
    var lines := AssignLines(InterfaceAssigns(i));
    assert InterfaceLines(i) == [Header("Interface")] + lines;
    FoldOne(ParseLine, Progress(EmptyParsed(name), Nowhere), Header("Interface"), lines, 1);
    ReadHeaders(EmptyParsed(name), Nowhere, 1);
    InterfaceAssignsOk(i);
    ReadInterfaceFields(EmptyParsed(name), InterfaceAssigns(i), 2);
    YieldsInterface(name, i);
  }

  // ------------------------------------------------------- from text back to lines

  /** Lines that splitting and trimming the joined text leave as they are. */
  ghost predicate Solid(lines: seq<string>) {
    AllOneLine(lines) && lines != [] && lines[|lines| - 1] != "" && !IsSpace(lines[|lines| - 1][|lines[|lines| - 1]| - 1])
  }

  lemma SolidConcat(first: seq<string>, second: seq<string>)
    requires Solid(first) && (second == [] || Solid(second))
    ensures Solid(first + second)
  {
    if second == [] {
      assert first + second == first;
    }
  }

  lemma SolidMore(lines: seq<string>, line: string)
    requires Solid(lines) && OneLine(line) && line != "" && !IsSpace(line[|line| - 1])
    ensures Solid(lines + [line])
  {
  }

  lemma {:induction false} SolidAssigns(lines: seq<string>, assigns: seq<Assign>)
    requires Solid(lines) && AssignsOk(assigns)
    ensures Solid(lines + AssignLines(assigns))
    decreases |assigns|
  {
    if assigns == [] {
      assert lines + [] == lines;
    } else {
      var line := AssignLine(assigns[0]);
      assert assigns[0] in assigns;
      AssignLineEnds(assigns[0]);
      SolidMore(lines, line);
      SolidAssigns(lines + [line], assigns[1..]);
      Assoc(lines, [line], AssignLines(assigns[1..]));
    }
  }

  lemma RawLineEnds(line: string)
    requires OneLine(line) && TrimRight(line) != ""
    ensures var kept := TrimRight(line); OneLine(kept) && !IsSpace(kept[|kept| - 1])
  {
    TrimRightSpec(line);
  }

  /** Custom lines are written without what trimming on the right would take. */
  lemma {:induction false} SolidRaw(lines: seq<string>, custom: seq<string>)
    requires Solid(lines) && AllOneLine(custom)
    ensures Solid(lines + RawLines(custom))
    decreases |custom|
  {
    if custom == [] {
      assert lines + [] == lines;
    } else {
      var line, rest := TrimRight(custom[0]), custom[1..];
      assert custom[0] in custom;
      assert AllOneLine(rest);
      if line == "" {
        SolidRaw(lines, rest);
        assert [] + RawLines(rest) == RawLines(rest);
      } else {
        RawLineEnds(custom[0]);
        SolidMore(lines, line);
        SolidRaw(lines + [line], rest);
        Assoc(lines, [line], RawLines(rest));
      }
    }
  }

  lemma SolidSection(lines: seq<string>, custom: Option<string>, assigns: seq<Assign>)
    requires Solid(lines) && AssignsOk(assigns)
    ensures Solid(lines + Raw(custom) + AssignLines(assigns))
  {
    if custom.Some? {
      SolidRaw(lines, SplitLines(custom.value));
    } else {
      assert lines + Raw(custom) == lines;
    }
    SolidAssigns(lines + Raw(custom), assigns);
  }

  lemma SolidHeader(name: string)
    requires IsName(name)
    ensures Solid([Header(name)])
  {
    NameIsPlain(name);
    assert OneLine("[") && OneLine("]");
  }

  lemma SolidInterface(i: Interface)
    requires PlainInterface(i)
    ensures Solid(InterfaceLines(i))
  {
    HeaderNames();
    SolidHeader("Interface");
    InterfaceAssignsOk(i);
    SolidSection([Header("Interface")], i.custom, InterfaceAssigns(i));
  }

  lemma SolidPeer(address: string -> Option<Address>, p: Peer)
    requires PlainAddresses(address) && PlainPeer(p)
    ensures Solid(PeerLines(address, p))
  {
    PeerAssignsOk(address, p);
    HeaderNames();
    SolidHeader("Peer");
    SolidAfterBlank([Header("Peer")]);
    assert [""] + [Header("Peer")] == ["", Header("Peer")];
    SolidSection(["", Header("Peer")], p.custom, PeerAssigns(address, p));
  }

  lemma SolidAfterBlank(lines: seq<string>)
    requires Solid(lines)
    ensures Solid([""] + lines)
  {
  }

  lemma {:induction false} SolidPeers(address: string -> Option<Address>, peers: seq<Peer>)
    requires PlainAddresses(address) && PlainPeers(peers)
    ensures peers == [] || Solid(FlatMap(PeerWriter(address), peers))
  {
    if peers != [] {
      var front, last := peers[..|peers| - 1], peers[|peers| - 1];
      assert last in peers;
      SolidPeers(address, front);
      SolidPeer(address, last);
      if front != [] {
        SolidConcat(FlatMap(PeerWriter(address), front), PeerLines(address, last));
      }
    }
  }

  /** Joined solid lines are not touched by trimming, and split into the same lines. */
  lemma SolidText(lines: seq<string>)
    requires Solid(lines)
    ensures SplitLines(TrimRight(JoinLines(lines)) + "\n") == lines
  {
    var front, last := lines[..|lines| - 1], lines[|lines| - 1];
    assert lines == front + [last];
    JoinLast(front, last);
    var before := if front == [] then "" else JoinLines(front) + "\n";
    assert JoinLines(lines) == before + last;
    TrimRightAppend(before, last);
    SplitJoined(lines);
  }

  // --------------------------------------------------------------- the round trip

  function Expected(address: string -> Option<Address>, name: string, i: Interface, peers: seq<Peer>): Parsed {
    ExpectedInterface(name, i).(peers := ExpectedPeers(address, peers))
  }

  /** The parser sees exactly the lines that were rendered. */
  lemma RenderedLines(address: string -> Option<Address>, i: Interface, peers: seq<Peer>)
    requires PlainAddresses(address) && PlainInterface(i) && PlainPeers(peers)
    ensures SplitLines(RenderOrdered(address, i, peers)) == InterfaceLines(i) + FlatMap(PeerWriter(address), peers)
  {
    SolidInterface(i);
    SolidPeers(address, peers);
    SolidConcat(InterfaceLines(i), FlatMap(PeerWriter(address), peers));
    SolidText(InterfaceLines(i) + FlatMap(PeerWriter(address), peers));
  }

  lemma ReadAll(address: string -> Option<Address>, name: string, i: Interface, peers: seq<Peer>)
    requires PlainAddresses(address) && RenderableInterface(i) && RenderablePeers(peers)
    ensures Fold(ParseLine, Progress(EmptyParsed(name), Nowhere), InterfaceLines(i) + FlatMap(PeerWriter(address), peers), 1).parsed
         == Expected(address, name, i, peers)
  {
    ReadInterface(name, i);
    ReadPeers(address, ExpectedInterface(name, i), peers, 1 + |InterfaceLines(i)|);
    NoPeersYet(address, name, i, peers);
    ReadBoth(Progress(EmptyParsed(name), Nowhere), InterfaceLines(i), FlatMap(PeerWriter(address), peers));
  }

  lemma NoPeersYet(address: string -> Option<Address>, name: string, i: Interface, peers: seq<Peer>)
    ensures var p := ExpectedInterface(name, i);
      p.(peers := p.peers + ExpectedPeers(address, peers)) == Expected(address, name, i, peers)
  {
    assert [] + ExpectedPeers(address, peers) == ExpectedPeers(address, peers);
  }

  lemma ReadBoth(start: Progress, first: seq<string>, second: seq<string>)
    ensures Fold(ParseLine, start, first + second, 1) == Fold(ParseLine, Fold(ParseLine, start, first, 1), second, 1 + |first|)
  {
    FoldConcat(ParseLine, start, first, second, 1);
  }

  lemma OrderedRoundTrip(address: string -> Option<Address>, name: string, i: Interface, peers: seq<Peer>)
    requires PlainAddresses(address) && RenderableInterface(i) && RenderablePeers(peers)
    ensures Parse(RenderOrdered(address, i, peers), name) == Expected(address, name, i, peers)
  {
    RenderedLines(address, i, peers);
    ReadAll(address, name, i, peers);
  }

  /**
  Parsing a rendered configuration gives back every rendered field, the peers in
  their rendered order, and neither warnings nor unknown fields.
   */
  lemma RoundTrip(address: string -> Option<Address>, name: string, i: Interface, peers: seq<Peer>)
    requires PlainAddresses(address) && RenderableInterface(i) && RenderablePeers(peers)
    ensures Parse(Render(address, i, peers), name) == Expected(address, name, i, SortPeers(peers))
  {
    SortSorts(peers);
    forall p | p in SortPeers(peers) ensures p in peers {
      assert p in multiset(SortPeers(peers));
    }
    OrderedRoundTrip(address, name, i, SortPeers(peers));
  }

  /**
  The endpoints read back from a rendered configuration: there is one for each peer with a
  host and a port other than zero, and it splits into the canonical host and that port unless
  the host is a name with a colon or in brackets.
   */
  lemma EndpointsRoundTrip(address: string -> Option<Address>, name: string, i: Interface, peers: seq<Peer>, k: nat)
    requires PlainAddresses(address) && AddressLaws(address) && RenderableInterface(i) && RenderablePeers(peers)
    requires k < |SortPeers(peers)|
    ensures var peer, parsed := SortPeers(peers)[k], Parse(Render(address, i, peers), name);
      var host, port := peer.endpointHost, peer.endpointPort;
      && k < |parsed.peers|
      && (host.None? || host.value == "" || port.None? || port.value == 0 ==> parsed.peers[k].endpoint.None?)
      && (host.Some? && host.value != "" && port.Some? && port.value != 0 ==>
            (SplitEndpoint(parsed.peers[k].endpoint) == Parts(Some(CanonicalHost(address, host.value)), port)
             <==> address(Trim(host.value)).Some? || (':' !in Trim(host.value) && !Bracketed(Trim(host.value)))))
  {
    RoundTrip(address, name, i, peers);
    var peer := SortPeers(peers)[k];
    if peer.endpointHost.Some? && peer.endpointPort.Some? {
      EndpointRoundTrip(address, peer.endpointHost.value, peer.endpointPort.value);
    }
  }

}
