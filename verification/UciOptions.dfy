/**
Every option that a deployment sets, with its value, in terms of the parsed
configuration, and what of it is committed.
 */
module UciOptions {

  import opened Wrappers
  import opened Text
  import opened Endpoint
  import opened WgQuick
  import opened Uci
  import opened UciDeploy

  /** The option has this value, or is absent. */
  predicate OptionIs(options: map<string, Value>, option: string, value: Option<Value>) {
    if value.Some? then option in options && options[option] == value.value else option !in options
  }

  /** A text option, set unless the text is missing or empty. */
  predicate TextIs(options: map<string, Value>, option: string, text: Option<string>) {
    if text.Some? && text.value != "" then option in options && options[option] == Scalar(text.value) else option !in options
  }

  /** A number option, set in decimal unless the number is missing. */
  predicate NumberIs(options: map<string, Value>, option: string, number: Option<int>) {
    if number.Some? then option in options && options[option] == Scalar(IntText(number.value)) else option !in options
  }

  /** A list option, set to all items in order unless there is none. */
  predicate ListIs(options: map<string, Value>, option: string, items: seq<string>) {
    if items != [] then option in options && options[option] == List(items) else option !in options
  }

  /** The routes of a peer are installed by the interface unless the table is given as "off", in any case. */
  predicate RoutesAre(options: map<string, Value>, table: Option<string>) {
    && "route_allowed_ips" in options
    && (table.Some? && Lower(table.value) == "off" ==> options["route_allowed_ips"] == Scalar("0"))
    && (table.None? || Lower(table.value) != "off" ==> options["route_allowed_ips"] == Scalar("1"))
  }

  /** The section of one peer: its kind and each of its options. */
  ghost predicate DescribesPeer(s: Section, name: string, table: Option<string>, p: ParsedPeer) {
    var parts := SplitEndpoint(p.endpoint);
    && s.name.None? && s.kind == "wireguard_" + name
    && s.options.Keys <= {"public_key", "preshared_key", "allowed_ips", "route_allowed_ips", "endpoint_host", "endpoint_port", "persistent_keepalive"}
    && TextIs(s.options, "public_key", p.publicKey)
    && TextIs(s.options, "preshared_key", p.presharedKey)
    && ListIs(s.options, "allowed_ips", p.allowedIps)
    && RoutesAre(s.options, table)
    && TextIs(s.options, "endpoint_host", parts.host)
    && ("endpoint_port" in s.options <==> parts.port.Some? && parts.port.value != 0)
    && ("endpoint_port" in s.options ==> s.options["endpoint_port"] == Scalar(IntText(parts.port.value)))
    && NumberIs(s.options, "persistent_keepalive", p.keepalive)
  }

  /** The section of the interface. */
  ghost predicate DescribesInterface(s: Section, name: string, parsed: Parsed) {
    && s.name == Some(name) && s.kind == "interface"
    && s.options.Keys <= {"proto", "private_key", "addresses", "listen_port", "mtu", "fwmark"}
    && TextIs(s.options, "proto", Some("wireguard"))
    && TextIs(s.options, "private_key", parsed.privateKey)
    && ListIs(s.options, "addresses", parsed.addresses)
    && NumberIs(s.options, "listen_port", parsed.listenPort)
    && NumberIs(s.options, "mtu", parsed.mtu)
    && TextIs(s.options, "fwmark", parsed.fwmark)
  }

  // ------------------------------------------------------------- option by option

  /** Options set one after the other, each under a name of its own. */
  datatype Setting = Setting(option: string, value: Option<Value>)

  function SetAll(settings: seq<Setting>): map<string, Value> {
    if settings == [] then map[]
    else With(SetAll(settings[..|settings| - 1]), settings[|settings| - 1].option, settings[|settings| - 1].value)
  }

  ghost predicate NamedApart(settings: seq<Setting>) {
    forall i, j :: 0 <= i < j < |settings| ==> settings[i].option != settings[j].option
  }

  /** Each option has the value it was set to, and there are no others. */
  lemma {:induction false} SetAllLookup(settings: seq<Setting>)
    requires NamedApart(settings)
    ensures forall k :: 0 <= k < |settings| ==> OptionIs(SetAll(settings), settings[k].option, settings[k].value)
    ensures forall o :: o in SetAll(settings) ==> exists k :: 0 <= k < |settings| && settings[k].option == o
    decreases |settings|
  {
    if settings != [] {
      var front, last := settings[..|settings| - 1], settings[|settings| - 1];
      SetAllLookup(front);
      assert forall k :: 0 <= k < |front| ==> front[k] == settings[k];
      assert forall k :: 0 <= k < |front| ==> front[k].option != last.option;
      forall o | o in SetAll(settings) ensures exists k :: 0 <= k < |settings| && settings[k].option == o {
        if o == last.option {
          assert settings[|settings| - 1].option == o;
        } else {
          var k :| 0 <= k < |front| && front[k].option == o;
          assert settings[k].option == o;
        }
      }
    }
  }

  function PeerSettings(p: ParsedPeer, route: string): seq<Setting> {
    var parts := SplitEndpoint(p.endpoint);
    [Setting("public_key", TextValue(p.publicKey)), Setting("preshared_key", TextValue(p.presharedKey)),
     Setting("allowed_ips", ListValue(p.allowedIps)), Setting("route_allowed_ips", Some(Scalar(route))),
     Setting("endpoint_host", TextValue(parts.host)), Setting("endpoint_port", NumberValue(UsablePort(parts.port))),
     Setting("persistent_keepalive", NumberValue(p.keepalive))]
  }

  function InterfaceSettings(parsed: Parsed): seq<Setting> {
    [Setting("proto", Some(Scalar("wireguard"))), Setting("private_key", TextValue(parsed.privateKey)),
     Setting("addresses", ListValue(parsed.addresses)), Setting("listen_port", NumberValue(parsed.listenPort)),
     Setting("mtu", NumberValue(parsed.mtu)), Setting("fwmark", TextValue(parsed.fwmark))]
  }

  lemma SetAllMore(settings: seq<Setting>, s: Setting)
    ensures SetAll(settings + [s]) == With(SetAll(settings), s.option, s.value)
  {
    assert (settings + [s])[..|settings|] == settings;
  }

  lemma PeerSettingsApart(p: ParsedPeer, route: string)
    ensures NamedApart(PeerSettings(p, route))
  {
    assert "endpoint_host"[9] == 'h' && "endpoint_port"[9] == 'p' && "preshared_key"[0] == 'p';
    assert "endpoint_host"[0] == 'e' && "endpoint_port"[0] == 'e';
  }

  lemma InterfaceSettingsApart(parsed: Parsed)
    ensures NamedApart(InterfaceSettings(parsed))
  {
    assert "private_key"[0] == 'p' && "listen_port"[0] == 'l';
  }

  lemma PeerSettingsMade(name: string, p: ParsedPeer, route: string)
    ensures PeerSection(name, route, p).options == SetAll(PeerSettings(p, route))
  {
    var all := PeerSettings(p, route);
    var s1 := [all[0]];
    var s2 := s1 + [all[1]];
    var s3 := s2 + [all[2]];
    var s4 := s3 + [all[3]];
    var s5 := s4 + [all[4]];
    var s6 := s5 + [all[5]];
    assert all == s6 + [all[6]] && [] + [all[0]] == s1;
    SetAllMore([], all[0]);
    SetAllMore(s1, all[1]);
    SetAllMore(s2, all[2]);
    SetAllMore(s3, all[3]);
    SetAllMore(s4, all[4]);
    SetAllMore(s5, all[5]);
    SetAllMore(s6, all[6]);
  }

  lemma InterfaceSettingsMade(name: string, parsed: Parsed)
    ensures InterfaceSection(name, parsed).options == SetAll(InterfaceSettings(parsed))
  {
    var all := InterfaceSettings(parsed);
    var s1 := [all[0]];
    var s2 := s1 + [all[1]];
    var s3 := s2 + [all[2]];
    var s4 := s3 + [all[3]];
    var s5 := s4 + [all[4]];
    assert all == s5 + [all[5]] && [] + [all[0]] == s1;
    SetAllMore([], all[0]);
    SetAllMore(s1, all[1]);
    SetAllMore(s2, all[2]);
    SetAllMore(s3, all[3]);
    SetAllMore(s4, all[4]);
    SetAllMore(s5, all[5]);
    assert SetAll(s1) == map["proto" := Scalar("wireguard")];
  }

  lemma PeerDescribed(name: string, parsed: Parsed, p: ParsedPeer)
    ensures DescribesPeer(PeerSection(name, RouteFlag(parsed), p), name, parsed.table, p)
  {
    var route := RouteFlag(parsed);
    var all, options := PeerSettings(p, route), PeerSection(name, route, p).options;
    PeerSettingsApart(p, route);
    PeerSettingsMade(name, p, route);
    SetAllLookup(all);
    assert OptionIs(options, all[0].option, all[0].value);
    assert OptionIs(options, all[1].option, all[1].value);
    assert OptionIs(options, all[2].option, all[2].value);
    assert OptionIs(options, all[3].option, all[3].value);
    assert OptionIs(options, all[4].option, all[4].value);
    assert OptionIs(options, all[5].option, all[5].value);
    assert OptionIs(options, all[6].option, all[6].value);
    assert Lower("") != "off";
  }

  lemma InterfaceDescribed(name: string, parsed: Parsed)
    ensures DescribesInterface(InterfaceSection(name, parsed), name, parsed)
  {
    var all, options := InterfaceSettings(parsed), InterfaceSection(name, parsed).options;
    InterfaceSettingsApart(parsed);
    InterfaceSettingsMade(name, parsed);
    SetAllLookup(all);
    assert OptionIs(options, all[0].option, all[0].value);
    assert OptionIs(options, all[1].option, all[1].value);
    assert OptionIs(options, all[2].option, all[2].value);
    assert OptionIs(options, all[3].option, all[3].value);
    assert OptionIs(options, all[4].option, all[4].value);
    assert OptionIs(options, all[5].option, all[5].value);
  }

  // ---------------------------------------------------------- a whole deployment

  /** The sections describe a parsed configuration: the interface, and then each of its peers in order. */
  ghost predicate Describes(sections: Config, name: string, parsed: Parsed) {
    && |sections| == 1 + |parsed.peers|
    && DescribesInterface(sections[0], name, parsed)
    && forall k :: 0 <= k < |parsed.peers| ==> DescribesPeer(sections[1 + k], name, parsed.table, parsed.peers[k])
  }

  lemma {:induction false} PeersDescribed(name: string, parsed: Parsed, peers: seq<ParsedPeer>)
    ensures var sections := PeerSections(name, RouteFlag(parsed), peers);
      |sections| == |peers| && forall k :: 0 <= k < |peers| ==> DescribesPeer(sections[k], name, parsed.table, peers[k])
    decreases |peers|
  {
    if peers != [] {
      PeersDescribed(name, parsed, peers[..|peers| - 1]);
      PeerDescribed(name, parsed, peers[|peers| - 1]);
    }
  }

  /** What a deployment sets, option by option. */
  lemma DeploymentDescribed(name: string, parsed: Parsed)
    ensures Describes(Deployment(name, parsed), name, parsed)
  {
    InterfaceDescribed(name, parsed);
    PeersDescribed(name, parsed, parsed.peers);
  }

  /**
  Whatever the old configuration was, and however many of the deletions failed: a deployment
  whose commands work ends with a section for each peer, in order, with exactly its options.
   */
  lemma InstalledPeers(config: Config, name: string, parsed: Parsed, replies: Replies, k: nat)
    requires k < |parsed.peers|
    ensures var made := Installed(config, name, parsed, replies);
      && |made| >= |parsed.peers|
      && DescribesPeer(made[|made| - |parsed.peers| + k], name, parsed.table, parsed.peers[k])
  {
    var front := InstalledFront(config, name, parsed, replies);
    PeersDescribed(name, parsed, parsed.peers);
    var peers := PeerSections(name, RouteFlag(parsed), parsed.peers);
    assert (front + peers)[|front| + k] == peers[k];
  }

  /** The peers' sections are built behind everything else. */
  lemma InstalledFront(config: Config, name: string, parsed: Parsed, replies: Replies) returns (front: Config)
    ensures Installed(config, name, parsed, replies) == front + PeerSections(name, RouteFlag(parsed), parsed.peers)
  {
    var base := Cleared(config, name, PeerIndices(name, SplitLines(replies.listing)), replies.works);
    var route := RouteFlag(parsed);
    var first := [SetSection(name, "interface")] + InterfaceOptionCommands(name, parsed);
    ExecConcat(base, first, PeerCommands(name, route, parsed.peers));
    front := ExecAll(base, first);
    PeersBuilt(front, name, route, parsed.peers);
  }

  /** With a complete listing and working deletions, what is committed is the untouched rest and the configuration, option by option. */
  lemma InstalledExactly(config: Config, name: string, parsed: Parsed, replies: Replies)
    requires Announces(SplitLines(replies.listing), name, config)
    requires AllWork(replies.works, 0, |PeerIndices(name, SplitLines(replies.listing))| + 1)
    ensures var made, rest := Installed(config, name, parsed, replies), Rest(config, name);
      rest <= made && Describes(made[|rest|..], name, parsed)
  {
    TranslationIsExact(config, name, parsed, replies);
    DeploymentDescribed(name, parsed);
  }

}
