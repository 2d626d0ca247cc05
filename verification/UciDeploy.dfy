/** The commands a deployment issues, what they build, and when it is rolled back. */
module UciDeploy {

  import opened Wrappers
  import opened Text
  import opened Endpoint
  import opened WgQuick
  import opened Secrets
  import opened Uci

  // --------------------------------------------------------------- the commands

  function SetText(ref: Ref, option: string, text: Option<string>): seq<Command> {
    if Present(text) then [SetOption(ref, option, text.value)] else []
  }

  function SetNumber(ref: Ref, option: string, number: Option<int>): seq<Command> {
    if number.Some? then [SetOption(ref, option, IntText(number.value))] else []
  }

  function SetList(ref: Ref, option: string, items: seq<string>): seq<Command> {
    if items == [] then [] else SetList(ref, option, items[..|items| - 1]) + [AddToList(ref, option, items[|items| - 1])]
  }

  /** Routes for the allowed addresses are switched off together with the routing table. */
  function RouteFlag(parsed: Parsed): string {
    if Lower(OrEmpty(parsed.table)) == "off" then "0" else "1"
  }

  /** A port that is not zero. */
  function UsablePort(port: Option<int>): Option<int> {
    if port == Some(0) then None else port
  }

  function InterfaceOptionCommands(name: string, parsed: Parsed): seq<Command> {
    var ref := Named(name);
    [SetOption(ref, "proto", "wireguard")] + SetText(ref, "private_key", parsed.privateKey)
    + SetList(ref, "addresses", parsed.addresses) + SetNumber(ref, "listen_port", parsed.listenPort)
    + SetNumber(ref, "mtu", parsed.mtu) + SetText(ref, "fwmark", parsed.fwmark)
  }

  function PeerOptionCommands(name: string, route: string, p: ParsedPeer): seq<Command> {
    var ref := Added(PeerKind(name));
    var endpoint := AgentSplitEndpoint(p.endpoint);
    SetText(ref, "public_key", p.publicKey) + SetText(ref, "preshared_key", p.presharedKey)
    + SetList(ref, "allowed_ips", p.allowedIps) + [SetOption(ref, "route_allowed_ips", route)]
    + SetText(ref, "endpoint_host", endpoint.host) + SetNumber(ref, "endpoint_port", UsablePort(endpoint.port))
    + SetNumber(ref, "persistent_keepalive", p.keepalive)
  }

  function PeerCommands(name: string, route: string, peers: seq<ParsedPeer>): seq<Command> {
    if peers == [] then []
    else PeerCommands(name, route, peers[..|peers| - 1])
         + ([AddSection(PeerKind(name))] + PeerOptionCommands(name, route, peers[|peers| - 1]))
  }

  function Script(name: string, parsed: Parsed): seq<Command> {
    ([SetSection(name, "interface")] + InterfaceOptionCommands(name, parsed)) + PeerCommands(name, RouteFlag(parsed), parsed.peers)
  }

  // ------------------------------------------------------- what is to be deployed

  function With(options: map<string, Value>, option: string, value: Option<Value>): map<string, Value> {
    if value.None? then options else options[option := value.value]
  }

  function TextValue(text: Option<string>): Option<Value> {
    if Present(text) then Some(Scalar(text.value)) else None
  }

  function NumberValue(number: Option<int>): Option<Value> {
    if number.None? then None else Some(Scalar(IntText(number.value)))
  }

  function ListValue(items: seq<string>): Option<Value> {
    if items == [] then None else Some(List(items))
  }

  function InterfaceSection(name: string, parsed: Parsed): Section {
    var o1 := map["proto" := Scalar("wireguard")];
    var o2 := With(o1, "private_key", TextValue(parsed.privateKey));
    var o3 := With(o2, "addresses", ListValue(parsed.addresses));
    var o4 := With(o3, "listen_port", NumberValue(parsed.listenPort));
    var o5 := With(o4, "mtu", NumberValue(parsed.mtu));
    var o6 := With(o5, "fwmark", TextValue(parsed.fwmark));
    Section(Some(name), "interface", o6)
  }

  function PeerSection(name: string, route: string, p: ParsedPeer): Section {
    var endpoint := SplitEndpoint(p.endpoint);
    var o1 := With(map[], "public_key", TextValue(p.publicKey));
    var o2 := With(o1, "preshared_key", TextValue(p.presharedKey));
    var o3 := With(o2, "allowed_ips", ListValue(p.allowedIps));
    var o4 := With(o3, "route_allowed_ips", Some(Scalar(route)));
    var o5 := With(o4, "endpoint_host", TextValue(endpoint.host));
    var o6 := With(o5, "endpoint_port", NumberValue(UsablePort(endpoint.port)));
    var o7 := With(o6, "persistent_keepalive", NumberValue(p.keepalive));
    Section(None, PeerKind(name), o7)
  }

  function PeerSections(name: string, route: string, peers: seq<ParsedPeer>): Config {
    if peers == [] then [] else PeerSections(name, route, peers[..|peers| - 1]) + [PeerSection(name, route, peers[|peers| - 1])]
  }

  /** The sections a parsed configuration stands for: the interface, then its peers in order. */
  function Deployment(name: string, parsed: Parsed): Config {
    [InterfaceSection(name, parsed)] + PeerSections(name, RouteFlag(parsed), parsed.peers)
  }

  // ------------------------------------------------- the commands build the sections

  /** A command that edits the section a reference points to. */
  predicate About(c: Command, s: Section) {
    (c.SetOption? || c.AddToList?) && Matches(c.ref, s)
  }

  function EditAll(s: Section, script: seq<Command>): Section {
    if script == [] then s else Edit(EditAll(s, script[..|script| - 1]), script[|script| - 1])
  }

  lemma {:induction false} EditConcat(s: Section, first: seq<Command>, second: seq<Command>)
    ensures EditAll(s, first + second) == EditAll(EditAll(s, first), second)
    decreases |second|
  {
    if second == [] {
      assert first + second == first;
    } else {
      assert (first + second)[..|first + second| - 1] == first + second[..|second| - 1];
      EditConcat(s, first, second[..|second| - 1]);
    }
  }

  lemma {:induction false} ExecConcat(config: Config, first: seq<Command>, second: seq<Command>)
    ensures ExecAll(config, first + second) == ExecAll(ExecAll(config, first), second)
    decreases |second|
  {
    if second == [] {
      assert first + second == first;
    } else {
      assert (first + second)[..|first + second| - 1] == first + second[..|second| - 1];
      ExecConcat(config, first, second[..|second| - 1]);
    }
  }

  lemma {:induction false} EditKeepsPlace(s: Section, script: seq<Command>)
    ensures EditAll(s, script).name == s.name && EditAll(s, script).kind == s.kind
    decreases |script|
  {
    if script != [] {
      EditKeepsPlace(s, script[..|script| - 1]);
    }
  }

  /** Commands about the newest section change that section and nothing else. */
  lemma {:induction false} ExecOnLast(base: Config, s: Section, script: seq<Command>)
    requires forall c :: c in script ==> About(c, s)
    ensures ExecAll(base + [s], script) == base + [EditAll(s, script)]
    decreases |script|
  {
    if script != [] {
      var front, c := script[..|script| - 1], script[|script| - 1];
      ExecOnLast(base, s, front);
      EditKeepsPlace(s, front);
      assert c in script;
      var t := EditAll(s, front);
      assert Matches(c.ref, t);
      assert (base + [t])[|base|] == t;
      assert (base + [t])[|base| := Edit(t, c)] == base + [Edit(t, c)];
    }
  }

  lemma {:induction false} EditSetList(s: Section, ref: Ref, option: string, items: seq<string>)
    requires option !in s.options
    ensures EditAll(s, SetList(ref, option, items)) == s.(options := With(s.options, option, ListValue(items)))
    decreases |items|
  {
    if items != [] {
      var front, last := items[..|items| - 1], items[|items| - 1];
      EditSetList(s, ref, option, front);
      EditConcat(s, SetList(ref, option, front), [AddToList(ref, option, last)]);
      var t := EditAll(s, SetList(ref, option, front));
      EditOne(t, AddToList(ref, option, last));
      AppendOne(s.options, option, front, last);
      assert front + [last] == items;
    }
  }

  lemma AppendOne(options: map<string, Value>, option: string, front: seq<string>, last: string)
    requires option !in options
    ensures var t := With(options, option, ListValue(front));
      t[option := Appended(t, option, last)] == options[option := List(front + [last])]
  {
    assert front == [] ==> front + [last] == [last];
    var t := With(options, option, ListValue(front));
    assert Appended(t, option, last) == List(front + [last]);
  }

  lemma {:induction false} SetListRefs(ref: Ref, option: string, items: seq<string>)
    ensures forall c :: c in SetList(ref, option, items) ==> c.AddToList? && c.ref == ref
    decreases |items|
  {
    if items != [] {
      SetListRefs(ref, option, items[..|items| - 1]);
    }
  }

  lemma EditOne(s: Section, c: Command)
    ensures EditAll(s, [c]) == Edit(s, c)
  {
    assert [c][..0] == [];
  }

  lemma EditSetText(s: Section, ref: Ref, option: string, text: Option<string>)
    ensures EditAll(s, SetText(ref, option, text)) == s.(options := With(s.options, option, TextValue(text)))
    ensures forall c :: c in SetText(ref, option, text) ==> c.SetOption? && c.ref == ref
  {
    if Present(text) {
      EditOne(s, SetOption(ref, option, text.value));
    }
  }

  lemma EditSetNumber(s: Section, ref: Ref, option: string, number: Option<int>)
    ensures EditAll(s, SetNumber(ref, option, number)) == s.(options := With(s.options, option, NumberValue(number)))
    ensures forall c :: c in SetNumber(ref, option, number) ==> c.SetOption? && c.ref == ref
  {
    if number.Some? {
      EditOne(s, SetOption(ref, option, IntText(number.value)));
    }
  }

  /** Commands about one reference that turn one section into another. */
  ghost predicate Makes(ref: Ref, s: Section, script: seq<Command>, t: Section) {
    && EditAll(s, script) == t
    && forall c :: c in script ==> (c.SetOption? || c.AddToList?) && c.ref == ref
  }

  lemma MakesThen(ref: Ref, s: Section, first: seq<Command>, t: Section, second: seq<Command>, u: Section)
    requires Makes(ref, s, first, t) && Makes(ref, t, second, u)
    ensures Makes(ref, s, first + second, u)
  {
    EditConcat(s, first, second);
  }

  lemma MakesText(ref: Ref, s: Section, script: seq<Command>, t: Section, option: string, text: Option<string>)
    requires Makes(ref, s, script, t)
    ensures Makes(ref, s, script + SetText(ref, option, text), t.(options := With(t.options, option, TextValue(text))))
  {
    EditSetText(t, ref, option, text);
    MakesThen(ref, s, script, t, SetText(ref, option, text), t.(options := With(t.options, option, TextValue(text))));
  }

  lemma MakesNumber(ref: Ref, s: Section, script: seq<Command>, t: Section, option: string, number: Option<int>)
    requires Makes(ref, s, script, t)
    ensures Makes(ref, s, script + SetNumber(ref, option, number), t.(options := With(t.options, option, NumberValue(number))))
  {
    EditSetNumber(t, ref, option, number);
    MakesThen(ref, s, script, t, SetNumber(ref, option, number), t.(options := With(t.options, option, NumberValue(number))));
  }

  lemma MakesList(ref: Ref, s: Section, script: seq<Command>, t: Section, option: string, items: seq<string>)
    requires Makes(ref, s, script, t) && option !in t.options
    ensures Makes(ref, s, script + SetList(ref, option, items), t.(options := With(t.options, option, ListValue(items))))
  {
    EditSetList(t, ref, option, items);
    SetListRefs(ref, option, items);
    MakesThen(ref, s, script, t, SetList(ref, option, items), t.(options := With(t.options, option, ListValue(items))));
  }

  lemma MakesOne(ref: Ref, s: Section, script: seq<Command>, t: Section, option: string, text: string)
    requires Makes(ref, s, script, t)
    ensures Makes(ref, s, script + [SetOption(ref, option, text)], t.(options := With(t.options, option, Some(Scalar(text)))))
  {
    EditOne(t, SetOption(ref, option, text));
    MakesThen(ref, s, script, t, [SetOption(ref, option, text)], t.(options := With(t.options, option, Some(Scalar(text)))));
  }

  lemma MakesInterface(name: string, parsed: Parsed)
    ensures Makes(Named(name), Section(Some(name), "interface", map[]), InterfaceOptionCommands(name, parsed), InterfaceSection(name, parsed))
  {
    var ref, s := Named(name), Section(Some(name), "interface", map[]);
    var c1 := [SetOption(ref, "proto", "wireguard")];
    var t1 := s.(options := map["proto" := Scalar("wireguard")]);
    EditOne(s, SetOption(ref, "proto", "wireguard"));
    assert Makes(ref, s, c1, t1);
    var c2, t2 := c1 + SetText(ref, "private_key", parsed.privateKey), t1.(options := With(t1.options, "private_key", TextValue(parsed.privateKey)));
    MakesText(ref, s, c1, t1, "private_key", parsed.privateKey);
    OptionNames();
    var c3, t3 := c2 + SetList(ref, "addresses", parsed.addresses), t2.(options := With(t2.options, "addresses", ListValue(parsed.addresses)));
    MakesList(ref, s, c2, t2, "addresses", parsed.addresses);
    var c4, t4 := c3 + SetNumber(ref, "listen_port", parsed.listenPort), t3.(options := With(t3.options, "listen_port", NumberValue(parsed.listenPort)));
    MakesNumber(ref, s, c3, t3, "listen_port", parsed.listenPort);
    var c5, t5 := c4 + SetNumber(ref, "mtu", parsed.mtu), t4.(options := With(t4.options, "mtu", NumberValue(parsed.mtu)));
    MakesNumber(ref, s, c4, t4, "mtu", parsed.mtu);
    MakesText(ref, s, c5, t5, "fwmark", parsed.fwmark);
  }

  lemma OptionNames()
    ensures "addresses" != "proto" && "addresses" != "private_key"
    ensures "allowed_ips" != "public_key" && "allowed_ips" != "preshared_key"
  {
    assert "addresses"[0] == 'a' && "proto"[0] == 'p' && "private_key"[0] == 'p';
    assert "allowed_ips"[0] == 'a' && "public_key"[0] == 'p' && "preshared_key"[0] == 'p';
  }

  lemma MakesPeer(name: string, route: string, p: ParsedPeer)
    ensures Makes(Added(PeerKind(name)), Section(None, PeerKind(name), map[]), PeerOptionCommands(name, route, p), PeerSection(name, route, p))
  {
    var ref, s := Added(PeerKind(name)), Section(None, PeerKind(name), map[]);
    var endpoint := AgentSplitEndpoint(p.endpoint);
    EditSetText(s, ref, "public_key", p.publicKey);
    var c1, t1 := SetText(ref, "public_key", p.publicKey), s.(options := With(s.options, "public_key", TextValue(p.publicKey)));
    var c2, t2 := c1 + SetText(ref, "preshared_key", p.presharedKey), t1.(options := With(t1.options, "preshared_key", TextValue(p.presharedKey)));
    MakesText(ref, s, c1, t1, "preshared_key", p.presharedKey);
    OptionNames();
    var c3, t3 := c2 + SetList(ref, "allowed_ips", p.allowedIps), t2.(options := With(t2.options, "allowed_ips", ListValue(p.allowedIps)));
    MakesList(ref, s, c2, t2, "allowed_ips", p.allowedIps);
    var c4, t4 := c3 + [SetOption(ref, "route_allowed_ips", route)], t3.(options := With(t3.options, "route_allowed_ips", Some(Scalar(route))));
    MakesOne(ref, s, c3, t3, "route_allowed_ips", route);
    var c5, t5 := c4 + SetText(ref, "endpoint_host", endpoint.host), t4.(options := With(t4.options, "endpoint_host", TextValue(endpoint.host)));
    MakesText(ref, s, c4, t4, "endpoint_host", endpoint.host);
    var port := UsablePort(endpoint.port);
    var c6, t6 := c5 + SetNumber(ref, "endpoint_port", port), t5.(options := With(t5.options, "endpoint_port", NumberValue(port)));
    MakesNumber(ref, s, c5, t5, "endpoint_port", port);
    MakesNumber(ref, s, c6, t6, "persistent_keepalive", p.keepalive);
  }

  ghost predicate NoneNamed(config: Config, name: string) {
    forall s :: s in config ==> s.name != Some(name)
  }

  lemma {:induction false} NotResolved(config: Config, name: string)
    requires NoneNamed(config, name)
    ensures Resolve(config, Named(name)).None?
  {
    if config != [] {
      assert config[|config| - 1] in config;
      NotResolved(config[..|config| - 1], name);
    }
  }

  /** Adding a section and editing it appends the edited section. */
  lemma AddAndEdit(config: Config, c: Command, ref: Ref, s: Section, script: seq<Command>, t: Section)
    requires Exec(config, c) == config + [s] && Matches(ref, s) && Makes(ref, s, script, t)
    ensures ExecAll(config, [c] + script) == config + [t]
  {
    ExecConcat(config, [c], script);
    assert [c][..0] == [] && ExecAll(config, [c]) == Exec(config, c);
    ExecOnLast(config, s, script);
  }

  lemma {:induction false} PeersBuilt(config: Config, name: string, route: string, peers: seq<ParsedPeer>)
    ensures ExecAll(config, PeerCommands(name, route, peers)) == config + PeerSections(name, route, peers)
    decreases |peers|
  {
    if peers == [] {
      assert config + [] == config;
    } else {
      var front, last := peers[..|peers| - 1], peers[|peers| - 1];
      var before := config + PeerSections(name, route, front);
      PeersBuilt(config, name, route, front);
      MakesPeer(name, route, last);
      var c, kind := AddSection(PeerKind(name)), PeerKind(name);
      AddAndEdit(before, c, Added(kind), Section(None, kind, map[]), PeerOptionCommands(name, route, last), PeerSection(name, route, last));
      ExecConcat(config, PeerCommands(name, route, front), [c] + PeerOptionCommands(name, route, last));
      assert before + [PeerSection(name, route, last)] == config + PeerSections(name, route, peers);
    }
  }

  lemma InterfaceBuilt(config: Config, name: string, parsed: Parsed)
    requires NoneNamed(config, name)
    ensures ExecAll(config, [SetSection(name, "interface")] + InterfaceOptionCommands(name, parsed))
         == config + [InterfaceSection(name, parsed)]
  {
    NotResolved(config, name);
    MakesInterface(name, parsed);
    AddAndEdit(config, SetSection(name, "interface"), Named(name), Section(Some(name), "interface", map[]),
               InterfaceOptionCommands(name, parsed), InterfaceSection(name, parsed));
  }

  /** On a configuration without the interface the commands append exactly its deployment. */
  lemma ScriptBuilds(config: Config, name: string, parsed: Parsed)
    requires NoneNamed(config, name)
    ensures ExecAll(config, Script(name, parsed)) == config + Deployment(name, parsed)
  {
    var route := RouteFlag(parsed);
    InterfaceBuilt(config, name, parsed);
    PeersBuilt(config + [InterfaceSection(name, parsed)], name, route, parsed.peers);
    ExecConcat(config, [SetSection(name, "interface")] + InterfaceOptionCommands(name, parsed), PeerCommands(name, route, parsed.peers));
    Regroup(config, InterfaceSection(name, parsed), PeerSections(name, route, parsed.peers));
  }

  lemma Regroup(config: Config, s: Section, rest: Config)
    ensures config + [s] + rest == config + ([s] + rest)
  {
  }

  // ----------------------------------------------------------- clearing the old state

  /** What is left after the deletions, of which some may fail. */
  function Cleared(config: Config, name: string, indices: seq<int>, works: nat -> bool): Config {
    var left := DeleteEach(config, PeerKind(name), indices, works, 0);
    if works(|indices|) then DeleteNamed(left, name) else left
  }

  /** All sections that do not belong to the interface. */
  function Rest(config: Config, name: string): Config {
    DeleteNamed(Without(config, PeerKind(name)), name)
  }

  lemma {:induction false} NoneNamedLeft(config: Config, name: string)
    ensures NoneNamed(DeleteNamed(config, name), name)
  {
    if config != [] {
      NoneNamedLeft(config[..|config| - 1], name);
    }
  }

  /** The listing announces every peer section there is. */
  ghost predicate Announces(lines: seq<string>, name: string, config: Config) {
    forall i :: 0 <= i < Count(config, PeerKind(name)) ==> HeaderLine(name, i) in lines
  }

  predicate AllWork(works: nat -> bool, first: nat, last: nat) {
    forall j :: first <= j < last ==> works(j)
  }

  /** With a complete listing and no failing deletion, exactly the interface's sections are gone. */
  lemma ClearedExactly(config: Config, name: string, lines: seq<string>, works: nat -> bool)
    requires Announces(lines, name, config)
    requires AllWork(works, 0, |PeerIndices(name, lines)| + 1)
    ensures Cleared(config, name, PeerIndices(name, lines), works) == Rest(config, name)
  {
    var kind, m := PeerKind(name), Count(config, PeerKind(name));
    ListingCovers(name, lines, m);
    KeepAll(config, kind, m);
    DescendingDeletes(config, kind, m, PeerIndices(name, lines), works, 0);
  }

  // ----------------------------------------------------------- several deployments

  lemma {:induction false} WithoutConcat(a: Config, b: Config, kind: string)
    ensures Without(a + b, kind) == Without(a, kind) + Without(b, kind)
    decreases |b|
  {
    if b == [] {
      assert a + b == a;
    } else {
      assert (a + b)[..|a + b| - 1] == a + b[..|b| - 1];
      WithoutConcat(a, b[..|b| - 1], kind);
    }
  }

  lemma {:induction false} DeleteNamedConcat(a: Config, b: Config, name: string)
    ensures DeleteNamed(a + b, name) == DeleteNamed(a, name) + DeleteNamed(b, name)
    decreases |b|
  {
    if b == [] {
      assert a + b == a;
    } else {
      assert (a + b)[..|a + b| - 1] == a + b[..|b| - 1];
      DeleteNamedConcat(a, b[..|b| - 1], name);
    }
  }

  lemma RestConcat(a: Config, b: Config, name: string)
    ensures Rest(a + b, name) == Rest(a, name) + Rest(b, name)
  {
    WithoutConcat(a, b, PeerKind(name));
    DeleteNamedConcat(Without(a, PeerKind(name)), Without(b, PeerKind(name)), name);
  }

  lemma {:induction false} RestOfOwnPeers(name: string, route: string, peers: seq<ParsedPeer>)
    ensures Without(PeerSections(name, route, peers), PeerKind(name)) == []
  {
    if peers != [] {
      RestOfOwnPeers(name, route, peers[..|peers| - 1]);
    }
  }

  lemma RestOfOwn(name: string, parsed: Parsed)
    ensures Rest(Deployment(name, parsed), name) == []
  {
    var route, first := RouteFlag(parsed), [InterfaceSection(name, parsed)];
    RestOfOwnPeers(name, route, parsed.peers);
    RestConcat(first, PeerSections(name, route, parsed.peers), name);
    RestOfOne(InterfaceSection(name, parsed), name);
  }

  lemma RestOfOne(s: Section, name: string)
    ensures Rest([s], name) == if s.kind == PeerKind(name) || s.name == Some(name) then [] else [s]
  {
    assert [s][..0] == [];
    assert Without([s], PeerKind(name)) == if s.kind == PeerKind(name) then [] else [s];
    assert DeleteNamed([s], name) == if s.name == Some(name) then [] else [s];
  }

  lemma {:induction false} RestOfOtherPeers(name: string, other: string, route: string, peers: seq<ParsedPeer>)
    requires name != other
    ensures Rest(PeerSections(other, route, peers), name) == PeerSections(other, route, peers)
  {
    if peers != [] {
      var front, last := PeerSections(other, route, peers[..|peers| - 1]), PeerSection(other, route, peers[|peers| - 1]);
      RestOfOtherPeers(name, other, route, peers[..|peers| - 1]);
      RestConcat(front, [last], name);
      KindsDiffer(name, other);
      RestOfOne(last, name);
    }
  }

  lemma KindsDiffer(name: string, other: string)
    ensures PeerKind(name) != "interface"
    ensures name != other ==> PeerKind(name) != PeerKind(other)
  {
    assert PeerKind(name)[0] == 'w';
    assert PeerKind(name)[10..] == name && PeerKind(other)[10..] == other;
  }

  /** A deployment replaces the interface's earlier one and keeps those of other interfaces. */
  lemma DeploymentsAreSeparate(config: Config, name: string, other: string, parsed: Parsed)
    ensures Rest(config + Deployment(name, parsed), name) == Rest(config, name)
    ensures name != other ==> Rest(config + Deployment(other, parsed), name) == Rest(config, name) + Deployment(other, parsed)
  {
    RestConcat(config, Deployment(name, parsed), name);
    RestOfOwn(name, parsed);
    if name != other {
      var first, peers := [InterfaceSection(other, parsed)], PeerSections(other, RouteFlag(parsed), parsed.peers);
      RestConcat(config, Deployment(other, parsed), name);
      RestConcat(first, peers, name);
      RestOfOtherPeers(name, other, RouteFlag(parsed), parsed.peers);
      KindsDiffer(name, other);
      RestOfOne(InterfaceSection(other, parsed), name);
      Regroup(Rest(config, name), InterfaceSection(other, parsed), peers);
    }
  }

  // ---------------------------------------------------------------- the deployment

  /** How the commands and the file system answer. */
  datatype Replies = Replies(
    listing: string,       // the output of the listing
    works: nat -> bool,    // whether the k-th deletion, setting or addition works
    reverts: bool,         // whether staged changes can be dropped after a failure
    commits: bool,
    comesUp: bool,         // whether the interface comes up
    restores: bool)        // whether the snapshot can be written back

  /** Every setting and addition works, and so does the commit. */
  predicate Runs(name: string, parsed: Parsed, replies: Replies) {
    var first := |PeerIndices(name, SplitLines(replies.listing))| + 1;
    AllWork(replies.works, first, first + |Script(name, parsed)|) && replies.commits
  }

  /** The configuration with the interface's sections deleted and its new ones built. */
  function Installed(config: Config, name: string, parsed: Parsed, replies: Replies): Config {
    ExecAll(Cleared(config, name, PeerIndices(name, SplitLines(replies.listing)), replies.works), Script(name, parsed))
  }

  /**
  When the listing is complete and no deletion fails, what the deployment commits is the
  parsed configuration beside the untouched rest, whatever the interface had before.
   */
  lemma TranslationIsExact(config: Config, name: string, parsed: Parsed, replies: Replies)
    requires Announces(SplitLines(replies.listing), name, config)
    requires AllWork(replies.works, 0, |PeerIndices(name, SplitLines(replies.listing))| + 1)
    ensures Installed(config, name, parsed, replies) == Rest(config, name) + Deployment(name, parsed)
  {
    ClearedExactly(config, name, SplitLines(replies.listing), replies.works);
    NoneNamedLeft(Without(config, PeerKind(name)), name);
    ScriptBuilds(Rest(config, name), name, parsed);
  }

}
