/**
wg-quick configuration text: the renderer that writes an interface and its peers
in a stable order, and the parser that reads any such file line by line.
 */
module WgQuick {

  import opened Wrappers
  import opened Text
  import opened Endpoint
  import opened Lists

  // ------------------------------------------------------------------ rendering

  datatype Interface = Interface(
    privateKey: Option<string>,
    tunnelIps: seq<string>,
    listenPort: Option<int>,
    dns: seq<string>,
    mtu: Option<int>,
    table: Option<string>,
    fwmark: Option<string>,
    preUp: seq<string>,
    postUp: seq<string>,
    preDown: seq<string>,
    postDown: seq<string>,
    custom: Option<string>)

  datatype Peer = Peer(
    name: Option<string>,
    publicKey: Option<string>,
    presharedKey: Option<string>,
    allowedIps: seq<string>,
    endpointHost: Option<string>,
    endpointPort: Option<int>,
    keepalive: Option<int>,
    custom: Option<string>)

  datatype Assign = Assign(key: string, value: string)

  function AssignLine(a: Assign): string {
    a.key + " = " + a.value
  }

  /** A single value; nothing for a missing or empty one. */
  function Single(key: string, value: Option<string>): seq<Assign> {
    if value.None? || value.value == "" then [] else [Assign(key, value.value)]
  }

  function Number(key: string, value: Option<int>): seq<Assign> {
    if value.None? then [] else [Assign(key, IntText(value.value))]
  }

  function NonEmpty(values: seq<string>): (kept: seq<string>)
    ensures forall v :: v in kept <==> v in values && v != ""
  {
    if values == [] then []
    else (if values[0] == "" then [] else [values[0]]) + NonEmpty(values[1..])
  }

  function JoinCsv(values: seq<string>): string {
    if values == [] then ""
    else if |values| == 1 then values[0]
    else values[0] + ", " + JoinCsv(values[1..])
  }

  /** Several values in one comma-separated field. */
  function Csv(key: string, values: seq<string>): seq<Assign> {
    if NonEmpty(values) == [] then [] else [Assign(key, JoinCsv(NonEmpty(values)))]
  }

  /** A field repeated for each value. */
  function Many(key: string, values: seq<string>): seq<Assign> {
    if values == [] then [] else Single(key, Some(values[0])) + Many(key, values[1..])
  }

  /** The lines of custom configuration, kept in order without blank ones. */
  function Raw(custom: Option<string>): seq<string> {
    if custom.None? then [] else RawLines(SplitLines(custom.value))
  }

  function RawLines(lines: seq<string>): seq<string> {
    if lines == [] then []
    else (if TrimRight(lines[0]) == "" then [] else [TrimRight(lines[0])]) + RawLines(lines[1..])
  }

  function EndpointText(address: string -> Option<Address>, p: Peer): Option<string> {
    if p.endpointHost.Some? && p.endpointHost.value != "" && p.endpointPort.Some? && p.endpointPort.value != 0 then
      Some(FormatEndpoint(address, p.endpointHost.value, p.endpointPort.value))
    else None
  }

  function InterfaceAssigns(i: Interface): seq<Assign> {
    Single("PrivateKey", i.privateKey) + Csv("Address", i.tunnelIps) + Number("ListenPort", i.listenPort)
    + Csv("DNS", i.dns) + Number("MTU", i.mtu) + Single("Table", i.table) + Single("FwMark", i.fwmark)
    + Many("PreUp", i.preUp) + Many("PostUp", i.postUp) + Many("PreDown", i.preDown) + Many("PostDown", i.postDown)
  }

  function PeerAssigns(address: string -> Option<Address>, p: Peer): seq<Assign> {
    Single("PublicKey", p.publicKey) + Single("PresharedKey", p.presharedKey) + Csv("AllowedIPs", p.allowedIps)
    + Single("Endpoint", EndpointText(address, p)) + Number("PersistentKeepalive", p.keepalive)
  }

  function AssignLines(assigns: seq<Assign>): seq<string> {
    if assigns == [] then [] else [AssignLine(assigns[0])] + AssignLines(assigns[1..])
  }

  function Header(section: string): string {
    "[" + section + "]"
  }

  function InterfaceLines(i: Interface): seq<string> {
    [Header("Interface")] + Raw(i.custom) + AssignLines(InterfaceAssigns(i))
  }

  function PeerLines(address: string -> Option<Address>, p: Peer): seq<string> {
    ["", Header("Peer")] + Raw(p.custom) + AssignLines(PeerAssigns(address, p))
  }

  /** The lines of one peer as a function, to be applied to each peer in turn. */
  function PeerWriter(address: string -> Option<Address>): Peer -> seq<string> {
    p => PeerLines(address, p)
  }

  /** The text of a configuration whose peers are already in order. */
  function RenderOrdered(address: string -> Option<Address>, i: Interface, peers: seq<Peer>): string {
    TrimRight(JoinLines(InterfaceLines(i) + FlatMap(PeerWriter(address), peers))) + "\n"
  }

  // ------------------------------------------------------------- order of peers

  function OrEmpty(value: Option<string>): string {
    if value.None? then "" else value.value
  }

  /** Lexicographic order of strings by code point. */
  predicate TextLe(a: string, b: string) {
    a == "" || (b != "" && (a[0] < b[0] || (a[0] == b[0] && TextLe(a[1..], b[1..]))))
  }

  predicate PeerLe(a: Peer, b: Peer) {
    if OrEmpty(a.name) != OrEmpty(b.name) then TextLe(OrEmpty(a.name), OrEmpty(b.name))
    else TextLe(OrEmpty(a.publicKey), OrEmpty(b.publicKey))
  }

  /** Puts a peer behind every peer that does not come after it. */
  function InsertPeer(sorted: seq<Peer>, p: Peer): seq<Peer> {
    if sorted == [] || PeerLe(sorted[|sorted| - 1], p) then sorted + [p]
    else InsertPeer(sorted[..|sorted| - 1], p) + [sorted[|sorted| - 1]]
  }

  /** The stable order by name, then public key. */
  function SortPeers(peers: seq<Peer>): seq<Peer> {
    if peers == [] then [] else InsertPeer(SortPeers(peers[..|peers| - 1]), peers[|peers| - 1])
  }

  function Render(address: string -> Option<Address>, i: Interface, peers: seq<Peer>): string {
    RenderOrdered(address, i, SortPeers(peers))
  }

  /** The renderer as it runs: the lines of the interface, then those of each peer in order. */
  method RenderWgQuick(address: string -> Option<Address>, i: Interface, peers: seq<Peer>) returns (text: string)
    ensures text == Render(address, i, peers)
  {
    var lines := AppendEach(PeerWriter(address), SortPeers(peers), InterfaceLines(i));
    text := TrimRight(JoinLines(lines)) + "\n";
  }

  // -------------------------------------------------------------------- parsing

  datatype Warning =
    | UnsupportedSection(line: nat, section: string)
    | MalformedLine(line: nat)
    | KeyOutsideSection(line: nat)
    | InvalidInteger(line: nat, field: string)
    | UnsupportedField(line: nat, key: string)

  datatype ParsedPeer = ParsedPeer(
    publicKey: Option<string>,
    presharedKey: Option<string>,
    allowedIps: seq<string>,
    endpoint: Option<string>,
    keepalive: Option<int>,
    extras: map<string, string>,
    warnings: seq<Warning>)

  datatype Parsed = Parsed(
    name: string,
    privateKey: Option<string>,
    addresses: seq<string>,
    listenPort: Option<int>,
    dns: seq<string>,
    mtu: Option<int>,
    table: Option<string>,
    fwmark: Option<string>,
    preUp: seq<string>,
    postUp: seq<string>,
    preDown: seq<string>,
    postDown: seq<string>,
    peers: seq<ParsedPeer>,
    extras: map<string, string>,
    warnings: seq<Warning>)

  const EMPTY_PEER := ParsedPeer(None, None, [], None, None, map[], [])

  function EmptyParsed(name: string): Parsed {
    Parsed(name, None, [], None, [], None, None, None, [], [], [], [], [], map[], [])
  }

  function LowerChar(c: char): char {
    if 'A' <= c <= 'Z' then c - 'A' + 'a' else c
  }

  function Lower(s: string): (r: string)
    ensures |r| == |s| && forall i :: 0 <= i < |s| ==> r[i] == LowerChar(s[i])
  {
    seq(|s|, i requires 0 <= i < |s| => LowerChar(s[i]))
  }

  /** The first place a character occurs, or the length. */
  function IndexOf(s: string, c: char): (i: nat)
    ensures i <= |s|
  {
    if s == "" || s[0] == c then 0 else 1 + IndexOf(s[1..], c)
  }

  /** A character that is not in the text before it is found there. */
  lemma {:induction false} IndexOfFirst(before: string, c: char, rest: string)
    requires c !in before && (rest == "" || rest[0] == c)
    ensures IndexOf(before + rest, c) == |before|
  {
    if before == "" {
      assert before + rest == rest;
    } else {
      assert before[0] in before && (before + rest)[1..] == before[1..] + rest;
      IndexOfFirst(before[1..], c, rest);
    }
  }

  function SplitCsv(s: string): seq<string>
    decreases |s|
  {
    var i := IndexOf(s, ',');
    var head := Trim(s[..i]);
    (if head == "" then [] else [head]) + (if i == |s| then [] else SplitCsv(s[i + 1..]))
  }

  datatype LineKind = Skip | SectionHeader(name: string) | Malformed | Assignment(assign: Assign)

  /** What a trimmed line is, before its section is looked at. */
  function ClassifyTrimmed(line: string): LineKind {
    var i := IndexOf(line, '=');
    if line == "" || line[0] == '#' || line[0] == ';' then Skip
    else if line[0] == '[' && line[|line| - 1] == ']' then SectionHeader(Lower(Trim(line[1..|line| - 1])))
    else if i == |line| then Malformed
    else Assignment(Assign(Trim(line[..i]), Trim(line[i + 1..])))
  }

  function Classify(raw: string): LineKind {
    ClassifyTrimmed(Trim(raw))
  }

  datatype Field =
    | PrivateKey | AddressField | ListenPort | Dns | Mtu | TableName | FwMark | PreUp | PostUp | PreDown | PostDown
    | PublicKey | PresharedKey | AllowedIps | EndpointField | Keepalive
    | UnknownField

  function InterfaceField(key: string): Field {
    var k := Lower(key);
    if k == "privatekey" then PrivateKey
    else if k == "address" then AddressField
    else if k == "listenport" then ListenPort
    else if k == "dns" then Dns
    else if k == "mtu" then Mtu
    else if k == "table" then TableName
    else if k == "fwmark" then FwMark
    else if k == "preup" then PreUp
    else if k == "postup" then PostUp
    else if k == "predown" then PreDown
    else if k == "postdown" then PostDown
    else UnknownField
  }

  function PeerField(key: string): Field {
    var k := Lower(key);
    if k == "publickey" then PublicKey
    else if k == "presharedkey" then PresharedKey
    else if k == "allowedips" then AllowedIps
    else if k == "endpoint" then EndpointField
    else if k == "persistentkeepalive" then Keepalive
    else UnknownField
  }

  function IntWarnings(value: string, field: string, line: nat): seq<Warning> {
    if ParseInt(value).None? then [InvalidInteger(line, field)] else []
  }

  function ApplyInterface(p: Parsed, a: Assign, line: nat): Parsed {
    var v := a.value;
    match InterfaceField(a.key)
    case PrivateKey => p.(privateKey := Some(v))
    case AddressField => p.(addresses := p.addresses + SplitCsv(v))
    case ListenPort => p.(listenPort := ParseInt(v), warnings := p.warnings + IntWarnings(v, "ListenPort", line))
    case Dns => p.(dns := p.dns + SplitCsv(v))
    case Mtu => p.(mtu := ParseInt(v), warnings := p.warnings + IntWarnings(v, "MTU", line))
    case TableName => p.(table := Some(v))
    case FwMark => p.(fwmark := Some(v))
    case PreUp => p.(preUp := p.preUp + [v])
    case PostUp => p.(postUp := p.postUp + [v])
    case PreDown => p.(preDown := p.preDown + [v])
    case PostDown => p.(postDown := p.postDown + [v])
    case _ => p.(extras := p.extras[a.key := v], warnings := p.warnings + [UnsupportedField(line, a.key)])
  }

  function ApplyPeer(p: ParsedPeer, a: Assign, line: nat): ParsedPeer {
    var v := a.value;
    match PeerField(a.key)
    case PublicKey => p.(publicKey := Some(v))
    case PresharedKey => p.(presharedKey := Some(v))
    case AllowedIps => p.(allowedIps := p.allowedIps + SplitCsv(v))
    case EndpointField => p.(endpoint := Some(v))
    case Keepalive => p.(keepalive := ParseInt(v), warnings := p.warnings + IntWarnings(v, "PersistentKeepalive", line))
    case _ => p.(extras := p.extras[a.key := v], warnings := p.warnings + [UnsupportedField(line, a.key)])
  }

  /** The section the parser is in; in a peer section the current peer is the last one. */
  datatype Where = Nowhere | InInterface | InPeer

  datatype Progress = Progress(parsed: Parsed, where: Where)

  function ParseLine(st: Progress, raw: string, line: nat): Progress {
    TakeLine(st, Classify(raw), line)
  }

  /** What a line of some kind does, by the section it stands in. */
  function TakeLine(st: Progress, kind: LineKind, line: nat): Progress {
    var p := st.parsed;
    match kind
    case Skip => st
    case SectionHeader(name) =>
      if name == "peer" then Progress(p.(peers := p.peers + [EMPTY_PEER]), InPeer)
      else if name == "interface" then st.(where := InInterface)
      else Progress(p.(warnings := p.warnings + [UnsupportedSection(line, name)]), Nowhere)
    case Malformed => st.(parsed := p.(warnings := p.warnings + [MalformedLine(line)]))
    case Assignment(a) =>
      if st.where.InInterface? then st.(parsed := ApplyInterface(p, a, line))
      else if st.where.InPeer? && p.peers != [] then
        var last := |p.peers| - 1;
        st.(parsed := p.(peers := p.peers[last := ApplyPeer(p.peers[last], a, line)]))
      else st.(parsed := p.(warnings := p.warnings + [KeyOutsideSection(line)]))
  }

  function Parse(content: string, name: string): Parsed {
    Fold(ParseLine, Progress(EmptyParsed(name), Nowhere), SplitLines(content), 1).parsed
  }

  /** The parser as it runs: one pass over the lines, updating the result as it goes. */
  method ParseWgQuick(content: string, name: string) returns (parsed: Parsed)
    ensures parsed == Parse(content, name)
  {
    var last := FoldLoop(ParseLine, Progress(EmptyParsed(name), Nowhere), SplitLines(content), 1);
    parsed := last.parsed;
  }

}
