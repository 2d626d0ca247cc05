/** Each rendered line, and each rendered section, is read back as what it was rendered from. */
module WgFields {

  import opened Wrappers
  import opened Text
  import opened Endpoint
  import opened WgQuick

  // ------------------------------------------------------------ one line at once

  predicate IsLetter(c: char) {
    'A' <= c <= 'Z' || 'a' <= c <= 'z'
  }

  /** A field name: letters only. */
  predicate IsName(key: string) {
    key != "" && forall i :: 0 <= i < |key| ==> IsLetter(key[i])
  }

  lemma NameIsPlain(key: string)
    requires IsName(key)
    ensures Plain(key) && '=' !in key && key[0] != '#' && key[0] != ';' && key[0] != '['
  {
  }

  predicate Plain(value: string) {
    Trimmed(value) && OneLine(value)
  }

  predicate AssignOk(a: Assign) {
    IsName(a.key) && Plain(a.value) && a.value != ""
  }

  lemma TrimSpaceAround(s: string)
    requires Trimmed(s) && s != ""
    ensures Trim(s + " ") == s && Trim(" " + s) == s
  {
    TrimIsTrimmed(s);
    assert Blank(" ");
    TrimRightBlank(s, " ");
    TrimLeftBlank(" ", s);
    assert TrimLeft(s + " ") == s + " ";
  }

  /** A rendered line is read as the assignment it was rendered from. */
  lemma ClassifyAssign(a: Assign)
    requires AssignOk(a)
    ensures Classify(AssignLine(a)) == Assignment(a)
  {
    var line := AssignLine(a);
    var i := |a.key| + 1;
    NameIsPlain(a.key);
    assert line == (a.key + " ") + ("= " + a.value);
    IndexOfFirst(a.key + " ", '=', "= " + a.value);
    assert line[..i] == a.key + " " && line[i + 1..] == " " + a.value;
    TrimSpaceAround(a.key);
    TrimSpaceAround(a.value);
    AssignLineEnds(a);
    TrimIsTrimmed(line);
    ClassifyAt(line, i);
  }

  lemma AssignLineEnds(a: Assign)
    requires AssignOk(a)
    ensures var line := AssignLine(a);
      line != "" && line[0] == a.key[0] && !IsSpace(line[|line| - 1]) && Plain(line)
  {
    NameIsPlain(a.key);
    var line := AssignLine(a);
    assert line[0] == a.key[0] && line[|line| - 1] == a.value[|a.value| - 1];
    assert OneLine(" = ");
  }

  lemma ClassifyAt(line: string, i: nat)
    requires line != "" && line[0] != '#' && line[0] != ';' && line[0] != '['
    requires i < |line| && IndexOf(line, '=') == i
    ensures ClassifyTrimmed(line) == Assignment(Assign(Trim(line[..i]), Trim(line[i + 1..])))
  {
  }

  lemma ClassifyHeader(name: string)
    requires Trimmed(name)
    ensures Classify(Header(name)) == SectionHeader(Lower(name))
  {
    var line := Header(name);
    assert line[1..|line| - 1] == name;
    TrimIsTrimmed(line);
    TrimIsTrimmed(name);
  }

  lemma HeaderNames()
    ensures Lower("Interface") == "interface" && Lower("Peer") == "peer"
    ensures IsName("Interface") && IsName("Peer")
  {
  }

  lemma InterfaceFieldNames()
    ensures InterfaceField("PrivateKey") == PrivateKey
    ensures InterfaceField("Address") == AddressField
    ensures InterfaceField("ListenPort") == ListenPort
    ensures InterfaceField("DNS") == Dns
    ensures InterfaceField("MTU") == Mtu
    ensures InterfaceField("Table") == TableName
    ensures InterfaceField("FwMark") == FwMark
  {
    assert Lower("PrivateKey") == "privatekey";
    assert Lower("Address") == "address";
    assert Lower("ListenPort") == "listenport";
    assert Lower("DNS") == "dns";
    assert Lower("MTU") == "mtu";
    assert Lower("Table") == "table";
    assert Lower("FwMark") == "fwmark";
  }

  lemma HookFieldNames()
    ensures InterfaceField("PreUp") == PreUp
    ensures InterfaceField("PostUp") == PostUp
    ensures InterfaceField("PreDown") == PreDown
    ensures InterfaceField("PostDown") == PostDown
  {
    assert Lower("PreUp") == "preup";
    assert Lower("PostUp") == "postup";
    assert Lower("PreDown") == "predown";
    assert Lower("PostDown") == "postdown";
  }

  lemma PeerFieldNames()
    ensures PeerField("PublicKey") == PublicKey
    ensures PeerField("PresharedKey") == PresharedKey
    ensures PeerField("AllowedIPs") == AllowedIps
    ensures PeerField("Endpoint") == EndpointField
    ensures PeerField("PersistentKeepalive") == Keepalive
  {
    assert Lower("PublicKey") == "publickey";
    assert Lower("PresharedKey") == "presharedkey";
    assert Lower("AllowedIPs") == "allowedips";
    assert Lower("Endpoint") == "endpoint";
    assert Lower("PersistentKeepalive") == "persistentkeepalive";
  }

  lemma InterfaceKeysAreNames()
    ensures IsName("PrivateKey") && IsName("Address") && IsName("ListenPort") && IsName("DNS") && IsName("MTU") && IsName("Table")
    ensures IsName("FwMark") && IsName("PreUp") && IsName("PostUp") && IsName("PreDown") && IsName("PostDown")
  {
  }

  lemma PeerKeysAreNames()
    ensures IsName("PublicKey") && IsName("PresharedKey") && IsName("AllowedIPs") && IsName("Endpoint")
    ensures IsName("PersistentKeepalive")
  {
  }

  // -------------------------------------------------------- comma-separated lists

  predicate CsvItem(item: string) {
    Plain(item) && ',' !in item
  }

  ghost predicate CsvItems(items: seq<string>) {
    forall item :: item in items ==> CsvItem(item)
  }

  ghost predicate Plains(values: seq<string>) {
    forall v :: v in values ==> Plain(v)
  }

  predicate Padding(pad: string) {
    pad == "" || pad == " "
  }

  lemma TrimPadded(pad: string, item: string)
    requires Padding(pad) && Trimmed(item) && item != ""
    ensures Trim(pad + item) == item
  {
    TrimSpaceAround(item);
    TrimIsTrimmed(item);
    assert "" + item == item;
  }

  /** Reading one item from the front of a list, whether or not a space precedes it. */
  lemma SplitCsvFirst(pad: string, item: string, rest: string)
    requires Padding(pad) && CsvItem(item) && item != ""
    requires rest == "" || rest[0] == ','
    ensures SplitCsv(pad + item + rest) == [item] + (if rest == "" then [] else SplitCsv(rest[1..]))
  {
    var s, head := pad + item + rest, pad + item;
    IndexOfFirst(head, ',', rest);
    assert s[..|head|] == head;
    assert rest != "" ==> s[|head| + 1..] == rest[1..];
    TrimPadded(pad, item);
  }

  lemma SplitCsvOnly(pad: string, item: string)
    requires Padding(pad) && CsvItem(item) && item != ""
    ensures SplitCsv(pad + item) == [item]
  {
    SplitCsvFirst(pad, item, "");
    assert pad + item + "" == pad + item;
  }

  lemma SplitCsvNext(pad: string, item: string, others: string) returns (space: string)
    requires Padding(pad) && CsvItem(item) && item != ""
    ensures Padding(space) && SplitCsv(pad + (item + ", " + others)) == [item] + SplitCsv(space + others)
  {
    space := " ";
    var rest := ", " + others;
    SplitCsvFirst(pad, item, rest);
    assert pad + item + rest == pad + (item + ", " + others);
    assert rest[1..] == space + others;
  }

  /** Splitting a rendered list gives back its items. */
  lemma {:induction false} SplitJoinedCsv(pad: string, items: seq<string>)
    requires Padding(pad) && items != [] && CsvItems(items) && "" !in items
    ensures SplitCsv(pad + JoinCsv(items)) == items
    decreases |items|
  {
    assert items[0] in items;
    if |items| == 1 {
      SplitCsvOnly(pad, items[0]);
    } else {
      var space := SplitCsvNext(pad, items[0], JoinCsv(items[1..]));
      SplitJoinedCsv(space, items[1..]);
    }
  }

  lemma {:induction false} JoinCsvPlain(items: seq<string>)
    requires items != [] && CsvItems(items) && "" !in items
    ensures JoinCsv(items) != "" && Plain(JoinCsv(items)) && JoinCsv(items)[0] == items[0][0]
  {
    assert items[0] in items;
    if |items| > 1 {
      JoinCsvPlain(items[1..]);
      var s, rest := JoinCsv(items), JoinCsv(items[1..]);
      assert s == items[0] + ", " + rest;
      assert s[|s| - 1] == rest[|rest| - 1];
      assert OneLine(", ");
    }
  }

  /** A list field is read back as the items that were not empty. */
  lemma CsvReadsBack(values: seq<string>)
    requires CsvItems(values) && NonEmpty(values) != []
    ensures SplitCsv(JoinCsv(NonEmpty(values))) == NonEmpty(values)
    ensures Plain(JoinCsv(NonEmpty(values))) && JoinCsv(NonEmpty(values)) != ""
  {
    var items := NonEmpty(values);
    SplitJoinedCsv("", items);
    assert "" + JoinCsv(items) == JoinCsv(items);
    JoinCsvPlain(items);
  }

  // ------------------------------------------------------ the fields of a section

  /** The assignments of a section, carried out one by one from line `n`. */
  function ApplyAll<S>(apply: (S, Assign, nat) -> S, s: S, assigns: seq<Assign>, n: nat): S
    decreases |assigns|
  {
    if assigns == [] then s else ApplyAll(apply, apply(s, assigns[0], n), assigns[1..], n + 1)
  }

  /** The assignments lead from one state to another, on whatever lines they stand. */
  ghost predicate Yields<S(!new)>(apply: (S, Assign, nat) -> S, s: S, assigns: seq<Assign>, t: S) {
    forall n: nat :: ApplyAll(apply, s, assigns, n) == t
  }

  lemma {:induction false} ApplyAllConcat<S>(apply: (S, Assign, nat) -> S, s: S, first: seq<Assign>, second: seq<Assign>, n: nat)
    ensures ApplyAll(apply, s, first + second, n) == ApplyAll(apply, ApplyAll(apply, s, first, n), second, n + |first|)
    decreases |first|
  {
    if first == [] {
      assert first + second == second;
    } else {
      assert (first + second)[1..] == first[1..] + second;
      ApplyAllConcat(apply, apply(s, first[0], n), first[1..], second, n + 1);
    }
  }

  lemma YieldsThen<S(!new)>(apply: (S, Assign, nat) -> S, s: S, first: seq<Assign>, t: S, second: seq<Assign>, u: S)
    requires Yields(apply, s, first, t) && Yields(apply, t, second, u)
    ensures Yields(apply, s, first + second, u)
  {
    forall n: nat ensures ApplyAll(apply, s, first + second, n) == u {
      ApplyAllConcat(apply, s, first, second, n);
    }
  }

  lemma YieldsAtMostOne<S(!new)>(apply: (S, Assign, nat) -> S, s: S, assigns: seq<Assign>, t: S)
    requires |assigns| <= 1 && (assigns == [] ==> s == t)
    requires assigns != [] ==> forall n: nat :: apply(s, assigns[0], n) == t
    ensures Yields(apply, s, assigns, t)
  {
    forall n: nat ensures ApplyAll(apply, s, assigns, n) == t {
      if assigns != [] {
        assert assigns == [assigns[0]] && apply(s, assigns[0], n) == t;
        assert ApplyAll(apply, t, assigns[1..], n + 1) == t;
      }
    }
  }

  /** What remains of an optional value: the empty text is not written. */
  function Kept(value: Option<string>): Option<string> {
    if value == Some("") then None else value
  }

  lemma YieldsPrivateKey(p: Parsed, v: Option<string>)
    requires p.privateKey.None?
    ensures Yields(ApplyInterface, p, Single("PrivateKey", v), p.(privateKey := Kept(v)))
  {
    InterfaceFieldNames();
    YieldsAtMostOne(ApplyInterface, p, Single("PrivateKey", v), p.(privateKey := Kept(v)));
  }

  lemma AddressLine(p: Parsed, text: string, items: seq<string>)
    requires SplitCsv(text) == items
    ensures forall n: nat :: ApplyInterface(p, Assign("Address", text), n) == p.(addresses := p.addresses + items)
  {
    InterfaceFieldNames();
  }

  lemma YieldsAddresses(p: Parsed, v: seq<string>)
    requires CsvItems(v)
    ensures Yields(ApplyInterface, p, Csv("Address", v), p.(addresses := p.addresses + NonEmpty(v)))
  {
    if NonEmpty(v) != [] {
      CsvReadsBack(v);
      AddressLine(p, JoinCsv(NonEmpty(v)), NonEmpty(v));
    }
    assert p.addresses + [] == p.addresses;
    YieldsAtMostOne(ApplyInterface, p, Csv("Address", v), p.(addresses := p.addresses + NonEmpty(v)));
  }

  lemma YieldsListenPort(p: Parsed, v: Option<int>)
    requires p.listenPort.None?
    ensures Yields(ApplyInterface, p, Number("ListenPort", v), p.(listenPort := v))
  {
    InterfaceFieldNames();
    if v.Some? {
      IntTextParses(v.value);
      assert p.warnings + [] == p.warnings;
    }
    YieldsAtMostOne(ApplyInterface, p, Number("ListenPort", v), p.(listenPort := v));
  }

  lemma DnsLine(p: Parsed, text: string, items: seq<string>)
    requires SplitCsv(text) == items
    ensures forall n: nat :: ApplyInterface(p, Assign("DNS", text), n) == p.(dns := p.dns + items)
  {
    InterfaceFieldNames();
  }

  lemma YieldsDns(p: Parsed, v: seq<string>)
    requires CsvItems(v)
    ensures Yields(ApplyInterface, p, Csv("DNS", v), p.(dns := p.dns + NonEmpty(v)))
  {
    if NonEmpty(v) != [] {
      CsvReadsBack(v);
      DnsLine(p, JoinCsv(NonEmpty(v)), NonEmpty(v));
    }
    assert p.dns + [] == p.dns;
    YieldsAtMostOne(ApplyInterface, p, Csv("DNS", v), p.(dns := p.dns + NonEmpty(v)));
  }

  lemma YieldsMtu(p: Parsed, v: Option<int>)
    requires p.mtu.None?
    ensures Yields(ApplyInterface, p, Number("MTU", v), p.(mtu := v))
  {
    InterfaceFieldNames();
    if v.Some? {
      IntTextParses(v.value);
      assert p.warnings + [] == p.warnings;
    }
    YieldsAtMostOne(ApplyInterface, p, Number("MTU", v), p.(mtu := v));
  }

  lemma YieldsTable(p: Parsed, v: Option<string>)
    requires p.table.None?
    ensures Yields(ApplyInterface, p, Single("Table", v), p.(table := Kept(v)))
  {
    InterfaceFieldNames();
    YieldsAtMostOne(ApplyInterface, p, Single("Table", v), p.(table := Kept(v)));
  }

  lemma YieldsFwMark(p: Parsed, v: Option<string>)
    requires p.fwmark.None?
    ensures Yields(ApplyInterface, p, Single("FwMark", v), p.(fwmark := Kept(v)))
  {
    InterfaceFieldNames();
    YieldsAtMostOne(ApplyInterface, p, Single("FwMark", v), p.(fwmark := Kept(v)));
  }

  /** The result with commands added to one of the four hooks. */
  function WithHooks(p: Parsed, hook: Field, commands: seq<string>): Parsed {
    match hook
    case PreUp => p.(preUp := p.preUp + commands)
    case PostUp => p.(postUp := p.postUp + commands)
    case PreDown => p.(preDown := p.preDown + commands)
    case PostDown => p.(postDown := p.postDown + commands)
    case _ => p
  }

  predicate IsHook(key: string) {
    var hook := InterfaceField(key);
    hook.PreUp? || hook.PostUp? || hook.PreDown? || hook.PostDown?
  }

  lemma HookSteps(p: Parsed, hook: Field, first: seq<string>, second: seq<string>)
    ensures WithHooks(WithHooks(p, hook, first), hook, second) == WithHooks(p, hook, first + second)
    ensures WithHooks(p, hook, []) == p
  {
    var q := WithHooks(WithHooks(p, hook, first), hook, second);
    match hook
    case PreUp => assert q.preUp == p.preUp + (first + second);
    case PostUp => assert q.postUp == p.postUp + (first + second);
    case PreDown => assert q.preDown == p.preDown + (first + second);
    case PostDown => assert q.postDown == p.postDown + (first + second);
    case _ =>
    assert p.preUp + [] == p.preUp && p.postUp + [] == p.postUp && p.preDown + [] == p.preDown && p.postDown + [] == p.postDown;
  }

  lemma {:induction false} YieldsHooks(p: Parsed, key: string, values: seq<string>)
    requires IsHook(key)
    ensures Yields(ApplyInterface, p, Many(key, values), WithHooks(p, InterfaceField(key), NonEmpty(values)))
    decreases |values|
  {
    var hook := InterfaceField(key);
    if values == [] {
      HookSteps(p, hook, [], []);
      YieldsAtMostOne(ApplyInterface, p, [], p);
    } else {
      var head := NonEmpty([values[0]]);
      var q := WithHooks(p, hook, head);
      HookSteps(p, hook, head, NonEmpty(values[1..]));
      HookLine(p, key, values[0]);
      YieldsHooks(q, key, values[1..]);
      NonEmptyHead(values);
      YieldsThen(ApplyInterface, p, Single(key, Some(values[0])), q, Many(key, values[1..]), WithHooks(p, hook, NonEmpty(values)));
    }
  }

  lemma NonEmptyHead(values: seq<string>)
    requires values != []
    ensures NonEmpty(values) == NonEmpty([values[0]]) + NonEmpty(values[1..])
  {
    assert [values[0]][1..] == [];
  }

  lemma HookLine(p: Parsed, key: string, value: string)
    requires IsHook(key)
    ensures Yields(ApplyInterface, p, Single(key, Some(value)), WithHooks(p, InterfaceField(key), NonEmpty([value])))
  {
    assert NonEmpty([value]) == if value == "" then [] else [value];
    HookSteps(p, InterfaceField(key), [], []);
    YieldsAtMostOne(ApplyInterface, p, Single(key, Some(value)), WithHooks(p, InterfaceField(key), NonEmpty([value])));
  }

  // ---------------------------------------------------------------- the interface

  /** What the parser makes of a rendered interface, before any peer. */
  function ExpectedInterface(name: string, i: Interface): Parsed {
    Parsed(name, Kept(i.privateKey), NonEmpty(i.tunnelIps), i.listenPort, NonEmpty(i.dns), i.mtu, Kept(i.table),
           Kept(i.fwmark), NonEmpty(i.preUp), NonEmpty(i.postUp), NonEmpty(i.preDown), NonEmpty(i.postDown), [], map[], [])
  }

  function SettingAssigns(i: Interface): seq<Assign> {
    Single("PrivateKey", i.privateKey) + Csv("Address", i.tunnelIps) + Number("ListenPort", i.listenPort)
    + Csv("DNS", i.dns) + Number("MTU", i.mtu) + Single("Table", i.table) + Single("FwMark", i.fwmark)
  }

  function ExpectedSettings(name: string, i: Interface): Parsed {
    ExpectedInterface(name, i).(preUp := [], postUp := [], preDown := [], postDown := [])
  }

  lemma YieldsSettings(name: string, i: Interface)
    requires CsvItems(i.tunnelIps) && CsvItems(i.dns)
    ensures Yields(ApplyInterface, EmptyParsed(name), SettingAssigns(i), ExpectedSettings(name, i))
  {
    var p0 := EmptyParsed(name);
    var p1 := p0.(privateKey := Kept(i.privateKey));
    var p2 := p1.(addresses := NonEmpty(i.tunnelIps));
    var p3 := p2.(listenPort := i.listenPort);
    var p4 := p3.(dns := NonEmpty(i.dns));
    var p5 := p4.(mtu := i.mtu);
    var p6 := p5.(table := Kept(i.table));
    var p7 := p6.(fwmark := Kept(i.fwmark));
    var a1 := Single("PrivateKey", i.privateKey);
    var a2 := a1 + Csv("Address", i.tunnelIps);
    var a3 := a2 + Number("ListenPort", i.listenPort);
    var a4 := a3 + Csv("DNS", i.dns);
    var a5 := a4 + Number("MTU", i.mtu);
    var a6 := a5 + Single("Table", i.table);
    assert [] + NonEmpty(i.tunnelIps) == NonEmpty(i.tunnelIps) && [] + NonEmpty(i.dns) == NonEmpty(i.dns);
    YieldsPrivateKey(p0, i.privateKey);
    YieldsAddresses(p1, i.tunnelIps);
    YieldsThen(ApplyInterface, p0, a1, p1, Csv("Address", i.tunnelIps), p2);
    YieldsListenPort(p2, i.listenPort);
    YieldsThen(ApplyInterface, p0, a2, p2, Number("ListenPort", i.listenPort), p3);
    YieldsDns(p3, i.dns);
    YieldsThen(ApplyInterface, p0, a3, p3, Csv("DNS", i.dns), p4);
    YieldsMtu(p4, i.mtu);
    YieldsThen(ApplyInterface, p0, a4, p4, Number("MTU", i.mtu), p5);
    YieldsTable(p5, i.table);
    YieldsThen(ApplyInterface, p0, a5, p5, Single("Table", i.table), p6);
    YieldsFwMark(p6, i.fwmark);
    YieldsThen(ApplyInterface, p0, a6, p6, Single("FwMark", i.fwmark), p7);
  }

  lemma YieldsInterface(name: string, i: Interface)
    requires CsvItems(i.tunnelIps) && CsvItems(i.dns)
    ensures Yields(ApplyInterface, EmptyParsed(name), InterfaceAssigns(i), ExpectedInterface(name, i))
  {
    HookFieldNames();
    var p0, p1 := EmptyParsed(name), ExpectedSettings(name, i);
    var p2 := p1.(preUp := NonEmpty(i.preUp));
    var p3 := p2.(postUp := NonEmpty(i.postUp));
    var p4 := p3.(preDown := NonEmpty(i.preDown));
    var p5 := p4.(postDown := NonEmpty(i.postDown));
    assert [] + NonEmpty(i.preUp) == NonEmpty(i.preUp) && [] + NonEmpty(i.postUp) == NonEmpty(i.postUp);
    assert [] + NonEmpty(i.preDown) == NonEmpty(i.preDown) && [] + NonEmpty(i.postDown) == NonEmpty(i.postDown);
    var a1 := SettingAssigns(i);
    var a2 := a1 + Many("PreUp", i.preUp);
    var a3 := a2 + Many("PostUp", i.postUp);
    var a4 := a3 + Many("PreDown", i.preDown);
    YieldsSettings(name, i);
    YieldsHooks(p1, "PreUp", i.preUp);
    YieldsThen(ApplyInterface, p0, a1, p1, Many("PreUp", i.preUp), p2);
    YieldsHooks(p2, "PostUp", i.postUp);
    YieldsThen(ApplyInterface, p0, a2, p2, Many("PostUp", i.postUp), p3);
    YieldsHooks(p3, "PreDown", i.preDown);
    YieldsThen(ApplyInterface, p0, a3, p3, Many("PreDown", i.preDown), p4);
    YieldsHooks(p4, "PostDown", i.postDown);
    YieldsThen(ApplyInterface, p0, a4, p4, Many("PostDown", i.postDown), p5);
  }

  // -------------------------------------------------------------------- the peers

  function ExpectedPeer(address: string -> Option<Address>, p: Peer): ParsedPeer {
    ParsedPeer(Kept(p.publicKey), Kept(p.presharedKey), NonEmpty(p.allowedIps), EndpointText(address, p), p.keepalive, map[], [])
  }

  lemma AllowedIpsLine(p: ParsedPeer, text: string, items: seq<string>)
    requires SplitCsv(text) == items
    ensures forall n: nat :: ApplyPeer(p, Assign("AllowedIPs", text), n) == p.(allowedIps := p.allowedIps + items)
  {
    PeerFieldNames();
  }

  lemma YieldsAllowedIps(p: ParsedPeer, v: seq<string>)
    requires CsvItems(v)
    ensures Yields(ApplyPeer, p, Csv("AllowedIPs", v), p.(allowedIps := p.allowedIps + NonEmpty(v)))
  {
    if NonEmpty(v) != [] {
      CsvReadsBack(v);
      AllowedIpsLine(p, JoinCsv(NonEmpty(v)), NonEmpty(v));
    }
    assert p.allowedIps + [] == p.allowedIps;
    YieldsAtMostOne(ApplyPeer, p, Csv("AllowedIPs", v), p.(allowedIps := p.allowedIps + NonEmpty(v)));
  }

  lemma YieldsKeys(p: ParsedPeer, publicKey: Option<string>, presharedKey: Option<string>)
    requires p.publicKey.None? && p.presharedKey.None?
    ensures Yields(ApplyPeer, p, Single("PublicKey", publicKey) + Single("PresharedKey", presharedKey),
                   p.(publicKey := Kept(publicKey), presharedKey := Kept(presharedKey)))
  {
    PeerFieldNames();
    var q := p.(publicKey := Kept(publicKey));
    YieldsAtMostOne(ApplyPeer, p, Single("PublicKey", publicKey), q);
    YieldsAtMostOne(ApplyPeer, q, Single("PresharedKey", presharedKey), q.(presharedKey := Kept(presharedKey)));
    YieldsThen(ApplyPeer, p, Single("PublicKey", publicKey), q,
               Single("PresharedKey", presharedKey), q.(presharedKey := Kept(presharedKey)));
  }

  lemma YieldsEndpoint(p: ParsedPeer, v: Option<string>)
    requires p.endpoint.None? && v != Some("")
    ensures Yields(ApplyPeer, p, Single("Endpoint", v), p.(endpoint := v))
  {
    PeerFieldNames();
    YieldsAtMostOne(ApplyPeer, p, Single("Endpoint", v), p.(endpoint := v));
  }

  lemma YieldsKeepalive(p: ParsedPeer, v: Option<int>)
    requires p.keepalive.None?
    ensures Yields(ApplyPeer, p, Number("PersistentKeepalive", v), p.(keepalive := v))
  {
    PeerFieldNames();
    if v.Some? {
      IntTextParses(v.value);
      assert p.warnings + [] == p.warnings;
    }
    YieldsAtMostOne(ApplyPeer, p, Number("PersistentKeepalive", v), p.(keepalive := v));
  }

  lemma YieldsPeer(address: string -> Option<Address>, p: Peer)
    requires CsvItems(p.allowedIps) && EndpointText(address, p) != Some("")
    ensures Yields(ApplyPeer, EMPTY_PEER, PeerAssigns(address, p), ExpectedPeer(address, p))
  {
    var p0 := EMPTY_PEER;
    var p1 := p0.(publicKey := Kept(p.publicKey), presharedKey := Kept(p.presharedKey));
    var p2 := p1.(allowedIps := NonEmpty(p.allowedIps));
    var p3 := p2.(endpoint := EndpointText(address, p));
    var p4 := p3.(keepalive := p.keepalive);
    var a1 := Single("PublicKey", p.publicKey) + Single("PresharedKey", p.presharedKey);
    var a2 := a1 + Csv("AllowedIPs", p.allowedIps);
    var a3 := a2 + Single("Endpoint", EndpointText(address, p));
    assert [] + NonEmpty(p.allowedIps) == NonEmpty(p.allowedIps);
    YieldsKeys(p0, p.publicKey, p.presharedKey);
    YieldsAllowedIps(p1, p.allowedIps);
    YieldsThen(ApplyPeer, p0, a1, p1, Csv("AllowedIPs", p.allowedIps), p2);
    YieldsEndpoint(p2, EndpointText(address, p));
    YieldsThen(ApplyPeer, p0, a2, p2, Single("Endpoint", EndpointText(address, p)), p3);
    YieldsKeepalive(p3, p.keepalive);
    YieldsThen(ApplyPeer, p0, a3, p3, Number("PersistentKeepalive", p.keepalive), p4);
  }

}
