/**
Configurations with custom lines: they are written in front of the fields of their
section, and read in front of them.
 */
module WgCustom {

  import opened Wrappers
  import opened Text
  import opened Endpoint
  import opened Lists
  import opened WgQuick
  import opened WgFields
  import opened WgRoundTrip
  import opened WgReading
  import opened WgLaws
  import opened WgLayout
  import opened PeerOrder

  // ------------------------------------------------------- the entries of a rendering

  /** The entries of lines that all stand in one place. */
  function EntriesIn(place: Place, lines: seq<string>): seq<Entry> {
    if lines == [] then []
    else (if Classify(lines[0]).Assignment? then [Entry(place, Classify(lines[0]).assign)] else []) + EntriesIn(place, lines[1..])
  }

  /** The entries of custom text, if there is any. */
  function CustomEntries(place: Place, custom: Option<string>): seq<Entry> {
    if custom.None? then [] else EntriesIn(place, SplitLines(custom.value))
  }

  /** Custom text in which no line begins a section. */
  predicate HeaderFree(custom: Option<string>) {
    custom.Some? ==> NoHeaders(SplitLines(custom.value))
  }

  lemma TrimmedLine(line: string)
    ensures Classify(TrimRight(line)) == Classify(line)
    ensures TrimRight(line) == "" ==> Classify(line).Skip?
  {
    TrimRightTwice(line);
    TrimBothOrders(line);
  }

  /** Written without blank lines and trailing spaces, custom text has the same entries. */
  lemma {:induction false} RawEntries(place: Place, lines: seq<string>)
    ensures EntriesIn(place, RawLines(lines)) == EntriesIn(place, lines)
    ensures NoHeaders(lines) ==> NoHeaders(RawLines(lines))
    decreases |lines|
  {
    if lines != [] {
      var line, rest := lines[0], RawLines(lines[1..]);
      TrimmedLine(line);
      RawEntries(place, lines[1..]);
      if TrimRight(line) != "" {
        assert RawLines(lines) == [TrimRight(line)] + rest;
        assert ([TrimRight(line)] + rest)[1..] == rest;
      } else {
        assert RawLines(lines) == rest;
      }
    }
  }

  lemma CustomWritten(place: Place, custom: Option<string>)
    ensures EntriesIn(place, Raw(custom)) == CustomEntries(place, custom)
    ensures HeaderFree(custom) ==> NoHeaders(Raw(custom))
  {
    if custom.Some? {
      RawEntries(place, SplitLines(custom.value));
    }
  }

  function AssignEntries(place: Place, assigns: seq<Assign>): (e: seq<Entry>)
    ensures |e| == |assigns| && forall k :: 0 <= k < |e| ==> e[k] == Entry(place, assigns[k])
  {
    seq(|assigns|, k requires 0 <= k < |assigns| => Entry(place, assigns[k]))
  }

  lemma {:induction false} EntriesAppend(lines: seq<string>, more: seq<string>)
    requires NoHeaders(more)
    ensures Entries(lines + more) == Entries(lines) + EntriesIn(PlaceAfter(lines), more)
    ensures PlaceAfter(lines + more) == PlaceAfter(lines) && PeerHeaders(lines + more) == PeerHeaders(lines)
    decreases |more|
  {
    if more == [] {
      assert lines + more == lines && Entries(lines) + [] == Entries(lines);
    } else {
      var first, rest := more[0], more[1..];
      assert more == [first] + rest;
      Assoc(lines, [first], rest);
      LinesMore(lines, first);
      EntriesAppend(lines + [first], rest);
      var x := if Classify(first).Assignment? then [Entry(PlaceAfter(lines), Classify(first).assign)] else [];
      assert Entries(lines + [first]) == Entries(lines) + x;
      Assoc(Entries(lines), x, EntriesIn(PlaceAfter(lines), rest));
    }
  }

  lemma {:induction false} AssignLinesRead(place: Place, assigns: seq<Assign>)
    requires AssignsOk(assigns)
    ensures NoHeaders(AssignLines(assigns)) && EntriesIn(place, AssignLines(assigns)) == AssignEntries(place, assigns)
    decreases |assigns|
  {
    if assigns != [] {
      assert assigns[0] in assigns;
      ClassifyAssign(assigns[0]);
      AssignLinesRead(place, assigns[1..]);
      assert AssignLines(assigns) == [AssignLine(assigns[0])] + AssignLines(assigns[1..]);
      assert AssignLines(assigns)[1..] == AssignLines(assigns[1..]);
      assert AssignEntries(place, assigns) == [Entry(place, assigns[0])] + AssignEntries(place, assigns[1..]);
    }
  }

  /** The entries of a section: its custom lines, then its fields. */
  function SectionEntries(place: Place, custom: Option<string>, assigns: seq<Assign>): seq<Entry> {
    CustomEntries(place, custom) + AssignEntries(place, assigns)
  }

  lemma SectionRead(lines: seq<string>, custom: Option<string>, assigns: seq<Assign>)
    requires HeaderFree(custom) && AssignsOk(assigns)
    ensures var all := lines + Raw(custom) + AssignLines(assigns);
      && Entries(all) == Entries(lines) + SectionEntries(PlaceAfter(lines), custom, assigns)
      && PeerHeaders(all) == PeerHeaders(lines)
  {
    CustomWritten(PlaceAfter(lines), custom);
    EntriesAppend(lines, Raw(custom));
    AssignLinesRead(PlaceAfter(lines), assigns);
    EntriesAppend(lines + Raw(custom), AssignLines(assigns));
    Assoc(Entries(lines), CustomEntries(PlaceAfter(lines), custom), AssignEntries(PlaceAfter(lines), assigns));
  }

  lemma HeadersRead()
    ensures Classify(Header("Interface")) == SectionHeader("interface") && Classify(Header("Peer")) == SectionHeader("peer")
    ensures Classify("").Skip?
  {
    HeaderNames();
    NameIsPlain("Interface");
    NameIsPlain("Peer");
    ClassifyHeader("Interface");
    ClassifyHeader("Peer");
  }

  lemma InterfaceRead(i: Interface)
    requires WritableInterface(i)
    ensures Entries(InterfaceLines(i)) == SectionEntries(OfInterface, i.custom, InterfaceAssigns(i))
    ensures PeerHeaders(InterfaceLines(i)) == 0
  {
    HeadersRead();
    InterfaceAssignsOk(i);
    assert [] + [Header("Interface")] == [Header("Interface")];
    LinesMore([], Header("Interface"));
    SectionRead([Header("Interface")], i.custom, InterfaceAssigns(i));
    assert [] + SectionEntries(OfInterface, i.custom, InterfaceAssigns(i)) == SectionEntries(OfInterface, i.custom, InterfaceAssigns(i));
  }

  lemma {:induction false} PeerBegun(lines: seq<string>)
    ensures var begun := lines + ["", Header("Peer")];
      && Entries(begun) == Entries(lines) && PeerHeaders(begun) == PeerHeaders(lines) + 1
      && PlaceAfter(begun) == OfPeer(PeerHeaders(lines))
  {
    HeadersRead();
    LinesMore(lines, "");
    LinesMore(lines + [""], Header("Peer"));
    assert lines + ["", Header("Peer")] == lines + [""] + [Header("Peer")];
  }

  lemma {:induction false} PeerRead(lines: seq<string>, address: string -> Option<Address>, p: Peer)
    requires PlainAddresses(address) && WritablePeer(p)
    ensures var all := lines + PeerLines(address, p);
      && Entries(all) == Entries(lines) + SectionEntries(OfPeer(PeerHeaders(lines)), p.custom, PeerAssigns(address, p))
      && PeerHeaders(all) == PeerHeaders(lines) + 1
  {
    HeadersRead();
    PeerAssignsOk(address, p);
    PeerBegun(lines);
    var head := ["", Header("Peer")];
    SectionRead(lines + head, p.custom, PeerAssigns(address, p));
    Assoc(lines, head, Raw(p.custom));
    Assoc(lines, head + Raw(p.custom), AssignLines(PeerAssigns(address, p)));
  }

  function PeerEntries(address: string -> Option<Address>, peers: seq<Peer>): seq<Entry> {
    if peers == [] then []
    else
      var n := |peers| - 1;
      PeerEntries(address, peers[..n]) + SectionEntries(OfPeer(n), peers[n].custom, PeerAssigns(address, peers[n]))
  }

  /** Plain values, and custom lines that begin no section of their own. */
  ghost predicate WritableInterface(i: Interface) {
    PlainInterface(i) && HeaderFree(i.custom)
  }

  ghost predicate WritablePeer(p: Peer) {
    PlainPeer(p) && HeaderFree(p.custom)
  }

  ghost predicate WritablePeers(peers: seq<Peer>) {
    forall p :: p in peers ==> WritablePeer(p)
  }

  /** What the proof by induction says of the lines of some peers. */
  ghost predicate PeersAdd(lines: seq<string>, address: string -> Option<Address>, peers: seq<Peer>) {
    var all := lines + FlatMap(PeerWriter(address), peers);
    Entries(all) == Entries(lines) + PeerEntries(address, peers) && PeerHeaders(all) == |peers|
  }

  lemma OneMorePeer(lines: seq<string>, address: string -> Option<Address>, front: seq<Peer>, p: Peer)
    requires PlainAddresses(address) && WritablePeer(p) && PeersAdd(lines, address, front)
    ensures PeersAdd(lines, address, front + [p])
  {
    assert (front + [p])[..|front|] == front;
    var before := FlatMap(PeerWriter(address), front);
    assert FlatMap(PeerWriter(address), front + [p]) == before + PeerLines(address, p);
    PeerRead(lines + before, address, p);
    Assoc(lines, before, PeerLines(address, p));
    Assoc(Entries(lines), PeerEntries(address, front), SectionEntries(OfPeer(|front|), p.custom, PeerAssigns(address, p)));
  }

  lemma {:induction false} NoPeersAdd(lines: seq<string>, address: string -> Option<Address>)
    requires PeerHeaders(lines) == 0
    ensures PeersAdd(lines, address, [])
  {
    assert lines + [] == lines && Entries(lines) + [] == Entries(lines);
  }

  lemma {:induction false} PeersRead(lines: seq<string>, address: string -> Option<Address>, peers: seq<Peer>, n: nat)
    requires PlainAddresses(address) && WritablePeers(peers) && PeerHeaders(lines) == 0 && n <= |peers|
    ensures PeersAdd(lines, address, peers[..n])
    decreases n
  {
    if n == 0 {
      NoPeersAdd(lines, address);
    } else {
      PeersRead(lines, address, peers, n - 1);
      WritableAt(peers, n - 1);
      OneMorePeer(lines, address, peers[..n - 1], peers[n - 1]);
      FrontAnd(peers, n);
    }
  }

  lemma WritableAt(peers: seq<Peer>, k: nat)
    requires WritablePeers(peers) && k < |peers|
    ensures WritablePeer(peers[k])
  {
    assert peers[k] in peers;
  }

  /** The entries of a rendered configuration, section by section. */
  lemma RenderedEntries(address: string -> Option<Address>, i: Interface, peers: seq<Peer>)
    requires PlainAddresses(address) && WritableInterface(i) && WritablePeers(peers)
    ensures var lines := SplitLines(RenderOrdered(address, i, peers));
      && Entries(lines) == SectionEntries(OfInterface, i.custom, InterfaceAssigns(i)) + PeerEntries(address, peers)
      && PeerHeaders(lines) == |peers|
  {
    RenderedLines(address, i, peers);
    InterfaceRead(i);
    PeersRead(InterfaceLines(i), address, peers, |peers|);
    assert peers[..|peers|] == peers;
  }

  // ------------------------------------------------------------ entries put together

  lemma {:induction false} ValuesConcat(e: seq<Entry>, f: seq<Entry>, place: Place, key: string)
    ensures Values(e + f, place, key) == Values(e, place, key) + Values(f, place, key)
    decreases |f|
  {
    if f == [] {
      assert e + f == e && Values(e, place, key) + [] == Values(e, place, key);
    } else {
      var front, last := f[..|f| - 1], f[|f| - 1];
      assert f == front + [last];
      Assoc(e, front, [last]);
      ValuesConcat(e, front, place, key);
      ValuesMore(e + front, last, place, key);
      Assoc(Values(e, place, key), Values(front, place, key), if IsFor(last, place, key) then [last.assign.value] else []);
    }
  }

  lemma {:induction false} UnknownConcat(e: seq<Entry>, f: seq<Entry>, place: Place, known: set<string>)
    ensures Unknown(e + f, place, known) == Unknown(e, place, known) + Unknown(f, place, known)
    decreases |f|
  {
    if f == [] {
      assert e + f == e;
    } else {
      var front, last := f[..|f| - 1], f[|f| - 1];
      assert f == front + [last];
      Assoc(e, front, [last]);
      UnknownConcat(e, front, place, known);
      UnknownMore(e + front, last, place, known);
    }
  }

  lemma {:induction false} ItemsConcat(a: seq<string>, b: seq<string>)
    ensures Items(a + b) == Items(a) + Items(b)
    decreases |b|
  {
    if b == [] {
      assert a + b == a;
    } else {
      var front, last := b[..|b| - 1], b[|b| - 1];
      assert (a + b)[..|a + b| - 1] == a + front;
      ItemsConcat(a, front);
      Assoc(Items(a), Items(front), SplitCsv(last));
    }
  }

  /** How two groups of entries give a field: the later one wins, or adds to a list. */
  lemma FieldConcat(e: seq<Entry>, f: seq<Entry>, place: Place, key: string)
    ensures var a, b := Values(e, place, key), Values(f, place, key);
      && Values(e + f, place, key) == a + b
      && LastText(Values(e + f, place, key)) == (if LastText(b).Some? then LastText(b) else LastText(a))
      && (LastNumber(b).Some? || b == [] ==>
            LastNumber(Values(e + f, place, key)) == if LastNumber(b).Some? then LastNumber(b) else LastNumber(a))
      && Items(Values(e + f, place, key)) == Items(a) + Items(b)
  {
    var a, b := Values(e, place, key), Values(f, place, key);
    ValuesConcat(e, f, place, key);
    ItemsConcat(a, b);
    assert b == [] ==> a + b == a;
  }

  // ---------------------------------------------------------------- the fields alone

  /** What every assignment keeps, with its entry, holds after all of them. */
  lemma {:induction false} AlongAssigns<S(!new)>(holds: (seq<Entry>, S) -> bool, apply: (S, Assign, nat) -> S, place: Place,
                                                 e: seq<Entry>, s: S, assigns: seq<Assign>, n: nat)
    requires holds(e, s)
    requires forall f, t, a, m :: holds(f, t) ==> holds(f + [Entry(place, a)], apply(t, a, m))
    ensures holds(e + AssignEntries(place, assigns), ApplyAll(apply, s, assigns, n))
    decreases |assigns|
  {
    if assigns == [] {
      assert e + AssignEntries(place, assigns) == e;
    } else {
      var x := [Entry(place, assigns[0])];
      AlongAssigns(holds, apply, place, e + x, apply(s, assigns[0], n), assigns[1..], n + 1);
      assert AssignEntries(place, assigns) == x + AssignEntries(place, assigns[1..]);
      Assoc(e, x, AssignEntries(place, assigns[1..]));
    }
  }

  lemma InterfaceAssignsRead(p: Parsed, assigns: seq<Assign>, n: nat)
    requires ReadsInterface([], p)
    ensures ReadsInterface(AssignEntries(OfInterface, assigns), ApplyAll(ApplyInterface, p, assigns, n))
  {
    var holds := (e: seq<Entry>, q: Parsed) => ReadsInterface(e, q);
    forall e, q, a, m | holds(e, q) ensures holds(e + [Entry(OfInterface, a)], ApplyInterface(q, a, m)) {
      ReadsInterfaceMore(e, a, q, m);
    }
    AlongAssigns(holds, ApplyInterface, OfInterface, [], p, assigns, n);
    assert [] + AssignEntries(OfInterface, assigns) == AssignEntries(OfInterface, assigns);
  }

  lemma PeerAssignsRead(k: nat, q: ParsedPeer, assigns: seq<Assign>, n: nat)
    requires ReadsPeer([], k, q)
    ensures ReadsPeer(AssignEntries(OfPeer(k), assigns), k, ApplyAll(ApplyPeer, q, assigns, n))
  {
    var holds := (e: seq<Entry>, p: ParsedPeer) => ReadsPeer(e, k, p);
    forall e, p, a, m | holds(e, p) ensures holds(e + [Entry(OfPeer(k), a)], ApplyPeer(p, a, m)) {
      ReadsPeerMore(e, k, a, p, m);
    }
    AlongAssigns(holds, ApplyPeer, OfPeer(k), [], q, assigns, n);
    assert [] + AssignEntries(OfPeer(k), assigns) == AssignEntries(OfPeer(k), assigns);
  }

  /** The fields of an interface, without its custom lines. */
  lemma InterfaceFieldsRead(i: Interface)
    requires PlainInterface(i)
    ensures ReadsInterface(AssignEntries(OfInterface, InterfaceAssigns(i)), ExpectedInterface("", i))
  {
    YieldsInterface("", i);
    var assigns := InterfaceAssigns(i);
    InterfaceAssignsRead(EmptyParsed(""), assigns, 1);
    assert ApplyAll(ApplyInterface, EmptyParsed(""), assigns, 1) == ExpectedInterface("", i);
  }

  lemma PeerFieldsRead(address: string -> Option<Address>, p: Peer, k: nat)
    requires PlainAddresses(address) && PlainPeer(p)
    ensures ReadsPeer(AssignEntries(OfPeer(k), PeerAssigns(address, p)), k, ExpectedPeer(address, p))
  {
    EndpointIsPlain(address, p);
    YieldsPeer(address, p);
    var assigns := PeerAssigns(address, p);
    PeerAssignsRead(k, EMPTY_PEER, assigns, 1);
    assert ApplyAll(ApplyPeer, EMPTY_PEER, assigns, 1) == ExpectedPeer(address, p);
  }

  // ------------------------------------------------------- which entries are for whom

  lemma {:induction false} EntriesInPlace(place: Place, lines: seq<string>)
    ensures forall x :: x in EntriesIn(place, lines) ==> x.place == place
    decreases |lines|
  {
    if lines != [] {
      EntriesInPlace(place, lines[1..]);
    }
  }

  lemma SectionInPlace(place: Place, custom: Option<string>, assigns: seq<Assign>)
    ensures forall x :: x in SectionEntries(place, custom, assigns) ==> x.place == place
  {
    if custom.Some? {
      EntriesInPlace(place, SplitLines(custom.value));
    }
  }

  lemma {:induction false} PeerEntriesInPlace(address: string -> Option<Address>, peers: seq<Peer>)
    ensures forall x :: x in PeerEntries(address, peers) ==> x.place.OfPeer? && x.place.index < |peers|
    decreases |peers|
  {
    if peers != [] {
      var n := |peers| - 1;
      PeerEntriesInPlace(address, peers[..n]);
      SectionInPlace(OfPeer(n), peers[n].custom, PeerAssigns(address, peers[n]));
    }
  }

  /** Entries that give the same values at a place. */
  ghost predicate SameAt(e: seq<Entry>, f: seq<Entry>, place: Place) {
    && (forall key :: Values(e, place, key) == Values(f, place, key))
    && (forall known :: Unknown(e, place, known) == Unknown(f, place, known))
  }

  lemma DropFront(e: seq<Entry>, f: seq<Entry>, place: Place)
    requires forall x :: x in e ==> x.place != place
    ensures SameAt(e + f, f, place)
  {
    NoneFor(e, place);
    forall key ensures Values(e + f, place, key) == Values(f, place, key) {
      ValuesConcat(e, f, place, key);
    }
    forall known ensures Unknown(e + f, place, known) == Unknown(f, place, known) {
      UnknownConcat(e, f, place, known);
    }
  }

  lemma DropBack(e: seq<Entry>, f: seq<Entry>, place: Place)
    requires forall x :: x in f ==> x.place != place
    ensures SameAt(e + f, e, place)
  {
    NoneFor(f, place);
    forall key ensures Values(e + f, place, key) == Values(e, place, key) {
      ValuesConcat(e, f, place, key);
      assert Values(e, place, key) + [] == Values(e, place, key);
    }
    forall known ensures Unknown(e + f, place, known) == Unknown(e, place, known) {
      UnknownConcat(e, f, place, known);
    }
  }

  /** The entries of peer `k` among those of all peers. */
  lemma {:induction false} PeerPart(address: string -> Option<Address>, peers: seq<Peer>, k: nat)
    requires k < |peers|
    ensures SameAt(PeerEntries(address, peers), SectionEntries(OfPeer(k), peers[k].custom, PeerAssigns(address, peers[k])), OfPeer(k))
    decreases |peers|
  {
    var n := |peers| - 1;
    var front, last := PeerEntries(address, peers[..n]), SectionEntries(OfPeer(n), peers[n].custom, PeerAssigns(address, peers[n]));
    if k == n {
      PeerEntriesInPlace(address, peers[..n]);
      DropFront(front, last, OfPeer(k));
    } else {
      PeerPart(address, peers[..n], k);
      SectionInPlace(OfPeer(n), peers[n].custom, PeerAssigns(address, peers[n]));
      DropBack(front, last, OfPeer(k));
    }
  }

  // ------------------------------------------------------------------ absent numbers

  lemma {:induction false} NoKey(place: Place, assigns: seq<Assign>, key: string)
    requires forall a :: a in assigns ==> Lower(a.key) != key
    ensures Values(AssignEntries(place, assigns), place, key) == []
    decreases |assigns|
  {
    if assigns != [] {
      var n := |assigns| - 1;
      assert assigns[n] in assigns;
      NoKey(place, assigns[..n], key);
      assert AssignEntries(place, assigns)[..n] == AssignEntries(place, assigns[..n]);
    }
  }

  /** Each field is written under its own key. */
  lemma InterfaceKeys(i: Interface)
    ensures forall a :: a in InterfaceAssigns(i) ==>
      || a.key in ["PrivateKey", "Address", "DNS", "Table", "FwMark", "PreUp", "PostUp", "PreDown", "PostDown"]
      || (a.key == "ListenPort" && i.listenPort.Some?) || (a.key == "MTU" && i.mtu.Some?)
  {
    ManyKeyed("PreUp", i.preUp);
    ManyKeyed("PostUp", i.postUp);
    ManyKeyed("PreDown", i.preDown);
    ManyKeyed("PostDown", i.postDown);
  }

  lemma NumberKeys(key: string)
    requires key in ["PrivateKey", "Address", "DNS", "Table", "FwMark", "PreUp", "PostUp", "PreDown", "PostDown"]
    ensures Lower(key) != "listenport" && Lower(key) != "mtu"
  {
    assert |key| == 10 ==> key == "PrivateKey" && Lower(key)[0] == 'p' && "listenport"[0] == 'l';
    assert |key| == 3 ==> key == "DNS" && Lower(key)[0] == 'd' && "mtu"[0] == 'm';
  }

  lemma NotNumbered(i: Interface, a: Assign)
    requires a in InterfaceAssigns(i)
    ensures i.listenPort.None? ==> Lower(a.key) != "listenport"
    ensures i.mtu.None? ==> Lower(a.key) != "mtu"
  {
    InterfaceKeys(i);
    assert |Lower("MTU")| == 3 && |Lower("ListenPort")| == 10;
    if a.key != "ListenPort" && a.key != "MTU" {
      NumberKeys(a.key);
    }
  }

  lemma AbsentNumbers(i: Interface)
    ensures i.listenPort.None? ==> Values(AssignEntries(OfInterface, InterfaceAssigns(i)), OfInterface, "listenport") == []
    ensures i.mtu.None? ==> Values(AssignEntries(OfInterface, InterfaceAssigns(i)), OfInterface, "mtu") == []
  {
    var assigns := InterfaceAssigns(i);
    forall a | a in assigns
      ensures i.listenPort.None? ==> Lower(a.key) != "listenport"
      ensures i.mtu.None? ==> Lower(a.key) != "mtu"
    {
      NotNumbered(i, a);
    }
    if i.listenPort.None? {
      NoKey(OfInterface, assigns, "listenport");
    }
    if i.mtu.None? {
      NoKey(OfInterface, assigns, "mtu");
    }
  }

  lemma AbsentKeepalive(address: string -> Option<Address>, p: Peer, k: nat)
    ensures p.keepalive.None? ==> Values(AssignEntries(OfPeer(k), PeerAssigns(address, p)), OfPeer(k), "persistentkeepalive") == []
  {
    if p.keepalive.None? {
      forall a | a in PeerAssigns(address, p) ensures Lower(a.key) != "persistentkeepalive" {
        assert a.key in ["PublicKey", "PresharedKey", "AllowedIPs", "Endpoint"];
      }
      NoKey(OfPeer(k), PeerAssigns(address, p), "persistentkeepalive");
    }
  }

  // -------------------------------------------------------------- fields over custom lines

  /** A field of the record if it has one, else what the custom lines say. */
  function TextOver(field: Option<string>, custom: seq<string>): Option<string> {
    if field.Some? && field.value != "" then field else LastText(custom)
  }

  function NumberOver(field: Option<int>, custom: seq<string>): Option<int> {
    if field.Some? then field else LastNumber(custom)
  }

  /** An interface read back: single fields win over the custom lines, list fields come behind them. */
  predicate InterfaceOver(i: Interface, p: Parsed) {
    var c := CustomEntries(OfInterface, i.custom);
    && p.privateKey == TextOver(i.privateKey, Values(c, OfInterface, "privatekey"))
    && p.addresses == Items(Values(c, OfInterface, "address")) + NonEmpty(i.tunnelIps)
    && p.listenPort == NumberOver(i.listenPort, Values(c, OfInterface, "listenport"))
    && p.dns == Items(Values(c, OfInterface, "dns")) + NonEmpty(i.dns)
    && p.mtu == NumberOver(i.mtu, Values(c, OfInterface, "mtu"))
    && p.table == TextOver(i.table, Values(c, OfInterface, "table"))
    && p.fwmark == TextOver(i.fwmark, Values(c, OfInterface, "fwmark"))
    && p.preUp == Values(c, OfInterface, "preup") + NonEmpty(i.preUp)
    && p.postUp == Values(c, OfInterface, "postup") + NonEmpty(i.postUp)
    && p.preDown == Values(c, OfInterface, "predown") + NonEmpty(i.preDown)
    && p.postDown == Values(c, OfInterface, "postdown") + NonEmpty(i.postDown)
    && p.extras == Unknown(c, OfInterface, INTERFACE_KEYS)
  }

  /** A peer read back, the same way. */
  predicate PeerOver(address: string -> Option<Address>, p: Peer, k: nat, q: ParsedPeer) {
    var c := CustomEntries(OfPeer(k), p.custom);
    && q.publicKey == TextOver(p.publicKey, Values(c, OfPeer(k), "publickey"))
    && q.presharedKey == TextOver(p.presharedKey, Values(c, OfPeer(k), "presharedkey"))
    && q.allowedIps == Items(Values(c, OfPeer(k), "allowedips")) + NonEmpty(p.allowedIps)
    && q.endpoint == TextOver(EndpointText(address, p), Values(c, OfPeer(k), "endpoint"))
    && q.keepalive == NumberOver(p.keepalive, Values(c, OfPeer(k), "persistentkeepalive"))
    && q.extras == Unknown(c, OfPeer(k), PEER_KEYS)
  }

  lemma SameInterface(e: seq<Entry>, f: seq<Entry>, p: Parsed)
    requires SameAt(e, f, OfInterface) && ReadsInterface(e, p)
    ensures ReadsInterface(f, p)
  {
  }

  lemma SamePeer(e: seq<Entry>, f: seq<Entry>, k: nat, q: ParsedPeer)
    requires SameAt(e, f, OfPeer(k)) && ReadsPeer(e, k, q)
    ensures ReadsPeer(f, k, q)
  {
  }

  lemma TextRead(c: seq<Entry>, a: seq<Entry>, place: Place, key: string, field: Option<string>)
    requires LastText(Values(a, place, key)) == Kept(field)
    ensures LastText(Values(c + a, place, key)) == TextOver(field, Values(c, place, key))
  {
    FieldConcat(c, a, place, key);
  }

  lemma NumberRead(c: seq<Entry>, a: seq<Entry>, place: Place, key: string, field: Option<int>)
    requires LastNumber(Values(a, place, key)) == field && (field.None? ==> Values(a, place, key) == [])
    ensures LastNumber(Values(c + a, place, key)) == NumberOver(field, Values(c, place, key))
  {
    FieldConcat(c, a, place, key);
  }

  lemma ListRead(c: seq<Entry>, a: seq<Entry>, place: Place, key: string, items: seq<string>)
    requires Items(Values(a, place, key)) == items
    ensures Items(Values(c + a, place, key)) == Items(Values(c, place, key)) + items
  {
    FieldConcat(c, a, place, key);
  }

  lemma HooksRead(c: seq<Entry>, a: seq<Entry>, i: Interface)
    requires ReadsInterface(a, ExpectedInterface("", i))
    ensures Values(c + a, OfInterface, "preup") == Values(c, OfInterface, "preup") + NonEmpty(i.preUp)
    ensures Values(c + a, OfInterface, "postup") == Values(c, OfInterface, "postup") + NonEmpty(i.postUp)
    ensures Values(c + a, OfInterface, "predown") == Values(c, OfInterface, "predown") + NonEmpty(i.preDown)
    ensures Values(c + a, OfInterface, "postdown") == Values(c, OfInterface, "postdown") + NonEmpty(i.postDown)
    ensures Unknown(c + a, OfInterface, INTERFACE_KEYS) == Unknown(c, OfInterface, INTERFACE_KEYS)
  {
    ValuesConcat(c, a, OfInterface, "preup");
    ValuesConcat(c, a, OfInterface, "postup");
    ValuesConcat(c, a, OfInterface, "predown");
    ValuesConcat(c, a, OfInterface, "postdown");
    UnknownConcat(c, a, OfInterface, INTERFACE_KEYS);
  }

  lemma InterfaceOverRead(i: Interface, p: Parsed)
    requires PlainInterface(i) && ReadsInterface(SectionEntries(OfInterface, i.custom, InterfaceAssigns(i)), p)
    ensures InterfaceOver(i, p)
  {
    var c, a := CustomEntries(OfInterface, i.custom), AssignEntries(OfInterface, InterfaceAssigns(i));
    InterfaceFieldsRead(i);
    AbsentNumbers(i);
    TextRead(c, a, OfInterface, "privatekey", i.privateKey);
    ListRead(c, a, OfInterface, "address", NonEmpty(i.tunnelIps));
    NumberRead(c, a, OfInterface, "listenport", i.listenPort);
    ListRead(c, a, OfInterface, "dns", NonEmpty(i.dns));
    NumberRead(c, a, OfInterface, "mtu", i.mtu);
    TextRead(c, a, OfInterface, "table", i.table);
    TextRead(c, a, OfInterface, "fwmark", i.fwmark);
    HooksRead(c, a, i);
  }

  lemma PeerOverRead(address: string -> Option<Address>, p: Peer, k: nat, q: ParsedPeer)
    requires PlainAddresses(address) && PlainPeer(p)
    requires ReadsPeer(SectionEntries(OfPeer(k), p.custom, PeerAssigns(address, p)), k, q)
    ensures PeerOver(address, p, k, q)
  {
    PeerFieldsRead(address, p, k);
    AbsentKeepalive(address, p, k);
    EndpointIsPlain(address, p);
    PeerPartsRead(CustomEntries(OfPeer(k), p.custom), AssignEntries(OfPeer(k), PeerAssigns(address, p)), k, ExpectedPeer(address, p));
  }

  /** A peer read from two groups of entries, of which the later one is written from fields. */
  lemma {:induction false} PeerPartsRead(c: seq<Entry>, a: seq<Entry>, k: nat, fields: ParsedPeer)
    requires ReadsPeer(a, k, fields) && fields.extras == map[]
    requires fields.keepalive.None? ==> Values(a, OfPeer(k), "persistentkeepalive") == []
    ensures var all, place := c + a, OfPeer(k);
      && LastText(Values(all, place, "publickey")) == TextOr(fields.publicKey, Values(c, place, "publickey"))
      && LastText(Values(all, place, "presharedkey")) == TextOr(fields.presharedKey, Values(c, place, "presharedkey"))
      && Items(Values(all, place, "allowedips")) == Items(Values(c, place, "allowedips")) + fields.allowedIps
      && LastText(Values(all, place, "endpoint")) == TextOr(fields.endpoint, Values(c, place, "endpoint"))
      && LastNumber(Values(all, place, "persistentkeepalive")) == NumberOver(fields.keepalive, Values(c, place, "persistentkeepalive"))
      && Unknown(all, place, PEER_KEYS) == Unknown(c, place, PEER_KEYS)
  {
    TextOrRead(c, a, OfPeer(k), "publickey", fields.publicKey);
    TextOrRead(c, a, OfPeer(k), "presharedkey", fields.presharedKey);
    ListRead(c, a, OfPeer(k), "allowedips", fields.allowedIps);
    TextOrRead(c, a, OfPeer(k), "endpoint", fields.endpoint);
    NumberRead(c, a, OfPeer(k), "persistentkeepalive", fields.keepalive);
    UnknownConcat(c, a, OfPeer(k), PEER_KEYS);
  }

  lemma TextOrRead(c: seq<Entry>, a: seq<Entry>, place: Place, key: string, field: Option<string>)
    requires LastText(Values(a, place, key)) == field
    ensures LastText(Values(c + a, place, key)) == TextOr(field, Values(c, place, key))
  {
    FieldConcat(c, a, place, key);
  }

  function TextOr(field: Option<string>, custom: seq<string>): Option<string> {
    if field.Some? then field else LastText(custom)
  }

  /**
  The round trip with custom lines: whatever they are, as long as they begin no section,
  each field of the record is read back, in front of which the custom lines have been read.
   */
  lemma CustomRoundTrip(address: string -> Option<Address>, name: string, i: Interface, peers: seq<Peer>)
    requires PlainAddresses(address) && WritableInterface(i) && WritablePeers(peers)
    ensures var p, sorted := Parse(Render(address, i, peers), name), SortPeers(peers);
      && p.name == name && InterfaceOver(i, p) && |p.peers| == |sorted|
      && forall k :: 0 <= k < |sorted| ==> PeerOver(address, sorted[k], k, p.peers[k])
  {
    var text, sorted := Render(address, i, peers), SortPeers(peers);
    SortSorts(peers);
    forall p | p in sorted ensures WritablePeer(p) {
      assert p in multiset(sorted);
    }
    RenderedEntries(address, i, sorted);
    ParseReads(text, name);
    var e, own, others := Entries(SplitLines(text)), SectionEntries(OfInterface, i.custom, InterfaceAssigns(i)), PeerEntries(address, sorted);
    PeerEntriesInPlace(address, sorted);
    DropBack(own, others, OfInterface);
    SameInterface(e, own, Parse(text, name));
    InterfaceOverRead(i, Parse(text, name));
    SectionInPlace(OfInterface, i.custom, InterfaceAssigns(i));
    forall k: nat | k < |sorted| ensures PeerOver(address, sorted[k], k, Parse(text, name).peers[k]) {
      DropFront(own, others, OfPeer(k));
      PeerPart(address, sorted, k);
      assert sorted[k] in sorted;
      SamePeer(e, SectionEntries(OfPeer(k), sorted[k].custom, PeerAssigns(address, sorted[k])), k, Parse(text, name).peers[k]);
      PeerOverRead(address, sorted[k], k, Parse(text, name).peers[k]);
    }
  }

  // ------------------------------------------------- custom lines that begin a section

  lemma PeerHeaderLine()
    ensures Raw(Some("[Peer]")) == [Header("Peer")] && Header("Peer") == "[Peer]"
  {
    assert OneLine("[Peer]");
    SplitOneLine("[Peer]");
    TrimRightAppend("", "[Peer]");
    assert "" + "[Peer]" == "[Peer]" && ["[Peer]"][1..] == [];
    assert "[" + "Peer" + "]" == "[Peer]";
  }

  lemma {:induction false} MisplacedEntries(i: Interface)
    requires PlainInterface(i) && i.custom == Some("[Peer]")
    ensures Entries(InterfaceLines(i)) == AssignEntries(OfPeer(0), InterfaceAssigns(i))
  {
    HeadersRead();
    PeerHeaderLine();
    InterfaceAssignsOk(i);
    var first, both := [Header("Interface")], [Header("Interface")] + [Header("Peer")];
    assert [] + first == first;
    LinesMore([], Header("Interface"));
    LinesMore(first, Header("Peer"));
    AssignLinesRead(OfPeer(0), InterfaceAssigns(i));
    EntriesAppend(both, AssignLines(InterfaceAssigns(i)));
    assert [] + AssignEntries(OfPeer(0), InterfaceAssigns(i)) == AssignEntries(OfPeer(0), InterfaceAssigns(i));
  }

  /** The condition is needed: behind a custom line with a header, the fields of the interface are lost to that section. */
  lemma HeaderTakesFields(address: string -> Option<Address>, name: string, i: Interface)
    requires PlainAddresses(address) && PlainInterface(i) && i.custom == Some("[Peer]")
    ensures var p := Parse(Render(address, i, []), name);
      p.privateKey.None? && p.addresses == [] && p.listenPort.None?
  {
    RenderedLines(address, i, []);
    assert InterfaceLines(i) + [] == InterfaceLines(i);
    MisplacedEntries(i);
    ParseReads(Render(address, i, []), name);
    NoneFor(AssignEntries(OfPeer(0), InterfaceAssigns(i)), OfInterface);
  }

}
