/**
Where each secret of a rendered record comes from, whatever text was deployed before:
the record's own secret if it has one, else the deployed one, else none.
 */
module SecretSources {

  import opened Wrappers
  import opened Text
  import opened Endpoint
  import opened WgQuick
  import opened WgFields
  import opened WgRoundTrip
  import opened WgReading
  import opened PeerOrder
  import opened Secrets

  // ------------------------------------------------------- values read from any text

  lemma TrimKeeps(s: string)
    ensures forall c :: c in Trim(s) ==> c in s
  {
    TrimLeftSpec(s);
    TrimRightSpec(TrimLeft(s));
    assert forall c :: c in TrimLeft(s) ==> c in s;
  }

  /** Whatever is read from a line has no line break and no spaces around it. */
  lemma ReadValueIsPlain(raw: string)
    requires OneLine(raw) && Classify(raw).Assignment?
    ensures Plain(Classify(raw).assign.value)
  {
    var line := Trim(raw);
    var after := line[IndexOf(line, '=') + 1..];
    TrimKeeps(raw);
    TrimKeeps(after);
    TrimIsTrimmed(after);
    assert forall c :: c in after ==> c in line;
  }

  lemma {:induction false} EntriesPlain(lines: seq<string>)
    requires AllOneLine(lines)
    ensures forall x :: x in Entries(lines) ==> Plain(x.assign.value)
    decreases |lines|
  {
    if lines != [] {
      var front, last := lines[..|lines| - 1], lines[|lines| - 1];
      assert last in lines;
      assert forall line :: line in front ==> line in lines;
      EntriesPlain(front);
      if Classify(last).Assignment? {
        ReadValueIsPlain(last);
      }
    }
  }

  lemma {:induction false} ValuesPlain(e: seq<Entry>, place: Place, key: string)
    requires forall x :: x in e ==> Plain(x.assign.value)
    ensures Plains(Values(e, place, key))
    decreases |e|
  {
    if e != [] {
      ValuesPlain(e[..|e| - 1], place, key);
      assert e[|e| - 1] in e;
    }
  }

  /** The secrets found in any text at all can be rendered. */
  lemma ParsedSecretsPlain(text: string, name: string)
    ensures var p := Parse(text, name);
      PlainOption(p.privateKey) && forall k :: 0 <= k < |p.peers| ==> PlainOption(p.peers[k].presharedKey)
  {
    var e, p := Entries(SplitLines(text)), Parse(text, name);
    ParseReads(text, name);
    EntriesPlain(SplitLines(text));
    ValuesPlain(e, OfInterface, "privatekey");
    forall k: nat | k < |p.peers| ensures PlainOption(p.peers[k].presharedKey) {
      assert ReadsPeer(e, k, p.peers[k]);
      ValuesPlain(e, OfPeer(k), "presharedkey");
    }
  }

  // ------------------------------------------------------------- the deployed secrets

  /** What was deployed, as the parser reads it; nothing if no text is kept. */
  function Deployed(r: Record): Parsed {
    if Present(r.deployed) then Parse(r.deployed.value, r.name) else EmptyParsed(r.name)
  }

  /** Peer `j` of the deployed text tells a preshared key for this public key. */
  predicate Tells(peers: seq<ParsedPeer>, j: nat, publicKey: Option<string>) {
    && j < |peers| && publicKey.Some? && publicKey.value != ""
    && peers[j].publicKey == publicKey && peers[j].presharedKey.Some? && peers[j].presharedKey.value != ""
  }

  /** The secret is the one of the last deployed peer that tells one, or none if no peer does. */
  ghost predicate FromDeployed(peers: seq<ParsedPeer>, publicKey: Option<string>, secret: Option<string>) {
    if secret.None? then forall j: nat :: !Tells(peers, j, publicKey)
    else exists j: nat :: Tells(peers, j, publicKey) && peers[j].presharedKey == secret
                          && forall i: nat :: i > j ==> !Tells(peers, i, publicKey)
  }

  /** One more deployed peer: the secret stays the same unless this peer tells one. */
  lemma FromDeployedMore(front: seq<ParsedPeer>, last: ParsedPeer, publicKey: Option<string>, secret: Option<string>)
    requires FromDeployed(front, publicKey, secret)
    ensures var peers := front + [last];
      FromDeployed(peers, publicKey, if Tells(peers, |front|, publicKey) then last.presharedKey else secret)
  {
    var peers, n := front + [last], |front|;
    assert forall j: nat :: j < n ==> (Tells(peers, j, publicKey) <==> Tells(front, j, publicKey));
    if !Tells(peers, n, publicKey) && secret.Some? {
      var j: nat :| Tells(front, j, publicKey) && front[j].presharedKey == secret && forall i: nat :: i > j ==> !Tells(front, i, publicKey);
      assert Tells(peers, j, publicKey) && peers[j].presharedKey == secret;
    }
  }

  lemma LookupMore(front: seq<ParsedPeer>, last: ParsedPeer, publicKey: Option<string>)
    ensures Lookup(KeysByPeer(front + [last]), publicKey)
         == if Tells(front + [last], |front|, publicKey) then last.presharedKey else Lookup(KeysByPeer(front), publicKey)
  {
    assert (front + [last])[..|front|] == front;
  }

  lemma {:induction false} KeysAreLast(peers: seq<ParsedPeer>, publicKey: Option<string>)
    ensures FromDeployed(peers, publicKey, Lookup(KeysByPeer(peers), publicKey))
    decreases |peers|
  {
    if peers != [] {
      var front, last := peers[..|peers| - 1], peers[|peers| - 1];
      KeysAreLast(front, publicKey);
      FromDeployedMore(front, last, publicKey, Lookup(KeysByPeer(front), publicKey));
      LookupMore(front, last, publicKey);
      assert peers == front + [last];
    }
  }

  lemma FoundPlain(r: Record, publicKey: Option<string>)
    ensures PlainOption(InheritedSecrets(r).privateKey) && PlainOption(Lookup(InheritedSecrets(r).presharedKeys, publicKey))
  {
    if !Complete(r) && Present(r.deployed) {
      var peers := Parse(r.deployed.value, r.name).peers;
      ParsedSecretsPlain(r.deployed.value, r.name);
      KeysAreLast(peers, publicKey);
    }
  }

  /** A record whose own values can be rendered. */
  ghost predicate RenderableRecord(address: string -> Option<Address>, r: Record) {
    PlainAddresses(address) && RenderableInterface(r.interface) && RenderablePeers(EnabledPeers(r.peers))
  }

  /** Then the filled record can be rendered too, whatever was deployed. */
  lemma FilledRenderable(address: string -> Option<Address>, r: Record)
    requires RenderableRecord(address, r)
    ensures RenderableInterface(FillInterface(InheritedSecrets(r), r.interface))
    ensures RenderablePeers(MapPeers(Filler(InheritedSecrets(r).presharedKeys), EnabledPeers(r.peers)))
  {
    var keys, peers := InheritedSecrets(r).presharedKeys, EnabledPeers(r.peers);
    var filled := MapPeers(Filler(keys), peers);
    FoundPlain(r, None);
    forall p | p in filled ensures RenderablePeer(p) {
      var k :| 0 <= k < |filled| && filled[k] == p;
      assert peers[k] in peers;
      FoundPlain(r, peers[k].publicKey);
    }
  }

  // ------------------------------------------------------------------- the rendering

  /** The peers of a record in the order in which they are rendered. */
  function Rendered(r: Record): seq<Peer> {
    SortPeers(EnabledPeers(r.peers))
  }

  /** The record read back after rendering. */
  function ReadBack(address: string -> Option<Address>, r: Record): Parsed {
    Parse(RenderRecord(address, r), r.name)
  }

  lemma ReadBackIs(address: string -> Option<Address>, r: Record)
    requires RenderableRecord(address, r)
    ensures var found := InheritedSecrets(r);
      ReadBack(address, r)
      == Expected(address, r.name, FillInterface(found, r.interface), MapPeers(Filler(found.presharedKeys), Rendered(r)))
  {
    var found := InheritedSecrets(r);
    FilledRenderable(address, r);
    RoundTrip(address, r.name, FillInterface(found, r.interface), MapPeers(Filler(found.presharedKeys), EnabledPeers(r.peers)));
    SortCommutes(Filler(found.presharedKeys), EnabledPeers(r.peers));
  }

  /** The rendered private key: the record's own, or else the deployed one. */
  lemma PrivateKeySource(address: string -> Option<Address>, r: Record)
    requires RenderableRecord(address, r)
    ensures var own, deployed, read := r.interface.privateKey, Deployed(r).privateKey, ReadBack(address, r).privateKey;
      && (own.Some? && own.value != "" ==> read == own)
      && (own.None? || own.value == "" ==> read == if deployed == Some("") then None else deployed)
  {
    ReadBackIs(address, r);
  }

  /** The rendered preshared key of each enabled peer: its own, or else the one deployed last for its public key. */
  lemma PresharedKeySource(address: string -> Option<Address>, r: Record, k: nat)
    requires RenderableRecord(address, r) && k < |Rendered(r)|
    ensures var p, read := Rendered(r)[k], ReadBack(address, r).peers;
      && |read| == |Rendered(r)|
      && (p.presharedKey.Some? && p.presharedKey.value != "" ==> read[k].presharedKey == p.presharedKey)
      && (p.presharedKey.None? || p.presharedKey.value == "" ==> FromDeployed(Deployed(r).peers, p.publicKey, read[k].presharedKey))
  {
    ReadKey(address, r, k);
    var p := Rendered(r)[k];
    if !Present(p.presharedKey) {
      InheritedKey(r, k);
    }
  }

  /** The preshared key of a rendered peer as it is read back. */
  lemma ReadKey(address: string -> Option<Address>, r: Record, k: nat)
    requires RenderableRecord(address, r) && k < |Rendered(r)|
    ensures var p, read := Rendered(r)[k], ReadBack(address, r).peers;
      |read| == |Rendered(r)| && read[k].presharedKey == Kept(OrElse(p.presharedKey, Lookup(InheritedSecrets(r).presharedKeys, p.publicKey)))
  {
    ReadBackIs(address, r);
  }

  /** A key that is inherited is the one deployed last. */
  lemma InheritedKey(r: Record, k: nat)
    requires k < |Rendered(r)| && !Present(Rendered(r)[k].presharedKey)
    ensures var publicKey := Rendered(r)[k].publicKey;
      var secret := Lookup(InheritedSecrets(r).presharedKeys, publicKey);
      FromDeployed(Deployed(r).peers, publicKey, secret) && secret != Some("")
  {
    var publicKey := Rendered(r)[k].publicKey;
    MissingMeansIncomplete(r, k);
    KeysAreLast(Deployed(r).peers, publicKey);
    assert InheritedSecrets(r).presharedKeys == KeysByPeer(Deployed(r).peers);
  }

  lemma MissingMeansIncomplete(r: Record, k: nat)
    requires k < |Rendered(r)| && !Present(Rendered(r)[k].presharedKey)
    ensures !Complete(r)
  {
    SortMembers(EnabledPeers(r.peers));
    var j := EnabledOrigin(r.peers, Rendered(r)[k]);
  }

  lemma {:induction false} EnabledOrigin(peers: seq<StoredPeer>, p: Peer) returns (j: nat)
    requires p in EnabledPeers(peers)
    ensures j < |peers| && peers[j].enabled && peers[j].peer == p
    decreases |peers|
  {
    var n := |peers| - 1;
    if peers[n].enabled && peers[n].peer == p {
      j := n;
    } else {
      j := EnabledOrigin(peers[..n], p);
    }
  }

  function EnabledPlaces(peers: seq<StoredPeer>): set<nat> {
    set j: nat | j < |peers| && peers[j].enabled
  }

  lemma {:induction false} EnabledCount(peers: seq<StoredPeer>)
    ensures |EnabledPeers(peers)| == |EnabledPlaces(peers)|
    decreases |peers|
  {
    if peers != [] {
      var n := |peers| - 1;
      EnabledCount(peers[..n]);
      var before := EnabledPlaces(peers[..n]);
      assert n !in before;
      assert EnabledPlaces(peers) == if peers[n].enabled then before + {n} else before;
    }
  }

  /** The same configuration but for its secrets. */
  predicate SameButSecrets(p: Parsed, q: Parsed) {
    && p.(privateKey := None, peers := []) == q.(privateKey := None, peers := [])
    && |p.peers| == |q.peers|
    && forall k :: 0 <= k < |p.peers| ==> p.peers[k].(presharedKey := None) == q.peers[k].(presharedKey := None)
  }

  /**
  Whatever was deployed: the record is rendered with all its enabled peers and no others,
  each with its own secret if it has one, and nothing but missing secrets is taken from the
  deployed text.
   */
  lemma OwnSecretsWin(address: string -> Option<Address>, r: Record)
    requires RenderableRecord(address, r)
    ensures var read := ReadBack(address, r);
      && (Present(r.interface.privateKey) ==> read.privateKey == r.interface.privateKey)
      && |read.peers| == |EnabledPlaces(r.peers)|
      && (forall j :: 0 <= j < |r.peers| && r.peers[j].enabled ==>
            exists k :: 0 <= k < |read.peers| && ReadsOwn(address, r.peers[j].peer, read.peers[k]))
      && SameButSecrets(read, Parse(Render(address, r.interface, EnabledPeers(r.peers)), r.name))
  {
    PrivateKeySource(address, r);
    EnabledCount(r.peers);
    RenderedCount(address, r);
    OnlySecretsDiffer(address, r);
    forall j | 0 <= j < |r.peers| && r.peers[j].enabled
      ensures exists k :: 0 <= k < |ReadBack(address, r).peers| && ReadsOwn(address, r.peers[j].peer, ReadBack(address, r).peers[k])
    {
      var k := PeerReadBack(address, r, j);
    }
  }

  lemma RenderedCount(address: string -> Option<Address>, r: Record)
    requires RenderableRecord(address, r)
    ensures |ReadBack(address, r).peers| == |Rendered(r)| == |EnabledPeers(r.peers)|
  {
    ReadBackIs(address, r);
    SortSorts(EnabledPeers(r.peers));
    SameLength(Rendered(r), EnabledPeers(r.peers));
  }

  lemma OnlySecretsDiffer(address: string -> Option<Address>, r: Record)
    requires RenderableRecord(address, r)
    ensures SameButSecrets(ReadBack(address, r), Parse(Render(address, r.interface, EnabledPeers(r.peers)), r.name))
  {
    ReadBackIs(address, r);
    RoundTrip(address, r.name, r.interface, EnabledPeers(r.peers));
  }

  lemma PeerReadBack(address: string -> Option<Address>, r: Record, j: nat) returns (k: nat)
    requires RenderableRecord(address, r) && j < |r.peers| && r.peers[j].enabled
    ensures k < |ReadBack(address, r).peers| && ReadsOwn(address, r.peers[j].peer, ReadBack(address, r).peers[k])
  {
    k := RenderedAt(r, j);
    PresharedKeySource(address, r, k);
    ReadBackIs(address, r);
  }

  /** A peer read back with its own fields, and with its own preshared key if it has one. */
  predicate ReadsOwn(address: string -> Option<Address>, p: Peer, q: ParsedPeer) {
    && q.(presharedKey := None) == ExpectedPeer(address, p).(presharedKey := None)
    && (Present(p.presharedKey) ==> q.presharedKey == p.presharedKey)
  }

  lemma RenderedAt(r: Record, j: nat) returns (k: nat)
    requires j < |r.peers| && r.peers[j].enabled
    ensures k < |Rendered(r)| && Rendered(r)[k] == r.peers[j].peer
  {
    EnabledMembers(r.peers);
    SortMembers(EnabledPeers(r.peers));
    k :| 0 <= k < |Rendered(r)| && Rendered(r)[k] == r.peers[j].peer;
  }

}
