/**
Rendering a stored interface whose secrets may be missing: what is missing is taken
from the configuration that was deployed last.
 */
module Secrets {

  import opened Wrappers
  import opened Endpoint
  import opened Lists
  import opened WgQuick
  import opened WgFields
  import opened WgRoundTrip
  import opened PeerOrder

  datatype StoredPeer = StoredPeer(peer: Peer, enabled: bool)

  datatype Record = Record(name: string, interface: Interface, peers: seq<StoredPeer>, deployed: Option<string>)

  /** Secrets found in deployed text: the private key, and a preshared key for each public key. */
  datatype Found = Found(privateKey: Option<string>, presharedKeys: map<string, string>)

  /** A value that is neither missing nor empty. */
  predicate Present(value: Option<string>) {
    value.Some? && value.value != ""
  }

  function OrElse(value: Option<string>, fallback: Option<string>): Option<string> {
    if Present(value) then value else fallback
  }

  /** Preshared keys by public key; a later peer wins. */
  function KeysByPeer(peers: seq<ParsedPeer>): map<string, string> {
    if peers == [] then map[]
    else
      var last, before := peers[|peers| - 1], KeysByPeer(peers[..|peers| - 1]);
      if Present(last.publicKey) && Present(last.presharedKey) then before[last.publicKey.value := last.presharedKey.value]
      else before
  }

  predicate Complete(r: Record) {
    Present(r.interface.privateKey) && forall k :: 0 <= k < |r.peers| ==> Present(r.peers[k].peer.presharedKey)
  }

  function InheritedSecrets(r: Record): Found {
    if Complete(r) || !Present(r.deployed) then Found(None, map[])
    else
      var parsed := Parse(r.deployed.value, r.name);
      Found(parsed.privateKey, KeysByPeer(parsed.peers))
  }

  function Lookup(keys: map<string, string>, publicKey: Option<string>): Option<string> {
    if publicKey.Some? && publicKey.value in keys then Some(keys[publicKey.value]) else None
  }

  function FillPeer(keys: map<string, string>, p: Peer): Peer {
    p.(presharedKey := OrElse(p.presharedKey, Lookup(keys, p.publicKey)))
  }

  function Filler(keys: map<string, string>): Peer -> Peer {
    p => FillPeer(keys, p)
  }

  function FillInterface(found: Found, i: Interface): Interface {
    i.(privateKey := OrElse(i.privateKey, found.privateKey))
  }

  function MapPeers(f: Peer -> Peer, peers: seq<Peer>): (r: seq<Peer>)
    ensures |r| == |peers| && forall k :: 0 <= k < |peers| ==> r[k] == f(peers[k])
  {
    if peers == [] then [] else MapPeers(f, peers[..|peers| - 1]) + [f(peers[|peers| - 1])]
  }

  function EnabledPeers(peers: seq<StoredPeer>): seq<Peer> {
    if peers == [] then []
    else EnabledPeers(peers[..|peers| - 1]) + (if peers[|peers| - 1].enabled then [peers[|peers| - 1].peer] else [])
  }

  function RenderRecord(address: string -> Option<Address>, r: Record): string {
    var found := InheritedSecrets(r);
    Render(address, FillInterface(found, r.interface), MapPeers(Filler(found.presharedKeys), EnabledPeers(r.peers)))
  }

  // --------------------------------------------------- order and rendering of fills

  /** A change to peers that leaves what they are ordered by. */
  ghost predicate KeepsKeys(f: Peer -> Peer) {
    forall p :: f(p).name == p.name && f(p).publicKey == p.publicKey
  }

  lemma SameOrder(f: Peer -> Peer, a: Peer, b: Peer)
    requires KeepsKeys(f)
    ensures PeerLe(f(a), f(b)) == PeerLe(a, b)
  {
    assert f(a).name == a.name && f(b).name == b.name;
  }

  lemma MapAppend(f: Peer -> Peer, peers: seq<Peer>, p: Peer)
    ensures MapPeers(f, peers + [p]) == MapPeers(f, peers) + [f(p)]
  {
    assert (peers + [p])[..|peers|] == peers;
  }

  lemma {:induction false} InsertCommutes(f: Peer -> Peer, sorted: seq<Peer>, p: Peer)
    requires KeepsKeys(f)
    ensures InsertPeer(MapPeers(f, sorted), f(p)) == MapPeers(f, InsertPeer(sorted, p))
    decreases |sorted|
  {
    if sorted == [] {
      MapAppend(f, sorted, p);
    } else {
      var front, last := sorted[..|sorted| - 1], sorted[|sorted| - 1];
      SameOrder(f, last, p);
      if PeerLe(last, p) {
        MapAppend(f, sorted, p);
      } else {
        InsertCommutes(f, front, p);
        MapAppend(f, InsertPeer(front, p), last);
        assert MapPeers(f, sorted)[..|sorted| - 1] == MapPeers(f, front);
      }
    }
  }

  /** The order of peers does not depend on their secrets. */
  lemma {:induction false} SortCommutes(f: Peer -> Peer, peers: seq<Peer>)
    requires KeepsKeys(f)
    ensures SortPeers(MapPeers(f, peers)) == MapPeers(f, SortPeers(peers))
    decreases |peers|
  {
    if peers != [] {
      var front, last := peers[..|peers| - 1], peers[|peers| - 1];
      SortCommutes(f, front);
      InsertCommutes(f, SortPeers(front), last);
      assert MapPeers(f, peers)[..|peers| - 1] == MapPeers(f, front);
    }
  }

  /** A peer with an empty secret written as a missing one. */
  function Normal(p: Peer): Peer {
    p.(presharedKey := Kept(p.presharedKey))
  }

  function NormalInterface(i: Interface): Interface {
    i.(privateKey := Kept(i.privateKey))
  }

  lemma {:induction false} NormalLines(address: string -> Option<Address>, peers: seq<Peer>)
    ensures FlatMap(PeerWriter(address), MapPeers(Normal, peers)) == FlatMap(PeerWriter(address), peers)
    decreases |peers|
  {
    if peers != [] {
      var front, last := peers[..|peers| - 1], peers[|peers| - 1];
      NormalLines(address, front);
      assert MapPeers(Normal, peers)[..|peers| - 1] == MapPeers(Normal, front);
      NormalPeerLines(address, last);
    }
  }

  lemma NormalPeerLines(address: string -> Option<Address>, p: Peer)
    ensures PeerLines(address, Normal(p)) == PeerLines(address, p)
  {
  }

  lemma NormalInterfaceLines(i: Interface)
    ensures InterfaceLines(NormalInterface(i)) == InterfaceLines(i)
  {
  }

  /** Empty and missing secrets render alike. */
  lemma NormalRender(address: string -> Option<Address>, i: Interface, peers: seq<Peer>)
    ensures Render(address, NormalInterface(i), MapPeers(Normal, peers)) == Render(address, i, peers)
  {
    SortCommutes(Normal, peers);
    NormalLines(address, SortPeers(peers));
    NormalInterfaceLines(i);
  }

  // ------------------------------------------------------------ losing the secrets

  /** The same record after its text was deployed and some of its secrets were lost. */
  ghost predicate Redacts(address: string -> Option<Address>, full: Record, r: Record) {
    && r.name == full.name
    && r.deployed == Some(Render(address, full.interface, EnabledPeers(full.peers)))
    && r.interface == full.interface.(privateKey := r.interface.privateKey)
    && (Present(r.interface.privateKey) ==> r.interface.privateKey == full.interface.privateKey)
    && |r.peers| == |full.peers|
    && forall k :: 0 <= k < |r.peers| ==> RedactsPeer(full.peers[k], r.peers[k])
  }

  predicate RedactsPeer(full: StoredPeer, r: StoredPeer) {
    && r.enabled == full.enabled
    && r.peer == full.peer.(presharedKey := r.peer.presharedKey)
    && (Present(r.peer.presharedKey) ==> r.peer.presharedKey == full.peer.presharedKey)
  }

  /** Peers whose preshared key is determined by their public key. */
  ghost predicate Recoverable(peers: seq<Peer>) {
    && (forall p :: p in peers && Present(p.presharedKey) ==> Present(p.publicKey))
    && (forall p, q :: p in peers && q in peers && Present(p.publicKey) && p.publicKey == q.publicKey ==>
          Kept(p.presharedKey) == Kept(q.presharedKey))
  }

  /** Peers that all agree on the preshared key of a public key are listed with that one. */
  lemma {:induction false} KeysAgree(peers: seq<ParsedPeer>, key: string, secret: Option<string>)
    requires key != "" && secret != Some("")
    requires forall q :: q in peers && q.publicKey == Some(key) ==> Kept(q.presharedKey) == secret
    ensures Lookup(KeysByPeer(peers), Some(key)) == if (exists q :: q in peers && q.publicKey == Some(key)) then secret else None
    decreases |peers|
  {
    if peers != [] {
      var front, last := peers[..|peers| - 1], peers[|peers| - 1];
      assert last in peers;
      assert forall q :: q in peers <==> q in front || q == last;
      KeysAgree(front, key, secret);
    }
  }

  lemma {:induction false} KeysComeFromPeers(peers: seq<ParsedPeer>, key: string)
    requires key in KeysByPeer(peers)
    ensures key != "" && exists q :: q in peers && q.publicKey == Some(key) && q.presharedKey == Some(KeysByPeer(peers)[key])
    decreases |peers|
  {
    var front, last := peers[..|peers| - 1], peers[|peers| - 1];
    assert last in peers;
    if !(Present(last.publicKey) && Present(last.presharedKey) && last.publicKey.value == key) {
      KeysComeFromPeers(front, key);
      var q :| q in front && q.publicKey == Some(key) && q.presharedKey == Some(KeysByPeer(front)[key]);
      assert q in peers;
    }
  }

  /** The preshared keys found in the text rendered from these peers. */
  function FoundKeys(address: string -> Option<Address>, peers: seq<Peer>): map<string, string> {
    KeysByPeer(ExpectedPeers(address, SortPeers(peers)))
  }

  lemma SortMembers(peers: seq<Peer>)
    ensures forall p :: p in SortPeers(peers) <==> p in peers
  {
    SortSorts(peers);
    forall p ensures p in SortPeers(peers) <==> p in peers {
      assert p in multiset(SortPeers(peers)) <==> p in multiset(peers);
    }
  }

  lemma ExpectedMembers(address: string -> Option<Address>, peers: seq<Peer>)
    ensures forall q :: q in ExpectedPeers(address, SortPeers(peers)) <==> exists p :: p in peers && q == ExpectedPeer(address, p)
  {
    SortMembers(peers);
    var sorted := SortPeers(peers);
    forall p | p in peers ensures ExpectedPeer(address, p) in ExpectedPeers(address, sorted) {
      var k :| 0 <= k < |sorted| && sorted[k] == p;
      assert ExpectedPeers(address, sorted)[k] == ExpectedPeer(address, p);
    }
  }

  /** When preshared keys are determined by public keys, the deployed text still tells them all. */
  lemma FoundKeyIsSecret(address: string -> Option<Address>, peers: seq<Peer>, p: Peer)
    requires Recoverable(peers) && p in peers
    ensures Lookup(FoundKeys(address, peers), p.publicKey) == Kept(p.presharedKey)
  {
    var parsed := ExpectedPeers(address, SortPeers(peers));
    ExpectedMembers(address, peers);
    if Present(p.publicKey) {
      forall q | q in parsed && q.publicKey == p.publicKey ensures Kept(q.presharedKey) == Kept(p.presharedKey) {
        var r :| r in peers && q == ExpectedPeer(address, r);
      }
      assert ExpectedPeer(address, p) in parsed;
      KeysAgree(parsed, p.publicKey.value, Kept(p.presharedKey));
    } else if p.publicKey == Some("") {
      if "" in KeysByPeer(parsed) {
        KeysComeFromPeers(parsed, "");
      }
    }
  }

  ghost predicate Restores(keys: map<string, string>, full: seq<StoredPeer>, r: seq<StoredPeer>) {
    && |r| == |full|
    && forall k :: 0 <= k < |r| ==>
         && RedactsPeer(full[k], r[k])
         && (full[k].enabled ==> Kept(FillPeer(keys, r[k].peer).presharedKey) == Kept(full[k].peer.presharedKey))
  }

  lemma {:induction false} RestoredPeers(keys: map<string, string>, full: seq<StoredPeer>, r: seq<StoredPeer>)
    requires Restores(keys, full, r)
    ensures MapPeers(Normal, MapPeers(Filler(keys), EnabledPeers(r))) == MapPeers(Normal, EnabledPeers(full))
    decreases |full|
  {
    if full != [] {
      var n := |full| - 1;
      RestoredPeers(keys, full[..n], r[..n]);
      if full[n].enabled {
        MapAppend(Filler(keys), EnabledPeers(r[..n]), r[n].peer);
        MapAppend(Normal, MapPeers(Filler(keys), EnabledPeers(r[..n])), FillPeer(keys, r[n].peer));
        MapAppend(Normal, EnabledPeers(full[..n]), full[n].peer);
        assert Normal(FillPeer(keys, r[n].peer)) == Normal(full[n].peer);
      } else {
        assert EnabledPeers(r) == EnabledPeers(r[..n]) + [] == EnabledPeers(r[..n]);
        assert EnabledPeers(full) == EnabledPeers(full[..n]) + [] == EnabledPeers(full[..n]);
      }
    }
  }

  lemma {:induction false} EnabledMembers(peers: seq<StoredPeer>)
    ensures forall k :: 0 <= k < |peers| && peers[k].enabled ==> peers[k].peer in EnabledPeers(peers)
    decreases |peers|
  {
    if peers != [] {
      EnabledMembers(peers[..|peers| - 1]);
    }
  }

  ghost predicate Renderable(address: string -> Option<Address>, full: Record) {
    PlainAddresses(address) && RenderableInterface(full.interface) && RenderablePeers(EnabledPeers(full.peers))
  }

  /** What is inherited from the text that was rendered from the full record. */
  lemma InheritedFromText(address: string -> Option<Address>, full: Record, r: Record)
    requires Renderable(address, full) && Redacts(address, full, r) && !Complete(r)
    ensures InheritedSecrets(r) == Found(Kept(full.interface.privateKey), FoundKeys(address, EnabledPeers(full.peers)))
  {
    RoundTrip(address, full.name, full.interface, EnabledPeers(full.peers));
  }

  lemma SecretsRestored(address: string -> Option<Address>, full: Record, r: Record)
    requires Renderable(address, full) && Redacts(address, full, r) && Recoverable(EnabledPeers(full.peers))
    ensures Restores(InheritedSecrets(r).presharedKeys, full.peers, r.peers)
    ensures NormalInterface(FillInterface(InheritedSecrets(r), r.interface)) == NormalInterface(full.interface)
  {
    var keys := InheritedSecrets(r).presharedKeys;
    if !Complete(r) {
      InheritedFromText(address, full, r);
      EnabledMembers(full.peers);
      forall k | 0 <= k < |r.peers| && full.peers[k].enabled
        ensures Kept(FillPeer(keys, r.peers[k].peer).presharedKey) == Kept(full.peers[k].peer.presharedKey)
      {
        assert RedactsPeer(full.peers[k], r.peers[k]);
        FoundKeyIsSecret(address, EnabledPeers(full.peers), full.peers[k].peer);
      }
    }
  }

  /** Whatever secrets were lost, the record renders to the text that was deployed. */
  lemma StableWithoutSecrets(address: string -> Option<Address>, full: Record, r: Record)
    requires Renderable(address, full) && Redacts(address, full, r) && Recoverable(EnabledPeers(full.peers))
    ensures RenderRecord(address, r) == Render(address, full.interface, EnabledPeers(full.peers))
  {
    var found := InheritedSecrets(r);
    SecretsRestored(address, full, r);
    RestoredPeers(found.presharedKeys, full.peers, r.peers);
    NormalRender(address, FillInterface(found, r.interface), MapPeers(Filler(found.presharedKeys), EnabledPeers(r.peers)));
    NormalRender(address, full.interface, EnabledPeers(full.peers));
  }

  // ----------------------------------------------------------- the exact condition

  function Forget(p: Peer): Peer {
    p.(presharedKey := None)
  }

  function ForgetStored(peers: seq<StoredPeer>): (r: seq<StoredPeer>)
    ensures |r| == |peers| && forall k :: 0 <= k < |peers| ==> r[k] == StoredPeer(Forget(peers[k].peer), peers[k].enabled)
  {
    if peers == [] then []
    else ForgetStored(peers[..|peers| - 1]) + [StoredPeer(Forget(peers[|peers| - 1].peer), peers[|peers| - 1].enabled)]
  }

  /** The record with every secret lost after its text was deployed. */
  function ForgetAll(address: string -> Option<Address>, full: Record): (r: Record)
    ensures Redacts(address, full, r) && !Complete(r)
  {
    Record(full.name, full.interface.(privateKey := None), ForgetStored(full.peers),
           Some(Render(address, full.interface, EnabledPeers(full.peers))))
  }

  /** A peer with exactly the secret that was found for it. */
  function Refiller(keys: map<string, string>): Peer -> Peer {
    (p: Peer) => p.(presharedKey := Lookup(keys, p.publicKey))
  }

  lemma {:induction false} RefilledPeers(keys: map<string, string>, peers: seq<StoredPeer>)
    ensures MapPeers(Filler(keys), EnabledPeers(ForgetStored(peers))) == MapPeers(Refiller(keys), EnabledPeers(peers))
    decreases |peers|
  {
    if peers != [] {
      var n := |peers| - 1;
      RefilledPeers(keys, peers[..n]);
      assert ForgetStored(peers)[..n] == ForgetStored(peers[..n]);
      if peers[n].enabled {
        MapAppend(Filler(keys), EnabledPeers(ForgetStored(peers[..n])), Forget(peers[n].peer));
        MapAppend(Refiller(keys), EnabledPeers(peers[..n]), peers[n].peer);
      } else {
        assert EnabledPeers(peers) == EnabledPeers(peers[..n]) + [] == EnabledPeers(peers[..n]);
        assert EnabledPeers(ForgetStored(peers)) == EnabledPeers(ForgetStored(peers[..n])) + [] == EnabledPeers(ForgetStored(peers[..n]));
      }
    }
  }

  lemma FoundKeyIsPlain(address: string -> Option<Address>, peers: seq<Peer>, publicKey: Option<string>)
    requires RenderablePeers(peers)
    ensures PlainOption(Lookup(FoundKeys(address, peers), publicKey))
    ensures Lookup(FoundKeys(address, peers), publicKey).Some? ==> Present(publicKey)
    ensures Lookup(FoundKeys(address, peers), publicKey) != Some("")
  {
    var parsed := ExpectedPeers(address, SortPeers(peers));
    if publicKey.Some? && publicKey.value in KeysByPeer(parsed) {
      KeysComeFromPeers(parsed, publicKey.value);
      var q :| q in parsed && q.publicKey == publicKey && q.presharedKey == Some(KeysByPeer(parsed)[publicKey.value]);
      ExpectedMembers(address, peers);
      var p :| p in peers && q == ExpectedPeer(address, p);
      assert Kept(p.presharedKey) == q.presharedKey;
    }
  }

  lemma RefilledRenderable(address: string -> Option<Address>, peers: seq<Peer>)
    requires RenderablePeers(peers)
    ensures RenderablePeers(MapPeers(Refiller(FoundKeys(address, peers)), peers))
  {
    var keys := FoundKeys(address, peers);
    var filled := MapPeers(Refiller(keys), peers);
    forall p | p in filled ensures RenderablePeer(p) {
      var k :| 0 <= k < |filled| && filled[k] == p;
      assert peers[k] in peers;
      FoundKeyIsPlain(address, peers, peers[k].publicKey);
    }
  }

  /** Configurations with the same text have the same peers, as far as peers are rendered. */
  lemma SameTextSamePeers(address: string -> Option<Address>, i: Interface, peers: seq<Peer>, j: Interface, others: seq<Peer>)
    requires PlainAddresses(address) && RenderableInterface(i) && RenderablePeers(peers)
    requires RenderableInterface(j) && RenderablePeers(others)
    requires Render(address, i, peers) == Render(address, j, others)
    ensures ExpectedPeers(address, SortPeers(peers)) == ExpectedPeers(address, SortPeers(others))
  {
    RoundTrip(address, "", i, peers);
    RoundTrip(address, "", j, others);
  }

  /** If the refilled peers are read back as the original ones, each of them has its own secret back. */
  lemma SameSecrets(address: string -> Option<Address>, peers: seq<Peer>, keys: map<string, string>, p: Peer)
    requires p in peers
    ensures ExpectedPeers(address, SortPeers(peers)) == ExpectedPeers(address, SortPeers(MapPeers(Refiller(keys), peers))) ==>
              Kept(p.presharedKey) == Kept(Lookup(keys, p.publicKey))
  {
    var f := Refiller(keys);
    SortCommutes(f, peers);
    SortMembers(peers);
    var sorted := SortPeers(peers);
    var k :| 0 <= k < |sorted| && sorted[k] == p;
    assert ExpectedPeers(address, sorted)[k] == ExpectedPeer(address, p);
    assert ExpectedPeers(address, MapPeers(f, sorted))[k] == ExpectedPeer(address, f(p));
  }

  lemma ForgottenText(address: string -> Option<Address>, full: Record)
    requires Renderable(address, full)
    ensures var peers := EnabledPeers(full.peers);
      RenderRecord(address, ForgetAll(address, full))
      == Render(address, NormalInterface(full.interface), MapPeers(Refiller(FoundKeys(address, peers)), peers))
  {
    InheritedFromText(address, full, ForgetAll(address, full));
    RefilledPeers(FoundKeys(address, EnabledPeers(full.peers)), full.peers);
  }

  lemma StableOnlyIfRecoverable(address: string -> Option<Address>, full: Record)
    requires Renderable(address, full)
    ensures RenderRecord(address, ForgetAll(address, full)) == Render(address, full.interface, EnabledPeers(full.peers)) ==>
              Recoverable(EnabledPeers(full.peers))
  {
    var peers := EnabledPeers(full.peers);
    var keys := FoundKeys(address, peers);
    if RenderRecord(address, ForgetAll(address, full)) == Render(address, full.interface, peers) {
      ForgottenText(address, full);
      RefilledRenderable(address, peers);
      SameTextSamePeers(address, full.interface, peers, NormalInterface(full.interface), MapPeers(Refiller(keys), peers));
      forall p | p in peers ensures KeyTellsSecret(keys, p) {
        SameSecrets(address, peers, keys, p);
        FoundKeyIsPlain(address, peers, p.publicKey);
      }
      KeysTellSecrets(keys, peers);
    }
  }

  predicate KeyTellsSecret(keys: map<string, string>, p: Peer) {
    Kept(p.presharedKey) == Lookup(keys, p.publicKey) && (Present(p.presharedKey) ==> Present(p.publicKey))
  }

  lemma KeysTellSecrets(keys: map<string, string>, peers: seq<Peer>)
    requires forall p :: p in peers ==> KeyTellsSecret(keys, p)
    ensures Recoverable(peers)
  {
    assert forall p, q :: p in peers && q in peers && p.publicKey == q.publicKey ==>
      Lookup(keys, p.publicKey) == Lookup(keys, q.publicKey);
  }

  /**
  A deployed record can lose any of its secrets without its text changing, exactly
  when the preshared keys of its enabled peers are determined by their public keys.
   */
  lemma StableIffRecoverable(address: string -> Option<Address>, full: Record)
    requires Renderable(address, full)
    ensures (forall r :: Redacts(address, full, r) ==> RenderRecord(address, r) == Render(address, full.interface, EnabledPeers(full.peers)))
      <==> Recoverable(EnabledPeers(full.peers))
  {
    if Recoverable(EnabledPeers(full.peers)) {
      forall r | Redacts(address, full, r)
        ensures RenderRecord(address, r) == Render(address, full.interface, EnabledPeers(full.peers))
      {
        StableWithoutSecrets(address, full, r);
      }
    } else if forall r :: Redacts(address, full, r) ==> RenderRecord(address, r) == Render(address, full.interface, EnabledPeers(full.peers)) {
      StableOnlyIfRecoverable(address, full);
    }
  }

  /** Public keys that tell peers apart are enough, if every peer with a preshared key has one. */
  lemma DistinctKeysRecoverable(peers: seq<Peer>)
    requires forall p :: p in peers && Present(p.presharedKey) ==> Present(p.publicKey)
    requires forall j, k :: 0 <= j < k < |peers| && Present(peers[j].publicKey) ==> peers[j].publicKey != peers[k].publicKey
    ensures Recoverable(peers)
  {
  }

}
