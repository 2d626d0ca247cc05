/** The fixed layout of rendered text: the order of the fields in a section, and the end of the text. */
module WgLayout {

  import opened Wrappers
  import opened Text
  import opened Endpoint
  import opened Lists
  import opened WgQuick

  /** All keys are among these, and appear in this order. */
  ghost predicate InKeyOrder(assigns: seq<Assign>, keys: seq<string>) {
    && (forall a :: a in assigns ==> a.key in keys)
    && (forall x, y, p, q | 0 <= x < y < |assigns| && 0 <= p < |keys| && 0 <= q < |keys| ::
          assigns[x].key == keys[p] && assigns[y].key == keys[q] ==> p <= q)
  }

  ghost predicate Apart(keys: seq<string>) {
    forall p, q :: 0 <= p < q < |keys| ==> keys[p] != keys[q]
  }

  /** A group of one further key may follow. */
  lemma OneMoreGroup(assigns: seq<Assign>, keys: seq<string>, group: seq<Assign>, key: string)
    requires InKeyOrder(assigns, keys) && Apart(keys + [key]) && forall a :: a in group ==> a.key == key
    ensures InKeyOrder(assigns + group, keys + [key])
  {
    var all, more := assigns + group, keys + [key];
    assert forall p :: 0 <= p < |keys| ==> more[p] == keys[p] && more[p] != more[|keys|];
    forall x, y, p, q | 0 <= x < y < |all| && 0 <= p < |more| && 0 <= q < |more| && all[x].key == more[p] && all[y].key == more[q]
      ensures p <= q
    {
      if x < |assigns| {
        assert assigns[x] in assigns && assigns[x].key in keys;
        assert p < |keys|;
        if y < |assigns| {
          assert assigns[y] in assigns && assigns[y].key in keys;
        } else {
          assert all[y] in group;
        }
      } else {
        assert all[y] in group;
      }
    }
  }

  lemma {:induction false} ManyKeyed(key: string, values: seq<string>)
    ensures forall a :: a in Many(key, values) ==> a.key == key
    decreases |values|
  {
    if values != [] {
      ManyKeyed(key, values[1..]);
    }
  }

  const INTERFACE_ORDER :=
    ["PrivateKey", "Address", "ListenPort", "DNS", "MTU", "Table", "FwMark", "PreUp", "PostUp", "PreDown", "PostDown"]

  const PEER_ORDER := ["PublicKey", "PresharedKey", "AllowedIPs", "Endpoint", "PersistentKeepalive"]

  lemma InterfaceOrderApart()
    ensures Apart(INTERFACE_ORDER)
  {
    assert "PrivateKey"[0] == 'P' && "ListenPort"[0] == 'L';
    assert "DNS"[0] == 'D' && "MTU"[0] == 'M';
    assert "Table"[0] == 'T' && "PreUp"[0] == 'P';
    assert "FwMark"[0] == 'F' && "PostUp"[0] == 'P';
    assert "Address"[0] == 'A' && "PreDown"[0] == 'P';
  }

  function Together(groups: seq<seq<Assign>>): seq<Assign> {
    if groups == [] then [] else Together(groups[..|groups| - 1]) + groups[|groups| - 1]
  }

  lemma TogetherMore(groups: seq<seq<Assign>>, group: seq<Assign>)
    ensures Together(groups + [group]) == Together(groups) + group
  {
    assert (groups + [group])[..|groups|] == groups;
  }

  lemma TogetherFive(a: seq<Assign>, b: seq<Assign>, c: seq<Assign>, d: seq<Assign>, e: seq<Assign>)
    ensures Together([a, b, c, d, e]) == a + b + c + d + e
  {
    TogetherMore([], a);
    assert [] + [a] == [a] && [] + a == a;
    TogetherMore([a], b);
    assert [a] + [b] == [a, b];
    TogetherMore([a, b], c);
    assert [a, b] + [c] == [a, b, c];
    TogetherMore([a, b, c], d);
    assert [a, b, c] + [d] == [a, b, c, d];
    TogetherMore([a, b, c, d], e);
    assert [a, b, c, d] + [e] == [a, b, c, d, e];
  }

  ghost predicate AllKeyed(group: seq<Assign>, key: string) {
    forall a :: a in group ==> a.key == key
  }

  /** Groups of one key each, one after the other, are in order. */
  lemma {:induction false} GroupsInOrder(groups: seq<seq<Assign>>, keys: seq<string>)
    requires |groups| == |keys| && Apart(keys)
    requires forall k :: 0 <= k < |keys| ==> AllKeyed(groups[k], keys[k])
    ensures InKeyOrder(Together(groups), keys)
    decreases |keys|
  {
    if keys != [] {
      var n := |keys| - 1;
      GroupsInOrder(groups[..n], keys[..n]);
      assert keys == keys[..n] + [keys[n]];
      assert AllKeyed(groups[n], keys[n]);
      OneMoreGroup(Together(groups[..n]), keys[..n], groups[n], keys[n]);
    }
  }

  function PeerGroups(address: string -> Option<Address>, p: Peer): seq<seq<Assign>> {
    [Single("PublicKey", p.publicKey), Single("PresharedKey", p.presharedKey), Csv("AllowedIPs", p.allowedIps),
     Single("Endpoint", EndpointText(address, p)), Number("PersistentKeepalive", p.keepalive)]
  }

  lemma PeerTogether(address: string -> Option<Address>, p: Peer)
    ensures Together(PeerGroups(address, p)) == PeerAssigns(address, p)
  {
    TogetherFive(Single("PublicKey", p.publicKey), Single("PresharedKey", p.presharedKey), Csv("AllowedIPs", p.allowedIps),
                 Single("Endpoint", EndpointText(address, p)), Number("PersistentKeepalive", p.keepalive));
  }

  /** The fields of a peer are written in a fixed order. */
  lemma PeerInOrder(address: string -> Option<Address>, p: Peer)
    ensures InKeyOrder(PeerAssigns(address, p), PEER_ORDER)
  {
    PeerTogether(address, p);
    GroupsInOrder(PeerGroups(address, p), PEER_ORDER);
  }

  lemma TogetherEleven(a: seq<Assign>, b: seq<Assign>, c: seq<Assign>, d: seq<Assign>, e: seq<Assign>, f: seq<Assign>, g: seq<Assign>, h: seq<Assign>, i: seq<Assign>, j: seq<Assign>, k: seq<Assign>)
    ensures Together([a, b, c, d, e, f, g, h, i, j, k]) == a + b + c + d + e + f + g + h + i + j + k
  {
    TogetherMore([], a);
    assert [] + [a] == [a] && [] + a == a;
    TogetherMore([a], b);
    assert [a] + [b] == [a, b];
    TogetherMore([a, b], c);
    assert [a, b] + [c] == [a, b, c];
    TogetherMore([a, b, c], d);
    assert [a, b, c] + [d] == [a, b, c, d];
    TogetherMore([a, b, c, d], e);
    assert [a, b, c, d] + [e] == [a, b, c, d, e];
    TogetherMore([a, b, c, d, e], f);
    assert [a, b, c, d, e] + [f] == [a, b, c, d, e, f];
    TogetherMore([a, b, c, d, e, f], g);
    assert [a, b, c, d, e, f] + [g] == [a, b, c, d, e, f, g];
    TogetherMore([a, b, c, d, e, f, g], h);
    assert [a, b, c, d, e, f, g] + [h] == [a, b, c, d, e, f, g, h];
    TogetherMore([a, b, c, d, e, f, g, h], i);
    assert [a, b, c, d, e, f, g, h] + [i] == [a, b, c, d, e, f, g, h, i];
    TogetherMore([a, b, c, d, e, f, g, h, i], j);
    assert [a, b, c, d, e, f, g, h, i] + [j] == [a, b, c, d, e, f, g, h, i, j];
    TogetherMore([a, b, c, d, e, f, g, h, i, j], k);
    assert [a, b, c, d, e, f, g, h, i, j] + [k] == [a, b, c, d, e, f, g, h, i, j, k];
  }

  function InterfaceGroups(i: Interface): seq<seq<Assign>> {
    [Single("PrivateKey", i.privateKey), Csv("Address", i.tunnelIps), Number("ListenPort", i.listenPort),
     Csv("DNS", i.dns), Number("MTU", i.mtu), Single("Table", i.table), Single("FwMark", i.fwmark),
     Many("PreUp", i.preUp), Many("PostUp", i.postUp), Many("PreDown", i.preDown), Many("PostDown", i.postDown)]
  }

  lemma InterfaceTogether(i: Interface)
    ensures Together(InterfaceGroups(i)) == InterfaceAssigns(i)
  {
    TogetherEleven(Single("PrivateKey", i.privateKey), Csv("Address", i.tunnelIps), Number("ListenPort", i.listenPort),
                   Csv("DNS", i.dns), Number("MTU", i.mtu), Single("Table", i.table), Single("FwMark", i.fwmark),
                   Many("PreUp", i.preUp), Many("PostUp", i.postUp), Many("PreDown", i.preDown), Many("PostDown", i.postDown));
  }

  /** The fields of an interface are written in a fixed order. */
  lemma InterfaceInOrder(i: Interface)
    ensures InKeyOrder(InterfaceAssigns(i), INTERFACE_ORDER)
  {
    InterfaceOrderApart();
    ManyKeyed("PreUp", i.preUp);
    ManyKeyed("PostUp", i.postUp);
    ManyKeyed("PreDown", i.preDown);
    ManyKeyed("PostDown", i.postDown);
    InterfaceTogether(i);
    GroupsInOrder(InterfaceGroups(i), INTERFACE_ORDER);
  }

  lemma JoinedStart(lines: seq<string>)
    requires lines != []
    ensures lines[0] <= JoinLines(lines)
  {
    assert |lines| > 1 ==> JoinLines(lines) == lines[0] + ("\n" + JoinLines(lines[1..]));
  }

  lemma FirstLine(i: Interface)
    ensures InterfaceLines(i) != [] && InterfaceLines(i)[0] == "[Interface]"
  {
    assert "[" + "Interface" + "]" == "[Interface]";
  }

  lemma TextEnds(lines: seq<string>)
    requires lines != [] && lines[0] == "[Interface]"
    ensures var text := TrimRight(JoinLines(lines)) + "\n";
      |text| > 11 && text[..11] == "[Interface]" && text[|text| - 1] == '\n' && !IsSpace(text[|text| - 2])
  {
    JoinedStart(lines);
    HeadStays("[Interface]", JoinLines(lines));
    TrimRightSpec(JoinLines(lines));
  }

  /** Rendered text begins with the interface section and ends with one line break behind visible text. */
  lemma RenderEnds(address: string -> Option<Address>, i: Interface, peers: seq<Peer>)
    ensures var text := Render(address, i, peers);
      && |text| > 11 && text[..11] == "[Interface]"
      && text[|text| - 1] == '\n' && !IsSpace(text[|text| - 2])
  {
    FirstLine(i);
    TextEnds(InterfaceLines(i) + FlatMap(PeerWriter(address), SortPeers(peers)));
  }

  /** Trimming on the right keeps a beginning that ends visibly. */
  lemma HeadStays(head: string, text: string)
    requires head <= text && head != "" && !IsSpace(head[|head| - 1])
    ensures head <= TrimRight(text)
  {
    TrimRightSpec(text);
    var trimmed := TrimRight(text);
    forall n | |trimmed| <= n < |text| ensures IsSpace(text[n]) {
      assert text[n] in text[|trimmed|..];
    }
  }

}
