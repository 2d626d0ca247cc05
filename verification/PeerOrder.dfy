/** The order in which peers are rendered: total, and independent of the order they were given in. */
module PeerOrder {

  import opened Wrappers
  import opened Endpoint
  import opened WgQuick

  // -------------------------------------------------------------- order of text

  lemma {:induction false} TextLeTotal(a: string, b: string)
    ensures TextLe(a, b) || TextLe(b, a)
    ensures TextLe(a, b) && TextLe(b, a) ==> a == b
  {
    if a != "" && b != "" && a[0] == b[0] {
      TextLeTotal(a[1..], b[1..]);
      assert a == [a[0]] + a[1..] && b == [b[0]] + b[1..];
    }
  }

  lemma {:induction false} TextLeTransitive(a: string, b: string, c: string)
    requires TextLe(a, b) && TextLe(b, c)
    ensures TextLe(a, c)
  {
    if a != "" && a[0] == b[0] == c[0] {
      TextLeTransitive(a[1..], b[1..], c[1..]);
    }
  }

  /** The texts differ first at this place, and the first one is smaller there. */
  predicate SmallerAt(a: string, b: string, n: nat) {
    n < |a| && n < |b| && a[..n] == b[..n] && a[n] < b[n]
  }

  /** The dictionary order: one text continues the other, or the first difference decides. */
  ghost predicate Dictionary(a: string, b: string) {
    a <= b || exists n: nat :: SmallerAt(a, b, n)
  }

  lemma {:induction false} TextLeIsDictionary(a: string, b: string)
    ensures TextLe(a, b) <==> Dictionary(a, b)
    decreases |a|
  {
    if a != "" && b != "" {
      if a[0] == b[0] {
        TextLeIsDictionary(a[1..], b[1..]);
        DictionaryTail(a, b);
      } else {
        assert a[..0] == b[..0];
        assert a[0] < b[0] ==> SmallerAt(a, b, 0);
        forall n: nat | n > 0 ensures !SmallerAt(a, b, n) {
          FirstCharacters(a, b, n);
        }
      }
    }
  }

  lemma FirstCharacters(a: string, b: string, n: nat)
    requires n > 0
    ensures SmallerAt(a, b, n) ==> a[0] == b[0]
  {
    if SmallerAt(a, b, n) {
      assert a[..n][0] == b[..n][0];
    }
  }

  lemma SmallerTail(a: string, b: string, n: nat)
    requires a != "" && b != "" && a[0] == b[0]
    ensures SmallerAt(a, b, n + 1) <==> SmallerAt(a[1..], b[1..], n)
  {
    if n + 1 < |a| && n + 1 < |b| {
      assert a[..n + 1] == [a[0]] + a[1..][..n] && b[..n + 1] == [b[0]] + b[1..][..n];
      assert a[..n + 1][1..] == a[1..][..n] && b[..n + 1][1..] == b[1..][..n];
    }
  }

  lemma DictionaryTail(a: string, b: string)
    requires a != "" && b != "" && a[0] == b[0]
    ensures Dictionary(a, b) <==> Dictionary(a[1..], b[1..])
  {
    assert a == [a[0]] + a[1..] && b == [b[0]] + b[1..];
    assert a <= b <==> a[1..] <= b[1..];
    forall n: nat ensures SmallerAt(a, b, n + 1) <==> SmallerAt(a[1..], b[1..], n) {
      SmallerTail(a, b, n);
    }
    assert !SmallerAt(a, b, 0);
    if exists n: nat :: SmallerAt(a, b, n) {
      var n: nat :| SmallerAt(a, b, n);
      assert SmallerAt(a[1..], b[1..], n - 1);
    }
    if exists n: nat :: SmallerAt(a[1..], b[1..], n) {
      var n: nat :| SmallerAt(a[1..], b[1..], n);
      assert SmallerAt(a, b, n + 1);
    }
  }

  // ------------------------------------------------------------- order of peers

  predicate SameKey(a: Peer, b: Peer) {
    OrEmpty(a.name) == OrEmpty(b.name) && OrEmpty(a.publicKey) == OrEmpty(b.publicKey)
  }

  lemma PeerLeTotal(a: Peer, b: Peer)
    ensures PeerLe(a, b) || PeerLe(b, a)
    ensures PeerLe(a, b) && PeerLe(b, a) ==> SameKey(a, b)
  {
    TextLeTotal(OrEmpty(a.name), OrEmpty(b.name));
    TextLeTotal(OrEmpty(a.publicKey), OrEmpty(b.publicKey));
  }

  lemma PeerLeTransitive(a: Peer, b: Peer, c: Peer)
    requires PeerLe(a, b) && PeerLe(b, c)
    ensures PeerLe(a, c)
  {
    var x, y, z := OrEmpty(a.name), OrEmpty(b.name), OrEmpty(c.name);
    if x != y && y != z {
      TextLeTransitive(x, y, z);
      if x == z {
        TextLeTotal(x, y);
      }
    } else if x == y == z {
      TextLeTransitive(OrEmpty(a.publicKey), OrEmpty(b.publicKey), OrEmpty(c.publicKey));
    }
  }

  ghost predicate Sorted(peers: seq<Peer>) {
    forall i, j :: 0 <= i < j < |peers| ==> PeerLe(peers[i], peers[j])
  }

  lemma {:induction false} InsertKeeps(sorted: seq<Peer>, p: Peer)
    requires Sorted(sorted)
    ensures Sorted(InsertPeer(sorted, p))
    ensures multiset(InsertPeer(sorted, p)) == multiset(sorted) + multiset{p}
  {
    if sorted != [] {
      var front, last := sorted[..|sorted| - 1], sorted[|sorted| - 1];
      assert sorted == front + [last];
      if PeerLe(last, p) {
        forall i | 0 <= i < |sorted| ensures PeerLe(sorted[i], p) {
          if i < |sorted| - 1 {
            PeerLeTransitive(sorted[i], last, p);
          }
        }
      } else {
        PeerLeTotal(last, p);
        InsertKeeps(front, p);
        var rest := InsertPeer(front, p);
        forall i | 0 <= i < |rest| ensures PeerLe(rest[i], last) {
          assert rest[i] in multiset(rest);
          assert rest[i] in front || rest[i] == p;
        }
      }
    }
  }

  /** The peers are rendered in order, and none is lost or repeated. */
  lemma {:induction false} SortSorts(peers: seq<Peer>)
    ensures Sorted(SortPeers(peers))
    ensures multiset(SortPeers(peers)) == multiset(peers)
  {
    if peers != [] {
      SortSorts(peers[..|peers| - 1]);
      InsertKeeps(SortPeers(peers[..|peers| - 1]), peers[|peers| - 1]);
      assert peers == peers[..|peers| - 1] + [peers[|peers| - 1]];
    }
  }

  /** The peer, if it has this name and public key. */
  function IfKeyed(p: Peer, name: string, key: string): seq<Peer> {
    if OrEmpty(p.name) == name && OrEmpty(p.publicKey) == key then [p] else []
  }

  /** The peers with a given name and public key, in their order. */
  function Keyed(peers: seq<Peer>, name: string, key: string): seq<Peer> {
    if peers == [] then [] else Keyed(peers[..|peers| - 1], name, key) + IfKeyed(peers[|peers| - 1], name, key)
  }

  lemma KeyedMore(peers: seq<Peer>, p: Peer, name: string, key: string)
    ensures Keyed(peers + [p], name, key) == Keyed(peers, name, key) + IfKeyed(p, name, key)
  {
    assert (peers + [p])[..|peers|] == peers;
  }

  /** Peers that are not in order do not have the same key, so swapping them is not noticed. */
  lemma SwapKeyed(before: seq<Peer>, last: Peer, p: Peer, name: string, key: string)
    requires !PeerLe(last, p)
    ensures before + IfKeyed(p, name, key) + IfKeyed(last, name, key) == before + IfKeyed(last, name, key) + IfKeyed(p, name, key)
  {
    PeerLeTotal(last, last);
    assert !SameKey(last, p);
  }

  lemma {:induction false} InsertStable(sorted: seq<Peer>, p: Peer, name: string, key: string)
    ensures Keyed(InsertPeer(sorted, p), name, key) == Keyed(sorted, name, key) + IfKeyed(p, name, key)
    decreases |sorted|
  {
    if sorted == [] || PeerLe(sorted[|sorted| - 1], p) {
      KeyedMore(sorted, p, name, key);
    } else {
      var front, last := sorted[..|sorted| - 1], sorted[|sorted| - 1];
      InsertStable(front, p, name, key);
      KeyedMore(InsertPeer(front, p), last, name, key);
      SwapKeyed(Keyed(front, name, key), last, p, name, key);
    }
  }

  lemma {:induction false} SortStable(peers: seq<Peer>, name: string, key: string)
    ensures Keyed(SortPeers(peers), name, key) == Keyed(peers, name, key)
    decreases |peers|
  {
    if peers != [] {
      var front, last := peers[..|peers| - 1], peers[|peers| - 1];
      SortStable(front, name, key);
      InsertStable(SortPeers(front), last, name, key);
    }
  }

  /**
  The order in which peers are rendered: by name and then by public key, both in dictionary
  order with a missing one as the empty text, and as given where both are the same.
   */
  lemma ByNameThenKey(peers: seq<Peer>)
    ensures var sorted := SortPeers(peers);
      && multiset(sorted) == multiset(peers)
      && (forall i, j :: 0 <= i < j < |sorted| ==>
            var a, b := sorted[i], sorted[j];
            Dictionary(OrEmpty(a.name), OrEmpty(b.name))
            && (OrEmpty(a.name) == OrEmpty(b.name) ==> Dictionary(OrEmpty(a.publicKey), OrEmpty(b.publicKey))))
      && (forall name, key :: Keyed(sorted, name, key) == Keyed(peers, name, key))
  {
    var sorted := SortPeers(peers);
    SortSorts(peers);
    forall i, j | 0 <= i < j < |sorted|
      ensures var a, b := sorted[i], sorted[j];
        Dictionary(OrEmpty(a.name), OrEmpty(b.name))
        && (OrEmpty(a.name) == OrEmpty(b.name) ==> Dictionary(OrEmpty(a.publicKey), OrEmpty(b.publicKey)))
    {
      assert PeerLe(sorted[i], sorted[j]);
      TextLeIsDictionary(OrEmpty(sorted[i].name), OrEmpty(sorted[j].name));
      TextLeIsDictionary(OrEmpty(sorted[i].publicKey), OrEmpty(sorted[j].publicKey));
    }
    forall name, key ensures Keyed(sorted, name, key) == Keyed(peers, name, key) {
      SortStable(peers, name, key);
    }
  }

  /** No two different peers have the same name and public key. */
  ghost predicate KeyedApart(peers: seq<Peer>) {
    forall p, q :: p in peers && q in peers && SameKey(p, q) ==> p == q
  }

  /** There is only one order of a given collection of peers that are told apart. */
  lemma {:induction false} SortedUnique(s: seq<Peer>, t: seq<Peer>)
    requires Sorted(s) && Sorted(t) && KeyedApart(s)
    requires multiset(s) == multiset(t)
    ensures s == t
  {
    SameLength(s, t);
    if s != [] {
      SameLast(s, t);
      SameFront(s, t);
      FrontKeeps(s);
      FrontKeeps(t);
      SortedUnique(s[..|s| - 1], t[..|t| - 1]);
      assert s == s[..|s| - 1] + [s[|s| - 1]] && t == t[..|t| - 1] + [t[|t| - 1]];
    }
  }

  lemma SameLast(s: seq<Peer>, t: seq<Peer>)
    requires s != [] && t != [] && Sorted(s) && Sorted(t) && KeyedApart(s)
    requires multiset(s) == multiset(t)
    ensures s[|s| - 1] == t[|t| - 1]
  {
    var a, b := s[|s| - 1], t[|t| - 1];
    assert a in multiset(t) && b in multiset(s);
    LastIsGreatest(s, b);
    LastIsGreatest(t, a);
    PeerLeTotal(a, b);
  }

  lemma FrontOf(s: seq<Peer>)
    requires s != []
    ensures multiset(s[..|s| - 1]) == multiset(s) - multiset{s[|s| - 1]}
  {
    assert s == s[..|s| - 1] + [s[|s| - 1]];
  }

  lemma SameFront(s: seq<Peer>, t: seq<Peer>)
    requires s != [] && t != [] && multiset(s) == multiset(t) && s[|s| - 1] == t[|t| - 1]
    ensures multiset(s[..|s| - 1]) == multiset(t[..|t| - 1])
  {
    FrontOf(s);
    FrontOf(t);
  }

  lemma FrontKeeps(s: seq<Peer>)
    requires s != [] && Sorted(s)
    ensures Sorted(s[..|s| - 1])
    ensures KeyedApart(s) ==> KeyedApart(s[..|s| - 1])
  {
    forall p | p in s[..|s| - 1] ensures p in s {
    }
  }

  lemma SameLength(s: seq<Peer>, t: seq<Peer>)
    requires multiset(s) == multiset(t)
    ensures |s| == |t|
  {
    assert |multiset(s)| == |s| && |multiset(t)| == |t|;
  }

  lemma LastIsGreatest(s: seq<Peer>, p: Peer)
    requires Sorted(s) && p in s
    ensures PeerLe(p, s[|s| - 1])
  {
    var i :| 0 <= i < |s| && s[i] == p;
    if i == |s| - 1 {
      PeerLeTotal(p, p);
    }
  }

  /** The rendered text does not depend on the order in which the peers are stored. */
  lemma StableText(address: string -> Option<Address>, i: Interface, peers: seq<Peer>, permuted: seq<Peer>)
    requires multiset(peers) == multiset(permuted) && KeyedApart(peers)
    ensures Render(address, i, peers) == Render(address, i, permuted)
  {
    SortSorts(peers);
    SortSorts(permuted);
    forall p | p in SortPeers(peers) ensures p in peers {
      assert p in multiset(SortPeers(peers));
    }
    SortedUnique(SortPeers(peers), SortPeers(permuted));
  }

}
