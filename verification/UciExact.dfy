/** When exactly a deployment on OpenWrt leaves the parsed configuration and nothing stale. */
module UciExact {

  import opened Wrappers
  import opened Text
  import opened Endpoint
  import opened WgQuick
  import opened Uci
  import opened UciDeploy

  // -------------------------------------------------------- deletions that may fail

  /** The indices n-1 down to 0. */
  function Downward(n: nat): seq<int> {
    if n == 0 then [] else [n - 1] + Downward(n - 1)
  }

  function Upward(n: nat): seq<int> {
    if n == 0 then [] else Upward(n - 1) + [n - 1]
  }

  /** The sections left when the deletions of the indices from m on have been tried, the k-th command deleting index n-1-k. */
  function Tried(config: Config, kind: string, works: nat -> bool, n: nat, m: nat): Config
    requires Count(config, kind) <= n
  {
    if config == [] then []
    else
      var front, last := config[..|config| - 1], config[|config| - 1];
      Tried(front, kind, works, n, m)
      + (if last.kind == kind && Count(front, kind) >= m && works(n - 1 - Count(front, kind)) then [] else [last])
  }

  lemma {:induction false} TriedNone(config: Config, kind: string, works: nat -> bool, n: nat, m: nat)
    requires Count(config, kind) <= n && Count(config, kind) <= m
    ensures Tried(config, kind, works, n, m) == config
  {
    if config != [] {
      TriedNone(config[..|config| - 1], kind, works, n, m);
    }
  }

  lemma {:induction false} CountTried(config: Config, kind: string, works: nat -> bool, n: nat, m: nat)
    requires Count(config, kind) <= n
    ensures Count(Tried(config, kind, works, n, m), kind) >= if m < Count(config, kind) then m else Count(config, kind)
  {
    if config != [] {
      var front, last := config[..|config| - 1], config[|config| - 1];
      CountTried(front, kind, works, n, m);
      CountAppend(Tried(front, kind, works, n, m), last, kind);
      assert Tried(front, kind, works, n, m) + [] == Tried(front, kind, works, n, m);
    }
  }

  lemma CountAppend(config: Config, s: Section, kind: string)
    ensures Count(config + [s], kind) == Count(config, kind) + (if s.kind == kind then 1 else 0)
  {
    assert (config + [s])[..|config|] == config;
  }

  lemma RemoveAppend(config: Config, s: Section, kind: string, n: nat)
    requires n < Count(config + [s], kind)
    ensures s.kind == kind && Count(config, kind) == n ==> RemoveNth(config + [s], kind, n) == config
    ensures !(s.kind == kind && Count(config, kind) == n) ==>
              n < Count(config, kind) && RemoveNth(config + [s], kind, n) == RemoveNth(config, kind, n) + [s]
  {
    CountAppend(config, s, kind);
    assert (config + [s])[..|config|] == config;
  }

  /** A working deletion of index m-1 removes that section and shifts nothing below it. */
  lemma {:induction false} TryOneMore(config: Config, kind: string, works: nat -> bool, n: nat, m: nat)
    requires 0 < m <= Count(config, kind) <= n && works(n - m)
    ensures m - 1 < Count(Tried(config, kind, works, n, m), kind)
    ensures RemoveNth(Tried(config, kind, works, n, m), kind, m - 1) == Tried(config, kind, works, n, m - 1)
  {
    CountTried(config, kind, works, n, m);
    var front, last := config[..|config| - 1], config[|config| - 1];
    var kept := Tried(front, kind, works, n, m);
    CountTried(front, kind, works, n, m);
    if last.kind == kind && Count(front, kind) == m - 1 {
      TriedNone(front, kind, works, n, m);
      TriedNone(front, kind, works, n, m - 1);
      RemoveAppend(kept, last, kind, m - 1);
      assert front + [] == front;
    } else {
      TryOneMore(front, kind, works, n, m);
      if last.kind == kind && Count(front, kind) >= m && works(n - 1 - Count(front, kind)) {
        assert kept + [] == kept && Tried(front, kind, works, n, m - 1) + [] == Tried(front, kind, works, n, m - 1);
      } else {
        RemoveAppend(kept, last, kind, m - 1);
      }
    }
  }

  lemma {:induction false} TrySame(config: Config, kind: string, works: nat -> bool, n: nat, m: nat)
    requires 0 < m && Count(config, kind) <= n && m <= n && !works(n - m)
    ensures Tried(config, kind, works, n, m - 1) == Tried(config, kind, works, n, m)
  {
    if config != [] {
      TrySame(config[..|config| - 1], kind, works, n, m);
    }
  }

  /** Trying the indices in descending order leaves exactly the sections whose own deletion failed. */
  lemma {:induction false} TryAll(config: Config, kind: string, works: nat -> bool, m: nat)
    requires m <= Count(config, kind)
    ensures var n := Count(config, kind);
      DeleteEach(Tried(config, kind, works, n, m), kind, Downward(m), works, n - m) == Tried(config, kind, works, n, 0)
    decreases m
  {
    var n := Count(config, kind);
    if m > 0 {
      assert Downward(m)[0] == m - 1 && Downward(m)[1..] == Downward(m - 1);
      CountTried(config, kind, works, n, m);
      if works(n - m) {
        TryOneMore(config, kind, works, n, m);
      } else {
        TrySame(config, kind, works, n, m);
      }
      TryAll(config, kind, works, m - 1);
    }
  }

  /** What is left of a configuration when each of its peer sections is listed once. */
  function Survivors(config: Config, kind: string, works: nat -> bool): Config {
    Tried(config, kind, works, Count(config, kind), 0)
  }

  lemma DeletedExceptFailed(config: Config, kind: string, works: nat -> bool)
    ensures DeleteEach(config, kind, Downward(Count(config, kind)), works, 0) == Survivors(config, kind, works)
  {
    TriedNone(config, kind, works, Count(config, kind), Count(config, kind));
    TryAll(config, kind, works, Count(config, kind));
  }

  /** Counting sections: whatever survives is there beside all sections of other types. */
  lemma {:induction false} SurvivorCount(config: Config, kind: string, works: nat -> bool, n: nat)
    requires Count(config, kind) <= n
    ensures |Tried(config, kind, works, n, 0)| >= |Without(config, kind)|
    ensures |Tried(config, kind, works, n, 0)| == |Without(config, kind)| ==>
              && Tried(config, kind, works, n, 0) == Without(config, kind)
              && forall k :: n - Count(config, kind) <= k < n ==> works(k)
    ensures (forall k :: n - Count(config, kind) <= k < n ==> works(k)) ==> Tried(config, kind, works, n, 0) == Without(config, kind)
  {
    if config != [] {
      SurvivorCount(config[..|config| - 1], kind, works, n);
    }
  }

  // ------------------------------------------------------------------ sections by name

  ghost predicate AnonymousPeers(config: Config, kind: string) {
    forall s :: s in config && s.kind == kind ==> s.name.None?
  }

  /** No two sections have the name. */
  ghost predicate OnceNamed(config: Config, name: string) {
    forall i, j :: 0 <= i < j < |config| ==> !(config[i].name == Some(name) && config[j].name == Some(name))
  }

  function NamedCount(config: Config, name: string): nat {
    if config == [] then 0
    else NamedCount(config[..|config| - 1], name) + (if config[|config| - 1].name == Some(name) then 1 else 0)
  }

  lemma {:induction false} DeletedLength(config: Config, name: string)
    ensures |DeleteNamed(config, name)| + NamedCount(config, name) == |config|
    ensures NamedCount(config, name) == 0 <==> NoneNamed(config, name)
    ensures NoneNamed(config, name) ==> DeleteNamed(config, name) == config
  {
    if config != [] {
      var front, last := config[..|config| - 1], config[|config| - 1];
      assert config == front + [last];
      DeletedLength(front, name);
    }
  }

  lemma {:induction false} NamesKept(config: Config, kind: string, works: nat -> bool, n: nat, name: string)
    requires Count(config, kind) <= n && AnonymousPeers(config, kind)
    ensures NamedCount(Tried(config, kind, works, n, 0), name) == NamedCount(config, name) == NamedCount(Without(config, kind), name)
  {
    if config != [] {
      var front, last := config[..|config| - 1], config[|config| - 1];
      assert last in config && forall s :: s in front ==> s in config;
      NamesKept(front, kind, works, n, name);
      NamedAppend(Tried(front, kind, works, n, 0), last, name);
      NamedAppend(Without(front, kind), last, name);
      assert Tried(front, kind, works, n, 0) + [] == Tried(front, kind, works, n, 0);
      assert Without(front, kind) + [] == Without(front, kind);
    }
  }

  lemma NamedAppend(config: Config, s: Section, name: string)
    ensures NamedCount(config + [s], name) == NamedCount(config, name) + (if s.name == Some(name) then 1 else 0)
  {
    assert (config + [s])[..|config|] == config;
  }

  lemma {:induction false} OnceCounted(config: Config, name: string)
    requires OnceNamed(config, name)
    ensures NamedCount(config, name) <= 1
  {
    if config != [] {
      var front, last := config[..|config| - 1], config[|config| - 1];
      OnceCounted(front, name);
      if last.name == Some(name) {
        DeletedLength(front, name);
        forall s | s in front ensures s.name != Some(name) {
          var i :| 0 <= i < |front| && front[i] == s;
          assert config[i] == s;
        }
      }
    }
  }

  lemma {:induction false} FindNamed(config: Config, name: string) returns (p: nat)
    requires NamedCount(config, name) == 1
    ensures p < |config| && config[p].name == Some(name)
    ensures forall i :: 0 <= i < |config| && i != p ==> config[i].name != Some(name)
  {
    var front, last := config[..|config| - 1], config[|config| - 1];
    DeletedLength(front, name);
    if last.name == Some(name) {
      forall i | 0 <= i < |config| && i != |config| - 1 ensures config[i].name != Some(name) {
        assert config[i] == front[i] && front[i] in front;
      }
      return |config| - 1;
    }
    p := FindNamed(front, name);
    assert forall i :: 0 <= i < |front| ==> config[i] == front[i];
  }

  // ------------------------------------------------------- an interface that was not deleted

  lemma {:induction false} ResolveAt(config: Config, name: string, p: nat)
    requires p < |config| && config[p].name == Some(name)
    requires forall i :: p < i < |config| ==> config[i].name != Some(name)
    ensures Resolve(config, Named(name)) == Some(p)
  {
    if p < |config| - 1 {
      ResolveAt(config[..|config| - 1], name, p);
    }
  }

  /** Commands about a named section change it in place. */
  lemma {:induction false} ExecInPlace(config: Config, name: string, p: nat, script: seq<Command>)
    requires p < |config| && config[p].name == Some(name)
    requires forall i :: 0 <= i < |config| && i != p ==> config[i].name != Some(name)
    requires forall c :: c in script ==> (c.SetOption? || c.AddToList?) && c.ref == Named(name)
    ensures ExecAll(config, script) == config[p := EditAll(config[p], script)]
    decreases |script|
  {
    if script == [] {
      assert config[p := config[p]] == config;
    } else {
      var front, c := script[..|script| - 1], script[|script| - 1];
      assert c in script;
      ExecInPlace(config, name, p, front);
      EditKeepsPlace(config[p], front);
      var now := config[p := EditAll(config[p], front)];
      ResolveAt(now, name, p);
      assert now[p := Edit(now[p], c)] == config[p := Edit(now[p], c)];
    }
  }

  /** The old section, retyped and with the new options set over the old ones. */
  function Overwritten(before: Section, name: string, parsed: Parsed): Section {
    EditAll(before.(kind := "interface"), InterfaceOptionCommands(name, parsed))
  }

  lemma CommandRefs(name: string, parsed: Parsed)
    ensures forall c :: c in InterfaceOptionCommands(name, parsed) ==> (c.SetOption? || c.AddToList?) && c.ref == Named(name)
  {
    MakesInterface(name, parsed);
  }

  lemma InterfaceOverwritten(config: Config, name: string, p: nat, parsed: Parsed)
    requires p < |config| && config[p].name == Some(name)
    requires forall i :: 0 <= i < |config| && i != p ==> config[i].name != Some(name)
    ensures ExecAll(config, [SetSection(name, "interface")] + InterfaceOptionCommands(name, parsed))
         == config[p := Overwritten(config[p], name, parsed)]
  {
    var c, cmds := SetSection(name, "interface"), InterfaceOptionCommands(name, parsed);
    ExecConcat(config, [c], cmds);
    assert [c][..0] == [] && ExecAll(config, [c]) == Exec(config, c);
    ResolveAt(config, name, p);
    var retyped := config[p := config[p].(kind := "interface")];
    CommandRefs(name, parsed);
    ExecInPlace(retyped, name, p, cmds);
    assert retyped[p := Overwritten(config[p], name, parsed)] == config[p := Overwritten(config[p], name, parsed)];
  }

  /** On a configuration that still has the interface the commands overwrite it where it stands. */
  lemma ScriptOverwrites(config: Config, name: string, p: nat, parsed: Parsed)
    requires p < |config| && config[p].name == Some(name)
    requires forall i :: 0 <= i < |config| && i != p ==> config[i].name != Some(name)
    ensures ExecAll(config, Script(name, parsed))
         == config[p := Overwritten(config[p], name, parsed)] + PeerSections(name, RouteFlag(parsed), parsed.peers)
  {
    var first := [SetSection(name, "interface")] + InterfaceOptionCommands(name, parsed);
    InterfaceOverwritten(config, name, p, parsed);
    ExecConcat(config, first, PeerCommands(name, RouteFlag(parsed), parsed.peers));
    PeersBuilt(config[p := Overwritten(config[p], name, parsed)], name, RouteFlag(parsed), parsed.peers);
  }

  // ------------------------------------------------------------- overwriting old options

  /** The items a list option has before anything is added to it. */
  function ListBefore(options: map<string, Value>, option: string): seq<string> {
    if option !in options then []
    else match options[option]
      case Scalar(text) => [text]
      case List(items) => items
  }

  function WithList(options: map<string, Value>, option: string, items: seq<string>): map<string, Value> {
    if items == [] then options else options[option := List(ListBefore(options, option) + items)]
  }

  lemma {:induction false} EditSetListOver(s: Section, ref: Ref, option: string, items: seq<string>)
    ensures EditAll(s, SetList(ref, option, items)) == s.(options := WithList(s.options, option, items))
    decreases |items|
  {
    if items != [] {
      var front, last := items[..|items| - 1], items[|items| - 1];
      EditSetListOver(s, ref, option, front);
      EditConcat(s, SetList(ref, option, front), [AddToList(ref, option, last)]);
      EditOne(EditAll(s, SetList(ref, option, front)), AddToList(ref, option, last));
      AddToEnd(s.options, option, front, last);
      assert front + [last] == items;
    }
  }

  lemma AddToEnd(options: map<string, Value>, option: string, front: seq<string>, last: string)
    ensures var t := WithList(options, option, front);
      t[option := Appended(t, option, last)] == WithList(options, option, front + [last])
  {
    var before, t := ListBefore(options, option), WithList(options, option, front);
    assert Appended(t, option, last) == List(ListBefore(t, option) + [last]);
    assert ListBefore(t, option) == before + front;
    assert before + front + [last] == before + (front + [last]);
  }

  /** The options after the commands for the interface have run over old ones. */
  function Overlay(options: map<string, Value>, parsed: Parsed): map<string, Value> {
    var o1 := options["proto" := Scalar("wireguard")];
    var o2 := With(o1, "private_key", TextValue(parsed.privateKey));
    var o3 := WithList(o2, "addresses", parsed.addresses);
    var o4 := With(o3, "listen_port", NumberValue(parsed.listenPort));
    var o5 := With(o4, "mtu", NumberValue(parsed.mtu));
    With(o5, "fwmark", TextValue(parsed.fwmark))
  }

  lemma MakesListOver(ref: Ref, s: Section, script: seq<Command>, t: Section, option: string, items: seq<string>)
    requires Makes(ref, s, script, t)
    ensures Makes(ref, s, script + SetList(ref, option, items), t.(options := WithList(t.options, option, items)))
  {
    EditSetListOver(t, ref, option, items);
    SetListRefs(ref, option, items);
    MakesThen(ref, s, script, t, SetList(ref, option, items), t.(options := WithList(t.options, option, items)));
  }

  lemma OverwrittenOptions(before: Section, name: string, parsed: Parsed)
    ensures Overwritten(before, name, parsed) == Section(before.name, "interface", Overlay(before.options, parsed))
  {
    var ref, s := Named(name), before.(kind := "interface");
    var c1 := [SetOption(ref, "proto", "wireguard")];
    var t1 := s.(options := s.options["proto" := Scalar("wireguard")]);
    EditOne(s, SetOption(ref, "proto", "wireguard"));
    assert Makes(ref, s, c1, t1);
    var c2, t2 := c1 + SetText(ref, "private_key", parsed.privateKey), t1.(options := With(t1.options, "private_key", TextValue(parsed.privateKey)));
    MakesText(ref, s, c1, t1, "private_key", parsed.privateKey);
    var c3, t3 := c2 + SetList(ref, "addresses", parsed.addresses), t2.(options := WithList(t2.options, "addresses", parsed.addresses));
    MakesListOver(ref, s, c2, t2, "addresses", parsed.addresses);
    var c4, t4 := c3 + SetNumber(ref, "listen_port", parsed.listenPort), t3.(options := With(t3.options, "listen_port", NumberValue(parsed.listenPort)));
    MakesNumber(ref, s, c3, t3, "listen_port", parsed.listenPort);
    var c5, t5 := c4 + SetNumber(ref, "mtu", parsed.mtu), t4.(options := With(t4.options, "mtu", NumberValue(parsed.mtu)));
    MakesNumber(ref, s, c4, t4, "mtu", parsed.mtu);
    MakesText(ref, s, c5, t5, "fwmark", parsed.fwmark);
  }

  /** The old options, replaced by the new ones where there are new ones. */
  lemma WithOver(m: map<string, Value>, t: map<string, Value>, option: string, value: Option<Value>)
    ensures With(m + t, option, value) == m + With(t, option, value)
  {
    if value.Some? {
      assert (m + t)[option := value.value] == m + t[option := value.value];
    }
  }

  lemma AddressIsNoOther()
    ensures "addresses" != "proto" && "addresses" != "private_key" && "addresses" != "listen_port"
    ensures "addresses" != "mtu" && "addresses" != "fwmark"
  {
    assert "addresses"[0] == 'a' && "proto"[0] == 'p' && "private_key"[0] == 'p';
    assert "listen_port"[0] == 'l' && "mtu"[0] == 'm' && "fwmark"[0] == 'f';
  }

  /** Without old addresses the new options simply cover the old ones. */
  lemma OverlayCovers(options: map<string, Value>, parsed: Parsed)
    requires ListBefore(options, "addresses") == []
    ensures Overlay(options, parsed) == options + Overlay(map[], parsed)
  {
    var t1: map<string, Value> := map[]["proto" := Scalar("wireguard")];
    assert options["proto" := Scalar("wireguard")] == options + t1;
    var t2 := With(t1, "private_key", TextValue(parsed.privateKey));
    WithOver(options, t1, "private_key", TextValue(parsed.privateKey));
    AddressIsNoOther();
    assert "addresses" !in t2 && ListBefore(options + t2, "addresses") == [] && ListBefore(t2, "addresses") == [];
    var t3 := WithList(t2, "addresses", parsed.addresses);
    assert WithList(options + t2, "addresses", parsed.addresses) == options + t3 by {
      if parsed.addresses != [] {
        assert (options + t2)["addresses" := List([] + parsed.addresses)] == options + t2["addresses" := List([] + parsed.addresses)];
      }
    }
    var t4 := With(t3, "listen_port", NumberValue(parsed.listenPort));
    WithOver(options, t3, "listen_port", NumberValue(parsed.listenPort));
    var t5 := With(t4, "mtu", NumberValue(parsed.mtu));
    WithOver(options, t4, "mtu", NumberValue(parsed.mtu));
    WithOver(options, t5, "fwmark", TextValue(parsed.fwmark));
  }

  /** Old addresses stay in front of the new ones. */
  lemma OverlayKeepsAddresses(options: map<string, Value>, parsed: Parsed)
    ensures ListBefore(Overlay(options, parsed), "addresses") == ListBefore(options, "addresses") + parsed.addresses
    ensures "addresses" in options || parsed.addresses != [] <==> "addresses" in Overlay(options, parsed)
  {
    AddressIsNoOther();
    assert ListBefore(options, "addresses") + [] == ListBefore(options, "addresses");
  }

  lemma TargetOptions(name: string, parsed: Parsed)
    ensures InterfaceSection(name, parsed).options == Overlay(map[], parsed)
  {
    AddressIsNoOther();
    assert [] + parsed.addresses == parsed.addresses;
  }

  /** Old options that setting the new ones over them makes disappear without a trace. */
  predicate CoveredBy(options: map<string, Value>, target: map<string, Value>) {
    options.Keys <= target.Keys && ("addresses" in options ==> options["addresses"] == List([]))
  }

  lemma OverwrittenIff(before: Section, name: string, parsed: Parsed)
    requires before.name == Some(name)
    ensures Overwritten(before, name, parsed) == InterfaceSection(name, parsed)
      <==> CoveredBy(before.options, InterfaceSection(name, parsed).options)
  {
    var options, target := before.options, InterfaceSection(name, parsed).options;
    OverwrittenOptions(before, name, parsed);
    TargetOptions(name, parsed);
    OverlayKeepsAddresses(options, parsed);
    OverlayKeepsAddresses(map[], parsed);
    if ListBefore(options, "addresses") == [] {
      OverlayCovers(options, parsed);
      if CoveredBy(options, target) {
        assert options + target == target;
      } else if "addresses" in options && options["addresses"] != List([]) {
        assert false;
      } else {
        var k :| k in options && k !in target;
        assert k in options + target;
      }
    } else {
      PrefixDiffers(ListBefore(options, "addresses"), parsed.addresses);
    }
  }

  lemma PrefixDiffers(a: seq<string>, b: seq<string>)
    requires a != []
    ensures a + b != b
  {
    assert |a + b| > |b|;
  }

  // ---------------------------------------------------------------------- the theorem

  /** The interface section was not deleted, but it is the last of the others and setting the new options covers the old ones. */
  predicate RebuiltInPlace(others: Config, name: string, parsed: Parsed) {
    && others != [] && others[|others| - 1].name == Some(name)
    && CoveredBy(others[|others| - 1].options, InterfaceSection(name, parsed).options)
  }

  /** Nothing of the interface is left: the result is exact if and only if no old peer survived. */
  lemma ExactWhenNoneNamed(config: Config, name: string, parsed: Parsed, works: nat -> bool, base: Config)
    requires AnonymousPeers(config, PeerKind(name))
    requires base == DeleteNamed(Survivors(config, PeerKind(name), works), name)
    ensures ExecAll(base, Script(name, parsed)) == Rest(config, name) + Deployment(name, parsed)
      <==> AllWork(works, 0, Count(config, PeerKind(name)))
  {
    var kind, n := PeerKind(name), Count(config, PeerKind(name));
    NoneNamedLeft(Survivors(config, kind, works), name);
    ScriptBuilds(base, name, parsed);
    SurvivorCount(config, kind, works, n);
    NamesKept(config, kind, works, n, name);
    DeletedLength(Survivors(config, kind, works), name);
    DeletedLength(Without(config, kind), name);
    SameFront(base, Rest(config, name), Deployment(name, parsed));
  }

  lemma SameFront(a: Config, b: Config, c: Config)
    ensures a + c == b + c <==> a == b
  {
    if a + c == b + c {
      assert |a + c| == |a| + |c| && |b + c| == |b| + |c|;
      assert (a + c)[..|a|] == a && (b + c)[..|b|] == b;
    }
  }

  /** Replacing the last section is deleting it and appending the new one. */
  lemma ReplaceLast(others: Config, name: string, made: Section)
    requires others != [] && others[|others| - 1].name == Some(name)
    requires forall i :: 0 <= i < |others| - 1 ==> others[i].name != Some(name)
    ensures others[|others| - 1 := made] == DeleteNamed(others, name) + [made]
  {
    var front := others[..|others| - 1];
    forall s | s in front ensures s.name != Some(name) {
      var i :| 0 <= i < |front| && front[i] == s;
      assert others[i] == s;
    }
    DeletedLength(front, name);
    assert front + [] == front;
  }

  lemma ExactWhenKept(config: Config, name: string, parsed: Parsed, works: nat -> bool)
    requires AnonymousPeers(config, PeerKind(name)) && NamedCount(config, name) == 1
    ensures ExecAll(Survivors(config, PeerKind(name), works), Script(name, parsed)) == Rest(config, name) + Deployment(name, parsed)
      <==> AllWork(works, 0, Count(config, PeerKind(name))) && RebuiltInPlace(Without(config, PeerKind(name)), name, parsed)
  {
    var kind, n := PeerKind(name), Count(config, PeerKind(name));
    var left, others := Survivors(config, kind, works), Without(config, kind);
    var peers := PeerSections(name, RouteFlag(parsed), parsed.peers);
    SurvivorCount(config, kind, works, n);
    NamesKept(config, kind, works, n, name);
    var p := FindNamed(left, name);
    ScriptOverwrites(left, name, p, parsed);
    var made := Overwritten(left[p], name, parsed);
    Regroup(Rest(config, name), InterfaceSection(name, parsed), peers);
    SameFront(left[p := made], Rest(config, name) + [InterfaceSection(name, parsed)], peers);
    DeletedLength(others, name);
    if left == others {
      KeptIff(others, name, p, parsed);
    } else {
      assert |left[p := made]| == |left| > |others|;
    }
  }

  lemma KeptIff(others: Config, name: string, p: nat, parsed: Parsed)
    requires p < |others| && others[p].name == Some(name)
    requires forall i :: 0 <= i < |others| && i != p ==> others[i].name != Some(name)
    ensures others[p := Overwritten(others[p], name, parsed)] == DeleteNamed(others, name) + [InterfaceSection(name, parsed)]
      <==> RebuiltInPlace(others, name, parsed)
  {
    var made, target := Overwritten(others[p], name, parsed), InterfaceSection(name, parsed);
    OverwrittenOptions(others[p], name, parsed);
    OverwrittenIff(others[p], name, parsed);
    var left := DeleteNamed(others, name);
    if p == |others| - 1 {
      ReplaceLast(others, name, made);
    }
    if others[p := made] == left + [target] {
      LastIsTarget(others, p, made, left, target, name);
    }
  }

  lemma LastIsTarget(others: Config, p: nat, made: Section, left: Config, target: Section, name: string)
    requires p < |others| && others[p := made] == left + [target] && target.name == Some(name)
    requires forall i :: 0 <= i < |others| && i != p ==> others[i].name != Some(name)
    ensures p == |others| - 1 && made == target
  {
    assert |left + [target]| == |left| + 1 == |others|;
    assert (left + [target])[|left|] == target;
    assert others[p := made][|left|] == target;
  }

  /**
  When the listing names each old peer section once, the committed result is the untouched rest
  and the parsed configuration exactly when every deletion of an old peer section works, and so
  does that of the interface section, unless there is none or it is rebuilt identically in place.
   */
  lemma ExactIff(config: Config, name: string, parsed: Parsed, replies: Replies)
    requires PeerIndices(name, SplitLines(replies.listing)) == Downward(Count(config, PeerKind(name)))
    requires AnonymousPeers(config, PeerKind(name)) && OnceNamed(config, name)
    ensures var n := Count(config, PeerKind(name));
      Installed(config, name, parsed, replies) == Rest(config, name) + Deployment(name, parsed)
      <==> && AllWork(replies.works, 0, n)
           && (replies.works(n) || NoneNamed(config, name) || RebuiltInPlace(Without(config, PeerKind(name)), name, parsed))
  {
    var kind, n := PeerKind(name), Count(config, PeerKind(name));
    DeletedExceptFailed(config, kind, replies.works);
    DownwardLength(n);
    var left := Survivors(config, kind, replies.works);
    DeletedLength(config, name);
    OnceCounted(config, name);
    NamesKept(config, kind, replies.works, n, name);
    DeletedLength(left, name);
    if replies.works(n) || NoneNamed(config, name) {
      ExactWhenNoneNamed(config, name, parsed, replies.works, DeleteNamed(left, name));
    } else {
      ExactWhenKept(config, name, parsed, replies.works);
    }
  }

  lemma {:induction false} DownwardLength(n: nat)
    ensures |Downward(n)| == n
  {
    if n > 0 {
      DownwardLength(n - 1);
    }
  }

  // ----------------------------------------------------------------- listings and failures

  /** A line of the listing that is no header of a peer section of the interface. */
  predicate Unrelated(name: string, line: string) {
    !(ListPrefix(name) <= line) || LastIndex(line, "]=").None?
  }

  /** A listing with the header lines of n peer sections in their order, between any unrelated lines. */
  predicate ListsInOrder(name: string, lines: seq<string>, n: nat) {
    if lines == [] then n == 0
    else
      var front, last := lines[..|lines| - 1], lines[|lines| - 1];
      || (Unrelated(name, last) && ListsInOrder(name, front, n))
      || (n > 0 && last == HeaderLine(name, n - 1) && ListsInOrder(name, front, n - 1))
  }

  lemma {:induction false} ListedUpward(name: string, lines: seq<string>, n: nat)
    requires ListsInOrder(name, lines, n)
    ensures ListedIndices(name, lines) == Upward(n)
    decreases |lines|
  {
    if lines != [] {
      var front, last := lines[..|lines| - 1], lines[|lines| - 1];
      if Unrelated(name, last) && ListsInOrder(name, front, n) {
        ListedUpward(name, front, n);
        assert ListedIndices(name, front) + [] == ListedIndices(name, front);
      } else {
        ListedUpward(name, front, n - 1);
        HeaderIsListed(name, n - 1);
      }
    }
  }

  /** Such a listing gives the indices of the peer sections downward, each once. */
  lemma InOrderListing(name: string, lines: seq<string>, n: nat)
    requires ListsInOrder(name, lines, n)
    ensures PeerIndices(name, lines) == Downward(n)
  {
    ListedUpward(name, lines, n);
    SortUpward(n);
  }

  lemma {:induction false} SortUpward(n: nat)
    ensures SortDown(Upward(n)) == Downward(n)
  {
    if n > 0 {
      SortUpward(n - 1);
      DownwardMembers(n - 1);
      InsertGreatest(Downward(n - 1), n - 1);
      SortAppend(Upward(n - 1), n - 1);
    }
  }

  lemma SortAppend(xs: seq<int>, x: int)
    ensures SortDown(xs + [x]) == InsertDown(SortDown(xs), x)
  {
    assert (xs + [x])[..|xs|] == xs;
  }

  lemma {:induction false} DownwardMembers(n: nat)
    ensures forall y :: y in Downward(n) ==> 0 <= y < n
  {
    if n > 0 {
      DownwardMembers(n - 1);
    }
  }

  lemma {:induction false} InsertGreatest(sorted: seq<int>, x: int)
    requires forall y :: y in sorted ==> y < x
    ensures InsertDown(sorted, x) == [x] + sorted
  {
    if sorted != [] {
      var front, last := sorted[..|sorted| - 1], sorted[|sorted| - 1];
      assert last in sorted && forall y :: y in front ==> y in sorted;
      InsertGreatest(front, x);
      assert sorted == front + [last];
    }
  }

  /** An old peer section whose deletion fails stays in front of the new ones, although the deployment succeeds. */
  lemma StalePeerStays(s: Section, name: string, parsed: Parsed, replies: Replies)
    requires s.kind == PeerKind(name) && s.name.None?
    requires PeerIndices(name, SplitLines(replies.listing)) == [0] && !replies.works(0)
    ensures Installed([s], name, parsed, replies) == [s] + Deployment(name, parsed)
  {
    assert [0][1..] == [] && DeleteEach([s], PeerKind(name), [0], replies.works, 0) == [s];
    DeletedLength([s], name);
    ScriptBuilds([s], name, parsed);
  }

  /** An old interface section whose deletion fails keeps its old addresses in front of the new ones. */
  lemma StaleAddressesStay(s: Section, name: string, parsed: Parsed, replies: Replies)
    requires s.name == Some(name) && s.kind != PeerKind(name)
    requires PeerIndices(name, SplitLines(replies.listing)) == [] && !replies.works(0)
    ensures Installed([s], name, parsed, replies) != []
    ensures ListBefore(Installed([s], name, parsed, replies)[0].options, "addresses") == ListBefore(s.options, "addresses") + parsed.addresses
  {
    ScriptOverwrites([s], name, 0, parsed);
    OverwrittenOptions(s, name, parsed);
    OverlayKeepsAddresses(s.options, parsed);
  }

}
