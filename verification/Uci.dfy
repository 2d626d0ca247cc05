/**
Deployment on OpenWrt: a parsed wg-quick configuration is compiled into commands
on the sections of the network configuration, which are staged, committed and,
if the interface does not come up, rolled back.
 */
module Uci {

  import opened Wrappers
  import opened Text
  import opened Endpoint
  import opened WgQuick

  // ------------------------------------------------------------- the section store

  datatype Value = Scalar(text: string) | List(items: seq<string>)

  /** A section; anonymous ones are addressed by their type and position among that type. */
  datatype Section = Section(name: Option<string>, kind: string, options: map<string, Value>)

  type Config = seq<Section>

  /** The section a command is about: one with a name, or the one of a type that was added last. */
  datatype Ref = Named(name: string) | Added(kind: string)

  datatype Command =
    | SetSection(name: string, kind: string)
    | AddSection(kind: string)
    | SetOption(ref: Ref, option: string, text: string)
    | AddToList(ref: Ref, option: string, text: string)

  predicate Matches(ref: Ref, s: Section) {
    match ref
    case Named(name) => s.name == Some(name)
    case Added(kind) => s.kind == kind
  }

  /** The position of the last section a reference matches. */
  function Resolve(config: Config, ref: Ref): (at: Option<nat>)
    ensures at.Some? ==> at.value < |config| && Matches(ref, config[at.value])
  {
    if config == [] then None
    else if Matches(ref, config[|config| - 1]) then Some(|config| - 1)
    else Resolve(config[..|config| - 1], ref)
  }

  function Appended(options: map<string, Value>, option: string, text: string): Value {
    if option !in options then List([text])
    else match options[option]
      case Scalar(first) => List([first, text])
      case List(items) => List(items + [text])
  }

  /** What a command about a section does to it. */
  function Edit(s: Section, c: Command): Section {
    match c
    case SetOption(_, option, text) => s.(options := s.options[option := Scalar(text)])
    case AddToList(_, option, text) => s.(options := s.options[option := Appended(s.options, option, text)])
    case _ => s
  }

  function EditAt(config: Config, at: Option<nat>, c: Command): Config
    requires at.Some? ==> at.value < |config|
  {
    if at.None? then config else config[at.value := Edit(config[at.value], c)]
  }

  function Exec(config: Config, c: Command): Config {
    match c
    case SetSection(name, kind) =>
      var at := Resolve(config, Named(name));
      if at.None? then config + [Section(Some(name), kind, map[])] else config[at.value := config[at.value].(kind := kind)]
    case AddSection(kind) => config + [Section(None, kind, map[])]
    case SetOption(ref, _, _) => EditAt(config, Resolve(config, ref), c)
    case AddToList(ref, _, _) => EditAt(config, Resolve(config, ref), c)
  }

  function ExecAll(config: Config, script: seq<Command>): Config {
    if script == [] then config else Exec(ExecAll(config, script[..|script| - 1]), script[|script| - 1])
  }

  // ---------------------------------------------------------------------- deletion

  function Count(config: Config, kind: string): nat {
    if config == [] then 0 else Count(config[..|config| - 1], kind) + (if config[|config| - 1].kind == kind then 1 else 0)
  }

  /** Deletes the n-th section of a type. */
  function RemoveNth(config: Config, kind: string, n: nat): Config
    requires n < Count(config, kind)
  {
    var front, last := config[..|config| - 1], config[|config| - 1];
    if last.kind == kind && Count(front, kind) == n then front else RemoveNth(front, kind, n) + [last]
  }

  /** Deletes by index, counted from the end when negative; a section that is not there is an error that is ignored. */
  function Delete(config: Config, kind: string, index: int): Config {
    var n := if index < 0 then index + Count(config, kind) else index;
    if 0 <= n < Count(config, kind) then RemoveNth(config, kind, n) else config
  }

  /** Deletes one index after the other, where the k-th command may fail without effect. */
  function DeleteEach(config: Config, kind: string, indices: seq<int>, works: nat -> bool, k: nat): Config
    decreases |indices|
  {
    if indices == [] then config
    else
      var next := if works(k) then Delete(config, kind, indices[0]) else config;
      DeleteEach(next, kind, indices[1..], works, k + 1)
  }

  function DeleteNamed(config: Config, name: string): Config {
    if config == [] then []
    else DeleteNamed(config[..|config| - 1], name) + (if config[|config| - 1].name == Some(name) then [] else [config[|config| - 1]])
  }

  /** The configuration with only the first m sections of a type. */
  function KeepFirst(config: Config, kind: string, m: nat): Config {
    if config == [] then []
    else
      var front, last := config[..|config| - 1], config[|config| - 1];
      KeepFirst(front, kind, m) + (if last.kind == kind && Count(front, kind) >= m then [] else [last])
  }

  /** All sections that are not of a type. */
  function Without(config: Config, kind: string): Config {
    if config == [] then []
    else Without(config[..|config| - 1], kind) + (if config[|config| - 1].kind == kind then [] else [config[|config| - 1]])
  }

  predicate Descending(indices: seq<int>) {
    forall i, j :: 0 <= i < j < |indices| ==> indices[i] >= indices[j]
  }

  ghost predicate Covers(indices: seq<int>, m: nat) {
    forall i :: 0 <= i < m ==> i in indices
  }

  lemma {:induction false} CountKept(config: Config, kind: string, m: nat)
    ensures Count(KeepFirst(config, kind, m), kind) == if m < Count(config, kind) then m else Count(config, kind)
  {
    if config != [] {
      var front, last := config[..|config| - 1], config[|config| - 1];
      CountKept(front, kind, m);
      var kept := KeepFirst(front, kind, m);
      if last.kind == kind && Count(front, kind) >= m {
        assert kept + [] == kept;
      } else {
        assert (kept + [last])[..|kept|] == kept;
      }
    }
  }

  /** Deleting the last of the first m sections leaves the first m - 1. */
  lemma {:induction false} RemoveLastKept(config: Config, kind: string, m: nat)
    requires 0 < m <= Count(config, kind)
    ensures Count(KeepFirst(config, kind, m), kind) == m
    ensures RemoveNth(KeepFirst(config, kind, m), kind, m - 1) == KeepFirst(config, kind, m - 1)
  {
    CountKept(config, kind, m);
    var front, last := config[..|config| - 1], config[|config| - 1];
    var kept := KeepFirst(front, kind, m);
    CountKept(front, kind, m);
    if last.kind == kind && Count(front, kind) >= m {
      RemoveLastKept(front, kind, m);
      assert kept + [] == kept;
      assert KeepFirst(front, kind, m - 1) + [] == KeepFirst(front, kind, m - 1);
    } else {
      assert (kept + [last])[..|kept|] == kept;
      if last.kind == kind && Count(front, kind) == m - 1 {
        KeepAll(front, kind, m);
        KeepAll(front, kind, m - 1);
        assert kept == front == KeepFirst(front, kind, m - 1) + [];
      } else {
        RemoveLastKept(front, kind, m);
      }
    }
  }

  lemma {:induction false} KeepAll(config: Config, kind: string, m: nat)
    requires Count(config, kind) <= m
    ensures KeepFirst(config, kind, m) == config
  {
    if config != [] {
      KeepAll(config[..|config| - 1], kind, m);
    }
  }

  lemma {:induction false} KeepNone(config: Config, kind: string)
    ensures KeepFirst(config, kind, 0) == Without(config, kind)
  {
    if config != [] {
      KeepNone(config[..|config| - 1], kind);
    }
  }

  lemma CoversRest(indices: seq<int>, m: nat)
    requires indices != [] && Descending(indices) && Covers(indices, m)
    ensures Descending(indices[1..])
    ensures m > 0 ==> indices[0] >= m - 1
    ensures Covers(indices[1..], if indices[0] == m - 1 && m > 0 then m - 1 else m)
  {
    var first, rest := indices[0], indices[1..];
    assert indices == [first] + rest;
    assert m > 0 ==> m - 1 in indices;
    forall i | i in indices ensures i <= first {
      var j :| 0 <= j < |indices| && indices[j] == i;
    }
    forall i | 0 <= i < m && i != first ensures i in rest {
      assert i in indices;
    }
  }

  /**
  Deleting in descending order removes every listed section although the indices
  shift; repeated, stale and negative indices do no harm.
   */
  lemma {:induction false} DescendingDeletes(config: Config, kind: string, m: nat, indices: seq<int>, works: nat -> bool, k: nat)
    requires m <= Count(config, kind) && Descending(indices) && Covers(indices, m)
    requires forall j :: k <= j < k + |indices| ==> works(j)
    ensures DeleteEach(KeepFirst(config, kind, m), kind, indices, works, k) == Without(config, kind)
    decreases |indices|
  {
    CountKept(config, kind, m);
    if indices == [] {
      assert m > 0 ==> 0 in indices;
      KeepNone(config, kind);
    } else {
      var first, rest := indices[0], indices[1..];
      CoversRest(indices, m);
      if m > 0 && first == m - 1 {
        RemoveLastKept(config, kind, m);
        DescendingDeletes(config, kind, m - 1, rest, works, k + 1);
      } else {
        DescendingDeletes(config, kind, m, rest, works, k + 1);
      }
    }
  }

  lemma {:induction false} RemoveKeepsOthers(config: Config, kind: string, n: nat)
    requires n < Count(config, kind)
    ensures Without(RemoveNth(config, kind, n), kind) == Without(config, kind)
  {
    var front, last := config[..|config| - 1], config[|config| - 1];
    if last.kind == kind && Count(front, kind) == n {
      assert Without(front, kind) + [] == Without(front, kind);
    } else {
      RemoveKeepsOthers(front, kind, n);
      assert (RemoveNth(front, kind, n) + [last])[..|RemoveNth(front, kind, n)|] == RemoveNth(front, kind, n);
    }
  }

  /** Whatever is listed and whichever deletions fail, sections of other types stay as they are. */
  lemma {:induction false} DeletesKeepOthers(config: Config, kind: string, indices: seq<int>, works: nat -> bool, k: nat)
    ensures Without(DeleteEach(config, kind, indices, works, k), kind) == Without(config, kind)
    decreases |indices|
  {
    if indices != [] {
      var n := if indices[0] < 0 then indices[0] + Count(config, kind) else indices[0];
      if 0 <= n < Count(config, kind) {
        RemoveKeepsOthers(config, kind, n);
      }
      DeletesKeepOthers(if works(k) then Delete(config, kind, indices[0]) else config, kind, indices[1..], works, k + 1);
    }
  }

  /** In ascending order the shifting indices would skip every other section. */
  lemma AscendingSkips(a: Section, b: Section)
    requires a.kind == b.kind
    ensures DeleteEach([a, b], a.kind, [0, 1], _ => true, 0) == [b]
  {
    var kind := a.kind;
    assert [a, b][..1] == [a] && [a][..0] == [] && [b][..0] == [];
    assert Count([a], kind) == 1 && Count([b], kind) == 1 && Count([a, b], kind) == 2;
    assert RemoveNth([a], kind, 0) == [];
    assert RemoveNth([a, b], kind, 0) == [] + [b] == [b];
    assert [0, 1][1..] == [1] && [1][1..] == [];
    assert Delete([b], kind, 1) == [b];
    assert DeleteEach([b], kind, [1], _ => true, 1) == [b];
  }

  // -------------------------------------------------------- the listing of sections

  function PeerKind(name: string): string {
    "wireguard_" + name
  }

  function ListPrefix(name: string): string {
    "network.@wireguard_" + name + "["
  }

  /** The line by which the listing announces the i-th peer section of an interface. */
  function HeaderLine(name: string, i: int): string {
    ListPrefix(name) + IntText(i) + "]=" + PeerKind(name)
  }

  /** The index a line of the listing tells, if it is about a peer section of the interface. */
  function ListedIndex(name: string, line: string): Option<int> {
    if !(ListPrefix(name) <= line) || LastIndex(line, "]=").None? then None
    else
      var rest := line[|ListPrefix(name)|..];
      ParseInt(rest[..IndexOf(rest, ']')])
  }

  function ListedIndices(name: string, lines: seq<string>): seq<int> {
    if lines == [] then []
    else
      var index := ListedIndex(name, lines[|lines| - 1]);
      ListedIndices(name, lines[..|lines| - 1]) + (if index.None? then [] else [index.value])
  }

  function InsertDown(sorted: seq<int>, x: int): seq<int> {
    if sorted == [] || sorted[|sorted| - 1] >= x then sorted + [x]
    else InsertDown(sorted[..|sorted| - 1], x) + [sorted[|sorted| - 1]]
  }

  function SortDown(xs: seq<int>): seq<int> {
    if xs == [] then [] else InsertDown(SortDown(xs[..|xs| - 1]), xs[|xs| - 1])
  }

  /** The indices to delete, greatest first. */
  function PeerIndices(name: string, lines: seq<string>): seq<int> {
    SortDown(ListedIndices(name, lines))
  }

  lemma {:induction false} InsertDownKeeps(sorted: seq<int>, x: int)
    requires Descending(sorted)
    ensures Descending(InsertDown(sorted, x))
    ensures forall y :: y in InsertDown(sorted, x) <==> y in sorted || y == x
  {
    if sorted != [] && sorted[|sorted| - 1] < x {
      var front, last := sorted[..|sorted| - 1], sorted[|sorted| - 1];
      InsertDownKeeps(front, x);
      var r := InsertDown(front, x);
      assert forall k :: 0 <= k < |r| ==> r[k] in r;
      assert sorted == front + [last];
    }
  }

  lemma {:induction false} SortDownSorts(xs: seq<int>)
    ensures Descending(SortDown(xs))
    ensures forall y :: y in SortDown(xs) <==> y in xs
  {
    if xs != [] {
      SortDownSorts(xs[..|xs| - 1]);
      InsertDownKeeps(SortDown(xs[..|xs| - 1]), xs[|xs| - 1]);
      assert xs == xs[..|xs| - 1] + [xs[|xs| - 1]];
    }
  }

  lemma HeaderIsListed(name: string, i: int)
    ensures ListedIndex(name, HeaderLine(name, i)) == Some(i)
  {
    var prefix, digits, end := ListPrefix(name), IntText(i), "]=" + PeerKind(name);
    var line := HeaderLine(name, i);
    assert line == prefix + (digits + end);
    assert line[|prefix|..] == digits + end;
    NotABracket(i);
    IndexOfFirst(digits, ']', end);
    assert (digits + end)[..|digits|] == digits;
    IntTextParses(i);
    BracketOccurs(prefix + digits, PeerKind(name));
    assert line == (prefix + digits) + "]=" + PeerKind(name);
  }

  lemma BracketOccurs(before: string, after: string)
    ensures LastIndex(before + "]=" + after, "]=").Some?
  {
    assert OccursAt(before + "]=" + after, "]=", |before|);
  }

  lemma {:induction false} ListedLine(name: string, lines: seq<string>, line: string)
    requires line in lines && ListedIndex(name, line).Some?
    ensures ListedIndex(name, line).value in ListedIndices(name, lines)
  {
    if line != lines[|lines| - 1] {
      ListedLine(name, lines[..|lines| - 1], line);
    }
  }

  /** A listing that announces every peer section gives all their indices, greatest first. */
  lemma ListingCovers(name: string, lines: seq<string>, m: nat)
    requires forall i :: 0 <= i < m ==> HeaderLine(name, i) in lines
    ensures Descending(PeerIndices(name, lines)) && Covers(PeerIndices(name, lines), m)
  {
    SortDownSorts(ListedIndices(name, lines));
    forall i | 0 <= i < m ensures i in PeerIndices(name, lines) {
      HeaderIsListed(name, i);
      ListedLine(name, lines, HeaderLine(name, i));
    }
  }

  lemma SamePrefix(name: string, other: string, rest: string)
    requires '[' !in name && '[' !in other && ListPrefix(name) <= ListPrefix(other) + rest
    ensures name == other
  {
    var start, line := "network.@wireguard_", ListPrefix(other) + rest;
    var tail, after := line[|start|..], line[|ListPrefix(name)|..];
    assert tail == other + ("[" + rest) == name + ("[" + after);
    IndexOfFirst(other, '[', "[" + rest);
    IndexOfFirst(name, '[', "[" + after);
    assert tail[..|other|] == other && tail[..|name|] == name;
  }

  /** Lines about another interface are not listed, not even when one name begins with the other. */
  lemma OtherInterfacesNotListed(name: string, other: string, rest: string)
    requires '[' !in name && '[' !in other && name != other
    ensures ListedIndex(name, ListPrefix(other) + rest).None?
  {
    if ListPrefix(name) <= ListPrefix(other) + rest {
      SamePrefix(name, other, rest);
    }
  }

}
