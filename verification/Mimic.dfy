/**
The mimic configuration of a network interface: the user's own text, followed by a
managed block that is rebuilt from one snippet file for each connection.
 */
module Mimic {

  import opened Wrappers
  import opened Text
  import opened Endpoint
  import opened WgQuick
  import opened ManagedBlock
  import opened SnippetFiles

  const MIMIC_MARKERS := Markers("# BEGIN Link42 managed mimic filters", "# END Link42 managed mimic filters")

  // --------------------------------------------------------------------- rendering

  function JoinBlank(parts: seq<string>): string {
    if parts == [] then "" else if |parts| == 1 then parts[0] else parts[0] + "\n\n" + JoinBlank(parts[1..])
  }

  function Snippets(entries: seq<Entry>): seq<string> {
    if entries == [] then [] else [Trim(entries[0].text)] + Snippets(entries[1..])
  }

  /** The snippets in path order, a blank line between them. */
  function Body(entries: seq<Entry>): string {
    Trim(JoinBlank(Snippets(entries)))
  }

  function StripContent(m: Markers, content: string): string {
    Trim(RemoveBlocks(m, content)) + (if Trim(content) == "" then "" else "\n")
  }

  /** The configuration rebuilt from its user part and the snippet files. */
  function RenderConfig(m: Markers, entries: seq<Entry>, system: Option<string>): string {
    var base := StripContent(m, OrEmpty(system));
    var block := if entries == [] then "" else Block(m, Body(entries)) + "\n";
    var parts := NonEmpty([Trim(base), Trim(block)]);
    TrimRight(JoinBlank(parts)) + (if parts == [] then "" else "\n")
  }

  /** The user's text alone, or followed by the block. */
  function Form(m: Markers, user: string, entries: seq<Entry>): string {
    if entries != [] then WithBlock(m, user, Body(entries)) else if user == "" then "" else user + "\n"
  }

  lemma BlockEnds(m: Markers, body: string)
    requires MarkersOk(m)
    ensures Block(m, body) != "" && Trimmed(Block(m, body)) && Trim(Block(m, body) + "\n") == Block(m, body)
  {
    var block := Block(m, body);
    assert block[0] == m.begin[0] && block[|block| - 1] == m.end[|m.end| - 1];
    TrimLine(block);
  }

  lemma TrimLine(s: string)
    requires Trimmed(s)
    ensures Trim(s + "\n") == s && Trim(s) == s && TrimRight(s) == s
  {
    assert Blank("\n");
    TrimIsTrimmed(s);
    TrimBothOrders(s);
    TrimLeftConcat(s, "\n");
    TrimRightBlank(s, "\n");
    assert s != "" ==> s[0] in s;
    assert s == "" ==> s + "\n" == "\n";
    TrimIsTrimmed("\n");
  }

  lemma StripIsUserText(m: Markers, content: string)
    ensures Trim(StripContent(m, content)) == UserText(m, content)
  {
    var user := UserText(m, content);
    TrimIsTrimmed(RemoveBlocks(m, content));
    TrimLine(user);
    assert user + "" == user;
  }

  /** The rendered configuration depends on the old one through the user's part alone. */
  lemma RenderIsForm(m: Markers, entries: seq<Entry>, system: Option<string>)
    requires MarkersOk(m)
    ensures RenderConfig(m, entries, system) == Form(m, UserText(m, OrEmpty(system)), entries)
  {
    var user, block := UserText(m, OrEmpty(system)), Block(m, Body(entries));
    StripIsUserText(m, OrEmpty(system));
    TrimIsTrimmed(RemoveBlocks(m, OrEmpty(system)));
    BlockEnds(m, Body(entries));
    TrimIsTrimmed("");
    TwoParts(user, if entries == [] then "" else block);
  }

  lemma TwoParts(user: string, block: string)
    requires Trimmed(user) && Trimmed(block)
    ensures var parts := NonEmpty([user, block]);
      && (parts == [] <==> user == "" && block == "")
      && TrimRight(JoinBlank(parts)) == if block == "" then user else if user == "" then block else user + "\n\n" + block
  {
    assert [user, block][1..] == [block] && [block][1..] == [];
    assert NonEmpty([block]) == if block == "" then [] else [block];
    TrimLine(user);
    TrimLine(block);
    if block != "" {
      TrimRightAppend(user + "\n\n", block);
      assert [user, block][1..] == [block];
    }
  }

  // -------------------------------------------------------------- applies and deletes

  /** The snippet files of an interface and its configuration file. */
  datatype State = State(entries: seq<Entry>, system: Option<string>)

  /** Where an operation fails, if it does. */
  datatype Fault = NoFault | AtInstance | AtRender | AtSystem | AtService

  /** An operation, with its fault and whether the two files can be put back after it. */
  datatype Op =
    | ApplyOp(file: string, snippet: string, fault: Fault, restoresInstance: bool, restoresSystem: bool)
    | DeleteOp(file: string, fault: Fault, restoresInstance: bool, restoresSystem: bool)

  function NewEntries(st: State, op: Op): seq<Entry> {
    match op
    case ApplyOp(file, snippet, _, _, _) => PutFile(st.entries, file, snippet)
    case DeleteOp(file, _, _, _) => DropFile(st.entries, file)
  }

  /** An empty configuration is deleted, but only when a connection is deleted. */
  function NewSystem(m: Markers, st: State, op: Op): Option<string> {
    var rendered := RenderConfig(m, NewEntries(st, op), st.system);
    if op.DeleteOp? && Trim(rendered) == "" then None else Some(rendered)
  }

  /** The state in which an operation ends or fails. */
  function Reached(m: Markers, st: State, op: Op): State {
    match op.fault
    case AtInstance => st
    case AtRender => st.(entries := NewEntries(st, op))
    case AtSystem => st.(entries := NewEntries(st, op))
    case _ => State(NewEntries(st, op), NewSystem(m, st, op))
  }

  function RestoreFile(entries: seq<Entry>, file: string, text: Option<string>): seq<Entry> {
    if text.None? then DropFile(entries, file) else PutFile(entries, file, text.value)
  }

  /** After a fault the snippet file is put back, then the configuration; a failure there ends the attempt. */
  function Undone(st: State, reached: State, op: Op): State {
    if !op.restoresInstance then reached
    else
      var entries := RestoreFile(reached.entries, op.file, ReadFile(st.entries, op.file));
      State(entries, if op.restoresSystem then st.system else reached.system)
  }

  function Step(m: Markers, st: State, op: Op): State {
    if op.fault.NoFault? then Reached(m, st, op) else Undone(st, Reached(m, st, op), op)
  }

  function After(m: Markers, st: State, ops: seq<Op>): State {
    if ops == [] then st else Step(m, After(m, st, ops[..|ops| - 1]), ops[|ops| - 1])
  }

  // ------------------------------------------------------------------ the invariants

  ghost predicate NoEnds(m: Markers, entries: seq<Entry>) {
    AllFiles(entries, (e: Entry) => Absent(e.text, m.end))
  }

  /** The user's text is what the configuration holds outside its block. */
  ghost predicate Keeps(m: Markers, user: string, st: State) {
    && MarkersOk(m) && Absent(user, m.begin) && Trimmed(user)
    && UserText(m, OrEmpty(st.system)) == user
    && InPathOrder(st.entries) && NoEnds(m, st.entries)
  }

  /** The configuration is the user's text and a block with exactly the current snippets in path order. */
  ghost predicate InSync(m: Markers, user: string, st: State) {
    OrEmpty(st.system) == Form(m, user, st.entries)
  }

  predicate GoodOp(m: Markers, op: Op) {
    op.ApplyOp? ==> Absent(op.snippet, m.end)
  }

  lemma {:induction false} NoEndJoined(m: Markers, entries: seq<Entry>)
    requires MarkersOk(m) && NoEnds(m, entries)
    ensures Absent(JoinBlank(Snippets(entries)), m.end)
  {
    if entries != [] {
      var first, rest := Trim(entries[0].text), entries[1..];
      assert forall k :: 0 <= k < |rest| ==> rest[k] == entries[k + 1];
      AbsentInTrimmed(entries[0].text, m.end);
      NoEndJoined(m, rest);
      assert Snippets(entries)[1..] == Snippets(rest);
      if rest != [] {
        AbsentAround(first, JoinBlank(Snippets(rest)), m.end);
      }
    }
  }

  lemma AbsentAround(s: string, t: string, pattern: string)
    requires pattern != "" && '\n' !in pattern && Absent(s, pattern) && Absent(t, pattern)
    ensures Absent(s + "\n\n" + t, pattern)
  {
    AbsentInBoth("", t, pattern);
    AbsentInBoth(s, "" + "\n" + t, pattern);
    assert s + "\n" + ("" + "\n" + t) == s + "\n\n" + t;
  }

  /** Rebuilding the configuration keeps the user's text. */
  lemma FormKeepsUser(m: Markers, user: string, entries: seq<Entry>)
    requires MarkersOk(m) && Absent(user, m.begin) && Trimmed(user) && NoEnds(m, entries)
    ensures UserText(m, Form(m, user, entries)) == user
  {
    TrimIsTrimmed(user);
    if entries != [] {
      NoEndJoined(m, entries);
      AbsentInTrimmed(JoinBlank(Snippets(entries)), m.end);
      UserTextKept(m, user, Body(entries));
    } else if user != "" {
      AbsentInBoth(user, "", m.begin);
      assert user + "\n" + "" == user + "\n";
      NothingToRemove(m, user + "\n");
      TrimLine(user);
    } else {
      NothingToRemove(m, "");
    }
  }

  lemma NewEntriesOk(m: Markers, st: State, op: Op)
    requires InPathOrder(st.entries) && NoEnds(m, st.entries) && GoodOp(m, op)
    ensures InPathOrder(NewEntries(st, op)) && NoEnds(m, NewEntries(st, op))
  {
    var holds := (e: Entry) => Absent(e.text, m.end);
    match op
    case ApplyOp(file, snippet, _, _, _) =>
      PutInOrder(st.entries, file, snippet);
      PutAll(st.entries, file, snippet, holds);
    case DeleteOp(file, _, _, _) =>
      DropInOrder(st.entries, file);
      DropAll(st.entries, file, holds);
  }

  /** Putting the snippet file back gives the directory as it was. */
  lemma FilePutBack(st: State, op: Op)
    requires InPathOrder(st.entries)
    ensures RestoreFile(st.entries, op.file, ReadFile(st.entries, op.file)) == st.entries
    ensures RestoreFile(NewEntries(st, op), op.file, ReadFile(st.entries, op.file)) == st.entries
  {
    var file := op.file;
    DropUndone(st.entries, file);
    if ReadFile(st.entries, file).Some? {
      PutSame(st.entries, file);
    }
    match op
    case ApplyOp(_, snippet, _, _, _) => PutUndone(st.entries, file, snippet);
    case DeleteOp(_, _, _, _) =>
      if ReadFile(st.entries, file).None? {
        assert DropFile(DropFile(st.entries, file), file) == st.entries;
      }
  }

  lemma {:induction false} PutSame(entries: seq<Entry>, file: string)
    requires InPathOrder(entries) && ReadFile(entries, file).Some?
    ensures PutFile(entries, file, ReadFile(entries, file).value) == entries
  {
    assert entries == [entries[0]] + entries[1..];
    TailInOrder(entries);
    if entries[0].file != file {
      ReadIsLater(entries[1..], file, entries[0].file);
      PutSame(entries[1..], file);
    }
  }

  lemma RenderedKeepsUser(m: Markers, user: string, st: State, op: Op)
    requires Keeps(m, user, st) && GoodOp(m, op)
    ensures OrEmpty(NewSystem(m, st, op)) == Form(m, user, NewEntries(st, op))
    ensures UserText(m, OrEmpty(NewSystem(m, st, op))) == user
  {
    NewEntriesOk(m, st, op);
    RenderIsForm(m, NewEntries(st, op), st.system);
    FormKeepsUser(m, user, NewEntries(st, op));
    FormNotBlank(m, user, NewEntries(st, op));
  }

  lemma FormNotBlank(m: Markers, user: string, entries: seq<Entry>)
    requires MarkersOk(m) && Trimmed(user)
    ensures Trim(Form(m, user, entries)) == "" <==> Form(m, user, entries) == ""
  {
    var text := Form(m, user, entries);
    TrimIsTrimmed("");
    if text != "" {
      BlockEnds(m, Body(entries));
      TrimBothOrders(text);
      assert text[0] in text;
      assert entries != [] && user == "" ==> text == Block(m, Body(entries)) + "\n";
    }
  }

  /** Every operation, failed or not, put back or not, keeps the user's text. */
  lemma StepKeeps(m: Markers, user: string, st: State, op: Op)
    requires Keeps(m, user, st) && GoodOp(m, op)
    ensures Keeps(m, user, Step(m, st, op))
  {
    NewEntriesOk(m, st, op);
    RenderedKeepsUser(m, user, st, op);
    StepShape(m, st, op);
  }

  /** Whatever happens, each of the two files is either the old or the new one. */
  lemma StepShape(m: Markers, st: State, op: Op)
    requires InPathOrder(st.entries)
    ensures var next := Step(m, st, op);
      && (next.entries == st.entries || next.entries == NewEntries(st, op))
      && (next.system == st.system || next.system == NewSystem(m, st, op))
  {
    FilePutBack(st, op);
  }

  /** A failed operation whose files can be put back changes nothing. */
  lemma FailedStepUndone(m: Markers, st: State, op: Op)
    requires InPathOrder(st.entries) && !op.fault.NoFault? && op.restoresInstance && op.restoresSystem
    ensures Step(m, st, op) == st
  {
    FilePutBack(st, op);
  }

  /** Over any run, however its operations fail, the text outside the block stays the trimmed original. */
  lemma {:induction false} UserTextPreserved(m: Markers, original: Option<string>, entries: seq<Entry>, ops: seq<Op>)
    requires MarkersOk(m) && Absent(OrEmpty(original), m.begin)
    requires InPathOrder(entries) && NoEnds(m, entries) && forall op :: op in ops ==> GoodOp(m, op)
    ensures Keeps(m, Trim(OrEmpty(original)), After(m, State(entries, original), ops))
    decreases |ops|
  {
    var user := Trim(OrEmpty(original));
    if ops == [] {
      TrimIsTrimmed(OrEmpty(original));
      AbsentInTrimmed(OrEmpty(original), m.begin);
      NothingToRemove(m, OrEmpty(original));
    } else {
      assert ops[|ops| - 1] in ops;
      UserTextPreserved(m, original, entries, ops[..|ops| - 1]);
      StepKeeps(m, user, After(m, State(entries, original), ops[..|ops| - 1]), ops[|ops| - 1]);
    }
  }

  predicate PutsBack(op: Op) {
    op.restoresInstance && op.restoresSystem
  }

  /** Once an operation has succeeded, the block always holds exactly the current snippets. */
  lemma {:induction false} BlockIsCurrent(m: Markers, original: Option<string>, entries: seq<Entry>, ops: seq<Op>)
    requires MarkersOk(m) && Absent(OrEmpty(original), m.begin)
    requires InPathOrder(entries) && NoEnds(m, entries) && forall op :: op in ops ==> GoodOp(m, op) && PutsBack(op)
    ensures (exists op :: op in ops && op.fault.NoFault?) ==>
              InSync(m, Trim(OrEmpty(original)), After(m, State(entries, original), ops))
    ensures (forall op :: op in ops ==> !op.fault.NoFault?) ==> After(m, State(entries, original), ops) == State(entries, original)
    decreases |ops|
  {
    if ops != [] {
      var front, last := ops[..|ops| - 1], ops[|ops| - 1];
      assert last in ops && ops == front + [last];
      BlockIsCurrent(m, original, entries, front);
      UserTextPreserved(m, original, entries, front);
      var st := After(m, State(entries, original), front);
      if last.fault.NoFault? {
        RenderedKeepsUser(m, Trim(OrEmpty(original)), st, last);
      } else {
        FailedStepUndone(m, st, last);
      }
    }
  }

  /** The markers written to the file are as the proofs need them. */
  lemma MimicMarkersOk()
    ensures MarkersOk(MIMIC_MARKERS)
  {
    MarkerCheck(MIMIC_MARKERS.begin);
    MarkerCheck(MIMIC_MARKERS.end);
  }

  lemma MarkerCheck(marker: string)
    requires |marker| > 2 && marker[0] == '#' && marker[|marker| - 1] == 's'
    requires forall i :: 0 <= i < |marker| ==> marker[i] >= ' '
    ensures MarkerOk(marker)
  {
  }

  /** One connection's filter: what the snippet builder is given, checked and converted. */
  datatype Filter = Filter(instance: string, linkType: string, xdpMode: string, handshake: Option<int>,
                           keepalive: Option<int>, padding: Option<int>, origin: string, endpoint: string)

  predicate NoHash(s: string) {
    '#' !in s
  }

  /** What the builder's own checks and the formatting of the address leave: no text of the filter has a hash. */
  predicate Checked(f: Filter) {
    && f.instance != "" && NoSpaces(f.instance) && NoHash(f.instance)
    && (f.linkType == "eth" || f.linkType == "none") && (f.xdpMode == "auto" || f.xdpMode == "native" || f.xdpMode == "skb")
    && (f.origin == "local" || f.origin == "remote") && NoHash(f.endpoint)
  }

  predicate NoSpaces(s: string) {
    forall c :: c in s ==> !IsSpace(c)
  }

  function NumberLine(key: string, number: Option<int>, end: string): seq<string> {
    if number.None? then [] else [key + IntText(number.value) + end]
  }

  function SettingLines(f: Filter): seq<string> {
    ["link_type = " + f.linkType, "xdp_mode = " + f.xdpMode]
    + NumberLine("handshake = ", f.handshake, ":") + NumberLine("keepalive = ", f.keepalive, ":::")
    + NumberLine("padding = ", f.padding, "")
    + ["filter = " + f.origin + "=" + f.endpoint]
  }

  function BuildSnippet(f: Filter): string {
    TrimRight(JoinLines(["# instance " + f.instance] + SettingLines(f))) + "\n"
  }

  lemma {:induction false} NoHashJoined(lines: seq<string>)
    requires forall line :: line in lines ==> NoHash(line)
    ensures NoHash(JoinLines(lines))
  {
    if |lines| > 1 {
      assert lines[0] in lines;
      NoHashJoined(lines[1..]);
    }
  }

  lemma NoHashNumber(key: string, number: Option<int>, end: string)
    requires NoHash(key) && NoHash(end)
    ensures forall line :: line in NumberLine(key, number, end) ==> NoHash(line)
  {
    if number.Some? {
      assert forall c :: c in IntText(number.value) ==> IsDigit(c) || c == '-';
    }
  }

  lemma SettingsHaveNoHash(f: Filter)
    requires Checked(f)
    ensures forall line :: line in SettingLines(f) ==> NoHash(line)
  {
    assert NoHash("link_type = ") && NoHash("xdp_mode = ") && NoHash("filter = ") && NoHash("=");
    assert NoHash(f.linkType) && NoHash(f.xdpMode) && NoHash(f.origin);
    assert NoHash("handshake = ") && NoHash("keepalive = ") && NoHash("padding = ") && NoHash(":") && NoHash(":::") && NoHash("");
    NoHashNumber("handshake = ", f.handshake, ":");
    NoHashNumber("keepalive = ", f.keepalive, ":::");
    NoHashNumber("padding = ", f.padding, "");
  }

  /** The snippets that the builder writes hold no end marker: their only hash opens the line that names the instance. */
  lemma BuiltSnippetIsGood(f: Filter)
    requires Checked(f)
    ensures Absent(BuildSnippet(f), MIMIC_MARKERS.end)
  {
    var settings := SettingLines(f);
    var rest := f.instance + "\n" + JoinLines(settings);
    SettingsHaveNoHash(f);
    NoHashJoined(settings);
    var lines := ["# instance " + f.instance] + settings;
    assert lines[1..] == settings && JoinLines(lines) == "# instance " + rest;
    assert f.instance[0] in f.instance && f.instance[0] in rest;
    TrimRightConcat("# instance ", rest);
    TrimRightSpec(rest);
    assert forall c :: c in TrimRight(rest) ==> c in rest;
    assert BuildSnippet(f) == "# instance " + (TrimRight(rest) + "\n");
    OneHashIsGood(TrimRight(rest) + "\n");
  }

  lemma OneHashIsGood(settings: string)
    requires NoHash(settings)
    ensures Absent("# instance " + settings, MIMIC_MARKERS.end)
  {
    var snippet, end := "# instance " + settings, MIMIC_MARKERS.end;
    AbsentIff(snippet, end);
    forall k ensures !OccursAt(snippet, end, k) {
      OccurrenceChar(snippet, end, k, 0);
      OccurrenceChar(snippet, end, k, 2);
    }
  }

  lemma OccurrenceChar(s: string, pattern: string, k: int, i: nat)
    requires i < |pattern|
    ensures OccursAt(s, pattern, k) ==> s[k + i] == pattern[i]
  {
    if OccursAt(s, pattern, k) {
      assert s[k..k + |pattern|][i] == s[k + i];
    }
  }

  // ------------------------------------------------------------------- as they run

  class Interface {

    var entries: seq<Entry>
    var system: Option<string>

    constructor (files: seq<Entry>, config: Option<string>)
      ensures entries == files && system == config
    {
      entries, system := files, config;
    }

    /** Puts both files back after a fault, one after the other. */
    method Rollback(op: Op, oldInstance: Option<string>, oldSystem: Option<string>)
      modifies this
      ensures entries == if op.restoresInstance then RestoreFile(old(entries), op.file, oldInstance) else old(entries)
      ensures system == if op.restoresInstance && op.restoresSystem then oldSystem else old(system)
    {
      if !op.restoresInstance {
        return;
      }
      if oldInstance.None? {
        entries := DropFile(entries, op.file);
      } else {
        entries := PutFile(entries, op.file, oldInstance.value);
      }
      if op.restoresSystem {
        system := oldSystem;
      }
    }

    /** Changes one snippet file and rebuilds the configuration, or puts both files back. */
    method Run(op: Op) returns (ok: bool)
      modifies this
      ensures State(entries, system) == Step(MIMIC_MARKERS, State(old(entries), old(system)), op)
      ensures ok == op.fault.NoFault?
    {
      var oldInstance, oldSystem := ReadFile(entries, op.file), system;
      if op.fault.AtInstance? {
        Rollback(op, oldInstance, oldSystem);
        return false;
      }
      match op {
        case ApplyOp(file, snippet, _, _, _) => entries := PutFile(entries, file, snippet);
        case DeleteOp(file, _, _, _) => entries := DropFile(entries, file);
      }
      if op.fault.AtRender? || op.fault.AtSystem? {
        Rollback(op, oldInstance, oldSystem);
        return false;
      }
      var rendered := RenderConfig(MIMIC_MARKERS, entries, system);
      system := if op.DeleteOp? && Trim(rendered) == "" then None else Some(rendered);
      if op.fault.AtService? {
        Rollback(op, oldInstance, oldSystem);
        return false;
      }
      return true;
    }

  }

}
