/**
The udp2raw instance file: one line for each instance, its name and then its
arguments, among comments and blank lines. The file acts as a map.
 */
module Udp2raw {

  import opened Wrappers
  import opened Text

  // ---------------------------------------------------------------- reading a line

  predicate NoSpace(s: string) {
    forall c :: c in s ==> !IsSpace(c)
  }

  /** The length of the text up to the first space. */
  function TokenEnd(s: string): (n: nat)
    ensures n <= |s|
  {
    if s == "" || IsSpace(s[0]) then 0 else 1 + TokenEnd(s[1..])
  }

  function FirstToken(line: string): string {
    TrimLeft(line)[..TokenEnd(TrimLeft(line))]
  }

  /** What follows the first token, without the spaces between. */
  function AfterToken(line: string): string {
    TrimLeft(TrimLeft(line)[TokenEnd(TrimLeft(line))..])
  }

  function DropEquals(token: string): string {
    if token != "" && token[|token| - 1] == '=' then token[..|token| - 1] else token
  }

  /** The instance a line is about; one equals sign after the name is ignored. */
  function KeyOf(line: string): string {
    DropEquals(FirstToken(line))
  }

  function ValueOf(line: string): Option<string> {
    if AfterToken(line) == "" then None else Some(AfterToken(line))
  }

  lemma {:induction false} TokenEndOf(token: string, rest: string)
    requires NoSpace(token) && (rest == "" || IsSpace(rest[0]))
    ensures TokenEnd(token + rest) == |token|
  {
    if token == "" {
      assert token + rest == rest;
    } else {
      assert token[0] in token && (token + rest)[1..] == token[1..] + rest;
      TokenEndOf(token[1..], rest);
    }
  }

  lemma {:induction false} TokenEndSpec(s: string)
    ensures NoSpace(s[..TokenEnd(s)])
    ensures TokenEnd(s) < |s| ==> IsSpace(s[TokenEnd(s)])
  {
    if s != "" && !IsSpace(s[0]) {
      TokenEndSpec(s[1..]);
      assert s[..TokenEnd(s)] == [s[0]] + s[1..][..TokenEnd(s[1..])];
    }
  }

  /** A line taken apart: spaces, a token, and a rest that is set off by a space. */
  predicate TakesApart(line: string, pre: string, token: string, rest: string) {
    line == pre + token + rest && Blank(pre) && token != "" && NoSpace(token) && (rest == "" || IsSpace(rest[0]))
  }

  lemma ReadApart(line: string, pre: string, token: string, rest: string)
    requires TakesApart(line, pre, token, rest)
    ensures FirstToken(line) == token && AfterToken(line) == TrimLeft(rest)
  {
    assert line == pre + (token + rest);
    TrimLeftConcat(pre, token + rest);
    assert token[0] in token && (token + rest)[0] == token[0];
    TokenEndOf(token, rest);
    assert (token + rest)[..|token|] == token && (token + rest)[|token|..] == rest;
  }

  lemma TakeApart(line: string) returns (pre: string, token: string, rest: string)
    requires !Blank(line)
    ensures TakesApart(line, pre, token, rest)
  {
    TrimLeftSpec(line);
    TrimBothOrders(line);
    var t := TrimLeft(line);
    pre := line[..|line| - |t|];
    assert line == pre + t;
    token, rest := TakeToken(t);
    assert line == pre + token + rest;
  }

  lemma TakeToken(s: string) returns (token: string, rest: string)
    requires s != "" && !IsSpace(s[0])
    ensures s == token + rest && token != "" && NoSpace(token) && (rest == "" || IsSpace(rest[0]))
  {
    TokenEndSpec(s);
    token, rest := s[..TokenEnd(s)], s[TokenEnd(s)..];
  }

  /** A blank line is about no instance. */
  lemma BlankLine(line: string)
    requires Blank(line)
    ensures KeyOf(line) == "" && ValueOf(line).None?
  {
    TrimBothOrders(line);
  }

  /** Trimming a line on the right keeps its name and trims its value. */
  lemma TrimmedLine(line: string)
    ensures KeyOf(TrimRight(line)) == KeyOf(line)
    ensures ValueOf(TrimRight(line)) == if ValueOf(line).None? then None else Some(TrimRight(ValueOf(line).value))
    ensures ValueOf(line).Some? ==> ValueOf(line).value != "" && !IsSpace(ValueOf(line).value[0])
  {
    TrimBothOrders(line);
    if !Blank(line) {
      var pre, token, rest := TakeApart(line);
      ReadApart(line, pre, token, rest);
      TrimRightConcat(pre + token, rest);
      TrimBothOrders(rest);
      TrimLeftSpec(rest);
      TrimTokenEnd(pre, token);
      if Blank(rest) {
        assert TrimRight(line) == pre + token + "";
        ReadApart(TrimRight(line), pre, token, "");
      } else {
        TrimRightSpec(rest);
        assert TrimRight(rest)[0] == rest[0];
        ReadApart(TrimRight(line), pre, token, TrimRight(rest));
        NotBlankTrimmed(TrimLeft(rest));
      }
    } else {
      BlankLine(line);
      BlankLine(TrimRight(line));
    }
  }

  lemma TrimTokenEnd(pre: string, token: string)
    requires token != "" && NoSpace(token)
    ensures TrimRight(pre + token) == pre + token
  {
    assert token[|token| - 1] in token;
    TrimRightAppend(pre, token);
  }

  // ----------------------------------------------------------------- reading lines

  predicate Answers(line: string, instance: string) {
    KeyOf(line) == instance && ValueOf(line).Some?
  }

  /** The arguments on the first line that has any for the instance. */
  function LookupLines(lines: seq<string>, instance: string): Option<string> {
    if lines == [] then None
    else
      var before := LookupLines(lines[..|lines| - 1], instance);
      if before.Some? then before
      else if Answers(lines[|lines| - 1], instance) then ValueOf(lines[|lines| - 1])
      else None
  }

  predicate Mentions(lines: seq<string>, instance: string) {
    exists k :: 0 <= k < |lines| && KeyOf(lines[k]) == instance
  }

  /** The lines that are not about the instance. */
  function Others(lines: seq<string>, instance: string): seq<string> {
    if lines == [] then []
    else Others(lines[..|lines| - 1], instance) + (if KeyOf(lines[|lines| - 1]) == instance then [] else [lines[|lines| - 1]])
  }

  /** Lines without blank ones at the end and without spaces at the very end. */
  function TidyEnd(lines: seq<string>): seq<string> {
    if lines == [] then []
    else if Blank(lines[|lines| - 1]) then TidyEnd(lines[..|lines| - 1])
    else lines[..|lines| - 1] + [TrimRight(lines[|lines| - 1])]
  }

  lemma OneLineTrimmed(line: string)
    requires OneLine(line)
    ensures OneLine(TrimRight(line)) && OneLine(TrimLeft(line))
  {
    TrimRightSpec(line);
    TrimLeftSpec(line);
    assert forall c :: c in TrimRight(line) ==> c in line;
    assert forall c :: c in TrimLeft(line) ==> c in line;
  }

  lemma {:induction false} TidyOneLine(lines: seq<string>)
    requires AllOneLine(lines)
    ensures AllOneLine(TidyEnd(lines))
  {
    if lines != [] {
      assert lines[|lines| - 1] in lines;
      var front := lines[..|lines| - 1];
      assert forall line :: line in front ==> line in lines;
      TidyOneLine(front);
      OneLineTrimmed(lines[|lines| - 1]);
    }
  }

  lemma {:induction false} TidyJoined(lines: seq<string>)
    ensures TrimRight(JoinLines(lines)) == JoinLines(TidyEnd(lines))
  {
    if lines != [] {
      var front, last := lines[..|lines| - 1], lines[|lines| - 1];
      assert lines == front + [last];
      JoinLast(front, last);
      JoinLast(front, TrimRight(last));
      var before := if front == [] then "" else JoinLines(front) + "\n";
      assert JoinLines(lines) == before + last;
      TrimRightConcat(before, last);
      if Blank(last) {
        TidyJoined(front);
        assert Blank("\n");
        TrimRightBlank(JoinLines(front), "\n");
      }
    }
  }

  /** The lines read back from a file that was written from these lines. */
  function Reread(lines: seq<string>): seq<string> {
    if TidyEnd(lines) == [] then [""] else TidyEnd(lines)
  }

  function FileText(lines: seq<string>): string {
    TrimRight(JoinLines(lines)) + "\n"
  }

  lemma WrittenAndRead(lines: seq<string>)
    requires AllOneLine(lines)
    ensures SplitLines(FileText(lines)) == Reread(lines)
  {
    TidyJoined(lines);
    TidyOneLine(lines);
    if TidyEnd(lines) == [] {
      assert OneLine("") && AllOneLine([""]);
      SplitJoined([""]);
    } else {
      SplitJoined(TidyEnd(lines));
    }
  }

  /** The answer comes from the last line that is not blank. */
  predicate AnsweredLast(lines: seq<string>, instance: string) {
    if lines == [] then false
    else if Blank(lines[|lines| - 1]) then AnsweredLast(lines[..|lines| - 1], instance)
    else LookupLines(lines[..|lines| - 1], instance).None? && Answers(lines[|lines| - 1], instance)
  }

  /** Writing and reading lines changes an answer only by trimming the one on the last line. */
  lemma {:induction false} TidyLookup(lines: seq<string>, instance: string)
    requires instance != ""
    ensures AnsweredLast(lines, instance) ==> LookupLines(lines, instance).Some?
    ensures LookupLines(TidyEnd(lines), instance)
         == if AnsweredLast(lines, instance) then Some(TrimRight(LookupLines(lines, instance).value)) else LookupLines(lines, instance)
  {
    if lines != [] {
      var front, last := lines[..|lines| - 1], lines[|lines| - 1];
      if Blank(last) {
        BlankLine(last);
        TidyLookup(front, instance);
      } else {
        TrimmedLine(last);
        assert TidyEnd(lines)[..|lines| - 1] == front;
      }
    }
  }

  lemma RereadLookup(lines: seq<string>, instance: string)
    requires instance != ""
    ensures LookupLines(Reread(lines), instance) == LookupLines(TidyEnd(lines), instance)
  {
    BlankLine("");
    assert [""][..0] == [];
  }

  lemma MentionsAppend(lines: seq<string>, line: string, instance: string)
    ensures Mentions(lines + [line], instance) <==> Mentions(lines, instance) || KeyOf(line) == instance
  {
    var all := lines + [line];
    assert all[|lines|] == line;
    assert forall k :: 0 <= k < |lines| ==> all[k] == lines[k];
  }

  /** Writing and reading lines neither adds nor loses an instance. */
  lemma {:induction false} TidyMentions(lines: seq<string>, instance: string)
    requires instance != ""
    ensures Mentions(TidyEnd(lines), instance) <==> Mentions(lines, instance)
  {
    if lines != [] {
      var front, last := lines[..|lines| - 1], lines[|lines| - 1];
      assert lines == front + [last];
      MentionsAppend(front, last, instance);
      if Blank(last) {
        BlankLine(last);
        TidyMentions(front, instance);
      } else {
        TrimmedLine(last);
        MentionsAppend(front, TrimRight(last), instance);
      }
    }
  }

  lemma RereadMentions(lines: seq<string>, instance: string)
    requires instance != ""
    ensures Mentions(Reread(lines), instance) <==> Mentions(lines, instance)
  {
    TidyMentions(lines, instance);
    BlankLine("");
    assert forall k :: 0 <= k < |[""]| ==> [""][k] == "";
  }

  lemma LookupAppend(lines: seq<string>, line: string, instance: string)
    ensures LookupLines(lines + [line], instance)
         == if LookupLines(lines, instance).Some? then LookupLines(lines, instance)
            else if Answers(line, instance) then ValueOf(line) else None
  {
    assert (lines + [line])[..|lines|] == lines;
  }

  lemma {:induction false} OthersLookup(lines: seq<string>, instance: string, other: string)
    requires other != instance
    ensures LookupLines(Others(lines, instance), other) == LookupLines(lines, other)
  {
    if lines != [] {
      var front, last := lines[..|lines| - 1], lines[|lines| - 1];
      OthersLookup(front, instance, other);
      if KeyOf(last) == instance {
        assert Others(front, instance) + [] == Others(front, instance);
      } else {
        LookupAppend(Others(front, instance), last, other);
      }
    }
  }

  lemma {:induction false} OthersMention(lines: seq<string>, instance: string, other: string)
    ensures Mentions(Others(lines, instance), other) <==> other != instance && Mentions(lines, other)
  {
    if lines != [] {
      var front, last := lines[..|lines| - 1], lines[|lines| - 1];
      assert lines == front + [last];
      OthersMention(front, instance, other);
      MentionsAppend(front, last, other);
      if KeyOf(last) == instance {
        assert Others(front, instance) + [] == Others(front, instance);
      } else {
        MentionsAppend(Others(front, instance), last, other);
      }
    }
  }

  lemma {:induction false} UnmentionedLookup(lines: seq<string>, instance: string)
    requires !Mentions(lines, instance)
    ensures LookupLines(lines, instance).None?
  {
    if lines != [] {
      var front, last := lines[..|lines| - 1], lines[|lines| - 1];
      assert lines == front + [last];
      MentionsAppend(front, last, instance);
      UnmentionedLookup(front, instance);
    }
  }

  lemma {:induction false} OthersOneLine(lines: seq<string>, instance: string)
    requires AllOneLine(lines)
    ensures AllOneLine(Others(lines, instance))
  {
    if lines != [] {
      var front, last := lines[..|lines| - 1], lines[|lines| - 1];
      assert last in lines && forall line :: line in front ==> line in lines;
      OthersOneLine(front, instance);
    }
  }

  // ---------------------------------------------------------------------- the file

  predicate NameChar(c: char) {
    'A' <= c <= 'Z' || 'a' <= c <= 'z' || '0' <= c <= '9' || c == '_' || c == '.' || c == ':' || c == '-'
  }

  /** Names that are safe in the file and in the names of services. */
  predicate ValidName(instance: string) {
    1 <= |instance| <= 63 && instance != "." && instance != ".." && forall c :: c in instance ==> NameChar(c)
  }

  /** A missing file has no lines. */
  function Lines(content: Option<string>): seq<string> {
    if content.None? then [] else SplitLines(content.value)
  }

  function Lookup(content: Option<string>, instance: string): Option<string> {
    LookupLines(Lines(content), instance)
  }

  predicate Exists(content: Option<string>, instance: string) {
    Mentions(Lines(content), instance)
  }

  function EntryLine(instance: string, args: string): string {
    instance + " " + args
  }

  function Upserted(content: Option<string>, instance: string, args: string): Option<string> {
    Some(FileText(Others(Lines(content), instance) + [EntryLine(instance, args)]))
  }

  /** A file without lines is deleted. */
  function Removed(content: Option<string>, instance: string): Option<string> {
    if content.None? || Others(Lines(content), instance) == [] then None
    else Some(FileText(Others(Lines(content), instance)))
  }

  lemma EntryReads(instance: string, args: string)
    requires ValidName(instance)
    ensures KeyOf(EntryLine(instance, args)) == instance
    ensures ValueOf(EntryLine(instance, args)) == if Blank(args) then None else Some(TrimLeft(args))
    ensures !Blank(EntryLine(instance, args))
  {
    var line := EntryLine(instance, args);
    assert line == "" + instance + (" " + args);
    assert instance[0] in instance && instance[0] in line && instance[|instance| - 1] in instance;
    ReadApart(line, "", instance, " " + args);
    assert Blank(" ");
    TrimLeftBlank(" ", args);
    TrimBothOrders(args);
  }

  /** Everything the lookups see after an upsert of a single line of arguments. */
  lemma LookupUpserted(content: Option<string>, instance: string, args: string, other: string)
    requires ValidName(instance) && ValidName(other) && OneLine(args)
    ensures Lookup(Upserted(content, instance, args), other)
         == if other != instance then Lookup(content, other) else if Blank(args) then None else Some(Trim(args))
  {
    var kept, line := Others(Lines(content), instance), EntryLine(instance, args);
    OthersOneLine(Lines(content), instance);
    OthersMention(Lines(content), instance, instance);
    UnmentionedLookup(kept, instance);
    if other != instance {
      OthersLookup(Lines(content), instance, other);
    }
    EntryReads(instance, args);
    EntryOneLine(instance, args);
    WrittenAndRead(kept + [line]);
    RereadLookup(kept + [line], other);
    TrimmedLine(line);
    assert (kept + [line])[..|kept|] == kept;
    LookupAppend(kept, TrimRight(line), other);
    TrimBothOrders(args);
  }

  lemma EntryOneLine(instance: string, args: string)
    requires ValidName(instance) && OneLine(args)
    ensures OneLine(EntryLine(instance, args))
  {
    assert OneLine(" ");
  }

  lemma {:induction false} LookupsAreLines(lines: seq<string>, instance: string)
    requires AllOneLine(lines)
    ensures LookupLines(lines, instance).Some? ==> OneLine(LookupLines(lines, instance).value)
  {
    if lines != [] {
      var front, last := lines[..|lines| - 1], lines[|lines| - 1];
      assert last in lines && forall line :: line in front ==> line in lines;
      LookupsAreLines(front, instance);
      OneLineTrimmed(last);
      OneLineTrimmed(TrimLeft(last)[TokenEnd(TrimLeft(last))..]);
    }
  }

  /** The arguments are read back as they were given exactly when they are one trimmed, non-empty line. */
  lemma UpsertReadsBackIff(content: Option<string>, instance: string, args: string)
    requires ValidName(instance)
    ensures Lookup(Upserted(content, instance, args), instance) == Some(args) <==> args != "" && Trimmed(args) && OneLine(args)
  {
    if OneLine(args) {
      LookupUpserted(content, instance, args, instance);
      TrimIsTrimmed(args);
      TrimBothOrders(args);
    } else {
      LookupsAreLines(Lines(Upserted(content, instance, args)), instance);
    }
  }

  /** Which instances exist after an upsert or a removal. */
  lemma ExistsAfter(content: Option<string>, instance: string, args: string, other: string)
    requires ValidName(instance) && ValidName(other) && OneLine(args)
    ensures Exists(Upserted(content, instance, args), other) <==> other == instance || Exists(content, other)
    ensures Exists(Removed(content, instance), other) <==> other != instance && Exists(content, other)
  {
    var kept, line := Others(Lines(content), instance), EntryLine(instance, args);
    OthersOneLine(Lines(content), instance);
    OthersMention(Lines(content), instance, other);
    EntryReads(instance, args);
    EntryOneLine(instance, args);
    MentionsAppend(kept, line, other);
    WrittenAndRead(kept + [line]);
    RereadMentions(kept + [line], other);
    WrittenAndRead(kept);
    RereadMentions(kept, other);
  }

  /** After a removal the instance has no arguments; another one's are trimmed if they stood on the last line. */
  lemma LookupRemoved(content: Option<string>, instance: string, other: string)
    requires ValidName(instance) && ValidName(other)
    ensures Lookup(Removed(content, instance), instance).None?
    ensures other != instance && AnsweredLast(Others(Lines(content), instance), other) ==>
              Lookup(content, other).Some? && Lookup(Removed(content, instance), other) == Some(TrimRight(Lookup(content, other).value))
    ensures other != instance && !AnsweredLast(Others(Lines(content), instance), other) ==>
              Lookup(Removed(content, instance), other) == Lookup(content, other)
  {
    var kept := Others(Lines(content), instance);
    OthersOneLine(Lines(content), instance);
    if other != instance {
      OthersLookup(Lines(content), instance, other);
    }
    TidyLookup(kept, other);
    ExistsAfter(content, instance, "", instance);
    UnmentionedLookup(Lines(Removed(content, instance)), instance);
    if content.Some? && kept != [] {
      WrittenAndRead(kept);
      RereadLookup(kept, other);
    }
  }

  /** A removal leaves another instance's arguments alone unless they stood on the last line with spaces behind them. */
  lemma RemoveKeepsOthersIff(content: Option<string>, instance: string, other: string)
    requires ValidName(instance) && ValidName(other) && other != instance
    ensures Lookup(Removed(content, instance), other) == Lookup(content, other)
      <==> !(AnsweredLast(Others(Lines(content), instance), other) && EndsWithSpace(Lookup(content, other)))
  {
    LookupRemoved(content, instance, other);
    if Lookup(content, other).Some? {
      TrimRightSpec(Lookup(content, other).value);
    }
  }

  predicate EndsWithSpace(value: Option<string>) {
    value.Some? && value.value != "" && IsSpace(value.value[|value.value| - 1])
  }

  /** Removing an instance that stood behind another one whose arguments end with a space trims those arguments. */
  lemma RemovalCanTrim(instance: string, args: string, other: string, value: string)
    requires ValidName(instance) && ValidName(other) && other != instance
    requires OneLine(args) && OneLine(value) && Trimmed(value) && value != ""
    ensures var content := Some(JoinLines([EntryLine(other, value + " "), EntryLine(instance, args)]) + "\n");
      Lookup(content, other) == Some(value + " ") && Lookup(Removed(content, instance), other) == Some(value)
  {
    var first, second := EntryLine(other, value + " "), EntryLine(instance, args);
    SpaceBehind(value);
    EntryOneLine(other, value + " ");
    EntryOneLine(instance, args);
    SplitJoined([first, second]);
    EntryReads(other, value + " ");
    EntryReads(instance, args);
    TwoLines(first, second, instance, other);
    LookupRemoved(Some(JoinLines([first, second]) + "\n"), instance, other);
  }

  lemma SpaceBehind(value: string)
    requires OneLine(value) && Trimmed(value) && value != ""
    ensures OneLine(value + " ") && !Blank(value + " ")
    ensures TrimLeft(value + " ") == value + " " && TrimRight(value + " ") == value
  {
    assert OneLine(" ") && Blank(" ");
    assert value[0] in value && value[0] in value + " ";
    TrimLeftConcat(value, " ");
    TrimRightBlank(value, " ");
  }

  lemma OthersAppend(lines: seq<string>, line: string, instance: string)
    ensures Others(lines + [line], instance) == Others(lines, instance) + (if KeyOf(line) == instance then [] else [line])
  {
    assert (lines + [line])[..|lines|] == lines;
  }

  lemma TwoLines(first: string, second: string, instance: string, other: string)
    requires Answers(first, other) && KeyOf(second) == instance != other && !Blank(first)
    ensures Others([first, second], instance) == [first]
    ensures AnsweredLast([first], other)
    ensures LookupLines([first, second], other) == ValueOf(first)
  {
    assert [] + [first] == [first] && [first] + [second] == [first, second];
    LookupAppend([], first, other);
    LookupAppend([first], second, other);
    OthersAppend([], first, instance);
    OthersAppend([first], second, instance);
    assert [first][..0] == [] && [first] + [] == [first];
  }

  // ------------------------------------------------------------- sequences of edits

  datatype Edit = Put(instance: string, args: string) | Drop(instance: string)

  function Edited(content: Option<string>, e: Edit): Option<string> {
    match e
    case Put(instance, args) => Upserted(content, instance, args)
    case Drop(instance) => Removed(content, instance)
  }

  function EditedAll(content: Option<string>, edits: seq<Edit>): Option<string> {
    if edits == [] then content else Edited(EditedAll(content, edits[..|edits| - 1]), edits[|edits| - 1])
  }

  predicate GoodEdit(e: Edit) {
    ValidName(e.instance) && (e.Put? ==> e.args != "" && Trimmed(e.args) && OneLine(e.args))
  }

  /** What a map would hold for an instance after the edits. */
  function MapAfter(initial: Option<string>, edits: seq<Edit>, instance: string): Option<string> {
    if edits == [] then initial
    else
      var e := edits[|edits| - 1];
      if e.instance != instance then MapAfter(initial, edits[..|edits| - 1], instance)
      else if e.Put? then Some(e.args)
      else None
  }

  /** No instance's arguments end with a space. */
  ghost predicate Tidy(content: Option<string>) {
    forall instance :: ValidName(instance) ==> !EndsWithSpace(Lookup(content, instance))
  }

  lemma EditRefines(content: Option<string>, e: Edit, instance: string)
    requires Tidy(content) && GoodEdit(e) && ValidName(instance)
    ensures Lookup(Edited(content, e), instance)
         == if e.instance != instance then Lookup(content, instance) else if e.Put? then Some(e.args) else None
  {
    match e
    case Put(name, args) =>
      LookupUpserted(content, name, args, instance);
      UpsertReadsBackIff(content, name, args);
    case Drop(name) =>
      LookupRemoved(content, name, instance);
      if name != instance {
        RemoveKeepsOthersIff(content, name, instance);
      }
  }

  lemma EditKeepsTidy(content: Option<string>, e: Edit)
    requires Tidy(content) && GoodEdit(e)
    ensures Tidy(Edited(content, e))
  {
    forall instance | ValidName(instance) ensures !EndsWithSpace(Lookup(Edited(content, e), instance)) {
      EditRefines(content, e, instance);
    }
  }

  /** Over any sequence of edits the file answers as a map would, whatever comments and blank lines it holds. */
  lemma {:induction false} FileRefinesMap(content: Option<string>, edits: seq<Edit>, instance: string)
    requires Tidy(content) && ValidName(instance) && forall e :: e in edits ==> GoodEdit(e)
    ensures Tidy(EditedAll(content, edits))
    ensures Lookup(EditedAll(content, edits), instance) == MapAfter(Lookup(content, instance), edits, instance)
    decreases |edits|
  {
    if edits != [] {
      var front, last := edits[..|edits| - 1], edits[|edits| - 1];
      assert last in edits;
      FileRefinesMap(content, front, instance);
      EditRefines(EditedAll(content, front), last, instance);
      EditKeepsTidy(EditedAll(content, front), last);
    }
  }

  // ------------------------------------------------------------------- as it runs

  class InstanceFile {

    var content: Option<string>

    constructor ()
      ensures content.None?
    {
      content := None;
    }

    method KeptLines(instance: string) returns (kept: seq<string>)
      ensures kept == Others(Lines(content), instance)
    {
      kept := [];
      var lines := Lines(content);
      var k := 0;
      while k < |lines|
        invariant 0 <= k <= |lines|
        invariant kept == Others(lines[..k], instance)
      {
        assert lines[..k + 1][..k] == lines[..k];
        if KeyOf(lines[k]) != instance {
          kept := kept + [lines[k]];
        }
        k := k + 1;
      }
      assert lines[..k] == lines;
    }

    method Upsert(instance: string, args: string)
      modifies this
      ensures content == Upserted(old(content), instance, args)
    {
      var lines := KeptLines(instance);
      content := Some(FileText(lines + [EntryLine(instance, args)]));
    }

    method Remove(instance: string)
      modifies this
      ensures content == Removed(old(content), instance)
    {
      if content.None? {
        return;
      }
      var lines := KeptLines(instance);
      content := if lines == [] then None else Some(FileText(lines));
    }

    method Contains(instance: string) returns (found: bool)
      ensures found == Exists(content, instance)
    {
      var lines := Lines(content);
      var k := 0;
      while k < |lines|
        invariant 0 <= k <= |lines|
        invariant forall j :: 0 <= j < k ==> KeyOf(lines[j]) != instance
      {
        if KeyOf(lines[k]) == instance {
          return true;
        }
        k := k + 1;
      }
      return false;
    }

    method Arguments(instance: string) returns (args: Option<string>)
      ensures args == Lookup(content, instance)
    {
      var lines := Lines(content);
      var k := 0;
      while k < |lines|
        invariant 0 <= k <= |lines|
        invariant LookupLines(lines[..k], instance).None?
      {
        assert lines[..k + 1][..k] == lines[..k];
        if Answers(lines[k], instance) {
          EarlierAnswers(lines, instance, k + 1);
          return ValueOf(lines[k]);
        }
        k := k + 1;
      }
      assert lines[..k] == lines;
      return None;
    }

  }

  /** An answer found in the first lines is the answer. */
  lemma {:induction false} EarlierAnswers(lines: seq<string>, instance: string, k: nat)
    requires k <= |lines| && LookupLines(lines[..k], instance).Some?
    ensures LookupLines(lines, instance) == LookupLines(lines[..k], instance)
  {
    if k == |lines| {
      assert lines[..k] == lines;
    } else {
      assert lines[..|lines| - 1][..k] == lines[..k];
      EarlierAnswers(lines[..|lines| - 1], instance, k);
    }
  }

}
