/**
The string operations the node and the controller use on configuration text:
trimming, splitting into lines, joining, and decimal numbers.
 */
module Text {

  import opened Wrappers

  /** The characters at which a text is split into lines. */
  predicate IsLineBreak(c: char) {
    || c == '\n' || c == '\r' || c == '\U{0B}' || c == '\U{0C}'
    || '\U{1C}' <= c <= '\U{1E}' || c == '\U{85}' || c == '\U{2028}' || c == '\U{2029}'
  }

  predicate IsSpace(c: char) {
    || IsLineBreak(c) || c == ' ' || c == '\t' || c == '\U{1F}' || c == '\U{A0}' || c == '\U{1680}'
    || '\U{2000}' <= c <= '\U{200A}' || c == '\U{202F}' || c == '\U{205F}' || c == '\U{3000}'
  }

  // ------------------------------------------------------------------ trimming

  function TrimLeft(s: string): string {
    if s != "" && IsSpace(s[0]) then TrimLeft(s[1..]) else s
  }

  function TrimRight(s: string): string {
    if s != "" && IsSpace(s[|s| - 1]) then TrimRight(s[..|s| - 1]) else s
  }

  function Trim(s: string): string {
    TrimRight(TrimLeft(s))
  }

  /** What is trimmed on the left is spaces, and all of them. */
  lemma {:induction false} TrimLeftSpec(s: string)
    ensures var r := TrimLeft(s);
      && |r| <= |s| && s[|s| - |r|..] == r
      && (r != "" ==> !IsSpace(r[0]))
      && Blank(s[..|s| - |r|])
  {
    if s != "" && IsSpace(s[0]) {
      TrimLeftSpec(s[1..]);
      var r := TrimLeft(s);
      assert s[..|s| - |r|] == [s[0]] + s[1..][..|s| - 1 - |r|];
    }
  }

  lemma {:induction false} TrimRightSpec(s: string)
    ensures var r := TrimRight(s);
      && r <= s
      && (r != "" ==> !IsSpace(r[|r| - 1]))
      && Blank(s[|r|..])
  {
    if s != "" && IsSpace(s[|s| - 1]) {
      TrimRightSpec(s[..|s| - 1]);
      var r := TrimRight(s);
      assert s[|r|..] == s[..|s| - 1][|r|..] + [s[|s| - 1]];
    }
  }

  /** Text that trimming leaves alone. */
  predicate Trimmed(s: string) {
    s != "" ==> !IsSpace(s[0]) && !IsSpace(s[|s| - 1])
  }

  predicate Blank(s: string) {
    forall c :: c in s ==> IsSpace(c)
  }

  lemma TrimIsTrimmed(s: string)
    ensures Trimmed(Trim(s))
    ensures Trimmed(s) ==> Trim(s) == s
    ensures Blank(s) ==> Trim(s) == ""
  {
    TrimLeftSpec(s);
    TrimRightSpec(TrimLeft(s));
    var l := TrimLeft(s);
    assert l != "" ==> l[0] in l;
    assert forall c :: c in l ==> c in s;
  }

  /** Trimming on the right does not look past the last character that is not a space. */
  lemma {:induction false} TrimRightAppend(s: string, t: string)
    requires t != "" && !IsSpace(t[|t| - 1])
    ensures TrimRight(s + t) == s + t
  {
    assert (s + t)[|s + t| - 1] == t[|t| - 1];
  }

  lemma {:induction false} TrimRightBlank(s: string, t: string)
    requires Blank(t)
    ensures TrimRight(s + t) == TrimRight(s)
  {
    if t == "" {
      assert s + t == s;
    } else {
      assert (s + t)[|s + t| - 1] == t[|t| - 1] && t[|t| - 1] in t;
      assert (s + t)[..|s + t| - 1] == s + t[..|t| - 1];
      TrimRightBlank(s, t[..|t| - 1]);
    }
  }

  lemma {:induction false} TrimLeftBlank(s: string, t: string)
    requires Blank(s)
    ensures TrimLeft(s + t) == TrimLeft(t)
  {
    if s == "" {
      assert s + t == t;
    } else {
      assert s[0] in s && (s + t)[1..] == s[1..] + t;
      TrimLeftBlank(s[1..], t);
    }
  }

  /** Text that is not blank keeps everything in front of it. */
  lemma {:induction false} TrimRightConcat(s: string, t: string)
    ensures TrimRight(s + t) == if Blank(t) then TrimRight(s) else s + TrimRight(t)
  {
    if Blank(t) {
      TrimRightBlank(s, t);
    } else {
      var front, last := t[..|t| - 1], t[|t| - 1];
      assert t == front + [last];
      assert (s + t)[|s + t| - 1] == last && (s + t)[..|s + t| - 1] == s + front;
      if IsSpace(last) {
        assert !Blank(front);
        TrimRightConcat(s, front);
      }
    }
  }

  lemma {:induction false} TrimLeftConcat(s: string, t: string)
    ensures TrimLeft(s + t) == if Blank(s) then TrimLeft(t) else TrimLeft(s) + t
  {
    if Blank(s) {
      TrimLeftBlank(s, t);
    } else {
      var first, rest := s[0], s[1..];
      assert s == [first] + rest;
      assert (s + t)[0] == first && (s + t)[1..] == rest + t;
      if IsSpace(first) {
        assert !Blank(rest);
        TrimLeftConcat(rest, t);
      }
    }
  }

  /** Trimming both sides in either order gives the same text. */
  lemma TrimBothOrders(s: string)
    ensures TrimLeft(TrimRight(s)) == Trim(s)
    ensures Blank(s) <==> TrimLeft(s) == ""
    ensures Blank(s) <==> TrimRight(s) == ""
    ensures Blank(s) <==> Trim(s) == ""
  {
    TrimLeftSpec(s);
    TrimRightSpec(s);
    var left := TrimLeft(s);
    var pre := s[..|s| - |left|];
    assert s == pre + left;
    TrimRightConcat(pre, left);
    if left == "" {
      assert pre == s;
      TrimIsTrimmed(s);
      TrimRightBlank("", s);
      assert "" + s == s;
    } else {
      assert left[0] in left && left[0] in s && !Blank(left);
      TrimRightConcat("", left);
      TrimRightSpec(left);
      TrimLeftConcat(pre, TrimRight(left));
      NotBlankTrimmed(left);
    }
  }

  lemma NotBlankTrimmed(s: string)
    requires s != "" && !IsSpace(s[0])
    ensures TrimRight(s) != "" && TrimRight(s)[0] == s[0]
  {
    TrimRightSpec(s);
    var rest := s[|TrimRight(s)|..];
    assert s == TrimRight(s) + rest && s[0] in s;
  }

  // --------------------------------------------------------------------- lines

  predicate OneLine(s: string) {
    forall c :: c in s ==> !IsLineBreak(c)
  }

  ghost predicate AllOneLine(lines: seq<string>) {
    forall line :: line in lines ==> OneLine(line)
  }

  /** The length of the first line. */
  function LineEnd(s: string): (n: nat)
    ensures n <= |s| && OneLine(s[..n]) && (n < |s| ==> IsLineBreak(s[n]))
  {
    if s == "" || IsLineBreak(s[0]) then 0
    else
      var n := 1 + LineEnd(s[1..]);
      assert s[..n] == [s[0]] + s[1..][..n - 1];
      n
  }

  /** Lines without their line breaks; a carriage return and line feed count as one break. */
  function SplitLines(s: string): (lines: seq<string>)
    ensures AllOneLine(lines)
    decreases |s|
  {
    if s == "" then []
    else
      var n := LineEnd(s);
      if n == |s| then assert s[..n] == s; [s]
      else
        var next := if s[n] == '\r' && n + 1 < |s| && s[n + 1] == '\n' then n + 2 else n + 1;
        [s[..n]] + SplitLines(s[next..])
  }

  function JoinLines(lines: seq<string>): string {
    if lines == [] then ""
    else if |lines| == 1 then lines[0]
    else lines[0] + "\n" + JoinLines(lines[1..])
  }

  lemma {:induction false} LineEndOf(line: string, rest: string)
    requires OneLine(line) && (rest == "" || IsLineBreak(rest[0]))
    ensures LineEnd(line + rest) == |line|
  {
    if line == "" {
      assert line + rest == rest;
    } else {
      assert line[0] in line && (line + rest)[1..] == line[1..] + rest;
      LineEndOf(line[1..], rest);
    }
  }

  lemma SplitFirst(line: string, rest: string)
    requires OneLine(line)
    ensures SplitLines(line + "\n" + rest) == [line] + SplitLines(rest)
  {
    var s := line + "\n" + rest;
    assert s == line + ("\n" + rest);
    LineEndOf(line, "\n" + rest);
    assert s[..|line|] == line && s[|line| + 1..] == rest;
  }

  /** What ends a line: one breaking character, or a carriage return and line feed together. */
  predicate EndsLine(end: string, rest: string) {
    end == "\r\n" || (|end| == 1 && IsLineBreak(end[0]) && !(end == "\r" && rest != "" && rest[0] == '\n'))
  }

  /** Text without a break is one line, and no text is none. */
  lemma SplitOneLine(line: string)
    requires OneLine(line)
    ensures SplitLines(line) == if line == "" then [] else [line]
  {
    LineEndOf(line, "");
    assert line + "" == line;
  }

  /** How any other text is split: every break ends the line before it. */
  lemma SplitLinesMeans(line: string, end: string, rest: string)
    requires OneLine(line) && EndsLine(end, rest)
    ensures SplitLines(line + end + rest) == [line] + SplitLines(rest)
  {
    var s := line + end + rest;
    var n := |line|;
    assert s == line + (end + rest);
    LineEndOf(line, end + rest);
    assert s[..n] == line && s[n] == end[0];
    assert s[n + |end|..] == rest;
    assert end == "\r\n" ==> s[n + 1] == '\n';
    assert end != "\r\n" && rest != "" ==> s[n + 1] == rest[0];
  }

  /** Splitting undoes joining, when the joined text ends with a line break. */
  lemma {:induction false} SplitJoined(lines: seq<string>)
    requires lines != [] && AllOneLine(lines)
    ensures SplitLines(JoinLines(lines) + "\n") == lines
  {
    assert lines[0] in lines;
    if |lines| == 1 {
      SplitFirst(lines[0], "");
      assert JoinLines(lines) + "\n" == lines[0] + "\n" + "";
      assert [lines[0]] + SplitLines("") == lines;
    } else {
      forall line | line in lines[1..] ensures OneLine(line) {
        assert line in lines;
      }
      SplitJoined(lines[1..]);
      SplitFirst(lines[0], JoinLines(lines[1..]) + "\n");
      assert JoinLines(lines) + "\n" == lines[0] + "\n" + (JoinLines(lines[1..]) + "\n");
    }
  }

  /** The last line ends the joined text. */
  lemma {:induction false} JoinLast(lines: seq<string>, last: string)
    ensures JoinLines(lines + [last]) == (if lines == [] then last else JoinLines(lines) + "\n" + last)
  {
    if lines == [] {
      assert lines + [last] == [last];
    } else if |lines| == 1 {
      assert (lines + [last])[1..] == [last];
    } else {
      assert (lines + [last])[1..] == lines[1..] + [last];
      JoinLast(lines[1..], last);
    }
  }

  // ------------------------------------------------------------------- numbers

  predicate IsDigit(c: char) {
    '0' <= c <= '9'
  }

  function Digit(d: nat): (c: char)
    requires d < 10
    ensures IsDigit(c) && DigitValue(c) == d
  {
    '0' + d as char
  }

  function DigitValue(c: char): (d: nat)
    requires IsDigit(c)
    ensures d < 10
  {
    (c - '0') as nat
  }

  function Digits(n: nat): (s: string)
    ensures s != "" && forall c :: c in s ==> IsDigit(c)
  {
    if n < 10 then [Digit(n)] else Digits(n / 10) + [Digit(n % 10)]
  }

  function IntText(n: int): string {
    if n < 0 then "-" + Digits(-n) else Digits(n)
  }

  /** Decimal digits, with single underscores allowed between them. */
  function ParseDigits(s: string): Option<nat> {
    if s == "" || !IsDigit(s[|s| - 1]) then None
    else if |s| == 1 then Some(DigitValue(s[0]))
    else
      var prefix := if s[|s| - 2] == '_' then s[..|s| - 2] else s[..|s| - 1];
      match ParseDigits(prefix)
      case None => None
      case Some(v) => Some(10 * v + DigitValue(s[|s| - 1]))
  }

  /** Conversion of text to an integer, surrounding spaces and a sign allowed. */
  function ParseInt(s: string): Option<int> {
    var t := Trim(s);
    if t == "" then None
    else if t[0] == '-' then
      var magnitude: Option<int> := ParseDigits(t[1..]);
      if magnitude.None? then None else Some(-magnitude.value)
    else if t[0] == '+' then ParseDigits(t[1..])
    else ParseDigits(t)
  }

  lemma {:induction false} DigitsParse(n: nat)
    ensures ParseDigits(Digits(n)) == Some(n)
  {
    if n >= 10 {
      DigitsParse(n / 10);
      var s, prefix := Digits(n), Digits(n / 10);
      assert s[..|s| - 1] == prefix && s[|s| - 2] == prefix[|prefix| - 1] && s[|s| - 2] in prefix;
    }
  }

  lemma IntTextIsPlain(n: int)
    ensures IntText(n) != "" && Trimmed(IntText(n)) && OneLine(IntText(n)) && ':' !in IntText(n)
  {
    var s := IntText(n);
    assert s[0] in s && s[|s| - 1] in s;
    forall c | c in s ensures IsDigit(c) || c == '-' {
      assert n < 0 ==> s == "-" + Digits(-n);
    }
  }

  /** Reading back a number that was written in decimal. */
  lemma IntTextParses(n: int)
    ensures ParseInt(IntText(n)) == Some(n)
  {
    IntTextIsPlain(n);
    TrimIsTrimmed(IntText(n));
    if n < 0 {
      DigitsParse(-n);
      assert IntText(n)[1..] == Digits(-n);
    } else {
      DigitsParse(n);
      assert Digits(n)[0] in Digits(n);
    }
  }

}
