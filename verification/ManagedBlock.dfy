/** Text with a managed block between two marker lines: finding the block, removing it, and appending a new one. */
module ManagedBlock {

  import opened Wrappers
  import opened Text
  import opened Endpoint

  /** The first place a pattern occurs. */
  function FirstIndex(s: string, pattern: string): (at: Option<nat>)
    ensures at.Some? ==> at.value + |pattern| <= |s|
  {
    if OccursAt(s, pattern, 0) then Some(0)
    else if s == "" then None
    else
      var rest := FirstIndex(s[1..], pattern);
      if rest.None? then None else Some(1 + rest.value)
  }

  predicate Absent(s: string, pattern: string) {
    FirstIndex(s, pattern).None?
  }

  /** The lines that enclose the block. */
  datatype Markers = Markers(begin: string, end: string)

  /** A marker lies on one line and has no spaces around it. */
  predicate MarkerOk(marker: string) {
    marker != "" && '\n' !in marker && Trimmed(marker)
  }

  predicate MarkersOk(m: Markers) {
    MarkerOk(m.begin) && MarkerOk(m.end)
  }

  function DropBreak(s: string): (r: string)
    ensures |r| <= |s|
  {
    if s != "" && s[0] == '\n' then s[1..] else s
  }

  /** What follows a block, given what follows its begin marker; nothing if there is no end marker. */
  function AfterBlock(m: Markers, rest: string): (after: Option<string>)
    ensures after.Some? ==> |after.value| <= |rest|
  {
    var e := FirstIndex(rest, m.end);
    if e.None? then None else Some(DropBreak(rest[e.value + |m.end|..]))
  }

  /** Removes every block: from a begin marker to the nearest end marker, with the line break behind it. */
  function RemoveBlocks(m: Markers, s: string): string
    decreases |s|
  {
    var b := FirstIndex(s, m.begin);
    if b.None? || m.begin == "" then s
    else
      var after := AfterBlock(m, s[b.value + |m.begin|..]);
      if after.None? then s else s[..b.value] + RemoveBlocks(m, after.value)
  }

  /** The user's part of a configuration: what is left without the blocks. */
  function UserText(m: Markers, s: string): string {
    Trim(RemoveBlocks(m, s))
  }

  function Block(m: Markers, body: string): string {
    m.begin + "\n" + body + "\n" + m.end
  }

  /** The user's text, then the block, a blank line between them. */
  function WithBlock(m: Markers, user: string, body: string): string {
    (if user == "" then "" else user + "\n\n") + Block(m, body) + "\n"
  }

  // -------------------------------------------------------------------- searching

  lemma OccursShift(s: string, pattern: string, k: int)
    requires s != "" && pattern != "" && k > 0
    ensures OccursAt(s, pattern, k) <==> OccursAt(s[1..], pattern, k - 1)
  {
    if k <= |s| - |pattern| {
      var here, there := s[k..k + |pattern|], s[1..][k - 1..k - 1 + |pattern|];
      assert forall i :: 0 <= i < |pattern| ==> here[i] == s[k + i] && there[i] == s[k + i];
      assert here == there;
    }
  }

  lemma {:induction false} AbsentIff(s: string, pattern: string)
    requires pattern != ""
    ensures Absent(s, pattern) <==> forall k :: !OccursAt(s, pattern, k)
  {
    if s != "" && !OccursAt(s, pattern, 0) {
      AbsentIff(s[1..], pattern);
      if Absent(s[1..], pattern) {
        forall k ensures !OccursAt(s, pattern, k) {
          if k > 0 {
            OccursShift(s, pattern, k);
          }
        }
      } else {
        var k :| OccursAt(s[1..], pattern, k);
        OccursShift(s, pattern, k + 1);
      }
    }
  }

  lemma SliceOfSlice(s: string, i: nat, j: nat, k: nat, n: nat)
    requires i <= j <= |s| && k + n <= j - i
    ensures s[i..j][k..k + n] == s[i + k..i + k + n]
  {
    var here, there := s[i..j][k..k + n], s[i + k..i + k + n];
    assert forall x :: 0 <= x < n ==> here[x] == s[i + k + x] && there[x] == s[i + k + x];
  }

  lemma AbsentInPart(s: string, pattern: string, i: nat, j: nat)
    requires pattern != "" && Absent(s, pattern) && i <= j <= |s|
    ensures Absent(s[i..j], pattern)
  {
    AbsentIff(s, pattern);
    AbsentIff(s[i..j], pattern);
    forall k ensures !OccursAt(s[i..j], pattern, k) {
      assert !OccursAt(s, pattern, i + k);
      if 0 <= k <= j - i - |pattern| {
        SliceOfSlice(s, i, j, k, |pattern|);
      }
    }
  }

  lemma AbsentInTrimmed(s: string, pattern: string)
    requires pattern != "" && Absent(s, pattern)
    ensures Absent(Trim(s), pattern)
  {
    TrimLeftSpec(s);
    var l := TrimLeft(s);
    TrimRightSpec(l);
    AbsentInPart(s, pattern, |s| - |l|, |s|);
    assert s[|s| - |l|..|s|] == l;
    AbsentInPart(l, pattern, 0, |Trim(s)|);
    assert l[0..|Trim(s)|] == Trim(s);
  }

  /** A pattern on one line cannot reach over a line break. */
  lemma {:induction false} SearchBehindBreak(s: string, rest: string, pattern: string)
    requires pattern != "" && '\n' !in pattern && Absent(s, pattern)
    ensures FirstIndex(s + "\n" + rest, pattern)
         == if Absent(rest, pattern) then None else Some(|s| + 1 + FirstIndex(rest, pattern).value)
  {
    var all := s + "\n" + rest;
    NoStraddle(s, rest, pattern);
    if s == "" {
      assert all[1..] == rest;
    } else {
      assert all[1..] == s[1..] + "\n" + rest;
      SearchBehindBreak(s[1..], rest, pattern);
    }
  }

  lemma NoStraddle(s: string, rest: string, pattern: string)
    requires pattern != "" && '\n' !in pattern && Absent(s, pattern)
    ensures !OccursAt(s + "\n" + rest, pattern, 0)
  {
    var all := s + "\n" + rest;
    if |pattern| <= |s| {
      assert |pattern| <= |all| ==> all[0..|pattern|] == s[0..|pattern|];
    } else {
      assert all[|s|] == '\n';
      assert |pattern| <= |all| ==> all[0..|pattern|][|s|] == '\n';
      assert pattern[|s|] in pattern;
    }
  }

  lemma AbsentInBoth(s: string, t: string, pattern: string)
    requires pattern != "" && '\n' !in pattern && Absent(s, pattern) && Absent(t, pattern)
    ensures Absent(s + "\n" + t, pattern)
  {
    SearchBehindBreak(s, t, pattern);
  }

  // ---------------------------------------------------------- removing and appending

  lemma NothingToRemove(m: Markers, s: string)
    requires Absent(s, m.begin)
    ensures RemoveBlocks(m, s) == s
  {
  }

  lemma {:induction false} MarkerFirst(marker: string, rest: string)
    requires marker != ""
    ensures FirstIndex(marker + rest, marker) == Some(0)
  {
    assert (marker + rest)[0..|marker|] == marker;
  }

  lemma RemoveAt(m: Markers, front: string, rest: string)
    requires MarkersOk(m) && FirstIndex(front + m.begin + rest, m.begin) == Some(|front|) && AfterBlock(m, rest) == Some("")
    ensures RemoveBlocks(m, front + m.begin + rest) == front
  {
    var s := front + m.begin + rest;
    assert s[|front| + |m.begin|..] == rest && s[..|front|] == front;
    EmptyHasNone(m);
    assert front + "" == front;
  }

  lemma EmptyHasNone(m: Markers)
    requires MarkersOk(m)
    ensures RemoveBlocks(m, "") == ""
  {
  }

  /** The block ends at its end marker, as long as its body holds none. */
  lemma EndFound(m: Markers, body: string)
    requires MarkersOk(m) && Absent(body, m.end)
    ensures AfterBlock(m, "\n" + body + "\n" + m.end + "\n") == Some("")
  {
    var rest, last := "\n" + body + "\n" + m.end + "\n", m.end + "\n";
    MarkerFirst(m.end, "\n");
    SearchBehindBreak(body, last, m.end);
    SearchBehindBreak("", body + "\n" + last, m.end);
    assert rest == "" + "\n" + (body + "\n" + last);
    assert rest[|body| + 2 + |m.end|..] == "\n";
  }

  lemma BeginFound(m: Markers, user: string, rest: string)
    requires MarkersOk(m) && Absent(user, m.begin)
    ensures FirstIndex(user + "\n\n" + m.begin + rest, m.begin) == Some(|user| + 2)
  {
    var last := m.begin + rest;
    MarkerFirst(m.begin, rest);
    SearchBehindBreak("", last, m.begin);
    assert "" + "\n" + last == "\n" + last;
    SearchBehindBreak(user, "\n" + last, m.begin);
    assert user + "\n\n" + m.begin + rest == user + "\n" + ("\n" + last);
  }

  /** User text without a begin marker survives in front of the block. */
  lemma UserTextKept(m: Markers, user: string, body: string)
    requires MarkersOk(m) && Absent(user, m.begin) && Trimmed(user) && Absent(body, m.end)
    ensures UserText(m, WithBlock(m, user, body)) == user
  {
    var rest := "\n" + body + "\n" + m.end + "\n";
    var front := if user == "" then "" else user + "\n\n";
    assert WithBlock(m, user, body) == front + m.begin + rest;
    EndFound(m, body);
    if user == "" {
      MarkerFirst(m.begin, rest);
      assert "" + m.begin + rest == m.begin + rest;
    } else {
      BeginFound(m, user, rest);
    }
    RemoveAt(m, front, rest);
    FrontTrims(user);
  }

  lemma FrontTrims(user: string)
    requires Trimmed(user)
    ensures Trim(if user == "" then "" else user + "\n\n") == user
  {
    assert Blank("\n\n");
    if user == "" {
      TrimIsTrimmed("");
    } else {
      TrimIsTrimmed(user);
      TrimLeftConcat(user, "\n\n");
      assert user[0] in user && TrimLeft(user) == user;
      TrimRightBlank(user, "\n\n");
    }
  }

}
