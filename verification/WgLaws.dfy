/** Laws of the parser on text that no renderer writes: comments, spelling, unknown sections and lists with gaps. */
module WgLaws {

  import opened Text
  import opened Lists
  import opened WgQuick
  import opened WgReading

  // ------------------------------------------------------------------ what a line is

  /** The line is blank, or its first visible character begins a comment. */
  ghost predicate CommentOrBlank(raw: string) {
    Blank(raw) || exists i :: 0 <= i < |raw| && Blank(raw[..i]) && (raw[i] == '#' || raw[i] == ';')
  }

  lemma SkipMeans(raw: string)
    ensures Classify(raw).Skip? <==> CommentOrBlank(raw)
  {
    var i := FirstVisible(raw);
    if i < |raw| {
      forall j | i < j <= |raw| ensures !Blank(raw[..j]) {
        assert raw[i] in raw[..j];
      }
      forall j | 0 <= j < i ensures IsSpace(raw[j]) {
        assert raw[j] in raw[..i];
      }
    }
  }

  /** The first character that trimming keeps. */
  lemma FirstVisible(raw: string) returns (i: nat)
    ensures i <= |raw| && Blank(raw[..i]) && (i == |raw| <==> Blank(raw)) && (i == |raw| <==> Trim(raw) == "")
    ensures i < |raw| ==> !IsSpace(raw[i]) && Trim(raw)[0] == raw[i]
  {
    TrimLeftSpec(raw);
    TrimBothOrders(raw);
    var left := TrimLeft(raw);
    i := |raw| - |left|;
    assert raw[..|raw|] == raw;
    if left != "" {
      NotBlankTrimmed(left);
      assert raw[i] == left[0];
    }
  }

  /** The place of the separator: the first equals sign. */
  lemma {:induction false} IndexOfIsFirst(s: string, c: char)
    ensures var i := IndexOf(s, c);
      c !in s[..i] && (i < |s| ==> s[i] == c) && (i == |s| <==> c !in s)
    decreases |s|
  {
    if s != "" && s[0] != c {
      IndexOfIsFirst(s[1..], c);
      var i := IndexOf(s, c);
      assert s[..i] == [s[0]] + s[1..][..i - 1] && s == [s[0]] + s[1..];
    }
  }

  /** Which lines are headers, malformed, or assignments, and what an assignment gives: key and value are trimmed, and the first equals sign parts them. */
  lemma ClassifyMeans(raw: string)
    ensures var line, kind := Trim(raw), Classify(raw);
      var header := line != "" && line[0] == '[' && line[|line| - 1] == ']';
      && (kind.Skip? <==> CommentOrBlank(raw))
      && (kind.SectionHeader? <==> !CommentOrBlank(raw) && header)
      && (kind.SectionHeader? ==> |line| >= 2 && kind.name == Lower(Trim(line[1..|line| - 1])))
      && (kind.Malformed? <==> !CommentOrBlank(raw) && !header && '=' !in line)
      && (kind.Assignment? ==> exists before, after :: line == before + "=" + after && '=' !in before
                                 && kind.assign == Assign(Trim(before), Trim(after)))
  {
    var line := Trim(raw);
    var i := IndexOf(line, '=');
    SkipMeans(raw);
    IndexOfIsFirst(line, '=');
    if i < |line| {
      assert line == line[..i] + "=" + line[i + 1..];
    }
  }

  // ------------------------------------------------------------- comma-separated text

  /** The text between commas. */
  function Pieces(s: string): (pieces: seq<string>)
    ensures pieces != [] && forall p :: p in pieces ==> ',' !in p
    decreases |s|
  {
    var i := IndexOf(s, ',');
    IndexOfIsFirst(s, ',');
    if i == |s| then [s] else [s[..i]] + Pieces(s[i + 1..])
  }

  function Joined(pieces: seq<string>): string
    requires pieces != []
  {
    if |pieces| == 1 then pieces[0] else pieces[0] + "," + Joined(pieces[1..])
  }

  lemma {:induction false} PiecesJoin(s: string)
    ensures Joined(Pieces(s)) == s
    decreases |s|
  {
    var i := IndexOf(s, ',');
    IndexOfIsFirst(s, ',');
    if i < |s| {
      PiecesJoin(s[i + 1..]);
      assert Pieces(s)[1..] == Pieces(s[i + 1..]);
      assert s == s[..i] + "," + s[i + 1..];
    }
  }

  function Trims(pieces: seq<string>): (r: seq<string>)
    ensures |r| == |pieces| && forall k :: 0 <= k < |pieces| ==> r[k] == Trim(pieces[k])
  {
    seq(|pieces|, k requires 0 <= k < |pieces| => Trim(pieces[k]))
  }

  /** For every text, a list is the pieces between the commas, trimmed, without the empty ones, in order. */
  lemma {:induction false} SplitCsvMeans(s: string)
    ensures SplitCsv(s) == NonEmpty(Trims(Pieces(s))) && Joined(Pieces(s)) == s
    decreases |s|
  {
    PiecesJoin(s);
    var i := IndexOf(s, ',');
    if i < |s| {
      SplitCsvMeans(s[i + 1..]);
      assert Trims(Pieces(s))[1..] == Trims(Pieces(s[i + 1..]));
      assert Trims(Pieces(s))[0] == Trim(s[..i]);
    } else {
      assert s[..i] == s && Trims([s]) == [Trim(s)];
      assert [Trim(s)][1..] == [];
    }
  }

  /** Dropping empty values keeps the order of the others. */
  lemma {:induction false} NonEmptyConcat(a: seq<string>, b: seq<string>)
    ensures NonEmpty(a + b) == NonEmpty(a) + NonEmpty(b)
    ensures "" !in a ==> NonEmpty(a) == a
    decreases |a|
  {
    if a == [] {
      assert a + b == b;
    } else {
      assert (a + b)[1..] == a[1..] + b;
      NonEmptyConcat(a[1..], b);
      assert a == [a[0]] + a[1..];
    }
  }

  // ---------------------------------------------------------- texts read the same way

  /** All fields are the same; the warnings, which tell line numbers, need not be. */
  predicate SameFields(p: Parsed, q: Parsed) {
    && p.(peers := [], warnings := []) == q.(peers := [], warnings := [])
    && |p.peers| == |q.peers|
    && forall k :: 0 <= k < |p.peers| ==> p.peers[k].(warnings := []) == q.peers[k].(warnings := [])
  }

  /** Texts with the same entries have the same fields. */
  lemma SameEntries(text: string, other: string, name: string)
    requires var a, b := SplitLines(text), SplitLines(other); Entries(a) == Entries(b) && PeerHeaders(a) == PeerHeaders(b)
    ensures SameFields(Parse(text, name), Parse(other, name))
  {
    ParseReads(text, name);
    ParseReads(other, name);
    var p, q := Parse(text, name), Parse(other, name);
    forall k | 0 <= k < |p.peers| ensures p.peers[k].(warnings := []) == q.peers[k].(warnings := []) {
      assert ReadsPeer(Entries(SplitLines(text)), k, p.peers[k]) && ReadsPeer(Entries(SplitLines(text)), k, q.peers[k]);
    }
  }

  /** Text made of lines. */
  function TextOf(lines: seq<string>): string {
    if lines == [] then "" else JoinLines(lines) + "\n"
  }

  lemma TextSplits(lines: seq<string>)
    requires AllOneLine(lines)
    ensures SplitLines(TextOf(lines)) == lines
  {
    if lines != [] {
      SplitJoined(lines);
    }
  }

  // ----------------------------------------------------------------------- comments

  /** The lines that are neither blank nor comments. */
  function Stripped(lines: seq<string>): (r: seq<string>)
    ensures AllOneLine(lines) ==> AllOneLine(r)
    ensures forall line :: line in r <==> line in lines && !Classify(line).Skip?
  {
    if lines == [] then []
    else Stripped(lines[..|lines| - 1]) + (if Classify(lines[|lines| - 1]).Skip? then [] else [lines[|lines| - 1]])
  }

  lemma StrippedMore(lines: seq<string>, raw: string)
    ensures Stripped(lines + [raw]) == if Classify(raw).Skip? then Stripped(lines) else Stripped(lines) + [raw]
  {
    assert (lines + [raw])[..|lines|] == lines;
  }

  /** Lines that leave the parser with the same entries at the same place. */
  predicate SameReading(a: seq<string>, b: seq<string>) {
    Entries(a) == Entries(b) && PlaceAfter(a) == PlaceAfter(b) && PeerHeaders(a) == PeerHeaders(b)
  }

  lemma {:induction false} SameReadingMore(a: seq<string>, b: seq<string>, raw: string)
    requires SameReading(a, b)
    ensures SameReading(a + [raw], b + [raw])
    ensures Classify(raw).Skip? ==> SameReading(a, b + [raw])
  {
    LinesMore(a, raw);
    LinesMore(b, raw);
  }

  lemma {:induction false} StrippedReads(lines: seq<string>, n: nat)
    requires n <= |lines|
    ensures SameReading(Stripped(lines[..n]), lines[..n])
    decreases n
  {
    if n > 0 {
      StrippedReads(lines, n - 1);
      SameReadingMore(Stripped(lines[..n - 1]), lines[..n - 1], lines[n - 1]);
      StrippedMore(lines[..n - 1], lines[n - 1]);
      LastOfFront(lines, n);
    }
  }

  lemma LastOfFront(lines: seq<string>, n: nat)
    requires 0 < n <= |lines|
    ensures lines[..n] == lines[..n - 1] + [lines[n - 1]]
  {
  }

  /** Taking out all comments and blank lines changes no field. */
  lemma CommentsChangeNothing(text: string, name: string)
    ensures SameFields(Parse(text, name), Parse(TextOf(Stripped(SplitLines(text))), name))
    ensures forall line :: line in Stripped(SplitLines(text)) <==> line in SplitLines(text) && !CommentOrBlank(line)
  {
    var lines := SplitLines(text);
    TextSplits(Stripped(lines));
    StrippedReads(lines, |lines|);
    assert lines[..|lines|] == lines;
    SameEntries(text, TextOf(Stripped(lines)), name);
    forall line ensures Classify(line).Skip? <==> CommentOrBlank(line) {
      SkipMeans(line);
    }
  }

  // ----------------------------------------------------------------------- spelling

  /** The same line, but for the case of letters in the key. */
  predicate Respelled(a: string, b: string) {
    var x, y := Classify(a), Classify(b);
    || x == y
    || (x.Assignment? && y.Assignment? && x.assign.value == y.assign.value && Lower(x.assign.key) == Lower(y.assign.key))
  }

  ghost predicate AllRespelled(a: seq<string>, b: seq<string>) {
    |a| == |b| && forall k :: 0 <= k < |a| ==> Respelled(a[k], b[k])
  }

  predicate Alike(x: Entry, y: Entry) {
    x.place == y.place && x.assign.value == y.assign.value && Lower(x.assign.key) == Lower(y.assign.key)
  }

  ghost predicate AllAlike(e: seq<Entry>, f: seq<Entry>) {
    |e| == |f| && forall k :: 0 <= k < |e| ==> Alike(e[k], f[k])
  }

  lemma {:induction false} RespelledReads(a: seq<string>, b: seq<string>)
    requires AllRespelled(a, b)
    ensures PlaceAfter(a) == PlaceAfter(b) && PeerHeaders(a) == PeerHeaders(b) && AllAlike(Entries(a), Entries(b))
    decreases |a|
  {
    if a != [] {
      RespelledReads(a[..|a| - 1], b[..|b| - 1]);
      assert Respelled(a[|a| - 1], b[|b| - 1]);
    }
  }

  lemma {:induction false} AlikeValues(e: seq<Entry>, f: seq<Entry>, place: Place, key: string)
    requires AllAlike(e, f)
    ensures Values(e, place, key) == Values(f, place, key)
    decreases |e|
  {
    if e != [] {
      AlikeValues(e[..|e| - 1], f[..|f| - 1], place, key);
      assert Alike(e[|e| - 1], f[|f| - 1]);
    }
  }

  /** All fields the parser knows are the same. */
  predicate SameKnownFields(p: Parsed, q: Parsed) {
    && p.(peers := [], warnings := [], extras := map[]) == q.(peers := [], warnings := [], extras := map[])
    && |p.peers| == |q.peers|
    && forall k :: 0 <= k < |p.peers| ==> p.peers[k].(warnings := [], extras := map[]) == q.peers[k].(warnings := [], extras := map[])
  }

  lemma AlikePeers(e: seq<Entry>, f: seq<Entry>, k: nat, p: ParsedPeer, q: ParsedPeer)
    requires AllAlike(e, f) && ReadsPeer(e, k, p) && ReadsPeer(f, k, q)
    ensures p.(warnings := [], extras := map[]) == q.(warnings := [], extras := map[])
  {
    forall key ensures Values(e, OfPeer(k), key) == Values(f, OfPeer(k), key) {
      AlikeValues(e, f, OfPeer(k), key);
    }
  }

  lemma AlikeInterfaces(e: seq<Entry>, f: seq<Entry>, p: Parsed, q: Parsed)
    requires AllAlike(e, f) && ReadsInterface(e, p) && ReadsInterface(f, q) && p.name == q.name
    ensures p.(peers := [], warnings := [], extras := map[]) == q.(peers := [], warnings := [], extras := map[])
  {
    forall key ensures Values(e, OfInterface, key) == Values(f, OfInterface, key) {
      AlikeValues(e, f, OfInterface, key);
    }
  }

  /** Writing keys in another case sets the same fields. */
  lemma CaseChangesNothing(text: string, other: string, name: string)
    requires AllRespelled(SplitLines(text), SplitLines(other))
    ensures SameKnownFields(Parse(text, name), Parse(other, name))
  {
    var a, b := SplitLines(text), SplitLines(other);
    var p, q := Parse(text, name), Parse(other, name);
    RespelledReads(a, b);
    ParseReads(text, name);
    ParseReads(other, name);
    AlikeInterfaces(Entries(a), Entries(b), p, q);
    forall k | 0 <= k < |p.peers|
      ensures p.peers[k].(warnings := [], extras := map[]) == q.peers[k].(warnings := [], extras := map[])
    {
      AlikePeers(Entries(a), Entries(b), k, p.peers[k], q.peers[k]);
    }
  }

  /** How a line written by hand is read: any spaces around key, sign and value are dropped, and later equals signs belong to the value. */
  lemma AssignmentLine(before: string, after: string)
    requires Trim(before) != "" && '=' !in before && Trim(before)[0] !in {'#', ';', '['}
    ensures Classify(before + "=" + after) == Assignment(Assign(Trim(before), Trim(after)))
  {
    var left, right := TrimLeft(before), TrimRight(after);
    TrimLeftSpec(before);
    TrimBothOrders(before);
    NotBlankTrimmed(left);
    AssignmentTrims(before, after);
    assert forall c :: c in left ==> c in before;
    TrimLeftTwice(before);
    TrimRightTwice(after);
    ClassifyParts(left, right);
  }

  /** What a trimmed line with an equals sign is read as. */
  lemma ClassifyParts(left: string, right: string)
    requires left != "" && '=' !in left && left[0] !in {'#', ';', '['}
    ensures ClassifyTrimmed(left + "=" + right) == Assignment(Assign(Trim(left), Trim(right)))
  {
    var line := left + "=" + right;
    assert line == left + ("=" + right);
    IndexOfFirst(left, '=', "=" + right);
    assert line[0] == left[0] && line[..|left|] == left && line[|left| + 1..] == right;
  }

  lemma AssignmentTrims(before: string, after: string)
    requires !Blank(before)
    ensures Trim(before + "=" + after) == TrimLeft(before) + "=" + TrimRight(after)
  {
    var left := TrimLeft(before);
    assert before + "=" + after == before + ("=" + after);
    TrimLeftConcat(before, "=" + after);
    assert left + ("=" + after) == left + "=" + after;
    TrimRightConcat(left + "=", after);
    TrimBothOrders(after);
    TrimRightAppend(left, "=");
    assert left + "=" + "" == left + "=";
  }

  lemma TrimLeftTwice(s: string)
    ensures Trim(TrimLeft(s)) == Trim(s)
  {
    TrimLeftSpec(s);
  }

  lemma TrimRightIdempotent(s: string)
    ensures TrimRight(TrimRight(s)) == TrimRight(s)
  {
    TrimRightSpec(s);
  }

  lemma TrimRightTwice(s: string)
    ensures Trim(TrimRight(s)) == Trim(s)
  {
    TrimRightIdempotent(s);
    TrimBothOrders(s);
    TrimBothOrders(TrimRight(s));
  }

  /** Hence a key in any case, with any spaces around it, makes the same line. */
  lemma KeyInAnyCase(before: string, other: string, after: string)
    requires Trim(before) != "" && '=' !in before && Trim(before)[0] !in {'#', ';', '['}
    requires Trim(other) != "" && '=' !in other && Trim(other)[0] !in {'#', ';', '['}
    requires Lower(Trim(before)) == Lower(Trim(other))
    ensures Respelled(before + "=" + after, other + "=" + after)
  {
    AssignmentLine(before, after);
    AssignmentLine(other, after);
  }

  // ----------------------------------------------------------------- unknown sections

  predicate UnknownHeader(raw: string) {
    Classify(raw).SectionHeader? && Classify(raw).name !in {"interface", "peer"}
  }

  predicate NoHeaders(lines: seq<string>) {
    forall k :: 0 <= k < |lines| ==> !Classify(lines[k]).SectionHeader?
  }

  /** The entries of supported sections. */
  function Supported(e: seq<Entry>): seq<Entry> {
    if e == [] then [] else Supported(e[..|e| - 1]) + (if e[|e| - 1].place.Outside? then [] else [e[|e| - 1]])
  }

  lemma {:induction false} SupportedValues(e: seq<Entry>, place: Place)
    requires !place.Outside?
    ensures forall key :: Values(e, place, key) == Values(Supported(e), place, key)
    ensures forall known :: Unknown(e, place, known) == Unknown(Supported(e), place, known)
    decreases |e|
  {
    if e != [] {
      var front, last := e[..|e| - 1], e[|e| - 1];
      SupportedValues(front, place);
      var kept := Supported(front);
      assert (kept + [last])[..|kept|] == kept;
      assert last.place.Outside? ==> Supported(e) == kept;
    }
  }

  /** A section of unknown name, up to the next header, adds no entry to a supported section. */
  lemma {:induction false} SectionAddsNothing(before: seq<string>, header: string, body: seq<string>)
    requires UnknownHeader(header) && NoHeaders(body)
    ensures var lines := before + [header] + body;
      && Supported(Entries(lines)) == Supported(Entries(before))
      && PeerHeaders(lines) == PeerHeaders(before) && PlaceAfter(lines).Outside?
    decreases |body|
  {
    if body == [] {
      assert before + [header] + body == before + [header];
      LinesMore(before, header);
    } else {
      var front, last := body[..|body| - 1], body[|body| - 1];
      SectionAddsNothing(before, header, front);
      var lines := before + [header] + front;
      assert before + [header] + body == lines + [last];
      LinesMore(lines, last);
      if Classify(last).Assignment? {
        SupportedMore(Entries(lines), Entry(Outside, Classify(last).assign));
      }
    }
  }

  lemma SupportedMore(e: seq<Entry>, x: Entry)
    ensures Supported(e + [x]) == Supported(e) + (if x.place.Outside? then [] else [x])
  {
    assert (e + [x])[..|e|] == e;
  }

  /** Lines that mean the same to the sections the parser knows. */
  predicate Agree(a: seq<string>, b: seq<string>) {
    Supported(Entries(a)) == Supported(Entries(b)) && PeerHeaders(a) == PeerHeaders(b)
  }

  lemma {:induction false} AgreeMore(a: seq<string>, b: seq<string>, raw: string)
    requires Agree(a, b) && (PlaceAfter(a) == PlaceAfter(b) || Classify(raw).SectionHeader?)
    ensures Agree(a + [raw], b + [raw]) && PlaceAfter(a + [raw]) == PlaceAfter(b + [raw])
  {
    LinesMore(a, raw);
    LinesMore(b, raw);
    if Classify(raw).Assignment? {
      SupportedMore(Entries(a), Entry(PlaceAfter(a), Classify(raw).assign));
      SupportedMore(Entries(b), Entry(PlaceAfter(b), Classify(raw).assign));
    }
  }

  /** Lines that agree go on to agree once a header has begun a new section in both. */
  lemma {:induction false} AgreeOn(a: seq<string>, b: seq<string>, rest: seq<string>, n: nat)
    requires Agree(a, b) && 0 < n <= |rest| && Classify(rest[0]).SectionHeader?
    ensures Agree(a + rest[..n], b + rest[..n]) && PlaceAfter(a + rest[..n]) == PlaceAfter(b + rest[..n])
    decreases n
  {
    if n == 1 {
      AgreeMore(a, b, rest[0]);
      assert rest[..1] == [rest[0]];
    } else {
      AgreeOn(a, b, rest, n - 1);
      AgreeMore(a + rest[..n - 1], b + rest[..n - 1], rest[n - 1]);
      LastOfFront(rest, n);
      Assoc(a, rest[..n - 1], [rest[n - 1]]);
      Assoc(b, rest[..n - 1], [rest[n - 1]]);
    }
  }

  lemma AgreeingFields(text: string, other: string, name: string)
    requires Agree(SplitLines(text), SplitLines(other))
    ensures SameFields(Parse(text, name), Parse(other, name))
  {
    var e, f := Entries(SplitLines(text)), Entries(SplitLines(other));
    ParseReads(text, name);
    ParseReads(other, name);
    var p, q := Parse(text, name), Parse(other, name);
    SupportedValues(e, OfInterface);
    SupportedValues(f, OfInterface);
    forall k: nat | k < |p.peers| ensures p.peers[k].(warnings := []) == q.peers[k].(warnings := []) {
      SupportedValues(e, OfPeer(k));
      SupportedValues(f, OfPeer(k));
      assert ReadsPeer(e, k, p.peers[k]) && ReadsPeer(f, k, q.peers[k]);
    }
  }

  /** A section of unknown name, wherever it stands, can be taken out without any field changing. */
  lemma UnknownSectionChangesNothing(before: seq<string>, header: string, body: seq<string>, rest: seq<string>, name: string)
    requires AllOneLine(before + [header] + body + rest)
    requires UnknownHeader(header) && NoHeaders(body) && (rest != [] ==> Classify(rest[0]).SectionHeader?)
    ensures SameFields(Parse(TextOf(before + [header] + body + rest), name), Parse(TextOf(before + rest), name))
  {
    var lines := before + [header] + body;
    SectionAddsNothing(before, header, body);
    if rest == [] {
      assert lines + rest == lines && before + rest == before;
    } else {
      AgreeOn(lines, before, rest, |rest|);
      assert rest[..|rest|] == rest;
    }
    forall line | line in before + rest ensures OneLine(line) {
      assert line in lines + rest;
    }
    TextSplits(lines + rest);
    TextSplits(before + rest);
    AgreeingFields(TextOf(lines + rest), TextOf(before + rest), name);
  }

}
