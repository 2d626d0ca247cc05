/** Which lines of a text the parser warns about, and where the warning is kept. */
module WgWarnings {

  import opened Text
  import opened Lists
  import opened WgQuick
  import opened WgReading

  /** The warning, if any, that a line adds to the interface's list. */
  function LineWarning(place: Place, raw: string, n: nat): seq<Warning> {
    match Classify(raw)
    case Skip => []
    case SectionHeader(name) => if name == "interface" || name == "peer" then [] else [UnsupportedSection(n, name)]
    case Malformed => [MalformedLine(n)]
    case Assignment(a) =>
      var k := Lower(a.key);
      if place.OfPeer? then []
      else if place.Outside? then [KeyOutsideSection(n)]
      else if k !in INTERFACE_KEYS then [UnsupportedField(n, a.key)]
      else if k == "listenport" && ParseInt(a.value).None? then [InvalidInteger(n, "ListenPort")]
      else if k == "mtu" && ParseInt(a.value).None? then [InvalidInteger(n, "MTU")]
      else []
  }

  /** The warning, if any, that a line adds to the list of peer `k`. */
  function PeerLineWarning(place: Place, k: nat, raw: string, n: nat): seq<Warning> {
    if place != OfPeer(k) || !Classify(raw).Assignment? then []
    else
      var a := Classify(raw).assign;
      if Lower(a.key) !in PEER_KEYS then [UnsupportedField(n, a.key)]
      else if Lower(a.key) == "persistentkeepalive" && ParseInt(a.value).None? then [InvalidInteger(n, "PersistentKeepalive")]
      else []
  }

  /** What each line adds, given the place where it stands and its number. */
  function Collected(adds: (Place, string, nat) -> seq<Warning>, lines: seq<string>): seq<Warning> {
    if lines == [] then []
    else Collected(adds, lines[..|lines| - 1]) + adds(PlaceAfter(lines[..|lines| - 1]), lines[|lines| - 1], |lines|)
  }

  function Warned(lines: seq<string>): seq<Warning> {
    Collected(LineWarning, lines)
  }

  function PeerWarner(k: nat): (Place, string, nat) -> seq<Warning> {
    (place: Place, raw: string, n: nat) => PeerLineWarning(place, k, raw, n)
  }

  function PeerWarned(lines: seq<string>, k: nat): seq<Warning> {
    Collected(PeerWarner(k), lines)
  }

  lemma {:induction false} CollectedMore(adds: (Place, string, nat) -> seq<Warning>, lines: seq<string>, raw: string)
    ensures Collected(adds, lines + [raw]) == Collected(adds, lines) + adds(PlaceAfter(lines), raw, |lines| + 1)
  {
    assert (lines + [raw])[..|lines|] == lines;
  }

  /** What an assignment in an interface section warns about. */
  lemma InterfaceWarning(p: Parsed, a: Assign, n: nat)
    ensures ApplyInterface(p, a, n).peers == p.peers
    ensures var k := Lower(a.key);
      ApplyInterface(p, a, n).warnings == p.warnings +
        (if k !in INTERFACE_KEYS then [UnsupportedField(n, a.key)]
         else if k == "listenport" && ParseInt(a.value).None? then [InvalidInteger(n, "ListenPort")]
         else if k == "mtu" && ParseInt(a.value).None? then [InvalidInteger(n, "MTU")]
         else [])
  {
    InterfaceKeysApart();
    assert p.warnings + [] == p.warnings;
  }

  lemma PeerWarning(q: ParsedPeer, a: Assign, n: nat)
    ensures var k := Lower(a.key);
      ApplyPeer(q, a, n).warnings == q.warnings +
        (if k !in PEER_KEYS then [UnsupportedField(n, a.key)]
         else if k == "persistentkeepalive" && ParseInt(a.value).None? then [InvalidInteger(n, "PersistentKeepalive")]
         else [])
  {
    assert q.warnings + [] == q.warnings;
  }

  /** A section that has not begun has no warnings. */
  lemma {:induction false} NoWarningsYet(lines: seq<string>, k: nat)
    requires k >= PeerHeaders(lines)
    ensures PeerWarned(lines, k) == []
    decreases |lines|
  {
    if lines != [] {
      var front := lines[..|lines| - 1];
      NoWarningsYet(front, k);
      PlacesBegun(front);
    }
  }

  // ----------------------------------------------------------------- line by line

  lemma StepWarns(st: Progress, place: Place, raw: string, n: nat)
    requires InPlace(st.where, place, |st.parsed.peers|)
    ensures ParseLine(st, raw, n).parsed.warnings == st.parsed.warnings + LineWarning(place, raw, n)
  {
    assert st.parsed.warnings + [] == st.parsed.warnings;
    if Classify(raw).Assignment? && place.OfInterface? {
      InterfaceWarning(st.parsed, Classify(raw).assign, n);
    }
  }

  lemma StepWarnsInPeer(st: Progress, raw: string, n: nat, k: nat)
    requires Classify(raw).Assignment? && st.where.InPeer? && k < |st.parsed.peers|
    ensures var peers := ParseLine(st, raw, n).parsed.peers;
      && |peers| == |st.parsed.peers|
      && (k + 1 < |peers| ==> peers[k] == st.parsed.peers[k])
      && (k + 1 == |peers| ==> peers[k].warnings == st.parsed.peers[k].warnings + PeerLineWarning(OfPeer(k), k, raw, n))
  {
    PeerWarning(st.parsed.peers[k], Classify(raw).assign, n);
  }

  /** Every other line leaves the peers that have begun as they are. */
  lemma StepKeepsPeers(st: Progress, raw: string, n: nat)
    requires !(Classify(raw).Assignment? && st.where.InPeer?)
    ensures st.parsed.peers <= ParseLine(st, raw, n).parsed.peers
  {
    if Classify(raw).Assignment? && st.where.InInterface? {
      InterfaceWarning(st.parsed, Classify(raw).assign, n);
    }
  }

  lemma StepWarnsPeer(st: Progress, place: Place, raw: string, n: nat, k: nat)
    requires InPlace(st.where, place, |st.parsed.peers|) && k < |st.parsed.peers|
    ensures var peers := ParseLine(st, raw, n).parsed.peers;
      k < |peers| && peers[k].warnings == st.parsed.peers[k].warnings + PeerLineWarning(place, k, raw, n)
  {
    assert st.parsed.peers[k].warnings + [] == st.parsed.peers[k].warnings;
    if Classify(raw).Assignment? && st.where.InPeer? {
      StepWarnsInPeer(st, raw, n, k);
    } else {
      StepKeepsPeers(st, raw, n);
    }
  }

  lemma StepAddsPeer(st: Progress, raw: string, n: nat)
    ensures var peers := ParseLine(st, raw, n).parsed.peers;
      if Classify(raw) == SectionHeader("peer") then peers == st.parsed.peers + [EMPTY_PEER] else |peers| == |st.parsed.peers|
  {
    if Classify(raw).Assignment? && st.where.InInterface? {
      InterfaceWarning(st.parsed, Classify(raw).assign, n);
    }
  }

  lemma {:induction false} LinesWarn(lines: seq<string>, name: string)
    ensures Fold(ParseLine, Progress(EmptyParsed(name), Nowhere), lines, 1).parsed.warnings == Warned(lines)
    decreases |lines|
  {
    if lines != [] {
      var front, last := lines[..|lines| - 1], lines[|lines| - 1];
      LinesWarn(front, name);
      LinesPlaced(front, name);
      FoldLast(Progress(EmptyParsed(name), Nowhere), front, last);
      assert lines == front + [last];
      var st := Fold(ParseLine, Progress(EmptyParsed(name), Nowhere), front, 1);
      StepWarns(st, PlaceAfter(front), last, |lines|);
      CollectedMore(LineWarning, front, last);
    }
  }

  lemma {:induction false} LinesWarnPeer(lines: seq<string>, name: string, k: nat)
    ensures var peers := Fold(ParseLine, Progress(EmptyParsed(name), Nowhere), lines, 1).parsed.peers;
      k < |peers| ==> peers[k].warnings == PeerWarned(lines, k)
    decreases |lines|
  {
    if lines != [] {
      var front, last := lines[..|lines| - 1], lines[|lines| - 1];
      LinesWarnPeer(front, name, k);
      LinesPlaced(front, name);
      FoldLast(Progress(EmptyParsed(name), Nowhere), front, last);
      assert lines == front + [last];
      var st := Fold(ParseLine, Progress(EmptyParsed(name), Nowhere), front, 1);
      StepAddsPeer(st, last, |lines|);
      CollectedMore(PeerWarner(k), front, last);
      if k < |st.parsed.peers| {
        StepWarnsPeer(st, PlaceAfter(front), last, |lines|, k);
      } else {
        NoWarningsYet(front, k);
        PlacesBegun(front);
      }
    }
  }

  /** For every text: one warning, with its line number, for each offending line, and no others. */
  lemma ParseWarns(text: string, name: string)
    ensures var p, lines := Parse(text, name), SplitLines(text);
      p.warnings == Warned(lines) && forall k :: 0 <= k < |p.peers| ==> p.peers[k].warnings == PeerWarned(lines, k)
  {
    LinesWarn(SplitLines(text), name);
    var p := Parse(text, name);
    forall k: nat | k < |p.peers| ensures p.peers[k].warnings == PeerWarned(SplitLines(text), k) {
      LinesWarnPeer(SplitLines(text), name, k);
    }
  }

}
