/**
WireGuard endpoints: rendering `host:port` with IPv6 literals in brackets, as in
section 3.2.2 of RFC 3986, and the two splitters that read it back.
 */
module Endpoint {

  import opened Wrappers
  import opened Text

  // ------------------------------------------------------------------ searching

  predicate OccursAt(s: string, pattern: string, i: int) {
    0 <= i <= |s| - |pattern| && s[i..i + |pattern|] == pattern
  }

  /** The last place a pattern occurs. */
  function LastIndex(s: string, pattern: string): (at: Option<nat>)
    requires pattern != ""
    ensures at.Some? ==> OccursAt(s, pattern, at.value) && forall j :: j > at.value ==> !OccursAt(s, pattern, j)
    ensures at.None? ==> forall j :: !OccursAt(s, pattern, j)
  {
    if |s| < |pattern| then None
    else if s[|s| - |pattern|..] == pattern then Some(|s| - |pattern|)
    else
      OccursInFront(s, pattern);
      LastIndex(s[..|s| - 1], pattern)
  }

  lemma OccursInFront(s: string, pattern: string)
    requires 0 < |pattern| <= |s|
    ensures forall j :: j != |s| - |pattern| ==> (OccursAt(s, pattern, j) <==> OccursAt(s[..|s| - 1], pattern, j))
  {
    forall j | j != |s| - |pattern|
      ensures OccursAt(s, pattern, j) <==> OccursAt(s[..|s| - 1], pattern, j)
    {
      if 0 <= j < |s| - |pattern| {
        assert s[..|s| - 1][j..j + |pattern|] == s[j..j + |pattern|];
      }
    }
  }

  function Colons(s: string): nat {
    if s == "" then 0 else (if s[0] == ':' then 1 else 0) + Colons(s[1..])
  }

  lemma {:induction false} ColonsOfConcat(s: string, t: string)
    ensures Colons(s + t) == Colons(s) + Colons(t)
  {
    if s == "" {
      assert s + t == t;
    } else {
      assert (s + t)[1..] == s[1..] + t;
      ColonsOfConcat(s[1..], t);
    }
  }

  lemma {:induction false} NoColons(s: string)
    ensures Colons(s) == 0 <==> ':' !in s
  {
    if s != "" {
      NoColons(s[1..]);
      assert s == [s[0]] + s[1..];
    }
  }

  // ------------------------------------------------------------------ endpoints

  /** The outcome of reading an address literal: its version and its canonical spelling. */
  datatype Address = Address(v6: bool, text: string)

  datatype Parts = Parts(host: Option<string>, port: Option<int>)

  function FormatEndpoint(address: string -> Option<Address>, host: string, port: int): string {
    var text := Trim(host);
    match address(text)
    case None => text + ":" + IntText(port)
    case Some(a) => if a.v6 then "[" + a.text + "]:" + IntText(port) else a.text + ":" + IntText(port)
  }

  /** The controller's splitter. */
  function SplitEndpoint(endpoint: Option<string>): Parts {
    if endpoint.None? || endpoint.value == "" then Parts(None, None)
    else
      var e := endpoint.value;
      var bracket := LastIndex(e[1..], "]:");
      var colon := LastIndex(e, ":");
      if e[0] == '[' && bracket.Some? then
        Parts(Some(e[1..][..bracket.value]), ParseInt(e[1..][bracket.value + 2..]))
      else if e[0] == '[' && e[|e| - 1] == ']' then Parts(Some(e[1..|e| - 1]), None)
      else if Colons(e) > 1 then Parts(Some(e), None)
      else if colon.None? then Parts(Some(e), None)
      else Parts(Some(e[..colon.value]), ParseInt(e[colon.value + 1..]))
  }

  /** The agent's splitter: it decides the pieces first and converts the port once; it agrees on every text. */
  function AgentSplitEndpoint(endpoint: Option<string>): (p: Parts)
    ensures p == SplitEndpoint(endpoint)
  {
    if endpoint.None? || endpoint.value == "" then Parts(None, None)
    else
      var e := endpoint.value;
      var bracket := LastIndex(e[1..], "]:");
      if e[0] == '[' && bracket.Some? then WithPort(e[1..][..bracket.value], e[1..][bracket.value + 2..])
      else if e[0] == '[' && e[|e| - 1] == ']' then Parts(Some(e[1..|e| - 1]), None)
      else if Colons(e) > 1 then Parts(Some(e), None)
      else
        var colon := LastIndex(e, ":");
        if colon.Some? then WithPort(e[..colon.value], e[colon.value + 1..]) else Parts(Some(e), None)
  }

  function WithPort(host: string, port: string): Parts {
    Parts(Some(host), ParseInt(port))
  }

  lemma OccurrenceChars(s: string, j: int)
    ensures OccursAt(s, ":", j) ==> s[j] == ':'
    ensures OccursAt(s, "]:", j) ==> s[j] == ']' && s[j + 1] == ':'
  {
    if OccursAt(s, "]:", j) {
      assert s[j..j + 2][0] == ']' && s[j..j + 2][1] == ':';
    } else if OccursAt(s, ":", j) {
      assert s[j..j + 1][0] == ':';
    }
  }

  /** Behind the separator there are only digits, so no colon is further right than it. */
  lemma ColonsEndAtSeparator(front: string, port: int, i: nat)
    requires i < |front + IntText(port)| && (front + IntText(port))[i] == ':'
    ensures i < |front|
  {
    IntTextIsPlain(port);
  }

  /** The separator before the port is the last one, whatever the host contains. */
  lemma LastSeparator(host: string, separator: string, port: int)
    requires separator == "]:" || separator == ":"
    ensures LastIndex(host + separator + IntText(port), separator) == Some(|host|)
  {
    var s := host + separator + IntText(port);
    SeparatorOccurs(host, separator, IntText(port));
    var at := LastIndex(s, separator).value;
    OccurrenceChars(s, at);
    ColonsEndAtSeparator(host + separator, port, at + |separator| - 1);
  }

  lemma SeparatorOccurs(before: string, separator: string, after: string)
    ensures OccursAt(before + separator + after, separator, |before|)
  {
    var s := before + separator + after;
    assert s[|before|..|before| + |separator|] == separator;
  }

  /** An IPv6 literal in brackets reads back as the literal and the port, zone or not. */
  lemma BracketedRoundTrip(literal: string, port: int)
    ensures SplitEndpoint(Some("[" + literal + "]:" + IntText(port))) == Parts(Some(literal), Some(port))
  {
    var e := "[" + literal + "]:" + IntText(port);
    assert e[1..] == literal + "]:" + IntText(port);
    LastSeparator(literal, "]:", port);
    assert e[1..][..|literal|] == literal && e[1..][|literal| + 2..] == IntText(port);
    IntTextParses(port);
  }

  predicate Bracketed(host: string) {
    host != "" && host[0] == '[' && host[|host| - 1] == ']'
  }

  /** What becomes of a host rendered without brackets when the bracket rule does not apply. */
  lemma PlainSplit(host: string, port: int)
    requires host != ""
    requires host[0] != '[' || LastIndex((host + ":" + IntText(port))[1..], "]:").None?
    ensures var e := host + ":" + IntText(port);
      SplitEndpoint(Some(e)) == if ':' in host then Parts(Some(e), None) else Parts(Some(host), Some(port))
  {
    var digits := IntText(port);
    var e := host + ":" + digits;
    IntTextIsPlain(port);
    IntTextParses(port);
    NoColons(host);
    NoColons(digits);
    ColonsOfConcat(host + ":", digits);
    ColonsOfConcat(host, ":");
    assert Colons(":") == 1;
    LastSeparator(host, ":", port);
    assert e[0] == host[0] && e[..|host|] == host && e[|host| + 1..] == digits;
    assert e[|e| - 1] == digits[|digits| - 1] && digits[|digits| - 1] in digits;
    NotABracket(port);
  }

  lemma NotABracket(port: int)
    ensures ']' !in IntText(port)
  {
  }

  /**
  A host rendered without brackets reads back unchanged exactly when it contains
  no colon and is not itself in brackets.
   */
  lemma PlainRoundTripIff(host: string, port: int)
    requires host != ""
    ensures SplitEndpoint(Some(host + ":" + IntText(port))) == Parts(Some(host), Some(port))
      <==> ':' !in host && !Bracketed(host)
  {
    var e := host + ":" + IntText(port);
    BracketRule(host, port);
    assert e[0] == host[0];
    if host[0] != '[' || LastIndex(e[1..], "]:").None? {
      PlainSplit(host, port);
    }
  }

  /** When the bracket rule applies it cuts the host short; without a colon in the host it applies to brackets only. */
  lemma BracketRule(host: string, port: int)
    requires host != ""
    ensures var e := host + ":" + IntText(port);
      var bracket := LastIndex(e[1..], "]:");
      && (bracket.Some? ==> |e[1..][..bracket.value]| < |host|)
      && (bracket.Some? && e[0] == '[' && ':' !in host ==> Bracketed(host))
      && (Bracketed(host) ==> bracket.Some?)
  {
    var e := host + ":" + IntText(port);
    var bracket := LastIndex(e[1..], "]:");
    if bracket.Some? {
      BracketInHost(host, port, bracket.value);
    }
    if Bracketed(host) {
      BracketsHaveSeparator(host, IntText(port));
    }
  }

  lemma BracketsHaveSeparator(host: string, digits: string)
    requires Bracketed(host)
    ensures LastIndex((host + ":" + digits)[1..], "]:").Some?
  {
    assert |host| > 1;
    var inner := host[1..|host| - 1];
    assert (host + ":" + digits)[1..] == inner + "]:" + digits;
    SeparatorOccurs(inner, "]:", digits);
  }

  lemma BracketInHost(host: string, port: int, at: nat)
    requires host != "" && OccursAt((host + ":" + IntText(port))[1..], "]:", at)
    ensures at + 1 < |host| && host[at + 1] == ']'
    ensures ':' !in host ==> at + 2 == |host|
  {
    var e, i := host + ":" + IntText(port), at + 1;
    OccurrenceChars(e[1..], at);
    assert e[i] == ']' && e[i + 1] == ':';
    ColonsEndAtSeparator(host + ":", port, i + 1);
    assert i + 1 < |host| ==> host[i + 1] == ':' && host[i + 1] in host;
  }

  /** A blank host is rendered as nothing before the colon, and reads back as such. */
  lemma BlankHostSplits(port: int)
    ensures SplitEndpoint(Some(":" + IntText(port))) == Parts(Some(""), Some(port))
  {
    var digits := IntText(port);
    var e := ":" + digits;
    IntTextIsPlain(port);
    IntTextParses(port);
    NoColons(digits);
    ColonsOfConcat(":", digits);
    assert Colons(":") == 1;
    LastSeparator("", ":", port);
    assert "" + ":" + digits == e && e[..0] == "" && e[1..] == digits;
  }

  lemma AnyPlainRoundTripIff(host: string, port: int)
    ensures SplitEndpoint(Some(host + ":" + IntText(port))) == Parts(Some(host), Some(port))
      <==> ':' !in host && !Bracketed(host)
  {
    if host == "" {
      BlankHostSplits(port);
      assert host + ":" + IntText(port) == ":" + IntText(port);
    } else {
      PlainRoundTripIff(host, port);
    }
  }

  /** What the renderer needs of address parsing: IPv4 spellings have no colon and no brackets. */
  ghost predicate AddressLaws(address: string -> Option<Address>) {
    forall t :: address(t).Some? && !address(t).value.v6 ==>
      address(t).value.text != "" && ':' !in address(t).value.text && !Bracketed(address(t).value.text)
  }

  /** The canonical spelling of a host as it is deployed. */
  function CanonicalHost(address: string -> Option<Address>, host: string): string {
    var text := Trim(host);
    if address(text).Some? then address(text).value.text else text
  }

  /** A rendered endpoint splits back into the canonical host and the port, unless it is a name with a colon or in brackets. */
  lemma EndpointRoundTrip(address: string -> Option<Address>, host: string, port: int)
    requires AddressLaws(address)
    ensures SplitEndpoint(Some(FormatEndpoint(address, host, port))) == Parts(Some(CanonicalHost(address, host)), Some(port))
      <==> (address(Trim(host)).Some? || (':' !in Trim(host) && !Bracketed(Trim(host))))
  {
    var text := Trim(host);
    match address(text)
    case None => AnyPlainRoundTripIff(text, port);
    case Some(a) =>
      if a.v6 {
        BracketedRoundTrip(a.text, port);
      } else {
        PlainRoundTripIff(a.text, port);
      }
  }

}
