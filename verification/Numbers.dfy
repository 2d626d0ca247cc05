/** Which texts are read as integers, and as which. */
module Numbers {

  import opened Wrappers
  import opened Text

  /** Digits with single underscores between them. */
  predicate DigitsForm(s: string) {
    && s != "" && IsDigit(s[0]) && IsDigit(s[|s| - 1])
    && (forall i :: 0 <= i < |s| ==> IsDigit(s[i]) || s[i] == '_')
    && (forall i :: 0 <= i < |s| - 1 ==> IsDigit(s[i]) || IsDigit(s[i + 1]))
  }

  lemma {:induction false} DigitsAccepted(s: string)
    ensures ParseDigits(s).Some? <==> DigitsForm(s)
    decreases |s|
  {
    if |s| > 1 && IsDigit(s[|s| - 1]) {
      var n := if s[|s| - 2] == '_' then |s| - 2 else |s| - 1;
      DigitsAccepted(s[..n]);
    }
  }

  function WithoutUnderscores(s: string): (r: string)
    ensures forall c :: c in r <==> c in s && c != '_'
  {
    if s == "" then "" else WithoutUnderscores(s[..|s| - 1]) + (if s[|s| - 1] == '_' then "" else [s[|s| - 1]])
  }

  lemma WithoutMore(s: string, c: char)
    ensures WithoutUnderscores(s + [c]) == if c == '_' then WithoutUnderscores(s) else WithoutUnderscores(s) + [c]
  {
    assert (s + [c])[..|s|] == s;
  }

  /** Taking the last digit off, and an underscore in front of it. */
  lemma DigitTaken(s: string) returns (prefix: string)
    requires DigitsForm(s) && |s| > 1
    ensures |prefix| < |s| && DigitsForm(prefix) && ParseDigits(prefix).Some?
    ensures ParseDigits(s) == Some(10 * ParseDigits(prefix).value + DigitValue(s[|s| - 1]))
    ensures WithoutUnderscores(s) == WithoutUnderscores(prefix) + [s[|s| - 1]]
  {
    var front, last := s[..|s| - 1], s[|s| - 1];
    assert s == front + [last];
    WithoutMore(front, last);
    prefix := if s[|s| - 2] == '_' then s[..|s| - 2] else front;
    if s[|s| - 2] == '_' {
      assert front == prefix + ['_'];
      WithoutMore(prefix, '_');
    }
    DigitsAccepted(s);
    DigitsAccepted(prefix);
  }

  lemma {:induction false} OneDigit(s: string)
    requires |s| == 1 && IsDigit(s[0])
    ensures WithoutUnderscores(s) == s
  {
    assert s == "" + [s[0]];
    WithoutMore("", s[0]);
  }

  /** Underscores do not change the number. */
  lemma {:induction false} UnderscoresIgnored(s: string)
    requires DigitsForm(s)
    ensures ParseDigits(s) == ParseDigits(WithoutUnderscores(s))
    decreases |s|
  {
    if |s| == 1 {
      OneDigit(s);
    } else {
      var prefix := DigitTaken(s);
      UnderscoresIgnored(prefix);
      var rest := WithoutUnderscores(prefix);
      DigitBehind(rest, s[|s| - 1]);
    }
  }

  /** A further digit behind a number without underscores. */
  lemma DigitBehind(s: string, c: char)
    requires ParseDigits(s).Some? && '_' !in s && IsDigit(c)
    ensures ParseDigits(s + [c]) == Some(10 * ParseDigits(s).value + DigitValue(c))
  {
    var t := s + [c];
    assert t[|t| - 2] == s[|s| - 1] && s[|s| - 1] in s && t[..|t| - 1] == s;
  }

  ghost predicate AllDigits(s: string) {
    forall i :: 0 <= i < |s| ==> IsDigit(s[i])
  }

  lemma DigitsMore(v: nat, c: char)
    requires v > 0 && IsDigit(c)
    ensures Digits(10 * v + DigitValue(c)) == Digits(v) + [c]
  {
    var n := 10 * v + DigitValue(c);
    assert n / 10 == v && n % 10 == DigitValue(c) && n >= 10;
    assert Digit(DigitValue(c)) == c;
  }

  /** Plain digits without a leading zero are the decimal text of the number read. */
  lemma {:induction false} DigitsReadBack(s: string)
    requires s != "" && AllDigits(s) && (|s| > 1 ==> s[0] != '0')
    ensures ParseDigits(s).Some? && Digits(ParseDigits(s).value) == s
    ensures s[0] != '0' ==> ParseDigits(s).value > 0
    decreases |s|
  {
    if |s| > 1 {
      var front, last := s[..|s| - 1], s[|s| - 1];
      DigitsReadBack(front);
      assert front[0] == s[0] && s == front + [last];
      DigitBehind(front, last);
      DigitsMore(ParseDigits(front).value, last);
    } else {
      assert s == [s[0]];
    }
  }

  /** Leading zeros do not change the number. */
  lemma {:induction false} LeadingZero(s: string)
    requires s != "" && AllDigits(s)
    ensures ParseDigits(s).Some? && ParseDigits("0" + s) == ParseDigits(s)
    decreases |s|
  {
    DigitsAccepted(s);
    var t := "0" + s;
    assert t[|t| - 1] == s[|s| - 1] && t[..|t| - 1] == "0" + s[..|s| - 1];
    if |s| == 1 {
      assert "0" + "" == "0" && s[..0] == "" && ParseDigits("0") == Some(0);
    } else {
      LeadingZero(s[..|s| - 1]);
      assert s[|s| - 2] != '_' && t[|t| - 2] == s[|s| - 2];
    }
  }

  /** A text is a number iff, spaces aside, it is such digits behind at most one sign; a minus sign negates. */
  lemma ParseIntMeans(s: string)
    ensures var t := Trim(s);
      && (ParseInt(s).Some? <==> DigitsForm(t) || (t != "" && t[0] in {'+', '-'} && DigitsForm(t[1..])))
      && (DigitsForm(t) ==> ParseInt(s).value == ParseDigits(t).value)
      && (t != "" && t[0] == '+' && DigitsForm(t[1..]) ==> ParseInt(s).value == ParseDigits(t[1..]).value)
      && (t != "" && t[0] == '-' && DigitsForm(t[1..]) ==> ParseInt(s).value + ParseDigits(t[1..]).value == 0)
  {
    var t := Trim(s);
    DigitsAccepted(t);
    if t != "" {
      DigitsAccepted(t[1..]);
    }
  }

}
