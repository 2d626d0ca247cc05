/** Two loops over a list: carrying a state through it, and appending what each element gives. */
module Lists {

  /** The state after the lines, numbered from `n`, were taken one by one. */
  function Fold<S>(step: (S, string, nat) -> S, s: S, lines: seq<string>, n: nat): S
    decreases |lines|
  {
    if lines == [] then s else Fold(step, step(s, lines[0], n), lines[1..], n + 1)
  }

  method FoldLoop<S>(step: (S, string, nat) -> S, s: S, lines: seq<string>, n: nat) returns (r: S)
    ensures r == Fold(step, s, lines, n)
  {
    r := s;
    var k := 0;
    while k < |lines|
      invariant 0 <= k <= |lines|
      invariant Fold(step, r, lines[k..], n + k) == Fold(step, s, lines, n)
    {
      r := step(r, lines[k], n + k);
      assert lines[k..][1..] == lines[k + 1..];
      k := k + 1;
    }
  }

  lemma {:induction false} FoldConcat<S>(step: (S, string, nat) -> S, s: S, first: seq<string>, second: seq<string>, n: nat)
    ensures Fold(step, s, first + second, n) == Fold(step, Fold(step, s, first, n), second, n + |first|)
    decreases |first|
  {
    if first == [] {
      assert first + second == second;
    } else {
      assert (first + second)[1..] == first[1..] + second;
      FoldConcat(step, step(s, first[0], n), first[1..], second, n + 1);
    }
  }

  lemma Assoc<T>(a: seq<T>, b: seq<T>, c: seq<T>)
    ensures a + (b + c) == a + b + c
  {
  }

  /** What each element gives, one after the other. */
  function FlatMap<T>(lines: T -> seq<string>, xs: seq<T>): seq<string> {
    if xs == [] then [] else FlatMap(lines, xs[..|xs| - 1]) + lines(xs[|xs| - 1])
  }

  method AppendEach<T>(lines: T -> seq<string>, xs: seq<T>, start: seq<string>) returns (all: seq<string>)
    ensures all == start + FlatMap(lines, xs)
  {
    all := start;
    var k := 0;
    while k < |xs|
      invariant 0 <= k <= |xs|
      invariant all == start + FlatMap(lines, xs[..k])
    {
      all := all + lines(xs[k]);
      assert xs[..k + 1][..k] == xs[..k];
      k := k + 1;
    }
    assert xs[..k] == xs;
  }

}
