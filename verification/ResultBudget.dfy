/**
The size and depth limits on a reported result. The check walks the tree once
with one mutable budget shared by all branches; the limits it enforces are the
plain node count, height and local limits of the tree.
 */
module ResultBudget {

  import opened Text

  /** A decoded JSON value; the keys of an object are listed beside its values. */
  datatype Json =
    | Obj(keys: seq<string>, children: seq<Json>)
    | Arr(children: seq<Json>)
    | Str(utf8Length: nat)
    | Int(value: int)
    | Float(finite: bool)
    | Bool
    | Null
    | Unsupported

  const MAX_NODES := 10000
  const MAX_DEPTH := 16
  const MAX_ITEMS := 2000
  const MAX_KEY := 256
  const MAX_STRING := 1024 * 1024
  const MAX_DIGITS := 128

  predicate KeyOk(key: string) {
    |key| <= 256 && forall c :: c in key ==> ' ' <= c && c != '\U{7F}'
  }

  /** The limits on one node alone. */
  predicate LocalOk(v: Json) {
    match v
    case Obj(keys, children) => |children| <= 2000 && forall key :: key in keys ==> KeyOk(key)
    case Arr(children) => |children| <= 2000
    case Str(n) => n <= 1048576
    case Int(n) => |Digits(if n < 0 then -n else n)| <= 128
    case Float(finite) => finite
    case Bool => true
    case Null => true
    case Unsupported => false
  }

  // The simple measures; `All` and the prefix functions take the nodes of a list.

  function Nodes(v: Json): (n: nat)
    ensures n >= 1
    decreases v, 1
  {
    1 + if v.Obj? || v.Arr? then NodesAll(v.children) else 0
  }

  function NodesAll(vs: seq<Json>): nat
    decreases vs, 0
  {
    if vs == [] then 0 else NodesAll(vs[..|vs| - 1]) + Nodes(vs[|vs| - 1])
  }

  function Height(v: Json): (h: nat)
    decreases v, 1
  {
    1 + if v.Obj? || v.Arr? then HeightAll(v.children) else -1
  }

  /** The largest height in a list, -1 for none. */
  function HeightAll(vs: seq<Json>): (h: int)
    ensures h >= -1
    decreases vs, 0
  {
    if vs == [] then -1
    else
      var front, last := HeightAll(vs[..|vs| - 1]), Height(vs[|vs| - 1]);
      if front > last then front else last
  }

  predicate AllOk(v: Json)
    decreases v, 1
  {
    LocalOk(v) && (v.Obj? || v.Arr? ==> AllOkIn(v.children))
  }

  predicate AllOkIn(vs: seq<Json>)
    decreases vs, 0
  {
    vs != [] ==> AllOkIn(vs[..|vs| - 1]) && AllOk(vs[|vs| - 1])
  }

  /** A list is within bounds when it fits a number of nodes, a height and the local limits. */
  ghost predicate Fits(vs: seq<Json>, budget: int, room: int) {
    NodesAll(vs) <= budget && HeightAll(vs) <= room && AllOkIn(vs)
  }

  lemma FitsOneMore(vs: seq<Json>, v: Json, budget: int, room: int)
    ensures NodesAll(vs + [v]) == NodesAll(vs) + Nodes(v)
    ensures Fits(vs + [v], budget, room) <==>
      Fits(vs, budget, room) && NodesAll(vs) + Nodes(v) <= budget && Height(v) <= room && AllOk(v)
  {
    assert (vs + [v])[..|vs + [v]| - 1] == vs;
  }

  lemma {:induction false} PrefixFits(vs: seq<Json>, k: nat, budget: int, room: int)
    requires k <= |vs| && Fits(vs, budget, room)
    ensures Fits(vs[..k], budget, room)
  {
    if k == |vs| {
      assert vs[..k] == vs;
    } else {
      var front := vs[..|vs| - 1];
      assert front + [vs[|vs| - 1]] == vs;
      FitsOneMore(front, vs[|vs| - 1], budget, room);
      PrefixFits(front, k, budget, room);
      assert front[..k] == vs[..k];
    }
  }

  /** The checks on a value without children. */
  method LeafOk(v: Json) returns (ok: bool)
    requires !v.Obj? && !v.Arr?
    ensures ok <==> LocalOk(v)
  {
    if v.Str? && v.utf8Length > MAX_STRING {
      return false;
    }
    if v.Int? {
      return |Digits(if v.value < 0 then -v.value else v.value)| <= MAX_DIGITS;
    }
    if v.Float? {
      return v.finite;
    }
    return v.Str? || v.Bool? || v.Null?;
  }

  /** Checks a subtree at a given depth, counting its nodes off the shared budget. */
  method Check(v: Json, depth: nat, budget: array<int>) returns (ok: bool)
    requires budget.Length == 1
    modifies budget
    ensures ok <==> Nodes(v) <= old(budget[0]) && depth + Height(v) <= 16 && AllOk(v)
    ensures ok ==> budget[0] == old(budget[0]) - Nodes(v)
    decreases v
  {
    budget[0] := budget[0] - 1;
    if budget[0] < 0 || depth > MAX_DEPTH {
      return false;
    }
    if !v.Obj? && !v.Arr? {
      ok := LeafOk(v);
      return;
    }
    if |v.children| > MAX_ITEMS {
      return false;
    }
    if v.Obj? {
      var k := 0;
      while k < |v.keys|
        invariant 0 <= k <= |v.keys|
        invariant forall key :: key in v.keys[..k] ==> KeyOk(key)
      {
        var key := v.keys[k];
        if |key| > MAX_KEY || exists c | c in key :: c < ' ' || c == '\U{7F}' {
          assert key in v.keys && !KeyOk(key);
          return false;
        }
        k := k + 1;
      }
      assert v.keys[..k] == v.keys;
    }
    ghost var start, room := budget[0], MAX_DEPTH - depth - 1;
    var i := 0;
    while i < |v.children|
      invariant 0 <= i <= |v.children|
      invariant Fits(v.children[..i], start, room)
      invariant budget[0] == start - NodesAll(v.children[..i])
    {
      var child := v.children[i];
      var fine := Check(child, depth + 1, budget);
      assert v.children[..i + 1] == v.children[..i] + [child];
      FitsOneMore(v.children[..i], child, start, room);
      if !fine {
        if Fits(v.children, start, room) {
          PrefixFits(v.children, i + 1, start, room);
        }
        return false;
      }
      i := i + 1;
    }
    assert v.children[..i] == v.children;
    return true;
  }

  /** A result is accepted exactly when the whole tree is within every limit. */
  method ValidateResult(v: Json) returns (ok: bool)
    ensures ok <==> Nodes(v) <= 10000 && Height(v) <= 16 && AllOk(v)
  {
    var budget := new int[1];
    budget[0] := MAX_NODES;
    ok := Check(v, 0, budget);
  }

}
