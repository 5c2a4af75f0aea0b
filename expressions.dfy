/** The expression tree that the search builds, renders and evaluates. */
module Expressions {

  import opened Wrappers

  /** Rust's `i64`. */
  type Int64 = n: int | -0x8000_0000_0000_0000 <= n <= 0x7FFF_FFFF_FFFF_FFFF

  /** Rust's `f64`, kept as its IEEE-754 bit pattern: no float arithmetic is modelled. */
  datatype Float64 = Float64(bits: bv64)

  /** One variant per variant of the Rust `enum Expr`.  The boxed pairs of
      `Div`, `Pow` and `Sqrt` become two named children; the seven unary
      wrappers share the destructor `arg`. */
  datatype Expr =
    | Zero
    | One
    | E
    | Pi
    | Int(n: Int64)
    | Float(x: Float64)
    | UnaryMinus(arg: Expr)
    | Add(terms: seq<Expr>)
    | Prod(factors: seq<Expr>)
    | Div(num: Expr, denom: Expr)
    | Pow(base: Expr, exponent: Expr)
    | Sqrt(radicand: Expr, rootBase: Expr)
    | Floor(arg: Expr)
    | Ceil(arg: Expr)
    | Round(arg: Expr)
    | Sin(arg: Expr)
    | Cos(arg: Expr)
    | Tan(arg: Expr)
  {
    /** The variants without children. */
    predicate IsLeaf() {
      Zero? || One? || E? || Pi? || Int? || Float?
    }

    /** The seven variants with exactly one child. */
    predicate IsUnary() {
      UnaryMinus? || Floor? || Ceil? || Round? || Sin? || Cos? || Tan?
    }
  }

  /** The direct children of a node, in the order the renderer visits them. */
  function Children(e: Expr): (cs: seq<Expr>)
    ensures e.IsLeaf() ==> cs == []
    ensures e.IsUnary() ==> |cs| == 1
    ensures e.Div? || e.Pow? || e.Sqrt? ==> |cs| == 2
    ensures forall i :: 0 <= i < |cs| ==> cs[i] < e && Height(cs[i]) < Height(e)
  {
    match e
    case Zero | One | E | Pi | Int(_) | Float(_) => []
    case UnaryMinus(x) => [x]
    case Floor(x) => [x]
    case Ceil(x) => [x]
    case Round(x) => [x]
    case Sin(x) => [x]
    case Cos(x) => [x]
    case Tan(x) => [x]
    case Add(es) => es
    case Prod(es) => es
    case Div(a, b) => [a, b]
    case Pow(a, b) => [a, b]
    case Sqrt(a, b) => [a, b]
  }

  /** The node reached from `e` by following a path of child indices, or
      `None` when an index names no child.  Each step goes one level down. */
  function At(e: Expr, path: seq<nat>): (r: Option<Expr>)
    ensures r.Some? ==> Height(r.value) + |path| <= Height(e)
    decreases |path|
  {
    if path == [] then Some(e)
    else if path[0] < |Children(e)| then At(Children(e)[path[0]], path[1..])
    else None
  }

  /** Following `p` and then `q` is following `p + q`. */
  lemma {:induction false} AtCompose(e: Expr, p: seq<nat>, q: seq<nat>)
    ensures At(e, p + q) == (if At(e, p).Some? then At(At(e, p).value, q) else None)
    decreases |p|
  {
    if p != [] {
      assert (p + q)[0] == p[0];
      assert (p + q)[1..] == p[1..] + q;
      if p[0] < |Children(e)| {
        AtCompose(Children(e)[p[0]], p[1..], q);
      }
    } else {
      assert p + q == q;
    }
  }

  function Max(a: nat, b: nat): (m: nat)
    ensures a <= m && b <= m && (m == a || m == b)
  {
    if a < b then b else a
  }

  /** The number of edges on the longest path from `e` down to a leaf. */
  function Height(e: Expr): (h: nat)
    ensures h == 0 <==> e.IsLeaf()
    decreases e, 1
  {
    match e
    case Zero | One | E | Pi | Int(_) | Float(_) => 0
    case UnaryMinus(x) => 1 + Height(x)
    case Floor(x) => 1 + Height(x)
    case Ceil(x) => 1 + Height(x)
    case Round(x) => 1 + Height(x)
    case Sin(x) => 1 + Height(x)
    case Cos(x) => 1 + Height(x)
    case Tan(x) => 1 + Height(x)
    case Add(es) => 1 + MaxHeight(es)
    case Prod(es) => 1 + MaxHeight(es)
    case Div(a, b) => 1 + Max(Height(a), Height(b))
    case Pow(a, b) => 1 + Max(Height(a), Height(b))
    case Sqrt(a, b) => 1 + Max(Height(a), Height(b))
  }

  /** The largest height among `es`, or 0 when `es` is empty. */
  function MaxHeight(es: seq<Expr>): (h: nat)
    ensures forall i :: 0 <= i < |es| ==> Height(es[i]) <= h
    ensures es != [] ==> exists i :: 0 <= i < |es| && Height(es[i]) == h
    decreases es, 0
  {
    if es == [] then 0 else Max(Height(es[0]), MaxHeight(es[1..]))
  }

  /** The value `eval` gives a tree built only from 0, 1, integers, negation,
      sums and products, computed exactly over the integers (an empty sum is
      0 and an empty product 1, as Rust's `sum` and `product` give); `None`
      for a tree with any other node. */
  function ExactValue(e: Expr): (v: Option<int>)
    decreases e, 1
  {
    match e
    case Zero => Some(0)
    case One => Some(1)
    case Int(n) => Some(n)
    case UnaryMinus(x) =>
      var a := ExactValue(x);
      if a.Some? then Some(-a.value) else None
    case Add(es) => ExactSum(es)
    case Prod(es) => ExactProduct(es)
    case _ => None
  }

  function ExactSum(es: seq<Expr>): (v: Option<int>)
    decreases es, 0
  {
    if es == [] then Some(0)
    else
      var a := ExactValue(es[0]);
      var b := ExactSum(es[1..]);
      if a.Some? && b.Some? then Some(a.value + b.value) else None
  }

  function ExactProduct(es: seq<Expr>): (v: Option<int>)
    decreases es, 0
  {
    if es == [] then Some(1)
    else
      var a := ExactValue(es[0]);
      var b := ExactProduct(es[1..]);
      if a.Some? && b.Some? then Some(a.value * b.value) else None
  }
}
