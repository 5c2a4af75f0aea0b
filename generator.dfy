/** `Expr::new_random`: the depth-indexed grammar that builds the random
    expressions the search tries. */
module Generator {
  import opened Wrappers
  import opened Expressions
  import opened Decimal
  import opened Text
  import opened Renderer

  /** A level-0 draw of `random_range(0..6)` that the match turns into a
      leaf; the draws 3 and 5 fall to the restart arm. */
  predicate Level0Usable(draw: int) {
    draw == 0 || draw == 1 || draw == 2 || draw == 4
  }

  /** Some draw at position `p` or later names a leaf. */
  ghost predicate UsableFrom(tape: nat -> nat, p: nat) {
    exists k: nat :: p <= k && Level0Usable(tape(k) % 6)
  }

  /** Whatever has been drawn so far, a draw that names a leaf still comes. */
  ghost predicate FairTape(tape: nat -> nat) {
    forall p: nat :: UsableFrom(tape, p)
  }

  /** The thread's random number generator.  The i-th call to `RandomRange`
      is answered from `tape(i)`, brought into the requested range; nothing is
      assumed about how the values on the tape are distributed. */
  class Rng {
    const tape: nat -> nat
    var pos: nat

    constructor (tape: nat -> nat)
      ensures this.tape == tape && pos == 0
    {
      this.tape := tape;
      pos := 0;
    }

    /** `random_range(lo..hi)`: a value in the half-open range, consuming one draw. */
    method RandomRange(lo: int, hi: int) returns (r: int)
      requires lo < hi
      modifies this
      ensures lo <= r < hi
      ensures r == lo + tape(old(pos)) % (hi - lo)
      ensures pos == old(pos) + 1
    {
      r := lo + tape(pos) % (hi - lo);
      pos := pos + 1;
    }

    /** `random_range(lo..=hi)`: a value in the closed range, consuming one draw. */
    method RandomRangeInclusive(lo: int, hi: int) returns (r: int)
      requires lo <= hi
      modifies this
      ensures lo <= r <= hi
      ensures r == lo + tape(old(pos)) % (hi - lo + 1)
      ensures pos == old(pos) + 1
    {
      r := RandomRange(lo, hi + 1);
    }

    ghost predicate Fair()
      reads this
    {
      FairTape(tape)
    }
  }

  /** The grammar of the trees at a level: at level 0 a leaf among Zero,
      One, E and Int(n) with -100 <= n <= 100; at level 1 one of the seven
      unary wrappers around a level-0 tree; above that a sum or product of 2
      to 5 operands, or a quotient, power or root of exactly two, every
      operand itself in the grammar at the level below.  Every tree
      `new_random(level, _)` returns is in it (`GenGenerated`), every tree in
      it is returned on some tape (`GeneratedReachable`), and the level is the
      height of the tree (`GeneratedHeight`). */
  predicate Generated(e: Expr, level: nat)
    decreases e, 1
  {
    if level == 0 then
      e.Zero? || e.One? || e.E? || (e.Int? && -100 <= e.n <= 100)
    else if level == 1 then
      e.IsUnary() && Generated(e.arg, 0)
    else
      match e
      case Add(es) => 2 <= |es| <= 5 && AllGenerated(es, level - 1)
      case Prod(es) => 2 <= |es| <= 5 && AllGenerated(es, level - 1)
      case Div(a, b) => Generated(a, level - 1) && Generated(b, level - 1)
      case Pow(a, b) => Generated(a, level - 1) && Generated(b, level - 1)
      case Sqrt(a, b) => Generated(a, level - 1) && Generated(b, level - 1)
      case _ => false
  }

  predicate AllGenerated(es: seq<Expr>, level: nat)
    decreases es, 0
  {
    forall i :: 0 <= i < |es| ==> Generated(es[i], level)
  }

  /** The unary wrapper the level-1 draw `index` of `random_range(0..7)` names. */
  function Wrap(index: nat, x: Expr): (e: Expr)
    requires index < 7
    ensures e.IsUnary() && e.arg == x
  {
    if index == 0 then UnaryMinus(x)
    else if index == 1 then Floor(x)
    else if index == 2 then Ceil(x)
    else if index == 3 then Round(x)
    else if index == 4 then Sin(x)
    else if index == 5 then Cos(x)
    else Tan(x)
  }

  /** A position from `pos` on whose draw names a leaf. */
  ghost function LeafWitness(tape: nat -> nat, pos: nat): (k: nat)
    requires FairTape(tape)
    ensures pos <= k && Level0Usable(tape(k) % 6)
  {
    assert UsableFrom(tape, pos);
    var k: nat :| pos <= k && Level0Usable(tape(k) % 6);
    k
  }

  /** What the level-0 arm returns when its first draw is at `pos`, with the
      position of the next unused draw; `k` bounds the restarts. */
  ghost function GenLeaf(tape: nat -> nat, pos: nat, k: nat): (r: (Expr, nat))
    requires pos <= k && Level0Usable(tape(k) % 6)
    decreases k - pos
  {
    var choice := tape(pos) % 6;
    if choice == 0 then (Zero, pos + 1)
    else if choice == 1 then (One, pos + 1)
    else if choice == 2 then (E, pos + 1)
    else if choice == 4 then (Int(-100 + tape(pos + 1) % 201), pos + 2)
    else GenLeaf(tape, pos + 1, k)
  }

  /** What `new_random(level, rng)` returns when its first draw is at `pos`,
      with the position of the next unused draw: the reference the methods
      below are proved against. */
  ghost function Gen(tape: nat -> nat, pos: nat, level: nat): (r: (Expr, nat))
    requires FairTape(tape)
    decreases level, 1
  {
    if level == 0 then GenLeaf(tape, pos, LeafWitness(tape, pos))
    else if level == 1 then GenUnary(tape, pos)
    else GenComposite(tape, pos, level)
  }

  /** The level-1 arm: a level-0 tree, then the draw that picks its wrapper. */
  ghost function GenUnary(tape: nat -> nat, pos: nat): (r: (Expr, nat))
    requires FairTape(tape)
    decreases 1, 0
  {
    var (x, p) := Gen(tape, pos, 0);
    (Wrap(tape(p) % 7, x), p + 1)
  }

  /** The arm for levels 2 and up: the variant draw, then for a sum or
      product the count draw and the operands, else the two operands. */
  ghost function GenComposite(tape: nat -> nat, pos: nat, level: nat): (r: (Expr, nat))
    requires FairTape(tape) && level >= 2
    decreases level, 0
  {
    var variant := tape(pos) % 5;
    if variant <= 1 then
      var (es, p) := GenList(tape, pos + 2, level - 1, 2 + tape(pos + 1) % 4);
      (if variant == 0 then Add(es) else Prod(es), p)
    else
      var (a, b, p) := GenPair(tape, pos + 1, level - 1);
      (if variant == 2 then Div(a, b) else if variant == 3 then Pow(a, b) else Sqrt(a, b), p)
  }

  /** Two trees generated one after the other, the first from the earlier draws. */
  ghost function GenPair(tape: nat -> nat, pos: nat, level: nat): (r: (Expr, Expr, nat))
    requires FairTape(tape)
    decreases level, 2
  {
    var (a, p) := Gen(tape, pos, level);
    var (b, q) := Gen(tape, p, level);
    (a, b, q)
  }

  /** `count` trees generated one after the other from `pos`, the first
      from the earliest draws. */
  ghost function GenList(tape: nat -> nat, pos: nat, level: nat, count: nat): (r: (seq<Expr>, nat))
    requires FairTape(tape)
    decreases level, 2, count
  {
    if count == 0 then ([], pos)
    else
      var (init, p) := GenList(tape, pos, level, count - 1);
      var (x, q) := Gen(tape, p, level);
      (init + [x], q)
  }

  /** Every tree the reference returns is in the grammar at its level, and
      generating it consumes at least one draw. */
  lemma {:induction false} GenGenerated(tape: nat -> nat, pos: nat, level: nat)
    requires FairTape(tape)
    ensures Generated(Gen(tape, pos, level).0, level)
    ensures pos < Gen(tape, pos, level).1
    decreases level, 2
  {
    if level == 0 {
      GenLeafGenerated(tape, pos, LeafWitness(tape, pos));
    } else if level == 1 {
      GenGenerated(tape, pos, 0);
    } else {
      GenCompositeGenerated(tape, pos, level);
    }
  }

  lemma {:induction false} GenLeafGenerated(tape: nat -> nat, pos: nat, k: nat)
    requires pos <= k && Level0Usable(tape(k) % 6)
    ensures Generated(GenLeaf(tape, pos, k).0, 0)
    ensures pos < GenLeaf(tape, pos, k).1
    decreases k - pos
  {
    var choice := tape(pos) % 6;
    if !Level0Usable(choice) {
      GenLeafGenerated(tape, pos + 1, k);
    }
  }

  lemma {:induction false} GenCompositeGenerated(tape: nat -> nat, pos: nat, level: nat)
    requires FairTape(tape) && level >= 2
    ensures Generated(GenComposite(tape, pos, level).0, level)
    ensures pos < GenComposite(tape, pos, level).1
    decreases level, 1
  {
    if tape(pos) % 5 <= 1 {
      GenVariadicGenerated(tape, pos, level);
    } else {
      GenBinaryGenerated(tape, pos, level);
    }
  }

  /** The sum and product arms of `GenCompositeGenerated`. */
  lemma {:induction false} GenVariadicGenerated(tape: nat -> nat, pos: nat, level: nat)
    requires FairTape(tape) && level >= 2 && tape(pos) % 5 <= 1
    ensures Generated(GenComposite(tape, pos, level).0, level)
    ensures pos < GenComposite(tape, pos, level).1
    decreases level, 0
  {
    GenListGenerated(tape, pos + 2, level - 1, 2 + tape(pos + 1) % 4);
  }

  /** The quotient, power and root arms of `GenCompositeGenerated`. */
  lemma {:induction false} GenBinaryGenerated(tape: nat -> nat, pos: nat, level: nat)
    requires FairTape(tape) && level >= 2 && tape(pos) % 5 > 1
    ensures Generated(GenComposite(tape, pos, level).0, level)
    ensures pos < GenComposite(tape, pos, level).1
    decreases level, 0
  {
    GenPairGenerated(tape, pos + 1, level - 1);
  }

  lemma {:induction false} GenPairGenerated(tape: nat -> nat, pos: nat, level: nat)
    requires FairTape(tape)
    ensures Generated(GenPair(tape, pos, level).0, level) && Generated(GenPair(tape, pos, level).1, level)
    ensures pos < GenPair(tape, pos, level).2
    decreases level, 3
  {
    GenGenerated(tape, pos, level);
    GenGenerated(tape, Gen(tape, pos, level).1, level);
  }

  lemma {:induction false} GenListGenerated(tape: nat -> nat, pos: nat, level: nat, count: nat)
    requires FairTape(tape)
    ensures |GenList(tape, pos, level, count).0| == count
    ensures AllGenerated(GenList(tape, pos, level, count).0, level)
    ensures pos + count <= GenList(tape, pos, level, count).1
    decreases level, 3, count
  {
    if count > 0 {
      var (init, p) := GenList(tape, pos, level, count - 1);
      GenListGenerated(tape, pos, level, count - 1);
      GenGenerated(tape, p, level);
    }
  }

  /** The draws that make `new_random` return `e`, in the order it makes
      them, for a tree in the grammar (other trees get some draws too, which
      mean nothing). */
  function Draws(e: Expr): (d: seq<nat>)
    decreases e, 1
  {
    match e
    case Zero => [0]
    case One => [1]
    case E => [2]
    case Int(n) => [4, if n < -100 then 0 else n + 100]
    case Pi | Float(_) => []
    case UnaryMinus(x) => Draws(x) + [0]
    case Floor(x) => Draws(x) + [1]
    case Ceil(x) => Draws(x) + [2]
    case Round(x) => Draws(x) + [3]
    case Sin(x) => Draws(x) + [4]
    case Cos(x) => Draws(x) + [5]
    case Tan(x) => Draws(x) + [6]
    case Add(es) => [0, if |es| < 2 then 0 else |es| - 2] + DrawsAll(es)
    case Prod(es) => [1, if |es| < 2 then 0 else |es| - 2] + DrawsAll(es)
    case Div(a, b) => [2] + Draws(a) + Draws(b)
    case Pow(a, b) => [3] + Draws(a) + Draws(b)
    case Sqrt(a, b) => [4] + Draws(a) + Draws(b)
  }

  /** The draws of the operands of a sum or product, first operand first. */
  function DrawsAll(es: seq<Expr>): (d: seq<nat>)
    decreases es, 0
  {
    if es == [] then [] else DrawsAll(es[..|es| - 1]) + Draws(es[|es| - 1])
  }

  /** The tape holds `d` from position `pos` on. */
  ghost predicate OnTape(tape: nat -> nat, pos: nat, d: seq<nat>) {
    forall i :: 0 <= i < |d| ==> tape(pos + i) == d[i]
  }

  /** `d`, followed by draws of 0 (each of which names the leaf `Zero`). */
  function TapeOf(d: seq<nat>): (tape: nat -> nat)
    ensures forall i: nat :: i < |d| ==> tape(i) == d[i]
  {
    (i: nat) => if i < |d| then d[i] else 0
  }

  /** Draws `a + b` on the tape from `pos` are `a` from `pos` and `b` from `mid`. */
  lemma OnTapeSplit(tape: nat -> nat, pos: nat, a: seq<nat>, b: seq<nat>, mid: nat)
    requires OnTape(tape, pos, a + b) && mid == pos + |a|
    ensures OnTape(tape, pos, a) && OnTape(tape, mid, b)
  {
    forall i | 0 <= i < |a| ensures tape(pos + i) == a[i] {
      assert (a + b)[i] == a[i];
    }
    forall i | 0 <= i < |b| ensures tape(mid + i) == b[i] {
      assert (a + b)[|a| + i] == b[i];
    }
  }

  /** Every tree in the grammar is one `new_random` can return: on the tape
      that starts with the tree's draws, the generator returns exactly that
      tree and stops after those draws. */
  lemma GeneratedReachable(e: Expr, level: nat)
    requires Generated(e, level)
    ensures FairTape(TapeOf(Draws(e))) && Gen(TapeOf(Draws(e)), 0, level) == (e, |Draws(e)|)
  {
    var d := Draws(e);
    TapeOfFair(d);
    assert OnTape(TapeOf(d), 0, d);
    GenDraws(TapeOf(d), 0, e, level);
  }

  /** After its draws the tape goes on naming `Zero`, so it is fair. */
  lemma TapeOfFair(d: seq<nat>)
    ensures FairTape(TapeOf(d))
  {
    var tape := TapeOf(d);
    forall p: nat ensures UsableFrom(tape, p) {
      var k := if p < |d| then |d| else p;
      assert p <= k && Level0Usable(tape(k) % 6);
    }
  }

  /** Reading the draws of `e` from the tape gives `e` back, and stops right
      after them. */
  lemma {:induction false} GenDraws(tape: nat -> nat, pos: nat, e: Expr, level: nat)
    requires FairTape(tape) && Generated(e, level) && OnTape(tape, pos, Draws(e))
    ensures Gen(tape, pos, level) == (e, pos + |Draws(e)|)
    decreases e, 1
  {
    GeneratedChildren(e, level);
    if level == 0 {
      LeafDraws(tape, pos, e, LeafWitness(tape, pos));
    } else if level == 1 {
      UnaryDraws(tape, pos, e);
    } else if e.Add? || e.Prod? {
      VariadicDraws(tape, pos, e, level);
    } else {
      BinaryDraws(tape, pos, e, level);
    }
  }

  lemma {:induction false} LeafDraws(tape: nat -> nat, pos: nat, e: Expr, k: nat)
    requires Generated(e, 0) && OnTape(tape, pos, Draws(e))
    requires pos <= k && Level0Usable(tape(k) % 6)
    ensures GenLeaf(tape, pos, k) == (e, pos + |Draws(e)|)
  {
    var d := Draws(e);
    assert tape(pos + 0) == d[0];
    if e.Int? {
      assert tape(pos + 1) == d[1] == e.n + 100;
    }
  }

  lemma {:induction false} UnaryDraws(tape: nat -> nat, pos: nat, e: Expr)
    requires FairTape(tape) && Generated(e, 1) && OnTape(tape, pos, Draws(e))
    ensures Gen(tape, pos, 1) == (e, pos + |Draws(e)|)
    decreases e, 0
  {
    var a := Draws(e.arg);
    var index := WrapIndex(e);
    assert Draws(e) == a + [index];
    OnTapeSplit(tape, pos, a, [index], pos + |a|);
    assert tape(pos + |a| + 0) == [index][0];
    GenDraws(tape, pos, e.arg, 0);
  }

  /** The position of `e` among the unary wrappers, as the level-1 draw names it. */
  function WrapIndex(e: Expr): (index: nat)
    requires e.IsUnary()
    ensures index < 7 && Wrap(index, e.arg) == e
  {
    match e
    case UnaryMinus(_) => 0
    case Floor(_) => 1
    case Ceil(_) => 2
    case Round(_) => 3
    case Sin(_) => 4
    case Cos(_) => 5
    case Tan(_) => 6
  }

  lemma {:induction false} VariadicDraws(tape: nat -> nat, pos: nat, e: Expr, level: nat)
    requires FairTape(tape) && level >= 2 && (e.Add? || e.Prod?)
    requires 2 <= |Children(e)| <= 5 && AllGenerated(Children(e), level - 1)
    requires OnTape(tape, pos, Draws(e))
    ensures Gen(tape, pos, level) == (e, pos + |Draws(e)|)
    decreases e, 0
  {
    var es := Children(e);
    var variant: nat := if e.Add? then 0 else 1;
    var rest := DrawsAll(es);
    var head: seq<nat> := [variant, |es| - 2];
    assert e == Variadic(variant, es) && Draws(e) == head + rest;
    OnTapeSplit(tape, pos, head, rest, pos + 2);
    assert tape(pos + 0) == head[0] && tape(pos + 1) == head[1];
    ListDraws(tape, pos + 2, es, level - 1);
    VariadicAssemble(tape, pos, level, variant, es, pos + 2 + |rest|);
  }

  /** The sum (0) or product (1) the variant draw names. */
  function Variadic(variant: nat, es: seq<Expr>): (e: Expr)
    requires variant <= 1
    ensures Children(e) == es
  {
    if variant == 0 then Add(es) else Prod(es)
  }

  lemma VariadicAssemble(tape: nat -> nat, pos: nat, level: nat, variant: nat, es: seq<Expr>, end: nat)
    requires FairTape(tape) && level >= 2 && variant <= 1 && tape(pos) == variant
    requires 2 <= |es| <= 5 && tape(pos + 1) == |es| - 2
    requires GenList(tape, pos + 2, level - 1, |es|) == (es, end)
    ensures Gen(tape, pos, level) == (Variadic(variant, es), end)
  {
    assert tape(pos) % 5 == variant && 2 + tape(pos + 1) % 4 == |es|;
    assert Gen(tape, pos, level) == GenComposite(tape, pos, level);
  }

  lemma {:induction false} BinaryDraws(tape: nat -> nat, pos: nat, e: Expr, level: nat)
    requires FairTape(tape) && level >= 2 && (e.Div? || e.Pow? || e.Sqrt?)
    requires AllGenerated(Children(e), level - 1)
    requires OnTape(tape, pos, Draws(e))
    ensures Gen(tape, pos, level) == (e, pos + |Draws(e)|)
    decreases e, 0
  {
    var variant: nat := if e.Div? then 2 else if e.Pow? then 3 else 4;
    var a, b := Children(e)[0], Children(e)[1];
    var da, db := Draws(a), Draws(b);
    assert e == Binary(variant, a, b) && Draws(e) == [variant] + da + db;
    var mid := pos + 1 + |da|;
    OnTapeSplit(tape, pos, [variant] + da, db, mid);
    OnTapeSplit(tape, pos, [variant], da, pos + 1);
    assert tape(pos + 0) == [variant][0];
    GenDraws(tape, pos + 1, a, level - 1);
    GenDraws(tape, mid, b, level - 1);
    BinaryAssemble(tape, pos, level, variant, a, b, mid, mid + |db|);
  }

  /** The quotient (2), power (3) or root (4) the variant draw names. */
  function Binary(variant: nat, a: Expr, b: Expr): (e: Expr)
    requires 2 <= variant <= 4
    ensures Children(e) == [a, b]
  {
    if variant == 2 then Div(a, b) else if variant == 3 then Pow(a, b) else Sqrt(a, b)
  }

  lemma BinaryAssemble(tape: nat -> nat, pos: nat, level: nat, variant: nat, a: Expr, b: Expr, mid: nat, end: nat)
    requires FairTape(tape) && level >= 2 && 2 <= variant <= 4 && tape(pos) == variant
    requires Gen(tape, pos + 1, level - 1) == (a, mid) && Gen(tape, mid, level - 1) == (b, end)
    ensures Gen(tape, pos, level) == (Binary(variant, a, b), end)
  {
    assert tape(pos) % 5 == variant;
    assert GenPair(tape, pos + 1, level - 1) == (a, b, end);
    assert Gen(tape, pos, level) == GenComposite(tape, pos, level);
  }

  lemma {:induction false} ListDraws(tape: nat -> nat, pos: nat, es: seq<Expr>, level: nat)
    requires FairTape(tape) && AllGenerated(es, level) && OnTape(tape, pos, DrawsAll(es))
    ensures GenList(tape, pos, level, |es|) == (es, pos + |DrawsAll(es)|)
    decreases es, 0
  {
    if es != [] {
      var init, last := es[..|es| - 1], es[|es| - 1];
      var d := DrawsAll(init);
      OnTapeSplit(tape, pos, d, Draws(last), pos + |d|);
      ListDraws(tape, pos, init, level);
      GenDraws(tape, pos + |d|, last, level);
      assert init + [last] == es;
    }
  }

  /** `new_random(level, rng)`: a random expression of the given level.
      Every draw is taken from `rng` in the order the Rust code makes them. */
  method NewRandom(level: nat, rng: Rng) returns (e: Expr)
    requires rng.Fair()
    modifies rng
    ensures (e, rng.pos) == Gen(rng.tape, old(rng.pos), level)
    ensures Generated(e, level) && Height(e) == level
    ensures old(rng.pos) < rng.pos
    decreases level, 1
  {
    GenGenerated(rng.tape, rng.pos, level);
    if level == 0 {
      ghost var k := LeafWitness(rng.tape, rng.pos);
      e := NewLeaf(rng, k);
    } else if level == 1 {
      e := NewUnary(rng);
    } else {
      e := NewComposite(level, rng);
    }
    GeneratedHeight(e, level);
  }

  /** The level-0 arm: a draw from 0..6 names a leaf, or (3 and 5) starts
      the arm over.  `k` is the position of a draw that names a leaf, so the
      restarts stop by then. */
  method NewLeaf(rng: Rng, ghost k: nat) returns (e: Expr)
    requires rng.pos <= k && Level0Usable(rng.tape(k) % 6)
    modifies rng
    ensures (e, rng.pos) == GenLeaf(rng.tape, old(rng.pos), k)
    decreases k - rng.pos
  {
    var choice := rng.RandomRange(0, 6);
    if choice == 0 {
      e := Zero;
    } else if choice == 1 {
      e := One;
    } else if choice == 2 {
      e := E;
    } else if choice == 4 {
      var n := rng.RandomRangeInclusive(-100, 100);
      e := Int(n);
    } else {
      e := NewLeaf(rng, k);
    }
  }

  /** The level-1 arm: a level-0 operand first, then the draw from 0..7 that
      picks its wrapper. */
  method NewUnary(rng: Rng) returns (e: Expr)
    requires rng.Fair()
    modifies rng
    ensures (e, rng.pos) == GenUnary(rng.tape, old(rng.pos))
    decreases 1, 0
  {
    var x := NewRandom(0, rng);
    var wrapper := rng.RandomRange(0, 7);
    match wrapper {
      case 0 => e := UnaryMinus(x);
      case 1 => e := Floor(x);
      case 2 => e := Ceil(x);
      case 3 => e := Round(x);
      case 4 => e := Sin(x);
      case 5 => e := Cos(x);
      case 6 => e := Tan(x);
      case _ => assert false;
    }
  }

  /** The arm for levels 2 and up: the variant from 0..5, then for a sum or
      product the operand count from 2..=5, then the operands left to right,
      each at the level below. */
  method NewComposite(level: nat, rng: Rng) returns (e: Expr)
    requires level >= 2
    requires rng.Fair()
    modifies rng
    ensures (e, rng.pos) == GenComposite(rng.tape, old(rng.pos), level)
    decreases level, 0
  {
    var variant := rng.RandomRange(0, 5);
    if variant == 0 || variant == 1 {
      var count := rng.RandomRangeInclusive(2, 5);
      var exprs := NewOperands(level - 1, count, rng);
      if variant == 0 {
        e := Add(exprs);
      } else if variant == 1 {
        e := Prod(exprs);
      } else {
        assert false;
      }
    } else if variant == 2 {
      var num, denom := NewPair(level - 1, rng);
      e := Div(num, denom);
    } else if variant == 3 {
      var b, t := NewPair(level - 1, rng);
      e := Pow(b, t);
    } else if variant == 4 {
      var num, rootBase := NewPair(level - 1, rng);
      e := Sqrt(num, rootBase);
    } else {
      assert false;
    }
  }

  /** The two operands of `Div`, `Pow` and `Sqrt`, generated left to right
      as Rust evaluates the tuple `(new_random(..), new_random(..))`. */
  method NewPair(level: nat, rng: Rng) returns (first: Expr, second: Expr)
    requires rng.Fair()
    modifies rng
    ensures (first, second, rng.pos) == GenPair(rng.tape, old(rng.pos), level)
    decreases level, 2
  {
    first := NewRandom(level, rng);
    second := NewRandom(level, rng);
  }

  /** The loop that pushes `count` operands, each generated at `level`. */
  method NewOperands(level: nat, count: nat, rng: Rng) returns (exprs: seq<Expr>)
    requires rng.Fair()
    modifies rng
    ensures (exprs, rng.pos) == GenList(rng.tape, old(rng.pos), level, count)
    decreases level, 2
  {
    exprs := [];
    for i := 0 to count
      invariant (exprs, rng.pos) == GenList(rng.tape, old(rng.pos), level, i)
    {
      var operand := NewRandom(level, rng);
      exprs := exprs + [operand];
    }
  }

  /** A generated tree holds no `Float` leaf, so its text does not depend on
      how floats are written. */
  lemma {:induction false} GeneratedIgnoresFloatText(e: Expr, level: nat, f: Float64 -> string, g: Float64 -> string)
    requires Generated(e, level)
    ensures Render(e, f) == Render(e, g)
    decreases e
  {
    if level == 1 {
      GeneratedIgnoresFloatText(e.arg, 0, f, g);
      UnaryRenderedFrom(e, f, g);
    } else if level >= 2 {
      var es := Children(e);
      if e.Add? || e.Prod? {
        forall i | 0 <= i < |es| ensures Render(es[i], f) == Render(es[i], g) {
          GeneratedIgnoresFloatText(es[i], level - 1, f, g);
        }
        VariadicRenderedFrom(e, f, g);
      } else {
        GeneratedIgnoresFloatText(es[0], level - 1, f, g);
        GeneratedIgnoresFloatText(es[1], level - 1, f, g);
        BinaryRenderedFrom(e, f, g);
      }
    }
  }

  /** A unary node's text is determined by its operand's text. */
  lemma {:induction false} UnaryRenderedFrom(e: Expr, f: Float64 -> string, g: Float64 -> string)
    requires e.IsUnary()
    requires Render(e.arg, f) == Render(e.arg, g)
    ensures Render(e, f) == Render(e, g)
  {
  }

  /** A sum's or product's text is determined by its operands' texts. */
  lemma {:induction false} VariadicRenderedFrom(e: Expr, f: Float64 -> string, g: Float64 -> string)
    requires e.Add? || e.Prod?
    requires forall i :: 0 <= i < |Children(e)| ==> Render(Children(e)[i], f) == Render(Children(e)[i], g)
    ensures Render(e, f) == Render(e, g)
  {
    var es := Children(e);
    assert RenderEach(es, f) == RenderEach(es, g);
  }

  /** A quotient's, power's or root's text is determined by its operands' texts. */
  lemma {:induction false} BinaryRenderedFrom(e: Expr, f: Float64 -> string, g: Float64 -> string)
    requires e.Div? || e.Pow? || e.Sqrt?
    requires Render(Children(e)[0], f) == Render(Children(e)[0], g)
    requires Render(Children(e)[1], f) == Render(Children(e)[1], g)
    ensures Render(e, f) == Render(e, g)
  {
  }

  /** The text of a generated expression never holds the symbol 'π': the
      generator does not produce `Pi`. */
  lemma {:induction false} GeneratedWithoutPi(e: Expr, level: nat, floatText: Float64 -> string)
    requires Generated(e, level)
    ensures 'π' !in Render(e, floatText)
    decreases e, 1
  {
    GeneratedChildren(e, level);
    if level == 0 {
      LeafAvoids(e, floatText);
    } else {
      ChildrenWithoutPi(e, level - 1, floatText);
      if level == 1 {
        UnaryAvoids(e, floatText);
      } else if e.Add? || e.Prod? {
        VariadicAvoids(e, floatText);
      } else {
        BinaryAvoids(e, floatText);
      }
    }
  }

  /** The level of a generated tree is its height: every path from the root
      down to a leaf has exactly `level` steps. */
  lemma {:induction false} GeneratedHeight(e: Expr, level: nat)
    requires Generated(e, level)
    ensures Height(e) == level
    decreases e, 1
  {
    GeneratedChildren(e, level);
    if level >= 1 {
      ChildrenHeight(e, level - 1);
      ParentHeight(e, level - 1);
    }
  }

  lemma {:induction false} ChildrenHeight(e: Expr, level: nat)
    requires AllGenerated(Children(e), level)
    ensures forall i :: 0 <= i < |Children(e)| ==> Height(Children(e)[i]) == level
    decreases e, 0
  {
    var es := Children(e);
    forall i | 0 <= i < |es| ensures Height(es[i]) == level {
      GeneratedHeight(es[i], level);
    }
  }

  /** A node whose children all have height `h` has height `h + 1`. */
  lemma ParentHeight(e: Expr, h: nat)
    requires !e.IsLeaf() && Children(e) != []
    requires forall i :: 0 <= i < |Children(e)| ==> Height(Children(e)[i]) == h
    ensures Height(e) == h + 1
  {
    var es := Children(e);
    if e.Add? {
      ExactMaxHeight(es, h);
    } else if e.Prod? {
      ExactMaxHeight(es, h);
    } else if e.IsUnary() {
      assert es[0] == e.arg;
    } else {
      assert Height(es[0]) == h && Height(es[1]) == h;
    }
  }

  /** A non-empty list whose members all have height `h` has largest height `h`. */
  lemma ExactMaxHeight(es: seq<Expr>, h: nat)
    requires es != [] && forall i :: 0 <= i < |es| ==> Height(es[i]) == h
    ensures MaxHeight(es) == h
  {
  }

  /** The children of a generated tree are generated one level down. */
  lemma GeneratedChildren(e: Expr, level: nat)
    requires Generated(e, level)
    ensures level == 0 ==> e.Zero? || e.One? || e.E? || e.Int?
    ensures level == 1 ==> e.IsUnary()
    ensures level >= 2 ==> e.Add? || e.Prod? || e.Div? || e.Pow? || e.Sqrt?
    ensures level >= 2 ==> 2 <= |Children(e)| <= 5
    ensures level >= 1 ==> AllGenerated(Children(e), level - 1)
  {
  }

  /** No child of `e` writes 'π' when every child is generated at `level`. */
  lemma {:induction false} ChildrenWithoutPi(e: Expr, level: nat, floatText: Float64 -> string)
    requires AllGenerated(Children(e), level)
    ensures forall i :: 0 <= i < |Children(e)| ==> 'π' !in Render(Children(e)[i], floatText)
    decreases e, 0
  {
    var es := Children(e);
    forall i | 0 <= i < |es| ensures 'π' !in Render(es[i], floatText) {
      GeneratedWithoutPi(es[i], level, floatText);
    }
  }

  /** A leaf other than `Pi` and `Float` writes no 'π'. */
  lemma {:induction false} LeafAvoids(e: Expr, floatText: Float64 -> string)
    requires e.Zero? || e.One? || e.E? || e.Int?
    ensures 'π' !in Render(e, floatText)
  {
    if e.Int? {
      var s := IntText(e.n);
      forall i | 0 <= i < |s| ensures s[i] != 'π' { }
    }
  }

  /** The sum and product templates write no 'π' of their own. */
  lemma {:induction false} VariadicAvoids(e: Expr, floatText: Float64 -> string)
    requires e.Add? || e.Prod?
    requires forall i :: 0 <= i < |Children(e)| ==> 'π' !in Render(Children(e)[i], floatText)
    ensures 'π' !in Render(e, floatText)
  {
    if e.Add? {
      assert Children(e) == e.terms;
      JoinAvoids(RenderEach(e.terms, floatText), "+", 'π');
    } else {
      assert Children(e) == e.factors;
      JoinAvoids(RenderEach(e.factors, floatText), "*", 'π');
    }
  }

  /** The quotient, power and root templates write no 'π' of their own. */
  lemma {:induction false} BinaryAvoids(e: Expr, floatText: Float64 -> string)
    requires e.Div? || e.Pow? || e.Sqrt?
    requires 'π' !in Render(Children(e)[0], floatText) && 'π' !in Render(Children(e)[1], floatText)
    ensures 'π' !in Render(e, floatText)
  {
  }

  /** The unary templates write no 'π' of their own. */
  lemma {:induction false} UnaryAvoids(e: Expr, floatText: Float64 -> string)
    requires e.IsUnary()
    requires 'π' !in Render(e.arg, floatText)
    ensures 'π' !in Render(e, floatText)
  {
  }

  /** The text of every generated expression has balanced parentheses,
      whatever the float formatter writes. */
  lemma GeneratedBalanced(e: Expr, level: nat, floatText: Float64 -> string)
    requires Generated(e, level)
    ensures Balanced(Render(e, floatText))
  {
    var plain := (x: Float64) => "0";
    assert BracketFreeFloats(plain) by {
      forall x ensures BracketFree(plain(x)) { }
    }
    GeneratedIgnoresFloatText(e, level, floatText, plain);
    RenderBalanced(e, plain);
  }

  /** Every node that a path reaches in a generated tree is itself generated,
      at the tree's level less the length of the path. */
  lemma {:induction false} AtGenerated(e: Expr, level: nat, path: seq<nat>)
    requires Generated(e, level) && At(e, path).Some?
    ensures |path| <= level && Generated(At(e, path).value, level - |path|)
    decreases |path|
  {
    if path != [] {
      var child, rest := Children(e)[path[0]], path[1..];
      ChildGenerated(e, level, path[0]);
      AtGenerated(child, level - 1, rest);
      assert At(e, path) == At(child, rest) && level - |path| == level - 1 - |rest|;
    }
  }

  lemma ChildGenerated(e: Expr, level: nat, k: nat)
    requires Generated(e, level) && k < |Children(e)|
    ensures level >= 1 && Generated(Children(e)[k], level - 1)
  {
    GeneratedChildren(e, level);
  }

  /** Up to level 2, the level `main` asks for, every factor of every
      product in a generated tree is a unary node: no sum (and no product)
      is ever written as a factor. */
  lemma GeneratedFactorsFlat(e: Expr, level: nat, path: seq<nat>)
    requires Generated(e, level) && level <= 2
    requires At(e, path).Some? && At(e, path).value.Prod?
    ensures forall i :: 0 <= i < |At(e, path).value.factors| ==> At(e, path).value.factors[i].IsUnary()
  {
    AtGenerated(e, level, path);
    GeneratedChildren(At(e, path).value, level - |path|);
  }

  /** Up to level 2 the text `to_string` writes is the intended one: a
      reader who gives '*' precedence over '+' reads the tree the generator
      built. */
  lemma {:induction false} GeneratedAsIntended(e: Expr, level: nat, floatText: Float64 -> string)
    requires Generated(e, level) && level <= 2
    ensures Render(e, floatText) == RenderGrouped(e, floatText)
    decreases e, 1
  {
    GeneratedChildren(e, level);
    if level == 0 {
      LeafAsIntended(e, floatText);
    } else {
      ChildrenAsIntended(e, level - 1, floatText);
      if level == 1 {
        UnaryAsIntended(e, floatText);
      } else if e.Add? {
        SumAsIntended(e, floatText);
      } else if e.Prod? {
        ProductAsIntended(e, floatText);
      } else {
        BinaryAsIntended(e, floatText);
      }
    }
  }

  lemma {:induction false} ChildrenAsIntended(e: Expr, level: nat, floatText: Float64 -> string)
    requires AllGenerated(Children(e), level) && level <= 1
    ensures forall i :: 0 <= i < |Children(e)| ==> Render(Children(e)[i], floatText) == RenderGrouped(Children(e)[i], floatText)
    ensures level == 1 ==> forall i :: 0 <= i < |Children(e)| ==> Children(e)[i].IsUnary()
    decreases e, 0
  {
    var es := Children(e);
    forall i | 0 <= i < |es|
      ensures Render(es[i], floatText) == RenderGrouped(es[i], floatText)
      ensures level == 1 ==> es[i].IsUnary()
    {
      GeneratedAsIntended(es[i], level, floatText);
      GeneratedChildren(es[i], level);
    }
  }

  lemma {:induction false} LeafAsIntended(e: Expr, floatText: Float64 -> string)
    requires e.IsLeaf()
    ensures Render(e, floatText) == RenderGrouped(e, floatText)
  {
  }

  lemma {:induction false} UnaryAsIntended(e: Expr, floatText: Float64 -> string)
    requires e.IsUnary()
    requires Render(e.arg, floatText) == RenderGrouped(e.arg, floatText)
    ensures Render(e, floatText) == RenderGrouped(e, floatText)
  {
  }

  lemma {:induction false} SumAsIntended(e: Expr, floatText: Float64 -> string)
    requires e.Add?
    requires forall i :: 0 <= i < |Children(e)| ==> Render(Children(e)[i], floatText) == RenderGrouped(Children(e)[i], floatText)
    ensures Render(e, floatText) == RenderGrouped(e, floatText)
  {
    assert Children(e) == e.terms;
    assert RenderEach(e.terms, floatText) == GroupedEach(e.terms, floatText);
  }

  lemma {:induction false} ProductAsIntended(e: Expr, floatText: Float64 -> string)
    requires e.Prod?
    requires forall i :: 0 <= i < |Children(e)| ==> Render(Children(e)[i], floatText) == RenderGrouped(Children(e)[i], floatText)
    requires forall i :: 0 <= i < |Children(e)| ==> !Children(e)[i].Add?
    ensures Render(e, floatText) == RenderGrouped(e, floatText)
  {
    assert Children(e) == e.factors;
    assert RenderEach(e.factors, floatText) == FactorTexts(e.factors, floatText);
  }

  lemma {:induction false} BinaryAsIntended(e: Expr, floatText: Float64 -> string)
    requires e.Div? || e.Pow? || e.Sqrt?
    requires Render(Children(e)[0], floatText) == RenderGrouped(Children(e)[0], floatText)
    requires Render(Children(e)[1], floatText) == RenderGrouped(Children(e)[1], floatText)
    ensures Render(e, floatText) == RenderGrouped(e, floatText)
  {
  }

  /** At level 3 `to_string` loses the tree: the product of two sums
      (-1 + -1) * (-1 + -1), which the generator can build, is written
      exactly as the sum -1 + (-1 * -1) + -1 is.  The first has value 4, the
      second -1, and the text has a '+' outside all brackets although the
      tree at the top is a product.  The intended text puts both sums in
      parentheses, and so tells the two trees apart. */
  lemma LevelThreeProductMisread(floatText: Float64 -> string)
    ensures var m, t := UnaryMinus(One), "-(1)";
      var written := Prod([Add([m, m]), Add([m, m])]);
      var misread := Add([m, Prod([m, m]), m]);
      && Generated(written, 3)
      && Render(written, floatText) == t + "+" + t + "*" + t + "+" + t
      && Render(misread, floatText) == Render(written, floatText)
      && ExactValue(written) == Some(4) && ExactValue(misread) == Some(-1)
      && !Shielded('+', Render(written, floatText))
      && RenderGrouped(written, floatText) == Group(t + "+" + t) + "*" + Group(t + "+" + t)
      && RenderGrouped(misread, floatText) == t + "+" + (t + "*" + t) + "+" + t
      && RenderGrouped(misread, floatText) != RenderGrouped(written, floatText)
  {
    var m, t := UnaryMinus(One), "-(1)";
    MisreadGenerated(m);
    assert Render(m, floatText) == t && RenderGrouped(m, floatText) == t;
    WrittenText(m, t, floatText);
    MisreadText(m, t, floatText);
    IntendedText(m, t, floatText);
    MisreadIntendedText(m, t, floatText);
    IntendedTextsDiffer(t);
    MisreadValues(m);
    MinusOneOpen(t + "+" + t + "*" + t + "+" + t);
  }

  lemma MisreadGenerated(m: Expr)
    requires m == UnaryMinus(One)
    ensures Generated(Prod([Add([m, m]), Add([m, m])]), 3)
  {
    assert Generated(m, 1);
    assert AllGenerated([m, m], 1);
    assert Generated(Add([m, m]), 2);
    assert AllGenerated([Add([m, m]), Add([m, m])], 2);
  }

  /** The texts in `LevelThreeProductMisread`, with `t` the text of -1. */
  lemma WrittenText(m: Expr, t: string, floatText: Float64 -> string)
    requires Render(m, floatText) == t
    ensures Render(Prod([Add([m, m]), Add([m, m])]), floatText) == t + "+" + t + "*" + t + "+" + t
  {
    PairText(m, m, floatText);
    PairText(Add([m, m]), Add([m, m]), floatText);
  }

  lemma MisreadText(m: Expr, t: string, floatText: Float64 -> string)
    requires Render(m, floatText) == t
    ensures Render(Add([m, Prod([m, m]), m]), floatText) == t + "+" + t + "*" + t + "+" + t
  {
    PairText(m, m, floatText);
    TripleText(m, Prod([m, m]), m, floatText);
  }

  lemma IntendedText(m: Expr, t: string, floatText: Float64 -> string)
    requires RenderGrouped(m, floatText) == t
    ensures RenderGrouped(Prod([Add([m, m]), Add([m, m])]), floatText) == Group(t + "+" + t) + "*" + Group(t + "+" + t)
  {
    PairGroupedText(m, m, floatText);
    PairGroupedText(Add([m, m]), Add([m, m]), floatText);
  }

  lemma MisreadIntendedText(m: Expr, t: string, floatText: Float64 -> string)
    requires !m.Add? && RenderGrouped(m, floatText) == t
    ensures RenderGrouped(Add([m, Prod([m, m]), m]), floatText) == t + "+" + (t + "*" + t) + "+" + t
  {
    PairGroupedText(m, m, floatText);
    TripleGroupedText(m, Prod([m, m]), m, floatText);
  }

  /** The two intended texts differ in their first character: '(' against '-'. */
  lemma IntendedTextsDiffer(t: string)
    requires t == "-(1)"
    ensures t + "+" + (t + "*" + t) + "+" + t != Group(t + "+" + t) + "*" + Group(t + "+" + t)
  {
    assert (t + "+" + (t + "*" + t) + "+" + t)[0] == '-';
    assert (Group(t + "+" + t) + "*" + Group(t + "+" + t))[0] == '(';
  }

  /** The text of a sum and of a product of two operands. */
  lemma PairText(x: Expr, y: Expr, floatText: Float64 -> string)
    ensures Render(Add([x, y]), floatText) == Render(x, floatText) + "+" + Render(y, floatText)
    ensures Render(Prod([x, y]), floatText) == Render(x, floatText) + "*" + Render(y, floatText)
  {
    var parts := [Render(x, floatText), Render(y, floatText)];
    assert RenderEach([x, y], floatText) == parts;
    JoinPair(parts[0], "+", parts[1]);
    JoinPair(parts[0], "*", parts[1]);
  }

  /** The intended text of a sum and of a product of two operands. */
  lemma PairGroupedText(x: Expr, y: Expr, floatText: Float64 -> string)
    ensures RenderGrouped(Add([x, y]), floatText) == RenderGrouped(x, floatText) + "+" + RenderGrouped(y, floatText)
    ensures RenderGrouped(Prod([x, y]), floatText) == FactorText(x, floatText) + "*" + FactorText(y, floatText)
  {
    assert GroupedEach([x, y], floatText) == [RenderGrouped(x, floatText), RenderGrouped(y, floatText)];
    JoinPair(RenderGrouped(x, floatText), "+", RenderGrouped(y, floatText));
    assert FactorTexts([x, y], floatText) == [FactorText(x, floatText), FactorText(y, floatText)];
    JoinPair(FactorText(x, floatText), "*", FactorText(y, floatText));
  }

  /** The text of a sum of three operands. */
  lemma TripleText(x: Expr, y: Expr, z: Expr, floatText: Float64 -> string)
    ensures Render(Add([x, y, z]), floatText) == Render(x, floatText) + "+" + Render(y, floatText) + "+" + Render(z, floatText)
  {
    JoinTriple(Render(x, floatText), "+", Render(y, floatText), Render(z, floatText));
    assert RenderEach([x, y, z], floatText) == [Render(x, floatText), Render(y, floatText), Render(z, floatText)];
  }

  /** The intended text of a sum of three operands. */
  lemma TripleGroupedText(x: Expr, y: Expr, z: Expr, floatText: Float64 -> string)
    ensures RenderGrouped(Add([x, y, z]), floatText)
      == RenderGrouped(x, floatText) + "+" + RenderGrouped(y, floatText) + "+" + RenderGrouped(z, floatText)
  {
    JoinTriple(RenderGrouped(x, floatText), "+", RenderGrouped(y, floatText), RenderGrouped(z, floatText));
    assert GroupedEach([x, y, z], floatText) == [RenderGrouped(x, floatText), RenderGrouped(y, floatText), RenderGrouped(z, floatText)];
  }

  /** The values in `LevelThreeProductMisread`. */
  lemma MisreadValues(m: Expr)
    requires m == UnaryMinus(One)
    ensures ExactValue(Prod([Add([m, m]), Add([m, m])])) == Some(4)
    ensures ExactValue(Add([m, Prod([m, m]), m])) == Some(-1)
  {
    assert ExactValue(m) == Some(-1);
    assert [m, m][1..] == [m];
    assert ExactSum([m]) == Some(-1);
    assert ExactSum([m, m]) == Some(-2);
    assert ExactProduct([m]) == Some(-1);
    assert ExactProduct([m, m]) == Some(1);
    var sum := Add([m, m]);
    assert [sum, sum][1..] == [sum];
    assert ExactProduct([sum]) == Some(-2);
    assert ExactProduct([sum, sum]) == Some(4);
    var prod := Prod([m, m]);
    assert [m, prod, m][1..] == [prod, m];
    assert [prod, m][1..] == [m];
    assert ExactSum([prod, m]) == Some(0);
    assert ExactSum([m, prod, m]) == Some(-1);
  }

  /** A text that starts with "-(1)+" has a '+' outside all brackets. */
  lemma MinusOneOpen(r: string)
    requires |r| >= 5 && r[..4] == "-(1)" && r[4] == '+'
    ensures !Shielded('+', r)
  {
    assert "-(1)"[..3] == "-(1";
    assert "-(1"[..2] == "-(";
    assert "-("[..1] == "-";
    assert "-"[..0] == "";
    assert Net("-(1)") == 0;
    assert r[4] == '+' && NetPrefix(r, 4) == 0;
  }

  lemma JoinPair(a: string, sep: string, b: string)
    ensures Join([a, b], sep) == a + sep + b
  {
    assert [a, b][1..] == [b];
  }

  lemma JoinTriple(a: string, sep: string, b: string, c: string)
    ensures Join([a, b, c], sep) == a + sep + b + sep + c
  {
    assert [a, b, c][1..] == [b, c];
    JoinPair(b, sep, c);
  }
}
