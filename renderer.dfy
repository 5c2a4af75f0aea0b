/** `Expr::to_string`: the text printed for every expression the search reports. */
module Renderer {
  import opened Wrappers
  import opened Expressions
  import opened Decimal
  import opened Text

  /** The text of an expression.  `floatText` stands for Rust's `Display` of
      an `f64`, which this model does not define; integers are written by
      `IntText`, Rust's `Display` of an `i64`. */
  function Render(e: Expr, floatText: Float64 -> string): (r: string)
    decreases e, 1
  {
    match e
    case Zero => "0"
    case One => "1"
    case E => "e"
    case Pi => "π"
    case Int(n) => IntText(n)
    case Float(x) => floatText(x)
    case UnaryMinus(x) => "-(" + Render(x, floatText) + ")"
    case Add(es) => Join(RenderEach(es, floatText), "+")
    case Prod(es) => Join(RenderEach(es, floatText), "*")
    case Div(num, denom) => "(" + Render(num, floatText) + ")/(" + Render(denom, floatText) + ")"
    case Pow(b, t) => "(" + Render(b, floatText) + ")^(" + Render(t, floatText) + ")"
    case Sqrt(num, rootBase) => "(" + Render(num, floatText) + ")^(1/(" + Render(rootBase, floatText) + "))"
    case Floor(x) => "⌊" + Render(x, floatText) + "⌋"
    case Ceil(x) => "⌈" + Render(x, floatText) + "⌉"
    case Round(x) => "⌊" + Render(x, floatText) + "⌉"
    case Sin(x) => "sin(" + Render(x, floatText) + ")"
    case Cos(x) => "cos(" + Render(x, floatText) + ")"
    case Tan(x) => "tan(" + Render(x, floatText) + ")"
  }

  /** The texts of `es`, in order: the `map(|e| e.to_string())` step of `Add` and `Prod`. */
  function RenderEach(es: seq<Expr>, floatText: Float64 -> string): (parts: seq<string>)
    ensures |parts| == |es|
    ensures forall i :: 0 <= i < |es| ==> parts[i] == Render(es[i], floatText)
    decreases es, 0
  {
    if es == [] then [] else [Render(es[0], floatText)] + RenderEach(es[1..], floatText)
  }

  /** `s` in parentheses. */
  function Group(s: string): (r: string) {
    "(" + s + ")"
  }

  /** Rust's float `Display` writes digits, '.', '-', "inf" and "NaN", never a bracket. */
  ghost predicate BracketFreeFloats(floatText: Float64 -> string) {
    forall x :: BracketFree(floatText(x))
  }

  lemma IntTextPlain(n: int)
    ensures BracketFree(IntText(n)) && '+' !in IntText(n)
  {
    var s := IntText(n);
    forall i | 0 <= i < |s| ensures !IsOpening(s[i]) && !IsClosing(s[i]) && s[i] != '+' { }
  }

  /** A balanced string between two bracket-free strings stays balanced. */
  lemma Bracketed(pre: string, s: string, post: string)
    requires BracketFree(pre) && Balanced(s) && BracketFree(post)
    ensures Balanced(pre + s + post)
  {
    BracketFreeBalanced(pre);
    BracketFreeBalanced(post);
    BalancedConcat(pre, s);
    BalancedConcat(pre + s, post);
  }

  lemma GroupBalanced(s: string)
    requires Balanced(s)
    ensures Balanced(Group(s)) && Enclosed(Group(s))
  {
    WrapEnclosed('(', s, ')');
  }

  /** The template `name(…)` of `UnaryMinus` ("-(…)"), `Sin`, `Cos` and `Tan`. */
  lemma CallText(open: string, s: string)
    requires |open| >= 1 && open[|open| - 1] == '(' && BracketFree(open[..|open| - 1])
    requires Balanced(s)
    ensures open + s + ")" == open[..|open| - 1] + Group(s)
    ensures Balanced(open + s + ")") && Enclosed(Group(s))
  {
    var name := open[..|open| - 1];
    assert open == name + "(";
    assert open + s + ")" == name + Group(s) + "";
    GroupBalanced(s);
    Bracketed(name, Group(s), "");
  }

  /** The text `(a)` followed by `middle`'s inner character and `(b)`. */
  lemma InfixSplit(a: string, middle: string, b: string)
    requires |middle| == 3 && middle[0] == ')' && middle[2] == '('
    ensures "(" + a + middle + b + ")" == Group(a) + middle[1..2] + Group(b)
  {
    assert middle == ")" + middle[1..2] + "(";
  }

  lemma RootSplit(a: string, b: string)
    ensures "(" + a + ")^(1/(" + b + "))" == Group(a) + "^" + Group("1/" + Group(b))
  {
  }

  /** The exponent group `(1/(b))` of a root, and the group `(b)` inside it, are enclosed. */
  lemma RootExponentEnclosed(b: string)
    requires Balanced(b)
    ensures Enclosed(Group(b)) && Enclosed(Group("1/" + Group(b)))
  {
    GroupBalanced(b);
    Bracketed("1/", Group(b), "");
    assert "1/" + Group(b) + "" == "1/" + Group(b);
    GroupBalanced("1/" + Group(b));
  }

  /** The templates `(…)/(…)` of `Div` and `(…)^(…)` of `Pow`. */
  lemma InfixText(a: string, middle: string, b: string)
    requires |middle| == 3 && middle[0] == ')' && middle[2] == '(' && BracketFree(middle[1..2])
    requires Balanced(a) && Balanced(b)
    ensures Balanced("(" + a + middle + b + ")")
  {
    var op := middle[1..2];
    InfixSplit(a, middle, b);
    GroupBalanced(a);
    GroupBalanced(b);
    BracketFreeBalanced(op);
    BalancedConcat(Group(a), op);
    BalancedConcat(Group(a) + op, Group(b));
  }

  /** The template `(…)^(1/(…))` of `Sqrt`. */
  lemma RootText(a: string, b: string)
    requires Balanced(a) && Balanced(b)
    ensures Balanced("(" + a + ")^(1/(" + b + "))")
  {
    RootSplit(a, b);
    GroupBalanced(a);
    RootExponentEnclosed(b);
    BracketFreeBalanced("^");
    BalancedConcat(Group(a), "^");
    BalancedConcat(Group(a) + "^", Group("1/" + Group(b)));
  }

  /** Every rendering is balanced: each '(' the renderer writes is closed,
      and no ')' comes before its '('. */
  lemma {:induction false} RenderBalanced(e: Expr, floatText: Float64 -> string)
    requires BracketFreeFloats(floatText)
    ensures Balanced(Render(e, floatText))
    decreases e
  {
    if e.IsLeaf() {
      LeafBalanced(e, floatText);
    } else if e.IsUnary() {
      RenderBalanced(e.arg, floatText);
      UnaryBalanced(e, floatText);
    } else if e.Add? || e.Prod? {
      var es := Children(e);
      forall i | 0 <= i < |es| ensures Balanced(Render(es[i], floatText)) {
        RenderBalanced(es[i], floatText);
      }
      VariadicBalanced(e, floatText);
    } else {
      var es := Children(e);
      RenderBalanced(es[0], floatText);
      RenderBalanced(es[1], floatText);
      BinaryBalanced(e, floatText);
    }
  }

  lemma {:induction false} LeafBalanced(e: Expr, floatText: Float64 -> string)
    requires e.IsLeaf() && BracketFreeFloats(floatText)
    ensures Balanced(Render(e, floatText))
  {
    match e
    case Zero => BracketFreeBalanced("0");
    case One => BracketFreeBalanced("1");
    case E => BracketFreeBalanced("e");
    case Pi => BracketFreeBalanced("π");
    case Int(n) =>
      IntTextPlain(n);
      BracketFreeBalanced(IntText(n));
    case Float(x) => BracketFreeBalanced(floatText(x));
  }

  lemma {:induction false} UnaryBalanced(e: Expr, floatText: Float64 -> string)
    requires e.IsUnary() && Balanced(Render(e.arg, floatText))
    ensures Balanced(Render(e, floatText))
  {
    var r := Render(e.arg, floatText);
    match e
    case UnaryMinus(_) => CallText("-(", r);
    case Floor(_) => WrapEnclosed('⌊', r, '⌋');
    case Ceil(_) => WrapEnclosed('⌈', r, '⌉');
    case Round(_) => WrapEnclosed('⌊', r, '⌉');
    case Sin(_) => CallText("sin(", r);
    case Cos(_) => CallText("cos(", r);
    case Tan(_) => CallText("tan(", r);
  }

  lemma {:induction false} VariadicBalanced(e: Expr, floatText: Float64 -> string)
    requires e.Add? || e.Prod?
    requires forall i :: 0 <= i < |Children(e)| ==> Balanced(Render(Children(e)[i], floatText))
    ensures Balanced(Render(e, floatText))
  {
    if e.Add? {
      assert Children(e) == e.terms;
      JoinBalanced(RenderEach(e.terms, floatText), "+");
    } else {
      assert Children(e) == e.factors;
      JoinBalanced(RenderEach(e.factors, floatText), "*");
    }
  }

  lemma {:induction false} BinaryBalanced(e: Expr, floatText: Float64 -> string)
    requires e.Div? || e.Pow? || e.Sqrt?
    requires Balanced(Render(Children(e)[0], floatText)) && Balanced(Render(Children(e)[1], floatText))
    ensures Balanced(Render(e, floatText))
  {
    match e
    case Div(a, b) => InfixText(Render(a, floatText), ")/(", Render(b, floatText));
    case Pow(a, b) => InfixText(Render(a, floatText), ")^(", Render(b, floatText));
    case Sqrt(a, b) => RootText(Render(a, floatText), Render(b, floatText));
  }

  /** The group around the text of any expression is one enclosed group. */
  lemma RenderGroupEnclosed(e: Expr, floatText: Float64 -> string)
    requires BracketFreeFloats(floatText)
    ensures Enclosed(Group(Render(e, floatText)))
  {
    RenderBalanced(e, floatText);
    GroupBalanced(Render(e, floatText));
  }

  /** `Div(num, denom)` writes each operand as one group whose opening
      parenthesis is closed by the parenthesis the template writes after it,
      so a reader of the text takes exactly the operand's text as that
      operand. */
  lemma {:induction false} DivOperandsGrouped(num: Expr, denom: Expr, floatText: Float64 -> string)
    requires BracketFreeFloats(floatText)
    ensures Render(Div(num, denom), floatText) == Group(Render(num, floatText)) + "/" + Group(Render(denom, floatText))
    ensures Enclosed(Group(Render(num, floatText))) && Enclosed(Group(Render(denom, floatText)))
  {
    assert Render(Div(num, denom), floatText) == Group(Render(num, floatText)) + "/" + Group(Render(denom, floatText)) by {
      InfixSplit(Render(num, floatText), ")/(", Render(denom, floatText));
    }
    RenderGroupEnclosed(num, floatText);
    RenderGroupEnclosed(denom, floatText);
  }

  /** `Pow(b, t)` writes the base and the exponent each as one enclosed group. */
  lemma {:induction false} PowOperandsGrouped(b: Expr, t: Expr, floatText: Float64 -> string)
    requires BracketFreeFloats(floatText)
    ensures Render(Pow(b, t), floatText) == Group(Render(b, floatText)) + "^" + Group(Render(t, floatText))
    ensures Enclosed(Group(Render(b, floatText))) && Enclosed(Group(Render(t, floatText)))
  {
    assert Render(Pow(b, t), floatText) == Group(Render(b, floatText)) + "^" + Group(Render(t, floatText)) by {
      InfixSplit(Render(b, floatText), ")^(", Render(t, floatText));
    }
    RenderGroupEnclosed(b, floatText);
    RenderGroupEnclosed(t, floatText);
  }

  /** `Sqrt(num, rootBase)` is written as `num` to the power of the group
      `(1/(rootBase))`; the radicand, that exponent and the root base are
      each one enclosed group. */
  lemma {:induction false} RootOperandsGrouped(num: Expr, rootBase: Expr, floatText: Float64 -> string)
    requires BracketFreeFloats(floatText)
    ensures Render(Sqrt(num, rootBase), floatText)
      == Group(Render(num, floatText)) + "^" + Group("1/" + Group(Render(rootBase, floatText)))
    ensures Enclosed(Group(Render(num, floatText)))
    ensures Enclosed(Group("1/" + Group(Render(rootBase, floatText))))
    ensures Enclosed(Group(Render(rootBase, floatText)))
  {
    var a := Render(num, floatText);
    var b := Render(rootBase, floatText);
    assert Render(Sqrt(num, rootBase), floatText) == Group(a) + "^" + Group("1/" + Group(b)) by {
      RootSplit(a, b);
    }
    RenderGroupEnclosed(num, floatText);
    RenderBalanced(rootBase, floatText);
    RootExponentEnclosed(b);
  }

  /** The name written before the parenthesised operand of `UnaryMinus`,
      `Sin`, `Cos` and `Tan`. */
  function CallName(e: Expr): (name: string)
    requires e.UnaryMinus? || e.Sin? || e.Cos? || e.Tan?
  {
    if e.UnaryMinus? then "-" else if e.Sin? then "sin" else if e.Cos? then "cos" else "tan"
  }

  lemma {:induction false} CallNameSplit(e: Expr, floatText: Float64 -> string)
    requires e.UnaryMinus? || e.Sin? || e.Cos? || e.Tan?
    ensures Render(e, floatText) == CallName(e) + Group(Render(e.arg, floatText))
    ensures BracketFree(CallName(e))
  {
    var r, name := Render(e.arg, floatText), CallName(e);
    if e.UnaryMinus? {
      assert Render(e, floatText) == "-(" + r + ")";
      NamedCall(name, "-(", r);
    } else if e.Sin? {
      assert Render(e, floatText) == "sin(" + r + ")";
      NamedCall(name, "sin(", r);
    } else if e.Cos? {
      assert Render(e, floatText) == "cos(" + r + ")";
      NamedCall(name, "cos(", r);
    } else {
      assert Render(e, floatText) == "tan(" + r + ")";
      NamedCall(name, "tan(", r);
    }
  }

  /** `open` is `name` followed by '(': the call text is `name` and one group. */
  lemma NamedCall(name: string, open: string, s: string)
    requires open == name + "(" && BracketFree(name)
    ensures open + s + ")" == name + Group(s)
  {
  }

  /** `UnaryMinus`, `Sin`, `Cos` and `Tan` write their operand as one
      enclosed group after a name that holds no parenthesis. */
  lemma {:induction false} CallOperandGrouped(e: Expr, floatText: Float64 -> string)
    requires e.UnaryMinus? || e.Sin? || e.Cos? || e.Tan?
    requires BracketFreeFloats(floatText)
    ensures Render(e, floatText) == CallName(e) + Group(Render(e.arg, floatText))
    ensures BracketFree(CallName(e)) && Enclosed(Group(Render(e.arg, floatText)))
  {
    CallNameSplit(e, floatText);
    RenderGroupEnclosed(e.arg, floatText);
  }

  /** A sum or product of k children writes exactly k - 1 separators of its
      own, and every other character count is the children's. */
  lemma {:induction false} VariadicSeparators(e: Expr, floatText: Float64 -> string, c: char)
    requires e.Add? || e.Prod?
    requires |Children(e)| >= 1
    ensures e.Add? ==>
      Count(c, Render(e, floatText)) == CountAll(c, RenderEach(e.terms, floatText)) + (if c == '+' then |e.terms| - 1 else 0)
    ensures e.Prod? ==>
      Count(c, Render(e, floatText)) == CountAll(c, RenderEach(e.factors, floatText)) + (if c == '*' then |e.factors| - 1 else 0)
  {
    if e.Add? {
      JoinCount(RenderEach(e.terms, floatText), '+', c);
    } else {
      JoinCount(RenderEach(e.factors, floatText), '*', c);
    }
  }

  /** Both operands of a template `(a)…(b)…` occur in it. */
  lemma OperandsOccur(a: string, middle: string, b: string, tail: string)
    ensures Occurs(a, "(" + a + middle + b + tail)
    ensures Occurs(b, "(" + a + middle + b + tail)
  {
    OccursBetween("(", a, middle + b + tail);
    assert "(" + a + (middle + b + tail) == "(" + a + middle + b + tail;
    OccursBetween("(" + a + middle, b, tail);
  }

  /** The text of every child appears, unchanged, inside its parent's text. */
  lemma {:induction false} ChildOccurs(e: Expr, floatText: Float64 -> string, k: nat)
    requires k < |Children(e)|
    ensures Occurs(Render(Children(e)[k], floatText), Render(e, floatText))
  {
    if e.Add? {
      JoinOccurs(RenderEach(e.terms, floatText), "+", k);
    } else if e.Prod? {
      JoinOccurs(RenderEach(e.factors, floatText), "*", k);
    } else if e.Div? {
      OperandsOccur(Render(e.num, floatText), ")/(", Render(e.denom, floatText), ")");
    } else if e.Pow? {
      OperandsOccur(Render(e.base, floatText), ")^(", Render(e.exponent, floatText), ")");
    } else if e.Sqrt? {
      OperandsOccur(Render(e.radicand, floatText), ")^(1/(", Render(e.rootBase, floatText), "))");
    } else {
      UnaryChildOccurs(e, floatText);
    }
  }

  lemma {:induction false} UnaryChildOccurs(e: Expr, floatText: Float64 -> string)
    requires e.IsUnary()
    ensures Occurs(Render(e.arg, floatText), Render(e, floatText))
  {
    var r := Render(e.arg, floatText);
    match e
    case UnaryMinus(_) => OccursBetween("-(", r, ")");
    case Floor(_) => OccursBetween("⌊", r, "⌋");
    case Ceil(_) => OccursBetween("⌈", r, "⌉");
    case Round(_) => OccursBetween("⌊", r, "⌉");
    case Sin(_) => OccursBetween("sin(", r, ")");
    case Cos(_) => OccursBetween("cos(", r, ")");
    case Tan(_) => OccursBetween("tan(", r, ")");
  }

  /** The text of every node of the tree appears inside the text of the whole tree. */
  lemma {:induction false} DescendantOccurs(e: Expr, path: seq<nat>, floatText: Float64 -> string)
    requires At(e, path).Some?
    ensures Occurs(Render(At(e, path).value, floatText), Render(e, floatText))
    decreases |path|
  {
    if path == [] {
      OccursBetween("", Render(e, floatText), "");
      assert "" + Render(e, floatText) + "" == Render(e, floatText);
    } else {
      var child := Children(e)[path[0]];
      DescendantOccurs(child, path[1..], floatText);
      ChildOccurs(e, floatText, path[0]);
      OccursTransitive(Render(At(e, path).value, floatText), Render(child, floatText), Render(e, floatText));
    }
  }

  /** Rust's float `Display` writes neither a bracket nor a '+'. */
  ghost predicate PlainFloats(floatText: Float64 -> string) {
    forall x :: BracketFree(floatText(x)) && '+' !in floatText(x)
  }

  /** The text `to_string` evidently intends: the same templates as
      `Render`, except that a sum written as a factor of a product is put in
      parentheses, so that a reader who gives '*' precedence over '+' reads
      the product the tree holds. */
  function RenderGrouped(e: Expr, floatText: Float64 -> string): (r: string)
    decreases e, 2
  {
    match e
    case Zero => "0"
    case One => "1"
    case E => "e"
    case Pi => "π"
    case Int(n) => IntText(n)
    case Float(x) => floatText(x)
    case UnaryMinus(x) => "-(" + RenderGrouped(x, floatText) + ")"
    case Add(es) => Join(GroupedEach(es, floatText), "+")
    case Prod(es) => Join(FactorTexts(es, floatText), "*")
    case Div(num, denom) => "(" + RenderGrouped(num, floatText) + ")/(" + RenderGrouped(denom, floatText) + ")"
    case Pow(b, t) => "(" + RenderGrouped(b, floatText) + ")^(" + RenderGrouped(t, floatText) + ")"
    case Sqrt(num, rootBase) => "(" + RenderGrouped(num, floatText) + ")^(1/(" + RenderGrouped(rootBase, floatText) + "))"
    case Floor(x) => "⌊" + RenderGrouped(x, floatText) + "⌋"
    case Ceil(x) => "⌈" + RenderGrouped(x, floatText) + "⌉"
    case Round(x) => "⌊" + RenderGrouped(x, floatText) + "⌉"
    case Sin(x) => "sin(" + RenderGrouped(x, floatText) + ")"
    case Cos(x) => "cos(" + RenderGrouped(x, floatText) + ")"
    case Tan(x) => "tan(" + RenderGrouped(x, floatText) + ")"
  }

  function GroupedEach(es: seq<Expr>, floatText: Float64 -> string): (parts: seq<string>)
    ensures |parts| == |es|
    ensures forall i :: 0 <= i < |es| ==> parts[i] == RenderGrouped(es[i], floatText)
    decreases es, 0
  {
    if es == [] then [] else [RenderGrouped(es[0], floatText)] + GroupedEach(es[1..], floatText)
  }

  /** The text of one factor of a product: a sum in parentheses, anything else as it is. */
  function FactorText(e: Expr, floatText: Float64 -> string): (r: string)
    decreases e, 3
  {
    if e.Add? then Group(RenderGrouped(e, floatText)) else RenderGrouped(e, floatText)
  }

  function FactorTexts(es: seq<Expr>, floatText: Float64 -> string): (parts: seq<string>)
    ensures |parts| == |es|
    ensures forall i :: 0 <= i < |es| ==> parts[i] == FactorText(es[i], floatText)
    decreases es, 0
  {
    if es == [] then [] else [FactorText(es[0], floatText)] + FactorTexts(es[1..], floatText)
  }

  /** In the intended text every bracket is matched, and every '+' outside
      all brackets belongs to the sum at the top: the text of anything but
      a sum has no '+' outside brackets. */
  lemma {:induction false} GroupedShape(e: Expr, floatText: Float64 -> string)
    requires PlainFloats(floatText)
    ensures Balanced(RenderGrouped(e, floatText))
    ensures !e.Add? ==> Shielded('+', RenderGrouped(e, floatText))
    decreases e
  {
    if e.IsLeaf() {
      GroupedLeafShape(e, floatText);
    } else if e.IsUnary() {
      GroupedShape(e.arg, floatText);
      GroupedUnaryShape(e, floatText);
    } else if e.Add? || e.Prod? {
      var es := Children(e);
      forall i | 0 <= i < |es|
        ensures Balanced(RenderGrouped(es[i], floatText))
        ensures !es[i].Add? ==> Shielded('+', RenderGrouped(es[i], floatText))
      {
        GroupedShape(es[i], floatText);
      }
      if e.Add? {
        GroupedSumBalanced(e, floatText);
      } else {
        GroupedProductShape(e, floatText);
      }
    } else {
      var es := Children(e);
      GroupedShape(es[0], floatText);
      GroupedShape(es[1], floatText);
      GroupedBinaryShape(e, floatText);
    }
  }

  lemma {:induction false} GroupedLeafShape(e: Expr, floatText: Float64 -> string)
    requires e.IsLeaf() && PlainFloats(floatText)
    ensures Balanced(RenderGrouped(e, floatText)) && Shielded('+', RenderGrouped(e, floatText))
  {
    var r := RenderGrouped(e, floatText);
    assert BracketFree(r) && '+' !in r by {
      if e.Int? {
        IntTextPlain(e.n);
      }
    }
    BracketFreeBalanced(r);
    AbsentShielded('+', r);
  }

  /** What the unary templates write before and after their operand. */
  function UnaryOpen(e: Expr): (open: string)
    requires e.IsUnary()
  {
    match e
    case UnaryMinus(_) => "-("
    case Floor(_) => "⌊"
    case Ceil(_) => "⌈"
    case Round(_) => "⌊"
    case Sin(_) => "sin("
    case Cos(_) => "cos("
    case Tan(_) => "tan("
  }

  function UnaryClose(e: Expr): (close: string)
    requires e.IsUnary()
  {
    match e
    case Floor(_) => "⌋"
    case Ceil(_) | Round(_) => "⌉"
    case UnaryMinus(_) | Sin(_) | Cos(_) | Tan(_) => ")"
  }

  lemma {:induction false} GroupedUnaryText(e: Expr, floatText: Float64 -> string)
    requires e.IsUnary()
    ensures RenderGrouped(e, floatText) == UnaryOpen(e) + RenderGrouped(e.arg, floatText) + UnaryClose(e)
  {
  }

  lemma {:induction false} GroupedUnaryShape(e: Expr, floatText: Float64 -> string)
    requires e.IsUnary() && Balanced(RenderGrouped(e.arg, floatText))
    ensures Balanced(RenderGrouped(e, floatText)) && Shielded('+', RenderGrouped(e, floatText))
  {
    var r := RenderGrouped(e.arg, floatText);
    GroupedUnaryText(e, floatText);
    var open, close := UnaryOpen(e), UnaryClose(e);
    if e.Floor? || e.Ceil? || e.Round? {
      assert open == [open[0]] && close == [close[0]];
      WrapEnclosed(open[0], r, close[0]);
      EnclosedShielded('+', open + r + close);
    } else {
      CallShielded(open, r);
    }
  }

  /** The template `name(…)` keeps the operand's '+' inside its parentheses. */
  lemma CallShielded(open: string, s: string)
    requires |open| >= 1 && open[|open| - 1] == '('
    requires BracketFree(open[..|open| - 1]) && '+' !in open
    requires Balanced(s)
    ensures Balanced(open + s + ")") && Shielded('+', open + s + ")")
  {
    var name := open[..|open| - 1];
    CallText(open, s);
    assert '+' !in name by {
      forall i | 0 <= i < |name| ensures name[i] == open[i] { }
    }
    AbsentShielded('+', name);
    BracketFreeBalanced(name);
    EnclosedShielded('+', Group(s));
    ShieldedConcat('+', name, Group(s));
  }

  lemma {:induction false} GroupedSumBalanced(e: Expr, floatText: Float64 -> string)
    requires e.Add?
    requires forall i :: 0 <= i < |Children(e)| ==> Balanced(RenderGrouped(Children(e)[i], floatText))
    ensures Balanced(RenderGrouped(e, floatText))
  {
    assert Children(e) == e.terms;
    JoinBalanced(GroupedEach(e.terms, floatText), "+");
  }

  lemma {:induction false} GroupedProductShape(e: Expr, floatText: Float64 -> string)
    requires e.Prod?
    requires forall i :: 0 <= i < |Children(e)| ==> Balanced(RenderGrouped(Children(e)[i], floatText))
    requires forall i :: 0 <= i < |Children(e)| && !Children(e)[i].Add? ==> Shielded('+', RenderGrouped(Children(e)[i], floatText))
    ensures Balanced(RenderGrouped(e, floatText)) && Shielded('+', RenderGrouped(e, floatText))
  {
    var es := e.factors;
    assert Children(e) == es;
    var parts := FactorTexts(es, floatText);
    forall i | 0 <= i < |parts| ensures Balanced(parts[i]) && Shielded('+', parts[i]) {
      if es[i].Add? {
        GroupBalanced(RenderGrouped(es[i], floatText));
        EnclosedShielded('+', parts[i]);
      }
    }
    JoinBalanced(parts, "*");
    JoinShielded(parts, "*", '+');
  }

  lemma {:induction false} GroupedBinaryShape(e: Expr, floatText: Float64 -> string)
    requires e.Div? || e.Pow? || e.Sqrt?
    requires Balanced(RenderGrouped(Children(e)[0], floatText)) && Balanced(RenderGrouped(Children(e)[1], floatText))
    ensures Balanced(RenderGrouped(e, floatText)) && Shielded('+', RenderGrouped(e, floatText))
  {
    var a := RenderGrouped(Children(e)[0], floatText);
    var b := RenderGrouped(Children(e)[1], floatText);
    match e
    case Div(_, _) => InfixShielded(a, ")/(", b);
    case Pow(_, _) => InfixShielded(a, ")^(", b);
    case Sqrt(_, _) => RootShielded(a, b);
  }

  /** `(a)op(b)`: both operands' '+' stay inside their groups. */
  lemma InfixShielded(a: string, middle: string, b: string)
    requires |middle| == 3 && middle[0] == ')' && middle[2] == '('
    requires BracketFree(middle[1..2]) && middle[1] != '+'
    requires Balanced(a) && Balanced(b)
    ensures Balanced("(" + a + middle + b + ")") && Shielded('+', "(" + a + middle + b + ")")
  {
    var op := middle[1..2];
    InfixText(a, middle, b);
    InfixSplit(a, middle, b);
    GroupBalanced(a);
    GroupBalanced(b);
    EnclosedShielded('+', Group(a));
    EnclosedShielded('+', Group(b));
    AbsentShielded('+', op);
    BracketFreeBalanced(op);
    ShieldedConcat('+', Group(a), op);
    BalancedConcat(Group(a), op);
    ShieldedConcat('+', Group(a) + op, Group(b));
  }

  /** `(a)^(1/(b))`: both operands' '+' stay inside their groups. */
  lemma RootShielded(a: string, b: string)
    requires Balanced(a) && Balanced(b)
    ensures Balanced("(" + a + ")^(1/(" + b + "))") && Shielded('+', "(" + a + ")^(1/(" + b + "))")
  {
    var exponent := Group("1/" + Group(b));
    RootText(a, b);
    RootSplit(a, b);
    GroupBalanced(a);
    RootExponentEnclosed(b);
    EnclosedShielded('+', Group(a));
    EnclosedShielded('+', exponent);
    AbsentShielded('+', "^");
    BracketFreeBalanced("^");
    ShieldedConcat('+', Group(a), "^");
    BalancedConcat(Group(a), "^");
    ShieldedConcat('+', Group(a) + "^", exponent);
  }
}
