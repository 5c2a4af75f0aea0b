# unnum-random-fn: expression trees, their text and their random generation

`unnum-random-fn` looks for closed-form expressions whose value is close to
π. It reads no arguments. It hands ten tasks to rayon's global thread pool.
Each task is an endless loop, so as many of them run as the pool has threads
(one per logical CPU by default). Each running task:

- it builds a random expression tree of level 2;
- it writes the tree's text and evaluates the tree;
- it prints the error and the text of every tree whose value is within
  `DIFF` = 1e-6 of π.

Nothing tracks a best tree: every close enough tree is printed.

This project models the core of that program:

- the expression tree (`enum Expr`);
- its text (`Expr::to_string`);
- the random generator (`Expr::new_random`), with the random number
  generator replaced by a tape of draws.

It then proves what the text and the generator guarantee.

Modules:

- `Wrappers`: the `Option` type.
- `Expressions`: the `Expr` datatype (one constructor per Rust variant), its
  children, paths into the tree, the tree's height, and the exact value of
  the trees built from integers, negation, sums and products.
- `Decimal`: the decimal text of an `i64` and a reader for it.
- `Text`: joining with a separator, counting characters, one string occurring
  inside another, and bracket balance. Parentheses and the floor and ceiling
  brackets `⌊ ⌋ ⌈ ⌉` all count as brackets.
- `Renderer`: `Render`, the text of an expression. It uses the exact
  templates of `to_string`. It holds these lemmas about it:
  - every rendering is balanced;
  - each operand of `/`, `^`, a root and a call is written as one enclosed
    group;
  - a sum or product adds exactly one separator between neighbours;
  - the text of every subtree occurs in the text of the whole tree.

  It also holds `RenderGrouped`, the text `to_string` evidently intends (see
  Findings).
- `Generator`: the random generator. It holds:
  - the `Rng` class, whose draws come from a tape;
  - `Gen`, the reference function that says which tree a tape produces;
  - the methods that follow `new_random` arm by arm and draw by draw, each
    proved to return what `Gen` says;
  - the grammar `Generated(e, level)`, proved to hold exactly the trees the
    generator can return;
  - lemmas about generated trees:
    - their height is their level;
    - they never contain `π`;
    - their text does not depend on how floats are written;
    - their text is balanced;
    - at the level `main` uses, their text is the intended one.

The text of a `Float` leaf is Rust's `Display` of an `f64`. This model does
not define that text. It is a parameter `floatText` of `Render`. The balance
results assume only that it writes no bracket. The generator never produces
`Float` or `Pi` leaves (`GeneratedIgnoresFloatText`, `GeneratedWithoutPi`).

## Model

| member | source | states |
|---|---|---|
| Expressions.Children | src/main.rs:34-53 | a leaf has no children, each of the seven unary variants has one, and a quotient, power or root has exactly two; every child is structurally smaller and strictly lower than its parent |
| Expressions.At | src/main.rs:34-53 | a path of k steps that reaches a node reaches one at least k levels below the root |
| Expressions.AtCompose | src/main.rs:34-53 | following the path p and then the path q reaches the same node as following p + q, and fails exactly when one of the two steps fails |
| Expressions.Height | src/main.rs:34-53 | a tree has height 0 exactly when it is a leaf variant |
| Expressions.MaxHeight | src/main.rs:42-43 | no operand of a sum or product is taller than the result, and a non-empty list has an operand that reaches it |
| Expressions.ExactValue | src/main.rs:58-66 | what `eval` computes for a tree of 0, 1, integers, negation, sums and products, over the integers: an empty sum is 0, an empty product 1; any other tree has no exact value here |
| Decimal.NatText | src/main.rs:138 | the decimal text of a natural number is non-empty, all digits, and has no leading zero |
| Decimal.IntText | src/main.rs:138 | the text of an `i64` is non-empty, with digits everywhere except possibly a leading '-' |
| Decimal.NatTextValue | src/main.rs:138 | reading the digits of n back as a decimal number gives n |
| Decimal.IntTextRoundTrip | src/main.rs:138 | for every integer n, parsing the text of n gives back exactly n |
| Decimal.IntTextInjective | src/main.rs:138 | two integers with the same text are equal, so the text of an `Int` leaf loses nothing |
| Text.Join | src/main.rs:141-142 | joining k ≥ 1 pieces gives their total length plus k − 1 separators; joining no pieces gives the empty string |
| Text.JoinCount | src/main.rs:141-142 | joining with a one-character separator adds that character exactly (number of parts − 1) times and no other character |
| Renderer.Render | src/main.rs:131-154 | the text of each variant, written with the template of its arm of `to_string`; its properties are the Renderer rows below |
| Renderer.RenderEach | src/main.rs:141-142 | the operands of a sum or product give one text each, in order |
| Renderer.VariadicSeparators | src/main.rs:141-142 | the text of a sum with k ≥ 1 terms has exactly k − 1 more '+' than its terms' texts together, and a product the same for '*'; every other character count is the operands' |
| Renderer.RenderBalanced | src/main.rs:131-154 | whenever float text holds no bracket, the text of every expression is balanced: no prefix closes more brackets than it opens, and the whole closes all it opens |
| Renderer.DivOperandsGrouped | src/main.rs:143 | a quotient is written as (numerator)/(denominator); each of the two groups is enclosed, so its first bracket is closed only by its last |
| Renderer.PowOperandsGrouped | src/main.rs:144 | a power is written as (base)^(exponent), each operand one enclosed group |
| Renderer.RootOperandsGrouped | src/main.rs:145 | a root is written as (radicand)^(1/(root base)); the radicand, the exponent group and the root base are each one enclosed group |
| Renderer.CallOperandGrouped | src/main.rs:140-151 | unary minus (line 140), sin, cos and tan (lines 149-151) write a name without brackets ('-', "sin", "cos", "tan") and then their operand as one enclosed group |
| Renderer.UnaryChildOccurs | src/main.rs:140-151 | the text of the operand of minus, floor, ceil, round, sin, cos and tan appears unchanged in the wrapper's text |
| Renderer.ChildOccurs | src/main.rs:140-151 | the text of every direct child appears unchanged as a piece of its parent's text |
| Renderer.DescendantOccurs | src/main.rs:131-154 | the text of every node reachable by a path appears unchanged inside the text of the whole tree |
| Renderer.RenderGrouped | src/main.rs:141-142 | the intended text: the templates of `to_string`, except that a sum written as a factor of a product is put in parentheses |
| Renderer.GroupedShape | src/main.rs:141-142 | whenever float text holds neither a bracket nor '+', the intended text of every tree is balanced, and only a sum at the top has a '+' outside all brackets |
| Generator.Rng.RandomRange | src/main.rs:84 | `random_range(lo..hi)` returns the next draw of the tape reduced into lo ≤ r < hi, and consumes exactly that one draw |
| Generator.Rng.RandomRangeInclusive | src/main.rs:89 | `random_range(lo..=hi)` returns the next draw of the tape reduced into lo ≤ r ≤ hi, and consumes exactly that one draw |
| Generator.Gen | src/main.rs:80-129 | the tree `new_random(level, _)` returns when its first draw is at a given position, with the position after its last draw |
| Generator.Generated | src/main.rs:80-129 | the trees of each level: leaves 0, 1, e and integers in −100..=100; a unary wrapper of a leaf; a sum or product of 2 to 5 operands or a quotient, power or root of two, each operand one level down |
| Generator.GenGenerated | src/main.rs:80-129 | every tree the generator returns at level L is in the grammar at L, and it consumes at least one draw |
| Generator.GeneratedReachable | src/main.rs:80-129 | every tree in the grammar at level L is returned by the generator: on the tape that starts with the tree's draws it returns that tree and stops after them |
| Generator.GeneratedHeight | src/main.rs:80-129 | every tree in the grammar at level L has height exactly L |
| Generator.NewRandom | src/main.rs:80-129 | returns exactly the tree `Gen` reads from the tape and leaves the tape just after its last draw; the tree is in the grammar, its height is the level, and at least one draw is consumed |
| Generator.NewLeaf | src/main.rs:83-94 | the level-0 arm returns exactly what `GenLeaf` reads: draws 0, 1, 2 give 0, 1, e; draw 4 gives the integer of a second draw in −100..=100; draws 3 and 5 start the arm over |
| Generator.NewUnary | src/main.rs:95-107 | the level-1 arm returns exactly what `GenUnary` reads: a level-0 tree first, then the draw that picks one of the seven wrappers |
| Generator.NewComposite | src/main.rs:108-127 | above level 1 the arm returns exactly what `GenComposite` reads: the variant draw, then for a sum or product the count draw and its operands, else the two operands |
| Generator.NewOperands | src/main.rs:112-115 | the loop returns exactly the `count` operands `GenList` reads, in draw order, the first operand from the earliest draws |
| Generator.NewPair | src/main.rs:122-124 | returns exactly the pair `GenPair` reads: the first operand from the earlier draws, the second from the draws after it |
| Generator.AtGenerated | src/main.rs:80-129 | every node a path of k steps reaches in a tree of level L is itself in the grammar at level L − k |
| Generator.GeneratedFactorsFlat | src/main.rs:23 | at level 2 and below, the level `main` asks for, every factor of every product in a generated tree is a unary node, never a sum |
| Generator.GeneratedAsIntended | src/main.rs:23 | at level 2 and below the text `to_string` writes for a generated tree is the intended text |
| Generator.GeneratedWithoutPi | src/main.rs:83-93 | the generator never produces `Pi`, so the text of a generated tree contains no 'π' |
| Generator.GeneratedIgnoresFloatText | src/main.rs:88-90 | the generator never produces a `Float` leaf, so a generated tree's text is the same under any float formatter |
| Generator.GeneratedBalanced | src/main.rs:131-154 | the text of every generated tree is balanced, whatever the float formatter writes |
| Generator.LevelThreeProductMisread | src/main.rs:142 | a level-3 product of two sums is written with the same text as a different sum, with a different value, and with a '+' outside all brackets; the intended texts of the two trees differ |

## Left out

- `Expr::eval` and `diff`: these are `f64` arithmetic (sums, products, `powf`, `floor`, `ceil`, `round`, `sin`, `cos`, `tan`), and floating point is not modelled. A `Float` leaf keeps only its 64-bit pattern. `ExactValue` covers only the integer trees the counterexample needs.
- `main`: the ten rayon tasks on the global pool (only as many run as the pool has threads, since none returns), the endless loop, evaluating each tree, and the `println!` of every tree within `DIFF` of π. These are concurrency, floating point and output. The model keeps the one thing `main` asks of the core: trees of level 2.
- Rust's `Display` of an `f64` is not modelled. It is the parameter `floatText`. The balance lemmas assume only that it writes no bracket.
- `ThreadRng` is not modelled. The i-th draw is `tape(i)` reduced into the requested range. Nothing is claimed about the distribution, such as uniformity or which variants are more likely.
- Generator.NewRandom: termination of the level-0 restarts is proved under `Rng.Fair()`. That condition says a draw naming a leaf always comes later on the tape. A real `ThreadRng` gives such a draw only with probability 1.
- Generator.GeneratedReachable: it shows one tape per tree. It says nothing about how likely that tape is.
- The `u32` level is a `nat`. The source subtracts 1 only when the level is at least 1, so no wrap-around arises.
- `Box` and `Vec` become plain values. The source never shares or mutates a tree after building it.

## Findings

| source | as written | input that shows it | evidently intended | confidence | as-written member | corrected member |
|---|---|---|---|---|---|---|
| src/main.rs:142 | a product joins its factors' texts with '*' and adds no parentheses, so a sum used as a factor runs into its neighbours | with m = `UnaryMinus(One)`, the tree `Prod([Add([m, m]), Add([m, m])])` is in the level-3 grammar and has value 4. It is written "-(1)+-(1)\*-(1)+-(1)", the same text as `Add([m, Prod([m, m]), m])`, whose value is −1 | a sum that is a factor is written in parentheses: "(-(1)+-(1))\*(-(1)+-(1))". Then only a sum at the top has a '+' outside brackets. At level 2, the level `main` uses, no factor is a sum, so that output is already the intended text (`GeneratedAsIntended`), whose only '+' outside brackets belong to a sum at the top (`GroupedShape`) | not executed; it shows only for `new_random` at level 3 or more | Generator.LevelThreeProductMisread | Renderer.GroupedShape |
