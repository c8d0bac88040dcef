/** The compiled calls of an expression evaluate to what the expression means: compiling with
    `evaluateExpression` and then running `evaluateFunctionCalls` computes the product of the
    transformed siblings, recursively. */
module RoundTrip {
  import opened Wrappers
  import opened Expressions
  import opened Scanner
  import opened Compiler
  import opened Interpreter

  /** What an expression means at the sample point `p`: a variable is its coordinate, a node is the
      product of its siblings, each the transform its tag names applied to its argument. */
  function Meaning(m: Math, e: Expr, p: Point): real {
    match e
    case X => p.x
    case Y => p.y
    case Node(sibs) =>
      ProductOf(m, seq(|sibs|, i requires 0 <= i < |sibs| => Transform(m, TagChar(sibs[i].tag), Meaning(m, sibs[i].arg, p))))
  }

  /** The value of each sibling of a node. */
  function Values(m: Math, sibs: seq<Sibling>, p: Point): seq<real> {
    seq(|sibs|, i requires 0 <= i < |sibs| => Transform(m, TagChar(sibs[i].tag), Meaning(m, sibs[i].arg, p)))
  }

  lemma MeaningNode(m: Math, sibs: seq<Sibling>, p: Point)
    ensures Meaning(m, Node(sibs), p) == ProductOf(m, Values(m, sibs, p))
  {
    assert Values(m, sibs, p) ==
      seq(|sibs|, i requires 0 <= i < |sibs| => Transform(m, TagChar(sibs[i].tag), Meaning(m, sibs[i].arg, p)));
  }

  /** The frame the compiled siblings leave before the operators: each argument's value, then its
      tag. */
  function Frame(m: Math, sibs: seq<Sibling>, p: Point): seq<Item> {
    if sibs == [] then []
    else
      var last := sibs[|sibs| - 1];
      Frame(m, sibs[..|sibs| - 1], p) + [Num(Meaning(m, last.arg, p)), Tok(TagChar(last.tag))]
  }

  /** `items` appended to the top frame of `stack`. */
  function Push(stack: seq<seq<Item>>, items: seq<Item>): (r: seq<seq<Item>>)
    requires |stack| >= 1
    ensures |r| == |stack| && r[..|r| - 1] == stack[..|stack| - 1]
    ensures r[|r| - 1] == stack[|stack| - 1] + items
  {
    stack[..|stack| - 1] + [stack[|stack| - 1] + items]
  }

  lemma PushPush(stack: seq<seq<Item>>, a: seq<Item>, b: seq<Item>)
    requires |stack| >= 1
    ensures Push(Push(stack, a), b) == Push(stack, a + b)
  {
    assert stack[|stack| - 1] + a + b == stack[|stack| - 1] + (a + b);
  }

  // ---------------------------------------------------------------------------------------------
  // Solving one frame

  lemma {:induction false} NumsSnoc(vs: seq<real>, x: real)
    ensures Nums(vs + [x]) == Nums(vs) + [Num(x)]
    decreases |vs|
  {
    if vs == [] {
      assert [x][1..] == [];
    } else {
      assert (vs + [x])[1..] == vs[1..] + [x];
      NumsSnoc(vs[1..], x);
    }
  }

  lemma SolveTwo(m: Math, p: Point, values: seq<Item>, a: Item, b: Item)
    ensures SolveRun(m, p, values, [a, b]) ==
      match SolveStep(m, p, values, a)
      case Ok(mid) => SolveStep(m, p, mid, b)
      case Err(e) => Err(e)
  {
    assert [a, b][..1] == [a];
    assert [a][..0] == [];
    assert SolveRun(m, p, values, [a]) == SolveStep(m, p, values, a);
  }

  /** An argument's value followed by its tag leaves that sibling's value. */
  lemma SolveSibling(m: Math, p: Point, vs: seq<real>, v: real, letter: char)
    requires IsTagChar(letter)
    ensures SolveRun(m, p, Nums(vs), [Num(v), Tok(letter)]) == Ok(Nums(vs + [Transform(m, letter, v)]))
  {
    SolveTwo(m, p, Nums(vs), Num(v), Tok(letter));
    var mid := Nums(vs) + [Num(v)];
    assert SolveStep(m, p, Nums(vs), Num(v)) == Ok(mid);
    SolveTagStep(m, p, mid, letter);
    assert mid[..|mid| - 1] == Nums(vs);
    NumsSnoc(vs, Transform(m, letter, v));
  }

  /** Solving the frame of compiled siblings leaves each sibling's value, in order. */
  lemma {:induction false} SolveFrame(m: Math, p: Point, sibs: seq<Sibling>)
    ensures SolveRun(m, p, [], Frame(m, sibs, p)) == Ok(Nums(Values(m, sibs, p)))
    decreases |sibs|
  {
    if sibs == [] {
      assert Values(m, sibs, p) == [];
    } else {
      var n := |sibs| - 1;
      var v, letter := Meaning(m, sibs[n].arg, p), TagChar(sibs[n].tag);
      var before := Values(m, sibs[..n], p);
      SolveFrame(m, p, sibs[..n]);
      FrameSnoc(m, sibs, p);
      SolveRunAppend(m, p, [], Frame(m, sibs[..n], p), [Num(v), Tok(letter)]);
      SolveSibling(m, p, before, v, letter);
      ValuesSnoc(m, sibs, p);
    }
  }

  lemma FrameSnoc(m: Math, sibs: seq<Sibling>, p: Point)
    requires |sibs| >= 1
    ensures Frame(m, sibs, p) ==
      Frame(m, sibs[..|sibs| - 1], p) + [Num(Meaning(m, sibs[|sibs| - 1].arg, p)), Tok(TagChar(sibs[|sibs| - 1].tag))]
  {
  }

  lemma ValuesSnoc(m: Math, sibs: seq<Sibling>, p: Point)
    requires |sibs| >= 1
    ensures Values(m, sibs, p) ==
      Values(m, sibs[..|sibs| - 1], p) + [Transform(m, TagChar(sibs[|sibs| - 1].tag), Meaning(m, sibs[|sibs| - 1].arg, p))]
  {
  }

  /** The frame of a node, with its operators, solves to the product of its siblings' values. */
  lemma SolveNode(m: Math, p: Point, sibs: seq<Sibling>)
    requires |sibs| >= 1
    ensures Solve(m, p, Frame(m, sibs, p) + StarToks(|sibs| - 1)) == Ok(Num(Meaning(m, Node(sibs), p)))
  {
    var vs := Values(m, sibs, p);
    SolveFrame(m, p, sibs);
    SolveRunAppend(m, p, [], Frame(m, sibs, p), StarToks(|sibs| - 1));
    SolveStars(m, p, vs);
    MeaningNode(m, sibs, p);
  }

  // ---------------------------------------------------------------------------------------------
  // Evaluating compiled calls

  /** A symbol other than a bracket joins the top frame. */
  lemma EvalSymbol(m: Math, p: Point, stack: seq<seq<Item>>, symbol: char)
    requires |stack| >= 1 && symbol != '(' && symbol != ')'
    ensures EvalRun(m, p, stack, [symbol]) == Ok(Push(stack, [Tok(symbol)]))
  {
    assert [symbol][..0] == [];
  }

  lemma {:induction false} EvalStars(m: Math, p: Point, stack: seq<seq<Item>>, j: nat)
    requires |stack| >= 1
    ensures EvalRun(m, p, stack, Stars(j)) == Ok(Push(stack, StarToks(j)))
  {
    if j == 0 {
      assert Stars(0) == [] && StarToks(0) == [];
      assert stack[|stack| - 1] + [] == stack[|stack| - 1];
      assert stack[..|stack| - 1] + [stack[|stack| - 1]] == stack;
    } else {
      assert Stars(j)[..j - 1] == Stars(j - 1);
      EvalStars(m, p, stack, j - 1);
      EvalSymbol(m, p, Push(stack, StarToks(j - 1)), '*');
      EvalRunAppend(m, p, stack, Stars(j - 1), ['*']);
      assert Stars(j - 1) + ['*'] == Stars(j);
      PushPush(stack, StarToks(j - 1), [Tok('*')]);
      assert StarToks(j - 1) + [Tok('*')] == StarToks(j);
    }
  }

  /** The closing bracket solves the top frame and hands its value to the frame below. */
  lemma EvalClose(m: Math, p: Point, stack: seq<seq<Item>>, frame: seq<Item>, value: Item)
    requires |stack| >= 1 && Solve(m, p, frame) == Ok(value)
    ensures EvalRun(m, p, stack + [frame], [')']) == Ok(Push(stack, [value]))
  {
    assert [')'][..0] == [];
    assert (stack + [frame])[..|stack|] == stack;
  }

  /** Running the compiled calls of a well-formed expression pushes its meaning onto the top
      frame, whatever the stack holds. */
  lemma {:induction false} CompileRun(m: Math, p: Point, e: Expr, stack: seq<seq<Item>>)
    requires Wellformed(e) && |stack| >= 1
    ensures EvalRun(m, p, stack, Compile(e)) == Ok(Push(stack, [Num(Meaning(m, e, p))]))
    decreases e, 1
  {
    var pushed := stack + [[]];
    assert ['('][..0] == [];
    assert EvalRun(m, p, stack, ['(']) == Ok(pushed);
    match e
    case X =>
      CompileVariable(m, p, stack, 'x', p.x);
    case Y =>
      CompileVariable(m, p, stack, 'y', p.y);
    case Node(sibs) =>
      var n := |sibs|;
      CompileNode(sibs);
      var body := Flatten(Pieces(sibs));
      EvalPieces(m, p, e, n, pushed);
      assert sibs[..n] == sibs && Pieces(sibs)[..n] == Pieces(sibs);
      assert pushed[..|pushed| - 1] == stack;
      var framed := Push(pushed, Frame(m, sibs, p));
      assert [] + Frame(m, sibs, p) == Frame(m, sibs, p);
      assert framed == stack + [Frame(m, sibs, p)];
      EvalStars(m, p, framed, n - 1);
      var closing := Push(framed, StarToks(n - 1));
      assert closing == stack + [Frame(m, sibs, p) + StarToks(n - 1)];
      SolveNode(m, p, sibs);
      EvalClose(m, p, stack, Frame(m, sibs, p) + StarToks(n - 1), Num(Meaning(m, e, p)));
      EvalRunAppend(m, p, stack, ['('], body);
      EvalRunAppend(m, p, stack, ['('] + body, Stars(n - 1));
      EvalRunAppend(m, p, stack, ['('] + body + Stars(n - 1), [')']);
  }

  lemma CompileVariable(m: Math, p: Point, stack: seq<seq<Item>>, v: char, value: real)
    requires |stack| >= 1 && (v == 'x' || v == 'y') && value == (if v == 'x' then p.x else p.y)
    ensures EvalRun(m, p, stack, ['(', v, ')']) == Ok(Push(stack, [Num(value)]))
  {
    var pushed := stack + [[]];
    assert ['(', v, ')'][..2] == ['(', v];
    assert ['(', v][..1] == ['('];
    assert ['('][..0] == [];
    assert EvalRun(m, p, stack, ['(']) == Ok(pushed);
    assert pushed[..|pushed| - 1] == stack;
    assert [] + [Tok(v)] == [Tok(v)];
    assert EvalRun(m, p, stack, ['(', v]) == Ok(stack + [[Tok(v)]]);
    assert [Tok(v)][..0] == [];
    assert [] + [Num(value)] == [Num(value)];
    assert SolveRun(m, p, [], [Tok(v)]) == Ok([Num(value)]);
    assert Solve(m, p, [Tok(v)]) == Ok(Num(value));
    assert (stack + [[Tok(v)]])[..|stack|] == stack;
  }

  /** The compiled calls of the first `k` siblings of a node, run on a stack, append their frame
      to the top frame. */
  lemma {:induction false} EvalPieces(m: Math, p: Point, e: Expr, k: nat, stack: seq<seq<Item>>)
    requires Wellformed(e) && e.Node? && k <= |e.sibs| && |stack| >= 1
    ensures EvalRun(m, p, stack, Flatten(Pieces(e.sibs)[..k])) == Ok(Push(stack, Frame(m, e.sibs[..k], p)))
    decreases e, 0, k
  {
    var sibs := e.sibs;
    if k == 0 {
      assert Pieces(sibs)[..0] == [] && sibs[..0] == [];
      assert Flatten([]) == [] && Frame(m, [], p) == [];
      assert stack[|stack| - 1] + [] == stack[|stack| - 1];
      assert stack[..|stack| - 1] + [stack[|stack| - 1]] == stack;
    } else {
      var n := k - 1;
      var s := sibs[n];
      var frame := Frame(m, sibs[..n], p);
      var pair := [Num(Meaning(m, s.arg, p)), Tok(TagChar(s.tag))];
      EvalPieces(m, p, e, n, stack);
      FlattenPieces(sibs, k);
      FramePrefix(m, sibs, k, p);
      EvalSiblingCalls(m, p, s, Push(stack, frame));
      EvalRunAppend(m, p, stack, Flatten(Pieces(sibs)[..n]), SiblingCalls(s));
      PushPush(stack, frame, pair);
    }
  }

  /** The calls of one sibling append its argument's value and then its tag to the top frame. */
  lemma {:induction false} EvalSiblingCalls(m: Math, p: Point, s: Sibling, stack: seq<seq<Item>>)
    requires Wellformed(s.arg) && |stack| >= 1
    ensures EvalRun(m, p, stack, SiblingCalls(s)) ==
      Ok(Push(stack, [Num(Meaning(m, s.arg, p)), Tok(TagChar(s.tag))]))
    decreases s.arg, 2
  {
    var value := Num(Meaning(m, s.arg, p));
    CompileRun(m, p, s.arg, stack);
    EvalSymbol(m, p, Push(stack, [value]), TagChar(s.tag));
    EvalRunAppend(m, p, stack, Compile(s.arg), [TagChar(s.tag)]);
    PushPush(stack, [value], [Tok(TagChar(s.tag))]);
    assert [value] + [Tok(TagChar(s.tag))] == [value, Tok(TagChar(s.tag))];
  }

  lemma FramePrefix(m: Math, sibs: seq<Sibling>, k: nat, p: Point)
    requires 1 <= k <= |sibs|
    ensures Frame(m, sibs[..k], p) ==
      Frame(m, sibs[..k - 1], p) + [Num(Meaning(m, sibs[k - 1].arg, p)), Tok(TagChar(sibs[k - 1].tag))]
  {
    assert sibs[..k][..k - 1] == sibs[..k - 1];
    FrameSnoc(m, sibs[..k], p);
  }

  /** Evaluating the compiled calls of a well-formed expression gives its meaning. */
  lemma RoundTrip(m: Math, e: Expr, p: Point)
    requires Wellformed(e)
    ensures Evaluate(m, Compile(e), p) == Ok(Num(Meaning(m, e, p)))
  {
    CompileRun(m, p, e, [[]]);
    var top: seq<Item> := [];
    assert top + [Num(Meaning(m, e, p))] == [Num(Meaning(m, e, p))];
    assert Push([top], [Num(Meaning(m, e, p))]) == [[Num(Meaning(m, e, p))]];
  }

  /** The whole pipeline on a drawn expression: `buildExpression` text, compiled by
      `convertToFunctionCalls` without a raise, evaluates at every sample point to the meaning of
      the drawn expression. */
  lemma Pipeline(m: Math, d: Draw, p: Point)
    requires ValidDraw(d)
    ensures Emit(BuildExpression(d)).outcome.Ok?
    ensures Emit(BuildExpression(d)).calls == Compile(ToExpr(d))
    ensures Evaluate(m, Emit(BuildExpression(d)).calls, p) == Ok(Num(Meaning(m, ToExpr(d), p)))
  {
    BuildExpressionRenders(d);
    DrawGenerable(d);
    EmitRendered(ToExpr(d));
    RoundTrip(m, ToExpr(d), p);
  }
}
