/** The stack interpreter of compiled calls: `evaluateFunctionCalls`, `solveExpression` and the
    transforms `sinPiX`, `cosPiX`, `tanPiX` and `lnX`. */
module Interpreter {
  import opened Wrappers
  import opened Expressions

  /** The floating-point operations the values are computed with, taken as a parameter: `math.pi`,
      `math.sin`, `math.cos`, `math.tan`, `math.log` and the multiplication `*` of two floats, as
      functions on the reals. Nothing is assumed about them, so rounding and the order in which
      products are taken are kept exactly. */
  datatype Math = Math(
    pi: real,
    sin: real -> real,
    cos: real -> real,
    tan: real -> real,
    log: real -> real,
    mul: (real, real) -> real)

  function SinPiX(m: Math, x: real): real { m.sin(m.mul(m.pi, x)) }
  function CosPiX(m: Math, x: real): real { m.cos(m.mul(m.pi, x)) }
  function TanPiX(m: Math, x: real): real { m.tan(m.mul(m.pi, x)) }

  /** What `lnX` substitutes for a non-positive argument. */
  const LogFloor: real := 0.0000001

  /** The argument `lnX` hands to the logarithm: always positive, and `x` itself when `x` is. */
  function LogArgument(x: real): (r: real)
    ensures r > 0.0
    ensures x > 0.0 ==> r == x
    ensures x <= 0.0 ==> r == LogFloor
  {
    if x <= 0.0 then LogFloor else x
  }

  function LnX(m: Math, x: real): real { m.log(LogArgument(x)) }

  /** The transform a tag letter names. */
  function Transform(m: Math, symbol: char, v: real): real
    requires IsTagChar(symbol)
  {
    if symbol == 's' then SinPiX(m, v)
    else if symbol == 'c' then CosPiX(m, v)
    else if symbol == 't' then TanPiX(m, v)
    else LnX(m, v)
  }

  /** The sample point `params`: `params[0]` is x, `params[1]` is y. */
  datatype Point = Point(x: real, y: real)

  /** A frame entry: a compiled symbol, or a number computed from an inner frame. */
  datatype Item = Tok(symbol: char) | Num(v: real)

  // ---------------------------------------------------------------------------------------------
  // solveExpression

  /** One pass of the `solveExpression` loop body over `item`, with the list `values` so far. */
  function SolveStep(m: Math, p: Point, values: seq<Item>, item: Item): Result<seq<Item>> {
    if item == Tok('x') then Ok(values + [Num(p.x)])
    else if item == Tok('y') then Ok(values + [Num(p.y)])
    else if item.Tok? && IsTagChar(item.symbol) then
      if |values| == 0 then Err(IndexError)
      else if !values[|values| - 1].Num? then Err(TypeError)
      else Ok(values[..|values| - 1] + [Num(Transform(m, item.symbol, values[|values| - 1].v))])
    else if item == Tok('*') then
      if |values| < 2 then Err(IndexError)
      else if !values[0].Num? || !values[1].Num? then Err(TypeError)
      else Ok([Num(m.mul(values[1].v, values[0].v))] + values[2..])
    else Ok(values + [item])
  }

  /** A tag letter rewrites only the last value, keeping the length; it needs a last value that
      is a number. */
  lemma SolveTagStep(m: Math, p: Point, values: seq<Item>, letter: char)
    requires IsTagChar(letter)
    ensures |values| == 0 ==> SolveStep(m, p, values, Tok(letter)) == Err(IndexError)
    ensures |values| > 0 && values[|values| - 1].Num? ==>
      SolveStep(m, p, values, Tok(letter)) ==
        Ok(values[..|values| - 1] + [Num(Transform(m, letter, values[|values| - 1].v))])
  {
  }

  /** `*` needs two values; it takes the front value off and multiplies it into the new front,
      so the list gets one shorter. */
  lemma SolveStarStep(m: Math, p: Point, values: seq<Item>)
    ensures |values| < 2 ==> SolveStep(m, p, values, Tok('*')) == Err(IndexError)
    ensures |values| >= 2 && values[0].Num? && values[1].Num? ==>
      SolveStep(m, p, values, Tok('*')) == Ok([Num(m.mul(values[1].v, values[0].v))] + values[2..])
  {
    assert !IsTagChar('*');
  }

  function SolveRun(m: Math, p: Point, values: seq<Item>, items: seq<Item>): Result<seq<Item>> {
    if items == [] then Ok(values)
    else
      var values' :- SolveRun(m, p, values, items[..|items| - 1]);
      SolveStep(m, p, values', items[|items| - 1])
  }

  /** What `solveExpression` returns for one frame: the first value left. */
  function Solve(m: Math, p: Point, expression: seq<Item>): Result<Item> {
    var values :- SolveRun(m, p, [], expression);
    if |values| == 0 then Err(IndexError) else Ok(values[0])
  }

  method SolveExpression(m: Math, expression: seq<Item>, params: Point) returns (r: Result<Item>)
    ensures r == Solve(m, params, expression)
  {
    var values: seq<Item> := [];
    var i := 0;
    while i < |expression|
      invariant 0 <= i <= |expression|
      invariant SolveRun(m, params, [], expression[..i]) == Ok(values)
    {
      var symbol := expression[i];
      ghost var previous := values;
      if symbol == Tok('x') {
        values := values + [Num(params.x)];
        assert SolveStep(m, params, previous, symbol) == Ok(values);
      } else if symbol == Tok('y') {
        values := values + [Num(params.y)];
        assert SolveStep(m, params, previous, symbol) == Ok(values);
      } else if symbol.Tok? && IsTagChar(symbol.symbol) {
        if |values| == 0 || !values[|values| - 1].Num? {
          r := if |values| == 0 then Err(IndexError) else Err(TypeError);
          assert SolveStep(m, params, previous, symbol) == Err(r.error);
          SolveRaised(m, params, expression, i, previous);
          return;
        }
        SolveTagStep(m, params, values, symbol.symbol);
        values := values[..|values| - 1] + [Num(Transform(m, symbol.symbol, values[|values| - 1].v))];
      } else if symbol == Tok('*') {
        if |values| < 2 || !values[0].Num? || !values[1].Num? {
          r := if |values| < 2 then Err(IndexError) else Err(TypeError);
          assert SolveStep(m, params, previous, symbol) == Err(r.error);
          SolveRaised(m, params, expression, i, previous);
          return;
        }
        SolveStarStep(m, params, values);
        var firstValue := values[0];
        values := values[1..];
        assert values[0] == previous[1] && values[1..] == previous[2..];
        var product := Num(m.mul(values[0].v, firstValue.v));
        assert product == Num(m.mul(previous[1].v, previous[0].v));
        values := [product] + values[1..];
      } else {
        assert !(symbol.Tok? && IsTagChar(symbol.symbol)) && symbol != Tok('*');
        values := values + [symbol];
        assert SolveStep(m, params, previous, symbol) == Ok(values);
      }
      SolveExtended(m, params, expression, i, previous);
      i := i + 1;
    }
    assert expression[..i] == expression;
    r := if |values| == 0 then Err(IndexError) else Ok(values[0]);
  }

  /** One more item of the frame takes the solved prefix one step further. */
  lemma SolveExtended(m: Math, p: Point, expression: seq<Item>, i: nat, previous: seq<Item>)
    requires i < |expression| && SolveRun(m, p, [], expression[..i]) == Ok(previous)
    ensures SolveRun(m, p, [], expression[..i + 1]) == SolveStep(m, p, previous, expression[i])
  {
    assert expression[..i + 1][..i] == expression[..i];
  }

  /** A raise at one item is the raise of the whole frame. */
  lemma SolveRaised(m: Math, p: Point, expression: seq<Item>, i: nat, previous: seq<Item>)
    requires i < |expression| && SolveRun(m, p, [], expression[..i]) == Ok(previous)
    requires SolveStep(m, p, previous, expression[i]).Err?
    ensures Solve(m, p, expression) == Err(SolveStep(m, p, previous, expression[i]).error)
  {
    SolveExtended(m, p, expression, i, previous);
    SolveRunAppend(m, p, [], expression[..i + 1], expression[i + 1..]);
    assert expression[..i + 1] + expression[i + 1..] == expression;
  }

  lemma {:induction false} SolveRunAppend(m: Math, p: Point, values: seq<Item>, u: seq<Item>, v: seq<Item>)
    ensures SolveRun(m, p, values, u + v) ==
      match SolveRun(m, p, values, u)
      case Ok(mid) => SolveRun(m, p, mid, v)
      case Err(e) => Err(e)
  {
    if v == [] {
      assert u + v == u;
    } else {
      assert (u + v)[..|u + v| - 1] == u + v[..|v| - 1];
      assert (u + v)[|u + v| - 1] == v[|v| - 1];
      SolveRunAppend(m, p, values, u, v[..|v| - 1]);
    }
  }

  /** The product of a list of values in the order the `*` operators of a frame take it: each
      value multiplied onto the product of those before it, `v[k-1] * (... * (v[1] * v[0]))`. */
  function ProductOf(m: Math, vs: seq<real>): real {
    if |vs| == 0 then 1.0
    else if |vs| == 1 then vs[0]
    else m.mul(vs[|vs| - 1], ProductOf(m, vs[..|vs| - 1]))
  }

  function Nums(vs: seq<real>): seq<Item> {
    if vs == [] then [] else [Num(vs[0])] + Nums(vs[1..])
  }

  function StarToks(n: nat): seq<Item> {
    seq(n, _ => Tok('*'))
  }

  /** k numbers followed by k-1 `*` reduce to the single product of all k: each `*` pops the
      front value and multiplies the next one onto it. */
  lemma SolveStars(m: Math, p: Point, vs: seq<real>)
    requires |vs| >= 1
    ensures SolveRun(m, p, Nums(vs), StarToks(|vs| - 1)) == Ok([Num(ProductOf(m, vs))])
  {
    SolveStarsPrefix(m, p, vs, |vs|);
    assert vs[..|vs|] == vs;
    assert vs[|vs|..] == [];
    assert [Num(ProductOf(m, vs))] + Nums([]) == [Num(ProductOf(m, vs))];
  }

  /** After the first j-1 operators, the front value is the product of the first j values and
      the rest are untouched. */
  lemma {:induction false} SolveStarsPrefix(m: Math, p: Point, vs: seq<real>, j: nat)
    requires 1 <= j <= |vs|
    ensures SolveRun(m, p, Nums(vs), StarToks(j - 1)) == Ok([Num(ProductOf(m, vs[..j]))] + Nums(vs[j..]))
  {
    if j == 1 {
      assert StarToks(0) == [];
      assert vs[..1] == [vs[0]];
      NumsCons(vs);
    } else {
      SolveStarsPrefix(m, p, vs, j - 1);
      var front := ProductOf(m, vs[..j - 1]);
      var before := [Num(front)] + Nums(vs[j - 1..]);
      StarToksSnoc(j - 2);
      SolveRunAppend(m, p, Nums(vs), StarToks(j - 2), [Tok('*')]);
      SolveRunOne(m, p, before, Tok('*'));
      NumsFrom(vs, j);
      assert before == [Num(front), Num(vs[j - 1])] + Nums(vs[j..]);
      assert before[0] == Num(front) && before[1] == Num(vs[j - 1]) && before[2..] == Nums(vs[j..]);
      SolveStarStep(m, p, before);
      assert vs[..j][..j - 1] == vs[..j - 1];
      assert ProductOf(m, vs[..j]) == m.mul(vs[j - 1], front);
    }
  }

  lemma NumsFrom(vs: seq<real>, j: nat)
    requires 1 <= j <= |vs|
    ensures Nums(vs[j - 1..]) == [Num(vs[j - 1])] + Nums(vs[j..])
  {
    NumsCons(vs[j - 1..]);
    assert vs[j - 1..][1..] == vs[j..];
  }

  lemma StarToksSnoc(n: nat)
    ensures StarToks(n + 1) == StarToks(n) + [Tok('*')]
  {
  }

  lemma SolveRunOne(m: Math, p: Point, values: seq<Item>, item: Item)
    ensures SolveRun(m, p, values, [item]) == SolveStep(m, p, values, item)
  {
    assert [item][..0] == [];
  }

  lemma NumsCons(vs: seq<real>)
    requires |vs| >= 1
    ensures Nums(vs) == [Num(vs[0])] + Nums(vs[1..])
  {
  }

  // ---------------------------------------------------------------------------------------------
  // evaluateFunctionCalls

  /** One pass of the `evaluateFunctionCalls` loop body over `symbol`: `(` pushes an empty frame,
      `)` pops the top frame and appends its solved value to the frame below, and any other symbol
      joins the top frame. */
  function EvalStep(m: Math, p: Point, stack: seq<seq<Item>>, symbol: char): Result<seq<seq<Item>>> {
    if symbol == '(' then Ok(stack + [[]])
    else if symbol == ')' then
      if |stack| == 0 then Err(IndexError)
      else
        var rest := stack[..|stack| - 1];
        var value :- Solve(m, p, stack[|stack| - 1]);
        if |rest| == 0 then Err(IndexError)
        else Ok(rest[..|rest| - 1] + [rest[|rest| - 1] + [value]])
    else if |stack| == 0 then Err(IndexError)
    else Ok(stack[..|stack| - 1] + [stack[|stack| - 1] + [Tok(symbol)]])
  }

  function EvalRun(m: Math, p: Point, stack: seq<seq<Item>>, calls: seq<char>): Result<seq<seq<Item>>> {
    if calls == [] then Ok(stack)
    else
      var stack' :- EvalRun(m, p, stack, calls[..|calls| - 1]);
      EvalStep(m, p, stack', calls[|calls| - 1])
  }

  /** What `evaluateFunctionCalls` returns: the first entry of the bottom frame. */
  function Evaluate(m: Math, calls: seq<char>, p: Point): Result<Item> {
    var stack :- EvalRun(m, p, [[]], calls);
    if |stack| == 0 || |stack[0]| == 0 then Err(IndexError) else Ok(stack[0][0])
  }

  method EvaluateFunctionCalls(m: Math, functionCalls: seq<char>, params: Point) returns (r: Result<Item>)
    ensures r == Evaluate(m, functionCalls, params)
  {
    var expressionStack: seq<seq<Item>> := [[]];
    var currentExpression: seq<Item> := [];
    var i := 0;
    while i < |functionCalls|
      invariant 0 <= i <= |functionCalls|
      invariant currentExpression == []
      invariant |expressionStack| >= 1
      invariant EvalRun(m, params, [[]], functionCalls[..i]) == Ok(expressionStack)
    {
      var symbol := functionCalls[i];
      ghost var previous := expressionStack;
      if symbol == '(' {
        expressionStack := expressionStack + [currentExpression];
        currentExpression := [];
        assert EvalStep(m, params, previous, symbol) == Ok(expressionStack);
      } else if symbol == ')' {
        currentExpression := expressionStack[|expressionStack| - 1];
        expressionStack := expressionStack[..|expressionStack| - 1];
        var value := SolveExpression(m, currentExpression, params);
        if value.Err? || |expressionStack| == 0 {
          r := if value.Err? then Err(value.error) else Err(IndexError);
          assert EvalStep(m, params, previous, symbol) == Err(r.error);
          EvalRaised(m, params, functionCalls, i, previous);
          return;
        }
        var top := |expressionStack| - 1;
        expressionStack := expressionStack[..top] + [expressionStack[top] + [value.value]];
        currentExpression := [];
        assert EvalStep(m, params, previous, symbol) == Ok(expressionStack);
      } else {
        var top := |expressionStack| - 1;
        expressionStack := expressionStack[..top] + [expressionStack[top] + [Tok(symbol)]];
        assert EvalStep(m, params, previous, symbol) == Ok(expressionStack);
      }
      EvalExtended(m, params, functionCalls, i, previous);
      i := i + 1;
    }
    assert functionCalls[..i] == functionCalls;
    r := if |expressionStack[0]| == 0 then Err(IndexError) else Ok(expressionStack[0][0]);
  }

  /** One more symbol takes the evaluated prefix one step further. */
  lemma EvalExtended(m: Math, p: Point, calls: seq<char>, i: nat, previous: seq<seq<Item>>)
    requires i < |calls| && EvalRun(m, p, [[]], calls[..i]) == Ok(previous)
    ensures EvalRun(m, p, [[]], calls[..i + 1]) == EvalStep(m, p, previous, calls[i])
  {
    assert calls[..i + 1][..i] == calls[..i];
  }

  /** A raise at one symbol is the raise of the whole run. */
  lemma EvalRaised(m: Math, p: Point, calls: seq<char>, i: nat, previous: seq<seq<Item>>)
    requires i < |calls| && EvalRun(m, p, [[]], calls[..i]) == Ok(previous)
    requires EvalStep(m, p, previous, calls[i]).Err?
    ensures Evaluate(m, calls, p) == Err(EvalStep(m, p, previous, calls[i]).error)
  {
    EvalExtended(m, p, calls, i, previous);
    EvalRunAppend(m, p, [[]], calls[..i + 1], calls[i + 1..]);
    assert calls[..i + 1] + calls[i + 1..] == calls;
  }

  lemma {:induction false} EvalRunAppend(m: Math, p: Point, stack: seq<seq<Item>>, u: seq<char>, v: seq<char>)
    ensures EvalRun(m, p, stack, u + v) ==
      match EvalRun(m, p, stack, u)
      case Ok(mid) => EvalRun(m, p, mid, v)
      case Err(e) => Err(e)
  {
    if v == [] {
      assert u + v == u;
    } else {
      assert (u + v)[..|u + v| - 1] == u + v[..|v| - 1];
      assert (u + v)[|u + v| - 1] == v[|v| - 1];
      EvalRunAppend(m, p, stack, u, v[..|v| - 1]);
    }
  }
}
