/** The compiler from expression text to a flat list of calls: `evaluateExpression`, which appends
    to the global `currentFunctionCalls`, and `convertToFunctionCalls`, which routes the result to
    the list of one colour channel. */
module Compiler {
  import opened Wrappers
  import opened Brackets
  import opened Expressions
  import opened Scanner

  /** What one call of `evaluateExpression` leaves behind: the calls it appended to
      `currentFunctionCalls`, and what it returned (0 for `x`, 1 for `y`, 2 otherwise) or raised. */
  datatype Emission = Emission(calls: seq<char>, outcome: Result<int>)

  /** `evaluateExpression` on any text. A text with no siblings and no operators is a variable when
      it starts with `x` or `y`; anything else opens a frame, compiles each sibling whose first
      symbol is a tag (its argument, then the tag), and closes the frame with one `*` fewer than
      it compiled siblings; with no sibling compiled, reading `values[0]` raises. */
  function Emit(text: seq<char>): Emission
    decreases |text|, 2
  {
    var tokens := Tokenize(text);
    if tokens.Err? then Emission([], Err(tokens.error))
    else
      var expressions, operators := tokens.value.0, tokens.value.1;
      if |expressions| == 0 && |operators| == 0 && |text| == 0 then Emission([], Err(IndexError))
      else if |expressions| == 0 && |operators| == 0 && text[0] == 'x' then Emission("(x)", Ok(0))
      else if |expressions| == 0 && |operators| == 0 && text[0] == 'y' then Emission("(y)", Ok(1))
      else
        var body := EmitSiblings(text, |expressions|);
        if body.outcome.Err? then Emission(['('] + body.calls, body.outcome)
        else if body.outcome.value <= 0 then Emission(['('] + body.calls, Err(IndexError))
        else Emission(['('] + body.calls + Stars(body.outcome.value - 1) + [')'], Ok(2))
  }

  /** The siblings `tokenizeExpression` finds in `text`. */
  function Parts(text: seq<char>): seq<seq<char>>
    requires Tokenize(text).Ok?
  {
    Tokenize(text).value.0
  }

  /** The loop of `evaluateExpression` over the first `k` siblings of `text`: the calls appended
      and the number of values collected, or the first raise. */
  function EmitSiblings(text: seq<char>, k: nat): Emission
    requires Tokenize(text).Ok? && k <= |Parts(text)|
    decreases |text|, 1, k
  {
    if k == 0 then Emission([], Ok(0))
    else
      var before := EmitSiblings(text, k - 1);
      if before.outcome.Err? then before
      else
        TokenizeLengths(text);
        assert Parts(text)[k - 1] in Parts(text);
        var one := EmitSibling(Parts(text)[k - 1]);
        if one.outcome.Err? then Emission(before.calls + one.calls, one.outcome)
        else Emission(before.calls + one.calls, Ok(before.outcome.value + one.outcome.value))
  }

  /** One pass of that loop over the sibling `expression`: when it starts with a tag, the calls of
      its argument and then the tag, counting one value; otherwise nothing. Unwrapping a sibling
      whose brackets do not match, or reading the first symbol of an empty one, raises. */
  function EmitSibling(expression: seq<char>): Emission
    decreases |expression|, 0
  {
    var nested := Nested(expression);
    if nested.Err? then Emission([], Err(nested.error))
    else if |expression| == 0 then Emission([], Err(IndexError))
    else if IsTagChar(expression[0]) then
      NestedShorter(expression);
      var inner := Emit(nested.value);
      if inner.outcome.Err? then inner
      else Emission(inner.calls + [expression[0]], Ok(1))
    else Emission([], Ok(0))
  }

  /** One more sibling extends the calls by that sibling's calls and adds its count; a raise of
      that sibling is the raise of the loop. */
  lemma EmitSiblingsNext(text: seq<char>, i: nat, calls: seq<char>, count: int, one: Emission, r: Result<int>)
    requires Tokenize(text).Ok? && i < |Parts(text)|
    requires EmitSiblings(text, i) == Emission(calls, Ok(count))
    requires one == EmitSibling(Parts(text)[i]) && r == one.outcome
    ensures r.Err? ==> EmitSiblings(text, i + 1) == Emission(calls + one.calls, Err(r.error))
    ensures r.Ok? ==> EmitSiblings(text, i + 1) == Emission(calls + one.calls, Ok(count + r.value))
  {
  }

  /** Every sibling is at most as long as the text it was found in. */
  lemma PartShorter(text: seq<char>, i: nat)
    requires Tokenize(text).Ok? && i < |Parts(text)|
    ensures |Parts(text)[i]| <= |text|
  {
    TokenizeLengths(text);
    assert Parts(text)[i] in Parts(text);
  }

  /** Once the loop has raised, the later siblings are not read. */
  lemma {:induction false} EmitSiblingsRaised(text: seq<char>, k: nat, j: nat)
    requires Tokenize(text).Ok? && k <= j <= |Parts(text)|
    requires EmitSiblings(text, k).outcome.Err?
    ensures EmitSiblings(text, j) == EmitSiblings(text, k)
    decreases j
  {
    if k < j {
      EmitSiblingsRaised(text, k, j - 1);
    }
  }

  /** The calls an expression compiles to: a variable is a frame holding it; a node is a frame
      holding each sibling's argument followed by its tag, then one `*` fewer than it has
      siblings. */
  function Compile(e: Expr): seq<char> {
    match e
    case X => "(x)"
    case Y => "(y)"
    case Node(sibs) =>
      ['('] + Flatten(seq(|sibs|, i requires 0 <= i < |sibs| => Compile(sibs[i].arg) + [TagChar(sibs[i].tag)]))
      + Stars(if |sibs| == 0 then 0 else |sibs| - 1) + [')']
  }

  /** The calls of one sibling: its argument, then its tag. */
  function SiblingCalls(s: Sibling): seq<char> {
    Compile(s.arg) + [TagChar(s.tag)]
  }

  function Pieces(sibs: seq<Sibling>): seq<seq<char>> {
    seq(|sibs|, i requires 0 <= i < |sibs| => SiblingCalls(sibs[i]))
  }

  /** The lists in `pieces`, one after another. */
  function Flatten(pieces: seq<seq<char>>): seq<char> {
    if pieces == [] then [] else Flatten(pieces[..|pieces| - 1]) + pieces[|pieces| - 1]
  }

  lemma CompileNode(sibs: seq<Sibling>)
    requires |sibs| >= 1
    ensures Compile(Node(sibs)) == ['('] + Flatten(Pieces(sibs)) + Stars(|sibs| - 1) + [')']
  {
    assert Pieces(sibs) == seq(|sibs|, i requires 0 <= i < |sibs| => Compile(sibs[i].arg) + [TagChar(sibs[i].tag)]);
  }

  /** `evaluateExpression` on the text of a well-formed expression appends exactly its compiled
      calls and returns normally: 0 for `x`, 1 for `y`, 2 for a node. */
  lemma {:induction false} EmitRendered(e: Expr)
    requires Wellformed(e)
    ensures Emit(Render(e)) == Emission(Compile(e), Ok(if e.X? then 0 else if e.Y? then 1 else 2))
    decreases e, 2
  {
    TokenizeRendered(e);
    match e
    case X =>
    case Y =>
    case Node(sibs) =>
      EmitSiblingsRendered(e, |sibs|);
      assert Pieces(sibs)[..|sibs|] == Pieces(sibs);
      CompileNode(sibs);
  }

  /** The loop over the first `k` sibling texts of a node appends their compiled calls and counts
      `k` values. */
  lemma {:induction false} EmitSiblingsRendered(e: Expr, k: nat)
    requires Wellformed(e) && e.Node? && k <= |e.sibs|
    ensures Tokenize(Render(e)).Ok? && Parts(Render(e)) == Texts(e.sibs)
    ensures EmitSiblings(Render(e), k).calls == Flatten(Pieces(e.sibs)[..k])
    ensures EmitSiblings(Render(e), k).outcome == Ok(k)
    decreases e, 1, k
  {
    var sibs := e.sibs;
    TokenizeRendered(e);
    if k == 0 {
      assert Pieces(sibs)[..0] == [];
    } else {
      var n := k - 1;
      EmitSiblingsRendered(e, n);
      var s := sibs[n];
      assert Parts(Render(e))[n] == SiblingText(s);
      EmitSiblingText(s);
      EmitSiblingsNext(Render(e), n, Flatten(Pieces(sibs)[..n]), n, EmitSibling(SiblingText(s)), Ok(1));
      FlattenPieces(sibs, k);
    }
  }

  /** The text of one sibling emits the calls of its argument followed by its tag, and counts one
      value. */
  lemma {:induction false} EmitSiblingText(s: Sibling)
    requires Wellformed(s.arg)
    ensures EmitSibling(SiblingText(s)) == Emission(SiblingCalls(s), Ok(1))
    decreases s.arg, 3
  {
    NestedSibling(s);
    EmitRendered(s.arg);
  }

  lemma FlattenPieces(sibs: seq<Sibling>, k: nat)
    requires 1 <= k <= |sibs|
    ensures Flatten(Pieces(sibs)[..k]) == Flatten(Pieces(sibs)[..k - 1]) + SiblingCalls(sibs[k - 1])
  {
    assert Pieces(sibs)[..k][..k - 1] == Pieces(sibs)[..k - 1];
  }

  lemma Associative(a: seq<char>, b: seq<char>, c: seq<char>)
    ensures a + (b + c) == a + b + c
  {
  }

  // ---------------------------------------------------------------------------------------------
  // The module-level call lists

  /** `redFunctionCalls`, `greenFunctionCalls`, `blueFunctionCalls` and `currentFunctionCalls`. */
  class CallLists {
    var red: seq<char>
    var green: seq<char>
    var blue: seq<char>
    var current: seq<char>

    constructor ()
      ensures red == [] && green == [] && blue == [] && current == []
    {
      red, green, blue, current := [], [], [], [];
    }

    /** `evaluateExpression`: appends the calls of `parentExpression` to `current` and nothing
        else; a raise leaves behind what was appended before it. */
    method EvaluateExpression(parentExpression: seq<char>) returns (r: Result<int>)
      modifies this`current
      ensures current == old(current) + Emit(parentExpression).calls
      ensures r == Emit(parentExpression).outcome
      decreases |parentExpression|, 2
    {
      var tokens := TokenizeExpression(parentExpression);
      if tokens.Err? {
        return Err(tokens.error);
      }
      var expressions, operators := tokens.value.0, tokens.value.1;
      if |expressions| == 0 && |operators| == 0 {
        if |parentExpression| == 0 {
          return Err(IndexError);
        }
        if parentExpression[0] == 'x' {
          current := current + ['(', 'x', ')'];
          return Ok(0);
        } else if parentExpression[0] == 'y' {
          current := current + ['(', 'y', ')'];
          return Ok(1);
        }
      }
      current := current + ['('];
      ghost var framed := current;
      var values := EvaluateSiblings(parentExpression, expressions);
      ghost var body := EmitSiblings(parentExpression, |expressions|).calls;
      Associative(old(current), ['('], body);
      if values.Err? {
        return Err(values.error);
      }
      var count := values.value;
      if count <= 0 {
        return Err(IndexError);
      }
      var j := 1;
      while j < count
        invariant 1 <= j <= count
        invariant current == framed + body + Stars(j - 1)
      {
        current := current + ['*'];
        assert Stars(j - 1) + ['*'] == Stars(j);
        Associative(framed + body, Stars(j - 1), ['*']);
        j := j + 1;
      }
      current := current + [')'];
      Associative(old(current), ['('] + body, Stars(count - 1));
      Associative(old(current), ['('] + body + Stars(count - 1), [')']);
      return Ok(2);
    }

    /** The loop of `evaluateExpression` over the siblings `expressions` of `parentExpression`:
        returns how many values it collected. */
    method EvaluateSiblings(ghost parentExpression: seq<char>, expressions: seq<seq<char>>) returns (r: Result<int>)
      requires Tokenize(parentExpression).Ok? && expressions == Parts(parentExpression)
      modifies this`current
      ensures current == old(current) + EmitSiblings(parentExpression, |expressions|).calls
      ensures r == EmitSiblings(parentExpression, |expressions|).outcome
      decreases |parentExpression|, 1
    {
      var count := 0;
      var i := 0;
      while i < |expressions|
        invariant 0 <= i <= |expressions|
        invariant current == old(current) + EmitSiblings(parentExpression, i).calls
        invariant EmitSiblings(parentExpression, i).outcome == Ok(count)
      {
        PartShorter(parentExpression, i);
        ghost var sofar := EmitSiblings(parentExpression, i).calls;
        ghost var one := EmitSibling(expressions[i]);
        var values := EvaluateSibling(expressions[i]);
        Associative(old(current), sofar, one.calls);
        EmitSiblingsNext(parentExpression, i, sofar, count, one, values);
        if values.Err? {
          EmitSiblingsRaised(parentExpression, i + 1, |expressions|);
          return Err(values.error);
        }
        count := count + values.value;
        i := i + 1;
      }
      return Ok(count);
    }

    /** The body of the loop of `evaluateExpression` over one sibling `expression`: unwraps it
        and, when it starts with a tag, compiles the argument and appends the tag. Returns how
        many values the sibling adds to `values`. */
    method EvaluateSibling(expression: seq<char>) returns (r: Result<int>)
      modifies this`current
      ensures current == old(current) + EmitSibling(expression).calls
      ensures r == EmitSibling(expression).outcome
      decreases |expression|, 0
    {
      var nestedExpression := DetermineNestedExpression(expression);
      if nestedExpression.Err? {
        return Err(nestedExpression.error);
      }
      if |expression| == 0 {
        return Err(IndexError);
      }
      if IsTagChar(expression[0]) {
        NestedShorter(expression);
        var inner := EvaluateExpression(nestedExpression.value);
        if inner.Err? {
          return Err(inner.error);
        }
        current := current + [expression[0]];
        return Ok(1);
      }
      return Ok(0);
    }

    /** `convertToFunctionCalls`: `current` restarts empty and receives the calls of `expression`;
        the list of the named colour is emptied and, when no raise happens, receives them too.
        Any other colour name compiles nothing. */
    method ConvertToFunctionCalls(expression: seq<char>, color: seq<char>) returns (r: Result<()>)
      modifies this
      ensures var known := color == "r" || color == "g" || color == "b";
        current == (if known then Emit(expression).calls else []) &&
        r == (if known && Emit(expression).outcome.Err? then Err(Emit(expression).outcome.error) else Ok(()))
      ensures var compiled := if Emit(expression).outcome.Ok? then Emit(expression).calls else [];
        red == (if color == "r" then compiled else old(red)) &&
        green == (if color == "g" then compiled else old(green)) &&
        blue == (if color == "b" then compiled else old(blue))
    {
      current := [];
      r := Ok(());
      if color == "r" {
        red := [];
        var outcome := EvaluateExpression(expression);
        if outcome.Err? {
          return Err(outcome.error);
        }
        red := current;
      } else if color == "g" {
        green := [];
        var outcome := EvaluateExpression(expression);
        if outcome.Err? {
          return Err(outcome.error);
        }
        green := current;
      } else if color == "b" {
        blue := [];
        var outcome := EvaluateExpression(expression);
        if outcome.Err? {
          return Err(outcome.error);
        }
        blue := current;
      }
    }
  }
}
