/** The two bracket-depth scanners of the compiler: `tokenizeExpression`, which splits a text into
    its top-level siblings and operators, and `determineNestedExpression`, which strips a sibling's
    tag and outer brackets. */
module Scanner {
  import opened Wrappers
  import opened Brackets
  import opened Expressions

  /** `n` product operators. */
  function Stars(n: nat): seq<char> {
    seq(n, _ => '*')
  }

  // ---------------------------------------------------------------------------------------------
  // tokenizeExpression

  /** The loop state of `tokenizeExpression`: `finishedExpression`, the length of
      `parenthesisStack`, the sibling being collected and the two result lists. */
  datatype Tokenizer = Tokenizer(
    finished: bool,
    depth: nat,
    expression: seq<char>,
    expressions: seq<seq<char>>,
    operators: seq<char>)

  const TokenizerStart := Tokenizer(true, 0, [], [], [])

  /** One pass of the loop body over `symbol`; popping the empty bracket stack raises. */
  function TokenizeStep(st: Tokenizer, symbol: char): Result<Tokenizer> {
    var st1 :=
      if st.finished && symbol == '*' then st.(operators := st.operators + [symbol])
      else st.(expression := st.expression + [symbol]);
    var st2 :-
      if symbol == '(' then Ok(st1.(depth := st1.depth + 1, finished := false))
      else if symbol == ')' then
        (if st1.depth == 0 then Err(IndexError) else Ok(st1.(depth := st1.depth - 1)))
      else Ok(st1);
    if !st2.finished && st2.depth == 0 then
      Ok(st2.(finished := true, expressions := st2.expressions + [st2.expression], expression := []))
    else
      Ok(st2)
  }

  /** The loop run over `w` from state `st`. */
  function TokenizeScan(st: Tokenizer, w: seq<char>): Result<Tokenizer> {
    if w == [] then Ok(st)
    else
      var st' :- TokenizeScan(st, w[..|w| - 1]);
      TokenizeStep(st', w[|w| - 1])
  }

  /** What `tokenizeExpression` returns: the top-level siblings and the top-level operators. */
  function Tokenize(text: seq<char>): Result<(seq<seq<char>>, seq<char>)> {
    var st :- TokenizeScan(TokenizerStart, text);
    Ok((st.expressions, st.operators))
  }

  method TokenizeExpression(parentExpression: seq<char>) returns (r: Result<(seq<seq<char>>, seq<char>)>)
    ensures r == Tokenize(parentExpression)
  {
    var expressions: seq<seq<char>> := [];
    var operators: seq<char> := [];
    var finishedExpression := true;
    var parenthesisStack: seq<int> := [];
    var expression: seq<char> := [];
    var i := 0;
    while i < |parentExpression|
      invariant 0 <= i <= |parentExpression|
      invariant TokenizeScan(TokenizerStart, parentExpression[..i]) ==
        Ok(Tokenizer(finishedExpression, |parenthesisStack|, expression, expressions, operators))
    {
      var symbol := parentExpression[i];
      assert parentExpression[..i + 1][..i] == parentExpression[..i];
      if finishedExpression && symbol == '*' {
        operators := operators + [symbol];
      } else {
        expression := expression + [symbol];
      }
      if symbol == '(' {
        parenthesisStack := parenthesisStack + [1];
        finishedExpression := false;
      } else if symbol == ')' {
        if |parenthesisStack| == 0 {
          TokenizeScanAppend(TokenizerStart, parentExpression[..i + 1], parentExpression[i + 1..]);
          assert parentExpression[..i + 1] + parentExpression[i + 1..] == parentExpression;
          return Err(IndexError);
        }
        parenthesisStack := parenthesisStack[..|parenthesisStack| - 1];
      }
      if !finishedExpression && |parenthesisStack| == 0 {
        finishedExpression := true;
        expressions := expressions + [expression];
        expression := [];
      }
      i := i + 1;
    }
    assert parentExpression[..i] == parentExpression;
    r := Ok((expressions, operators));
  }

  /** Scanning a concatenation is scanning its halves in turn; a raise stays raised. */
  lemma {:induction false} TokenizeScanAppend(st: Tokenizer, u: seq<char>, v: seq<char>)
    ensures TokenizeScan(st, u + v) ==
      match TokenizeScan(st, u)
      case Ok(mid) => TokenizeScan(mid, v)
      case Err(e) => Err(e)
  {
    if v == [] {
      assert u + v == u;
    } else {
      assert (u + v)[..|u + v| - 1] == u + v[..|v| - 1];
      assert (u + v)[|u + v| - 1] == v[|v| - 1];
      TokenizeScanAppend(st, u, v[..|v| - 1]);
    }
  }

  /** Inside brackets every symbol, `*` included, joins the sibling being collected, and the
      sibling does not end while the depth stays positive. */
  lemma {:induction false} TokenizeInside(st: Tokenizer, w: seq<char>)
    requires !st.finished && st.depth >= 1 && NeverNegative(w)
    ensures st.depth + Depth(w) >= 1
    ensures TokenizeScan(st, w) == Ok(st.(depth := st.depth + Depth(w), expression := st.expression + w))
  {
    if w == [] {
      assert st.expression + w == st.expression;
    } else {
      var n := |w| - 1;
      NeverNegativeSnoc(w[..n], w[n]);
      assert w[..n] + [w[n]] == w;
      TokenizeInside(st, w[..n]);
      assert st.expression + w[..n] + [w[n]] == st.expression + w;
    }
  }

  /** A sibling `T(a)` read at depth 0 is collected whole and ends the moment its closing bracket
      brings the depth back to 0. */
  lemma TokenizeSibling(st: Tokenizer, t: char, a: seq<char>)
    requires st.finished && st.depth == 0 && st.expression == []
    requires PlainSymbol(t) && Balanced(a)
    ensures TokenizeScan(st, [t, '('] + a + [')']) ==
      Ok(st.(expressions := st.expressions + [[t, '('] + a + [')']]))
  {
    var w := [t, '('] + a + [')'];
    assert w[..|w| - 1] == [t, '('] + a;
    assert [t, '('][..1] == [t];
    assert [t][..0] == [];
    var tagged := st.(expression := [t]);
    assert TokenizeStep(st, t).Ok? && TokenizeStep(st, t).value == tagged;
    assert TokenizeScan(st, [t]) == Ok(tagged);
    var open := st.(expression := [t, '('], depth := 1, finished := false);
    assert TokenizeStep(tagged, '(').Ok? && TokenizeStep(tagged, '(').value == open;
    assert TokenizeScan(st, [t, '(']) == Ok(open);
    TokenizeScanAppend(st, [t, '('], a);
    TokenizeInside(open, a);
  }

  /** A sibling text `T(a)`: a non-bracket tag, then one balanced bracketed argument. */
  predicate BracketedArgument(p: seq<char>) {
    |p| >= 3 && PlainSymbol(p[0]) && p[1] == '(' && p[|p| - 1] == ')' && Balanced(p[2..|p| - 1])
  }

  /** Siblings `T1(a1)*...*Tk(ak)` split into exactly those k siblings and k-1 operators. */
  lemma {:induction false} TokenizeJoin(st: Tokenizer, parts: seq<seq<char>>)
    requires st.finished && st.depth == 0 && st.expression == []
    requires |parts| >= 1 && forall i :: 0 <= i < |parts| ==> BracketedArgument(parts[i])
    ensures TokenizeScan(st, Join(parts)) ==
      Ok(st.(expressions := st.expressions + parts, operators := st.operators + Stars(|parts| - 1)))
    decreases |parts|
  {
    var p := parts[0];
    var target := st.(expressions := st.expressions + parts, operators := st.operators + Stars(|parts| - 1));
    if |parts| == 1 {
      TokenizeBracketed(st, p);
      assert Join(parts) == p;
      assert st.operators + Stars(0) == st.operators;
      assert st.expressions + [p] == st.expressions + parts;
      assert st.(expressions := st.expressions + [p]) == target;
    } else {
      var rest := parts[1..];
      var st2 := st.(expressions := st.expressions + [p], operators := st.operators + ['*']);
      TokenizeJoin(st2, rest);
      TokenizeJoinStep(st, p, rest);
      assert Join(parts) == p + ['*'] + Join(rest);
      assert [p] + rest == parts;
      assert st.(expressions := st.expressions + ([p] + rest), operators := st.operators + Stars(|rest|)) == target;
    }
  }

  /** One sibling and one operator in front of a joined tail. */
  lemma TokenizeJoinStep(st: Tokenizer, p: seq<char>, rest: seq<seq<char>>)
    requires st.finished && st.depth == 0 && st.expression == []
    requires BracketedArgument(p) && |rest| >= 1
    requires var st2 := st.(expressions := st.expressions + [p], operators := st.operators + ['*']);
      TokenizeScan(st2, Join(rest)) ==
        Ok(st2.(expressions := st2.expressions + rest, operators := st2.operators + Stars(|rest| - 1)))
    ensures TokenizeScan(st, p + ['*'] + Join(rest)) ==
      Ok(st.(expressions := st.expressions + ([p] + rest), operators := st.operators + Stars(|rest|)))
  {
    TokenizeSiblingStar(st, p);
    TokenizeScanAppend(st, p + ['*'], Join(rest));
    JoinTarget(st, p, rest);
  }

  /** A sibling followed by `*` at depth 0: the sibling is collected and the `*` is an operator. */
  lemma TokenizeSiblingStar(st: Tokenizer, p: seq<char>)
    requires st.finished && st.depth == 0 && st.expression == []
    requires BracketedArgument(p)
    ensures TokenizeScan(st, p + ['*']) ==
      Ok(st.(expressions := st.expressions + [p], operators := st.operators + ['*']))
  {
    TokenizeBracketed(st, p);
    TokenizeScanAppend(st, p, ['*']);
    TokenizeStar(st.(expressions := st.expressions + [p]));
  }

  lemma JoinTarget(st: Tokenizer, p: seq<char>, rest: seq<seq<char>>)
    requires |rest| >= 1
    ensures var st2 := st.(expressions := st.expressions + [p], operators := st.operators + ['*']);
      st2.(expressions := st2.expressions + rest, operators := st2.operators + Stars(|rest| - 1)) ==
        st.(expressions := st.expressions + ([p] + rest), operators := st.operators + Stars(|rest|))
  {
    assert st.expressions + [p] + rest == st.expressions + ([p] + rest);
    StarsCons(|rest| - 1);
    assert st.operators + ['*'] + Stars(|rest| - 1) == st.operators + (['*'] + Stars(|rest| - 1));
  }

  lemma StarsCons(n: nat)
    ensures ['*'] + Stars(n) == Stars(n + 1)
  {
  }

  lemma TokenizeBracketed(st: Tokenizer, p: seq<char>)
    requires st.finished && st.depth == 0 && st.expression == []
    requires BracketedArgument(p)
    ensures TokenizeScan(st, p) == Ok(st.(expressions := st.expressions + [p]))
  {
    assert p == [p[0], '('] + p[2..|p| - 1] + [')'];
    TokenizeSibling(st, p[0], p[2..|p| - 1]);
  }

  /** A `*` between siblings is an operator. */
  lemma TokenizeStar(st: Tokenizer)
    requires st.finished && st.depth == 0
    ensures TokenizeScan(st, ['*']) == Ok(st.(operators := st.operators + ['*']))
  {
    assert ['*'][..0] == [];
    var st' := st.(operators := st.operators + ['*']);
    assert TokenizeStep(st, '*').Ok? && TokenizeStep(st, '*').value == st';
  }

  /** `tokenizeExpression` on the text of an expression: a variable has no siblings and no
      operators; a node yields the texts of its k siblings and k-1 operators `*`. */
  lemma TokenizeRendered(e: Expr)
    requires Wellformed(e)
    ensures !e.Node? ==> Tokenize(Render(e)) == Ok(([], []))
    ensures e.Node? ==> Tokenize(Render(e)) == Ok((Texts(e.sibs), Stars(|e.sibs| - 1)))
  {
    match e
    case X =>
      assert "x"[..0] == [];
    case Y =>
      assert "y"[..0] == [];
    case Node(sibs) =>
      RenderNode(sibs);
      TokenizeTexts(sibs);
  }

  lemma TokenizeTexts(sibs: seq<Sibling>)
    requires |sibs| >= 1
    ensures Tokenize(Join(Texts(sibs))) == Ok((Texts(sibs), Stars(|sibs| - 1)))
  {
    TextsBracketed(sibs);
    TokenizeJoined(Texts(sibs));
  }

  /** `tokenizeExpression` of siblings `T1(a1)*...*Tk(ak)` returns those k siblings and k-1
      operators. */
  lemma TokenizeJoined(parts: seq<seq<char>>)
    requires |parts| >= 1 && forall i :: 0 <= i < |parts| ==> BracketedArgument(parts[i])
    ensures Tokenize(Join(parts)) == Ok((parts, Stars(|parts| - 1)))
  {
    var ops := Stars(|parts| - 1);
    TokenizeJoin(TokenizerStart, parts);
    assert [] + parts == parts && [] + ops == ops;
  }

  /** Each sibling text is a tag followed by one balanced bracketed argument. */
  lemma TextsBracketed(sibs: seq<Sibling>)
    ensures forall i :: 0 <= i < |sibs| ==> BracketedArgument(Texts(sibs)[i])
  {
    forall i | 0 <= i < |sibs|
      ensures BracketedArgument(Texts(sibs)[i])
    {
      var p := Texts(sibs)[i];
      RenderBalanced(sibs[i].arg);
      assert p[2..|p| - 1] == Render(sibs[i].arg);
    }
  }

  /** `tokenizeExpression` raises exactly when some prefix closes more brackets than it opened;
      otherwise its bracket stack holds the depth, and a sibling is open exactly when it is positive. */
  lemma {:induction false} TokenizeScanDepth(w: seq<char>)
    ensures TokenizeScan(TokenizerStart, w).Ok? <==> NeverNegative(w)
    ensures TokenizeScan(TokenizerStart, w).Ok? ==>
      var st := TokenizeScan(TokenizerStart, w).value;
      st.depth == Depth(w) && (st.finished <==> st.depth == 0)
  {
    if w == [] {
      assert w[..0] == w;
    } else {
      var n := |w| - 1;
      NeverNegativeSnoc(w[..n], w[n]);
      assert w[..n] + [w[n]] == w;
      TokenizeScanDepth(w[..n]);
    }
  }

  lemma TokenizeSucceeds(text: seq<char>)
    ensures Tokenize(text).Ok? <==> NeverNegative(text)
  {
    TokenizeScanDepth(text);
  }

  /** No sibling `tokenizeExpression` returns is longer than its input. */
  lemma {:induction false} TokenizeScanLengths(w: seq<char>)
    ensures TokenizeScan(TokenizerStart, w).Ok? ==>
      var st := TokenizeScan(TokenizerStart, w).value;
      |st.expression| <= |w| && forall p :: p in st.expressions ==> |p| <= |w|
  {
    if w != [] {
      TokenizeScanLengths(w[..|w| - 1]);
    }
  }

  lemma TokenizeLengths(text: seq<char>)
    ensures Tokenize(text).Ok? ==> forall p :: p in Tokenize(text).value.0 ==> |p| <= |text|
  {
    TokenizeScanLengths(text);
  }

  // ---------------------------------------------------------------------------------------------
  // determineNestedExpression

  /** The loop state of `determineNestedExpression`: the length of `parenthesisStack` and the
      symbols kept so far. */
  datatype Nester = Nester(depth: nat, nested: seq<char>)

  /** One pass of the loop body: the opening bracket that reaches depth 1 is skipped, every other
      symbol is kept when the depth after it is positive. */
  function NestStep(st: Nester, symbol: char): Result<Nester> {
    if symbol == '(' then
      if st.depth + 1 == 1 then Ok(Nester(1, st.nested))
      else Ok(Nester(st.depth + 1, st.nested + [symbol]))
    else if symbol == ')' then
      if st.depth == 0 then Err(IndexError)
      else Ok(Nester(st.depth - 1, if st.depth - 1 > 0 then st.nested + [symbol] else st.nested))
    else
      Ok(Nester(st.depth, if st.depth > 0 then st.nested + [symbol] else st.nested))
  }

  function NestScan(st: Nester, w: seq<char>): Result<Nester> {
    if w == [] then Ok(st)
    else
      var st' :- NestScan(st, w[..|w| - 1]);
      NestStep(st', w[|w| - 1])
  }

  /** What `determineNestedExpression` returns. */
  function Nested(expression: seq<char>): Result<seq<char>> {
    var st :- NestScan(Nester(0, []), expression);
    Ok(st.nested)
  }

  method DetermineNestedExpression(expression: seq<char>) returns (r: Result<seq<char>>)
    ensures r == Nested(expression)
  {
    var nestedExpression: seq<char> := [];
    var parenthesisStack: seq<int> := [];
    var i := 0;
    while i < |expression|
      invariant 0 <= i <= |expression|
      invariant NestScan(Nester(0, []), expression[..i]) == Ok(Nester(|parenthesisStack|, nestedExpression))
    {
      var symbol := expression[i];
      assert expression[..i + 1][..i] == expression[..i];
      i := i + 1;
      if symbol == '(' {
        parenthesisStack := parenthesisStack + [1];
        if |parenthesisStack| == 1 {
          continue;
        }
      } else if symbol == ')' {
        if |parenthesisStack| == 0 {
          NestScanAppend(Nester(0, []), expression[..i], expression[i..]);
          assert expression[..i] + expression[i..] == expression;
          return Err(IndexError);
        }
        parenthesisStack := parenthesisStack[..|parenthesisStack| - 1];
      }
      if |parenthesisStack| > 0 {
        nestedExpression := nestedExpression + [symbol];
      }
    }
    assert expression[..i] == expression;
    r := Ok(nestedExpression);
  }

  lemma {:induction false} NestScanAppend(st: Nester, u: seq<char>, v: seq<char>)
    ensures NestScan(st, u + v) ==
      match NestScan(st, u)
      case Ok(mid) => NestScan(mid, v)
      case Err(e) => Err(e)
  {
    if v == [] {
      assert u + v == u;
    } else {
      assert (u + v)[..|u + v| - 1] == u + v[..|v| - 1];
      assert (u + v)[|u + v| - 1] == v[|v| - 1];
      NestScanAppend(st, u, v[..|v| - 1]);
    }
  }

  /** Inside the outer brackets every symbol is kept. */
  lemma {:induction false} NestInside(st: Nester, w: seq<char>)
    requires st.depth >= 1 && NeverNegative(w)
    ensures st.depth + Depth(w) >= 1
    ensures NestScan(st, w) == Ok(Nester(st.depth + Depth(w), st.nested + w))
  {
    if w == [] {
      assert st.nested + w == st.nested;
    } else {
      var n := |w| - 1;
      NeverNegativeSnoc(w[..n], w[n]);
      assert w[..n] + [w[n]] == w;
      NestInside(st, w[..n]);
      assert st.nested + w[..n] + [w[n]] == st.nested + w;
    }
  }

  /** Symbols outside all brackets are dropped. */
  lemma {:induction false} NestOutside(st: Nester, w: seq<char>)
    requires st.depth == 0 && '(' !in w && ')' !in w
    ensures NestScan(st, w) == Ok(st)
  {
    if w != [] {
      NestOutside(st, w[..|w| - 1]);
    }
  }

  /** `determineNestedExpression` of `u(a)v`, with `a` balanced and no brackets in `u` or `v`, is
      exactly `a`: the depth-0 symbols and the outermost bracket pair are dropped. */
  lemma NestedOfBracketed(u: seq<char>, a: seq<char>, v: seq<char>)
    requires '(' !in u && ')' !in u && '(' !in v && ')' !in v && Balanced(a)
    ensures Nested(u + ['('] + a + [')'] + v) == Ok(a)
  {
    var start := Nester(0, []);
    NestOutside(start, u);
    NestScanAppend(start, u, ['(']);
    assert ['('][..0] == [];
    assert NestScan(start, u + ['(']) == Ok(Nester(1, []));
    NestScanAppend(start, u + ['('], a);
    NestInside(Nester(1, []), a);
    assert [] + a == a;
    assert NestScan(start, u + ['('] + a) == Ok(Nester(1, a));
    NestScanAppend(start, u + ['('] + a, [')']);
    assert [')'][..0] == [];
    assert NestScan(start, u + ['('] + a + [')']) == Ok(Nester(0, a));
    NestScanAppend(start, u + ['('] + a + [')'], v);
    NestOutside(Nester(0, a), v);
  }

  /** A sibling's text yields its argument's text. */
  lemma NestedSibling(s: Sibling)
    ensures Nested(SiblingText(s)) == Ok(Render(s.arg))
  {
    RenderBalanced(s.arg);
    NestedOfBracketed([TagChar(s.tag)], Render(s.arg), []);
    assert [TagChar(s.tag)] + ['('] + Render(s.arg) + [')'] + [] == SiblingText(s);
  }

  /** `determineNestedExpression` raises exactly when some prefix closes more brackets than it
      opened. */
  lemma {:induction false} NestScanDepth(w: seq<char>)
    ensures NestScan(Nester(0, []), w).Ok? <==> NeverNegative(w)
    ensures NestScan(Nester(0, []), w).Ok? ==> NestScan(Nester(0, []), w).value.depth == Depth(w)
  {
    if w == [] {
      assert w[..0] == w;
    } else {
      var n := |w| - 1;
      NeverNegativeSnoc(w[..n], w[n]);
      assert w[..n] + [w[n]] == w;
      NestScanDepth(w[..n]);
    }
  }

  lemma NestedSucceeds(expression: seq<char>)
    ensures Nested(expression).Ok? <==> NeverNegative(expression)
  {
    NestScanDepth(expression);
  }

  /** Each symbol adds at most one symbol to the result. */
  lemma {:induction false} NestScanGrowth(st: Nester, w: seq<char>)
    ensures NestScan(st, w).Ok? ==> |NestScan(st, w).value.nested| <= |st.nested| + |w|
  {
    if w != [] {
      NestScanGrowth(st, w[..|w| - 1]);
    }
  }

  /** The first symbol is never kept, so the nested expression of a non-empty expression is
      strictly shorter: it is either the bracket that opens depth 1 or a symbol at depth 0. */
  lemma NestedShorter(expression: seq<char>)
    requires |expression| > 0
    ensures Nested(expression).Ok? ==> |Nested(expression).value| < |expression|
  {
    var start := Nester(0, []);
    var first, rest := [expression[0]], expression[1..];
    assert first + rest == expression;
    assert first[..0] == [];
    NestScanAppend(start, first, rest);
    if NestScan(start, first).Ok? {
      NestScanGrowth(NestScan(start, first).value, rest);
    }
  }
}
