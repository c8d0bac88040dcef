/** The textual expressions that `buildExpression` generates, and the tree they encode. */
module Expressions {
  import opened Brackets

  /** The one-letter function tags: s = sin(pi v), c = cos(pi v), t = tan(pi v), l = ln v. */
  datatype Tag = S | C | T | L

  function TagChar(t: Tag): char {
    match t
    case S => 's'
    case C => 'c'
    case T => 't'
    case L => 'l'
  }

  predicate IsTagChar(ch: char) {
    ch == 's' || ch == 'c' || ch == 't' || ch == 'l'
  }

  /** A tag letter is never a bracket or the product operator. */
  predicate PlainSymbol(ch: char) {
    ch != '(' && ch != ')' && ch != '*'
  }

  /** An expression: a variable, or a node whose top-level siblings `T(E)` are multiplied together. */
  datatype Expr = X | Y | Node(sibs: seq<Sibling>)
  datatype Sibling = Sibling(tag: Tag, arg: Expr)

  /** Every node has at least one sibling. */
  predicate Wellformed(e: Expr) {
    match e
    case X => true
    case Y => true
    case Node(sibs) => |sibs| >= 1 && forall i :: 0 <= i < |sibs| ==> Wellformed(sibs[i].arg)
  }

  /** The shapes `buildExpression` produces: one tagged argument, or a product of exactly two
      arguments tagged with s, c or t. */
  predicate Generable(e: Expr) {
    match e
    case X => true
    case Y => true
    case Node(sibs) =>
      (|sibs| == 1 || (|sibs| == 2 && sibs[0].tag != L && sibs[1].tag != L)) &&
      forall i :: 0 <= i < |sibs| ==> Generable(sibs[i].arg)
  }

  /** Top-level siblings joined by the product operator. */
  function Join(parts: seq<seq<char>>): seq<char> {
    if |parts| == 0 then []
    else if |parts| == 1 then parts[0]
    else parts[0] + ['*'] + Join(parts[1..])
  }

  /** The text of an expression: variables as `x`/`y`, siblings as `T(E)` joined by `*`. */
  function Render(e: Expr): seq<char> {
    match e
    case X => "x"
    case Y => "y"
    case Node(sibs) => Join(seq(|sibs|, i requires 0 <= i < |sibs| => SiblingText(sibs[i])))
  }

  function SiblingText(s: Sibling): seq<char> {
    [TagChar(s.tag), '('] + Render(s.arg) + [')']
  }

  function Texts(sibs: seq<Sibling>): seq<seq<char>> {
    seq(|sibs|, i requires 0 <= i < |sibs| => SiblingText(sibs[i]))
  }

  lemma RenderNode(sibs: seq<Sibling>)
    ensures Render(Node(sibs)) == Join(Texts(sibs))
  {
    assert Texts(sibs) == seq(|sibs|, i requires 0 <= i < |sibs| => SiblingText(sibs[i]));
  }

  /** The text of every expression, and so of every `buildExpression` result, is balanced. */
  lemma {:induction false} RenderBalanced(e: Expr)
    ensures Balanced(Render(e))
  {
    match e
    case X =>
      assert "x"[..0] == [] && "x"[..1] == "x";
      assert Depth("x") == Depth([]) + Delta('x');
    case Y =>
      assert "y"[..0] == [] && "y"[..1] == "y";
      assert Depth("y") == Depth([]) + Delta('y');
    case Node(sibs) =>
      RenderNode(sibs);
      var parts := Texts(sibs);
      forall i | 0 <= i < |parts|
        ensures Balanced(parts[i])
      {
        RenderBalanced(sibs[i].arg);
        WrapBalanced(TagChar(sibs[i].tag), Render(sibs[i].arg));
      }
      JoinBalanced(parts);
  }

  lemma {:induction false} JoinBalanced(parts: seq<seq<char>>)
    requires forall i :: 0 <= i < |parts| ==> Balanced(parts[i])
    ensures Balanced(Join(parts))
  {
    if |parts| == 0 {
      var empty: seq<char> := [];
      assert empty[..0] == empty;
    } else if |parts| >= 2 {
      JoinBalanced(parts[1..]);
      NeverNegativeStep(parts[0], '*');
      NeverNegativeConcat(parts[0] + ['*'], Join(parts[1..]));
    }
  }

  /** The random draws of one `buildExpression` call: whether it stopped at a variable, and which
      alternative `random.choice` picked. The two tags of a product are drawn from s, c and t. */
  datatype Draw =
    | Variable(pickY: bool)
    | Wrap(tag: Tag, inner: Draw)
    | Product(first: Tag, second: Tag, left: Draw, right: Draw)

  /** The draws `buildExpression` can make: a product never has an `l` factor. */
  predicate ValidDraw(d: Draw) {
    match d
    case Variable(_) => true
    case Wrap(_, inner) => ValidDraw(inner)
    case Product(t1, t2, left, right) => t1 != L && t2 != L && ValidDraw(left) && ValidDraw(right)
  }

  /** The string `buildExpression` returns for the draws `d`. */
  function BuildExpression(d: Draw): seq<char> {
    match d
    case Variable(pickY) => if pickY then "y" else "x"
    case Wrap(t, inner) => [TagChar(t)] + "(" + BuildExpression(inner) + ")"
    case Product(t1, t2, left, right) =>
      [TagChar(t1)] + "(" + BuildExpression(left) + ")*" + [TagChar(t2)] + "(" + BuildExpression(right) + ")"
  }

  /** The expression tree the draws describe. */
  function ToExpr(d: Draw): Expr {
    match d
    case Variable(pickY) => if pickY then Y else X
    case Wrap(t, inner) => Node([Sibling(t, ToExpr(inner))])
    case Product(t1, t2, left, right) => Node([Sibling(t1, ToExpr(left)), Sibling(t2, ToExpr(right))])
  }

  /** What `buildExpression` returns is the text of the expression tree its draws describe. */
  lemma {:induction false} BuildExpressionRenders(d: Draw)
    ensures BuildExpression(d) == Render(ToExpr(d))
  {
    match d
    case Variable(_) =>
    case Wrap(t, inner) =>
      BuildExpressionRenders(inner);
      WrapRenders(t, inner);
    case Product(t1, t2, left, right) =>
      BuildExpressionRenders(left);
      BuildExpressionRenders(right);
      ProductRenders(t1, t2, left, right);
  }

  lemma WrapRenders(t: Tag, inner: Draw)
    requires BuildExpression(inner) == Render(ToExpr(inner))
    ensures BuildExpression(Wrap(t, inner)) == Render(ToExpr(Wrap(t, inner)))
  {
    RenderSingle(Sibling(t, ToExpr(inner)));
    assert [TagChar(t)] + "(" == [TagChar(t), '('];
  }

  lemma RenderSingle(s0: Sibling)
    ensures Render(Node([s0])) == SiblingText(s0)
  {
    RenderNode([s0]);
    assert Texts([s0]) == [SiblingText(s0)];
  }

  lemma ProductRenders(t1: Tag, t2: Tag, left: Draw, right: Draw)
    requires BuildExpression(left) == Render(ToExpr(left))
    requires BuildExpression(right) == Render(ToExpr(right))
    ensures BuildExpression(Product(t1, t2, left, right)) == Render(ToExpr(Product(t1, t2, left, right)))
  {
    RenderPair(Sibling(t1, ToExpr(left)), Sibling(t2, ToExpr(right)));
    ProductText(TagChar(t1), BuildExpression(left), TagChar(t2), BuildExpression(right));
  }

  lemma RenderPair(s0: Sibling, s1: Sibling)
    ensures Render(Node([s0, s1])) == SiblingText(s0) + ['*'] + SiblingText(s1)
  {
    var sibs := [s0, s1];
    RenderNode(sibs);
    assert Texts(sibs) == [SiblingText(s0), SiblingText(s1)];
    JoinTwo(SiblingText(s0), SiblingText(s1));
  }

  /** The product text `buildExpression` assembles is its two sibling texts joined by `*`. */
  lemma ProductText(c1: char, left: seq<char>, c2: char, right: seq<char>)
    ensures [c1] + "(" + left + ")*" + [c2] + "(" + right + ")" ==
      ([c1, '('] + left + [')']) + ['*'] + ([c2, '('] + right + [')'])
  {
    var a := [c1, '('] + left + [')'];
    assert [c1] + "(" == [c1, '('];
    assert [c1] + "(" + left + ")*" == a + ['*'];
    assert [c1] + "(" + left + ")*" + [c2] + "(" == a + ['*'] + [c2, '('];
    assert [c1] + "(" + left + ")*" + [c2] + "(" + right == a + ['*'] + ([c2, '('] + right);
  }

  lemma JoinTwo(a: seq<char>, b: seq<char>)
    ensures Join([a, b]) == a + ['*'] + b
  {
    assert [a, b][1..] == [b];
  }

  /** The draws `buildExpression` can make are exactly those of generable, well-formed trees. */
  lemma {:induction false} DrawGenerable(d: Draw)
    ensures ValidDraw(d) <==> Generable(ToExpr(d))
    ensures Wellformed(ToExpr(d))
  {
    match d
    case Variable(_) =>
    case Wrap(t, inner) =>
      DrawGenerable(inner);
      var sibs := ToExpr(d).sibs;
      assert sibs == [Sibling(t, ToExpr(inner))] && sibs[0].arg == ToExpr(inner);
    case Product(t1, t2, left, right) =>
      DrawGenerable(left);
      DrawGenerable(right);
  }

  /** Every generable expression tree is the tree of some valid draws, so the strings
      `buildExpression` can return are exactly the texts of generable trees. */
  lemma {:induction false} GenerableIsDrawn(e: Expr)
    requires Generable(e)
    ensures exists d :: ValidDraw(d) && ToExpr(d) == e
  {
    match e
    case X => assert ToExpr(Variable(false)) == e;
    case Y => assert ToExpr(Variable(true)) == e;
    case Node(sibs) =>
      GenerableIsDrawn(sibs[0].arg);
      var d0 :| ValidDraw(d0) && ToExpr(d0) == sibs[0].arg;
      if |sibs| == 1 {
        assert ToExpr(Wrap(sibs[0].tag, d0)) == e;
      } else {
        GenerableIsDrawn(sibs[1].arg);
        var d1 :| ValidDraw(d1) && ToExpr(d1) == sibs[1].arg;
        assert ToExpr(Product(sibs[0].tag, sibs[1].tag, d0, d1)) == e;
      }
  }

  /** The three shapes of a `buildExpression` result, each balanced: a variable; a tag from
      s, c, t, l around one balanced argument; or two s/c/t-tagged balanced arguments joined by `*`. */
  lemma BuildExpressionShape(d: Draw)
    requires ValidDraw(d)
    ensures Balanced(BuildExpression(d))
    ensures d.Variable? ==> BuildExpression(d) in {"x", "y"}
    ensures d.Wrap? ==> WrappedShape(BuildExpression(d))
    ensures d.Product? ==> ProductShape(BuildExpression(d))
  {
    assert Balanced(BuildExpression(d)) by {
      BuildExpressionRenders(d);
      RenderBalanced(ToExpr(d));
    }
    match d
    case Variable(_) =>
    case Wrap(t, inner) =>
      DrawnArgument(inner);
      WrappedShapeOf(TagChar(t), BuildExpression(inner));
    case Product(t1, t2, left, right) =>
      DrawnArgument(left);
      DrawnArgument(right);
      ProductShapeOf(TagChar(t1), BuildExpression(left), TagChar(t2), BuildExpression(right));
  }

  /** The argument text of a valid draw is non-empty and balanced. */
  lemma DrawnArgument(d: Draw)
    ensures |BuildExpression(d)| >= 1 && Balanced(BuildExpression(d))
  {
    BuildExpressionRenders(d);
    RenderBalanced(ToExpr(d));
    DrawGenerable(d);
    RenderNonEmpty(ToExpr(d));
  }

  /** `T(a)`: a tag from s, c, t, l, then one balanced bracketed argument. */
  predicate WrappedShape(s: seq<char>) {
    |s| >= 4 && s[0] in "sctl" && s[1] == '(' && s[|s| - 1] == ')' && Balanced(s[2..|s| - 1])
  }

  /** `T1(a)*T2(b)`: two s/c/t-tagged balanced bracketed arguments joined by one `*`. */
  predicate ProductShape(s: seq<char>) {
    exists k :: 4 <= k < |s| - 4 && ProductSplit(s, k)
  }

  predicate ProductSplit(s: seq<char>, k: int)
    requires 4 <= k < |s| - 4
  {
    s[0] in "sct" && s[1] == '(' && Balanced(s[2..k - 1]) && s[k - 1] == ')' &&
    s[k] == '*' &&
    s[k + 1] in "sct" && s[k + 2] == '(' && Balanced(s[k + 3..|s| - 1]) && s[|s| - 1] == ')'
  }

  lemma WrappedShapeOf(t: char, a: seq<char>)
    requires t in "sctl" && |a| >= 1 && Balanced(a)
    ensures WrappedShape([t] + "(" + a + ")")
  {
    var s := [t] + "(" + a + ")";
    assert s[2..|s| - 1] == a;
  }

  lemma ProductShapeOf(t1: char, a: seq<char>, t2: char, b: seq<char>)
    requires t1 in "sct" && t2 in "sct" && |a| >= 1 && |b| >= 1 && Balanced(a) && Balanced(b)
    ensures ProductShape([t1] + "(" + a + ")*" + [t2] + "(" + b + ")")
  {
    var s := [t1] + "(" + a + ")*" + [t2] + "(" + b + ")";
    var k := |a| + 3;
    assert s[2..k - 1] == a;
    assert s[k + 3..|s| - 1] == b;
    assert ProductSplit(s, k);
  }

  lemma {:induction false} RenderNonEmpty(e: Expr)
    requires Wellformed(e)
    ensures |Render(e)| >= 1
  {
    match e
    case X =>
    case Y =>
    case Node(sibs) =>
      RenderNode(sibs);
      JoinNonEmpty(Texts(sibs));
  }

  lemma {:induction false} JoinNonEmpty(parts: seq<seq<char>>)
    requires |parts| >= 1 && |parts[0]| >= 1
    ensures |Join(parts)| >= |parts[0]|
  {
  }
}
