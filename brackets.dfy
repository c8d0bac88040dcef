/** Bracket depth of a symbol sequence, shared by the expression text and the compiled calls. */
module Brackets {

  function Delta(ch: char): int {
    if ch == '(' then 1 else if ch == ')' then -1 else 0
  }

  /** Opening brackets minus closing brackets. */
  function Depth(w: seq<char>): int {
    if w == [] then 0 else Depth(w[..|w| - 1]) + Delta(w[|w| - 1])
  }

  /** No prefix closes more brackets than it opened. */
  predicate NeverNegative(w: seq<char>) {
    forall i :: 0 <= i <= |w| ==> Depth(w[..i]) >= 0
  }

  /** Every opening bracket has its closing bracket, and no closing bracket comes first. */
  predicate Balanced(w: seq<char>) {
    NeverNegative(w) && Depth(w) == 0
  }

  lemma {:induction false} DepthAppend(u: seq<char>, v: seq<char>)
    ensures Depth(u + v) == Depth(u) + Depth(v)
  {
    if v == [] {
      assert u + v == u;
    } else {
      var n := |v| - 1;
      assert (u + v)[..|u + v| - 1] == u + v[..n];
      assert (u + v)[|u + v| - 1] == v[n];
      DepthAppend(u, v[..n]);
    }
  }

  lemma NeverNegativeStep(w: seq<char>, ch: char)
    requires NeverNegative(w) && Depth(w) + Delta(ch) >= 0
    ensures NeverNegative(w + [ch]) && Depth(w + [ch]) == Depth(w) + Delta(ch)
  {
    assert (w + [ch])[..|w|] == w;
    forall i | 0 <= i <= |w + [ch]|
      ensures Depth((w + [ch])[..i]) >= 0
    {
      if i <= |w| {
        assert (w + [ch])[..i] == w[..i];
      } else {
        assert (w + [ch])[..i] == w + [ch];
      }
    }
  }

  /** A prefix-closed condition: one more symbol keeps it exactly when the depth stays non-negative. */
  lemma NeverNegativeSnoc(w: seq<char>, ch: char)
    ensures NeverNegative(w + [ch]) <==> NeverNegative(w) && Depth(w) + Delta(ch) >= 0
    ensures Depth(w + [ch]) == Depth(w) + Delta(ch)
  {
    assert (w + [ch])[..|w|] == w;
    if NeverNegative(w + [ch]) {
      forall i | 0 <= i <= |w|
        ensures Depth(w[..i]) >= 0
      {
        assert (w + [ch])[..i] == w[..i];
      }
      assert (w + [ch])[..|w + [ch]|] == w + [ch];
    }
    if NeverNegative(w) && Depth(w) + Delta(ch) >= 0 {
      NeverNegativeStep(w, ch);
    }
  }

  lemma NeverNegativeConcat(u: seq<char>, v: seq<char>)
    requires NeverNegative(u) && NeverNegative(v)
    ensures NeverNegative(u + v) && Depth(u + v) == Depth(u) + Depth(v)
  {
    assert u[..|u|] == u;
    DepthAppend(u, v);
    forall i | 0 <= i <= |u + v|
      ensures Depth((u + v)[..i]) >= 0
    {
      if i <= |u| {
        assert (u + v)[..i] == u[..i];
      } else {
        assert (u + v)[..i] == u + v[..i - |u|];
        DepthAppend(u, v[..i - |u|]);
      }
    }
  }

  /** A bracketed argument `T(a)` with a balanced `a` and a non-bracket tag is balanced. */
  lemma {:induction false} WrapBalanced(t: char, a: seq<char>)
    requires t != '(' && t != ')' && Balanced(a)
    ensures Balanced([t, '('] + a + [')'])
  {
    NeverNegativeStep([], t);
    NeverNegativeStep([t], '(');
    assert [t] + ['('] == [t, '('];
    NeverNegativeConcat([t, '('], a);
    NeverNegativeStep([t, '('] + a, ')');
  }
}
