/** The arithmetic syntax tree of src/AST.kt with its printer and evaluator. */
module Ast {
  import opened Decimal

  /** `AST<Int>`: a sum, a product or a number literal. */
  datatype AST =
    | Addition(addendums: seq<AST>)
    | Multiplication(multipliers: seq<AST>)
    | Number(number: int)

  // ---------------------------------------------------------------------------
  // nicelyPrint

  /** `nicelyPrint`: every sum and product is parenthesised. */
  function NicelyPrint(tree: AST): string {
    match tree
    case Number(n) => IntToString(n)
    case Multiplication(xs) => "(" + JoinPrinted(xs, '*') + ")"
    case Addition(xs) => "(" + JoinPrinted(xs, '+') + ")"
  }

  /** `joinToString(separator)` over the printed children. */
  function JoinPrinted(trees: seq<AST>, separator: char): string {
    if |trees| == 0 then ""
    else if |trees| == 1 then NicelyPrint(trees[0])
    else NicelyPrint(trees[0]) + [separator] + JoinPrinted(trees[1..], separator)
  }

  /** A number prints as its decimal text. */
  lemma PrintNumber(n: int)
    ensures NicelyPrint(Number(n)) == IntToString(n)
    ensures n >= 0 ==> NicelyPrint(Number(n)) == NatToString(n) && DecimalValue(NicelyPrint(Number(n))) == n
  {
    if n >= 0 {
      DecimalValueOfNatToString(n);
    }
  }

  /** A sum or product prints as "(" + its children's prints joined by its
      operator + ")". */
  lemma PrintCompound(tree: AST)
    requires !tree.Number?
    ensures var p := NicelyPrint(tree);
      |p| >= 2 && p[0] == '(' && p[|p| - 1] == ')' &&
      p[1..|p| - 1] == JoinPrinted(if tree.Addition? then tree.addendums else tree.multipliers,
                                   if tree.Addition? then '+' else '*')
  {
  }

  /** Joining two non-empty lists puts one separator between their joins. */
  lemma {:induction false} JoinPrintedAppend(xs: seq<AST>, ys: seq<AST>, separator: char)
    requires |xs| > 0 && |ys| > 0
    ensures JoinPrinted(xs + ys, separator) == JoinPrinted(xs, separator) + [separator] + JoinPrinted(ys, separator)
    decreases |xs|
  {
    var zs := xs + ys;
    assert zs[0] == xs[0];
    if |xs| == 1 {
      assert zs[1..] == ys;
    } else {
      assert zs[1..] == xs[1..] + ys;
      JoinPrintedAppend(xs[1..], ys, separator);
    }
  }

  // ---------------------------------------------------------------------------
  // Balanced parentheses

  /** Open minus closing parentheses. */
  function Depth(s: string): int
    decreases |s|
  {
    if s == [] then 0
    else (if s[0] == '(' then 1 else if s[0] == ')' then -1 else 0) + Depth(s[1..])
  }

  /** No prefix closes more parentheses than it opens, and the whole closes all it opens. */
  ghost predicate Balanced(s: string) {
    Depth(s) == 0 && forall i :: 0 <= i <= |s| ==> Depth(s[..i]) >= 0
  }

  lemma {:induction false} DepthAppend(a: string, b: string)
    ensures Depth(a + b) == Depth(a) + Depth(b)
    decreases |a|
  {
    if a == [] {
      assert a + b == b;
    } else {
      assert (a + b)[1..] == a[1..] + b;
      DepthAppend(a[1..], b);
    }
  }

  lemma {:induction false} NoParensDepth(s: string)
    requires forall i :: 0 <= i < |s| ==> s[i] != '(' && s[i] != ')'
    ensures Depth(s) == 0
    decreases |s|
  {
    if s != [] {
      NoParensDepth(s[1..]);
    }
  }

  lemma NoParensBalanced(s: string)
    requires forall i :: 0 <= i < |s| ==> s[i] != '(' && s[i] != ')'
    ensures Balanced(s)
  {
    NoParensDepth(s);
    forall i | 0 <= i <= |s| ensures Depth(s[..i]) >= 0 {
      NoParensDepth(s[..i]);
    }
  }

  lemma BalancedConcat(a: string, b: string)
    requires Balanced(a) && Balanced(b)
    ensures Balanced(a + b)
  {
    DepthAppend(a, b);
    forall i | 0 <= i <= |a + b| ensures Depth((a + b)[..i]) >= 0 {
      if i <= |a| {
        assert (a + b)[..i] == a[..i];
      } else {
        assert (a + b)[..i] == a + b[..i - |a|];
        DepthAppend(a, b[..i - |a|]);
      }
    }
  }

  lemma BalancedWrap(a: string)
    requires Balanced(a)
    ensures Balanced("(" + a + ")")
  {
    var w := "(" + a + ")";
    DepthAppend("(" + a, ")");
    DepthAppend("(", a);
    forall i | 0 <= i <= |w| ensures Depth(w[..i]) >= 0 {
      if 1 <= i <= |a| + 1 {
        assert w[..i] == "(" + a[..i - 1];
        DepthAppend("(", a[..i - 1]);
      } else if i == |a| + 2 {
        assert w[..i] == w;
      }
    }
  }

  lemma IntToStringBalanced(n: int)
    ensures Balanced(IntToString(n))
  {
    var s := IntToString(n);
    var digits := NatToString(if n < 0 then -n else n);
    assert forall i :: 0 <= i < |digits| ==> IsDigit(digits[i]);
    NoParensBalanced(s);
  }

  /** Every printed tree has balanced parentheses. */
  lemma {:induction false} PrintBalanced(tree: AST)
    ensures Balanced(NicelyPrint(tree))
    decreases tree, 1
  {
    match tree
    case Number(n) => IntToStringBalanced(n);
    case Multiplication(xs) =>
      JoinBalanced(xs, '*');
      BalancedWrap(JoinPrinted(xs, '*'));
    case Addition(xs) =>
      JoinBalanced(xs, '+');
      BalancedWrap(JoinPrinted(xs, '+'));
  }

  lemma {:induction false} JoinBalanced(trees: seq<AST>, separator: char)
    requires separator != '(' && separator != ')'
    ensures Balanced(JoinPrinted(trees, separator))
    decreases trees, 0
  {
    if |trees| == 0 {
      NoParensBalanced("");
    } else if |trees| == 1 {
      PrintBalanced(trees[0]);
    } else {
      PrintBalanced(trees[0]);
      NoParensBalanced([separator]);
      JoinBalanced(trees[1..], separator);
      BalancedConcat(NicelyPrint(trees[0]), [separator]);
      BalancedConcat(NicelyPrint(trees[0]) + [separator], JoinPrinted(trees[1..], separator));
    }
  }

  // ---------------------------------------------------------------------------
  // evaluateExpr

  /** `evaluateExpr`: numbers are themselves, sums fold `+` from 0, products fold `*` from 1. */
  function EvaluateExpr(tree: AST): int {
    match tree
    case Number(n) => n
    case Addition(xs) => FoldSum(0, xs)
    case Multiplication(xs) => FoldProduct(1, xs)
  }

  /** `fold(acc) { acc, x -> acc + evaluateExpr(x) }`. */
  function FoldSum(acc: int, trees: seq<AST>): int
    decreases trees
  {
    if trees == [] then acc else FoldSum(acc + EvaluateExpr(trees[0]), trees[1..])
  }

  /** `fold(acc) { acc, x -> acc * evaluateExpr(x) }`. */
  function FoldProduct(acc: int, trees: seq<AST>): int
    decreases trees
  {
    if trees == [] then acc else FoldProduct(acc * EvaluateExpr(trees[0]), trees[1..])
  }

  /** The values of the children, in order. */
  function Values(trees: seq<AST>): (vs: seq<int>)
    ensures |vs| == |trees| && forall i :: 0 <= i < |trees| ==> vs[i] == EvaluateExpr(trees[i])
  {
    seq(|trees|, i requires 0 <= i < |trees| => EvaluateExpr(trees[i]))
  }

  function Sum(vs: seq<int>): int {
    if vs == [] then 0 else vs[0] + Sum(vs[1..])
  }

  function Product(vs: seq<int>): int {
    if vs == [] then 1 else vs[0] * Product(vs[1..])
  }

  lemma {:induction false} FoldSumIsSum(acc: int, trees: seq<AST>)
    ensures FoldSum(acc, trees) == acc + Sum(Values(trees))
    decreases |trees|
  {
    if trees != [] {
      assert Values(trees)[1..] == Values(trees[1..]);
      FoldSumIsSum(acc + EvaluateExpr(trees[0]), trees[1..]);
    }
  }

  lemma {:induction false} FoldProductIsProduct(acc: int, trees: seq<AST>)
    ensures FoldProduct(acc, trees) == acc * Product(Values(trees))
    decreases |trees|
  {
    if trees != [] {
      assert Values(trees)[1..] == Values(trees[1..]);
      FoldProductIsProduct(acc * EvaluateExpr(trees[0]), trees[1..]);
      assert acc * EvaluateExpr(trees[0]) * Product(Values(trees[1..])) ==
        acc * (EvaluateExpr(trees[0]) * Product(Values(trees[1..])));
    }
  }

  /** A sum evaluates to the sum of its children's values; the empty sum is 0. */
  lemma EvaluateAddition(xs: seq<AST>)
    ensures EvaluateExpr(Addition(xs)) == Sum(Values(xs))
    ensures xs == [] ==> EvaluateExpr(Addition(xs)) == 0
  {
    FoldSumIsSum(0, xs);
  }

  /** A product evaluates to the product of its children's values; the empty product is 1. */
  lemma EvaluateMultiplication(xs: seq<AST>)
    ensures EvaluateExpr(Multiplication(xs)) == Product(Values(xs))
    ensures xs == [] ==> EvaluateExpr(Multiplication(xs)) == 1
  {
    FoldProductIsProduct(1, xs);
  }

  lemma {:induction false} SumAppend(a: seq<int>, b: seq<int>)
    ensures Sum(a + b) == Sum(a) + Sum(b)
    decreases |a|
  {
    if a == [] {
      assert a + b == b;
    } else {
      assert (a + b)[1..] == a[1..] + b;
      SumAppend(a[1..], b);
    }
  }

  lemma {:induction false} ProductAppend(a: seq<int>, b: seq<int>)
    ensures Product(a + b) == Product(a) * Product(b)
    decreases |a|
  {
    if a == [] {
      assert a + b == b;
    } else {
      assert (a + b)[1..] == a[1..] + b;
      ProductAppend(a[1..], b);
      assert a[0] * (Product(a[1..]) * Product(b)) == (a[0] * Product(a[1..])) * Product(b);
    }
  }

  /** Splitting the children of a sum or a product splits its value accordingly. */
  lemma EvaluateAppend(xs: seq<AST>, ys: seq<AST>)
    ensures EvaluateExpr(Addition(xs + ys)) == EvaluateExpr(Addition(xs)) + EvaluateExpr(Addition(ys))
    ensures EvaluateExpr(Multiplication(xs + ys)) ==
      EvaluateExpr(Multiplication(xs)) * EvaluateExpr(Multiplication(ys))
  {
    assert Values(xs + ys) == Values(xs) + Values(ys);
    EvaluateAddition(xs + ys);
    EvaluateAddition(xs);
    EvaluateAddition(ys);
    SumAppend(Values(xs), Values(ys));
    EvaluateMultiplication(xs + ys);
    EvaluateMultiplication(xs);
    EvaluateMultiplication(ys);
    ProductAppend(Values(xs), Values(ys));
  }
}
