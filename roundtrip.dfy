/** Printing and parsing back (src/AST.kt `nicelyPrint` against `myFavParser`
    of src/ExprParser.kt).

    The printer brackets every sum and product, and the grammar wraps every
    operand of a sum in a product, so parsing a printed tree does not give the
    tree back: it gives `Reparse` of it, the same tree with the extra levels the
    grammar introduces.  What does survive is the value. */
module RoundTrip {
  import opened Decimal
  import opened Combinators
  import opened Ast
  import opened Grammar

  // ---------------------------------------------------------------------------
  // Trees whose print the grammar reads

  /** Positive number leaves and non-empty sums and products: the trees whose
      print is a sentence of the grammar (no minus sign, no "0", no "()"). */
  predicate Printable(t: AST)
    decreases t, 1
  {
    match t
    case Number(n) => n >= 1
    case Addition(xs) => AllPrintable(xs)
    case Multiplication(xs) => AllPrintable(xs)
  }

  predicate AllPrintable(xs: seq<AST>)
    decreases xs, 0
  {
    |xs| >= 1 && forall i :: 0 <= i < |xs| ==> Printable(xs[i])
  }

  lemma AllPrintableTail(xs: seq<AST>)
    requires AllPrintable(xs)
    ensures Printable(xs[0])
    ensures |xs| > 1 ==> AllPrintable(xs[1..])
  {
    if |xs| > 1 {
      forall i | 0 <= i < |xs[1..]| ensures Printable(xs[1..][i]) {
        assert xs[1..][i] == xs[i + 1];
      }
    }
  }

  /** Everything the grammar builds is printable. */
  lemma {:induction false} SumTreePrintable(t: AST)
    requires IsSumTree(t)
    ensures Printable(t)
    decreases t, 1
  {
    forall i | 0 <= i < |t.addendums| ensures Printable(t.addendums[i]) {
      MulTreePrintable(t.addendums[i]);
    }
  }

  lemma {:induction false} MulTreePrintable(t: AST)
    requires IsMulTree(t)
    ensures Printable(t)
    decreases t, 1
  {
    forall i | 0 <= i < |t.multipliers| ensures Printable(t.multipliers[i]) {
      PrimaryTreePrintable(t.multipliers[i]);
    }
  }

  lemma {:induction false} PrimaryTreePrintable(t: AST)
    requires IsPrimaryTree(t)
    ensures Printable(t)
    decreases t, 2
  {
    if !t.Number? {
      SumTreePrintable(t);
    }
  }

  // ---------------------------------------------------------------------------
  // The tree the grammar reads from a print

  /** A bracketed sum comes back with each operand wrapped in a one-element
      product; a bracketed product comes back as a one-operand sum. */
  function Reparse(t: AST): AST
    decreases t, 1
  {
    match t
    case Number(_) => t
    case Addition(xs) => Addition(WrapAll(xs))
    case Multiplication(xs) => Addition([Multiplication(ReparseAll(xs))])
  }

  function ReparseAll(xs: seq<AST>): (r: seq<AST>)
    ensures |r| == |xs|
    decreases xs, 0
  {
    if xs == [] then [] else [Reparse(xs[0])] + ReparseAll(xs[1..])
  }

  function WrapAll(xs: seq<AST>): (r: seq<AST>)
    ensures |r| == |xs|
    decreases xs, 0
  {
    if xs == [] then [] else [Multiplication([Reparse(xs[0])])] + WrapAll(xs[1..])
  }

  // ---------------------------------------------------------------------------
  // Reparse keeps the value

  lemma ValuesCons(x: AST, xs: seq<AST>)
    ensures Values([x] + xs) == [EvaluateExpr(x)] + Values(xs)
  {
    assert forall i :: 1 <= i < |[x] + xs| ==> ([x] + xs)[i] == xs[i - 1];
  }

  /** A one-operand sum or product has the value of its operand. */
  lemma EvaluateSingleton(x: AST)
    ensures EvaluateExpr(Addition([x])) == EvaluateExpr(x)
    ensures EvaluateExpr(Multiplication([x])) == EvaluateExpr(x)
  {
    EvaluateAddition([x]);
    EvaluateMultiplication([x]);
    assert Values([x]) == [EvaluateExpr(x)];
  }

  /** The extra levels the grammar introduces do not change the value. */
  lemma {:induction false} ReparseEvaluates(t: AST)
    ensures EvaluateExpr(Reparse(t)) == EvaluateExpr(t)
    decreases t, 1
  {
    match t
    case Number(_) =>
    case Addition(xs) =>
      WrapAllValues(xs);
      EvaluateAddition(xs);
      EvaluateAddition(WrapAll(xs));
    case Multiplication(xs) =>
      ReparseAllValues(xs);
      EvaluateMultiplication(xs);
      EvaluateMultiplication(ReparseAll(xs));
      EvaluateSingleton(Multiplication(ReparseAll(xs)));
  }

  lemma {:induction false} ReparseAllValues(xs: seq<AST>)
    ensures Values(ReparseAll(xs)) == Values(xs)
    decreases xs, 0
  {
    if xs != [] {
      ReparseEvaluates(xs[0]);
      ReparseAllValues(xs[1..]);
      ValuesCons(Reparse(xs[0]), ReparseAll(xs[1..]));
      ValuesCons(xs[0], xs[1..]);
      assert [xs[0]] + xs[1..] == xs;
    }
  }

  lemma {:induction false} WrapAllValues(xs: seq<AST>)
    ensures Values(WrapAll(xs)) == Values(xs)
    decreases xs, 0
  {
    if xs != [] {
      ReparseEvaluates(xs[0]);
      EvaluateSingleton(Reparse(xs[0]));
      WrapAllValues(xs[1..]);
      ValuesCons(Multiplication([Reparse(xs[0])]), WrapAll(xs[1..]));
      ValuesCons(xs[0], xs[1..]);
      assert [xs[0]] + xs[1..] == xs;
    }
  }

  // ---------------------------------------------------------------------------
  // Parsing a print

  // Where the brackets and operators sit in a print.

  lemma BracketText(inner: string, rest: string)
    ensures var s := "(" + inner + ")" + rest;
      |s| > 0 && s[0] == '(' && s[1..] == inner + (")" + rest)
  {
  }

  lemma OperatorText(op: char, body: string)
    ensures var s := [op] + body; |s| > 0 && s[0] == op && s[1..] == body
  {
  }

  lemma JoinText(xs: seq<AST>, op: char, rest: string)
    requires |xs| >= 1
    ensures |xs| == 1 ==> JoinPrinted(xs, op) + rest == NicelyPrint(xs[0]) + rest
    ensures |xs| > 1 ==>
      JoinPrinted(xs, op) + rest == NicelyPrint(xs[0]) + ([op] + (JoinPrinted(xs[1..], op) + rest))
  {
  }

  /** The print of a printable tree is read as a primary, up to where it ends. */
  lemma {:induction false} PrimaryOfPrint(t: AST, rest: string)
    requires Printable(t) && !StartsWithDigit(rest)
    ensures PrimaryParser(NicelyPrint(t) + rest) == Success(Reparse(t), rest)
    decreases t, 2
  {
    match t
    case Number(n) =>
      PrintNumber(n);
      PrimaryOfNumeral(n, rest);
    case Addition(xs) =>
      SumOfPrints(xs, ")" + rest);
      BracketText(JoinPrinted(xs, '+'), rest);
      Bracketed(NicelyPrint(t) + rest, Reparse(t), rest);
    case Multiplication(xs) =>
      var close := ")" + rest;
      ProductOfPrints(xs, close);
      SumOfProduct(JoinPrinted(xs, '*') + close, Multiplication(ReparseAll(xs)), close);
      BracketText(JoinPrinted(xs, '*'), rest);
      Bracketed(NicelyPrint(t) + rest, Reparse(t), rest);
  }

  /** ... and as a one-operand product. */
  lemma {:induction false} MulOfPrint(t: AST, rest: string)
    requires Printable(t) && EndsProduct(rest)
    ensures MulParser(NicelyPrint(t) + rest) == Success(Multiplication([Reparse(t)]), rest)
    decreases t, 3
  {
    PrimaryOfPrint(t, rest);
    ProductOfPrimary(NicelyPrint(t) + rest, Reparse(t), rest);
  }

  lemma ReparseAllOne(xs: seq<AST>)
    requires |xs| == 1
    ensures ReparseAll(xs) == [Reparse(xs[0])]
  {
    assert ReparseAll(xs[1..]) == [];
  }

  /** Prints joined by '*' are read as one product. */
  lemma {:induction false} ProductOfPrints(xs: seq<AST>, rest: string)
    requires AllPrintable(xs) && EndsProduct(rest)
    ensures MulParser(JoinPrinted(xs, '*') + rest) == Success(Multiplication(ReparseAll(xs)), rest)
    decreases xs, 0
  {
    AllPrintableTail(xs);
    JoinText(xs, '*', rest);
    if |xs| == 1 {
      MulOfPrint(xs[0], rest);
      ReparseAllOne(xs);
    } else {
      var body := JoinPrinted(xs[1..], '*') + rest;
      var after := ['*'] + body;
      OperatorText('*', body);
      PrimaryOfPrint(xs[0], after);
      ProductOfPrints(xs[1..], rest);
      ProductStep(NicelyPrint(xs[0]) + after, Reparse(xs[0]), after, ReparseAll(xs[1..]), rest);
    }
  }

  /** Prints joined by '+' are read as one sum of one-operand products. */
  lemma {:induction false} SumOfPrints(xs: seq<AST>, rest: string)
    requires AllPrintable(xs) && EndsSum(rest)
    ensures SumParser(JoinPrinted(xs, '+') + rest) == Success(Addition(WrapAll(xs)), rest)
    decreases xs, 0
  {
    AllPrintableTail(xs);
    JoinText(xs, '+', rest);
    if |xs| == 1 {
      MulOfPrint(xs[0], rest);
      SumOfProduct(NicelyPrint(xs[0]) + rest, Multiplication([Reparse(xs[0])]), rest);
      assert WrapAll(xs[1..]) == [];
    } else {
      var body := JoinPrinted(xs[1..], '+') + rest;
      var after := ['+'] + body;
      OperatorText('+', body);
      MulOfPrint(xs[0], after);
      SumOfPrints(xs[1..], rest);
      SumStep(NicelyPrint(xs[0]) + after, Multiplication([Reparse(xs[0])]), after, WrapAll(xs[1..]), rest);
    }
  }

  /** `myFavParser` reads the whole print of a printable tree, as the tree
      rebracketed by the grammar. */
  lemma ParsePrint(t: AST)
    requires Printable(t)
    ensures MyFavParser(NicelyPrint(t)) == Success(Addition([Multiplication([Reparse(t)])]), "")
  {
    assert NicelyPrint(t) + "" == NicelyPrint(t);
    MulOfPrint(t, "");
    SumOfProduct(NicelyPrint(t), Multiplication([Reparse(t)]), "");
  }

  /** Printing what the parser produced and parsing that again consumes the
      whole print and gives a tree with the same value. */
  lemma ReprintKeepsValue(s: string)
    requires MyFavParser(s).Success?
    ensures var t := MyFavParser(s).result;
      var again := MyFavParser(NicelyPrint(t));
      again.Success? && again.unconsumed == "" && EvaluateExpr(again.result) == EvaluateExpr(t)
  {
    var t := MyFavParser(s).result;
    SumTreePrintable(t);
    ParsePrint(t);
    ReparseEvaluates(t);
    EvaluateSingleton(Reparse(t));
    EvaluateSingleton(Multiplication([Reparse(t)]));
  }
}
