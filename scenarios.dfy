/** The cases src/Main.kt prints, stated as facts about the model: the sample
    tree 13 + 42 * 69, `word`, `number`, `nonEmptyListParser` and `myFavParser`
    on the sample inputs.  Each is proved from the general lemmas, one parser
    step at a time. */
module Scenarios {
  import opened Decimal
  import opened Combinators
  import opened CombinatorLaws
  import opened Tokens
  import opened Ast
  import opened Grammar

  /** The decimal texts that occur in the samples. */
  lemma Numerals()
    ensures NatToString(1) == "1" && NatToString(6) == "6"
    ensures NatToString(13) == "13" && NatToString(42) == "42" && NatToString(69) == "69"
    ensures NatToString(45) == "45" && NatToString(78) == "78"
    ensures NatToString(123) == "123" && NatToString(678) == "678"
  {
  }

  /** Literal lists built from single elements. */
  lemma ListTexts<T>(x: T, y: T, z: T)
    ensures [x] + [y] == [x, y] && [x] + [y, z] == [x, y, z] && [x] + [] == [x]
  {
  }

  // ---------------------------------------------------------------------------
  // The sample tree

  /** `tree` of src/Main.kt: 13 + 42 * 69. */
  function SampleTree(): AST {
    Addition([Number(13), Multiplication([Number(42), Number(69)])])
  }

  lemma SampleTreePrint()
    ensures NicelyPrint(SampleTree()) == "(13+(42*69))"
  {
    Numerals();
    assert JoinPrinted([Number(69)], '*') == "69";
    assert JoinPrinted([Number(42), Number(69)], '*') == "42*69";
    assert NicelyPrint(Multiplication([Number(42), Number(69)])) == "(42*69)";
  }

  lemma SampleTreeValue()
    ensures EvaluateExpr(SampleTree()) == 2911
  {
    assert EvaluateExpr(Multiplication([Number(42), Number(69)])) == 2898;
  }

  // ---------------------------------------------------------------------------
  // The derived parsers

  lemma WordSample()
    ensures Word("abc")("abcd") == Success("abc", "d")
  {
    assert "abcd" == "abc" + "d";
    WordRoundTrip("abc", "d");
  }

  /** `number()` on the decimal text of `n` followed by `t`. */
  lemma NumeralAt(n: nat, s: string, t: string)
    requires n > 0 && s == NatToString(n) + t && !StartsWithDigit(t)
    ensures NumberParser()(s) == Success(n, t)
  {
    NumberRoundTrip(n, t);
  }

  lemma NumberSample()
    ensures NumberParser()("123") == Success(123, "")
  {
    assert "123" == NatToString(123) + "" by {
      Numerals();
    }
    NumeralAt(123, "123", "");
  }

  lemma NumberProductive()
    ensures Productive(NumberParser()) && Productive(SepThenElem(Plus, NumberParser()))
  {
    forall s ensures NumberParser()(s).Success? ==>
      IsSuffix(NumberParser()(s).unconsumed, s) && |NumberParser()(s).unconsumed| < |s|
    {
      NumberParserSpec(s);
    }
    PrimitivesSound((), '+');
    SepThenElemProductive(Plus, NumberParser());
  }

  // ---------------------------------------------------------------------------
  // nonEmptyListParser(plus, number())

  /** `nonEmptyListParser(plus, number())` of src/Main.kt. */
  function NumberList(): Parser<seq<int>> {
    NumberProductive();
    NonEmptyListParser(Plus, NumberParser())
  }

  /** A list of three elements, for any separator and element parser. */
  lemma ListOfThree<T, S>(sep: Parser<S>, elem: Parser<T>, s: string, t: string, u: string, r: string, a: T, b: T, c: T)
    requires Productive(SepThenElem(sep, elem))
    requires elem(s) == Success(a, t)
    requires SepThenElem(sep, elem)(t) == Success(b, u)
    requires SepThenElem(sep, elem)(u) == Success(c, r)
    requires SepThenElem(sep, elem)(r).Fail?
    ensures NonEmptyListParser(sep, elem)(s) == Success([a, b, c], r)
  {
    var q := SepThenElem(sep, elem);
    ListTexts(a, b, c);
    ListTexts(b, c, c);
    ListTexts(c, c, c);
    assert StarParse(q, r) == Success([], r);
    assert StarParse(q, u) == Success([c], r);
    assert StarParse(q, t) == Success([b, c], r);
    assert StarParser(q)(t) == Success([b, c], r);
  }

  /** Without a separator there is no next element. */
  lemma NoSeparator<T, S>(sep: Parser<S>, elem: Parser<T>, r: string)
    requires sep(r).Fail?
    ensures SepThenElem(sep, elem)(r).Fail?
  {
  }

  /** Where no '+' follows, no further number is read. */
  lemma NoPlusNumeral(r: string)
    requires !(|r| > 0 && r[0] == '+')
    ensures SepThenElem(Plus, NumberParser())(r).Fail?
  {
    PrimitivesSpec((), '+', r);
    NoSeparator(Plus, NumberParser(), r);
  }

  /** A '+' then a number literal. */
  lemma PlusNumeral(n: nat, s: string, r: string)
    requires n > 0 && |s| > 0 && s[0] == '+' && s[1..] == NatToString(n) + r && !StartsWithDigit(r)
    ensures SepThenElem(Plus, NumberParser())(s) == Success(n, r)
  {
    NumberRoundTrip(n, r);
  }

  /** Three numbers separated by '+' and then no further '+' and number. */
  lemma NumberListOfThree(a: int, b: int, c: int, s: string, t: string, u: string, r: string)
    requires NumberParser()(s) == Success(a, t)
    requires SepThenElem(Plus, NumberParser())(t) == Success(b, u)
    requires SepThenElem(Plus, NumberParser())(u) == Success(c, r)
    requires SepThenElem(Plus, NumberParser())(r).Fail?
    ensures NumberList()(s) == Success([a, b, c], r)
  {
    NumberProductive();
    ListOfThree(Plus, NumberParser(), s, t, u, r, a, b, c);
  }

  lemma NumberListTexts()
    ensures NatToString(123) == "123" && NatToString(45) == "45" && NatToString(678) == "678"
    ensures "123+45+678" == "123" + "+45+678"
    ensures "+45+678"[0] == '+' && "+45+678"[1..] == "45+678" && "45+678" == "45" + "+678"
    ensures "+678"[0] == '+' && "+678"[1..] == "678" && "678" == "678" + ""
  {
    Numerals();
  }

  lemma FirstListNumber()
    ensures NumberParser()("123+45+678") == Success(123, "+45+678")
  {
    assert "123+45+678" == NatToString(123) + "+45+678" by {
      NumberListTexts();
    }
    NumeralAt(123, "123+45+678", "+45+678");
  }

  lemma SecondListNumber()
    ensures SepThenElem(Plus, NumberParser())("+45+678") == Success(45, "+678")
  {
    NumberListTexts();
    PlusNumeral(45, "+45+678", "+678");
  }

  lemma ThirdListNumber()
    ensures SepThenElem(Plus, NumberParser())("+678") == Success(678, "")
  {
    NumberListTexts();
    PlusNumeral(678, "+678", "");
  }

  /** `nonEmptyListParser(plus, number())` on "123+45+678". */
  lemma NumberListSample()
    ensures NumberList()("123+45+678") == Success([123, 45, 678], "")
  {
    FirstListNumber();
    SecondListNumber();
    ThirdListNumber();
    NoPlusNumeral("");
    NumberListOfThree(123, 45, 678, "123+45+678", "+45+678", "+678", "");
  }

  // ---------------------------------------------------------------------------
  // Printing

  lemma PrintOne(x: AST)
    ensures NicelyPrint(Multiplication([x])) == "(" + NicelyPrint(x) + ")"
    ensures NicelyPrint(Addition([x])) == "(" + NicelyPrint(x) + ")"
  {
    assert JoinPrinted([x], '*') == NicelyPrint(x);
    assert JoinPrinted([x], '+') == NicelyPrint(x);
  }

  lemma JoinTwo(x: AST, y: AST, op: char)
    ensures JoinPrinted([x, y], op) == NicelyPrint(x) + [op] + NicelyPrint(y)
  {
    ListTexts(x, y, y);
    JoinPrintedAppend([x], [y], op);
    assert JoinPrinted([x], op) == NicelyPrint(x);
    assert JoinPrinted([y], op) == NicelyPrint(y);
  }

  lemma PrintTwo(x: AST, y: AST)
    ensures NicelyPrint(Multiplication([x, y])) == "(" + NicelyPrint(x) + "*" + NicelyPrint(y) + ")"
    ensures NicelyPrint(Addition([x, y])) == "(" + NicelyPrint(x) + "+" + NicelyPrint(y) + ")"
  {
    JoinTwo(x, y, '*');
    JoinTwo(x, y, '+');
  }

  lemma PrintThree(x: AST, y: AST, z: AST)
    ensures NicelyPrint(Addition([x, y, z])) ==
      "(" + NicelyPrint(x) + "+" + NicelyPrint(y) + "+" + NicelyPrint(z) + ")"
  {
    ListTexts(x, y, z);
    ListTexts(y, z, z);
    JoinPrintedAppend([y], [z], '+');
    JoinPrintedAppend([x], [y, z], '+');
    assert JoinPrinted([x], '+') == NicelyPrint(x);
    assert JoinPrinted([y], '+') == NicelyPrint(y);
    assert JoinPrinted([z], '+') == NicelyPrint(z);
  }

  // ---------------------------------------------------------------------------
  // Parsing numerals with myFavParser's rules

  /** A numeral followed by what ends a product is a one-operand product. */
  lemma NumeralOperand(n: nat, rest: string)
    requires n > 0 && EndsProduct(rest)
    ensures MulParser(NatToString(n) + rest) == Success(Multiplication([Number(n)]), rest)
  {
    PrimaryOfNumeral(n, rest);
    ProductOfPrimary(NatToString(n) + rest, Number(n), rest);
  }

  // ---------------------------------------------------------------------------
  // myFavParser on "123+45*6+78"

  /** "123+45*6+78" as a sum of three products. */
  function FirstSampleTree(): AST {
    Addition([
      Multiplication([Number(123)]),
      Multiplication([Number(45), Number(6)]),
      Multiplication([Number(78)])])
  }

  /** a + b * c + d, for numerals a, b, c, d. */
  lemma FirstShapeParse(a: nat, b: nat, c: nat, d: nat, s: string, t: string, u: string, v: string, r: string)
    requires a > 0 && b > 0 && c > 0 && d > 0
    requires s == NatToString(a) + t && |t| > 0 && t[0] == '+'
    requires t[1..] == NatToString(b) + u && |u| > 0 && u[0] == '*'
    requires u[1..] == NatToString(c) + v && |v| > 0 && v[0] == '+'
    requires v[1..] == NatToString(d) + r && EndsSum(r)
    ensures MyFavParser(s) == Success(Addition([
      Multiplication([Number(a)]),
      Multiplication([Number(b), Number(c)]),
      Multiplication([Number(d)])]), r)
  {
    var md := Multiplication([Number(d)]);
    NumeralOperand(d, r);
    SumOfProduct(v[1..], md, r);
    NumeralOperand(c, v);
    PrimaryOfNumeral(b, u);
    ProductStep(t[1..], Number(b), u, [Number(c)], v);
    ListTexts(Number(b), Number(c), Number(c));
    var mbc := Multiplication([Number(b), Number(c)]);
    SumStep(t[1..], mbc, v, [md], r);
    ListTexts(mbc, md, md);
    NumeralOperand(a, t);
    var ma := Multiplication([Number(a)]);
    SumStep(s, ma, t, [mbc, md], r);
    ListTexts(ma, mbc, md);
  }

  lemma FirstSampleTexts()
    ensures NatToString(123) == "123" && NatToString(45) == "45"
    ensures NatToString(6) == "6" && NatToString(78) == "78"
    ensures "123+45*6+78" == "123" + "+45*6+78"
    ensures "+45*6+78"[0] == '+' && "+45*6+78"[1..] == "45*6+78" && "45*6+78" == "45" + "*6+78"
    ensures "*6+78"[0] == '*' && "*6+78"[1..] == "6+78" && "6+78" == "6" + "+78"
    ensures "+78"[0] == '+' && "+78"[1..] == "78" && "78" == "78" + ""
  {
    Numerals();
  }

  /** `myFavParser.parse("123+45*6+78")` consumes everything. */
  lemma FirstSampleParse()
    ensures MyFavParser("123+45*6+78") == Success(FirstSampleTree(), "")
  {
    FirstSampleTexts();
    FirstShapeParse(123, 45, 6, 78, "123+45*6+78", "+45*6+78", "*6+78", "+78", "");
  }

  lemma FirstSamplePrint()
    ensures NicelyPrint(FirstSampleTree()) == "((123)+(45*6)+(78))"
  {
    Numerals();
    PrintOne(Number(123));
    PrintTwo(Number(45), Number(6));
    PrintOne(Number(78));
    PrintThree(Multiplication([Number(123)]), Multiplication([Number(45), Number(6)]), Multiplication([Number(78)]));
  }

  lemma FirstSampleValue()
    ensures EvaluateExpr(FirstSampleTree()) == 471
  {
    assert EvaluateExpr(Multiplication([Number(45), Number(6)])) == 270;
  }

  /** What src/Main.kt prints after a parse that consumes everything: the
      print and the value of the tree, mapped over the result. */
  lemma Outcome(s: string, tree: AST, printed: string, value: int)
    requires MyFavParser(s) == Success(tree, "")
    requires NicelyPrint(tree) == printed && EvaluateExpr(tree) == value
    ensures FmapResult(NicelyPrint, MyFavParser(s)) == Success(printed, "")
    ensures FmapResult(EvaluateExpr, MyFavParser(s)) == Success(value, "")
  {
  }

  /** The three lines src/Main.kt prints for "123+45*6+78": the tree, its print
      and its value, each with nothing left unconsumed. */
  lemma FirstSample()
    ensures MyFavParser("123+45*6+78") == Success(FirstSampleTree(), "")
    ensures FmapResult(NicelyPrint, MyFavParser("123+45*6+78")) == Success("((123)+(45*6)+(78))", "")
    ensures FmapResult(EvaluateExpr, MyFavParser("123+45*6+78")) == Success(471, "")
  {
    FirstSampleParse();
    FirstSamplePrint();
    FirstSampleValue();
    Outcome("123+45*6+78", FirstSampleTree(), "((123)+(45*6)+(78))", 471);
  }

  // ---------------------------------------------------------------------------
  // myFavParser on "(123+45)*6+78"

  /** "(123+45)*6+78": the bracketed sum is the first operand of the first product. */
  function SecondSampleTree(): AST {
    Addition([
      Multiplication([BracketedSum(), Number(6)]),
      Multiplication([Number(78)])])
  }

  /** What the grammar reads from "123+45". */
  function BracketedSum(): AST {
    Addition([Multiplication([Number(123)]), Multiplication([Number(45)])])
  }

  /** "(" a + b ")", for numerals a, b. */
  lemma BracketShapeParse(a: nat, b: nat, s: string, t: string, u: string, r: string)
    requires a > 0 && b > 0
    requires |s| > 0 && s[0] == '(' && s[1..] == NatToString(a) + t && |t| > 0 && t[0] == '+'
    requires t[1..] == NatToString(b) + u && u == ")" + r
    ensures PrimaryParser(s) ==
      Success(Addition([Multiplication([Number(a)]), Multiplication([Number(b)])]), r)
  {
    var ma, mb := Multiplication([Number(a)]), Multiplication([Number(b)]);
    NumeralOperand(b, u);
    SumOfProduct(t[1..], mb, u);
    NumeralOperand(a, t);
    SumStep(s[1..], ma, t, [mb], u);
    ListTexts(ma, mb, mb);
    Bracketed(s, Addition([ma, mb]), r);
  }

  /** "(" a + b ")" * c, for numerals a, b, c. */
  lemma BracketProductParse(a: nat, b: nat, c: nat, s: string, t: string, u: string, w: string, v: string)
    requires a > 0 && b > 0 && c > 0
    requires |s| > 0 && s[0] == '(' && s[1..] == NatToString(a) + t && |t| > 0 && t[0] == '+'
    requires t[1..] == NatToString(b) + u && u == ")" + w && |w| > 0 && w[0] == '*'
    requires w[1..] == NatToString(c) + v && EndsProduct(v)
    ensures MulParser(s) == Success(Multiplication([
      Addition([Multiplication([Number(a)]), Multiplication([Number(b)])]), Number(c)]), v)
  {
    var inner := Addition([Multiplication([Number(a)]), Multiplication([Number(b)])]);
    assert MulParser(w[1..]) == Success(Multiplication([Number(c)]), v) by {
      NumeralOperand(c, v);
    }
    assert PrimaryParser(s) == Success(inner, w) by {
      BracketShapeParse(a, b, s, t, u, w);
    }
    ProductStep(s, inner, w, [Number(c)], v);
    ListTexts(inner, Number(c), Number(c));
  }

  /** "(" a + b ")" * c + d, for numerals a, b, c, d. */
  lemma SecondShapeParse(a: nat, b: nat, c: nat, d: nat,
                         s: string, t: string, u: string, w: string, v: string, r: string)
    requires a > 0 && b > 0 && c > 0 && d > 0
    requires |s| > 0 && s[0] == '(' && s[1..] == NatToString(a) + t && |t| > 0 && t[0] == '+'
    requires t[1..] == NatToString(b) + u && u == ")" + w && |w| > 0 && w[0] == '*'
    requires w[1..] == NatToString(c) + v && |v| > 0 && v[0] == '+'
    requires v[1..] == NatToString(d) + r && EndsSum(r)
    ensures MyFavParser(s) == Success(Addition([
      Multiplication([Addition([Multiplication([Number(a)]), Multiplication([Number(b)])]), Number(c)]),
      Multiplication([Number(d)])]), r)
  {
    var inner := Addition([Multiplication([Number(a)]), Multiplication([Number(b)])]);
    var md := Multiplication([Number(d)]);
    var mic := Multiplication([inner, Number(c)]);
    assert SumParser(v[1..]) == Success(Addition([md]), r) by {
      NumeralOperand(d, r);
      SumOfProduct(v[1..], md, r);
    }
    assert MulParser(s) == Success(mic, v) by {
      BracketProductParse(a, b, c, s, t, u, w, v);
    }
    SumStep(s, mic, v, [md], r);
    ListTexts(mic, md, md);
  }

  lemma SecondSampleTexts()
    ensures NatToString(123) == "123" && NatToString(45) == "45"
    ensures NatToString(6) == "6" && NatToString(78) == "78"
    ensures "(123+45)*6+78"[0] == '(' && "(123+45)*6+78"[1..] == "123+45)*6+78"
    ensures "123+45)*6+78" == "123" + "+45)*6+78"
    ensures "+45)*6+78"[0] == '+' && "+45)*6+78"[1..] == "45)*6+78" && "45)*6+78" == "45" + ")*6+78"
    ensures ")*6+78" == ")" + "*6+78"
    ensures "*6+78"[0] == '*' && "*6+78"[1..] == "6+78" && "6+78" == "6" + "+78"
    ensures "+78"[0] == '+' && "+78"[1..] == "78" && "78" == "78" + ""
  {
    Numerals();
  }

  /** `myFavParser.parse("(123+45)*6+78")` consumes everything. */
  lemma SecondSampleParse()
    ensures MyFavParser("(123+45)*6+78") == Success(SecondSampleTree(), "")
  {
    SecondSampleTexts();
    SecondShapeParse(123, 45, 6, 78, "(123+45)*6+78", "+45)*6+78", ")*6+78", "*6+78", "+78", "");
  }

  lemma BracketedSumPrint()
    ensures NicelyPrint(BracketedSum()) == "((123)+(45))"
  {
    Numerals();
    PrintOne(Number(123));
    PrintOne(Number(45));
    PrintTwo(Multiplication([Number(123)]), Multiplication([Number(45)]));
  }

  lemma FirstProductPrint()
    ensures NicelyPrint(Multiplication([BracketedSum(), Number(6)])) == "(((123)+(45))*6)"
  {
    Numerals();
    BracketedSumPrint();
    PrintTwo(BracketedSum(), Number(6));
  }

  lemma SecondSamplePrint()
    ensures NicelyPrint(SecondSampleTree()) == "((((123)+(45))*6)+(78))"
  {
    Numerals();
    FirstProductPrint();
    PrintOne(Number(78));
    PrintTwo(Multiplication([BracketedSum(), Number(6)]), Multiplication([Number(78)]));
  }

  lemma SecondSampleValue()
    ensures EvaluateExpr(SecondSampleTree()) == 1086
  {
    assert EvaluateExpr(BracketedSum()) == 168;
    var p := Multiplication([BracketedSum(), Number(6)]);
    assert [BracketedSum(), Number(6)][1..] == [Number(6)];
    assert EvaluateExpr(p) == 1008;
  }

  /** The three lines src/Main.kt prints for "(123+45)*6+78". */
  lemma SecondSample()
    ensures MyFavParser("(123+45)*6+78") == Success(SecondSampleTree(), "")
    ensures FmapResult(NicelyPrint, MyFavParser("(123+45)*6+78")) == Success("((((123)+(45))*6)+(78))", "")
    ensures FmapResult(EvaluateExpr, MyFavParser("(123+45)*6+78")) == Success(1086, "")
  {
    SecondSampleParse();
    SecondSamplePrint();
    SecondSampleValue();
    Outcome("(123+45)*6+78", SecondSampleTree(), "((((123)+(45))*6)+(78))", 1086);
  }

  // ---------------------------------------------------------------------------
  // A trailing operator

  /** A numeral followed by a '+' with no operand after it: the '+' is left over. */
  lemma DanglingShapeParse(n: nat, s: string, t: string)
    requires n > 0 && s == NatToString(n) + t && |t| > 0 && t[0] == '+'
    requires !(|t[1..]| > 0 && (t[1..][0] == '(' || '1' <= t[1..][0] <= '9'))
    ensures MyFavParser(s) == Success(Addition([Multiplication([Number(n)])]), t)
  {
    assert MulParser(s) == Success(Multiplication([Number(n)]), t) by {
      NumeralOperand(n, t);
    }
    assert SumTail(t) == Success([], t) by {
      NoOperand(t[1..]);
      DanglingPlus(t);
    }
    SumOfLoneProduct(s);
  }

  /** "1+" reads as the sum of 1, leaving the '+' unconsumed. */
  lemma TrailingOperator()
    ensures MyFavParser("1+") == Success(Addition([Multiplication([Number(1)])]), "+")
  {
    assert "1+" == NatToString(1) + "+" && "+"[0] == '+' && "+"[1..] == "" by {
      Numerals();
    }
    DanglingShapeParse(1, "1+", "+");
  }

  // ---------------------------------------------------------------------------
  // Further edge cases of the combinators

  /** `k` copies of `c`. */
  function Run(c: char, k: nat): (r: string)
    ensures |r| == k && forall i :: 0 <= i < k ==> r[i] == c
  {
    seq(k, _ => c)
  }

  /** `StarParser(CharParser(c))` reads a whole run of `c`s and stops at the
      first other character. */
  lemma {:induction false} StarOfRun(c: char, k: nat, t: string)
    requires !(|t| > 0 && t[0] == c)
    ensures Productive(CharParser(c))
    ensures StarParser(CharParser(c))(Run(c, k) + t) == Success(Run(c, k), t)
    decreases k
  {
    PrimitivesSound((), c);
    var p := CharParser(c);
    var s := Run(c, k) + t;
    if k == 0 {
      assert s == t;
      StarSpec(p, t);
    } else {
      assert s[0] == c && s[1..] == Run(c, k - 1) + t;
      assert p(s) == Success(c, Run(c, k - 1) + t);
      StarStep(p, s);
      StarOfRun(c, k - 1, t);
      assert Run(c, k) == [c] + Run(c, k - 1);
    }
  }

  lemma StarSampleTexts()
    ensures "aaab" == Run('a', 3) + "b" && Run('a', 3) == ['a', 'a', 'a']
    ensures "b" == Run('a', 0) + "b" && Run('a', 0) == []
  {
  }

  /** `StarParser(CharParser('a'))` on "aaab" reads three 'a's; on "b" it
      succeeds with nothing read. */
  lemma StarSample()
    ensures Productive(CharParser('a'))
    ensures StarParser(CharParser('a'))("aaab") == Success(['a', 'a', 'a'], "b")
    ensures StarParser(CharParser('a'))("b") == Success([], "b")
  {
    StarSampleTexts();
    StarOfRun('a', 3, "b");
    StarOfRun('a', 0, "b");
  }

  /** A list of one element, for any separator and element parser. */
  lemma ListOfOne<T, S>(sep: Parser<S>, elem: Parser<T>, s: string, r: string, a: T)
    requires Productive(SepThenElem(sep, elem))
    requires elem(s) == Success(a, r) && SepThenElem(sep, elem)(r).Fail?
    ensures NonEmptyListParser(sep, elem)(s) == Success([a], r)
  {
    var q := SepThenElem(sep, elem);
    assert StarParser(q)(r) == Success([], r);
    ListTexts(a, a, a);
  }

  /** `nonEmptyListParser(plus, number())` fails on the empty input. */
  lemma NumberListEmpty()
    ensures NumberList()("").Fail?
  {
    NumberProductive();
    NumberParserSpec("");
    NonEmptyListSpec(Plus, NumberParser(), "");
  }

  lemma NumberListOneTexts()
    ensures "5" == NatToString(5) + "" && "1+" == NatToString(1) + "+"
    ensures "+"[0] == '+' && "+"[1..] == ""
  {
    Numerals();
    assert NatToString(5) == "5";
  }

  /** `nonEmptyListParser(plus, number())` reads "5" as the list [5]. */
  lemma NumberListSingle()
    ensures NumberList()("5") == Success([5], "")
  {
    NumberListOneTexts();
    NumberRoundTrip(5, "");
    NoPlusNumeral("");
    NumberProductive();
    ListOfOne(Plus, NumberParser(), "5", "", 5);
  }

  /** A '+' with no number after it is no further element. */
  lemma PlusWithoutNumeral()
    ensures SepThenElem(Plus, NumberParser())("+").Fail?
  {
    NumberListOneTexts();
    NumberParserSpec("");
    PrimitivesSpec((), '+', "+");
  }

  /** `nonEmptyListParser(plus, number())` leaves the '+' of "1+" unconsumed. */
  lemma NumberListDangling()
    ensures NumberList()("1+") == Success([1], "+")
  {
    NumberListOneTexts();
    NumberRoundTrip(1, "+");
    PlusWithoutNumeral();
    NumberProductive();
    ListOfOne(Plus, NumberParser(), "1+", "+", 1);
  }

  /** `number()` stops at the first non-digit and leaves the rest. */
  lemma NumberPrefix()
    ensures NumberParser()("123abc") == Success(123, "abc")
  {
    assert "123abc" == NatToString(123) + "abc" by {
      Numerals();
    }
    NumeralAt(123, "123abc", "abc");
  }

  lemma BracketSampleTexts()
    ensures NatToString(1) == "1" && NatToString(2) == "2"
    ensures "(1+2)"[0] == '(' && "(1+2)"[1..] == "1" + "+2)"
    ensures "+2)"[0] == '+' && "+2)"[1..] == "2" + ")" && ")" == ")" + ""
  {
    Numerals();
  }

  /** A primary that starts with '(' is a bracketed expression. */
  lemma PrimaryAtBracket(s: string)
    requires |s| > 0 && s[0] == '(' && PrimaryParser(s).Success?
    ensures ExprInBrackets(s) == PrimaryParser(s)
  {
    NumParserSpec(s);
  }

  /** `inBrackets(lbr, rbr, myFavParser)` on "(1+2)": each operand of the sum
      comes back wrapped in a one-operand product. */
  lemma BracketSample()
    ensures InBrackets(Lbr, Rbr, MyFavParser)("(1+2)") ==
      Success(Addition([Multiplication([Number(1)]), Multiplication([Number(2)])]), "")
  {
    BracketSampleTexts();
    BracketShapeParse(1, 2, "(1+2)", "+2)", ")", "");
    PrimaryAtBracket("(1+2)");
    ExprInBracketsIsCombinator("(1+2)");
  }
}
