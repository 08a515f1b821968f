/** `myFavParser` of src/ExprParser.kt: sums of products of primaries, where a
    primary is a bracketed sum or a number literal.

    The Kotlin object wires its rules through `this`.  Here each rule is a
    function of the input, and the rules are mutually recursive; the recursion
    terminates on (length of the input, rule level), the cycle primary -> sum
    being guarded by the '(' it consumes.  The lemmas at the end show that each
    rule is exactly the combinator expression the Kotlin code builds. */
module Grammar {
  import opened Decimal
  import opened Combinators
  import opened CombinatorLaws
  import opened Tokens
  import opened Ast

  const Lbr: Parser<char> := CharParser('(')
  const Rbr: Parser<char> := CharParser(')')
  const Plus: Parser<char> := CharParser('+')
  const Mult: Parser<char> := CharParser('*')

  // ---------------------------------------------------------------------------
  // The shape of the trees the grammar builds

  /** An `Addition` of one or more product trees. */
  predicate IsSumTree(t: AST)
    decreases t, 0
  {
    t.Addition? && |t.addendums| >= 1 &&
    forall i :: 0 <= i < |t.addendums| ==> IsMulTree(t.addendums[i])
  }

  /** A `Multiplication` of one or more primary trees. */
  predicate IsMulTree(t: AST)
    decreases t, 0
  {
    t.Multiplication? && |t.multipliers| >= 1 &&
    forall i :: 0 <= i < |t.multipliers| ==> IsPrimaryTree(t.multipliers[i])
  }

  /** A positive `Number`, or a sum tree (from a bracketed expression). */
  predicate IsPrimaryTree(t: AST)
    decreases t, 1
  {
    (t.Number? && t.number >= 1) || IsSumTree(t)
  }

  lemma MulTreesCons(m: AST, rest: seq<AST>)
    requires IsMulTree(m) && forall i :: 0 <= i < |rest| ==> IsMulTree(rest[i])
    ensures forall i :: 0 <= i < |[m] + rest| ==> IsMulTree(([m] + rest)[i])
  {
    forall i | 0 <= i < |[m] + rest| ensures IsMulTree(([m] + rest)[i]) {
      if i > 0 { assert ([m] + rest)[i] == rest[i - 1]; }
    }
  }

  lemma PrimaryTreesCons(p: AST, rest: seq<AST>)
    requires IsPrimaryTree(p) && forall i :: 0 <= i < |rest| ==> IsPrimaryTree(rest[i])
    ensures forall i :: 0 <= i < |[p] + rest| ==> IsPrimaryTree(([p] + rest)[i])
  {
    forall i | 0 <= i < |[p] + rest| ensures IsPrimaryTree(([p] + rest)[i]) {
      if i > 0 { assert ([p] + rest)[i] == rest[i - 1]; }
    }
  }

  // ---------------------------------------------------------------------------
  // The rules

  /** `numParser` of `myFavParser`: a number literal as a `Number` leaf. */
  function NumParser(): Parser<AST> {
    Map((n: int) => Number(n), NumberParser())
  }

  lemma NumParserSpec(s: string)
    ensures NumParser()(s).Success? <==> |s| > 0 && '1' <= s[0] <= '9'
    ensures NumParser()(s).Success? ==>
      var k := DigitRunLength(s);
      NumParser()(s) == Success(Number(DecimalValue(s[..k])), s[k..]) &&
      DecimalValue(s[..k]) >= 1 && 1 <= k && !StartsWithDigit(s[k..])
  {
    NumberParserSpec(s);
  }

  lemma NumParserShape(s: string)
    ensures NumParser()(s).Success? ==>
      IsSuffix(NumParser()(s).unconsumed, s) && |NumParser()(s).unconsumed| < |s| &&
      NumParser()(s).result.Number? && NumParser()(s).result.number >= 1
  {
    NumParserSpec(s);
    if NumParser()(s).Success? {
      var k := DigitRunLength(s);
      SuffixDrop(s, k);
    }
  }

  /** `myFavParser.parse`. */
  function MyFavParser(input: string): (r: Result<AST>)
    ensures r.Success? ==> IsSuffix(r.unconsumed, input) && |r.unconsumed| < |input| && IsSumTree(r.result)
  {
    SumParser(input)
  }

  /** `sumParser`: products separated by '+', as an `Addition`. */
  function SumParser(s: string): (r: Result<AST>)
    ensures r.Success? ==> IsSuffix(r.unconsumed, s) && |r.unconsumed| < |s| && IsSumTree(r.result)
    decreases |s|, 4
  {
    match MulParser(s)
    case Fail => Fail
    case Success(m, s1) =>
      var more := SumTail(s1);
      SuffixTransitive(more.unconsumed, s1, s);
      MulTreesCons(m, more.result);
      Success(Addition([m] + more.result), more.unconsumed)
  }

  /** The repetition of '+' product pairs inside `sumParser`. */
  function SumTail(s: string): (r: Result<seq<AST>>)
    ensures r.Success? && IsSuffix(r.unconsumed, s)
    ensures forall i :: 0 <= i < |r.result| ==> IsMulTree(r.result[i])
    decreases |s|, 3
  {
    match Plus(s)
    case Fail => Success([], s)
    case Success(_, s1) =>
      match MulParser(s1)
      case Fail => Success([], s)
      case Success(m, s2) =>
        var more := SumTail(s2);
        SuffixTransitive(s2, s1, s);
        SuffixTransitive(more.unconsumed, s2, s);
        MulTreesCons(m, more.result);
        Success([m] + more.result, more.unconsumed)
  }

  /** `mulParser`: primaries separated by '*', as a `Multiplication`. */
  function MulParser(s: string): (r: Result<AST>)
    ensures r.Success? ==> IsSuffix(r.unconsumed, s) && |r.unconsumed| < |s| && IsMulTree(r.result)
    decreases |s|, 2
  {
    match PrimaryParser(s)
    case Fail => Fail
    case Success(p, s1) =>
      var more := MulTail(s1);
      SuffixTransitive(more.unconsumed, s1, s);
      PrimaryTreesCons(p, more.result);
      Success(Multiplication([p] + more.result), more.unconsumed)
  }

  /** The repetition of '*' primary pairs inside `mulParser`. */
  function MulTail(s: string): (r: Result<seq<AST>>)
    ensures r.Success? && IsSuffix(r.unconsumed, s)
    ensures forall i :: 0 <= i < |r.result| ==> IsPrimaryTree(r.result[i])
    decreases |s|, 1
  {
    match Mult(s)
    case Fail => Success([], s)
    case Success(_, s1) =>
      match PrimaryParser(s1)
      case Fail => Success([], s)
      case Success(p, s2) =>
        var more := MulTail(s2);
        SuffixTransitive(s2, s1, s);
        SuffixTransitive(more.unconsumed, s2, s);
        PrimaryTreesCons(p, more.result);
        Success([p] + more.result, more.unconsumed)
  }

  /** `primaryParser`: a bracketed expression, or else a number. */
  function PrimaryParser(s: string): (r: Result<AST>)
    ensures r.Success? ==> IsSuffix(r.unconsumed, s) && |r.unconsumed| < |s| && IsPrimaryTree(r.result)
    decreases |s|, 1
  {
    var bracketed := ExprInBrackets(s);
    match bracketed
    case Success(_, _) => bracketed
    case Fail =>
      NumParserShape(s);
      NumParser()(s)
  }

  /** `exprInBrackets`: '(' then the whole grammar then ')'. */
  function ExprInBrackets(s: string): (r: Result<AST>)
    ensures r.Success? ==> IsSuffix(r.unconsumed, s) && |r.unconsumed| < |s| && IsSumTree(r.result)
    decreases |s|, 0
  {
    match Lbr(s)
    case Fail => Fail
    case Success(_, s1) =>
      match SumParser(s1)
      case Fail => Fail
      case Success(v, s2) =>
        match Rbr(s2)
        case Fail => Fail
        case Success(_, s3) =>
          SuffixTransitive(s2, s1, s);
          SuffixTransitive(s3, s2, s);
          Success(v, s3)
  }

  // ---------------------------------------------------------------------------
  // The rules are the combinator expressions of the source

  lemma GrammarProductive()
    ensures Productive(MyFavParser) && Productive(SumParser) && Productive(MulParser)
    ensures Productive(PrimaryParser) && Productive(ExprInBrackets)
    ensures Productive(SepThenElem(Plus, MulParser)) && Productive(SepThenElem(Mult, PrimaryParser))
  {
    PrimitivesSound((), '+');
    PrimitivesSound((), '*');
    SepThenElemProductive(Plus, MulParser);
    SepThenElemProductive(Mult, PrimaryParser);
  }

  /** The '+' repetition is `StarParser(sepThenElem(plus, mulParser))`. */
  lemma {:induction false} SumTailIsStar(s: string)
    ensures Productive(SepThenElem(Plus, MulParser)) &&
      SumTail(s) == StarParser(SepThenElem(Plus, MulParser))(s)
    decreases |s|
  {
    GrammarProductive();
    match Plus(s)
    case Fail =>
    case Success(_, s1) =>
      match MulParser(s1)
      case Fail =>
      case Success(_, s2) =>
        SumTailIsStar(s2);
  }

  /** The '*' repetition is `StarParser(sepThenElem(mult, primaryParser))`. */
  lemma {:induction false} MulTailIsStar(s: string)
    ensures Productive(SepThenElem(Mult, PrimaryParser)) &&
      MulTail(s) == StarParser(SepThenElem(Mult, PrimaryParser))(s)
    decreases |s|
  {
    GrammarProductive();
    match Mult(s)
    case Fail =>
    case Success(_, s1) =>
      match PrimaryParser(s1)
      case Fail =>
      case Success(_, s2) =>
        MulTailIsStar(s2);
  }

  /** `sumParser = Map(Addition, nonEmptyListParser(plus, mulParser))`. */
  lemma SumParserIsCombinator(s: string)
    ensures Productive(SepThenElem(Plus, MulParser)) &&
      SumParser(s) == Map((xs: seq<AST>) => Addition(xs), NonEmptyListParser(Plus, MulParser))(s)
  {
    GrammarProductive();
    if MulParser(s).Success? {
      SumTailIsStar(MulParser(s).unconsumed);
    }
  }

  /** `mulParser = Map(Multiplication, nonEmptyListParser(mult, primaryParser))`. */
  lemma MulParserIsCombinator(s: string)
    ensures Productive(SepThenElem(Mult, PrimaryParser)) &&
      MulParser(s) == Map((xs: seq<AST>) => Multiplication(xs), NonEmptyListParser(Mult, PrimaryParser))(s)
  {
    GrammarProductive();
    if PrimaryParser(s).Success? {
      MulTailIsStar(PrimaryParser(s).unconsumed);
    }
  }

  /** `exprInBrackets = inBrackets(lbr, rbr, this)`. */
  lemma ExprInBracketsIsCombinator(s: string)
    ensures ExprInBrackets(s) == InBrackets(Lbr, Rbr, MyFavParser)(s)
  {
    InBracketsSpec(Lbr, Rbr, MyFavParser, s);
  }

  /** `primaryParser = Alt(exprInBrackets, numParser)`. */
  lemma PrimaryParserIsCombinator(s: string)
    ensures PrimaryParser(s) == Alt(InBrackets(Lbr, Rbr, MyFavParser), NumParser())(s)
  {
    ExprInBracketsIsCombinator(s);
  }

  // ---------------------------------------------------------------------------
  // What the grammar accepts

  /** A successful parse starts at '(' or at a digit 1-9; in particular the
      grammar rejects the empty input and every input starting with '0'. */
  lemma MyFavParserFirstChar(s: string)
    requires MyFavParser(s).Success?
    ensures |s| > 0 && (s[0] == '(' || '1' <= s[0] <= '9')
  {
    assert MulParser(s).Success?;
    PrimaryFirstChar(s);
  }

  lemma PrimaryFirstChar(s: string)
    requires PrimaryParser(s).Success?
    ensures |s| > 0 && (s[0] == '(' || '1' <= s[0] <= '9')
  {
    if ExprInBrackets(s).Fail? {
      assert NumParser()(s).Success?;
      NumParserSpec(s);
    } else {
      assert Lbr(s).Success?;
    }
  }

  lemma MyFavParserRejectsLeadingZero(s: string)
    requires s == [] || s[0] == '0'
    ensures MyFavParser(s).Fail?
  {
    if MyFavParser(s).Success? {
      MyFavParserFirstChar(s);
    }
  }

  /** A number literal followed by a non-digit is a primary. */
  lemma PrimaryOfNumeral(n: nat, t: string)
    requires n > 0 && !StartsWithDigit(t)
    ensures PrimaryParser(NatToString(n) + t) == Success(Number(n), t)
  {
    var s := NatToString(n) + t;
    assert s[0] == NatToString(n)[0];
    assert ExprInBrackets(s).Fail?;
    NumberRoundTrip(n, t);
  }

  // One step of each rule, for proofs that follow a parse through the grammar.

  lemma SumParserStep(s: string)
    requires MulParser(s).Success?
    ensures var m := MulParser(s);
      SumParser(s) == Success(Addition([m.result] + SumTail(m.unconsumed).result), SumTail(m.unconsumed).unconsumed)
  {
  }

  lemma MulParserStep(s: string)
    requires PrimaryParser(s).Success?
    ensures var p := PrimaryParser(s);
      MulParser(s) == Success(Multiplication([p.result] + MulTail(p.unconsumed).result), MulTail(p.unconsumed).unconsumed)
  {
  }

  lemma SumTailStep(s: string)
    requires |s| > 0 && s[0] == '+' && MulParser(s[1..]).Success?
    ensures var m := MulParser(s[1..]);
      SumTail(s) == Success([m.result] + SumTail(m.unconsumed).result, SumTail(m.unconsumed).unconsumed)
  {
  }

  lemma MulTailStep(s: string)
    requires |s| > 0 && s[0] == '*' && PrimaryParser(s[1..]).Success?
    ensures var p := PrimaryParser(s[1..]);
      MulTail(s) == Success([p.result] + MulTail(p.unconsumed).result, MulTail(p.unconsumed).unconsumed)
  {
  }

  lemma BracketsStep(s: string)
    requires |s| > 0 && s[0] == '(' && SumParser(s[1..]).Success?
    requires var v := SumParser(s[1..]); |v.unconsumed| > 0 && v.unconsumed[0] == ')'
    ensures var v := SumParser(s[1..]); PrimaryParser(s) == Success(v.result, v.unconsumed[1..])
  {
    var v := SumParser(s[1..]);
    assert Lbr(s) == Success('(', s[1..]);
    assert Rbr(v.unconsumed) == Success(')', v.unconsumed[1..]);
    assert ExprInBrackets(s) == Success(v.result, v.unconsumed[1..]);
  }

  /** After a '+', the repetition reads the operands of the sum that follows. */
  lemma SumTailOfSum(s: string)
    requires |s| > 0 && s[0] == '+' && SumParser(s[1..]).Success?
    ensures SumTail(s) == Success(SumParser(s[1..]).result.addendums, SumParser(s[1..]).unconsumed)
  {
    var t := s[1..];
    assert MulParser(t).Success?;
    SumTailStep(s);
    SumParserStep(t);
    var m := MulParser(t);
    var more := SumTail(m.unconsumed);
    assert SumTail(s) == Success([m.result] + more.result, more.unconsumed);
    assert SumParser(t) == Success(Addition([m.result] + more.result), more.unconsumed);
  }

  /** After a '*', the repetition reads the operands of the product that follows. */
  lemma MulTailOfProduct(s: string)
    requires |s| > 0 && s[0] == '*' && MulParser(s[1..]).Success?
    ensures MulTail(s) == Success(MulParser(s[1..]).result.multipliers, MulParser(s[1..]).unconsumed)
  {
    var t := s[1..];
    assert PrimaryParser(t).Success?;
    MulTailStep(s);
    MulParserStep(t);
    var p := PrimaryParser(t);
    var more := MulTail(p.unconsumed);
    assert MulTail(s) == Success([p.result] + more.result, more.unconsumed);
    assert MulParser(t) == Success(Multiplication([p.result] + more.result), more.unconsumed);
  }

  /** Text that cannot continue a number or a product. */
  predicate EndsProduct(s: string) {
    !(|s| > 0 && (IsDigit(s[0]) || s[0] == '*'))
  }

  /** Text that cannot continue a number, a product or a sum. */
  predicate EndsSum(s: string) {
    EndsProduct(s) && !(|s| > 0 && s[0] == '+')
  }

  /** '(' + a sum + ')' is a primary. */
  lemma Bracketed(s: string, v: AST, rest: string)
    requires |s| > 0 && s[0] == '(' && SumParser(s[1..]) == Success(v, ")" + rest)
    ensures PrimaryParser(s) == Success(v, rest)
  {
    assert (")" + rest)[1..] == rest;
    BracketsStep(s);
  }

  /** A primary with nothing after it that continues a product is a one-operand product. */
  lemma ProductOfPrimary(s: string, p: AST, rest: string)
    requires PrimaryParser(s) == Success(p, rest) && EndsProduct(rest)
    ensures MulParser(s) == Success(Multiplication([p]), rest)
  {
    assert MulTail(rest) == Success([], rest) by {
      TailsStop(rest);
    }
    MulParserStep(s);
    assert [p] + MulTail(rest).result == [p];
  }

  /** A product with nothing after it that continues a sum is a one-operand sum. */
  lemma SumOfProduct(s: string, m: AST, rest: string)
    requires MulParser(s) == Success(m, rest) && EndsSum(rest)
    ensures SumParser(s) == Success(Addition([m]), rest)
  {
    assert SumTail(rest) == Success([], rest) by {
      TailsStop(rest);
    }
    SumOfLoneProduct(s);
  }

  /** A primary, '*', then a product: one longer product. */
  lemma ProductStep(s: string, p: AST, t: string, ps: seq<AST>, rest: string)
    requires PrimaryParser(s) == Success(p, t)
    requires |t| > 0 && t[0] == '*' && MulParser(t[1..]) == Success(Multiplication(ps), rest)
    ensures MulParser(s) == Success(Multiplication([p] + ps), rest)
  {
    MulTailOfProduct(t);
    assert MulTail(t) == Success(ps, rest);
    MulParserStep(s);
  }

  /** A product, '+', then a sum: one longer sum. */
  lemma SumStep(s: string, m: AST, t: string, ms: seq<AST>, rest: string)
    requires MulParser(s) == Success(m, t)
    requires |t| > 0 && t[0] == '+' && SumParser(t[1..]) == Success(Addition(ms), rest)
    ensures SumParser(s) == Success(Addition([m] + ms), rest)
  {
    SumTailOfSum(t);
    assert SumTail(t) == Success(ms, rest);
    SumParserStep(s);
  }

  /** Input that starts with neither '(' nor a digit 1-9 is no product and no sum. */
  lemma NoOperand(s: string)
    requires !(|s| > 0 && (s[0] == '(' || '1' <= s[0] <= '9'))
    ensures MulParser(s).Fail? && SumParser(s).Fail?
  {
    if PrimaryParser(s).Success? {
      PrimaryFirstChar(s);
    }
  }

  /** A '+' that no product follows is left unconsumed. */
  lemma DanglingPlus(s: string)
    requires |s| > 0 && s[0] == '+' && MulParser(s[1..]).Fail?
    ensures SumTail(s) == Success([], s)
  {
  }

  /** A product after which the '+' repetition reads nothing is a one-operand sum. */
  lemma SumOfLoneProduct(s: string)
    requires MulParser(s).Success?
    requires SumTail(MulParser(s).unconsumed) == Success([], MulParser(s).unconsumed)
    ensures SumParser(s) == Success(Addition([MulParser(s).result]), MulParser(s).unconsumed)
  {
    SumParserStep(s);
    assert [MulParser(s).result] + [] == [MulParser(s).result];
  }

  /** The repetitions stop at once where no operator follows. */
  lemma TailsStop(s: string)
    ensures !(|s| > 0 && s[0] == '*') ==> MulTail(s) == Success([], s)
    ensures !(|s| > 0 && s[0] == '+') ==> SumTail(s) == Success([], s)
  {
  }
}
