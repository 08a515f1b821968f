/** The derived parsers of src/ExprParser.kt: `word`, `anySymbol` and `number`. */
module Tokens {
  import opened Decimal
  import opened Combinators
  import opened CombinatorLaws

  /** One `CharParser` per character of `str`, in order (`str.map(CharParser)`). */
  function CharParsers(str: string): seq<Parser<char>> {
    seq(|str|, i requires 0 <= i < |str| => CharParser(str[i]))
  }

  lemma CharParsersTail(str: string)
    requires |str| > 0
    ensures CharParsers(str)[0] == CharParser(str[0])
    ensures CharParsers(str)[1..] == CharParsers(str[1..])
  {
  }

  /** Matching the characters of `str` one after another succeeds exactly when
      the input starts with `str`. */
  lemma {:induction false} RunAllCharParsers(str: string, s: string)
    ensures RunAll(CharParsers(str), s) == if str <= s then Success(str, s[|str|..]) else Fail
    decreases |str|
  {
    if str != [] {
      CharParsersTail(str);
      if |s| > 0 && s[0] == str[0] {
        RunAllCharParsers(str[1..], s[1..]);
        assert (str <= s) == (str[1..] <= s[1..]);
        if str <= s {
          assert s[1..][|str| - 1..] == s[|str|..];
        }
        assert [str[0]] + str[1..] == str;
      }
    }
  }

  /** `word`: the characters of `str` in sequence.  `Sequence` yields them last
      first, and the `foldRight` that appends each element to the accumulator
      reverses them back. */
  function Word(str: string): Parser<string> {
    Map((lst: seq<char>) => Reverse(lst), Sequence(CharParsers(str)))
  }

  /** `word(str)` succeeds exactly on inputs that start with `str`, yields `str`
      and consumes exactly it. */
  lemma WordSpec(str: string, s: string)
    ensures Word(str)(s) == if str <= s then Success(str, s[|str|..]) else Fail
  {
    SequenceIsReversedRun(CharParsers(str), s);
    RunAllCharParsers(str, s);
    ReverseInvolution(str);
  }

  lemma WordRoundTrip(str: string, t: string)
    ensures Word(str)(str + t) == Success(str, t)
  {
    WordSpec(str, str + t);
    assert str <= str + t;
    assert (str + t)[|str|..] == t;
  }

  /** `anySymbol`: `Or` of one `CharParser` per character of `str`. */
  function AnySymbol(str: string): Parser<char> {
    Or(CharParsers(str))
  }

  lemma {:induction false} FirstSuccessCharParsers(str: string, s: string)
    ensures FirstSuccess(CharParsers(str), s) ==
      if |s| > 0 && s[0] in str then Success(s[0], s[1..]) else Fail
    decreases |str|
  {
    if str != [] {
      CharParsersTail(str);
      FirstSuccessCharParsers(str[1..], s);
      assert str == [str[0]] + str[1..];
    }
  }

  /** `anySymbol(str)` succeeds exactly when the first input character occurs in
      `str`, and then consumes just that character. */
  lemma AnySymbolSpec(str: string, s: string)
    ensures AnySymbol(str)(s) == if |s| > 0 && s[0] in str then Success(s[0], s[1..]) else Fail
  {
    OrFirstSuccess(CharParsers(str), s);
    FirstSuccessCharParsers(str, s);
  }

  /** `nonZeroDigit` of `number()`. */
  function NonZeroDigit(): Parser<char> {
    AnySymbol("123456789")
  }

  /** `digit` of `number()`. */
  function Digit(): Parser<char> {
    Alt(CharParser('0'), NonZeroDigit())
  }

  lemma NonZeroDigitSpec(s: string)
    ensures NonZeroDigit()(s) == if |s| > 0 && '1' <= s[0] <= '9' then Success(s[0], s[1..]) else Fail
  {
    AnySymbolSpec("123456789", s);
  }

  lemma DigitSpec(s: string)
    ensures Digit()(s) == if StartsWithDigit(s) then Success(s[0], s[1..]) else Fail
  {
    NonZeroDigitSpec(s);
  }

  lemma DigitProductive()
    ensures Productive(Digit())
  {
    forall s ensures Digit()(s).Success? ==> IsSuffix(Digit()(s).unconsumed, s) && |Digit()(s).unconsumed| < |s| {
      DigitSpec(s);
    }
  }

  /** `numParser` of `number()`: a non-zero digit followed by a greedy run of digits. */
  function DigitsParser(): Parser<seq<char>> {
    DigitProductive();
    Seq(NonZeroDigit(), (d: char) => Map((lst: seq<char>) => [d] + lst, StarParser(Digit())))
  }

  /** `makeNumber`: the value of a digit list read least significant digit first. */
  function MakeNumber(lst: seq<char>): int
    decreases |lst|
  {
    if |lst| == 0 then 0 else DigitToInt(lst[0]) + 10 * MakeNumber(lst[1..])
  }

  /** `number()`: the digits, reversed and read by `makeNumber`. */
  function NumberParser(): Parser<int> {
    Map((lst: seq<char>) => MakeNumber(Reverse(lst)), DigitsParser())
  }

  /** The length of the longest digit prefix of `s`. */
  function DigitRunLength(s: string): (n: nat)
    ensures n <= |s| && AllDigits(s[..n]) && !StartsWithDigit(s[n..])
    decreases |s|
  {
    if StartsWithDigit(s) then
      var k := DigitRunLength(s[1..]);
      assert s[..k + 1] == [s[0]] + s[1..][..k];
      assert s[k + 1..] == s[1..][k..];
      1 + k
    else 0
  }

  /** Reading the reversed list little-endian is reading the list big-endian. */
  lemma {:induction false} MakeNumberOfReverse(ds: seq<char>)
    ensures MakeNumber(Reverse(ds)) == DecimalValue(ds)
    decreases |ds|
  {
    if ds != [] {
      var init, last := ds[..|ds| - 1], ds[|ds| - 1];
      assert ds == init + [last];
      ReverseAppend(init, [last]);
      assert Reverse([last]) == [last];
      MakeNumberOfReverse(init);
      assert ([last] + Reverse(init))[1..] == Reverse(init);
    }
  }

  /** The digit repetition of `number()` takes the longest digit prefix. */
  lemma {:induction false} StarDigitSpec(s: string)
    ensures Productive(Digit()) &&
      StarParser(Digit())(s) == Success(s[..DigitRunLength(s)], s[DigitRunLength(s)..])
    decreases |s|
  {
    DigitProductive();
    DigitSpec(s);
    if StartsWithDigit(s) {
      StarDigitSpec(s[1..]);
      DigitRunStep(s);
    }
  }

  /** `numParser` takes a non-zero digit and then the rest of the digit run. */
  lemma DigitsParserUnfold(s: string)
    ensures Productive(Digit())
    ensures DigitsParser()(s) ==
      if |s| > 0 && '1' <= s[0] <= '9' then
        Success([s[0]] + StarParser(Digit())(s[1..]).result, StarParser(Digit())(s[1..]).unconsumed)
      else Fail
  {
    NonZeroDigitSpec(s);
    DigitProductive();
  }

  lemma DigitsParserSpec(s: string)
    ensures DigitsParser()(s) ==
      if |s| > 0 && '1' <= s[0] <= '9' then
        Success(s[..DigitRunLength(s)], s[DigitRunLength(s)..])
      else Fail
  {
    DigitsParserUnfold(s);
    if |s| > 0 && '1' <= s[0] <= '9' {
      DigitRunStep(s);
      StarDigitSpec(s[1..]);
    }
  }

  /** The digit run of `s` is its first digit followed by the digit run of the rest. */
  lemma DigitRunStep(s: string)
    requires StartsWithDigit(s)
    ensures DigitRunLength(s) == DigitRunLength(s[1..]) + 1
    ensures s[..DigitRunLength(s)] == [s[0]] + s[1..][..DigitRunLength(s[1..])]
    ensures s[DigitRunLength(s)..] == s[1..][DigitRunLength(s[1..])..]
  {
    var k := DigitRunLength(s[1..]);
    assert s[..k + 1] == [s[0]] + s[1..][..k];
  }

  lemma NumberParserUnfold(s: string)
    ensures NumberParser()(s).Success? <==> |s| > 0 && '1' <= s[0] <= '9'
    ensures NumberParser()(s).Success? ==>
      NumberParser()(s) == Success(MakeNumber(Reverse(s[..DigitRunLength(s)])), s[DigitRunLength(s)..])
  {
    DigitsParserSpec(s);
  }

  lemma NumberParserValue(s: string)
    requires |s| > 0 && '1' <= s[0] <= '9'
    ensures NumberParser()(s) == Success(DecimalValue(s[..DigitRunLength(s)]), s[DigitRunLength(s)..])
  {
    NumberParserUnfold(s);
    MakeNumberOfReverse(s[..DigitRunLength(s)]);
  }

  lemma DigitRunValuePositive(s: string)
    requires |s| > 0 && '1' <= s[0] <= '9'
    ensures DecimalValue(s[..DigitRunLength(s)]) >= 1
  {
    var k := DigitRunLength(s);
    assert s[..k][0] == s[0];
  }

  /** `number()` succeeds exactly on inputs starting with a digit 1-9; it then
      consumes the whole digit run and yields its decimal value, which is
      positive, leaving a remainder that does not start with a digit. */
  lemma NumberParserSpec(s: string)
    ensures NumberParser()(s).Success? <==> |s| > 0 && '1' <= s[0] <= '9'
    ensures NumberParser()(s).Success? ==>
      var k := DigitRunLength(s);
      NumberParser()(s) == Success(DecimalValue(s[..k]), s[k..]) &&
      DecimalValue(s[..k]) >= 1 && !StartsWithDigit(s[k..])
  {
    NumberParserUnfold(s);
    if |s| > 0 && '1' <= s[0] <= '9' {
      NumberParserValue(s);
      DigitRunValuePositive(s);
    }
  }

  /** A literal may not start with '0': `number()` rejects "0" and "007". */
  lemma NumberRejectsLeadingZero(s: string)
    requires |s| > 0 && s[0] == '0'
    ensures NumberParser()(s).Fail?
  {
    NumberParserSpec(s);
  }

  lemma {:induction false} DigitRunOfDigits(ds: string, t: string)
    requires AllDigits(ds) && !StartsWithDigit(t)
    ensures DigitRunLength(ds + t) == |ds|
    decreases |ds|
  {
    if ds != [] {
      assert (ds + t)[1..] == ds[1..] + t;
      DigitRunOfDigits(ds[1..], t);
    } else {
      assert ds + t == t;
    }
  }

  /** `number()` reads back the decimal text of a positive number, stopping at
      the first non-digit. */
  lemma NumberRoundTrip(n: nat, t: string)
    requires n > 0 && !StartsWithDigit(t)
    ensures NumberParser()(NatToString(n) + t) == Success(n, t)
  {
    var ds := NatToString(n);
    var s := ds + t;
    assert s[0] == ds[0] && IsDigit(ds[0]);
    DigitRunOfDigits(ds, t);
    NumberParserValue(s);
    assert s[..|ds|] == ds;
    assert s[|ds|..] == t;
    DecimalValueOfNatToString(n);
  }
}
