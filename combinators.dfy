/** The combinator engine: the result of a parse, the primitive parsers and the
    combinators that build new parsers from old ones (src/ExprParser.kt). */
module Combinators {

  /** The outcome of one parse: a value with the unconsumed rest of the input, or failure. */
  datatype Result<+T> = Success(result: T, unconsumed: string) | Fail

  /** A parser maps any input text to a Result; it has no other effect. */
  type Parser<T> = string -> Result<T>

  /** `fmapResult`: apply `f` to the value of a success. */
  function FmapResult<T, S>(f: T -> S, arg: Result<T>): Result<S> {
    match arg
    case Fail => Fail
    case Success(v, rest) => Success(f(v), rest)
  }

  // ---------------------------------------------------------------------------
  // Remainders

  predicate IsSuffix(r: string, s: string) {
    |r| <= |s| && s[|s| - |r|..] == r
  }

  /** Every success of `p` leaves a suffix of its input. */
  ghost predicate Sound<T>(p: Parser<T>) {
    forall s :: p(s).Success? ==> IsSuffix(p(s).unconsumed, s)
  }

  /** Every success of `p` leaves a strictly shorter suffix of its input:
      `p` consumes at least one character whenever it succeeds. */
  ghost predicate Productive<T>(p: Parser<T>) {
    forall s :: p(s).Success? ==> IsSuffix(p(s).unconsumed, s) && |p(s).unconsumed| < |s|
  }

  lemma SuffixTransitive(a: string, b: string, c: string)
    requires IsSuffix(a, b) && IsSuffix(b, c)
    ensures IsSuffix(a, c)
  {
    assert c[|c| - |a|..] == c[|c| - |b|..][|b| - |a|..];
  }

  lemma SuffixDrop(s: string, k: nat)
    requires k <= |s|
    ensures IsSuffix(s[k..], s)
  {
  }

  // ---------------------------------------------------------------------------
  // Primitive parsers

  /** `EmptyParser`: succeeds with the unit value, consuming nothing. */
  function EmptyParser(): Parser<()> {
    s => Success((), s)
  }

  /** `ReturnParser`: succeeds with `arg`, consuming nothing. */
  function ReturnParser<T>(arg: T): Parser<T> {
    s => Success(arg, s)
  }

  /** `FailParser`: fails on every input. */
  function FailParser<T>(): Parser<T> {
    s => Fail
  }

  /** `CharParser`: consumes one character equal to `c`. */
  function CharParser(c: char): Parser<char> {
    s => if |s| == 0 || s[0] != c then Fail else Success(c, s[1..])
  }

  lemma PrimitivesSpec<T>(x: T, c: char, s: string)
    ensures EmptyParser()(s) == Success((), s)
    ensures ReturnParser(x)(s) == Success(x, s)
    ensures FailParser<T>()(s) == Fail
    ensures CharParser(c)(s).Success? <==> |s| > 0 && s[0] == c
    ensures CharParser(c)(s).Success? ==> CharParser(c)(s) == Success(c, s[1..])
  {
  }

  lemma PrimitivesSound<T>(x: T, c: char)
    ensures Sound(EmptyParser()) && Sound(ReturnParser(x)) && Sound(FailParser<T>())
    ensures Productive(CharParser(c))
  {
  }

  // ---------------------------------------------------------------------------
  // Combinators

  /** `Alt`: left-biased choice; the right parser sees the original input. */
  function Alt<T>(left: Parser<T>, right: Parser<T>): Parser<T> {
    s =>
      var leftResult := left(s);
      match leftResult
      case Fail => right(s)
      case Success(_, _) => leftResult
  }

  /** `Seq`: monadic bind; the continuation builds the parser for the rest. */
  function Seq<T, S>(first: Parser<T>, second: T -> Parser<S>): Parser<S> {
    s =>
      match first(s)
      case Fail => Fail
      case Success(v, rest) => second(v)(rest)
  }

  /** `Map`: transform the value of a success, leaving the remainder alone. */
  function Map<T, S>(f: T -> S, parser: Parser<T>): Parser<S> {
    s =>
      match parser(s)
      case Fail => Fail
      case Success(v, rest) => Success(f(v), rest)
  }

  /** The left fold with `Alt` that `Or` performs. */
  function FoldAlt<T>(acc: Parser<T>, parsers: seq<Parser<T>>): Parser<T>
    decreases |parsers|
  {
    if parsers == [] then acc else FoldAlt(Alt(acc, parsers[0]), parsers[1..])
  }

  /** `Or`: `parsers.fold(FailParser(), Alt)`. */
  function Or<T>(parsers: seq<Parser<T>>): Parser<T> {
    FoldAlt(FailParser(), parsers)
  }

  /** Reference meaning of `Or`: the result of the first parser in list order that succeeds. */
  function FirstSuccess<T>(parsers: seq<Parser<T>>, s: string): Result<T>
    decreases |parsers|
  {
    if parsers == [] then Fail
    else if parsers[0](s).Success? then parsers[0](s)
    else FirstSuccess(parsers[1..], s)
  }

  /** The recursion of `StarParser`: apply `parser` as often as it succeeds. */
  function StarParse<T>(parser: Parser<T>, s: string): (r: Result<seq<T>>)
    requires Productive(parser)
    ensures r.Success? && IsSuffix(r.unconsumed, s)
    ensures parser(r.unconsumed).Fail?
    decreases |s|
  {
    match parser(s)
    case Fail => Success([], s)
    case Success(x, rest) =>
      var more := StarParse(parser, rest);
      SuffixTransitive(more.unconsumed, rest, s);
      Success([x] + more.result, more.unconsumed)
  }

  /** `StarParser`: greedy zero-or-more repetition.  It terminates only because
      the element parser consumes input whenever it succeeds. */
  function StarParser<T>(parser: Parser<T>): Parser<seq<T>>
    requires Productive(parser)
  {
    s => StarParse(parser, s)
  }

  function Reverse<T>(xs: seq<T>): (r: seq<T>)
    ensures |r| == |xs|
  {
    if xs == [] then [] else Reverse(xs[1..]) + [xs[0]]
  }

  /** The left fold with `Seq` that `Sequence` performs: each new value is put
      in front of the list built so far. */
  function SequenceFold<T>(acc: Parser<seq<T>>, parsers: seq<Parser<T>>): Parser<seq<T>>
    decreases |parsers|
  {
    if parsers == [] then acc
    else
      var x := parsers[0];
      SequenceFold(Seq(acc, (lst: seq<T>) => Map((t: T) => [t] + lst, x)), parsers[1..])
  }

  /** `Sequence`: run the parsers one after another, starting from an empty list. */
  function Sequence<T>(parsers: seq<Parser<T>>): Parser<seq<T>> {
    SequenceFold(ReturnParser([]), parsers)
  }

  /** Reference meaning of running parsers one after another: their values in
      parse order, or failure as soon as one fails. */
  function RunAll<T>(parsers: seq<Parser<T>>, s: string): Result<seq<T>>
    decreases |parsers|
  {
    if parsers == [] then Success([], s)
    else
      match parsers[0](s)
      case Fail => Fail
      case Success(x, rest) =>
        match RunAll(parsers[1..], rest)
        case Fail => Fail
        case Success(xs, rest') => Success([x] + xs, rest')
  }

  /** `sepThenElem` of `nonEmptyListParser`: a separator, then an element. */
  function SepThenElem<T, S>(separator: Parser<S>, elemParser: Parser<T>): Parser<T> {
    Seq(separator, (_: S) => elemParser)
  }

  /** `nonEmptyListParser`: one element, then any number of separator-element pairs. */
  function NonEmptyListParser<T, S>(separator: Parser<S>, elemParser: Parser<T>): Parser<seq<T>>
    requires Productive(SepThenElem(separator, elemParser))
  {
    Seq(elemParser, (elem: T) => Map((lst: seq<T>) => [elem] + lst, StarParser(SepThenElem(separator, elemParser))))
  }

  /** `inBrackets`: `lbr`, then `parser`, then `rbr`, keeping only `parser`'s value. */
  function InBrackets<T, S>(lbr: Parser<S>, rbr: Parser<S>, parser: Parser<T>): Parser<T> {
    Seq(lbr, (_: S) => Seq(parser, (res: T) => Map((_: S) => res, rbr)))
  }
}
