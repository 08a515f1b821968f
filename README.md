# Parser combinators and arithmetic trees, in Dafny

This project models the core of a small Kotlin parser-combinator tutorial:

- a **combinator engine** over strings. A `Result` is `Success(result, unconsumed)` or `Fail`. The primitive parsers are `EmptyParser`, `ReturnParser`, `FailParser` and `CharParser`. The combinators are `Alt`, `Seq`, `Map`, `Or`, `StarParser`, `Sequence`, `nonEmptyListParser` and `inBrackets`. The derived parsers are `word`, `anySymbol` and `number`.
- the grammar `myFavParser`: sums of products of primaries, where a primary is a bracketed sum or a number literal.
- an **arithmetic tree** `AST` (`Addition`, `Multiplication`, `Number`), with the printer `nicelyPrint` and the evaluator `evaluateExpr`.

A parser is a total Dafny function `string -> Result<T>`, and each combinator is a function that builds one (module `Combinators`). What each combinator promises is proved in `CombinatorLaws`:

- the functor laws;
- that `Alt` backtracks;
- that `Or` returns the first success;
- the monad laws of `Seq`;
- that `StarParser` is greedy;
- that `Sequence` yields its values in reverse order;
- that every remainder is a suffix of its input.

`Tokens` builds `word`, `anySymbol` and `number` from the combinators, as the source does, and proves exactly what each one accepts. For example: `number()` rejects a leading `0`, and it reads back the decimal text of every positive number.

`Grammar` writes the rules of `myFavParser` as mutually recursive functions. The recursion decreases on (length of the input, rule level): the cycle primary → sum consumes a `(` first. Lemmas show that each rule equals the combinator expression the Kotlin object builds. For example, `sumParser` is `Map(Addition, nonEmptyListParser(plus, mulParser))`.

`Ast` proves properties of the printer and the evaluator:

- the shape of each print;
- balanced parentheses;
- that sums and products evaluate to the sum and product of their children.

`RoundTrip` relates the printer to the grammar. Take a tree whose leaves are positive and whose sums and products are non-empty; every tree the parser builds is one (`SumTreePrintable`). Parsing the print of such a tree consumes all of it, and gives the tree with the extra levels the grammar adds (`Reparse`). That tree has the same value. `Scenarios` proves the concrete cases of `src/Main.kt` and a few edge cases.

Design notes:

- The Kotlin code builds lists with `ArrayList.add(0, x)` inside `StarParser`, `Sequence`, `number` and `nonEmptyListParser`. Each list is fresh and never shared, so each prepend is modelled as the sequence `[x] + lst`.
- `Or` and `Sequence` are left folds (`FoldAlt`, `SequenceFold`), as in the source.
- The `foldRight` in `word`, which appends each element to the accumulator, is the `Reverse` function.
- The payload of `AST` is fixed to `int`, which is the only instance the source uses.

The grammar wraps every operand of a sum in a product:

- `inBrackets(lbr, rbr, myFavParser)` reads `"(1+2)"` as `Addition([Multiplication([Number(1)]), Multiplication([Number(2)])])` (`BracketSample`).
- `"123+45*6+78"` prints back as `((123)+(45*6)+(78))` (`FirstSample`).

## Model

| member | source | states |
|---|---|---|
| `Combinators.PrimitivesSpec` | src/ExprParser.kt:22-45 | `EmptyParser` and `ReturnParser(x)` succeed without consuming; `FailParser` always fails; `CharParser(c)` succeeds iff the input is non-empty and starts with `c`, and then yields `c` and drops one character (unfolds the definition) |
| `Combinators.PrimitivesSound` | src/ExprParser.kt:22-45 | the primitives leave suffixes of their input; `CharParser` consumes at least one character on success |
| `Combinators.StarParse` | src/ExprParser.kt:82-92 | the repetition of `StarParser` always succeeds, leaves a suffix of its input, and stops where the element parser fails |
| `CombinatorLaws.FmapResultSpec` | src/ExprParser.kt:10-15 | `fmapResult` fails iff its argument fails; on `Success(v, r)` it gives `Success(f(v), r)` (unfolds the definition) |
| `CombinatorLaws.FmapComposition` | src/ExprParser.kt:10-15 | mapping by `f` then `g` equals mapping by `g ∘ f` |
| `CombinatorLaws.MapIsFmap` | src/ExprParser.kt:94-103 | `Map(f, p)` on `s` is `fmapResult(f, p(s))` |
| `CombinatorLaws.FunctorIdentity` | src/ExprParser.kt:94-103 | `fmapResult` and `Map` by the identity function change nothing |
| `CombinatorLaws.MapComposition` | src/ExprParser.kt:94-103 | `Map(g, Map(f, p))` equals `Map(g ∘ f, p)` on every input |
| `CombinatorLaws.AltBacktracks` | src/ExprParser.kt:47-56 | a left success is returned unchanged; after a left failure the right parser runs on the original input (unfolds the definition) |
| `CombinatorLaws.AltFailIdentity` | src/ExprParser.kt:47-56 | `FailParser` is a left and a right identity of `Alt` |
| `CombinatorLaws.FoldAltFirstSuccess` | src/ExprParser.kt:73-78 | the left fold with `Alt` returns the accumulator's success, else the first success in the list |
| `CombinatorLaws.OrFirstSuccess` | src/ExprParser.kt:70-80 | `Or(ps)` equals the first success among `ps` in list order |
| `CombinatorLaws.FirstSuccessIsFirst` | src/ExprParser.kt:70-80 | the first success fails iff every parser fails; otherwise it is the result of some parser all of whose predecessors fail |
| `CombinatorLaws.OrEmptyFails` | src/ExprParser.kt:70-80 | `Or` of the empty list fails on every input |
| `CombinatorLaws.OrSound` | src/ExprParser.kt:70-80 | `Or` of suffix-keeping parsers keeps suffixes |
| `CombinatorLaws.SeqSpec` | src/ExprParser.kt:58-68 | `Seq` fails when its first parser fails, and otherwise runs the continuation's parser on the first parser's remainder (unfolds the definition) |
| `CombinatorLaws.SeqMonadLaws` | src/ExprParser.kt:58-68 | `ReturnParser` is a left and right unit of `Seq`; `Seq` is associative |
| `CombinatorLaws.AltSound` | src/ExprParser.kt:47-56 | `Alt` of suffix-keeping parsers keeps suffixes |
| `CombinatorLaws.MapSound` | src/ExprParser.kt:94-103 | `Map` keeps its parser's suffix and consumption properties |
| `CombinatorLaws.SeqSound` | src/ExprParser.kt:58-68 | `Seq` of suffix-keeping parsers keeps suffixes |
| `CombinatorLaws.SeqProductive` | src/ExprParser.kt:58-68 | a bind consumes input when its first parser does |
| `CombinatorLaws.SepThenElemProductive` | src/ExprParser.kt:155-156 | separator-then-element consumes input when the separator does |
| `CombinatorLaws.StarSound` | src/ExprParser.kt:82-92 | `StarParser` keeps suffixes |
| `CombinatorLaws.StarSpec` | src/ExprParser.kt:82-92 | `StarParser` never fails; its remainder is one on which the element parser fails; if the element parser fails at once, it yields `[]` and the whole input |
| `CombinatorLaws.StarUnfold` | src/ExprParser.kt:85-91 | `StarParser(p)` equals `Alt(Seq(p, x -> Map(prepend x, StarParser(p))), ReturnParser([]))`, the parser the source builds |
| `CombinatorLaws.StarStep` | src/ExprParser.kt:85-91 | where the element parser succeeds, its value is put in front of the repetition on its remainder (unfolds the definition) |
| `CombinatorLaws.StarIsRepetition` | src/ExprParser.kt:82-92 | the values of `StarParser` are those of running the element parser that many times in a row, in parse order |
| `CombinatorLaws.StarIsLongest` | src/ExprParser.kt:82-92 | greediness: no longer run of the element parser succeeds |
| `CombinatorLaws.ReverseInvolution` | src/ExprParser.kt:128 | reversing twice gives the list back |
| `CombinatorLaws.SequenceFoldSpec` | src/ExprParser.kt:110-121 | the fold of `Sequence` runs the parsers in order and puts their values, reversed, in front of the accumulator's list |
| `CombinatorLaws.RunAllSuffix` | src/ExprParser.kt:110-121 | running suffix-keeping parsers in order, a success leaves a suffix of the input |
| `CombinatorLaws.SequenceSound` | src/ExprParser.kt:105-124 | `Sequence` of suffix-keeping parsers keeps suffixes |
| `CombinatorLaws.SequenceIsReversedRun` | src/ExprParser.kt:105-124 | `Sequence(ps)` fails iff running `ps` in order fails, and otherwise yields their values in reverse order, with the same remainder |
| `CombinatorLaws.NonEmptyListSpec` | src/ExprParser.kt:155-161 | `nonEmptyListParser` fails iff its first element fails; its list is non-empty and starts with that element; it stops where no separator-element pair follows; its values and remainder are those of the first element followed by that many separator-element pairs, run in parse order |
| `CombinatorLaws.NonEmptyListSound` | src/ExprParser.kt:155-161 | `nonEmptyListParser` keeps suffixes, and consumes input when its element parser does |
| `CombinatorLaws.InBracketsSpec` | src/ExprParser.kt:163-164 | `inBrackets` succeeds iff the opening bracket, the parser and the closing bracket succeed in turn, and it yields exactly the parser's value |
| `CombinatorLaws.InBracketsSound` | src/ExprParser.kt:163-164 | `inBrackets` of suffix-keeping parsers keeps suffixes |
| `CombinatorLaws.InBracketsProductive` | src/ExprParser.kt:163-164 | `inBrackets` consumes input when its opening bracket does |
| `Tokens.RunAllCharParsers` | src/ExprParser.kt:127 | matching the characters of `str` in turn succeeds iff the input starts with `str`, and consumes exactly `str` |
| `Tokens.WordSpec` | src/ExprParser.kt:126-130 | `word(str)` yields `str` and the rest of the input iff the input starts with `str`, and fails otherwise |
| `Tokens.WordRoundTrip` | src/ExprParser.kt:126-130 | `word(s)` on `s + t` gives `Success(s, t)` |
| `Tokens.FirstSuccessCharParsers` | src/ExprParser.kt:184-185 | the first success among the character parsers of `str` consumes the first input character iff it occurs in `str` |
| `Tokens.AnySymbolSpec` | src/ExprParser.kt:184-185 | `anySymbol(str)` succeeds iff the first input character occurs in `str`, and then consumes exactly that character |
| `Tokens.NonZeroDigitSpec` | src/ExprParser.kt:140 | `nonZeroDigit` accepts exactly one leading character from 1 to 9 |
| `Tokens.DigitSpec` | src/ExprParser.kt:141 | `digit` accepts exactly one leading character from 0 to 9 |
| `Tokens.DigitProductive` | src/ExprParser.kt:141 | `digit` consumes a character whenever it succeeds, so it is a legal argument of `StarParser` |
| `Tokens.DigitRunLength` | src/ExprParser.kt:143-145 | the longest digit prefix: all digits, with no digit after it |
| `Tokens.StarDigitSpec` | src/ExprParser.kt:145 | `StarParser(digit)` takes exactly the longest digit prefix |
| `Tokens.DigitsParserUnfold` | src/ExprParser.kt:143-145 | `numParser` is a non-zero digit followed by the digit repetition on the rest |
| `Tokens.DigitsParserSpec` | src/ExprParser.kt:143-145 | `numParser` succeeds iff the input starts with 1-9, and then yields the whole digit run |
| `Tokens.MakeNumberOfReverse` | src/ExprParser.kt:134-147 | `makeNumber` of the reversed digit list is the ordinary decimal value of the list |
| `Tokens.NumberParserUnfold` | src/ExprParser.kt:132-148 | `number()` succeeds iff the input starts with 1-9, and yields `makeNumber` of the reversed digit run |
| `Tokens.NumberParserValue` | src/ExprParser.kt:132-148 | on success, `number()` yields the decimal value of the digit run and leaves what follows it |
| `Tokens.NumberParserSpec` | src/ExprParser.kt:132-148 | `number()` succeeds iff the input starts with 1-9; it then yields the positive decimal value of the whole digit run, and the remainder does not start with a digit |
| `Tokens.NumberRejectsLeadingZero` | src/ExprParser.kt:140-145 | `number()` fails on every input starting with `0`, including `"0"` |
| `Tokens.DigitRunOfDigits` | src/ExprParser.kt:145 | a digit string followed by a non-digit has exactly that digit run |
| `Tokens.NumberRoundTrip` | src/ExprParser.kt:132-148 | for `n > 0`, `number()` on the decimal text of `n` followed by a non-digit suffix gives `Success(n, suffix)` |
| `Decimal.NatToString` | src/AST.kt:17 | the decimal text of a natural number: one or more digits, with no leading zero; 0 is printed as `0` |
| `Decimal.DecimalValueOfNatToString` | src/AST.kt:17 | reading the decimal text of `n` gives `n` |
| `Decimal.NatToStringOfDecimalValue` | src/ExprParser.kt:132-148 | a digit string with no leading zero is the decimal text of its value |
| `Decimal.DigitCharOfDigit` | src/ExprParser.kt:133 | `digitToInt` of a digit character is below 10, and that digit's character is the character itself |
| `Ast.PrintNumber` | src/AST.kt:17 | a `Number` prints as the text of its value; for a non-negative value that text reads back as the value |
| `Ast.PrintCompound` | src/AST.kt:18-29 | a sum or product prints as `(`, its children's prints joined by `+` or `*`, then `)` |
| `Ast.JoinPrintedAppend` | src/AST.kt:18-29 | joining two non-empty child lists puts exactly one separator between the two joins |
| `Ast.PrintBalanced` | src/AST.kt:15-30 | every printed tree has balanced parentheses |
| `Ast.JoinBalanced` | src/AST.kt:18-29 | children's prints joined by an operator have balanced parentheses |
| `Ast.BalancedWrap` | src/AST.kt:18-29 | wrapping a balanced text in parentheses keeps it balanced |
| `Ast.FoldSumIsSum` | src/AST.kt:35-38 | the fold of `evaluateExpr` with `+` adds the children's values to the accumulator |
| `Ast.FoldProductIsProduct` | src/AST.kt:39-42 | the fold of `evaluateExpr` with `*` multiplies the accumulator by the children's values |
| `Ast.EvaluateAddition` | src/AST.kt:35-38 | a sum evaluates to the sum of its children's values; `Addition([])` evaluates to 0 |
| `Ast.EvaluateMultiplication` | src/AST.kt:39-42 | a product evaluates to the product of its children's values; `Multiplication([])` evaluates to 1 |
| `Ast.EvaluateAppend` | src/AST.kt:32-42 | splitting the children of a sum or a product splits its value into a sum or a product of the two parts |
| `Grammar.MyFavParser` | src/ExprParser.kt:180-181 | a successful parse consumes at least one character and leaves a suffix; its tree is an `Addition` of one or more `Multiplication`s of one or more primaries |
| `Grammar.SumParser` | src/ExprParser.kt:177-178 | on success: a suffix, at least one character consumed, a non-empty `Addition` of products |
| `Grammar.SumTail` | src/ExprParser.kt:177-178 | the `+` repetition never fails, leaves a suffix and yields only products |
| `Grammar.MulParser` | src/ExprParser.kt:174-175 | on success: a suffix, at least one character consumed, a non-empty `Multiplication` of primaries |
| `Grammar.MulTail` | src/ExprParser.kt:174-175 | the `*` repetition never fails, leaves a suffix and yields only primaries |
| `Grammar.PrimaryParser` | src/ExprParser.kt:171-172 | on success: a suffix, at least one character consumed, a positive `Number` or a sum tree |
| `Grammar.ExprInBrackets` | src/ExprParser.kt:167 | on success: a suffix, at least one character consumed, a sum tree |
| `Grammar.NumParserSpec` | src/ExprParser.kt:169 | `numParser` succeeds iff the input starts with 1-9, yielding `Number` of the digit run's positive value |
| `Grammar.NumParserShape` | src/ExprParser.kt:169 | `numParser` consumes input and yields a positive `Number` |
| `Grammar.GrammarProductive` | src/ExprParser.kt:166-182 | every rule consumes input on success, so the repetitions over them are legal |
| `Grammar.SumTailIsStar` | src/ExprParser.kt:177-178 | the `+` repetition is `StarParser(sepThenElem(plus, mulParser))` |
| `Grammar.MulTailIsStar` | src/ExprParser.kt:174-175 | the `*` repetition is `StarParser(sepThenElem(mult, primaryParser))` |
| `Grammar.SumParserIsCombinator` | src/ExprParser.kt:177-178 | `sumParser` equals `Map(Addition, nonEmptyListParser(plus, mulParser))` |
| `Grammar.MulParserIsCombinator` | src/ExprParser.kt:174-175 | `mulParser` equals `Map(Multiplication, nonEmptyListParser(mult, primaryParser))` |
| `Grammar.ExprInBracketsIsCombinator` | src/ExprParser.kt:167 | `exprInBrackets` equals `inBrackets(lbr, rbr, myFavParser)` |
| `Grammar.PrimaryParserIsCombinator` | src/ExprParser.kt:171-172 | `primaryParser` equals `Alt(exprInBrackets, numParser)` |
| `Grammar.MyFavParserFirstChar` | src/ExprParser.kt:166-182 | a successful parse starts at `(` or at a digit 1-9 |
| `Grammar.PrimaryFirstChar` | src/ExprParser.kt:171-172 | a successful primary starts at `(` or at a digit 1-9 |
| `Grammar.MyFavParserRejectsLeadingZero` | src/ExprParser.kt:166-182 | the grammar fails on the empty input and on every input starting with `0` |
| `Grammar.PrimaryOfNumeral` | src/ExprParser.kt:169-172 | the decimal text of `n > 0` followed by a non-digit is the primary `Number(n)` |
| `Grammar.SumTailOfSum` | src/ExprParser.kt:177-178 | after a `+`, the repetition reads the operands of the sum that follows |
| `Grammar.MulTailOfProduct` | src/ExprParser.kt:174-175 | after a `*`, the repetition reads the operands of the product that follows |
| `Grammar.BracketsStep` | src/ExprParser.kt:163-172 | `(`, a sum, then `)` is a primary with the sum's tree |
| `Grammar.ProductOfPrimary` | src/ExprParser.kt:174-175 | a primary not followed by a digit or `*` is a one-operand product |
| `Grammar.SumOfProduct` | src/ExprParser.kt:177-178 | a product not followed by a digit, `*` or `+` is a one-operand sum |
| `Grammar.SumOfLoneProduct` | src/ExprParser.kt:177-178 | a product after which the `+` repetition reads nothing is a one-operand sum |
| `Grammar.ProductStep` | src/ExprParser.kt:174-175 | a primary, `*`, then a product, is the longer product |
| `Grammar.SumStep` | src/ExprParser.kt:177-178 | a product, `+`, then a sum, is the longer sum |
| `Grammar.NoOperand` | src/ExprParser.kt:171-178 | input starting with neither `(` nor 1-9 is neither a product nor a sum |
| `Grammar.DanglingPlus` | src/ExprParser.kt:155-161 | a `+` with no product after it is left in the remainder (unfolds the definition) |
| `Grammar.TailsStop` | src/ExprParser.kt:155-161 | with no operator ahead, both repetitions read nothing (unfolds the definition) |
| `RoundTrip.SumTreePrintable` | src/ExprParser.kt:177-178 | every tree the grammar builds has only positive leaves and non-empty sums and products |
| `RoundTrip.ReparseEvaluates` | src/AST.kt:32-42 | the extra levels the grammar adds to a tree do not change its value |
| `RoundTrip.PrimaryOfPrint` | src/AST.kt:15-30 | the print of a printable tree, followed by a non-digit, is read as a primary: the tree with the grammar's extra levels |
| `RoundTrip.ProductOfPrints` | src/AST.kt:18-23 | prints joined by `*` are read as one product |
| `RoundTrip.SumOfPrints` | src/AST.kt:24-29 | prints joined by `+` are read as one sum of one-operand products |
| `RoundTrip.ParsePrint` | src/AST.kt:15-30 | `myFavParser` reads the whole print of a printable tree `t`, as `Addition([Multiplication([Reparse(t)])])` |
| `RoundTrip.ReprintKeepsValue` | src/ExprParser.kt:166-182 | printing a parsed tree and parsing that again consumes the whole print and gives a tree with the same value |
| `Scenarios.SampleTreePrint` | src/Main.kt:2-12 | the tree 13 + 42 * 69 prints as `(13+(42*69))` |
| `Scenarios.SampleTreeValue` | src/Main.kt:2-13 | the tree 13 + 42 * 69 evaluates to 2911 |
| `Scenarios.WordSample` | src/Main.kt:15 | `word("abc")` on `"abcd"` gives `Success("abc", "d")` |
| `Scenarios.NumberSample` | src/Main.kt:16 | `number()` on `"123"` gives `Success(123, "")` |
| `Scenarios.NumberListSample` | src/Main.kt:18 | `nonEmptyListParser(plus, number())` on `"123+45+678"` gives `Success([123, 45, 678], "")` |
| `Scenarios.FirstShapeParse` | src/ExprParser.kt:166-182 | a + b * c + d parses as three products, the middle one with two operands |
| `Scenarios.FirstSample` | src/Main.kt:20-22 | `"123+45*6+78"` parses completely; it prints as `((123)+(45*6)+(78))` and evaluates to 471 |
| `Scenarios.SecondShapeParse` | src/ExprParser.kt:166-182 | ( a + b ) * c + d parses with the bracketed sum as the first operand of the first product |
| `Scenarios.SecondSample` | src/Main.kt:24-26 | `"(123+45)*6+78"` parses completely; it prints as `((((123)+(45))*6)+(78))` and evaluates to 1086 |
| `Scenarios.TrailingOperator` | src/ExprParser.kt:155-161 | `myFavParser` on `"1+"` gives the sum of 1 and leaves `"+"` |
| `Scenarios.StarOfRun` | src/ExprParser.kt:82-92 | `StarParser(CharParser(c))` reads a whole run of `c`s and stops at the first other character |
| `Scenarios.StarSample` | src/ExprParser.kt:82-92 | `StarParser(CharParser('a'))` gives `(['a','a','a'], "b")` on `"aaab"` and `([], "b")` on `"b"` |
| `Scenarios.ListOfOne` | src/ExprParser.kt:155-161 | one element with no separator-element pair after it is a one-element list |
| `Scenarios.NumberListEmpty` | src/ExprParser.kt:155-161 | `nonEmptyListParser(plus, number())` fails on `""` |
| `Scenarios.NumberListSingle` | src/ExprParser.kt:155-161 | `nonEmptyListParser(plus, number())` on `"5"` gives `Success([5], "")` |
| `Scenarios.NumberListDangling` | src/ExprParser.kt:155-161 | `nonEmptyListParser(plus, number())` on `"1+"` gives `Success([1], "+")` |
| `Scenarios.NumberPrefix` | src/ExprParser.kt:132-148 | `number()` on `"123abc"` gives `Success(123, "abc")` |
| `Scenarios.BracketSample` | src/ExprParser.kt:163-167 | `inBrackets(lbr, rbr, myFavParser)` on `"(1+2)"` gives the sum of two one-operand products, with nothing left |

## Left out

- `src/Main.kt` prints to the console. That I/O is not modelled; its inputs appear only as the concrete lemmas in `Scenarios`.
- The `toString` text of `Result` and of the data classes is not modelled. The model compares the structural values `Success` and `Fail`.
- Kotlin `Int` is 32-bit, but the model uses unbounded integers and assumes no overflow:
  - `Ast.EvaluateAddition`: does not model 32-bit wrap-around of the sum.
  - `Ast.EvaluateMultiplication`: does not model 32-bit wrap-around of the product.
  - `Tokens.NumberParserSpec`: does not model the wrap-around of `makeNumber` on literals above 2147483647; for example, the values in `Tokens.NumberRoundTrip` hold only without it.
- `Combinators.StarParser` and `Combinators.NonEmptyListParser` require that the repeated parser consume at least one character on every success (`Productive`). On a parser that can succeed without consuming, the Kotlin code recurses until the stack overflows. That run has no result, so it is excluded rather than modelled.
- How the `myFavParser` object refers to itself through `this` during initialisation is not modelled. The rules are mutually recursive functions instead, and `Grammar.ExprInBracketsIsCombinator` shows this is the same parser.
- The generic payload of `AST<T>` is not modelled: the payload is `int`. For `Int`, `nicelyPrint` uses Kotlin's `Int.toString`, which is `Decimal.IntToString`.
- Generic variance (`out T`) and the never-reassigned `var` fields of `Alt` and `Seq` are not modelled.
- Call-stack depth on deeply nested or long inputs is not modelled.
- Tokens.AnySymbolSpec, Combinators.PrimitivesSpec: the grammar and the sample inputs use only ASCII. Characters outside the Basic Multilingual Plane differ: Kotlin's `anySymbol` and `CharParser` work on UTF-16 code units, while the model's `char` is a Unicode scalar value. So the model does not capture that `anySymbol("\uD83D\uDE00")` on `"\uD83D\uDE00x"` leaves `"\uDE00x"`, nor inputs holding lone surrogates.
