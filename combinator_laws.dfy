/** What the combinators of module Combinators promise: the functor and monad
    laws, backtracking, first-success choice, greedy repetition, the order of
    `Sequence`'s values, and that remainders stay suffixes of the input. */
module CombinatorLaws {
  import opened Combinators

  // ---------------------------------------------------------------------------
  // fmapResult and Map

  /** `fmapResult` passes failure through and keeps the remainder of a success. */
  lemma FmapResultSpec<T, S>(f: T -> S, arg: Result<T>)
    ensures FmapResult(f, arg).Fail? <==> arg.Fail?
    ensures arg.Success? ==> FmapResult(f, arg) == Success(f(arg.result), arg.unconsumed)
  {
  }

  /** Mapping by `f` and then by `g` is mapping by their composition. */
  lemma FmapComposition<A, B, C>(f: A -> B, g: B -> C, arg: Result<A>)
    ensures FmapResult(g, FmapResult(f, arg)) == FmapResult((x: A) => g(f(x)), arg)
  {
  }

  /** `Map` runs its parser and then applies `fmapResult`. */
  lemma MapIsFmap<T, S>(f: T -> S, p: Parser<T>, s: string)
    ensures Map(f, p)(s) == FmapResult(f, p(s))
  {
  }

  /** Mapping by the identity changes nothing. */
  lemma FunctorIdentity<T>(arg: Result<T>, p: Parser<T>, s: string)
    ensures FmapResult((x: T) => x, arg) == arg
    ensures Map((x: T) => x, p)(s) == p(s)
  {
  }

  lemma MapComposition<A, B, C>(f: A -> B, g: B -> C, p: Parser<A>, s: string)
    ensures Map(g, Map(f, p))(s) == Map((x: A) => g(f(x)), p)(s)
  {
  }

  // ---------------------------------------------------------------------------
  // Alt and Or

  /** A success of the left parser is returned as it is; otherwise the right
      parser runs on the original input. */
  lemma AltBacktracks<T>(left: Parser<T>, right: Parser<T>, s: string)
    ensures left(s).Success? ==> Alt(left, right)(s) == left(s)
    ensures left(s).Fail? ==> Alt(left, right)(s) == right(s)
  {
  }

  /** `FailParser` is a left and a right identity of `Alt`. */
  lemma AltFailIdentity<T>(p: Parser<T>, s: string)
    ensures Alt(FailParser(), p)(s) == p(s)
    ensures Alt(p, FailParser())(s) == p(s)
  {
  }

  lemma {:induction false} FoldAltFirstSuccess<T>(acc: Parser<T>, parsers: seq<Parser<T>>, s: string)
    ensures FoldAlt(acc, parsers)(s) == if acc(s).Success? then acc(s) else FirstSuccess(parsers, s)
    decreases |parsers|
  {
    if parsers != [] {
      FoldAltFirstSuccess(Alt(acc, parsers[0]), parsers[1..], s);
    }
  }

  /** `Or` returns the result of the first parser in list order that succeeds. */
  lemma OrFirstSuccess<T>(parsers: seq<Parser<T>>, s: string)
    ensures Or(parsers)(s) == FirstSuccess(parsers, s)
  {
    FoldAltFirstSuccess(FailParser(), parsers, s);
  }

  /** `FirstSuccess` fails exactly when every parser fails, and otherwise is the
      result of some parser all of whose predecessors fail. */
  lemma {:induction false} FirstSuccessIsFirst<T>(parsers: seq<Parser<T>>, s: string)
    ensures FirstSuccess(parsers, s).Fail? <==> forall i :: 0 <= i < |parsers| ==> parsers[i](s).Fail?
    ensures FirstSuccess(parsers, s).Success? ==>
      exists i :: 0 <= i < |parsers| && FirstSuccess(parsers, s) == parsers[i](s) &&
        forall j :: 0 <= j < i ==> parsers[j](s).Fail?
    decreases |parsers|
  {
    if parsers != [] {
      FirstSuccessIsFirst(parsers[1..], s);
      if parsers[0](s).Fail? {
        assert forall i :: 1 <= i < |parsers| ==> parsers[i] == parsers[1..][i - 1];
        if FirstSuccess(parsers, s).Success? {
          var i :| 0 <= i < |parsers[1..]| && FirstSuccess(parsers[1..], s) == parsers[1..][i](s) &&
            forall j :: 0 <= j < i ==> parsers[1..][j](s).Fail?;
          assert FirstSuccess(parsers, s) == parsers[i + 1](s);
        }
      } else {
        assert FirstSuccess(parsers, s) == parsers[0](s);
      }
    }
  }

  /** `Or` of no parsers fails on every input. */
  lemma OrEmptyFails<T>(s: string)
    ensures Or<T>([])(s).Fail?
  {
    OrFirstSuccess<T>([], s);
  }

  lemma OrSound<T>(parsers: seq<Parser<T>>)
    requires forall i :: 0 <= i < |parsers| ==> Sound(parsers[i])
    ensures Sound(Or(parsers))
  {
    forall s | Or(parsers)(s).Success?
      ensures IsSuffix(Or(parsers)(s).unconsumed, s)
    {
      OrFirstSuccess(parsers, s);
      FirstSuccessIsFirst(parsers, s);
    }
  }

  // ---------------------------------------------------------------------------
  // Seq

  /** `Seq` fails when its first parser fails and otherwise runs the
      continuation's parser on the first parser's remainder. */
  lemma SeqSpec<T, S>(first: Parser<T>, second: T -> Parser<S>, s: string)
    ensures first(s).Fail? ==> Seq(first, second)(s).Fail?
    ensures first(s).Success? ==>
      Seq(first, second)(s) == second(first(s).result)(first(s).unconsumed)
  {
  }

  /** The monad laws: `ReturnParser` is a left and right unit of `Seq`, and
      `Seq` is associative. */
  lemma SeqMonadLaws<A, B, C>(x: A, p: Parser<A>, k: A -> Parser<B>, h: B -> Parser<C>, s: string)
    ensures Seq(ReturnParser(x), k)(s) == k(x)(s)
    ensures Seq(p, (v: A) => ReturnParser(v))(s) == p(s)
    ensures Seq(Seq(p, k), h)(s) == Seq(p, (v: A) => Seq(k(v), h))(s)
  {
  }

  // ---------------------------------------------------------------------------
  // Suffixes are preserved

  lemma AltSound<T>(left: Parser<T>, right: Parser<T>)
    requires Sound(left) && Sound(right)
    ensures Sound(Alt(left, right))
  {
  }

  lemma MapSound<T, S>(f: T -> S, p: Parser<T>)
    ensures Sound(p) ==> Sound(Map(f, p))
    ensures Productive(p) ==> Productive(Map(f, p))
  {
  }

  lemma SoundAt<T, S>(second: T -> Parser<S>, v: T)
    requires forall x :: Sound(second(x))
    ensures Sound(second(v))
  {
  }

  lemma SeqSound<T, S>(first: Parser<T>, second: T -> Parser<S>)
    requires Sound(first) && forall x :: Sound(second(x))
    ensures Sound(Seq(first, second))
  {
    forall s | Seq(first, second)(s).Success?
      ensures IsSuffix(Seq(first, second)(s).unconsumed, s)
    {
      var v, rest := first(s).result, first(s).unconsumed;
      SoundAt(second, v);
      SuffixTransitive(second(v)(rest).unconsumed, rest, s);
    }
  }

  /** A bind consumes input when its first parser does and what follows keeps suffixes. */
  lemma SeqProductive<T, S>(first: Parser<T>, second: T -> Parser<S>)
    requires Productive(first) && forall x :: Sound(second(x))
    ensures Productive(Seq(first, second))
  {
    forall s | Seq(first, second)(s).Success?
      ensures IsSuffix(Seq(first, second)(s).unconsumed, s) && |Seq(first, second)(s).unconsumed| < |s|
    {
      var v, rest := first(s).result, first(s).unconsumed;
      SoundAt(second, v);
      SuffixTransitive(second(v)(rest).unconsumed, rest, s);
    }
  }

  /** A separator that consumes input followed by an element that keeps
      suffixes is a legal argument of `StarParser`. */
  lemma SepThenElemProductive<T, S>(separator: Parser<S>, elemParser: Parser<T>)
    requires Productive(separator) && Sound(elemParser)
    ensures Productive(SepThenElem(separator, elemParser))
  {
    SeqProductive(separator, (_: S) => elemParser);
  }

  lemma StarSound<T>(p: Parser<T>)
    requires Productive(p)
    ensures Sound(StarParser(p))
  {
  }

  // ---------------------------------------------------------------------------
  // StarParser

  /** `StarParser` never fails and stops where its element parser fails. */
  lemma StarSpec<T>(p: Parser<T>, s: string)
    requires Productive(p)
    ensures StarParser(p)(s).Success?
    ensures p(StarParser(p)(s).unconsumed).Fail?
    ensures p(s).Fail? ==> StarParser(p)(s) == Success([], s)
  {
  }

  /** `StarParser` is the recursive parser of the source: one element followed
      by a repetition (with the element put in front), or else the empty list. */
  lemma StarUnfold<T>(p: Parser<T>, s: string)
    requires Productive(p)
    ensures StarParser(p)(s) ==
      Alt(Seq(p, (x: T) => Map((lst: seq<T>) => [x] + lst, StarParser(p))), ReturnParser([]))(s)
  {
  }

  /** Where the element parser succeeds, `StarParser` puts its value in front
      of the repetition on the remainder. */
  lemma StarStep<T>(p: Parser<T>, s: string)
    requires Productive(p) && p(s).Success?
    ensures var more := StarParser(p)(p(s).unconsumed);
      StarParser(p)(s) == Success([p(s).result] + more.result, more.unconsumed)
  {
  }

  function Repeat<T>(p: Parser<T>, n: nat): (ps: seq<Parser<T>>)
    ensures |ps| == n
  {
    seq(n, _ => p)
  }

  lemma RepeatTail<T>(p: Parser<T>, n: nat)
    requires n > 0
    ensures Repeat(p, n)[0] == p && Repeat(p, n)[1..] == Repeat(p, n - 1)
  {
  }

  /** The values of `StarParser` are those of running the element parser as
      many times, in parse order. */
  lemma {:induction false} StarIsRepetition<T>(p: Parser<T>, s: string)
    requires Productive(p)
    ensures var r := StarParser(p)(s);
      RunAll(Repeat(p, |r.result|), s) == Success(r.result, r.unconsumed)
    decreases |s|
  {
    var r := StarParser(p)(s);
    match p(s)
    case Fail =>
      assert r == Success([], s);
    case Success(x, rest) =>
      var more := StarParser(p)(rest);
      assert r == Success([x] + more.result, more.unconsumed);
      StarIsRepetition(p, rest);
      RepeatTail(p, |r.result|);
      assert ([x] + more.result)[1..] == more.result;
  }

  /** `StarParser` is greedy: no longer repetition of the element parser succeeds. */
  lemma {:induction false} StarIsLongest<T>(p: Parser<T>, n: nat, s: string)
    requires Productive(p)
    requires RunAll(Repeat(p, n), s).Success?
    ensures n <= |StarParser(p)(s).result|
    decreases n
  {
    if n > 0 {
      RepeatTail(p, n);
      var rest := p(s).unconsumed;
      StarIsLongest(p, n - 1, rest);
    }
  }

  // ---------------------------------------------------------------------------
  // Sequence

  lemma ReverseCons<T>(x: T, xs: seq<T>)
    ensures Reverse([x] + xs) == Reverse(xs) + [x]
  {
    assert ([x] + xs)[1..] == xs;
  }

  lemma {:induction false} ReverseAppend<T>(a: seq<T>, b: seq<T>)
    ensures Reverse(a + b) == Reverse(b) + Reverse(a)
    decreases |a|
  {
    if a == [] {
      assert a + b == b;
    } else {
      assert (a + b)[1..] == a[1..] + b;
      ReverseAppend(a[1..], b);
    }
  }

  /** Reversing twice gives back the list. */
  lemma {:induction false} ReverseInvolution<T>(xs: seq<T>)
    ensures Reverse(Reverse(xs)) == xs
    decreases |xs|
  {
    if xs != [] {
      ReverseAppend(Reverse(xs[1..]), [xs[0]]);
      ReverseInvolution(xs[1..]);
      assert [xs[0]] + xs[1..] == xs;
    }
  }

  lemma {:induction false} SequenceFoldSpec<T>(acc: Parser<seq<T>>, parsers: seq<Parser<T>>, s: string)
    ensures SequenceFold(acc, parsers)(s) ==
      match acc(s)
      case Fail => Fail
      case Success(l, r) => FmapResult((xs: seq<T>) => Reverse(xs) + l, RunAll(parsers, r))
    decreases |parsers|
  {
    if parsers == [] {
      match acc(s)
      case Fail =>
      case Success(l, r) =>
        assert Reverse<T>([]) + l == l;
    } else {
      var x := parsers[0];
      var acc' := Seq(acc, (lst: seq<T>) => Map((t: T) => [t] + lst, x));
      SequenceFoldSpec(acc', parsers[1..], s);
      match acc(s)
      case Fail =>
      case Success(l, r) =>
        match x(r)
        case Fail =>
        case Success(t, r1) =>
          assert acc'(s) == Success([t] + l, r1);
          match RunAll(parsers[1..], r1)
          case Fail =>
          case Success(xs, r2) =>
            ReverseCons(t, xs);
            assert Reverse([t] + xs) + l == Reverse(xs) + ([t] + l);
  }
  }

  /** `Sequence` runs its parsers in order but its list holds their values in
      reverse order, because each value is put in front. */
  lemma SequenceIsReversedRun<T>(parsers: seq<Parser<T>>, s: string)
    ensures Sequence(parsers)(s) == FmapResult((xs: seq<T>) => Reverse(xs), RunAll(parsers, s))
  {
    SequenceFoldSpec(ReturnParser([]), parsers, s);
    match RunAll(parsers, s)
    case Fail =>
    case Success(xs, r) =>
      assert Reverse(xs) + [] == Reverse(xs);
  }

  /** Running suffix-keeping parsers one after another keeps suffixes. */
  lemma {:induction false} RunAllSuffix<T>(ps: seq<Parser<T>>, s: string)
    requires forall i :: 0 <= i < |ps| ==> Sound(ps[i])
    ensures RunAll(ps, s).Success? ==> IsSuffix(RunAll(ps, s).unconsumed, s)
    decreases |ps|
  {
    if ps != [] && ps[0](s).Success? {
      var rest := ps[0](s).unconsumed;
      assert Sound(ps[0]);
      assert forall i :: 0 <= i < |ps[1..]| ==> ps[1..][i] == ps[i + 1];
      RunAllSuffix(ps[1..], rest);
      if RunAll(ps, s).Success? {
        SuffixTransitive(RunAll(ps[1..], rest).unconsumed, rest, s);
      }
    }
  }

  /** `Sequence` of suffix-keeping parsers keeps suffixes. */
  lemma SequenceSound<T>(ps: seq<Parser<T>>)
    requires forall i :: 0 <= i < |ps| ==> Sound(ps[i])
    ensures Sound(Sequence(ps))
  {
    forall s | Sequence(ps)(s).Success?
      ensures IsSuffix(Sequence(ps)(s).unconsumed, s)
    {
      SequenceIsReversedRun(ps, s);
      RunAllSuffix(ps, s);
    }
  }

  // ---------------------------------------------------------------------------
  // nonEmptyListParser and inBrackets

  /** `nonEmptyListParser` fails exactly when its first element fails; its list
      is never empty, starts with that element, and ends where no further
      separator-element pair can be parsed (a dangling separator stays). Its
      values are those of the first element followed by the separator-element
      pairs, run one after another in parse order. */
  lemma NonEmptyListSpec<T, S>(separator: Parser<S>, elemParser: Parser<T>, s: string)
    requires Productive(SepThenElem(separator, elemParser))
    ensures NonEmptyListParser(separator, elemParser)(s).Fail? <==> elemParser(s).Fail?
    ensures var r := NonEmptyListParser(separator, elemParser)(s);
      r.Success? ==>
        |r.result| >= 1 && r.result[0] == elemParser(s).result &&
        IsSuffix(r.unconsumed, elemParser(s).unconsumed) &&
        SepThenElem(separator, elemParser)(r.unconsumed).Fail?
    ensures var r := NonEmptyListParser(separator, elemParser)(s);
      r.Success? ==>
        RunAll([elemParser] + Repeat(SepThenElem(separator, elemParser), |r.result| - 1), s)
        == Success(r.result, r.unconsumed)
  {
    var r := NonEmptyListParser(separator, elemParser)(s);
    if r.Success? {
      var q := SepThenElem(separator, elemParser);
      var rest := elemParser(s).unconsumed;
      var st := StarParser(q)(rest);
      assert r.result == [elemParser(s).result] + st.result;
      StarIsRepetition(q, rest);
      var ps := [elemParser] + Repeat(q, |r.result| - 1);
      assert ps[0] == elemParser && ps[1..] == Repeat(q, |st.result|);
    }
  }

  lemma NonEmptyListSound<T, S>(separator: Parser<S>, elemParser: Parser<T>)
    requires Productive(SepThenElem(separator, elemParser))
    ensures Sound(elemParser) ==> Sound(NonEmptyListParser(separator, elemParser))
    ensures Productive(elemParser) ==> Productive(NonEmptyListParser(separator, elemParser))
  {
    var star := StarParser(SepThenElem(separator, elemParser));
    forall s | NonEmptyListParser(separator, elemParser)(s).Success? && Sound(elemParser)
      ensures IsSuffix(NonEmptyListParser(separator, elemParser)(s).unconsumed, s)
    {
      var rest := elemParser(s).unconsumed;
      SuffixTransitive(star(rest).unconsumed, rest, s);
    }
  }

  /** `inBrackets` succeeds exactly when the opening bracket, the inner parser
      and the closing bracket succeed one after another, and yields the inner
      parser's value. */
  lemma InBracketsSpec<T, S>(lbr: Parser<S>, rbr: Parser<S>, parser: Parser<T>, s: string)
    ensures var r := InBrackets(lbr, rbr, parser)(s);
      r.Success? <==>
        lbr(s).Success? && parser(lbr(s).unconsumed).Success? &&
        rbr(parser(lbr(s).unconsumed).unconsumed).Success?
    ensures var r := InBrackets(lbr, rbr, parser)(s);
      r.Success? ==>
        r.result == parser(lbr(s).unconsumed).result &&
        r.unconsumed == rbr(parser(lbr(s).unconsumed).unconsumed).unconsumed
  {
  }

  lemma InBracketsProductive<T, S>(lbr: Parser<S>, rbr: Parser<S>, parser: Parser<T>)
    requires Productive(lbr) && Sound(rbr) && Sound(parser)
    ensures Productive(InBrackets(lbr, rbr, parser))
  {
    forall s | InBrackets(lbr, rbr, parser)(s).Success?
      ensures IsSuffix(InBrackets(lbr, rbr, parser)(s).unconsumed, s)
      ensures |InBrackets(lbr, rbr, parser)(s).unconsumed| < |s|
    {
      var s1 := lbr(s).unconsumed;
      var s2 := parser(s1).unconsumed;
      var s3 := rbr(s2).unconsumed;
      assert InBrackets(lbr, rbr, parser)(s).unconsumed == s3;
      SuffixTransitive(s3, s2, s1);
      SuffixTransitive(s3, s1, s);
    }
  }

  /** `inBrackets` of suffix-keeping parsers keeps suffixes. */
  lemma InBracketsSound<T, S>(lbr: Parser<S>, rbr: Parser<S>, parser: Parser<T>)
    requires Sound(lbr) && Sound(rbr) && Sound(parser)
    ensures Sound(InBrackets(lbr, rbr, parser))
  {
    forall s | InBrackets(lbr, rbr, parser)(s).Success?
      ensures IsSuffix(InBrackets(lbr, rbr, parser)(s).unconsumed, s)
    {
      var s1 := lbr(s).unconsumed;
      var s2 := parser(s1).unconsumed;
      var s3 := rbr(s2).unconsumed;
      assert InBrackets(lbr, rbr, parser)(s).unconsumed == s3;
      SuffixTransitive(s3, s2, s1);
      SuffixTransitive(s3, s1, s);
    }
  }
}
