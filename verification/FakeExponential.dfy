/** `fakeExponential` (`packages/block/src/helpers.ts`, EIP-4844): the blob base fee by a Taylor series in
    integers. */
module FakeExponential {
  // ---------------------------------------------------------------------------------------
  // The loop
  // ---------------------------------------------------------------------------------------

  /** The next term; every division rounds down. */
  function NextTerm(acc: nat, numerator: nat, denominator: nat, i: nat): nat
    requires denominator > 0 && i > 0
  {
    acc * numerator / (denominator * i)
  }

  /** How long the terms may still grow; from then on they shrink. */
  function Growing(numerator: nat, denominator: nat, i: nat): nat
    requires denominator > 0
  {
    if denominator * i <= numerator then numerator - denominator * i + 1 else 0
  }

  lemma {:induction false} SmallerProduct(acc: nat, n: nat, d: nat)
    requires acc > 0 && n < d
    ensures IsBelow(acc * n, acc, d)
  {}

  /** Terms grow at most until the denominator times the index passes the numerator, and then strictly shrink. */
  lemma {:induction false} TermsShrink(acc: nat, numerator: nat, denominator: nat, i: nat)
    requires denominator > 0 && i > 0 && acc > 0
    ensures Growing(numerator, denominator, i) > 0
            ==> Growing(numerator, denominator, i + 1) < Growing(numerator, denominator, i)
    ensures Growing(numerator, denominator, i) == 0 ==>
              Growing(numerator, denominator, i + 1) == 0 && NextTerm(acc, numerator, denominator, i) < acc
  {
    assert denominator * (i + 1) == denominator * i + denominator;
    var d := denominator * i;
    if d > numerator {
      SmallerProduct(acc, numerator, d);
      QuotientBelow(acc * numerator, d, acc);
    }
  }

  lemma {:induction false} TimesMonotone(a: nat, b: nat, d: nat)
    requires a <= b
    ensures a * d <= b * d
  {}

  lemma {:induction false} CancelFactor(a: nat, b: nat, d: nat)
    requires a * d < b * d
    ensures a < b
  {
    if b <= a {
      TimesMonotone(b, a, d);
    }
  }

  /** `q` is the quotient of `a` by `d`. */
  predicate IsQuotient(a: nat, d: nat, q: nat) {
    q * d <= a < (q + 1) * d
  }

  predicate IsBelow(a: nat, q: nat, d: nat) {
    a < q * d
  }

  lemma {:induction false} Quotient(a: nat, d: nat)
    requires d > 0
    ensures IsQuotient(a, d, a / d)
  {
    assert a == a / d * d + a % d;
    assert (a / d + 1) * d == a / d * d + d;
  }

  lemma {:induction false} Below(a: nat, b: nat, d: nat, p: nat, q: nat)
    requires IsQuotient(a, d, p) && a <= b && IsBelow(b, q, d)
    ensures p < q
  {
    CancelFactor(p, q, d);
  }

  lemma {:induction false} QuotientBelow(a: nat, d: nat, q: nat)
    requires d > 0 && IsBelow(a, q, d)
    ensures a / d < q
  {
    hide IsQuotient, IsBelow;
    Quotient(a, d);
    Below(a, a, d, a / d, q);
  }

  /** The sum of all terms from the `i`-th on. */
  function SumFrom(acc: nat, numerator: nat, denominator: nat, i: nat): (sum: nat)
    requires denominator > 0 && i > 0
    ensures sum >= acc
    decreases Growing(numerator, denominator, i), acc
  {
    if acc == 0 then 0
    else
      TermsShrink(acc, numerator, denominator, i);
      acc + SumFrom(NextTerm(acc, numerator, denominator, i), numerator, denominator, i + 1)
  }

  function FakeExp(factor: nat, numerator: nat, denominator: nat): nat
    requires denominator > 0
  {
    SumFrom(factor * denominator, numerator, denominator, 1) / denominator
  }

  /** `fakeExponential` (helpers.ts:109-120): it terminates for every positive denominator. */
  method FakeExponential(factor: nat, numerator: nat, denominator: nat) returns (result: nat)
    requires denominator > 0
    ensures result == FakeExp(factor, numerator, denominator) && result >= factor
  {
    AtLeastFactor(factor, numerator, denominator);
    var i, output := 1, 0;
    var numeratorAccumulator := factor * denominator;
    while numeratorAccumulator > 0
      invariant i > 0 && numeratorAccumulator >= 0
      invariant output + SumFrom(numeratorAccumulator, numerator, denominator, i) ==
                SumFrom(factor * denominator, numerator, denominator, 1)
      decreases Growing(numerator, denominator, i), numeratorAccumulator
    {
      TermsShrink(numeratorAccumulator, numerator, denominator, i);
      output := output + numeratorAccumulator;
      numeratorAccumulator := (numeratorAccumulator * numerator) / (denominator * i);
      i := i + 1;
    }
    result := output / denominator;
  }

  // ---------------------------------------------------------------------------------------
  // Bounds
  // ---------------------------------------------------------------------------------------

  lemma {:induction false} DivideMonotone(a: nat, b: nat, d: nat)
    requires d > 0 && a <= b
    ensures a / d <= b / d
  {
    hide IsQuotient, IsBelow;
    Quotient(a, d);
    Quotient(b, d);
    QuotientIsBelow(b, d, b / d);
    Below(a, b, d, a / d, b / d + 1);
  }

  lemma {:induction false} QuotientIsBelow(a: nat, d: nat, q: nat)
    requires IsQuotient(a, d, q)
    ensures IsBelow(a, q + 1, d)
  {}

  lemma {:induction false} AtLeastFactor(factor: nat, numerator: nat, denominator: nat)
    requires denominator > 0
    ensures FakeExp(factor, numerator, denominator) >= factor
  {
    DivideMonotone(factor * denominator, SumFrom(factor * denominator, numerator, denominator, 1), denominator);
    QuotientOfProduct(factor, denominator);
  }

  lemma {:induction false} QuotientOfProduct(a: nat, d: nat)
    requires d > 0
    ensures a * d / d == a
  {
    Quotient(a * d, d);
    OneQuotient(a, d, a * d / d);
  }

  lemma {:induction false} OneQuotient(a: nat, d: nat, q: nat)
    requires d > 0 && IsQuotient(a * d, d, q)
    ensures q == a
  {
    assert (a + 1) * d == a * d + d;
    CancelFactor(q, a + 1, d);
    CancelFactor(a, q + 1, d);
  }

  /** A larger numerator and a larger term give a larger sum. */
  lemma {:induction false} SumMonotone(acc: nat, acc': nat, numerator: nat, numerator': nat, denominator: nat, i: nat)
    requires denominator > 0 && i > 0 && acc <= acc' && numerator <= numerator'
    ensures SumFrom(acc, numerator, denominator, i) <= SumFrom(acc', numerator', denominator, i)
    decreases Growing(numerator', denominator, i), acc'
  {
    if acc > 0 {
      TermsShrink(acc, numerator, denominator, i);
      TermsShrink(acc', numerator', denominator, i);
      ProductMonotone(acc, acc', numerator, numerator');
      DivideMonotone(acc * numerator, acc' * numerator', denominator * i);
      SumMonotone(NextTerm(acc, numerator, denominator, i), NextTerm(acc', numerator', denominator, i),
                  numerator, numerator', denominator, i + 1);
    }
  }

  lemma {:induction false} ProductMonotone(a: nat, a': nat, b: nat, b': nat)
    requires a <= a' && b <= b'
    ensures a * b <= a' * b'
  {
    assert a * b <= a' * b;
    assert a' * b <= a' * b';
  }

  /** The fee never falls when the excess or the minimum rises. */
  lemma {:induction false} Monotone(factor: nat, factor': nat, numerator: nat, numerator': nat, denominator: nat)
    requires denominator > 0 && factor <= factor' && numerator <= numerator'
    ensures FakeExp(factor, numerator, denominator) <= FakeExp(factor', numerator', denominator)
  {
    ProductMonotone(factor, factor', denominator, denominator);
    SumMonotone(factor * denominator, factor' * denominator, numerator, numerator', denominator, 1);
    DivideMonotone(SumFrom(factor * denominator, numerator, denominator, 1),
                   SumFrom(factor' * denominator, numerator', denominator, 1), denominator);
  }

  // ---------------------------------------------------------------------------------------
  // The true series
  // ---------------------------------------------------------------------------------------

  function Power(x: real, k: nat): (p: real)
    requires x >= 0.0
    ensures p >= 0.0
  {
    if k == 0 then 1.0 else Power(x, k - 1) * x
  }

  function Factorial(k: nat): (f: nat)
    ensures f > 0
  {
    if k == 0 then 1
    else
      Factorial(k - 1) * k
  }

  /** The `k`-th term of the series of the exponential function at `x`. */
  function Term(x: real, k: nat): (t: real)
    requires x >= 0.0
    ensures t >= 0.0
  {
    Power(x, k) / Factorial(k) as real
  }

  /** The first `n` terms. */
  function Taylor(x: real, n: nat): (t: real)
    requires x >= 0.0
    ensures t >= 0.0
  {
    if n == 0 then 0.0 else Taylor(x, n - 1) + Term(x, n - 1)
  }

  function Ratio(n: nat, d: nat): (x: real)
    requires d > 0
    ensures x >= 0.0
  {
    n as real / d as real
  }

  /** The number of terms the loop adds. */
  function Steps(acc: nat, numerator: nat, denominator: nat, i: nat): nat
    requires denominator > 0 && i > 0
    decreases Growing(numerator, denominator, i), acc
  {
    if acc == 0 then 0
    else
      TermsShrink(acc, numerator, denominator, i);
      1 + Steps(NextTerm(acc, numerator, denominator, i), numerator, denominator, i + 1)
  }

  lemma {:induction false} RatioTimes(n: nat, d: nat)
    requires d > 0
    ensures Ratio(n, d) * d as real == n as real
  {}

  /** Each term is the one before times `x` over its index. */
  lemma {:induction false} TermNext(x: real, k: nat)
    requires x >= 0.0 && k > 0
    ensures Term(x, k) * k as real == Term(x, k - 1) * x
  {}

  /** A term that is not above the exact one is followed by one that is not. */
  lemma {:induction false} NextBelow(acc: nat, c: real, numerator: nat, denominator: nat, i: nat)
    requires denominator > 0 && i > 0
    requires acc as real <= c * Term(Ratio(numerator, denominator), i - 1)
    ensures NextTerm(acc, numerator, denominator, i) as real <= c * Term(Ratio(numerator, denominator), i)
  {
    hide Term, Ratio, IsQuotient;
    var x := Ratio(numerator, denominator);
    Quotient(acc * numerator, denominator * i);
    RatioTimes(numerator, denominator);
    TermNext(x, i);
  }

  lemma {:induction false} SumBelow(acc: nat, c: real, numerator: nat, denominator: nat, i: nat)
    requires denominator > 0 && i > 0
    requires acc as real <= c * Term(Ratio(numerator, denominator), i - 1)
    ensures var x, n := Ratio(numerator, denominator), Steps(acc, numerator, denominator, i);
            SumFrom(acc, numerator, denominator, i) as real <= c * (Taylor(x, i - 1 + n) - Taylor(x, i - 1))
    decreases Growing(numerator, denominator, i), acc
  {
    hide Term, Ratio, NextTerm, Growing, Taylor;
    var x, n := Ratio(numerator, denominator), Steps(acc, numerator, denominator, i);
    if acc == 0 {
      assert c * 0.0 == 0.0;
    } else {
      TermsShrink(acc, numerator, denominator, i);
      NextBelow(acc, c, numerator, denominator, i);
      var next := NextTerm(acc, numerator, denominator, i);
      SumBelow(next, c, numerator, denominator, i + 1);
      TaylorNext(x, i);
    }
  }

  lemma {:induction false} TaylorNext(x: real, i: nat)
    requires x >= 0.0 && i > 0
    ensures Taylor(x, i) == Taylor(x, i - 1) + Term(x, i - 1)
  {}

  lemma {:induction false} TaylorGrows(x: real, n: nat, m: nat)
    requires x >= 0.0 && n <= m
    ensures Taylor(x, n) <= Taylor(x, m)
    decreases m
  {
    hide Term;
    if n < m {
      TaylorGrows(x, n, m - 1);
    }
  }

  /** The result never exceeds the factor times the true series, cut anywhere after the last term the loop adds;
      so it never exceeds the factor times the exponential. */
  lemma {:induction false} BelowTaylor(factor: nat, numerator: nat, denominator: nat, n: nat)
    requires denominator > 0 && n >= Steps(factor * denominator, numerator, denominator, 1)
    ensures FakeExp(factor, numerator, denominator) as real <= factor as real * Taylor(Ratio(numerator, denominator), n)
  {
    hide Term, Ratio, Taylor, Steps, SumFrom, Growing;
    var x, scaled := Ratio(numerator, denominator), factor * denominator;
    var sum, steps := SumFrom(scaled, numerator, denominator, 1), Steps(scaled, numerator, denominator, 1);
    FirstTerm(scaled as real, x);
    SumBelow(scaled, scaled as real, numerator, denominator, 1);
    TaylorGrows(x, steps, n);
    Unscaled(factor, denominator, sum, Taylor(x, n));
  }

  lemma {:induction false} FirstTerm(c: real, x: real)
    requires x >= 0.0
    ensures c * Term(x, 0) == c && Taylor(x, 0) == 0.0
  {}

  /** Dividing by the denominator at the end. */
  lemma {:induction false} Unscaled(factor: nat, denominator: nat, sum: nat, t: real)
    requires denominator > 0 && sum as real <= (factor * denominator) as real * t
    ensures (sum / denominator) as real <= factor as real * t
  {
    hide IsQuotient;
    Quotient(sum, denominator);
  }

  // ---------------------------------------------------------------------------------------
  // What rounding loses
  // ---------------------------------------------------------------------------------------

  /** `x` times `s` is at most `i` times `s'` without its first term. */
  predicate FitsShifted(x: real, s: real, i: real, s': real) {
    x * s <= i * (s' - 1.0)
  }

  /** Moving the series on by one place, scaled down by an index no smaller than any of its own. */
  lemma {:induction false} TaylorShifted(x: real, m: nat, i: nat)
    requires x >= 0.0 && m + 1 <= i
    ensures FitsShifted(x, Taylor(x, m), i as real, Taylor(x, m + 1))
  {
    hide Term, Taylor, FitsShifted;
    if m == 0 {
      TaylorStarts(x);
      FitsFirst(x, i as real);
    } else {
      TaylorShifted(x, m - 1, i);
      TermScaled(x, m, i);
      TaylorNext(x, m);
      TaylorNext(x, m + 1);
      ShiftOne(x, Taylor(x, m - 1), Term(x, m - 1), Taylor(x, m), Term(x, m), Taylor(x, m + 1), i as real);
    }
  }

  lemma {:induction false} TaylorStarts(x: real)
    requires x >= 0.0
    ensures Taylor(x, 0) == 0.0 && Taylor(x, 1) == 1.0
  {
    assert Term(x, 0) == 1.0;
  }

  lemma {:induction false} FitsFirst(x: real, i: real)
    ensures FitsShifted(x, 0.0, i, 1.0)
  {}

  predicate FitsTerm(x: real, t: real, i: real, t': real) {
    t * x <= i * t'
  }

  lemma {:induction false} TermScaled(x: real, m: nat, i: nat)
    requires x >= 0.0 && 0 < m <= i
    ensures FitsTerm(x, Term(x, m - 1), i as real, Term(x, m))
  {
    TermNext(x, m);
    hide Term;
    TimesUpTo(Term(x, m), m, i);
  }

  lemma {:induction false} ShiftOne(x: real, s0: real, t0: real, s1: real, t1: real, s2: real, i: real)
    requires s1 == s0 + t0 && s2 == s1 + t1
    requires FitsShifted(x, s0, i, s1) && FitsTerm(x, t0, i, t1)
    ensures FitsShifted(x, s1, i, s2)
  {
    assert x * s1 == x * s0 + t0 * x;
    assert i * (s2 - 1.0) == i * (s1 - 1.0) + i * t1;
  }

  lemma {:induction false} TimesUpTo(t: real, m: nat, i: nat)
    requires t >= 0.0 && m <= i
    ensures t * m as real <= i as real * t
  {}

  /** Rounding down loses less than one, besides what had been lost before: a term is never further below the exact
      one than the sum of the series up to it. */
  lemma {:induction false} NextAbove(acc: nat, c: real, numerator: nat, denominator: nat, i: nat)
    requires denominator > 0 && i > 0
    requires var x := Ratio(numerator, denominator); c * Term(x, i - 1) <= acc as real + Taylor(x, i - 1)
    ensures var x := Ratio(numerator, denominator);
            c * Term(x, i) <= NextTerm(acc, numerator, denominator, i) as real + Taylor(x, i)
  {
    hide Term, Ratio, Taylor, FitsShifted;
    var x, q := Ratio(numerator, denominator), NextTerm(acc, numerator, denominator, i);
    TermNext(x, i);
    RoundedDown(acc, numerator, denominator, i, q, x);
    TaylorShifted(x, i - 1, i);
    AboveStep(c, Term(x, i - 1), Term(x, i), acc as real, Taylor(x, i - 1), Taylor(x, i), q as real, i as real, x);
  }

  lemma {:induction false} RealProduct(a: nat, b: nat)
    ensures (a * b) as real == a as real * b as real
  {}

  lemma {:induction false} RoundedDown(acc: nat, numerator: nat, denominator: nat, i: nat, q: nat, x: real)
    requires denominator > 0 && i > 0 && q == NextTerm(acc, numerator, denominator, i)
    requires x == Ratio(numerator, denominator)
    ensures acc as real * x <= (q as real + 1.0) * i as real
  {
    Quotient(acc * numerator, denominator * i);
    assert acc * numerator <= (q + 1) * (denominator * i);
    hide NextTerm;
    RatioTimes(numerator, denominator);
    hide Ratio;
    RealProduct(acc, numerator);
    RealProduct(q + 1, denominator * i);
    RealProduct(denominator, i);
    DivideBoth(acc as real, x, numerator as real, (q + 1) as real, denominator as real, i as real);
  }

  lemma {:induction false} DivideBoth(a: real, x: real, n: real, p: real, d: real, i: real)
    requires d > 0.0 && x * d == n && a * n <= p * (d * i)
    ensures a * x <= p * i
  {
    assert a * x * d == a * n;
    assert p * i * d == p * (d * i);
    CancelReal(a * x, p * i, d);
  }

  lemma {:induction false} CancelReal(a: real, b: real, d: real)
    requires d > 0.0 && a * d <= b * d
    ensures a <= b
  {}

  lemma {:induction false} AboveStep(c: real, t: real, t': real, acc: real, s: real, s': real, q: real, i: real,
                                     x: real)
    requires i > 0.0 && x >= 0.0 && t' * i == t * x && c * t <= acc + s
    requires acc * x <= (q + 1.0) * i && FitsShifted(x, s, i, s')
    ensures c * t' <= q + s'
  {
    assert c * t' * i == c * t * x;
    assert c * t * x <= (acc + s) * x;
    assert (acc + s) * x == acc * x + x * s;
    assert (q + 1.0) * i + i * (s' - 1.0) == (q + s') * i;
    CancelReal(c * t', q + s', i);
  }

  /** Terms that sum up to `s' - s`, times `c`, are at most `sum` and `m` times the last sum. */
  predicate Covers(c: real, s: real, s': real, sum: nat, m: nat) {
    c * (s' - s) <= sum as real + m as real * s'
  }

  /** The exact terms from the `i`-th on, `m` of them, against the sum of the rounded ones. */
  lemma {:induction false} SumAbove(acc: nat, c: real, numerator: nat, denominator: nat, i: nat, m: nat)
    requires denominator > 0 && i > 0
    requires var x := Ratio(numerator, denominator); c * Term(x, i - 1) <= acc as real + Taylor(x, i - 1)
    ensures var x := Ratio(numerator, denominator);
            Covers(c, Taylor(x, i - 1), Taylor(x, i - 1 + m), SumFrom(acc, numerator, denominator, i), m)
    decreases m
  {
    hide Term, Ratio, Taylor, NextTerm, Growing, Covers;
    var x := Ratio(numerator, denominator);
    if m == 0 {
      CoversNothing(c, Taylor(x, i - 1), SumFrom(acc, numerator, denominator, i));
    } else {
      var next := NextTerm(acc, numerator, denominator, i);
      NextAbove(acc, c, numerator, denominator, i);
      SumAbove(next, c, numerator, denominator, i + 1, m - 1);
      SumUnrolled(acc, numerator, denominator, i);
      TaylorNext(x, i);
      TaylorGrows(x, i - 1, i - 1 + m);
      CoversOneMore(c, Taylor(x, i - 1), Term(x, i - 1), Taylor(x, i - 1 + m), acc,
                    SumFrom(next, numerator, denominator, i + 1), m);
    }
  }

  lemma {:induction false} CoversNothing(c: real, s: real, sum: nat)
    ensures Covers(c, s, s, sum, 0)
  {}

  lemma {:induction false} SumUnrolled(acc: nat, numerator: nat, denominator: nat, i: nat)
    requires denominator > 0 && i > 0
    ensures SumFrom(acc, numerator, denominator, i) ==
            acc + SumFrom(NextTerm(acc, numerator, denominator, i), numerator, denominator, i + 1)
  {
    if acc == 0 {
      assert NextTerm(0, numerator, denominator, i) == 0;
    }
  }

  lemma {:induction false} CoversOneMore(c: real, s: real, t: real, s': real, acc: nat, rest: nat, m: nat)
    requires c * t <= acc as real + s && s <= s' && m > 0 && Covers(c, s + t, s', rest, m - 1)
    ensures Covers(c, s, s', acc + rest, m)
  {
    assert c * (s' - s) == c * (s' - (s + t)) + c * t;
    assert (m - 1) as real * s' + s' == m as real * s';
  }

  /** A result that is short of the factor times a sum of `n` terms by less than one, for the last division, and that
      sum over the denominator once for each term. */
  predicate CloseTo(result: nat, factor: nat, t: real, n: nat, denominator: nat)
    requires denominator > 0
  {
    factor as real * t < result as real + 1.0 + n as real * t / denominator as real
  }

  /** The result is that close to the true series, wherever it is cut. */
  lemma {:induction false} AboveTaylor(factor: nat, numerator: nat, denominator: nat, n: nat)
    requires denominator > 0
    ensures CloseTo(FakeExp(factor, numerator, denominator), factor, Taylor(Ratio(numerator, denominator), n), n,
                    denominator)
  {
    hide Term, Taylor, Ratio, SumFrom, Covers, IsQuotient, Growing, CloseTo;
    var x, scaled := Ratio(numerator, denominator), factor * denominator;
    var sum := SumFrom(scaled, numerator, denominator, 1);
    Quotient(sum, denominator);
    FirstAbove(scaled, x);
    SumAbove(scaled, scaled as real, numerator, denominator, 1, n);
    Unscale(factor, denominator, sum, sum / denominator, Taylor(x, n), n);
  }

  lemma {:induction false} FirstAbove(c: nat, x: real)
    requires x >= 0.0
    ensures Taylor(x, 0) == 0.0 && c as real * Term(x, 0) <= c as real + Taylor(x, 0)
  {
    FirstTerm(c as real, x);
  }

  lemma {:induction false} Unscale(factor: nat, denominator: nat, sum: nat, q: nat, t: real, n: nat)
    requires denominator > 0 && IsQuotient(sum, denominator, q)
    requires Covers((factor * denominator) as real, 0.0, t, sum, n)
    ensures CloseTo(q, factor, t, n, denominator)
  {
    RealProduct(factor, denominator);
    RealProduct(q + 1, denominator);
    assert sum as real < ((q + 1) * denominator) as real;
    CancelDenominator(factor as real, denominator as real, sum as real, q as real, t, n as real * t);
  }

  lemma {:induction false} CancelDenominator(factor: real, d: real, sum: real, q: real, t: real, lost: real)
    requires d > 0.0 && factor * d * t <= sum + lost && sum < (q + 1.0) * d
    ensures factor * t < q + 1.0 + lost / d
  {
    assert factor * t * d == factor * d * t;
    assert lost / d * d == lost;
    CancelStrictly(factor * t, q + 1.0 + lost / d, d);
  }

  lemma {:induction false} CancelStrictly(a: real, b: real, d: real)
    requires d > 0.0 && a * d < b * d
    ensures a < b
  {}
}
