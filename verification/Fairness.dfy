/** Jain's fairness index as examples/tcp/dctcp-example.cc computes it, with
unsigned 64-bit sums that wrap around. */
module Fairness {

  const WORD: nat := 0x1_0000_0000_0000_0000
  const HALF: nat := 0x1_0000_0000

  function Wrap(x: nat): nat { x % WORD }

  function Sum(c: seq<nat>): nat {
    if c == [] then 0 else Sum(c[..|c| - 1]) + c[|c| - 1]
  }

  function SumSquares(c: seq<nat>): nat {
    if c == [] then 0 else SumSquares(c[..|c| - 1]) + c[|c| - 1] * c[|c| - 1]
  }

  /** Numerator sum * sum and denominator n * sumSquares, each wrapped as the
      source's unsigned arithmetic does. */
  method FairnessTerms(c: seq<nat>) returns (sum: nat, sumSquares: nat, numerator: nat, denominator: nat)
    ensures sum == Wrap(Sum(c)) && sumSquares == Wrap(SumSquares(c))
    ensures numerator == Wrap(sum * sum) && denominator == Wrap(|c| * sumSquares)
    ensures numerator == Sum(c) * Sum(c) && denominator == |c| * SumSquares(c) <==> |c| * SumSquares(c) < WORD
  {
    hide Wrap;
    ExactExactlyWhen(c);
    SmallIsItself(0);
    sum, sumSquares := 0, 0;
    for i := 0 to |c|
      invariant sum == Wrap(Sum(c[..i])) && sumSquares == Wrap(SumSquares(c[..i]))
    {
      assert c[..i + 1][..i] == c[..i];
      WrapAdd(Sum(c[..i]), c[i]);
      WrapAdd(SumSquares(c[..i]), c[i] * c[i]);
      WrapInner(sumSquares, c[i] * c[i]);
      sum := Wrap(sum + c[i]);
      sumSquares := Wrap(sumSquares + Wrap(c[i] * c[i]));
    }
    assert c[..|c|] == c;
    numerator := Wrap(sum * sum);
    denominator := Wrap(|c| * sumSquares);
  }

  lemma WrapAdd(a: nat, b: nat)
    ensures Wrap(Wrap(a) + b) == Wrap(a + b)
  {
    assert a == WORD * (a / WORD) + a % WORD;
    WrapMultiple(a % WORD + b, a / WORD);
  }

  lemma WrapInner(a: nat, b: nat)
    ensures Wrap(a + Wrap(b)) == Wrap(a + b)
  {
    WrapAdd(b, a);
  }

  lemma {:induction false} WrapMultiple(r: nat, q: nat)
    ensures (WORD * q + r) % WORD == r % WORD
  {
    if q > 0 {
      WrapMultiple(r, q - 1);
      assert WORD * q + r == (WORD * (q - 1) + r) + WORD;
      StepBack(WORD * (q - 1) + r);
    }
  }

  lemma StepBack(x: nat)
    ensures (x + WORD) % WORD == x % WORD
  {}

  // ---------- The inequality ----------

  predicate AllSame(c: seq<nat>) { forall i, j :: 0 <= i < j < |c| ==> c[i] == c[j] }

  /** The sum of (c[i] - x)^2. */
  function Spread(c: seq<nat>, x: int): nat {
    if c == [] then 0 else Square(c[|c| - 1] - x) + Spread(c[..|c| - 1], x)
  }

  function Square(x: int): nat {
    SquareIsNat(x);
    x * x
  }

  lemma SquareIsNat(x: int)
    ensures x * x >= 0
  {}

  lemma {:induction false} SpreadExpands(c: seq<nat>, x: int)
    ensures Spread(c, x) == SumSquares(c) - 2 * x * Sum(c) + |c| * x * x
  {
    if c != [] {
      var front, a := c[..|c| - 1], c[|c| - 1];
      SpreadExpands(front, x);
      ExpandOne(a, x, SumSquares(front), Sum(front), |front|);
    }
  }

  lemma ExpandOne(a: int, x: int, q: int, s: int, n: int)
    ensures (a - x) * (a - x) + (q - 2 * x * s + n * x * x) == (q + a * a) - 2 * x * (s + a) + (n + 1) * x * x
  {
    assert (a - x) * (a - x) == a * a - 2 * x * a + x * x;
    assert 2 * x * (s + a) == 2 * x * s + 2 * x * a;
    assert (n + 1) * x * x == n * x * x + x * x;
  }

  /** n * sumSquares - sum^2, grown by one counter. */
  function Gap(c: seq<nat>): int { |c| * SumSquares(c) - Sum(c) * Sum(c) }

  lemma GapGrows(front: seq<nat>, a: nat)
    ensures Gap(front + [a]) == Gap(front) + Spread(front, a)
  {
    var c := front + [a];
    assert c[..|front|] == front;
    SpreadExpands(front, a);
    GapAlgebra(|front|, SumSquares(front), Sum(front), a);
  }

  lemma GapAlgebra(n: int, q: int, s: int, a: int)
    ensures (n + 1) * (q + a * a) - (s + a) * (s + a) == (n * q - s * s) + (q - 2 * a * s + n * a * a)
  {
    Distribute(n, q, a * a);
    SquareOfSum(s, a);
    assert n * (a * a) == n * a * a;
  }

  lemma SquareOfSum(s: int, a: int)
    ensures (s + a) * (s + a) == s * s + 2 * a * s + a * a
  {}

  lemma Distribute(n: int, q: int, b: int)
    ensures (n + 1) * (q + b) == n * q + n * b + q + b
  {}

  lemma {:induction false} SpreadZero(c: seq<nat>, x: int)
    ensures Spread(c, x) == 0 <==> forall i :: 0 <= i < |c| ==> c[i] == x
  {
    if c != [] {
      var front, a := c[..|c| - 1], c[|c| - 1];
      SpreadZero(front, x);
      SquareZero(a - x);
      if forall i :: 0 <= i < |front| ==> front[i] == x {
        assert forall i :: 0 <= i < |front| ==> c[i] == x;
      } else {
        var i :| 0 <= i < |front| && front[i] != x;
        assert c[i] != x;
      }
    }
  }

  lemma SquareZero(x: int)
    ensures x * x == 0 <==> x == 0
  {}

  /** sum^2 <= n * sumSquares, with equality exactly when all counters agree. */
  lemma {:induction false} JainBound(c: seq<nat>)
    ensures Sum(c) * Sum(c) <= |c| * SumSquares(c)
    ensures Sum(c) * Sum(c) == |c| * SumSquares(c) <==> AllSame(c)
  {
    if c != [] {
      var front, a := c[..|c| - 1], c[|c| - 1];
      assert c == front + [a];
      JainBound(front);
      GapGrows(front, a);
      SpreadZero(front, a);
      if AllSame(c) {
        assert AllSame(front) && forall i :: 0 <= i < |front| ==> front[i] == a;
      } else if AllSame(front) {
        var i, j :| 0 <= i < j < |c| && c[i] != c[j];
        assert j == |front| && front[i] != a;
      }
    }
  }

  /** The other end: sumSquares <= sum^2, so the index is at least 1/n. */
  lemma {:induction false} JainLower(c: seq<nat>)
    ensures SumSquares(c) <= Sum(c) * Sum(c)
  {
    if c != [] {
      var s, a := Sum(c[..|c| - 1]), c[|c| - 1];
      JainLower(c[..|c| - 1]);
      assert (s + a) * (s + a) == s * s + 2 * s * a + a * a;
      assert 2 * s * a >= 0;
    }
  }

  lemma {:induction false} PositiveSquares(c: seq<nat>)
    ensures SumSquares(c) > 0 <==> exists i :: 0 <= i < |c| && c[i] > 0
  {
    if c != [] {
      var front, a := c[..|c| - 1], c[|c| - 1];
      PositiveSquares(front);
      SquareZero(a);
      if i :| 0 <= i < |front| && front[i] > 0 { assert c[i] > 0; }
    }
  }

  // ---------- No wrap-around ----------

  lemma {:induction false} SumBounds(c: seq<nat>, b: nat)
    requires forall i :: 0 <= i < |c| ==> c[i] <= b
    ensures Sum(c) <= |c| * b && SumSquares(c) <= |c| * (b * b)
  {
    if c != [] {
      var front, a := c[..|c| - 1], c[|c| - 1];
      SumBounds(front, b);
      MulMonotone(a, b, a, b);
      OneFactorMore(|front|, b);
      OneFactorMore(|front|, b * b);
    }
  }

  lemma OneFactorMore(n: nat, x: nat)
    ensures (n + 1) * x == n * x + x
  {}

  lemma MulMonotone(a: nat, b: nat, x: nat, y: nat)
    requires a <= b && x <= y
    ensures a * x <= b * y
  {
    assert a * x <= b * x;
    assert b * x <= b * y;
  }

  lemma BelowWord(a: nat, b: nat)
    requires a < HALF && b < HALF
    ensures a * b < WORD
  {
    MulMonotone(a, HALF - 1, b, HALF - 1);
  }

  /** The terms of the quotient as the 64-bit arithmetic leaves them. */
  function Numerator(c: seq<nat>): nat { Wrap(Wrap(Sum(c)) * Wrap(Sum(c))) }

  function Denominator(c: seq<nat>): nat { Wrap(|c| * Wrap(SumSquares(c))) }

  /** Both terms are the true ones if and only if the true denominator fits into
      64 bits: every other intermediate result is at most as large. */
  lemma ExactExactlyWhen(c: seq<nat>)
    ensures Numerator(c) == Sum(c) * Sum(c) && Denominator(c) == |c| * SumSquares(c) <==> |c| * SumSquares(c) < WORD
  {
    hide Sum, SumSquares, Wrap;
    if |c| * SumSquares(c) < WORD {
      JainBound(c);
      AtMostProduct(|c|, SumSquares(c));
      AtMostProduct(Sum(c), Sum(c));
      if c == [] { NoCounters(); }
      SmallIsItself(Sum(c));
      SmallIsItself(SumSquares(c));
      SmallIsItself(Sum(c) * Sum(c));
      SmallIsItself(|c| * SumSquares(c));
    }
    WrapsBelow(|c| * Wrap(SumSquares(c)));
  }

  lemma NoCounters()
    ensures Sum([]) == 0 && SumSquares([]) == 0
  {}

  lemma WrapsBelow(x: nat)
    ensures Wrap(x) < WORD
  {}

  lemma AtMostProduct(n: nat, q: nat)
    ensures n > 0 ==> q <= n * q
  {
    if n > 0 { MulMonotone(1, n, q, q); }
  }

  /** The quotient.  As long as the true denominator fits into 64 bits it is the
      true index: defined when some counter is positive, between 1/n and 1, and 1
      exactly when all counters agree. */
  method FairnessIndex(c: seq<nat>) returns (defined: bool, index: real)
    ensures |c| * SumSquares(c) < WORD ==>
      && (defined <==> exists i :: 0 <= i < |c| && c[i] > 0)
      && (defined ==> index * (|c| * SumSquares(c)) as real == (Sum(c) * Sum(c)) as real)
      && (defined ==> index <= 1.0 && (index == 1.0 <==> AllSame(c)) && index * |c| as real >= 1.0)
    ensures defined <==> Denominator(c) != 0
    ensures defined ==> index * Denominator(c) as real == Numerator(c) as real
  {
    hide Sum, SumSquares, AllSame, Wrap;
    var sum, sumSquares, numerator, denominator := FairnessTerms(c);
    IndexFacts(c, Sum(c) * Sum(c), |c| * SumSquares(c));
    if denominator == 0 {
      return false, 0.0;
    }
    defined := true;
    index := numerator as real / denominator as real;
  }

  lemma SmallIsItself(x: nat)
    requires x < WORD
    ensures Wrap(x) == x
  {}

  lemma IndexFacts(c: seq<nat>, p: nat, d: nat)
    requires p == Sum(c) * Sum(c) && d == |c| * SumSquares(c)
    ensures d > 0 <==> exists i :: 0 <= i < |c| && c[i] > 0
    ensures d > 0 ==> var x := p as real / d as real;
      x <= 1.0 && (x == 1.0 <==> AllSame(c)) && x * d as real == p as real && x * |c| as real >= 1.0
  {
    hide Sum, SumSquares, AllSame;
    PositiveSquares(c);
    if d > 0 {
      JainBound(c);
      JainLower(c);
      QuotientFacts(p, |c|, SumSquares(c));
    } else {
      NoProductZero(|c|, SumSquares(c));
    }
  }

  /** A bound on the counters that is enough: n * b < 2^32. */
  lemma NothingWraps(c: seq<nat>, b: nat)
    requires (forall i :: 0 <= i < |c| ==> c[i] <= b) && |c| * b < HALF
    ensures Sum(c) * Sum(c) < WORD && |c| * SumSquares(c) < WORD
    ensures Sum(c) < WORD && SumSquares(c) < WORD
  {
    SumBounds(c, b);
    BelowWord(Sum(c), Sum(c));
    BelowWord(|c| * b, |c| * b);
    MulMonotone(|c|, |c|, SumSquares(c), |c| * (b * b));
    assert |c| * (|c| * (b * b)) == (|c| * b) * (|c| * b) by { Shuffle(|c|, b); }
    if c == [] {
    } else {
      MulMonotone(1, |c|, SumSquares(c), SumSquares(c));
    }
  }

  lemma Shuffle(n: nat, b: nat)
    ensures n * (n * (b * b)) == (n * b) * (n * b)
  {
    assert (n * b) * (n * b) == n * (b * (n * b));
    assert b * (n * b) == n * (b * b);
  }

  lemma NoProductZero(n: nat, q: nat)
    requires n * q == 0
    ensures n == 0 || q == 0
  {}

  lemma QuotientFacts(p: nat, n: nat, q: nat)
    requires n * q > 0 && q <= p <= n * q
    ensures var x := p as real / (n * q) as real;
      x <= 1.0 && (x == 1.0 <==> p == n * q) && x * (n * q) as real == p as real && x * n as real >= 1.0
  {
    var d := (n * q) as real;
    var x := p as real / d;
    assert x * d == p as real;
    assert q > 0 && n > 0;
    assert d == n as real * q as real;
    assert (x * n as real) * q as real == p as real;
    AtLeastOne(x * n as real, q as real, p as real);
    AtMostOne(x, d, p as real);
  }

  lemma AtLeastOne(y: real, q: real, p: real)
    requires q > 0.0 && y * q == p && p >= q
    ensures y >= 1.0
  {
    AgainstOne(y, q);
  }

  lemma AgainstOne(y: real, q: real)
    requires q > 0.0
    ensures y < 1.0 ==> y * q < q
    ensures y > 1.0 ==> y * q > q
  {}

  lemma AtMostOne(x: real, d: real, p: real)
    requires d > 0.0 && x * d == p && p <= d
    ensures x <= 1.0 && (x == 1.0 <==> p == d)
  {
    AgainstOne(x, d);
  }

  /** Beyond the bound the index is lost: ten equal counters of 2^32 have a sum of
      squares that wraps to 0, although their true index is 1. */
  lemma WrapLosesTheIndex()
    ensures Wrap(SumSquares(seq(10, i => HALF))) == 0 && SumSquares(seq(10, i => HALF)) > 0
  {
    EqualSquares(10, HALF);
    assert 10 * (HALF * HALF) == WORD * 10;
    WrapMultiple(0, 10);
  }

  lemma {:induction false} EqualSquares(n: nat, x: nat)
    ensures SumSquares(seq(n, i => x)) == n * (x * x)
  {
    if n > 0 {
      var c := seq(n, i => x);
      assert c[..n - 1] == seq(n - 1, i => x);
      EqualSquares(n - 1, x);
      assert n * (x * x) == (n - 1) * (x * x) + x * x;
    }
  }
}
