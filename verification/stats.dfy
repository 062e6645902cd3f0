/**
  Exact real-number versions of the elementary sample statistics the
  analysis scripts take from numpy: sums, means and sums of squared
  deviations. Floating-point rounding is not modelled; every quantity is a
  `real`.
 */
module Stats {

  /** Σ x over the sample. */
  function Sum(s: seq<real>): real
  {
    if |s| == 0 then 0.0 else s[0] + Sum(s[1..])
  }

  /** Arithmetic mean (numpy's `np.mean`); undefined on an empty sample. */
  function Mean(s: seq<real>): real
    requires |s| > 0
  {
    Sum(s) / (|s| as real)
  }

  /** x². */
  function Square(x: real): real
  {
    x * x
  }

  /** n·d², the weight a group of n values at distance d from a centre contributes. */
  function Weighted(n: nat, d: real): real
  {
    (n as real) * Square(d)
  }

  /** Σx² − 2cΣx + nc², the expanded form of Σ(x − c)² given Σx² = q, Σx = t. */
  function Expansion(q: real, t: real, n: nat, c: real): real
  {
    q - 2.0 * c * t + Weighted(n, c)
  }

  /** Σ (x − c)², the sum of squared deviations from a centre `c`. */
  function SqDev(s: seq<real>, c: real): real
  {
    if |s| == 0 then 0.0 else Square(s[0] - c) + SqDev(s[1..], c)
  }

  /** Σ x², used only to expand `SqDev`. */
  function SumOfSquares(s: seq<real>): real
  {
    if |s| == 0 then 0.0 else Square(s[0]) + SumOfSquares(s[1..])
  }

  /** Every value of `s` plus the constant `k`. */
  function Shift(s: seq<real>, k: real): (r: seq<real>)
    ensures |r| == |s|
    ensures forall i :: 0 <= i < |s| ==> r[i] == s[i] + k
  {
    seq(|s|, i requires 0 <= i < |s| => s[i] + k)
  }

  /** Every value of `s` negated. */
  function Negate(s: seq<real>): (r: seq<real>)
    ensures |r| == |s|
    ensures forall i :: 0 <= i < |s| ==> r[i] == -s[i]
  {
    seq(|s|, i requires 0 <= i < |s| => -s[i])
  }

  /** All samples pooled in order (numpy's `np.concatenate`). */
  function Concat(gs: seq<seq<real>>): seq<real>
  {
    if |gs| == 0 then [] else gs[0] + Concat(gs[1..])
  }

  /** Sample variance with the n − 1 denominator (pandas' default `std()` squared). */
  function SampleVariance(s: seq<real>): real
    requires |s| >= 2
  {
    SqDev(s, Mean(s)) / ((|s| - 1) as real)
  }

  lemma {:induction false} SumAppend(a: seq<real>, b: seq<real>)
    ensures Sum(a + b) == Sum(a) + Sum(b)
  {
    if |a| == 0 {
      assert a + b == b;
    } else {
      assert (a + b)[1..] == a[1..] + b;
      SumAppend(a[1..], b);
    }
  }

  lemma {:induction false} SqDevAppend(a: seq<real>, b: seq<real>, c: real)
    ensures SqDev(a + b, c) == SqDev(a, c) + SqDev(b, c)
  {
    if |a| == 0 {
      assert a + b == b;
    } else {
      assert (a + b)[1..] == a[1..] + b;
      SqDevAppend(a[1..], b, c);
    }
  }

  lemma {:induction false} ConcatLength(gs: seq<seq<real>>)
    ensures |Concat(gs)| == TotalLength(gs)
  {
    if |gs| > 0 {
      ConcatLength(gs[1..]);
    }
  }

  /** Σ |gᵢ|, the pooled sample size N. */
  function TotalLength(gs: seq<seq<real>>): nat
  {
    if |gs| == 0 then 0 else |gs[0]| + TotalLength(gs[1..])
  }

  /** A square is never negative. */
  lemma SquareNonNegative(d: real)
    ensures Square(d) >= 0.0
  {
  }

  /** The square of a non-zero number is positive. */
  lemma SquarePositive(d: real)
    requires d != 0.0
    ensures Square(d) > 0.0
  {
    // Each step is proved on its own; asked in one piece, the solver misses it.
    calc {
      Square(d);
      d * d;
    >
      0.0;
    }
  }

  /** A sum of squared deviations is never negative. */
  lemma {:induction false} SqDevNonNegative(s: seq<real>, c: real)
    ensures SqDev(s, c) >= 0.0
  {
    if |s| > 0 {
      SqDevNonNegative(s[1..], c);
      SquareNonNegative(s[0] - c);
    }
  }

  /** One value away from `c` makes Σ(x − c)² strictly positive. */
  lemma {:induction false} SqDevPositive(s: seq<real>, c: real, i: nat)
    requires i < |s| && s[i] != c
    ensures SqDev(s, c) > 0.0
  {
    if i == 0 {
      SquarePositive(s[0] - c);
      SqDevNonNegative(s[1..], c);
    } else {
      assert s[1..][i - 1] == s[i];
      SqDevPositive(s[1..], c, i - 1);
      SquareNonNegative(s[0] - c);
    }
  }

  /** Σ(x − c)² is zero when every value equals `c`. */
  lemma {:induction false} SqDevConstant(s: seq<real>, c: real)
    requires forall i :: 0 <= i < |s| ==> s[i] == c
    ensures SqDev(s, c) == 0.0
  {
    if |s| > 0 {
      assert forall i :: 0 <= i < |s[1..]| ==> s[1..][i] == c by {
        forall i | 0 <= i < |s[1..]| ensures s[1..][i] == c {
          assert s[1..][i] == s[i + 1];
        }
      }
      SqDevConstant(s[1..], c);
    }
  }

  /** Σ(x − c)² is zero exactly when every value equals `c`. */
  lemma SqDevZeroIff(s: seq<real>, c: real)
    ensures SqDev(s, c) == 0.0 <==> forall i :: 0 <= i < |s| ==> s[i] == c
  {
    if forall i :: 0 <= i < |s| ==> s[i] == c {
      SqDevConstant(s, c);
    } else {
      var i :| 0 <= i < |s| && s[i] != c;
      SqDevPositive(s, c, i);
    }
  }

  /** Σ(x − c)² = Σx² − 2cΣx + nc². */
  lemma {:induction false} SqDevExpand(s: seq<real>, c: real)
    ensures SqDev(s, c) == Expansion(SumOfSquares(s), Sum(s), |s|, c)
  {
    if |s| > 0 {
      var q, t, n := SumOfSquares(s[1..]), Sum(s[1..]), |s[1..]|;
      calc {
        SqDev(s, c);
        Square(s[0] - c) + SqDev(s[1..], c);
        { SqDevExpand(s[1..], c); }
        Square(s[0] - c) + Expansion(q, t, n, c);
        { ExpandStep(s[0], c, q, t, n); }
        Expansion(Square(s[0]) + q, s[0] + t, n + 1, c);
      }
    }
  }

  /** Adding one value x to the expanded form. */
  lemma ExpandStep(x: real, c: real, q: real, t: real, n: nat)
    ensures Square(x - c) + Expansion(q, t, n, c) == Expansion(Square(x) + q, x + t, n + 1, c)
  {
    var m := n as real;
    calc {
      Square(x - c) + Expansion(q, t, n, c);
      (x - c) * (x - c) + (q - 2.0 * c * t + m * (c * c));
      (x * x + q) - 2.0 * c * (x + t) + (m + 1.0) * (c * c);
      { assert ((n + 1) as real) == m + 1.0; }
      (Square(x) + q) - 2.0 * c * (x + t) + ((n + 1) as real) * Square(c);
      Expansion(Square(x) + q, x + t, n + 1, c);
    }
  }

  /** Re-centring the expanded form from `c` to `m` when Σx = n·m. */
  lemma ParallelAxisAlgebra(q: real, t: real, n: nat, m: real, c: real)
    requires t == (n as real) * m
    ensures Expansion(q, t, n, c) == Expansion(q, t, n, m) + Weighted(n, m - c)
  {
    var k := n as real;
    calc {
      Expansion(q, t, n, m) + Weighted(n, m - c);
      (q - 2.0 * m * t + k * (m * m)) + k * ((m - c) * (m - c));
      { assert m * t == k * m * m; }
      q - 2.0 * c * (k * m) + k * (c * c);
      Expansion(q, t, n, c);
    }
  }

  lemma DivideThenMultiply(t: real, n: real)
    requires n > 0.0
    ensures n * (t / n) == t
  {
  }

  /** n · mean = Σ x. */
  lemma SumIsCountTimesMean(s: seq<real>)
    requires |s| > 0
    ensures Sum(s) == (|s| as real) * Mean(s)
  {
    DivideThenMultiply(Sum(s), |s| as real);
  }

  /** The parallel-axis identity around any `m` with Σx = n·m. */
  lemma SqDevAroundCentre(s: seq<real>, c: real, m: real)
    requires Sum(s) == (|s| as real) * m
    ensures SqDev(s, c) == SqDev(s, m) + Weighted(|s|, m - c)
  {
    var q, t, n := SumOfSquares(s), Sum(s), |s|;
    calc {
      SqDev(s, c);
      { SqDevExpand(s, c); }
      Expansion(q, t, n, c);
      { ParallelAxisAlgebra(q, t, n, m, c); }
      Expansion(q, t, n, m) + Weighted(n, m - c);
      { SqDevExpand(s, m); }
      SqDev(s, m) + Weighted(n, m - c);
    }
  }

  /**
    The parallel-axis identity: the squared deviations of a sample from any
    centre `c` split into those around its own mean plus n·(mean − c)².
   */
  lemma SqDevAroundMean(s: seq<real>, c: real)
    requires |s| > 0
    ensures SqDev(s, c) == SqDev(s, Mean(s)) + Weighted(|s|, Mean(s) - c)
  {
    SumIsCountTimesMean(s);
    SqDevAroundCentre(s, c, Mean(s));
  }

  /** A sample whose values all equal `v` sums to n·v. */
  lemma {:induction false} SumConstant(s: seq<real>, v: real)
    requires forall i :: 0 <= i < |s| ==> s[i] == v
    ensures Sum(s) == (|s| as real) * v
  {
    if |s| > 0 {
      assert forall i :: 0 <= i < |s[1..]| ==> s[1..][i] == v by {
        forall i | 0 <= i < |s[1..]| ensures s[1..][i] == v {
          assert s[1..][i] == s[i + 1];
        }
      }
      SumConstant(s[1..], v);
    }
  }

  lemma {:induction false} SumShift(s: seq<real>, k: real)
    ensures Sum(Shift(s, k)) == Sum(s) + (|s| as real) * k
  {
    if |s| > 0 {
      assert Shift(s, k)[1..] == Shift(s[1..], k);
      SumShift(s[1..], k);
    }
  }

  /** Adding `k` to every value adds `k` to the mean. */
  lemma MeanShift(s: seq<real>, k: real)
    requires |s| > 0
    ensures Mean(Shift(s, k)) == Mean(s) + k
  {
    var n := |s| as real;
    SumShift(s, k);
    assert Sum(Shift(s, k)) == n * (Mean(s) + k);
  }

  lemma {:induction false} SqDevShift(s: seq<real>, c: real, k: real)
    ensures SqDev(Shift(s, k), c + k) == SqDev(s, c)
  {
    if |s| > 0 {
      assert Shift(s, k)[1..] == Shift(s[1..], k);
      SqDevShift(s[1..], c, k);
    }
  }

  lemma {:induction false} SumNegate(s: seq<real>)
    ensures Sum(Negate(s)) == -Sum(s)
  {
    if |s| > 0 {
      assert Negate(s)[1..] == Negate(s[1..]);
      SumNegate(s[1..]);
    }
  }
}
