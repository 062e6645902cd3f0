/**
  The effect size every group comparison reports: eta-squared, the share of
  the pooled sum of squares that lies between the groups, and its Cohen (1988)
  tier. The same formula is used whichever test was chosen.
 */
module EtaSquared {
  import opened Stats

  /** The Cohen (1988) tiers, printed as 極小, 小, 中 and 大. */
  datatype EffectSize = Negligible | Small | Medium | Large

  /** Every group holds at least one value, and there is at least one group. */
  predicate NonEmptyGroups(gs: seq<seq<real>>)
  {
    |gs| > 0 && forall i :: 0 <= i < |gs| ==> |gs[i]| > 0
  }

  /** SS_between around centre g: Σ nᵢ·(meanᵢ − g)². */
  function SSBetween(gs: seq<seq<real>>, g: real): real
    requires forall i :: 0 <= i < |gs| ==> |gs[i]| > 0
  {
    if |gs| == 0 then 0.0
    else Weighted(|gs[0]|, Mean(gs[0]) - g) + SSBetween(gs[1..], g)
  }

  /** SS_within: Σᵢ Σ_{x ∈ gᵢ} (x − meanᵢ)². The scripts never compute it; it closes the proofs. */
  function SSWithin(gs: seq<seq<real>>): real
    requires forall i :: 0 <= i < |gs| ==> |gs[i]| > 0
  {
    if |gs| == 0 then 0.0 else SqDev(gs[0], Mean(gs[0])) + SSWithin(gs[1..])
  }

  /** The grand mean of all values pooled. */
  function GrandMean(gs: seq<seq<real>>): real
    requires NonEmptyGroups(gs)
  {
    ConcatLength(gs);
    assert TotalLength(gs) > 0;
    Mean(Concat(gs))
  }

  /** SS_total: Σ (x − grand mean)² over the pooled values. */
  function SSTotal(gs: seq<seq<real>>): real
    requires NonEmptyGroups(gs)
  {
    SqDev(Concat(gs), GrandMean(gs))
  }

  /**
    η² = SS_between / SS_total, and 0 when SS_total is 0. It is a proportion:
    never negative and never above 1.
   */
  function CalcEtaSquared(gs: seq<seq<real>>): (eta: real)
    requires NonEmptyGroups(gs)
    ensures 0.0 <= eta <= 1.0
    ensures SSTotal(gs) == 0.0 ==> eta == 0.0
    ensures SSTotal(gs) > 0.0 ==> eta * SSTotal(gs) == SSBetween(gs, GrandMean(gs))
  {
    var g := GrandMean(gs);
    var between, total := SSBetween(gs, g), SSTotal(gs);
    BetweenAtMostTotal(gs);
    if total > 0.0 then
      RatioInUnitInterval(between, total);
      between / total
    else
      0.0
  }

  lemma RatioInUnitInterval(b: real, t: real)
    requires 0.0 <= b <= t && t > 0.0
    ensures 0.0 <= b / t <= 1.0
    ensures (b / t) * t == b
  {
  }

  /** SS_between is a sum of weighted squares, so never negative. */
  lemma {:induction false} SSBetweenNonNegative(gs: seq<seq<real>>, g: real)
    requires forall i :: 0 <= i < |gs| ==> |gs[i]| > 0
    ensures SSBetween(gs, g) >= 0.0
  {
    if |gs| > 0 {
      SSBetweenNonNegative(gs[1..], g);
      SquareNonNegative(Mean(gs[0]) - g);
      WeightedNonNegative(|gs[0]|, Mean(gs[0]) - g);
    }
  }

  lemma WeightedNonNegative(n: nat, d: real)
    ensures Weighted(n, d) >= 0.0
  {
    SquareNonNegative(d);
  }

  lemma {:induction false} SSWithinNonNegative(gs: seq<seq<real>>)
    requires forall i :: 0 <= i < |gs| ==> |gs[i]| > 0
    ensures SSWithin(gs) >= 0.0
  {
    if |gs| > 0 {
      SSWithinNonNegative(gs[1..]);
      SqDevNonNegative(gs[0], Mean(gs[0]));
    }
  }

  /**
    The sum-of-squares decomposition: around any centre c, the pooled squared
    deviations equal the between-group part plus the within-group part.
   */
  lemma {:induction false} Decomposition(gs: seq<seq<real>>, c: real)
    requires forall i :: 0 <= i < |gs| ==> |gs[i]| > 0
    ensures SqDev(Concat(gs), c) == SSBetween(gs, c) + SSWithin(gs)
  {
    if |gs| > 0 {
      calc {
        SqDev(Concat(gs), c);
        SqDev(gs[0] + Concat(gs[1..]), c);
        { SqDevAppend(gs[0], Concat(gs[1..]), c); }
        SqDev(gs[0], c) + SqDev(Concat(gs[1..]), c);
        { Decomposition(gs[1..], c); }
        SqDev(gs[0], c) + (SSBetween(gs[1..], c) + SSWithin(gs[1..]));
        { SqDevAroundMean(gs[0], c); }
        SqDev(gs[0], Mean(gs[0])) + Weighted(|gs[0]|, Mean(gs[0]) - c)
          + (SSBetween(gs[1..], c) + SSWithin(gs[1..]));
        SSBetween(gs, c) + SSWithin(gs);
      }
    }
  }

  /** SS_between never exceeds SS_total, and neither is negative. */
  lemma BetweenAtMostTotal(gs: seq<seq<real>>)
    requires NonEmptyGroups(gs)
    ensures 0.0 <= SSBetween(gs, GrandMean(gs)) <= SSTotal(gs)
  {
    Decomposition(gs, GrandMean(gs));
    SSWithinNonNegative(gs);
    SSBetweenNonNegative(gs, GrandMean(gs));
  }

  /** Every value in every group equals v. */
  predicate AllValuesEqual(gs: seq<seq<real>>, v: real)
  {
    forall i, j :: 0 <= i < |gs| && 0 <= j < |gs[i]| ==> gs[i][j] == v
  }

  lemma {:induction false} ConcatAllEqual(gs: seq<seq<real>>, v: real)
    requires AllValuesEqual(gs, v)
    ensures forall k :: 0 <= k < |Concat(gs)| ==> Concat(gs)[k] == v
  {
    if |gs| > 0 {
      assert AllValuesEqual(gs[1..], v) by {
        forall i, j | 0 <= i < |gs[1..]| && 0 <= j < |gs[1..][i]|
          ensures gs[1..][i][j] == v
        {
          assert gs[1..][i] == gs[i + 1];
        }
      }
      ConcatAllEqual(gs[1..], v);
      forall k | 0 <= k < |Concat(gs)| ensures Concat(gs)[k] == v {
        if k < |gs[0]| {
          assert Concat(gs)[k] == gs[0][k];
        } else {
          assert Concat(gs)[k] == Concat(gs[1..])[k - |gs[0]|];
        }
      }
    }
  }

  lemma {:induction false} ConcatMembers(gs: seq<seq<real>>, i: nat, j: nat)
    requires i < |gs| && j < |gs[i]|
    ensures gs[i][j] in Concat(gs)
  {
    if i == 0 {
      assert Concat(gs)[j] == gs[0][j];
    } else {
      ConcatMembers(gs[1..], i - 1, j);
      assert gs[1..][i - 1] == gs[i];
    }
  }

  /**
    The zero-total guard fires exactly when every pooled value is the same:
    SS_total is 0 if and only if all values in all groups are equal.
   */
  lemma TotalZeroIffAllEqual(gs: seq<seq<real>>)
    requires NonEmptyGroups(gs)
    ensures SSTotal(gs) == 0.0 <==> AllValuesEqual(gs, GrandMean(gs))
  {
    var all, g := Concat(gs), GrandMean(gs);
    SqDevZeroIff(all, g);
    if AllValuesEqual(gs, g) {
      ConcatAllEqual(gs, g);
    } else {
      var i, j :| 0 <= i < |gs| && 0 <= j < |gs[i]| && gs[i][j] != g;
      ConcatMembers(gs, i, j);
    }
  }

  /** When every value is the same constant v, η² is 0. */
  lemma EtaZeroWhenAllEqual(gs: seq<seq<real>>, v: real)
    requires NonEmptyGroups(gs) && AllValuesEqual(gs, v)
    ensures CalcEtaSquared(gs) == 0.0
  {
    var all := Concat(gs);
    ConcatAllEqual(gs, v);
    ConcatLength(gs);
    SumConstant(all, v);
    assert GrandMean(gs) == v by {
      MeanOfConstant(all, v);
    }
    SqDevConstant(all, v);
  }

  lemma MeanOfConstant(s: seq<real>, v: real)
    requires |s| > 0 && Sum(s) == (|s| as real) * v
    ensures Mean(s) == v
  {
    ProductThenDivide(v, |s| as real);
  }

  lemma ProductThenDivide(v: real, n: real)
    requires n > 0.0
    ensures (n * v) / n == v
  {
  }

  /** Every group shifted by the same constant k. */
  function ShiftAll(gs: seq<seq<real>>, k: real): (r: seq<seq<real>>)
    ensures |r| == |gs|
    ensures forall i :: 0 <= i < |gs| ==> r[i] == Shift(gs[i], k)
  {
    seq(|gs|, i requires 0 <= i < |gs| => Shift(gs[i], k))
  }

  lemma {:induction false} ConcatShiftAll(gs: seq<seq<real>>, k: real)
    ensures Concat(ShiftAll(gs, k)) == Shift(Concat(gs), k)
  {
    if |gs| > 0 {
      assert ShiftAll(gs, k)[1..] == ShiftAll(gs[1..], k);
      ConcatShiftAll(gs[1..], k);
      assert Shift(gs[0], k) + Shift(Concat(gs[1..]), k) == Shift(gs[0] + Concat(gs[1..]), k);
    }
  }

  lemma {:induction false} SSBetweenShift(gs: seq<seq<real>>, g: real, k: real)
    requires forall i :: 0 <= i < |gs| ==> |gs[i]| > 0
    ensures SSBetween(ShiftAll(gs, k), g + k) == SSBetween(gs, g)
  {
    if |gs| > 0 {
      assert ShiftAll(gs, k)[1..] == ShiftAll(gs[1..], k);
      SSBetweenShift(gs[1..], g, k);
      MeanShift(gs[0], k);
      assert Mean(Shift(gs[0], k)) - (g + k) == Mean(gs[0]) - g;
    }
  }

  /** Adding the same constant to every value leaves η² unchanged. */
  lemma EtaShiftInvariant(gs: seq<seq<real>>, k: real)
    requires NonEmptyGroups(gs)
    ensures NonEmptyGroups(ShiftAll(gs, k))
    ensures CalcEtaSquared(ShiftAll(gs, k)) == CalcEtaSquared(gs)
  {
    var hs := ShiftAll(gs, k);
    ConcatShiftAll(gs, k);
    ConcatLength(gs);
    MeanShift(Concat(gs), k);
    assert GrandMean(hs) == GrandMean(gs) + k;
    SqDevShift(Concat(gs), GrandMean(gs), k);
    assert SSTotal(hs) == SSTotal(gs);
    SSBetweenShift(gs, GrandMean(gs), k);
  }

  /** Cohen's (1988) tier; each lower bound belongs to its tier. */
  function ClassifyEtaSq(eta: real): (e: EffectSize)
    ensures e == Large <==> eta >= 0.14
    ensures e == Medium <==> 0.06 <= eta < 0.14
    ensures e == Small <==> 0.01 <= eta < 0.06
    ensures e == Negligible <==> eta < 0.01
  {
    if eta >= 0.14 then Large
    else if eta >= 0.06 then Medium
    else if eta >= 0.01 then Small
    else Negligible
  }

  /** Rank of a tier, smallest effect first. */
  function Magnitude(e: EffectSize): nat
  {
    match e
    case Negligible => 0
    case Small => 1
    case Medium => 2
    case Large => 3
  }

  /** A larger η² is never put in a smaller tier. */
  lemma ClassifyMonotone(a: real, b: real)
    requires a <= b
    ensures Magnitude(ClassifyEtaSq(a)) <= Magnitude(ClassifyEtaSq(b))
  {
  }

  lemma SumOfThree(x: real, y: real, z: real)
    ensures Sum([x, y, z]) == x + y + z
  {
    assert [z][1..] == [];
    assert Sum([z]) == z;
    assert [y, z][1..] == [z];
    assert Sum([y, z]) == y + z;
    assert [x, y, z][1..] == [y, z];
  }

  lemma SqDevOfThree(x: real, y: real, z: real, c: real)
    ensures SqDev([x, y, z], c) == Square(x - c) + Square(y - c) + Square(z - c)
  {
    assert [z][1..] == [];
    assert SqDev([z], c) == Square(z - c);
    assert [y, z][1..] == [z];
    assert SqDev([y, z], c) == Square(y - c) + Square(z - c);
    assert [x, y, z][1..] == [y, z];
  }

  lemma ConcatOfThree(a: seq<real>, b: seq<real>, c: seq<real>)
    ensures Concat([a, b, c]) == a + b + c
  {
    var gs: seq<seq<real>> := [a, b, c];
    var empty: seq<seq<real>> := [];
    assert gs[1..][1..][1..] == empty;
    assert Concat(gs[1..][1..]) == c + [];
    assert gs[1..][1..] == [c];
    assert Concat(gs[1..]) == b + c;
    assert gs[1..] == [b, c];
    assert c + [] == c;
  }

  lemma SSBetweenOfThree(a: seq<real>, b: seq<real>, c: seq<real>, g: real)
    requires |a| > 0 && |b| > 0 && |c| > 0
    ensures SSBetween([a, b, c], g)
         == Weighted(|a|, Mean(a) - g) + Weighted(|b|, Mean(b) - g) + Weighted(|c|, Mean(c) - g)
  {
    var gs: seq<seq<real>> := [a, b, c];
    var empty: seq<seq<real>> := [];
    assert gs[1..][1..][1..] == empty;
    assert SSBetween(gs[1..][1..], g) == Weighted(|c|, Mean(c) - g);
    assert SSBetween(gs[1..], g) == Weighted(|b|, Mean(b) - g) + Weighted(|c|, Mean(c) - g);
  }

  /**
    Worked example: groups [2, 3, 4], [0, 1, −1], [−3, −2, −4] have means 3, 0
    and −3 around a grand mean of 0, so SS_between = 54, SS_total = 60 and
    η² = 0.9, a large effect.
   */
  lemma ThreeGroupExample()
    ensures NonEmptyGroups([[2.0, 3.0, 4.0], [0.0, 1.0, -1.0], [-3.0, -2.0, -4.0]])
    ensures CalcEtaSquared([[2.0, 3.0, 4.0], [0.0, 1.0, -1.0], [-3.0, -2.0, -4.0]]) == 0.9
    ensures ClassifyEtaSq(CalcEtaSquared([[2.0, 3.0, 4.0], [0.0, 1.0, -1.0], [-3.0, -2.0, -4.0]])) == Large
  {
    var a, b, c := [2.0, 3.0, 4.0], [0.0, 1.0, -1.0], [-3.0, -2.0, -4.0];
    var gs: seq<seq<real>> := [a, b, c];
    SumOfThree(2.0, 3.0, 4.0);
    SumOfThree(0.0, 1.0, -1.0);
    SumOfThree(-3.0, -2.0, -4.0);
    ConcatOfThree(a, b, c);
    assert GrandMean(gs) == 0.0 by {
      SumAppend(a, b);
      SumAppend(a + b, c);
      assert Sum(Concat(gs)) == 0.0;
    }
    assert SSBetween(gs, 0.0) == 54.0 by {
      assert Mean(a) == 3.0 && Mean(b) == 0.0 && Mean(c) == -3.0;
      SSBetweenOfThree(a, b, c, 0.0);
      assert Weighted(3, 3.0) == 27.0 && Weighted(3, 0.0) == 0.0 && Weighted(3, -3.0) == 27.0;
    }
    assert SSTotal(gs) == 60.0 by {
      SqDevAppend(a, b, 0.0);
      SqDevAppend(a + b, c, 0.0);
      SqDevOfThree(2.0, 3.0, 4.0, 0.0);
      SqDevOfThree(0.0, 1.0, -1.0, 0.0);
      SqDevOfThree(-3.0, -2.0, -4.0, 0.0);
    }
    var eta := CalcEtaSquared(gs);
    assert eta * 60.0 == 54.0;
  }
}
