/**
  The decision table choosing the between-group test, in the two forms the
  scripts write it, and the degrees of freedom the composite script reports.
  Only the choice is modelled; the tests' statistics and p-values are inputs.
 */
module TestSelection {
  import opened Stats
  import opened Normality

  /**
    `alternative=` of the Mann-Whitney U call: spelled out as two-sided, or
    left to the library default. stai_analysis.py's printed Methods text
    names SciPy 1.13, whose default is two-sided; on that release both
    spellings ask for the same test.
   */
  datatype Alternative = TwoSided | LibraryDefault

  /** The four between-group tests. */
  datatype Test = StudentT | MannWhitneyU(alternative: Alternative) | Anova | KruskalWallis

  /** The degrees of freedom reported with a statistic: t(df), F(df₁, df₂), or none for rank tests. */
  datatype Df = NoDf | TDf(df: int) | FDf(between: int, within: int)

  /** The test's name, as the summary and the plot print it (the Mann-Whitney alternative aside). */
  datatype Family = TTestFamily | MannWhitneyFamily | AnovaFamily | KruskalWallisFamily

  /** The t-test and ANOVA assume normal groups; the rank tests do not. */
  predicate Parametric(t: Test)
  {
    t.StudentT? || t.Anova?
  }

  function FamilyOf(t: Test): Family
  {
    match t
    case StudentT => TTestFamily
    case MannWhitneyU(_) => MannWhitneyFamily
    case Anova => AnovaFamily
    case KruskalWallis => KruskalWallisFamily
  }

  /**
    composite_analysis.py's table: exactly 3 groups → ANOVA or Kruskal-Wallis,
    exactly 2 → t-test or two-sided Mann-Whitney U, keyed on `all_normal`.
   */
  function CompositeChooseTest(k: nat, allNormal: bool): (t: Test)
    requires 2 <= k <= 3
    ensures Parametric(t) <==> allNormal
    ensures (t.StudentT? || t.MannWhitneyU?) <==> k == 2
    ensures t.MannWhitneyU? ==> t.alternative == TwoSided
  {
    if k == 3 then (if allNormal then Anova else KruskalWallis)
    else (if allNormal then StudentT else MannWhitneyU(TwoSided))
  }

  /**
    Analyze_elements_groups.py's table: 2 groups → t-test or Mann-Whitney U
    (library-default alternative), 3 or more → ANOVA or Kruskal-Wallis.
   */
  function AnalyzeChooseTest(k: nat, allNormal: bool): (t: Test)
    requires k >= 2
    ensures Parametric(t) <==> allNormal
    ensures (t.StudentT? || t.MannWhitneyU?) <==> k == 2
    ensures t.MannWhitneyU? ==> t.alternative == LibraryDefault
  {
    if k == 2 then (if allNormal then StudentT else MannWhitneyU(LibraryDefault))
    else (if allNormal then Anova else KruskalWallis)
  }

  /**
    Degrees of freedom the composite script prints: t(N − 2) and
    F(k − 1, N − k), where N is the pooled sample size.
   */
  function CompositeDf(t: Test, k: nat, n: nat): (d: Df)
    ensures t.StudentT? ==> d == TDf(n - 2)
    ensures t.Anova? ==> d == FDf(k - 1, n - k)
    ensures !Parametric(t) ==> d == NoDf
  {
    match t
    case StudentT => TDf(n - 2)
    case Anova => FDf(k - 1, n - k)
    case _ => NoDf
  }

  /** The label the boxplot prints, chosen again from the group count and `all_normal`. */
  function PlotFamily(k: nat, allNormal: bool): Family
  {
    if k == 2 then (if allNormal then TTestFamily else MannWhitneyFamily)
    else (if allNormal then AnovaFamily else KruskalWallisFamily)
  }

  /**
    The two scripts run the same test for 2 or 3 groups; the calls differ
    only where Mann-Whitney U's alternative is spelled out in one and left
    to the library default in the other.
   */
  lemma ScriptsAgree(k: nat, allNormal: bool)
    requires 2 <= k <= 3
    ensures FamilyOf(CompositeChooseTest(k, allNormal)) == FamilyOf(AnalyzeChooseTest(k, allNormal))
    ensures CompositeChooseTest(k, allNormal) != AnalyzeChooseTest(k, allNormal) <==> !allNormal && k == 2
  {
  }

  /** The plot's test name is the test that was run. */
  lemma PlotNameMatchesTest(k: nat, allNormal: bool)
    requires k >= 2
    ensures PlotFamily(k, allNormal) == FamilyOf(AnalyzeChooseTest(k, allNormal))
  {
  }

  /**
    With each group non-empty, the parametric tests' degrees of freedom
    partition the total N − 1: (k − 1) + (N − k) for ANOVA, 1 + (N − 2) for
    two groups, and none is negative.
   */
  lemma DfPartitionTotal(gs: seq<seq<real>>, allNormal: bool)
    requires 2 <= |gs| <= 3
    requires forall i :: 0 <= i < |gs| ==> |gs[i]| > 0
    ensures var d := CompositeDf(CompositeChooseTest(|gs|, allNormal), |gs|, TotalLength(gs));
      && (d.TDf? ==> d.df >= 0 && 1 + d.df == TotalLength(gs) - 1)
      && (d.FDf? ==> d.between >= 1 && d.within >= 0 && d.between + d.within == TotalLength(gs) - 1)
  {
    TotalLengthAtLeastCount(gs);
  }

  /** N ≥ k when no group is empty. */
  lemma {:induction false} TotalLengthAtLeastCount(gs: seq<seq<real>>)
    requires forall i :: 0 <= i < |gs| ==> |gs[i]| > 0
    ensures TotalLength(gs) >= |gs|
  {
    if |gs| > 0 {
      assert forall i :: 0 <= i < |gs[1..]| ==> gs[1..][i] == gs[i + 1];
      TotalLengthAtLeastCount(gs[1..]);
    }
  }

  /** A group too small for Shapiro-Wilk always sends the comparison to a rank test. */
  lemma SmallGroupForcesRankTest(gs: seq<seq<real>>, shapiro: seq<real> -> real, i: nat)
    requires 2 <= |gs| && i < |gs| && |gs[i]| < MinShapiroSize
    ensures !Parametric(AnalyzeChooseTest(|gs|, AllNormal(gs, shapiro)))
    ensures |gs| <= 3 ==> !Parametric(CompositeChooseTest(|gs|, AllNormal(gs, shapiro)))
  {
    SmallGroupNotNormal(gs, shapiro, i);
  }

  /** Two groups of two values each: both are too small to screen, so Mann-Whitney U is run. */
  lemma TwoPairsGoToMannWhitney(gs: seq<seq<real>>, shapiro: seq<real> -> real)
    requires |gs| == 2 && |gs[0]| == 2 && |gs[1]| == 2
    ensures CompositeChooseTest(|gs|, AllNormal(gs, shapiro)) == MannWhitneyU(TwoSided)
    ensures AnalyzeChooseTest(|gs|, AllNormal(gs, shapiro)) == MannWhitneyU(LibraryDefault)
  {
    SmallGroupNotNormal(gs, shapiro, 0);
  }
}
