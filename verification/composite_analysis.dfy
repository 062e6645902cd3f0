/**
  composite_analysis.py's per-element comparison: exclusion of the sentinel,
  group building, normality screen, test choice with degrees of freedom,
  significance tier, and η² with its Cohen (1988) tier. Shapiro-Wilk and the
  test p-values are inputs; the script's behaviour with fewer than two groups
  (a p-value left over from an earlier element) is excluded by the precondition.
 */
module CompositeAnalysis {
  import opened Stats
  import opened Judgments
  import opened Grouping
  import opened Normality
  import opened TestSelection
  import opened Significance
  import opened EtaSquared

  /** The comparison printed for one element's groups. */
  datatype Comparison = Comparison(
    allNormal: bool,
    test: Test,
    df: Df,
    p: real,
    tier: Tier,
    eta: real,
    effect: EffectSize)

  /** What the script prints for one element: the counts, the groups and their comparison. */
  datatype Report = Report(excluded: nat, analysed: nat, groups: seq<Group>, comparison: Comparison)

  /** The pooled sample size of the groups is the number of rows grouped. */
  lemma {:induction false} PooledSizeIsGroupedRows(gs: seq<Group>)
    ensures TotalLength(Arrays(gs)) == TotalSize(gs)
  {
    if |gs| > 0 {
      assert Arrays(gs)[1..] == Arrays(gs[1..]);
      PooledSizeIsGroupedRows(gs[1..]);
    }
  }

  /**
    Steps 3 and 4 for two or three non-empty groups. `shapiro` gives a
    group's Shapiro-Wilk p-value and `run` the p-value of a test on the groups.
   */
  function Compare(groups: seq<Group>, shapiro: seq<real> -> real, run: (Test, seq<seq<real>>) -> real): (c: Comparison)
    requires 2 <= |groups| <= 3 && forall i :: 0 <= i < |groups| ==> |groups[i].values| > 0
    ensures c.allNormal <==> forall i :: 0 <= i < |groups| ==> NormalFlag(groups[i].values, shapiro)
    ensures Parametric(c.test) <==> c.allNormal
    ensures (c.test.StudentT? || c.test.MannWhitneyU?) <==> |groups| == 2
    ensures c.test.MannWhitneyU? ==> c.test.alternative == TwoSided
    ensures c.test.StudentT? <==> c.df == TDf(TotalSize(groups) - 2)
    ensures c.test.Anova? <==> c.df == FDf(2, TotalSize(groups) - 3)
    ensures !Parametric(c.test) ==> c.df == NoDf
    ensures c.p == run(c.test, Arrays(groups)) && c.tier == TierOf(c.p)
    ensures 0.0 <= c.eta <= 1.0 && c.eta == CalcEtaSquared(Arrays(groups))
    ensures c.effect == ClassifyEtaSq(c.eta)
  {
    var arrays := Arrays(groups);
    PooledSizeIsGroupedRows(groups);
    AllNormalIff(arrays, shapiro);
    assert NonEmptyGroups(arrays);
    var allNormal := AllNormal(arrays, shapiro);
    var test := CompositeChooseTest(|groups|, allNormal);
    var p := run(test, arrays);
    var eta := CalcEtaSquared(arrays);
    Comparison(allNormal, test, CompositeDf(test, |groups|, TotalLength(arrays)), p, TierOf(p), eta, ClassifyEtaSq(eta))
  }

  /**
    One element of the composite analysis: rows judged データ不足 are
    counted and excluded, the rest grouped and compared.
   */
  function CompositeElement(
    ps: seq<Participant>, e: Element,
    shapiro: seq<real> -> real, run: (Test, seq<seq<real>>) -> real): (r: Report)
    requires |BuildGroups(ElementRows(ps, e))| >= 2
    ensures r.excluded + r.analysed == |ps|
    ensures r.excluded == CountJudgment(ElementRows(ps, e), InsufficientData)
    ensures r.groups == BuildGroups(ElementRows(ps, e)) && TotalSize(r.groups) == r.analysed
    ensures r.comparison == Compare(r.groups, shapiro, run)
  {
    var rows := ElementRows(ps, e);
    var groups := BuildGroups(rows);
    var analysed := |DropSentinel(rows)|;
    ExcludedPlusAnalysed(rows);
    GroupedRowsAreAnalysedRows(rows);
    Report(|rows| - analysed, analysed, groups, Compare(groups, shapiro, run))
  }
}
