/**
  stai_analysis.py's rules around the paired A-versus-B comparison: the
  missing-score filter, the paired-test label, Cohen's d for paired data,
  the numeric encoding of judgments with the Spearman minimum-pairs guard,
  and the category percentages. All test p-values are inputs.
 */
module PairedAnalysis {
  import opened Optional
  import opened Stats
  import opened Judgments
  import opened Grouping
  import opened Significance
  import opened Normality

  /** One row of the data file as read: either score may be missing. */
  datatype RawParticipant = RawParticipant(
    scoreA: Option<real>,
    scoreB: Option<real>,
    obligation: Judgment,
    burden: Judgment,
    rejection: Judgment)

  predicate Complete(r: RawParticipant)
  {
    r.scoreA.Some? && r.scoreB.Some?
  }

  function Scored(r: RawParticipant): Participant
    requires Complete(r)
  {
    Participant(r.scoreA.value, r.scoreB.value, r.obligation, r.burden, r.rejection)
  }

  /** The rows with both scores present, in their original order. */
  function Clean(rs: seq<RawParticipant>): (ps: seq<Participant>)
    ensures |ps| <= |rs|
    ensures forall r :: r in rs && Complete(r) ==> Scored(r) in ps
    ensures forall p :: p in ps ==> exists r :: r in rs && Complete(r) && Scored(r) == p
  {
    if |rs| == 0 then []
    else if Complete(rs[0]) then [Scored(rs[0])] + Clean(rs[1..])
    else Clean(rs[1..])
  }

  /** The filter works row by row: cleaning a split table cleans each part and keeps their order. */
  lemma {:induction false} CleanAppend(a: seq<RawParticipant>, b: seq<RawParticipant>)
    ensures Clean(a + b) == Clean(a) + Clean(b)
  {
    if |a| > 0 {
      assert (a + b)[1..] == a[1..] + b;
      assert (a + b)[0] == a[0];
      CleanAppend(a[1..], b);
      if Complete(a[0]) {
        var head := [Scored(a[0])];
        assert head + (Clean(a[1..]) + Clean(b)) == (head + Clean(a[1..])) + Clean(b);
      }
    } else {
      assert a + b == b;
    }
  }

  /** Number of complete rows. */
  function CountComplete(rs: seq<RawParticipant>): nat
  {
    if |rs| == 0 then 0 else (if Complete(rs[0]) then 1 else 0) + CountComplete(rs[1..])
  }

  /** The cleaned table has one row per complete raw row. */
  lemma {:induction false} CleanSize(rs: seq<RawParticipant>)
    ensures |Clean(rs)| == CountComplete(rs)
  {
    if |rs| > 0 {
      CleanSize(rs[1..]);
    }
  }

  // ---------------------------------------------------------------
  // The paired comparison
  // ---------------------------------------------------------------

  /** The label printed for the paired comparison. */
  datatype PairedTest = PairedT | Wilcoxon

  /** "Paired t-test" only when both Shapiro-Wilk p-values are strictly above 0.05. */
  function PairedTestLabel(pA: real, pB: real): (t: PairedTest)
    ensures t == PairedT <==> pA > Alpha && pB > Alpha
  {
    if pA > Alpha && pB > Alpha then PairedT else Wilcoxon
  }

  /**
    The paired rule is stricter than the group scripts' `p ≥ 0.05`: a
    p-value of exactly 0.05 passes the group screen but not the paired rule,
    and anything the paired rule accepts the group screen accepts too.
   */
  lemma PairedRuleStricter(g: seq<real>, shapiro: seq<real> -> real, pB: real)
    requires |g| >= MinShapiroSize
    ensures shapiro(g) == Alpha ==> NormalFlag(g, shapiro) && PairedTestLabel(shapiro(g), pB) == Wilcoxon
    ensures PairedTestLabel(shapiro(g), pB) == PairedT ==> NormalFlag(g, shapiro)
  {
  }

  function AScores(ps: seq<Participant>): (r: seq<real>)
    ensures |r| == |ps| && forall i :: 0 <= i < |ps| ==> r[i] == ps[i].scoreA
  {
    seq(|ps|, i requires 0 <= i < |ps| => ps[i].scoreA)
  }

  function BScores(ps: seq<Participant>): (r: seq<real>)
    ensures |r| == |ps| && forall i :: 0 <= i < |ps| ==> r[i] == ps[i].scoreB
  {
    seq(|ps|, i requires 0 <= i < |ps| => ps[i].scoreB)
  }

  /** ΔSTAI-S per participant: B − A. */
  function Deltas(ps: seq<Participant>): (r: seq<real>)
    ensures |r| == |ps| && forall i :: 0 <= i < |ps| ==> r[i] == Delta(ps[i])
  {
    seq(|ps|, i requires 0 <= i < |ps| => Delta(ps[i]))
  }

  /** The difference scores Cohen's d uses: A − B. */
  function Diffs(ps: seq<Participant>): (r: seq<real>)
    ensures |r| == |ps| && forall i :: 0 <= i < |ps| ==> r[i] == ps[i].scoreA - ps[i].scoreB
  {
    seq(|ps|, i requires 0 <= i < |ps| => ps[i].scoreA - ps[i].scoreB)
  }

  /** The difference scores are the deltas with the sign flipped. */
  lemma DiffsAreNegatedDeltas(ps: seq<Participant>)
    ensures Diffs(ps) == Negate(Deltas(ps))
  {
  }

  /** Mean of the differences is minus the mean ΔSTAI-S. */
  lemma MeanDiffIsMinusMeanDelta(ps: seq<Participant>)
    requires |ps| > 0
    ensures Mean(Diffs(ps)) == -Mean(Deltas(ps))
  {
    var n := |ps| as real;
    DiffsAreNegatedDeltas(ps);
    SumNegate(Deltas(ps));
    NegateQuotient(Sum(Deltas(ps)), n);
  }

  lemma NegateQuotient(x: real, n: real)
    requires n > 0.0
    ensures (-x) / n == -(x / n)
  {
  }

  lemma VarianceZeroIff(s: seq<real>)
    requires |s| >= 2
    ensures SampleVariance(s) == 0.0 <==> SqDev(s, Mean(s)) == 0.0
  {
    var q := SqDev(s, Mean(s));
    var n := (|s| - 1) as real;
    SqDevNonNegative(s, Mean(s));
    if q > 0.0 {
      PositiveQuotient(q, n);
    }
  }

  lemma PositiveQuotient(q: real, n: real)
    requires q > 0.0 && n > 0.0
    ensures q / n > 0.0
  {
  }

  lemma SquareZeroIff(x: real)
    requires x >= 0.0
    ensures Square(x) == 0.0 <==> x == 0.0
  {
    if x > 0.0 {
      SquarePositive(x);
    }
  }

  /**
    Cohen's d for paired data: mean(A − B) / sd(A − B). `sd` is the sample
    standard deviation, given through its square. When sd is 0 the
    script's division gives NaN or ±inf; the model returns None there.
   */
  function CohensD(diffs: seq<real>, sd: real): (d: Option<real>)
    requires |diffs| >= 2 && sd >= 0.0 && Square(sd) == SampleVariance(diffs)
    ensures d.None? <==> forall i :: 0 <= i < |diffs| ==> diffs[i] == Mean(diffs)
    ensures d.Some? ==> sd > 0.0 && d.value * sd == Mean(diffs)
    ensures d.Some? ==> (d.value > 0.0 <==> Mean(diffs) > 0.0) && (d.value < 0.0 <==> Mean(diffs) < 0.0)
  {
    SquareZeroIff(sd);
    VarianceZeroIff(diffs);
    SqDevZeroIff(diffs, Mean(diffs));
    if sd == 0.0 then None
    else
      QuotientSign(Mean(diffs), sd);
      Some(Mean(diffs) / sd)
  }

  lemma QuotientSign(m: real, sd: real)
    requires sd > 0.0
    ensures (m / sd) * sd == m
    ensures (m / sd > 0.0 <==> m > 0.0) && (m / sd < 0.0 <==> m < 0.0)
  {
  }

  /**
    The sign convention: d is computed on A − B, so a positive d means
    ΔSTAI-S (B − A) fell on average, and a negative d that it rose.
   */
  lemma CohensDOppositeToDelta(ps: seq<Participant>, sd: real)
    requires |ps| >= 2 && sd >= 0.0 && Square(sd) == SampleVariance(Diffs(ps))
    ensures var d := CohensD(Diffs(ps), sd);
      d.Some? ==> (d.value > 0.0 <==> Mean(Deltas(ps)) < 0.0) && (d.value < 0.0 <==> Mean(Deltas(ps)) > 0.0)
  {
    MeanDiffIsMinusMeanDelta(ps);
  }

  /** What the script prints for the paired comparison. */
  datatype PairedReport = PairedReport(
    testLabel: PairedTest,
    tP: real,
    df: int,
    tTier: Tier,
    d: Option<real>,
    wP: real,
    wTier: Tier)

  /**
    The paired comparison. `shapiro`, `ttestRel` and `wilcoxon` give the
    p-values; `sd` is the standard deviation of the differences. Shapiro-Wilk
    needs at least three values, so at least three complete rows are required.
   */
  function PairedComparison(
    ps: seq<Participant>, shapiro: seq<real> -> real,
    ttestRel: (seq<real>, seq<real>) -> real, wilcoxon: (seq<real>, seq<real>) -> real,
    sd: real): (r: PairedReport)
    requires |ps| >= MinShapiroSize && sd >= 0.0 && Square(sd) == SampleVariance(Diffs(ps))
    ensures r.testLabel == PairedT <==> shapiro(AScores(ps)) > Alpha && shapiro(BScores(ps)) > Alpha
    ensures r.tP == ttestRel(AScores(ps), BScores(ps)) && r.df == |ps| - 1 && r.tTier == TierOf(r.tP)
    ensures r.wP == wilcoxon(AScores(ps), BScores(ps)) && r.wTier == TierOf(r.wP)
    ensures r.d == CohensD(Diffs(ps), sd)
    ensures r.d.None? <==> forall i :: 0 <= i < |ps| ==> Diffs(ps)[i] == Mean(Diffs(ps))
  {
    var a, b := AScores(ps), BScores(ps);
    var tP := ttestRel(a, b);
    var wP := wilcoxon(a, b);
    PairedReport(PairedTestLabel(shapiro(a), shapiro(b)), tP, |ps| - 1, TierOf(tP),
                 CohensD(Diffs(ps), sd), wP, TierOf(wP))
  }

  /** Both tests are always run: the normality label changes nothing but itself. */
  lemma LabelIsInformational(
    ps: seq<Participant>, s1: seq<real> -> real, s2: seq<real> -> real,
    ttestRel: (seq<real>, seq<real>) -> real, wilcoxon: (seq<real>, seq<real>) -> real,
    sd: real)
    requires |ps| >= MinShapiroSize && sd >= 0.0 && Square(sd) == SampleVariance(Diffs(ps))
    ensures PairedComparison(ps, s1, ttestRel, wilcoxon, sd).(testLabel := PairedT)
         == PairedComparison(ps, s2, ttestRel, wilcoxon, sd).(testLabel := PairedT)
  {
  }

  // ---------------------------------------------------------------
  // Encoding and the Spearman guard
  // ---------------------------------------------------------------

  /** 有効 → 1, 不変 → 0, 逆効果 → −1, データ不足 → missing. */
  function Encode(j: Judgment): (v: Option<int>)
    ensures v.None? <==> j == InsufficientData
    ensures v.Some? ==> -1 <= v.value <= 1
  {
    match j
    case Effective => Some(1)
    case Unchanged => Some(0)
    case Adverse => Some(-1)
    case InsufficientData => None
  }

  /** Reading a code back into a judgment. */
  function Decode(v: int): Option<Judgment>
  {
    if v == 1 then Some(Effective)
    else if v == 0 then Some(Unchanged)
    else if v == -1 then Some(Adverse)
    else None
  }

  /** Encoding loses nothing: each label's code decodes to it, and every valid code is some label's. */
  lemma EncodeRoundTrip(j: Judgment, v: int)
    ensures Encode(j).Some? ==> Decode(Encode(j).value) == Some(j)
    ensures Decode(v).Some? ==> Encode(Decode(v).value) == Some(v)
    ensures Decode(v).Some? <==> -1 <= v <= 1
  {
  }

  /** The code runs against the canonical label order: an earlier label gets a larger code. */
  lemma EncodeReversesRank(j: Judgment, k: Judgment)
    requires IsLabel(j) && IsLabel(k)
    ensures Rank(j) < Rank(k) <==> Encode(j).value > Encode(k).value
  {
  }

  /** The (code, ΔSTAI-S) pairs left after dropping rows whose code is missing. */
  function ValidPairs(ps: seq<Participant>, e: Element): (vp: seq<(int, real)>)
    ensures |vp| <= |ps|
    ensures forall k :: 0 <= k < |vp| ==> -1 <= vp[k].0 <= 1
    ensures forall k :: 0 <= k < |vp| ==>
      exists i :: 0 <= i < |ps| && Encode(JudgmentOf(ps[i], e)) == Some(vp[k].0) && vp[k].1 == Delta(ps[i])
    ensures forall i :: 0 <= i < |ps| && Encode(JudgmentOf(ps[i], e)).Some? ==>
      (Encode(JudgmentOf(ps[i], e)).value, Delta(ps[i])) in vp
  {
    if |ps| == 0 then []
    else
      var rest := ValidPairs(ps[1..], e);
      assert forall i :: 1 <= i < |ps| && Encode(JudgmentOf(ps[i], e)).Some? ==>
        (Encode(JudgmentOf(ps[i], e)).value, Delta(ps[i])) in rest
      by {
        forall i | 1 <= i < |ps| && Encode(JudgmentOf(ps[i], e)).Some?
          ensures (Encode(JudgmentOf(ps[i], e)).value, Delta(ps[i])) in rest
        {
          assert ps[1..][i - 1] == ps[i];
        }
      }
      assert forall k :: 0 <= k < |rest| ==>
        exists i :: 0 <= i < |ps| && Encode(JudgmentOf(ps[i], e)) == Some(rest[k].0) && rest[k].1 == Delta(ps[i])
      by {
        forall k | 0 <= k < |rest|
          ensures exists i :: 0 <= i < |ps| && Encode(JudgmentOf(ps[i], e)) == Some(rest[k].0) && rest[k].1 == Delta(ps[i])
        {
          var i :| 0 <= i < |ps[1..]| && Encode(JudgmentOf(ps[1..][i], e)) == Some(rest[k].0) && rest[k].1 == Delta(ps[1..][i]);
          assert ps[1..][i] == ps[i + 1];
        }
      }
      match Encode(JudgmentOf(ps[0], e))
      case None => rest
      case Some(v) => [(v, Delta(ps[0]))] + rest
  }

  /** Exactly the participants not judged データ不足 contribute a pair. */
  lemma {:induction false} ValidPairsCount(ps: seq<Participant>, e: Element)
    ensures |ValidPairs(ps, e)| + CountJudgment(ElementRows(ps, e), InsufficientData) == |ps|
  {
    if |ps| > 0 {
      ValidPairsCount(ps[1..], e);
      assert ElementRows(ps, e)[1..] == ElementRows(ps[1..], e);
    }
  }

  /** Dropping missing codes works row by row: the pairs of a split table are the two parts' pairs, in order. */
  lemma {:induction false} ValidPairsAppend(a: seq<Participant>, b: seq<Participant>, e: Element)
    ensures ValidPairs(a + b, e) == ValidPairs(a, e) + ValidPairs(b, e)
  {
    if |a| > 0 {
      assert (a + b)[1..] == a[1..] + b;
      assert (a + b)[0] == a[0];
      ValidPairsAppend(a[1..], b, e);
      match Encode(JudgmentOf(a[0], e))
      case None =>
      case Some(v) =>
        var head := [(v, Delta(a[0]))];
        assert head + (ValidPairs(a[1..], e) + ValidPairs(b, e)) == (head + ValidPairs(a[1..], e)) + ValidPairs(b, e);
    } else {
      assert a + b == b;
    }
  }

  /** Spearman's ρ needs strictly more than this many valid pairs. */
  const MinPairsExclusive: nat := 2

  /** A correlation line: either computed, or reported as not computable for lack of data. */
  datatype Correlation = Correlated(n: nat, rho: real, p: real, tier: Tier) | NotComputable

  /** Spearman correlation of an element's codes with ΔSTAI-S; `spearman` returns (ρ, p). */
  function SpearmanFor(ps: seq<Participant>, e: Element,
                       spearman: seq<(int, real)> -> (real, real)): (c: Correlation)
    ensures c.Correlated? <==> |ValidPairs(ps, e)| > MinPairsExclusive
    ensures c.Correlated? ==> c.n == |ValidPairs(ps, e)| && c.tier == TierOf(c.p)
    ensures c.Correlated? ==> (c.rho, c.p) == spearman(ValidPairs(ps, e))
  {
    var vp := ValidPairs(ps, e);
    if |vp| > MinPairsExclusive then
      var (rho, p) := spearman(vp);
      Correlated(|vp|, rho, p, TierOf(p))
    else NotComputable
  }

  /** Spearman is computed exactly when more than two participants are not judged データ不足. */
  lemma SpearmanGuard(ps: seq<Participant>, e: Element, spearman: seq<(int, real)> -> (real, real))
    ensures SpearmanFor(ps, e, spearman).Correlated? <==>
      |ps| - CountJudgment(ElementRows(ps, e), InsufficientData) > MinPairsExclusive
  {
    ValidPairsCount(ps, e);
  }

  // ---------------------------------------------------------------
  // Category percentages
  // ---------------------------------------------------------------

  /** count / total × 100, and 0 for an empty table. */
  function Percentage(count: nat, total: nat): (r: real)
    ensures total == 0 ==> r == 0.0
    ensures total > 0 ==> r * (total as real) == (count as real) * 100.0
    ensures count <= total ==> 0.0 <= r <= 100.0
  {
    if total > 0 then
      PercentageFacts(count as real, total as real);
      (count as real) / (total as real) * 100.0
    else 0.0
  }

  lemma PercentageFacts(c: real, t: real)
    requires t > 0.0 && c >= 0.0
    ensures (c / t * 100.0) * t == c * 100.0
    ensures c <= t ==> 0.0 <= c / t * 100.0 <= 100.0
  {
    var q := c / t;
    assert q * t == c;
    if c <= t {
      assert q <= 1.0;
    }
  }

  lemma CancelPositive(x: real, y: real, n: real)
    requires n > 0.0 && x * n == y * n
    ensures x == y
  {
  }

  /** Shares xᵢ with xᵢ·n = cᵢ·100 of counts adding up to n add up to 100. */
  lemma SharesAddTo100(x1: real, x2: real, x3: real, x4: real,
                       c1: real, c2: real, c3: real, c4: real, n: real)
    requires n > 0.0 && c1 + c2 + c3 + c4 == n
    requires x1 * n == c1 * 100.0 && x2 * n == c2 * 100.0
    requires x3 * n == c3 * 100.0 && x4 * n == c4 * 100.0
    ensures x1 + x2 + x3 + x4 == 100.0
  {
    calc {
      (x1 + x2 + x3 + x4) * n;
      x1 * n + x2 * n + x3 * n + x4 * n;
      c1 * 100.0 + c2 * 100.0 + c3 * 100.0 + c4 * 100.0;
      100.0 * n;
    }
    CancelPositive(x1 + x2 + x3 + x4, 100.0, n);
  }

  /** Four counts that make up the whole table give percentages adding up to 100. */
  lemma PartitionPercentages(c1: nat, c2: nat, c3: nat, c4: nat, t: nat)
    requires t > 0 && c1 + c2 + c3 + c4 == t
    ensures Percentage(c1, t) + Percentage(c2, t) + Percentage(c3, t) + Percentage(c4, t) == 100.0
  {
    SharesAddTo100(Percentage(c1, t), Percentage(c2, t), Percentage(c3, t), Percentage(c4, t),
                   c1 as real, c2 as real, c3 as real, c4 as real, t as real);
  }

  /** The four categories' percentages add up to 100 for a non-empty table. */
  lemma PercentagesTotal100(ps: seq<Participant>, e: Element)
    requires |ps| > 0
    ensures var rows := ElementRows(ps, e);
      Percentage(CountJudgment(rows, Effective), |ps|) + Percentage(CountJudgment(rows, Unchanged), |ps|)
      + Percentage(CountJudgment(rows, Adverse), |ps|) + Percentage(CountJudgment(rows, InsufficientData), |ps|)
      == 100.0
  {
    var rows := ElementRows(ps, e);
    LabelCountsPartition(rows);
    ExcludedPlusAnalysed(rows);
    PartitionPercentages(CountJudgment(rows, Effective), CountJudgment(rows, Unchanged),
                         CountJudgment(rows, Adverse), CountJudgment(rows, InsufficientData), |ps|);
  }
}
