/**
  Analyze_elements_groups.py's per-element comparison. It repeats the
  composite pipeline with these differences:
  - ΔSTAI-S is the data file's own `Delta_STAI` column, not B − A computed
    from the scores;
  - the comparison, summary row and plot exist only when at least two
    groups survive;
  - an informational Levene test runs when every group has at least two
    values;
  - Mann-Whitney U's alternative is left to the library default, any count
    of groups ≥ 3 goes to ANOVA or Kruskal-Wallis, and no degrees of freedom
    are reported;
  - the summary row records the number of groups and their names joined by
    ", ".
 */
module ElementGroups {
  import opened Optional
  import opened Judgments
  import opened Grouping
  import opened Normality
  import opened TestSelection
  import opened Significance
  import opened EtaSquared
  import opened CompositeAnalysis

  /** One line of the summary table. */
  datatype SummaryRow = SummaryRow(
    element: Element,
    nGroups: nat,
    groupNames: string,
    p: real,
    significance: string,
    effectSize: real)

  /** Everything the script derives for one element with at least two groups. */
  datatype ElementReport = ElementReport(
    groups: seq<Group>,
    allNormal: bool,
    levene: Option<real>,
    test: Test,
    p: real,
    tier: Tier,
    eta: real,
    effect: EffectSize,
    summary: SummaryRow,
    plotName: Family)

  /** The separator between group names in the summary row. */
  const Separator: string := ", "

  /** Group names joined by ", " (Python's `', '.join`). */
  function JoinNames(ns: seq<Judgment>): string
  {
    if |ns| == 0 then ""
    else if |ns| == 1 then Text(ns[0])
    else Text(ns[0]) + Separator + JoinNames(ns[1..])
  }

  /** The only judgment whose text starts with character `c`, if any. */
  function NameStartingWith(c: char): Option<Judgment>
  {
    if c == Text(Effective)[0] then Some(Effective)
    else if c == Text(Unchanged)[0] then Some(Unchanged)
    else if c == Text(Adverse)[0] then Some(Adverse)
    else if c == Text(InsufficientData)[0] then Some(InsufficientData)
    else None
  }

  /** The judgment whose text begins `s`, if any. */
  function LeadingName(s: string): Option<Judgment>
  {
    if |s| == 0 then None
    else match NameStartingWith(s[0])
      case None => None
      case Some(j) => if Text(j) <= s then Some(j) else None
  }

  /** Reads a summary row's group-name cell back into judgments. */
  function SplitNames(s: string): Option<seq<Judgment>>
    decreases |s|
  {
    if |s| == 0 then Some([])
    else match LeadingName(s)
      case None => None
      case Some(j) =>
        var rest := s[|Text(j)|..];
        if |rest| == 0 then Some([j])
        else if Separator <= rest then
          match SplitNames(rest[|Separator|..])
          case None => None
          case Some(ns) => if |ns| == 0 then None else Some([j] + ns)
        else None
  }

  lemma LeadingNameOfText(j: Judgment, rest: string)
    ensures LeadingName(Text(j) + rest) == Some(j)
  {
    var s := Text(j) + rest;
    assert s[0] == Text(j)[0];
    assert Text(j) <= s;
  }

  /** One name read from the front of `Text(j) + Separator + tail`. */
  lemma SplitNamesStep(j: Judgment, tail: string, ns: seq<Judgment>)
    requires |ns| > 0 && SplitNames(tail) == Some(ns)
    ensures SplitNames(Text(j) + Separator + tail) == Some([j] + ns)
  {
    var s := Text(j) + Separator + tail;
    LeadingNameOfText(j, Separator + tail);
    assert s == Text(j) + (Separator + tail);
    var rest := s[|Text(j)|..];
    assert rest == Separator + tail;
    assert Separator <= rest;
    assert rest[|Separator|..] == tail;
  }

  lemma SplitNamesSingle(j: Judgment)
    ensures SplitNames(Text(j)) == Some([j])
  {
    LeadingNameOfText(j, "");
    assert Text(j) + "" == Text(j);
  }

  /** The joined names can be read back: the summary cell loses nothing. */
  lemma {:induction false} SplitJoin(ns: seq<Judgment>)
    ensures SplitNames(JoinNames(ns)) == Some(ns)
  {
    if |ns| == 1 {
      SplitNamesSingle(ns[0]);
      assert JoinNames(ns) == Text(ns[0]);
      assert [ns[0]] == ns;
    } else if |ns| > 1 {
      SplitJoin(ns[1..]);
      SplitNamesStep(ns[0], JoinNames(ns[1..]), ns[1..]);
      assert [ns[0]] + ns[1..] == ns;
    }
  }

  /** A name the reader recognises really begins the cell. */
  lemma LeadingNameSound(s: string)
    requires LeadingName(s).Some?
    ensures Text(LeadingName(s).value) <= s
  {
  }

  /** What an accepted non-empty cell looks like: one name, then either the end or ", " and more names. */
  lemma SplitNamesCases(s: string, ns: seq<Judgment>)
    requires |s| > 0 && SplitNames(s) == Some(ns)
    ensures LeadingName(s).Some? && |ns| > 0 && ns[0] == LeadingName(s).value
    ensures var rest := s[|Text(ns[0])|..];
      && s == Text(ns[0]) + rest
      && (|ns| == 1 <==> |rest| == 0)
      && (|rest| > 0 ==> rest == Separator + rest[|Separator|..]
                         && SplitNames(rest[|Separator|..]) == Some(ns[1..]))
  {
    LeadingNameSound(s);
    var j := LeadingName(s).value;
    var rest := s[|Text(j)|..];
    assert s == Text(j) + rest;
    if |rest| > 0 {
      assert Separator <= rest;
      var more := SplitNames(rest[|Separator|..]).value;
      assert ns == [j] + more;
      assert ns[1..] == more;
    }
  }

  /** Joining a name in front of a non-empty list adds the name and a separator. */
  lemma JoinCons(ns: seq<Judgment>)
    requires |ns| > 1
    ensures JoinNames(ns) == Text(ns[0]) + (Separator + JoinNames(ns[1..]))
  {
  }

  /** Every cell the reader accepts is the join of what it returns. */
  lemma {:induction false} JoinSplit(s: string, ns: seq<Judgment>)
    requires SplitNames(s) == Some(ns)
    ensures JoinNames(ns) == s
    decreases |s|
  {
    if |s| > 0 {
      SplitNamesCases(s, ns);
      var rest := s[|Text(ns[0])|..];
      if |rest| > 0 {
        var tail := rest[|Separator|..];
        JoinSplit(tail, ns[1..]);
        JoinCons(ns);
      }
    }
  }

  /** The Levene guard: every group has at least two values. */
  predicate LeveneApplies(gs: seq<Group>)
  {
    forall i :: 0 <= i < |gs| ==> |gs[i].values| >= 2
  }

  /**
    One element of the group analysis. `rows` are the data file's judgment
    column for element `e` and its ready-made `Delta_STAI` column, in file
    order. `shapiro` and `levene` give the Shapiro-Wilk and Levene p-values
    and `run` the p-value of a test; the result is None when fewer than two
    groups survive.
   */
  function AnalyzeElement(
    e: Element, rows: seq<Row>,
    shapiro: seq<real> -> real, levene: seq<seq<real>> -> real,
    run: (Test, seq<seq<real>>) -> real): (r: Option<ElementReport>)
    ensures r.Some? <==> |BuildGroups(rows)| >= 2
    ensures r.Some? ==> r.value.groups == BuildGroups(rows)
    ensures r.Some? ==>
      (r.value.allNormal <==> forall i :: 0 <= i < |r.value.groups| ==> NormalFlag(r.value.groups[i].values, shapiro))
    ensures r.Some? && LeveneApplies(r.value.groups) ==> r.value.levene == Some(levene(Arrays(r.value.groups)))
    ensures r.Some? && !LeveneApplies(r.value.groups) ==> r.value.levene.None?
    ensures r.Some? ==> r.value.test == AnalyzeChooseTest(|r.value.groups|, r.value.allNormal)
    ensures r.Some? ==> (Parametric(r.value.test) <==> r.value.allNormal)
    ensures r.Some? ==> ((r.value.test.StudentT? || r.value.test.MannWhitneyU?) <==> |r.value.groups| == 2)
    ensures r.Some? ==> r.value.p == run(r.value.test, Arrays(r.value.groups))
    ensures r.Some? ==> r.value.tier == TierOf(r.value.p)
    ensures r.Some? ==> r.value.eta == CalcEtaSquared(Arrays(r.value.groups)) && 0.0 <= r.value.eta <= 1.0
    ensures r.Some? ==> r.value.effect == ClassifyEtaSq(r.value.eta)
    ensures r.Some? ==> r.value.plotName == FamilyOf(r.value.test)
    ensures r.Some? ==> r.value.summary.element == e && r.value.summary.nGroups == |r.value.groups|
    ensures r.Some? ==> SplitNames(r.value.summary.groupNames) == Some(Names(r.value.groups))
    ensures r.Some? ==> r.value.summary.p == r.value.p && r.value.summary.effectSize == r.value.eta
    ensures r.Some? ==> r.value.summary.significance == Mark(r.value.tier)
  {
    var groups := BuildGroups(rows);
    if |groups| < 2 then None
    else
      var arrays := Arrays(groups);
      AllNormalIff(arrays, shapiro);
      var allNormal := AllNormal(arrays, shapiro);
      var lev := if LeveneApplies(groups) then Some(levene(arrays)) else None;
      var test := AnalyzeChooseTest(|groups|, allNormal);
      var p := run(test, arrays);
      var eta := CalcEtaSquared(arrays);
      var names := JoinNames(Names(groups));
      SplitJoin(Names(groups));
      PlotNameMatchesTest(|groups|, allNormal);
      Some(ElementReport(groups, allNormal, lev, test, p, TierOf(p), eta, ClassifyEtaSq(eta),
        SummaryRow(e, |groups|, names, p, Mark(TierOf(p)), eta),
        PlotFamily(|groups|, allNormal)))
  }

  /** The Levene p-value is only printed: it changes nothing else the script derives. */
  lemma LeveneHasNoInfluence(
    e: Element, rows: seq<Row>, shapiro: seq<real> -> real,
    lev1: seq<seq<real>> -> real, lev2: seq<seq<real>> -> real,
    run: (Test, seq<seq<real>>) -> real)
    ensures var r1 := AnalyzeElement(e, rows, shapiro, lev1, run);
            var r2 := AnalyzeElement(e, rows, shapiro, lev2, run);
            r1.Some? == r2.Some? &&
            (r1.Some? ==> r1.value.(levene := None) == r2.value.(levene := None))
  {
  }

  /**
    When the file's `Delta_STAI` column holds B − A for every row, and the
    library's default Mann-Whitney alternative is the two-sided one, both
    scripts compare the same groups and report the same normality verdict,
    kind of test, p-value, tier, η² and effect tier.
   */
  lemma AgreesWithComposite(
    ps: seq<Participant>, e: Element, rows: seq<Row>, shapiro: seq<real> -> real,
    levene: seq<seq<real>> -> real, run: (Test, seq<seq<real>>) -> real)
    requires rows == ElementRows(ps, e)
    requires |BuildGroups(rows)| >= 2
    requires forall g :: run(MannWhitneyU(LibraryDefault), g) == run(MannWhitneyU(TwoSided), g)
    ensures var r := AnalyzeElement(e, rows, shapiro, levene, run).value;
            var c := CompositeElement(ps, e, shapiro, run);
            && r.groups == c.groups
            && r.allNormal == c.comparison.allNormal
            && FamilyOf(r.test) == FamilyOf(c.comparison.test)
            && r.p == c.comparison.p && r.tier == c.comparison.tier
            && r.eta == c.comparison.eta && r.effect == c.comparison.effect
  {
    var groups := BuildGroups(rows);
    var allNormal := AllNormal(Arrays(groups), shapiro);
    AllNormalIff(Arrays(groups), shapiro);
    ScriptsAgree(|groups|, allNormal);
  }
}
