# STAI-S element analyses, modelled in Dafny

This project models the decision logic of three analysis scripts from a
29-participant study. The study compares STAI-S anxiety scores between two
conditions, A and B, and stratifies them by three qualitative "element"
judgments per participant. Each judgment is one of 有効 (effective),
不変 (unchanged), 逆効果 (adverse) or the sentinel データ不足 (insufficient
data).

For each element, `composite_analysis.py` and `Analyze_elements_groups.py`
run the same pipeline:
- drop the sentinel;
- group ΔSTAI-S by judgment, in the fixed order 有効, 不変, 逆効果.
  `composite_analysis.py` computes ΔSTAI-S as B − A from the scores;
  `Analyze_elements_groups.py` reads a ready-made `Delta_STAI` column from the
  data file, so its model takes the (judgment, ΔSTAI-S) rows as input;
- screen each group for normality (n < 3 counts as non-normal, otherwise
  Shapiro-Wilk p ≥ 0.05);
- choose between t-test, Mann-Whitney U, ANOVA and Kruskal-Wallis;
- tier the p-value (strict `<` at 0.001, 0.01 and 0.05);
- compute η² = SS_between / SS_total with a zero guard, and tier it by
  Cohen (1988).

`stai_analysis.py` adds the paired A-versus-B comparison. It covers:
- the missing-score filter;
- a Shapiro-based label that is only printed;
- paired t-test and Wilcoxon, which are always both run;
- Cohen's d on A − B;
- the 1/0/−1 encoding of judgments, with the Spearman guard of more than two
  valid pairs;
- the category percentages.

Every library p-value is an input, given as a function parameter:
- `shapiro`: Shapiro-Wilk;
- `levene`;
- `run`: the between-group test;
- `ttestRel`, `wilcoxon`, `spearman`.

The decisions are modelled exactly over unbounded `real`s. The eta-squared
theorems are proved from the decomposition SS_total = SS_between + SS_within:
- η² lies in [0, 1];
- η² is 0 when SS_total is 0, and SS_total is 0 exactly when all pooled
  values are equal;
- η² does not change when a constant is added to every value.

Modules:
- `Stats`: sums, means, squared deviations and their algebra.
- `Judgments`: the data vocabulary.
- `Significance`: the p-value tiers.
- `EtaSquared`: η² and its tiers.
- `Grouping`: the sentinel filter and group building.
- `Normality`: the screen.
- `TestSelection`: the two scripts' decision tables and the degrees of freedom.
- `CompositeAnalysis`: the composite pipeline.
- `ElementGroups`: the group-analysis pipeline.
- `PairedAnalysis`: the paired comparison.
- `Optional`: an option type.

Notes on the scripts as written:
- **Paired label.** The paired-test label needs both Shapiro p-values to be
  strictly above 0.05. This is not the `p ≥ 0.05` rule of the group scripts.
  Both paired tests are run whatever the label says.
- **Mann-Whitney alternative.** `Analyze_elements_groups.py` calls
  Mann-Whitney U without naming the alternative; `composite_analysis.py`
  names `alternative='two-sided'`. `stai_analysis.py`'s printed Methods text
  names SciPy 1.13, whose default is two-sided. Assuming the group scripts
  run on the same release, both compute the same p-value. The model keeps
  the two spellings apart and states that sameness as a hypothesis of
  `ElementGroups.AgreesWithComposite`.
- **Group counts.** `Analyze_elements_groups.py` sends any count of groups
  ≥ 3 to ANOVA or Kruskal-Wallis; `composite_analysis.py` handles exactly 2
  or 3 groups.

## Model

| member | source | states |
|---|---|---|
| Judgments.Rank | composite_analysis.py:36 | each of the three labels has a position in the canonical order 有効, 不変, 逆効果 and is found there |
| Significance.TierOf | composite_analysis.py:198-202 | the tier is *** exactly below 0.001, ** exactly in [0.001, 0.01), * exactly in [0.01, 0.05), n.s. exactly from 0.05 on |
| Significance.StarsCountThresholds | composite_analysis.py:199-202 | the number of stars equals the number of thresholds 0.001, 0.01, 0.05 that lie strictly above p |
| Significance.TierMonotone | Analyze_elements_groups.py:114-125 | a smaller p-value never gets fewer stars |
| Significance.TierBoundaries | stai_analysis.py:56-63 | p = 0.05 is n.s., p just below 0.05 is *, and 0.01 and 0.001 fall in the weaker tier |
| EtaSquared.CalcEtaSquared | composite_analysis.py:61-79 | η² lies in [0, 1]; it is 0 when SS_total is 0, and otherwise η²·SS_total = SS_between |
| EtaSquared.Decomposition | composite_analysis.py:70-77 | pooled squared deviations around any centre split into SS_between around that centre plus SS_within |
| EtaSquared.BetweenAtMostTotal | composite_analysis.py:73-77 | 0 ≤ SS_between ≤ SS_total around the grand mean |
| EtaSquared.TotalZeroIffAllEqual | composite_analysis.py:77-79 | SS_total is 0 exactly when every pooled value equals the grand mean, the case the guard catches |
| EtaSquared.EtaZeroWhenAllEqual | composite_analysis.py:79 | when all pooled values are equal, η² is 0 |
| EtaSquared.EtaShiftInvariant | Analyze_elements_groups.py:128-137 | adding a constant to every ΔSTAI-S leaves η² unchanged |
| EtaSquared.ClassifyEtaSq | composite_analysis.py:42-49 | 大 exactly from 0.14, 中 exactly in [0.06, 0.14), 小 exactly in [0.01, 0.06), 極小 below 0.01 |
| EtaSquared.ClassifyMonotone | Analyze_elements_groups.py:139-147 | a larger η² is never put in a smaller tier |
| EtaSquared.ThreeGroupExample | composite_analysis.py:61-79 | groups [2,3,4], [0,1,−1], [−3,−2,−4] give η² = 54/60 = 0.9, a large effect |
| Grouping.ElementRows | composite_analysis.py:96 | one row per participant in table order, with the element's judgment and ΔSTAI-S = B − A |
| Grouping.DropSentinel | composite_analysis.py:115 | kept rows are exactly the non-sentinel rows of the table |
| Grouping.BuildGroups | composite_analysis.py:121-135 | at most three groups, each labelled and non-empty, holding exactly its label's ΔSTAI-S values, labels strictly in canonical order, and a group for a label exactly when some row carries it |
| Grouping.GroupsFromPresence | composite_analysis.py:122-125 | after visiting the first k labels, a label has a group exactly when it is among them and some row carries it |
| Grouping.GroupsFromOrdered | Analyze_elements_groups.py:60-64 | group labels rise strictly in canonical order |
| Grouping.ExcludedPlusAnalysed | composite_analysis.py:115-116 | rows excluded as データ不足 plus rows analysed equal all rows |
| Grouping.SentinelRowIgnored | Analyze_elements_groups.py:37 | inserting a データ不足 row anywhere leaves the groups unchanged |
| Grouping.GroupedRowsAreAnalysedRows | composite_analysis.py:121-125 | the group sizes add up to the number of analysed rows |
| Grouping.LabelCountsPartition | Analyze_elements_groups.py:57-64 | the counts of 有効, 不変 and 逆効果 add up to the rows left after the filter |
| Normality.AllNormal | composite_analysis.py:146-157 | a true verdict implies every group has at least three values |
| Normality.AllNormalIff | composite_analysis.py:146-157 | `all_normal` holds exactly when every group has n ≥ 3 and Shapiro p ≥ 0.05 |
| Normality.ScreenNormality | Analyze_elements_groups.py:71-83 | the flag-clearing loop ends with `all_normal` exactly when every group has n ≥ 3 and p ≥ 0.05 |
| Normality.RejectedGroupNotNormal | Analyze_elements_groups.py:76-78 | one group with p < 0.05 makes `all_normal` false |
| Normality.OnlyGroupPValuesMatter | Analyze_elements_groups.py:71-83 | two p-value sources that agree on the groups give the same verdict |
| TestSelection.CompositeChooseTest | composite_analysis.py:173-196 | parametric exactly when all normal; t-test or Mann-Whitney exactly for 2 groups; Mann-Whitney two-sided |
| TestSelection.AnalyzeChooseTest | Analyze_elements_groups.py:95-111 | parametric exactly when all normal; t-test or Mann-Whitney exactly for 2 groups, ANOVA or Kruskal-Wallis for 3 or more; Mann-Whitney with the default alternative |
| TestSelection.CompositeDf | composite_analysis.py:176-188 | the t-test reports t(N − 2), ANOVA reports F(k − 1, N − k), and the rank tests report no degrees of freedom |
| TestSelection.DfPartitionTotal | composite_analysis.py:176-177 | t(N − 2) and F(k − 1, N − k) are non-negative and add up with the between-group df to N − 1 |
| TestSelection.ScriptsAgree | Analyze_elements_groups.py:95-111 | for 2 or 3 groups both scripts run the same kind of test; the calls differ only where one spells out Mann-Whitney's two-sided alternative and the other leaves it to the default |
| TestSelection.PlotNameMatchesTest | Analyze_elements_groups.py:202-205 | the plot's test name is the test that was run |
| TestSelection.SmallGroupForcesRankTest | composite_analysis.py:155-157 | any group with n < 3 forces a rank test |
| TestSelection.TwoPairsGoToMannWhitney | Analyze_elements_groups.py:81-83 | two groups of two values each always go to Mann-Whitney U |
| CompositeAnalysis.Compare | composite_analysis.py:146-210 | screen, test, df, tier and η² for two or three groups: η² = SS_between / SS_total in [0, 1], t(N − 2), F(2, N − 3), and no df for a rank test |
| CompositeAnalysis.CompositeElement | composite_analysis.py:115-135 | excluded + analysed = all rows, excluded = number of データ不足 rows, the groups and their sizes, then the comparison |
| ElementGroups.AnalyzeElement | Analyze_elements_groups.py:37-157 | from the file's (judgment, Delta_STAI) rows: a result exactly when at least two groups survive; the Levene p-value of the groups exactly when every n ≥ 2; the test of Analyze's table, its p-value and tier; η² = SS_between / SS_total in [0, 1] with its tier; a summary row whose group count is the number of groups and whose names read back to the groups' labels; the plot name equals the test |
| ElementGroups.SplitJoin | Analyze_elements_groups.py:153 | the ", "-joined group names read back to the same labels |
| ElementGroups.JoinSplit | Analyze_elements_groups.py:153 | every cell the reader accepts is the join of the names it returns |
| ElementGroups.LeveneHasNoInfluence | Analyze_elements_groups.py:86-92 | changing the Levene p-value changes nothing in the result except the Levene field |
| ElementGroups.AgreesWithComposite | Analyze_elements_groups.py:95-137 | if the file's Delta_STAI is B − A and the default Mann-Whitney alternative is two-sided, then wherever both scripts compare they agree on the groups, `all_normal`, the kind of test, the p-value, its tier, η² and its tier |
| PairedAnalysis.Clean | stai_analysis.py:19 | a row is kept exactly when both scores are present |
| PairedAnalysis.CleanAppend | stai_analysis.py:19 | cleaning a table split in two gives the cleaned first part followed by the cleaned second part, so with Clean's one-row case the filter keeps order and multiplicity |
| PairedAnalysis.CleanSize | stai_analysis.py:19 | the cleaned table has one row per complete raw row |
| PairedAnalysis.PairedTestLabel | stai_analysis.py:42-47 | "Paired t-test" exactly when both Shapiro p-values are strictly above 0.05 |
| PairedAnalysis.PairedRuleStricter | stai_analysis.py:42 | p = 0.05 passes the group scripts' screen but not the paired rule, and the paired rule never accepts what the screen rejects |
| PairedAnalysis.MeanDiffIsMinusMeanDelta | stai_analysis.py:27 | mean(A − B) = −mean(ΔSTAI-S) |
| PairedAnalysis.CohensD | stai_analysis.py:69-70 | d is undefined exactly when all differences are equal; otherwise d·sd = mean(A − B), with the same sign |
| PairedAnalysis.CohensDOppositeToDelta | stai_analysis.py:69-70 | a defined d is positive exactly when mean ΔSTAI-S is negative, and negative exactly when it is positive |
| PairedAnalysis.PairedComparison | stai_analysis.py:35-93 | the label follows the strict rule, both tests are always run on the raw A and B scores, df = n − 1, both tiers are computed, and d is Cohen's d of the A − B differences |
| PairedAnalysis.LabelIsInformational | stai_analysis.py:50 | Shapiro p-values change only the printed label |
| PairedAnalysis.Encode | stai_analysis.py:102 | the code is missing exactly for データ不足, otherwise in {−1, 0, 1} |
| PairedAnalysis.EncodeRoundTrip | stai_analysis.py:102 | each code decodes to its label, and exactly −1, 0, 1 decode |
| PairedAnalysis.EncodeReversesRank | stai_analysis.py:102 | earlier labels in the canonical order get larger codes |
| PairedAnalysis.ValidPairs | stai_analysis.py:119 | every kept pair is some participant's code and ΔSTAI-S, and every participant not judged データ不足 has its pair kept |
| PairedAnalysis.ValidPairsAppend | stai_analysis.py:119 | the pairs of a table split in two are the pairs of the first part followed by those of the second |
| PairedAnalysis.ValidPairsCount | stai_analysis.py:119 | the valid pairs number all participants minus those judged データ不足 |
| PairedAnalysis.SpearmanFor | stai_analysis.py:121-138 | the correlation is computed exactly when more than two valid pairs remain, and then it is tiered |
| PairedAnalysis.SpearmanGuard | stai_analysis.py:121 | the correlation is computed exactly when more than two participants are not judged データ不足 |
| PairedAnalysis.Percentage | stai_analysis.py:153 | 0 for an empty table; otherwise r·total = count·100, within [0, 100] |
| PairedAnalysis.PercentagesTotal100 | stai_analysis.py:150-154 | the four categories' percentages add up to 100 for a non-empty table |

## Left out

- Library numerics are inputs, not models: Shapiro-Wilk, Levene, the t-tests, Mann-Whitney U, ANOVA, Kruskal-Wallis, Wilcoxon and Spearman. Each is a function parameter returning a p-value (and ρ for Spearman).
- Floating point is not modelled. Means, sums of squares and η² are exact reals.
- The standard deviation of the differences needs a square root. It is a parameter `sd` with sd ≥ 0 and sd² equal to the sample variance.
- Medians, minima, maxima and per-group SDs are only printed, so they are left out.
- I/O is left out: CSV reading, DataFrame plumbing, CSV writing of the summary table, and directory creation.
- All printing and f-string formatting is left out. That includes `format_p_latex`, whose rounding branch depends on binary-float `round`.
- Drawing the boxplots is left out: the figure, its colours, and the random horizontal jitter, which is nondeterministic. Only the plot's gate and the test name it prints are modelled.
- CompositeAnalysis.CompositeElement requires at least two groups. With fewer, the script's `p_value` is unbound, or left over from the previous element, and the model does not reproduce that.
- PairedAnalysis.PairedComparison requires at least three complete rows. Shapiro-Wilk raises an error below three values, and the script stops there.
- PairedAnalysis.CohensD returns None when the differences' SD is 0. The script's division there yields NaN or ±inf.
- Judgment values other than the four texts are assumed not to occur in the data file.
- CompositeAnalysis.CompositeElement and ElementGroups.AnalyzeElement assume every row has both scores and a ΔSTAI-S. `Participant` and `Row` hold plain reals. The group scripts do not filter missing scores: such a row joins its group with a NaN ΔSTAI-S. A NaN Shapiro p-value then marks the group non-normal in `composite_analysis.py` (`p >= 0.05` is false) but normal in `Analyze_elements_groups.py` (`p < 0.05` is false). Only `stai_analysis.py` filters these rows.
- ElementGroups.AgreesWithComposite assumes the file's `Delta_STAI` column is B − A for every row. The group-analysis script reads the column as given and never recomputes it.
