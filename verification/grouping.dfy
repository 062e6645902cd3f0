/**
  Building the comparison groups for one element column: rows judged
  `データ不足` are dropped, then one group of ΔSTAI-S values is formed per label
  in the fixed order 有効, 不変, 逆効果, and a label nobody received forms no group.
 */
module Grouping {
  import opened Judgments

  /** The two columns one element analysis reads: the judgment and ΔSTAI-S. */
  datatype Row = Row(judgment: Judgment, delta: real)

  /** One comparison group: its label and its ΔSTAI-S values in row order. */
  datatype Group = Group(judgment: Judgment, values: seq<real>)

  /** The rows an element analysis works on, one per participant, in table order. */
  function ElementRows(ps: seq<Participant>, e: Element): (rows: seq<Row>)
    ensures |rows| == |ps|
    ensures forall i :: 0 <= i < |ps| ==> rows[i].judgment == JudgmentOf(ps[i], e)
    ensures forall i :: 0 <= i < |ps| ==> rows[i].delta == ps[i].scoreB - ps[i].scoreA
  {
    seq(|ps|, i requires 0 <= i < |ps| => Row(JudgmentOf(ps[i], e), Delta(ps[i])))
  }

  /** Number of rows carrying judgment j. */
  function CountJudgment(rows: seq<Row>, j: Judgment): nat
  {
    if |rows| == 0 then 0
    else (if rows[0].judgment == j then 1 else 0) + CountJudgment(rows[1..], j)
  }

  /** The rows whose judgment is not the sentinel, in their original order. */
  function DropSentinel(rows: seq<Row>): (kept: seq<Row>)
    ensures |kept| <= |rows|
    ensures forall r :: r in kept ==> r in rows && IsLabel(r.judgment)
    ensures forall r :: r in rows && IsLabel(r.judgment) ==> r in kept
  {
    if |rows| == 0 then []
    else if IsLabel(rows[0].judgment) then [rows[0]] + DropSentinel(rows[1..])
    else DropSentinel(rows[1..])
  }

  /** ΔSTAI-S of the rows judged j, in row order. */
  function ValuesWith(rows: seq<Row>, j: Judgment): (vs: seq<real>)
    ensures |vs| == CountJudgment(rows, j)
  {
    if |rows| == 0 then []
    else (if rows[0].judgment == j then [rows[0].delta] else []) + ValuesWith(rows[1..], j)
  }

  /** The group for one label: one group if any row has it, none otherwise. */
  function GroupFor(rows: seq<Row>, lab: Judgment): seq<Group>
  {
    var vs := ValuesWith(rows, lab);
    if |vs| > 0 then [Group(lab, vs)] else []
  }

  /** Groups for the labels `ls`, taken in the order of `ls`. */
  function GroupsFrom(rows: seq<Row>, ls: seq<Judgment>): seq<Group>
  {
    if |ls| == 0 then [] else GroupsFrom(rows, ls[..|ls| - 1]) + GroupFor(rows, ls[|ls| - 1])
  }

  /** Each group is labelled, non-empty, holds exactly its label's values, and labels rise in canonical order. */
  ghost predicate WellFormed(rows: seq<Row>, gs: seq<Group>)
  {
    && (forall i :: 0 <= i < |gs| ==> IsLabel(gs[i].judgment))
    && (forall i :: 0 <= i < |gs| ==> gs[i].values == ValuesWith(rows, gs[i].judgment))
    && (forall i :: 0 <= i < |gs| ==> |gs[i].values| > 0)
    && (forall i, j :: 0 <= i < j < |gs| ==> Rank(gs[i].judgment) < Rank(gs[j].judgment))
  }

  /** Label j heads one of the groups. */
  ghost predicate HasGroup(gs: seq<Group>, j: Judgment)
  {
    exists i :: 0 <= i < |gs| && gs[i].judgment == j
  }

  /** Unfolding `GroupsFrom` on the first k canonical labels by one label. */
  lemma GroupsFromStep(rows: seq<Row>, k: nat)
    requires 0 < k <= |JudgmentLabels|
    ensures GroupsFrom(rows, JudgmentLabels[..k])
         == GroupsFrom(rows, JudgmentLabels[..k - 1]) + GroupFor(rows, JudgmentLabels[k - 1])
  {
    assert JudgmentLabels[..k][..k - 1] == JudgmentLabels[..k - 1];
  }

  /** Groups of the first k canonical labels use only those labels, at most one group each. */
  lemma {:induction false} GroupsFromLabels(rows: seq<Row>, k: nat)
    requires k <= |JudgmentLabels|
    ensures |GroupsFrom(rows, JudgmentLabels[..k])| <= k
    ensures forall i :: 0 <= i < |GroupsFrom(rows, JudgmentLabels[..k])| ==>
      IsLabel(GroupsFrom(rows, JudgmentLabels[..k])[i].judgment) &&
      Rank(GroupsFrom(rows, JudgmentLabels[..k])[i].judgment) < k
  {
    if k > 0 {
      GroupsFromStep(rows, k);
      GroupsFromLabels(rows, k - 1);
      assert Rank(JudgmentLabels[k - 1]) == k - 1;
    }
  }

  /** Each group holds exactly its label's values, and none is empty. */
  lemma {:induction false} GroupsFromValues(rows: seq<Row>, k: nat)
    requires k <= |JudgmentLabels|
    ensures forall i :: 0 <= i < |GroupsFrom(rows, JudgmentLabels[..k])| ==>
      var g := GroupsFrom(rows, JudgmentLabels[..k])[i];
      g.values == ValuesWith(rows, g.judgment) && |g.values| > 0
  {
    if k > 0 {
      GroupsFromStep(rows, k);
      GroupsFromValues(rows, k - 1);
    }
  }

  /** The groups' labels rise strictly in canonical order. */
  lemma {:induction false} GroupsFromOrdered(rows: seq<Row>, k: nat)
    requires k <= |JudgmentLabels|
    ensures forall i, j :: 0 <= i < j < |GroupsFrom(rows, JudgmentLabels[..k])| ==>
      var gs := GroupsFrom(rows, JudgmentLabels[..k]);
      IsLabel(gs[i].judgment) && IsLabel(gs[j].judgment) && Rank(gs[i].judgment) < Rank(gs[j].judgment)
  {
    if k > 0 {
      var prev := GroupsFrom(rows, JudgmentLabels[..k - 1]);
      var last := GroupFor(rows, JudgmentLabels[k - 1]);
      GroupsFromStep(rows, k);
      GroupsFromOrdered(rows, k - 1);
      GroupsFromLabels(rows, k - 1);
      assert Rank(JudgmentLabels[k - 1]) == k - 1;
      var gs := prev + last;
      forall i, j | 0 <= i < j < |gs|
        ensures IsLabel(gs[i].judgment) && IsLabel(gs[j].judgment) && Rank(gs[i].judgment) < Rank(gs[j].judgment)
      {
        assert gs[i] == prev[i];
        if j >= |prev| {
          assert gs[j].judgment == JudgmentLabels[k - 1];
        } else {
          assert gs[j] == prev[j];
        }
      }
    }
  }

  /** Groups of the first k canonical labels are well formed and use only those labels. */
  lemma GroupsFromShape(rows: seq<Row>, k: nat)
    requires k <= |JudgmentLabels|
    ensures WellFormed(rows, GroupsFrom(rows, JudgmentLabels[..k]))
    ensures |GroupsFrom(rows, JudgmentLabels[..k])| <= k
  {
    GroupsFromLabels(rows, k);
    GroupsFromValues(rows, k);
    GroupsFromOrdered(rows, k);
  }

  lemma HasGroupAppend(a: seq<Group>, b: seq<Group>, j: Judgment)
    ensures HasGroup(a + b, j) <==> HasGroup(a, j) || HasGroup(b, j)
  {
    if HasGroup(a + b, j) {
      var i :| 0 <= i < |a + b| && (a + b)[i].judgment == j;
      if i >= |a| {
        assert b[i - |a|].judgment == j;
      }
    }
    if HasGroup(a, j) {
      var i :| 0 <= i < |a| && a[i].judgment == j;
      assert (a + b)[i].judgment == j;
    }
    if HasGroup(b, j) {
      var i :| 0 <= i < |b| && b[i].judgment == j;
      assert (a + b)[|a| + i].judgment == j;
    }
  }

  /** A label's own group exists exactly when some row carries the label. */
  lemma HasGroupFor(rows: seq<Row>, lab: Judgment, j: Judgment)
    ensures HasGroup(GroupFor(rows, lab), j) <==> j == lab && CountJudgment(rows, lab) > 0
  {
    if j == lab && CountJudgment(rows, lab) > 0 {
      assert GroupFor(rows, lab)[0].judgment == j;
    }
  }

  /** Among the first k canonical labels, exactly those some row carries get a group. */
  lemma {:induction false} GroupsFromPresence(rows: seq<Row>, k: nat)
    requires k <= |JudgmentLabels|
    ensures forall j :: IsLabel(j) ==>
      (HasGroup(GroupsFrom(rows, JudgmentLabels[..k]), j) <==> Rank(j) < k && CountJudgment(rows, j) > 0)
  {
    if k > 0 {
      var prev := GroupsFrom(rows, JudgmentLabels[..k - 1]);
      var lab := JudgmentLabels[k - 1];
      GroupsFromStep(rows, k);
      GroupsFromPresence(rows, k - 1);
      assert Rank(lab) == k - 1;
      forall j | IsLabel(j)
        ensures HasGroup(prev + GroupFor(rows, lab), j) <==> Rank(j) < k && CountJudgment(rows, j) > 0
      {
        HasGroupAppend(prev, GroupFor(rows, lab), j);
        HasGroupFor(rows, lab, j);
        assert j == lab <==> Rank(j) == k - 1;
      }
    }
  }

  /**
    The groups one element analysis compares: the sentinel's rows are dropped,
    then the three labels are visited in canonical order and a lab no row
    carries forms no group.
   */
  function BuildGroups(rows: seq<Row>): (gs: seq<Group>)
    ensures |gs| <= |JudgmentLabels|
    ensures forall i :: 0 <= i < |gs| ==> IsLabel(gs[i].judgment)
    ensures forall i :: 0 <= i < |gs| ==> |gs[i].values| > 0
    ensures forall i :: 0 <= i < |gs| ==> gs[i].values == ValuesWith(rows, gs[i].judgment)
    ensures forall i, j :: 0 <= i < j < |gs| ==> Rank(gs[i].judgment) < Rank(gs[j].judgment)
    ensures forall j :: IsLabel(j) ==> (HasGroup(gs, j) <==> CountJudgment(rows, j) > 0)
  {
    var kept := DropSentinel(rows);
    GroupsFromShape(kept, |JudgmentLabels|);
    GroupsFromPresence(kept, |JudgmentLabels|);
    assert JudgmentLabels[..|JudgmentLabels|] == JudgmentLabels;
    SentinelFreeValues(rows);
    SentinelFreeCounts(rows);
    GroupsFrom(kept, JudgmentLabels)
  }

  /** Dropping the sentinel changes no lab's values. */
  lemma {:induction false} SentinelFreeValues(rows: seq<Row>)
    ensures forall j :: IsLabel(j) ==> ValuesWith(DropSentinel(rows), j) == ValuesWith(rows, j)
  {
    if |rows| > 0 {
      SentinelFreeValues(rows[1..]);
    }
  }

  lemma SentinelFreeCounts(rows: seq<Row>)
    ensures forall j :: IsLabel(j) ==> CountJudgment(DropSentinel(rows), j) == CountJudgment(rows, j)
  {
    SentinelFreeValues(rows);
  }

  /** Rows excluded as データ不足 plus rows analysed make up the whole table. */
  lemma {:induction false} ExcludedPlusAnalysed(rows: seq<Row>)
    ensures CountJudgment(rows, InsufficientData) + |DropSentinel(rows)| == |rows|
  {
    if |rows| > 0 {
      ExcludedPlusAnalysed(rows[1..]);
    }
  }

  lemma {:induction false} DropSentinelAppend(a: seq<Row>, b: seq<Row>)
    ensures DropSentinel(a + b) == DropSentinel(a) + DropSentinel(b)
  {
    if |a| == 0 {
      assert a + b == b;
    } else {
      assert (a + b)[1..] == a[1..] + b;
      DropSentinelAppend(a[1..], b);
    }
  }

  /** A row judged データ不足 never reaches a group, wherever it sits in the table. */
  lemma SentinelRowIgnored(a: seq<Row>, b: seq<Row>, x: real)
    ensures BuildGroups(a + [Row(InsufficientData, x)] + b) == BuildGroups(a + b)
  {
    var s := Row(InsufficientData, x);
    DropSentinelAppend(a + [s], b);
    DropSentinelAppend(a, [s]);
    DropSentinelAppend(a, b);
    assert DropSentinel([s]) == [];
    assert DropSentinel(a + [s] + b) == DropSentinel(a + b);
  }

  /** Σ of the group sizes. */
  function TotalSize(gs: seq<Group>): nat
  {
    if |gs| == 0 then 0 else |gs[0].values| + TotalSize(gs[1..])
  }

  lemma {:induction false} TotalSizeAppend(a: seq<Group>, b: seq<Group>)
    ensures TotalSize(a + b) == TotalSize(a) + TotalSize(b)
  {
    if |a| == 0 {
      assert a + b == b;
    } else {
      assert (a + b)[1..] == a[1..] + b;
      TotalSizeAppend(a[1..], b);
    }
  }

  /** Every non-sentinel row carries one of the three labels. */
  lemma {:induction false} LabelCountsPartition(rows: seq<Row>)
    ensures CountJudgment(rows, Effective) + CountJudgment(rows, Unchanged)
          + CountJudgment(rows, Adverse) == |DropSentinel(rows)|
  {
    if |rows| > 0 {
      LabelCountsPartition(rows[1..]);
    }
  }

  /** The canonical order unrolled: one possible group per label. */
  lemma GroupsFromAllLabels(rows: seq<Row>)
    ensures GroupsFrom(rows, JudgmentLabels)
         == GroupFor(rows, Effective) + GroupFor(rows, Unchanged) + GroupFor(rows, Adverse)
  {
    var ls := JudgmentLabels;
    assert ls[..2] == [Effective, Unchanged];
    assert ls[..2][..1] == [Effective];
    assert [Effective][..0] == [];
    assert GroupsFrom(rows, [Effective]) == GroupFor(rows, Effective);
    assert GroupsFrom(rows, ls[..2]) == GroupFor(rows, Effective) + GroupFor(rows, Unchanged);
  }

  /** A label's group holds exactly its rows. */
  lemma GroupForSize(rows: seq<Row>, j: Judgment)
    ensures TotalSize(GroupFor(rows, j)) == CountJudgment(rows, j)
  {
    if |ValuesWith(rows, j)| > 0 {
      assert GroupFor(rows, j)[1..] == [];
    }
  }

  /** Every analysed row lands in exactly one group: the group sizes add up to the analysed count. */
  lemma GroupedRowsAreAnalysedRows(rows: seq<Row>)
    ensures TotalSize(BuildGroups(rows)) == |DropSentinel(rows)|
  {
    var kept := DropSentinel(rows);
    var g0 := GroupFor(kept, Effective);
    var g1 := GroupFor(kept, Unchanged);
    var g2 := GroupFor(kept, Adverse);
    GroupsFromAllLabels(kept);
    TotalSizeAppend(g0, g1);
    TotalSizeAppend(g0 + g1, g2);
    GroupForSize(kept, Effective);
    GroupForSize(kept, Unchanged);
    GroupForSize(kept, Adverse);
    LabelCountsPartition(kept);
    SentinelFreeCounts(rows);
    LabelCountsPartition(rows);
  }

  /** The group labels, in the order the groups were built. */
  function Names(gs: seq<Group>): (ns: seq<Judgment>)
    ensures |ns| == |gs|
    ensures forall i :: 0 <= i < |gs| ==> ns[i] == gs[i].judgment
  {
    seq(|gs|, i requires 0 <= i < |gs| => gs[i].judgment)
  }

  /** The groups' values, in group order (what the scripts pass to the tests). */
  function Arrays(gs: seq<Group>): (vs: seq<seq<real>>)
    ensures |vs| == |gs|
    ensures forall i :: 0 <= i < |gs| ==> vs[i] == gs[i].values
  {
    seq(|gs|, i requires 0 <= i < |gs| => gs[i].values)
  }
}
