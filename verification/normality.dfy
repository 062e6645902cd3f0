/**
  The normality policy shared by the two group-comparison scripts: a group
  with fewer than three values is not screened and counts as non-normal;
  otherwise it is normal when its Shapiro-Wilk p-value is at least 0.05.
  The Shapiro-Wilk p-value itself is an input (`shapiro`), not modelled.
 */
module Normality {

  /** Smallest group the Shapiro-Wilk test is run on. */
  const MinShapiroSize: nat := 3

  /** Significance level of the normality screen. */
  const Alpha: real := 0.05

  /** One group's normality flag. */
  predicate NormalFlag(g: seq<real>, shapiro: seq<real> -> real)
  {
    |g| >= MinShapiroSize && shapiro(g) >= Alpha
  }

  /** Every group passes the screen (the scripts' `all_normal`). */
  function AllNormal(gs: seq<seq<real>>, shapiro: seq<real> -> real): (b: bool)
    ensures b ==> forall i :: 0 <= i < |gs| ==> |gs[i]| >= MinShapiroSize
  {
    if |gs| == 0 then true else NormalFlag(gs[0], shapiro) && AllNormal(gs[1..], shapiro)
  }

  /** `all_normal` is exactly the conjunction of the per-group flags. */
  lemma {:induction false} AllNormalIff(gs: seq<seq<real>>, shapiro: seq<real> -> real)
    ensures AllNormal(gs, shapiro) <==> forall i :: 0 <= i < |gs| ==> NormalFlag(gs[i], shapiro)
  {
    if |gs| > 0 {
      AllNormalIff(gs[1..], shapiro);
      assert forall i :: 1 <= i < |gs| ==> gs[1..][i - 1] == gs[i];
    }
  }

  /**
    The screening loop as the scripts write it: start from true, and clear
    the flag for a group too small to test or with p < 0.05.
   */
  method ScreenNormality(gs: seq<seq<real>>, shapiro: seq<real> -> real) returns (allNormal: bool)
    ensures allNormal <==> forall i :: 0 <= i < |gs| ==> |gs[i]| >= MinShapiroSize && shapiro(gs[i]) >= Alpha
    ensures allNormal == AllNormal(gs, shapiro)
  {
    allNormal := true;
    var i := 0;
    while i < |gs|
      invariant 0 <= i <= |gs|
      invariant allNormal <==> forall k :: 0 <= k < i ==> |gs[k]| >= MinShapiroSize && shapiro(gs[k]) >= Alpha
    {
      if |gs[i]| >= MinShapiroSize {
        var p := shapiro(gs[i]);
        if p < Alpha {
          allNormal := false;
        }
      } else {
        allNormal := false;
      }
      i := i + 1;
    }
    AllNormalIff(gs, shapiro);
  }

  /** A group with n < 3 forces `all_normal` to false, whatever the p-values. */
  lemma SmallGroupNotNormal(gs: seq<seq<real>>, shapiro: seq<real> -> real, i: nat)
    requires i < |gs| && |gs[i]| < MinShapiroSize
    ensures !AllNormal(gs, shapiro)
  {
  }

  /** A group with Shapiro-Wilk p < 0.05 forces `all_normal` to false. */
  lemma RejectedGroupNotNormal(gs: seq<seq<real>>, shapiro: seq<real> -> real, i: nat)
    requires i < |gs| && shapiro(gs[i]) < Alpha
    ensures !AllNormal(gs, shapiro)
  {
    AllNormalIff(gs, shapiro);
  }

  /** Nothing but the groups' own p-values matters: oracles that agree on the groups give the same flag. */
  lemma {:induction false} OnlyGroupPValuesMatter(gs: seq<seq<real>>, s1: seq<real> -> real, s2: seq<real> -> real)
    requires forall i :: 0 <= i < |gs| ==> s1(gs[i]) == s2(gs[i])
    ensures AllNormal(gs, s1) == AllNormal(gs, s2)
  {
    AllNormalIff(gs, s1);
    AllNormalIff(gs, s2);
  }
}
