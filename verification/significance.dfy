/**
  Significance tiering of a two-sided p-value, shared verbatim by all three
  analysis scripts: strict `<` at 0.001, 0.01 and 0.05.
 */
module Significance {

  /** The four tiers, printed as "***", "**", "*" and "n.s.". */
  datatype Tier = P001 | P01 | P05 | NotSignificant

  /** The thresholds, most stringent first. */
  const Thresholds: seq<real> := [0.001, 0.01, 0.05]

  /** Number of stars a tier is printed with. */
  function Stars(t: Tier): nat
  {
    match t
    case P001 => 3
    case P01 => 2
    case P05 => 1
    case NotSignificant => 0
  }

  /** The mark printed after a p-value. */
  function Mark(t: Tier): string
  {
    match t
    case P001 => "***"
    case P01 => "**"
    case P05 => "*"
    case NotSignificant => "n.s."
  }

  /** Reference definition: how many thresholds lie strictly above `p`. */
  function CountAbove(p: real, ths: seq<real>): nat
  {
    if |ths| == 0 then 0 else (if p < ths[0] then 1 else 0) + CountAbove(p, ths[1..])
  }

  /** The tier of a p-value; each boundary belongs to the weaker tier. */
  function TierOf(p: real): (t: Tier)
    ensures t == P001 <==> p < 0.001
    ensures t == P01 <==> 0.001 <= p < 0.01
    ensures t == P05 <==> 0.01 <= p < 0.05
    ensures t == NotSignificant <==> 0.05 <= p
  {
    if p < 0.001 then P001
    else if p < 0.01 then P01
    else if p < 0.05 then P05
    else NotSignificant
  }

  /** The stars printed are the number of thresholds the p-value falls strictly below. */
  lemma {:induction false} StarsCountThresholds(p: real)
    ensures Stars(TierOf(p)) == CountAbove(p, Thresholds)
  {
    var rest2: seq<real> := [0.05];
    var rest1: seq<real> := [0.01, 0.05];
    assert CountAbove(p, rest2) == (if p < 0.05 then 1 else 0) by {
      assert rest2[1..] == [];
    }
    assert CountAbove(p, rest1) == (if p < 0.01 then 1 else 0) + CountAbove(p, rest2) by {
      assert rest1[1..] == rest2;
    }
    assert Thresholds[1..] == rest1;
  }

  /** A smaller p-value is never placed in a less significant tier. */
  lemma TierMonotone(p: real, q: real)
    requires p <= q
    ensures Stars(TierOf(p)) >= Stars(TierOf(q))
  {
  }

  /** The boundaries: 0.05 exactly is not significant, anything just under it is. */
  lemma TierBoundaries()
    ensures TierOf(0.05) == NotSignificant
    ensures TierOf(0.0499999) == P05
    ensures TierOf(0.01) == P05
    ensures TierOf(0.001) == P01
  {
  }
}
