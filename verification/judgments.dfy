/**
  The study's data vocabulary: the four judgments a rater can give for one
  "element" of a participant's coping, the three element columns, and one
  participant's row (two STAI-S scores plus one judgment per element).
 */
module Judgments {

  /** The values an element column can hold; `InsufficientData` is the sentinel. */
  datatype Judgment = Effective | Unchanged | Adverse | InsufficientData

  /** The three element columns of the data table. */
  datatype Element = Obligation | Burden | Rejection

  /** One participant: condition-A and condition-B scores and the three judgments. */
  datatype Participant = Participant(
    scoreA: real,
    scoreB: real,
    obligation: Judgment,
    burden: Judgment,
    rejection: Judgment)

  /** The canonical group order used by every analysis. */
  const JudgmentLabels: seq<Judgment> := [Effective, Unchanged, Adverse]

  /** The sentinel's text in the data file. */
  const SentinelText: string := "データ不足"

  /** True for the three judgments that form groups. */
  predicate IsLabel(j: Judgment)
  {
    j != InsufficientData
  }

  /** Position of a label in the canonical order. */
  function Rank(j: Judgment): (r: nat)
    requires IsLabel(j)
    ensures r < |JudgmentLabels| && JudgmentLabels[r] == j
  {
    match j
    case Effective => 0
    case Unchanged => 1
    case Adverse => 2
  }

  /** The text each judgment has in the data file. */
  function Text(j: Judgment): string
  {
    match j
    case Effective => "有効"
    case Unchanged => "不変"
    case Adverse => "逆効果"
    case InsufficientData => SentinelText
  }

  /** The judgment a participant received for one element. */
  function JudgmentOf(p: Participant, e: Element): Judgment
  {
    match e
    case Obligation => p.obligation
    case Burden => p.burden
    case Rejection => p.rejection
  }

  /** ΔSTAI-S = B-condition score − A-condition score. */
  function Delta(p: Participant): real
  {
    p.scoreB - p.scoreA
  }
}
