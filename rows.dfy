/** The rows of the printed report: an indented label and the integer data
    behind the two percentages and the duration column. */
module Rows {

  type Positive = n: nat | n > 0 witness 1

  /** A percentage as the ratio part/whole (times 100), or the 100% shown when
      there is no denominator. A ratio never has a zero denominator. */
  datatype Percent = Hundred | Ratio(part: nat, whole: Positive)

  /** What the metrics column of one row is computed from. */
  datatype Info = Info(percent: Percent, rootPercent: Percent, duration: nat)

  /** One report row: its nesting level, its label (indentation plus block name)
      and its metrics. */
  datatype Row = Row(level: nat, name: string, info: Info)

  /** The share of `whole` taken by `part`; a zero `whole` shows 100%. */
  function Percentage(part: nat, whole: nat): (p: Percent)
    ensures p == Hundred <==> whole == 0
    ensures p.Ratio? ==> p.part == part && p.whole == whole
  {
    if whole == 0 then Hundred else Ratio(part, whole)
  }

  /** The percentage is at most 100%. */
  predicate AtMostHundred(p: Percent)
  {
    p.Hundred? || p.part <= p.whole
  }

  /** `n` tab characters. */
  function Tabs(n: nat): (t: string)
    ensures |t| == n && forall j :: 0 <= j < n ==> t[j] == '\t'
  {
    if n == 0 then [] else Tabs(n - 1) + ['\t']
  }

  /** The label of a row: `level` tabs, then the name; one character per level
      longer than the name. */
  function Indent(level: nat, name: string): (s: string)
    ensures |s| == level + |name|
  {
    Tabs(level) + name
  }

  /** The label of a row: exactly `level` tabs, then the name unchanged. */
  lemma IndentShape(level: nat, name: string)
    ensures forall j :: 0 <= j < level ==> Indent(level, name)[j] == '\t'
    ensures Indent(level, name)[level..] == name
  {
  }

  /** A share exceeds 100% exactly when its part is larger than a nonzero whole;
      the 100% shown for a zero whole is never exceeded. */
  lemma PercentageBounded(part: nat, whole: nat)
    ensures AtMostHundred(Percentage(part, whole)) <==> whole == 0 || part <= whole
  {
  }
}
