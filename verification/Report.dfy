/** The total and band of the e-mailed report, computed in JavaScript from the engine's components. */
module Report {
  import opened Scoring

  /** `Math.round`: halves up, also below zero. */
  function RoundHalfUp(x: real): int {
    (x + 0.5).Floor
  }

  function ReportTotal(b: ScoreBreakdown): int {
    var rounded := RoundHalfUp(b.Sum());
    var capped := if rounded < 100 then rounded else 100;
    if capped > 0 then capped else 0
  }

  datatype ReportBand = NeedsWorkText | DevelopingText | StrongText | VeryStrongText

  function ScoreBand(total: int): ReportBand {
    if total < 50 then NeedsWorkText else if total < 70 then DevelopingText else if total < 85 then StrongText
    else VeryStrongText
  }

  function BandText(b: Band): ReportBand {
    match b
    case NeedsWork => NeedsWorkText
    case Developing => DevelopingText
    case Good => StrongText
    case VeryStrong => VeryStrongText
  }

  /**
    Rounding then clamping, halves up, gives the same total as clamping then rounding,
    halves away from zero, for every breakdown, in range or not.
  */
  lemma ReportAgreesWithEngine(b: ScoreBreakdown)
    ensures ReportTotal(b) == b.Total()
    ensures ScoreBand(ReportTotal(b)) == BandText(BandOf(b.Total()))
  {
    var x := b.Sum();
    if x < 0.0 {
      assert (x + 0.5).Floor <= 0;
    } else if x > 100.0 {
      assert (x + 0.5).Floor >= 100;
    }
  }
}
