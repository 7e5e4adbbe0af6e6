/** The security dashboard (`security-dashboard.js`): the risk counters it
    shows, the overall security status derived from them, and the maximum
    of the graph's interval input. What the page shows is returned as a
    value; localisation is reduced to the key the label is looked up by
    and the text shown when the lookup fails. */
module Dashboard {

  /** The stored risk counters: the latest scan's count of each risk
      level, the number of recorded scans, and the level colours. */
  datatype RiskCounters = RiskCounters(
    lastHighRisk: int,
    lastMediumRisk: int,
    lastLowRisk: int,
    lastInfoRisk: int,
    lastNoRisk: int,
    count: int,
    highRiskColor: string,
    mediumRiskColor: string,
    lowRiskColor: string,
    infoColor: string,
    noRiskColor: string)

  datatype Status = Critical | MediumConcern | LowConcern | Informative | Acceptable

  /** How serious a status is, from 0 (acceptable) to 4 (critical). */
  function Seriousness(s: Status): nat {
    match s
    case Critical => 4
    case MediumConcern => 3
    case LowConcern => 2
    case Informative => 1
    case Acceptable => 0
  }

  /** The localisation key the status label is looked up by. */
  function LocalizationKey(s: Status): string {
    match s
    case Critical => "Dashboard.Critical"
    case MediumConcern => "Dashboard.MediumConcern"
    case LowConcern => "Dashboard.LowConcern"
    case Informative => "Dashboard.InfoConcern"
    case Acceptable => "Dashboard.NoConcern"
  }

  /** The label shown when the lookup fails. */
  function FallbackText(s: Status): string {
    match s
    case Critical => "Critical"
    case MediumConcern => "Medium concern"
    case LowConcern => "Low concern"
    case Informative => "Informative"
    case Acceptable => "Acceptable"
  }

  /** What the dashboard shows: the five counters (high, medium, low,
      info, none) and the status with its colours. */
  datatype View = View(
    counters: seq<int>,
    status: Status,
    backgroundColor: string,
    textColor: string)

  const White: string := "rgb(255, 255, 255)"
  const Black: string := "rgb(0, 0, 0)"

  /** The status rule: the first level, from high to info, with more than
      one finding decides; with none, the status is acceptable. */
  function StatusOf(rc: RiskCounters): (s: Status)
    ensures s == Critical <==> rc.lastHighRisk > 1
    ensures s == MediumConcern <==> rc.lastHighRisk <= 1 && rc.lastMediumRisk > 1
    ensures s == LowConcern <==> rc.lastHighRisk <= 1 && rc.lastMediumRisk <= 1 && rc.lastLowRisk > 1
    ensures s == Informative <==>
      rc.lastHighRisk <= 1 && rc.lastMediumRisk <= 1 && rc.lastLowRisk <= 1 && rc.lastInfoRisk > 1
    ensures s == Acceptable <==>
      rc.lastHighRisk <= 1 && rc.lastMediumRisk <= 1 && rc.lastLowRisk <= 1 && rc.lastInfoRisk <= 1
  {
    if rc.lastHighRisk > 1 then Critical
    else if rc.lastMediumRisk > 1 then MediumConcern
    else if rc.lastLowRisk > 1 then LowConcern
    else if rc.lastInfoRisk > 1 then Informative
    else Acceptable
  }

  /** `adjustWithRiskCounters`: the counters as stored, and the status in
      the colour of its level; white text on the two serious statuses,
      black text otherwise. */
  function AdjustWithRiskCounters(rc: RiskCounters): (v: View)
    ensures v.counters == [rc.lastHighRisk, rc.lastMediumRisk, rc.lastLowRisk, rc.lastInfoRisk, rc.lastNoRisk]
    ensures v.status == StatusOf(rc)
    ensures v.textColor == (if Seriousness(v.status) >= 3 then White else Black)
    ensures v.backgroundColor == match v.status
      case Critical => rc.highRiskColor
      case MediumConcern => rc.mediumRiskColor
      case LowConcern => rc.lowRiskColor
      case Informative => rc.infoColor
      case Acceptable => rc.noRiskColor
  {
    var counters := [rc.lastHighRisk, rc.lastMediumRisk, rc.lastLowRisk, rc.lastInfoRisk, rc.lastNoRisk];
    if rc.lastHighRisk > 1 then View(counters, Critical, rc.highRiskColor, White)
    else if rc.lastMediumRisk > 1 then View(counters, MediumConcern, rc.mediumRiskColor, White)
    else if rc.lastLowRisk > 1 then View(counters, LowConcern, rc.lowRiskColor, Black)
    else if rc.lastInfoRisk > 1 then View(counters, Informative, rc.infoColor, Black)
    else View(counters, Acceptable, rc.noRiskColor, Black)
  }

  /** More findings of any level never make the status less serious. */
  lemma StatusMonotone(rc: RiskCounters, more: RiskCounters)
    requires rc.lastHighRisk <= more.lastHighRisk && rc.lastMediumRisk <= more.lastMediumRisk
    requires rc.lastLowRisk <= more.lastLowRisk && rc.lastInfoRisk <= more.lastInfoRisk
    ensures Seriousness(StatusOf(rc)) <= Seriousness(StatusOf(more))
  {
  }

  /** The thresholds are strict: one finding of each level leaves the
      status acceptable. */
  lemma SingleFindingsAcceptable(rc: RiskCounters)
    requires rc.lastHighRisk == 1 && rc.lastMediumRisk == 1 && rc.lastLowRisk == 1 && rc.lastInfoRisk == 1
    ensures StatusOf(rc) == Acceptable
  {
  }

  /** The status depends on the four risk counters only. */
  lemma StatusIgnoresRest(rc: RiskCounters, other: RiskCounters)
    requires rc.lastHighRisk == other.lastHighRisk && rc.lastMediumRisk == other.lastMediumRisk
    requires rc.lastLowRisk == other.lastLowRisk && rc.lastInfoRisk == other.lastInfoRisk
    ensures StatusOf(rc) == StatusOf(other)
  {
  }

  /** Clearing the high, then the medium, then the low count, as the
      page's test does, walks the background through the level colours. */
  lemma StatusColoursWalk(rc: RiskCounters)
    requires rc.lastHighRisk == 10 && rc.lastMediumRisk == 10 && rc.lastLowRisk == 10 && rc.lastInfoRisk == 10
    ensures AdjustWithRiskCounters(rc).backgroundColor == rc.highRiskColor
    ensures AdjustWithRiskCounters(rc.(lastHighRisk := 0)).backgroundColor == rc.mediumRiskColor
    ensures AdjustWithRiskCounters(rc.(lastHighRisk := 0, lastMediumRisk := 0)).backgroundColor == rc.lowRiskColor
    ensures AdjustWithRiskCounters(rc.(lastHighRisk := 0, lastMediumRisk := 0, lastLowRisk := 0)).backgroundColor
         == rc.infoColor
  {
  }

  /** `setMaxInterval`: the graph can show at most as many scans as are
      recorded. */
  function SetMaxInterval(rc: RiskCounters): (max: int)
    ensures max == rc.count
  {
    rc.count
  }
}
