/** The display rules of the progress panel (src/components/ProcessingStatus.tsx). */
module ProcessingStatusView {
  import opened Types
  import opened Text

  /** JavaScript's `Math.ceil`. */
  function Ceil(x: real): (c: int)
    ensures (c - 1) as real < x <= c as real
  {
    -((-x).Floor)
  }

  /** JavaScript's `Math.round`: halves go up. */
  function Round(x: real): (r: int)
    ensures r as real - 0.5 <= x < r as real + 0.5
  {
    (x + 0.5).Floor
  }

  /** What the remaining-time line says, before it is spelled out. */
  datatype EstimateLabel = Calculating | SecondsRemaining(count: int) | MinutesRemaining(count: int)

  /** `formatEstimatedTime` without the wording: no estimate or a zero one is still being
      calculated; under a minute it counts whole seconds rounded up, otherwise whole minutes
      rounded up. */
  function EstimateLabelOf(seconds: Option<real>): (l: EstimateLabel)
    ensures l.Calculating? <==> seconds.None? || seconds.value == 0.0
    ensures l.SecondsRemaining? <==> seconds.Some? && seconds.value != 0.0 && seconds.value < 60.0
    ensures l.SecondsRemaining? ==> (l.count - 1) as real < seconds.value <= l.count as real
    ensures l.SecondsRemaining? && seconds.value > 0.0 ==> 1 <= l.count <= 60
    ensures l.MinutesRemaining? ==> seconds.value >= 60.0 && 1 <= l.count
    ensures l.MinutesRemaining? ==> (l.count - 1) as real < seconds.value / 60.0 <= l.count as real
  {
    if seconds.None? || seconds.value == 0.0 then Calculating
    else if seconds.value < 60.0 then SecondsRemaining(Ceil(seconds.value))
    else MinutesRemaining(Ceil(seconds.value / 60.0))
  }

  function LabelText(l: EstimateLabel): string
  {
    match l
    case Calculating => "Calculating..."
    case SecondsRemaining(n) => IntToString(n) + " seconds remaining"
    case MinutesRemaining(n) => IntToString(n) + " minutes remaining"
  }

  /** `formatEstimatedTime`. */
  function FormatEstimatedTime(seconds: Option<real>): (text: string)
    ensures seconds.None? || seconds.value == 0.0 ==> text == "Calculating..."
  {
    LabelText(EstimateLabelOf(seconds))
  }

  /** The estimate line appears exactly when there is an estimate, and then says `FormatEstimatedTime`. */
  function EstimateLine(estimate: Option<real>): (line: Option<string>)
    ensures line.Some? <==> estimate.Some?
    ensures line.Some? ==> line.value == FormatEstimatedTime(estimate)
  {
    if estimate.Some? then Some(FormatEstimatedTime(estimate)) else None
  }

  /** The percentage shown beside a stage: only a processing stage shows one, rounded. */
  function StagePercent(stage: ProcessingStage): (shown: Option<int>)
    ensures shown.Some? <==> stage.status == StageStatus.Processing
    ensures shown.Some? ==> shown.value as real - 0.5 <= stage.progress < shown.value as real + 0.5
  {
    if stage.status == StageStatus.Processing then Some(Round(stage.progress)) else None
  }

  datatype Icon = Spinner | CheckCircle | XCircle

  /** `getStatusIcon`: a pending stage has no icon; the other three statuses each have their own. */
  function StatusIcon(status: StageStatus): (icon: Option<Icon>)
    ensures icon.None? <==> status == StageStatus.Pending
  {
    match status
    case Pending => None
    case Processing => Some(Spinner)
    case Completed => Some(CheckCircle)
    case Failed => Some(XCircle)
  }

  /** No two statuses share an icon. */
  lemma StatusIconInjective(a: StageStatus, b: StageStatus)
    requires StatusIcon(a) == StatusIcon(b) && StatusIcon(a).Some?
    ensures a == b
  {
  }
}
