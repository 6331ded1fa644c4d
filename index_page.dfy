/** The page that owns the one live job (src/pages/Index.tsx): the stage registry, the
    progress handler that sweeps it, overall progress and the remaining-time estimate,
    and the status transitions driven by upload, separation result and the reset buttons. */
module IndexPage {
  import opened Types
  import opened ApiService
  import opened AudioUtils

  /** The registry the page installs on mount: seven stages, in order, all pending at 0. */
  function Registry(): (r: seq<ProcessingStage>)
    ensures |r| == 7
    ensures forall i :: 0 <= i < |r| ==> r[i].progress == 0.0 && r[i].status == StageStatus.Pending
    ensures r[0].name == "Uploading" && r[1].name == "Analyzing" && r[2].name == "Separating vocals"
            && r[3].name == "Separating drums" && r[4].name == "Separating bass"
            && r[5].name == "Separating other instruments" && r[6].name == "Finalizing"
  {
    [ ProcessingStage("upload", "Uploading", 0.0, StageStatus.Pending),
      ProcessingStage("analyze", "Analyzing", 0.0, StageStatus.Pending),
      ProcessingStage("vocals", "Separating vocals", 0.0, StageStatus.Pending),
      ProcessingStage("drums", "Separating drums", 0.0, StageStatus.Pending),
      ProcessingStage("bass", "Separating bass", 0.0, StageStatus.Pending),
      ProcessingStage("other", "Separating other instruments", 0.0, StageStatus.Pending),
      ProcessingStage("finalize", "Finalizing", 0.0, StageStatus.Pending) ]
  }

  /** `s` holds the registry's stages, in the registry's order, whatever their progress and status. */
  ghost predicate SameRegistry(s: seq<ProcessingStage>)
  {
    |s| == |Registry()| &&
    forall i :: 0 <= i < |s| ==> s[i].id == Registry()[i].id && s[i].name == Registry()[i].name
  }

  ghost predicate AllPending(s: seq<ProcessingStage>)
  {
    forall i :: 0 <= i < |s| ==> s[i].progress == 0.0 && s[i].status == StageStatus.Pending
  }

  /** Stage names are unique, so a name picks out at most one stage. */
  lemma RegistryNamesDistinct()
    ensures forall i, j :: 0 <= i < j < |Registry()| ==> Registry()[i].name != Registry()[j].name
  {
    var r := Registry();
    forall i, j | 0 <= i < j < |r| ensures r[i].name != r[j].name {
      assert |r[i].name| != |r[j].name| || r[i].name[0] != r[j].name[0];
    }
  }

  /** `findIndex` by name: the first stage called `name`, if any. */
  function FindStage(s: seq<ProcessingStage>, name: string): (r: Option<nat>)
    ensures r.Some? ==> r.value < |s| && s[r.value].name == name
    ensures r.Some? ==> forall j :: 0 <= j < r.value ==> s[j].name != name
    ensures r.None? ==> forall j :: 0 <= j < |s| ==> s[j].name != name
  {
    if s == [] then None
    else if s[0].name == name then Some(0)
    else match FindStage(s[1..], name)
      case None => None
      case Some(k) => Some(k + 1)
  }

  /** The lookup depends on the names alone. */
  lemma {:induction false} FindStageByNames(s: seq<ProcessingStage>, t: seq<ProcessingStage>, name: string)
    requires |s| == |t| && forall i :: 0 <= i < |s| ==> s[i].name == t[i].name
    ensures FindStage(s, name) == FindStage(t, name)
  {
    if s != [] && s[0].name != name {
      FindStageByNames(s[1..], t[1..], name);
    }
  }

  /** Where a name sits in the registry; "Processing", which `separateStems` reports, names no stage. */
  lemma RegistryPositions()
    ensures FindStage(Registry(), "Uploading") == Some(0)
    ensures FindStage(Registry(), "Finalizing") == Some(6)
    ensures FindStage(Registry(), "Processing") == None
  {
    var r := Registry();
    RegistryNamesDistinct();
    assert r[6].name == "Finalizing";
    assert forall j :: 0 <= j < |r| ==> r[j].name != "Processing" by {
      forall j | 0 <= j < |r| ensures r[j].name != "Processing" {
        assert r[j].name[0] != 'P';
      }
    }
  }

  /** The for-loop's result: stages before `k` completed at 100, stage `k` processing at `p`,
      the rest as they were. */
  function Sweep(s: seq<ProcessingStage>, k: nat, p: real): (t: seq<ProcessingStage>)
    requires k < |s|
    ensures |t| == |s|
    ensures forall i :: 0 <= i < |s| ==> t[i].id == s[i].id && t[i].name == s[i].name
    ensures forall i :: 0 <= i < |s| ==> (t[i].status == StageStatus.Processing <==> i == k || (k < i && s[i].status == StageStatus.Processing))
  {
    seq(|s|, i requires 0 <= i < |s| =>
      if i < k then s[i].(progress := 100.0, status := StageStatus.Completed)
      else if i == k then s[i].(progress := p, status := StageStatus.Processing)
      else s[i])
  }

  /** Overall percentage for percent `p` of stage `k` out of `n` stages, in exact arithmetic. */
  function OverallProgress(k: nat, p: real, n: nat): (overall: real)
    requires k < n
    // the k stages before it count in full, and stage k by its percent
    ensures overall * n as real == 100.0 * k as real + p
  {
    ((k as real / n as real) * 100.0) + (p / n as real)
  }

  /** With the in-stage percent in [0, 100], stage `k` covers the k-th of `n` equal slices of [0, 100]. */
  lemma OverallProgressBounds(k: nat, p: real, n: nat)
    requires k < n && 0.0 <= p <= 100.0
    ensures 100.0 * k as real / n as real <= OverallProgress(k, p, n) <= 100.0 * (k + 1) as real / n as real
    ensures 0.0 <= OverallProgress(k, p, n) <= 100.0
  {
    var nr := n as real;
    assert OverallProgress(k, p, n) == (100.0 * k as real + p) / nr;
    assert 100.0 * k as real <= 100.0 * k as real + p <= 100.0 * (k + 1) as real;
    DivideMonotone(100.0 * k as real, 100.0 * k as real + p, nr);
    DivideMonotone(100.0 * k as real + p, 100.0 * (k + 1) as real, nr);
    DivideMonotone(100.0 * (k + 1) as real, 100.0 * nr, nr);
  }

  lemma DivideMonotone(a: real, b: real, d: real)
    requires a <= b && d > 0.0
    ensures a / d <= b / d
  {
  }

  /** Any event on a later stage, or a larger percent on the same stage, gives at least the
      overall progress of an earlier one. */
  lemma OverallProgressMonotone(k1: nat, p1: real, k2: nat, p2: real, n: nat)
    requires k1 < n && k2 < n
    requires 0.0 <= p1 <= 100.0 && 0.0 <= p2 <= 100.0
    requires k1 < k2 || (k1 == k2 && p1 <= p2)
    ensures OverallProgress(k1, p1, n) <= OverallProgress(k2, p2, n)
  {
    OverallProgressBounds(k1, p1, n);
    OverallProgressBounds(k2, p2, n);
    if k1 < k2 {
      DivideMonotone(100.0 * (k1 + 1) as real, 100.0 * k2 as real, n as real);
    } else {
      assert OverallProgress(k1, p1, n) == (100.0 * k1 as real + p1) / n as real;
      assert OverallProgress(k2, p2, n) == (100.0 * k2 as real + p2) / n as real;
      DivideMonotone(100.0 * k1 as real + p1, 100.0 * k2 as real + p2, n as real);
    }
  }

  /** Remaining seconds: twice the duration, scaled by the share of work still to do. */
  function RemainingTime(duration: real, overall: real): (remaining: real)
    ensures overall == 0.0 ==> remaining == 2.0 * duration
    ensures overall == 100.0 ==> remaining == 0.0
    ensures remaining == 2.0 * duration - duration * overall / 50.0
  {
    (duration * 2.0) * ((100.0 - overall) / 100.0)
  }

  lemma RemainingTimeBounds(duration: real, overall: real)
    requires duration > 0.0 && 0.0 <= overall <= 100.0
    ensures 0.0 <= RemainingTime(duration, overall) <= 2.0 * duration
  {
    var share := (100.0 - overall) / 100.0;
    assert 0.0 <= share <= 1.0;
    assert (duration * 2.0) * share <= (duration * 2.0) * 1.0;
  }

  /** The estimate a newly selected file starts with: twice its duration when that is known and non-zero. */
  function InitialEstimate(duration: Option<real>): (e: Option<real>)
    ensures e.Some? <==> duration.Some? && duration.value != 0.0
    ensures e.Some? ==> e.value == 2.0 * duration.value
  {
    if duration.Some? && duration.value != 0.0 then Some(duration.value * 2.0) else None
  }

  /** The part of the page state that progress events rewrite. */
  datatype PageView = PageView(progress: real, currentStage: string, estimate: Option<real>, stages: seq<ProcessingStage>)

  /** `handleProgressUpdate` on values.  `duration` is the duration of the file the handler's
      closure saw: the live page reads it from the render that created the handler. */
  function ProgressStep(v: PageView, e: ProgressEvent, duration: Option<real>): (w: PageView)
    ensures FindStage(v.stages, e.stage).None? ==> w == v
    ensures FindStage(v.stages, e.stage).Some? ==> w.currentStage == e.stage
    ensures |w.stages| == |v.stages|
    ensures forall i :: 0 <= i < |v.stages| ==> w.stages[i].id == v.stages[i].id && w.stages[i].name == v.stages[i].name
  {
    match FindStage(v.stages, e.stage)
    case None => v
    case Some(k) =>
      var overall := OverallProgress(k, e.percent, |v.stages|);
      PageView(
        overall,
        e.stage,
        if duration.Some? && duration.value != 0.0 then Some(RemainingTime(duration.value, overall)) else v.estimate,
        Sweep(v.stages, k, e.percent))
  }

  /** An event whose name matches no stage changes nothing at all. */
  lemma UnknownStageIgnored(v: PageView, e: ProgressEvent, duration: Option<real>)
    requires SameRegistry(v.stages) && FindStage(Registry(), e.stage).None?
    ensures ProgressStep(v, e, duration) == v
  {
    FindStageByNames(v.stages, Registry(), e.stage);
  }

  /** What an event matching stage `k` does. */
  lemma MatchedStageSwept(v: PageView, e: ProgressEvent, duration: Option<real>, k: nat)
    requires SameRegistry(v.stages) && FindStage(Registry(), e.stage) == Some(k)
    ensures var w := ProgressStep(v, e, duration);
            && SameRegistry(w.stages)
            && (forall i :: 0 <= i < k ==> w.stages[i].status == StageStatus.Completed && w.stages[i].progress == 100.0)
            && w.stages[k].status == StageStatus.Processing && w.stages[k].progress == e.percent
            && (forall i :: k < i < |w.stages| ==> w.stages[i] == v.stages[i])
            && w.progress == OverallProgress(k, e.percent, 7)
            && w.currentStage == e.stage
            && (duration.Some? && duration.value != 0.0 ==> w.estimate == Some(RemainingTime(duration.value, w.progress)))
            && (duration.None? || duration.value == 0.0 ==> w.estimate == v.estimate)
  {
    FindStageByNames(v.stages, Registry(), e.stage);
  }

  /** Progress handled event by event, earliest first. */
  function RunEvents(v: PageView, events: seq<ProgressEvent>, duration: Option<real>): (w: PageView)
    ensures |w.stages| == |v.stages|
    ensures forall i :: 0 <= i < |v.stages| ==> w.stages[i].id == v.stages[i].id && w.stages[i].name == v.stages[i].name
    decreases |events|
  {
    if events == [] then v
    else ProgressStep(RunEvents(v, events[..|events| - 1], duration), events[|events| - 1], duration)
  }

  lemma ProgressStepKeepsRegistry(v: PageView, e: ProgressEvent, duration: Option<real>)
    requires SameRegistry(v.stages)
    ensures SameRegistry(ProgressStep(v, e, duration).stages)
  {
  }

  lemma {:induction false} RunEventsKeepsRegistry(v: PageView, events: seq<ProgressEvent>, duration: Option<real>)
    requires SameRegistry(v.stages)
    ensures SameRegistry(RunEvents(v, events, duration).stages)
    decreases |events|
  {
    if events != [] {
      RunEventsKeepsRegistry(v, events[..|events| - 1], duration);
      ProgressStepKeepsRegistry(RunEvents(v, events[..|events| - 1], duration), events[|events| - 1], duration);
    }
  }

  /** The registry position an event names, if any. */
  function MatchIndex(e: ProgressEvent): Option<nat>
  {
    FindStage(Registry(), e.stage)
  }

  /** Matched events never go back to an earlier stage. */
  ghost predicate MatchesNonDecreasing(events: seq<ProgressEvent>)
  {
    forall i, j :: 0 <= i < j < |events| && MatchIndex(events[i]).Some? && MatchIndex(events[j]).Some? ==>
      MatchIndex(events[i]).value <= MatchIndex(events[j]).value
  }

  /** The stage the last matched event named. */
  function LastMatch(events: seq<ProgressEvent>): Option<nat>
  {
    if events == [] then None
    else if MatchIndex(events[|events| - 1]).Some? then MatchIndex(events[|events| - 1])
    else LastMatch(events[..|events| - 1])
  }

  lemma {:induction false} LastMatchIsAMatch(events: seq<ProgressEvent>)
    requires LastMatch(events).Some?
    ensures exists i :: 0 <= i < |events| && MatchIndex(events[i]) == LastMatch(events)
    decreases |events|
  {
    if MatchIndex(events[|events| - 1]).None? {
      var prefix := events[..|events| - 1];
      LastMatchIsAMatch(prefix);
      var i :| 0 <= i < |prefix| && MatchIndex(prefix[i]) == LastMatch(prefix);
      assert events[i] == prefix[i];
    }
  }

  /** Stage `k` is the one in progress: every earlier stage completed at 100, every later one pending. */
  ghost predicate SweptTo(s: seq<ProcessingStage>, k: nat)
  {
    && k < |s|
    && (forall i :: 0 <= i < k ==> s[i].status == StageStatus.Completed && s[i].progress == 100.0)
    && s[k].status == StageStatus.Processing
    && (forall i :: k < i < |s| ==> s[i].status == StageStatus.Pending)
  }

  lemma SweepFromPending(s: seq<ProcessingStage>, k: nat, p: real)
    requires AllPending(s) && k < |s|
    ensures SweptTo(Sweep(s, k, p), k)
  {
  }

  lemma SweepForward(s: seq<ProcessingStage>, k0: nat, k: nat, p: real)
    requires SweptTo(s, k0) && k0 <= k < |s|
    ensures SweptTo(Sweep(s, k, p), k)
  {
  }

  /** At most one stage is processing once the registry is swept to `k`: stage `k`. */
  lemma SweptToSingleProcessing(s: seq<ProcessingStage>, k: nat)
    requires SweptTo(s, k)
    ensures forall i :: 0 <= i < |s| && s[i].status == StageStatus.Processing ==> i == k
  {
  }

  lemma RunEventsSnoc(v: PageView, events: seq<ProgressEvent>, i: nat, duration: Option<real>)
    requires i < |events|
    ensures RunEvents(v, events[..i + 1], duration) == ProgressStep(RunEvents(v, events[..i], duration), events[i], duration)
  {
    assert events[..i + 1][..i] == events[..i];
  }

  /** The phase the registry is in along the events: still all pending, or swept to the last match. */
  ghost predicate SweptPhase(s: seq<ProcessingStage>, last: Option<nat>, start: seq<ProcessingStage>)
  {
    match last
    case None => s == start
    case Some(k) => SweptTo(s, k)
  }

  lemma {:induction false} SweepAlongEventsPhase(v: PageView, events: seq<ProgressEvent>, duration: Option<real>)
    requires SameRegistry(v.stages) && AllPending(v.stages)
    requires MatchesNonDecreasing(events)
    ensures SameRegistry(RunEvents(v, events, duration).stages)
    ensures SweptPhase(RunEvents(v, events, duration).stages, LastMatch(events), v.stages)
    decreases |events|
  {
    RunEventsKeepsRegistry(v, events, duration);
    if events != [] {
      var prefix := events[..|events| - 1];
      var e := events[|events| - 1];
      assert MatchesNonDecreasing(prefix) by {
        forall i, j | 0 <= i < j < |prefix| ensures prefix[i] == events[i] && prefix[j] == events[j] { }
      }
      SweepAlongEventsPhase(v, prefix, duration);
      var u := RunEvents(v, prefix, duration);
      if LastMatch(prefix).Some? && MatchIndex(e).Some? {
        LastMatchIsAMatch(prefix);
        var i :| 0 <= i < |prefix| && MatchIndex(prefix[i]) == LastMatch(prefix);
        assert events[i] == prefix[i];
      }
      PhaseStep(v, u, e, LastMatch(prefix), duration);
    }
  }

  /** One event keeps the phase invariant, given that it does not go back a stage. */
  lemma PhaseStep(v: PageView, u: PageView, e: ProgressEvent, last: Option<nat>, duration: Option<real>)
    requires SameRegistry(u.stages) && AllPending(v.stages)
    requires SweptPhase(u.stages, last, v.stages)
    requires last.Some? && MatchIndex(e).Some? ==> last.value <= MatchIndex(e).value
    ensures SweptPhase(ProgressStep(u, e, duration).stages, if MatchIndex(e).Some? then MatchIndex(e) else last, v.stages)
  {
    FindStageByNames(u.stages, Registry(), e.stage);
    if MatchIndex(e).Some? {
      var k := MatchIndex(e).value;
      if last.Some? {
        SweepForward(u.stages, last.value, k, e.percent);
      } else {
        SweepFromPending(u.stages, k, e.percent);
      }
    }
  }

  /** From a reset registry, matched events that never go back leave exactly one stage processing,
      the last one matched, with every stage before it completed at 100; with no match nothing moved. */
  lemma SweepAlongEvents(v: PageView, events: seq<ProgressEvent>, duration: Option<real>)
    requires SameRegistry(v.stages) && AllPending(v.stages)
    requires MatchesNonDecreasing(events)
    ensures var w := RunEvents(v, events, duration);
            && SameRegistry(w.stages)
            && (LastMatch(events).None? ==> w.stages == v.stages)
            && (LastMatch(events).Some? ==> SweptTo(w.stages, LastMatch(events).value))
            && (forall i :: 0 <= i < |w.stages| && w.stages[i].status == StageStatus.Processing ==> Some(i) == LastMatch(events))
  {
    SweepAlongEventsPhase(v, events, duration);
    var w := RunEvents(v, events, duration);
    if LastMatch(events).Some? {
      SweptToSingleProcessing(w.stages, LastMatch(events).value);
    }
  }

  /** Fed the whole trace of a successful separation, the registry ends with the six first
      stages completed at 100, "Finalizing" processing at 100, and overall progress exactly 100. */
  lemma SeparationTraceOutcome(v: PageView, duration: Option<real>)
    requires SameRegistry(v.stages)
    ensures var w := RunEvents(v, SeparationTrace(true), duration);
            && SameRegistry(w.stages)
            && (forall i :: 0 <= i < 6 ==> w.stages[i].status == StageStatus.Completed && w.stages[i].progress == 100.0)
            && w.stages[6].status == StageStatus.Processing && w.stages[6].progress == 100.0
            && w.progress == 100.0
            && w.currentStage == "Finalizing"
  {
    var trace := SeparationTrace(true);
    SeparationTraceShape(true);
    var prefix := trace[..|trace| - 1];
    var u := RunEvents(v, prefix, duration);
    RunEventsKeepsRegistry(v, prefix, duration);
    RegistryPositions();
    MatchedStageSwept(u, trace[13], duration, 6);
  }

  /** The page's job state.  `stages` and `stems` are replaced wholesale, as the page's `setStages` and
      `setStems` replace them. */
  class JobPage {
    var audioFile: Option<AudioFile>
    var status: JobStatus
    var progress: real
    var currentStage: string
    var estimatedTimeRemaining: Option<real>
    var stages: seq<ProcessingStage>
    var stems: seq<Stem>

    /** The registry keeps its stages and their order, and no handler ever reports `processing`. */
    ghost predicate Valid()
      reads this
    {
      SameRegistry(stages) && status != JobStatus.Processing
    }

    function View(): PageView
      reads this
    {
      PageView(progress, currentStage, estimatedTimeRemaining, stages)
    }

    /** The page after mounting: idle, with the registry installed. */
    constructor ()
      ensures Valid()
      ensures audioFile == None && status == Idle && progress == 0.0 && currentStage == ""
      ensures estimatedTimeRemaining == None && stages == Registry() && stems == []
    {
      audioFile := None;
      status := Idle;
      progress := 0.0;
      currentStage := "";
      estimatedTimeRemaining := None;
      stages := Registry();
      stems := [];
    }

    /** The synchronous start of `handleFileSelected`: the job restarts at "Uploading" with
        every stage pending at 0. */
    method SelectFile(file: AudioFile)
      requires Valid()
      modifies this
      ensures Valid()
      ensures audioFile == Some(file) && status == Uploading && progress == 0.0
      ensures currentStage == "Uploading" && stems == []
      ensures estimatedTimeRemaining == InitialEstimate(file.duration)
      ensures |stages| == |old(stages)|
      ensures forall i :: 0 <= i < |stages| ==>
                stages[i] == old(stages)[i].(progress := 0.0, status := StageStatus.Pending)
      ensures stages == Registry()
    {
      audioFile := Some(file);
      status := Uploading;
      progress := 0.0;
      currentStage := "Uploading";
      estimatedTimeRemaining := InitialEstimate(file.duration);
      stems := [];
      var previous := stages;
      stages := seq(|previous|, i requires 0 <= i < |previous| => previous[i].(progress := 0.0, status := StageStatus.Pending));
    }

    /** `handleProgressUpdate`.  An unknown stage name returns at once; otherwise the stage list
        is copied, the stages before the match completed one by one, the match set processing,
        and overall progress and (when the closure's file has a duration) the estimate recomputed. */
    method HandleProgressUpdate(stage: string, stageProgress: real, duration: Option<real>)
      requires Valid()
      modifies this
      ensures Valid()
      ensures View() == ProgressStep(old(View()), ProgressEvent(stage, stageProgress), duration)
      ensures audioFile == old(audioFile) && status == old(status) && stems == old(stems)
    {
      var found := FindStage(stages, stage);
      if found.None? {
        return;
      }
      var k := found.value;
      currentStage := stage;
      var newStages := stages;
      for i := 0 to k
        invariant |newStages| == |stages|
        invariant forall j :: 0 <= j < i ==> newStages[j] == stages[j].(progress := 100.0, status := StageStatus.Completed)
        invariant forall j :: i <= j < |stages| ==> newStages[j] == stages[j]
      {
        newStages := newStages[i := newStages[i].(progress := 100.0, status := StageStatus.Completed)];
      }
      newStages := newStages[k := newStages[k].(progress := stageProgress, status := StageStatus.Processing)];
      var overall := OverallProgress(k, stageProgress, |stages|);
      assert newStages == Sweep(stages, k, stageProgress);
      stages := newStages;
      progress := overall;
      if duration.Some? && duration.value != 0.0 {
        estimatedTimeRemaining := Some(RemainingTime(duration.value, overall));
      }
    }

    /** The separation resolved: its stems are shown and the job is completed; the stages stay as they were. */
    method SeparationSucceeded(separated: seq<Stem>)
      requires Valid()
      modifies this
      ensures Valid()
      ensures stems == separated && status == JobStatus.Completed
      ensures View() == old(View()) && audioFile == old(audioFile)
    {
      stems := separated;
      status := JobStatus.Completed;
    }

    /** The separation rejected: the job is in error and nothing else changes. */
    method SeparationFailed()
      requires Valid()
      modifies this
      ensures Valid()
      ensures status == Error
      ensures View() == old(View()) && audioFile == old(audioFile) && stems == old(stems)
    {
      status := Error;
    }

    /** `handleFileSelected` end to end, one step after another: start the job, deliver every
        event `separateStems` reports, then settle.  The progress handler sees the duration of
        the file that was selected when the handler was created, i.e. before this call. */
    method HandleFileSelected(file: AudioFile, reply: Reply<SeparationResponse>)
      requires Valid()
      modifies this
      ensures Valid()
      ensures audioFile == Some(file)
      ensures View() == RunEvents(PageView(0.0, "Uploading", InitialEstimate(file.duration), Registry()),
                                  SeparationTrace(reply.Ok?),
                                  if old(audioFile).Some? then old(audioFile).value.duration else None)
      ensures reply.Ok? ==> status == JobStatus.Completed && stems == MapStems(reply.body.stems, file.duration)
      ensures !reply.Ok? ==> status == Error && stems == []
    {
      var closureDuration := if audioFile.Some? then audioFile.value.duration else None;
      SelectFile(file);
      ghost var start := View();
      var events, result := SeparateStems(file, reply);
      var i := 0;
      while i < |events|
        invariant 0 <= i <= |events|
        invariant Valid()
        invariant View() == RunEvents(start, events[..i], closureDuration)
        invariant audioFile == Some(file) && status == Uploading && stems == []
      {
        RunEventsSnoc(start, events, i, closureDuration);
        HandleProgressUpdate(events[i].stage, events[i].percent, closureDuration);
        i := i + 1;
      }
      assert events[..i] == events;
      if result.Success? {
        SeparationSucceeded(result.value);
      } else {
        SeparationFailed();
      }
    }

    /** "Download All Stems": nothing when there are no stems, otherwise the staggered schedule. */
    method HandleDownloadAll() returns (schedule: seq<ScheduledDownload>)
      ensures stems == [] ==> schedule == []
      ensures |schedule| == |stems|
      ensures forall i :: 0 <= i < |stems| ==> schedule[i] == ScheduledDownload(i * 1000, stems[i].url)
    {
      if |stems| == 0 {
        return [];
      }
      schedule := DownloadAllStems(stems);
    }

    /** "Process another file": back to idle with no file, no progress and no stems. */
    method ProcessAnotherFile()
      requires Valid()
      modifies this
      ensures Valid()
      ensures audioFile == None && status == Idle && progress == 0.0 && stems == []
      ensures currentStage == old(currentStage) && estimatedTimeRemaining == old(estimatedTimeRemaining)
      ensures stages == old(stages)
    {
      audioFile := None;
      status := Idle;
      progress := 0.0;
      stems := [];
    }

    /** "Try Again": back to idle with no file and no progress; the stem list is left as it is. */
    method TryAgain()
      requires Valid()
      modifies this
      ensures Valid()
      ensures audioFile == None && status == Idle && progress == 0.0 && stems == old(stems)
      ensures currentStage == old(currentStage) && estimatedTimeRemaining == old(estimatedTimeRemaining)
      ensures stages == old(stages)
    {
      audioFile := None;
      status := Idle;
      progress := 0.0;
    }
  }
}
