/** The completion-time estimate of one job (JobPhases). The constructor walks
    the job's minor-status checkpoints, measuring each finished phase, then
    lets the phase in progress count at least its median and every later phase
    count its median. Walk and Forecast are the specification of the two
    switches; the lemmas give the estimate in closed form. */
module PhaseEstimator {
  import opened Gasw

  /** A command's current median duration of each phase. */
  datatype Medians = Medians(setup: int, input: int, execution: int, output: int)
  {
    function Sum(): int { setup + input + execution + output }

    predicate NonNegative() { setup >= 0 && input >= 0 && execution >= 0 && output >= 0 }
  }

  /** The fields a JobPhases object updates while it is being built. */
  datatype Fields = Fields(
    startTime: int,
    setupTime: int,
    inputTime: int,
    executionTime: int,
    uploadTime: int,
    estimation: int,
    lastStatus: Option<Phase>)

  const Initial := Fields(0, 0, 0, 0, 0, 0, None)

  function Max(a: int, b: int): int
  {
    if a >= b then a else b
  }

  /** One iteration of the first switch over a checkpoint. */
  function Record(f: Fields, c: Checkpoint): Fields
  {
    match c.status
    case Other(_) => f
    case Known(Started) =>
      f.(startTime := c.date, lastStatus := Some(Started))
    case Known(Inputs) =>
      var setup := c.date - f.startTime;
      f.(setupTime := setup, lastStatus := Some(Inputs), estimation := f.estimation + setup)
    case Known(Application) =>
      var input := c.date - f.setupTime - f.startTime;
      f.(inputTime := input, lastStatus := Some(Application), estimation := f.estimation + input)
    case Known(Outputs) =>
      var execution := c.date - f.inputTime - f.setupTime - f.startTime;
      f.(executionTime := execution, lastStatus := Some(Outputs), estimation := f.estimation + execution)
    case Known(Finished) =>
      var upload := c.date - f.executionTime - f.inputTime - f.setupTime - f.startTime;
      f.(uploadTime := upload, lastStatus := Some(Finished), estimation := f.estimation + upload)
  }

  /** The fields after the first switch has seen every checkpoint, in order. */
  function Walk(cps: seq<Checkpoint>): Fields
  {
    if cps == [] then Initial
    else Record(Walk(cps[..|cps| - 1]), cps[|cps| - 1])
  }

  /** The second switch, at wall-clock time `now`. With no phase reached the
      estimate is the sum of the medians; with Finished reached it is left alone. */
  function Forecast(f: Fields, m: Medians, now: int): Fields
  {
    match f.lastStatus
    case None =>
      f.(estimation := m.Sum())
    case Some(Started) =>
      var setup := now - f.startTime;
      f.(setupTime := setup, estimation := Max(setup, m.setup) + m.input + m.execution + m.output)
    case Some(Inputs) =>
      var input := now - f.setupTime - f.startTime;
      f.(inputTime := input, estimation := f.estimation + Max(input, m.input) + m.execution + m.output)
    case Some(Application) =>
      var execution := now - f.startTime - f.setupTime - f.inputTime;
      f.(executionTime := execution, estimation := f.estimation + Max(execution, m.execution) + m.output)
    case Some(Outputs) =>
      var upload := now - f.startTime - f.setupTime - f.inputTime - f.executionTime;
      f.(uploadTime := upload, estimation := f.estimation + Max(upload, m.output))
    case Some(Finished) =>
      f
  }

  function Estimate(cps: seq<Checkpoint>, m: Medians, now: int): int
  {
    Forecast(Walk(cps), m, now).estimation
  }

  function LastReached(cps: seq<Checkpoint>): Option<Phase>
  {
    Walk(cps).lastStatus
  }

  /** getLastStatusCode's value for a last status: -1 when none was reached. */
  function StatusCode(s: Option<Phase>): int
  {
    match s
    case None => -1
    case Some(p) => Ordinal(p)
  }

  class JobPhases {
    const job: Job
    var startTime: int
    var setupTime: int
    var inputTime: int
    var executionTime: int
    var uploadTime: int
    var estimation: int
    var lastStatus: Option<Phase>

    function Current(): Fields
      reads this
    {
      Fields(startTime, setupTime, inputTime, executionTime, uploadTime, estimation, lastStatus)
    }

    /** Builds the estimate from the job's checkpoints, as returned by
        getExecutionMinorStatus, at wall-clock time `currentTime`. */
    constructor (job: Job, checkpoints: seq<Checkpoint>,
                 setupMedian: int, inputMedian: int, executionMedian: int, outputMedian: int,
                 currentTime: int)
      ensures this.job == job
      ensures Current() == Forecast(Walk(checkpoints),
                                    Medians(setupMedian, inputMedian, executionMedian, outputMedian),
                                    currentTime)
      ensures estimation == Estimate(checkpoints,
                                     Medians(setupMedian, inputMedian, executionMedian, outputMedian),
                                     currentTime)
      ensures lastStatus == LastReached(checkpoints)
    {
      this.job := job;
      startTime, setupTime, inputTime, executionTime, uploadTime := 0, 0, 0, 0, 0;
      estimation := 0;
      lastStatus := None;
      new;
      for i := 0 to |checkpoints|
        invariant Current() == Walk(checkpoints[..i])
      {
        assert checkpoints[..i + 1][..i] == checkpoints[..i];
        var status := checkpoints[i];
        match status.status {
          case Known(Started) =>
            startTime := status.date;
            lastStatus := Some(Started);
          case Known(Inputs) =>
            setupTime := status.date - startTime;
            lastStatus := Some(Inputs);
            estimation := estimation + setupTime;
          case Known(Application) =>
            inputTime := status.date - setupTime - startTime;
            lastStatus := Some(Application);
            estimation := estimation + inputTime;
          case Known(Outputs) =>
            executionTime := status.date - inputTime - setupTime - startTime;
            lastStatus := Some(Outputs);
            estimation := estimation + executionTime;
          case Known(Finished) =>
            uploadTime := status.date - executionTime - inputTime - setupTime - startTime;
            lastStatus := Some(Finished);
            estimation := estimation + uploadTime;
          case Other(_) =>
        }
      }
      assert checkpoints[..|checkpoints|] == checkpoints;
      match lastStatus {
        case None =>
          estimation := setupMedian + inputMedian + executionMedian + outputMedian;
        case Some(Started) =>
          setupTime := currentTime - startTime;
          estimation := Max(setupTime, setupMedian) + inputMedian + executionMedian + outputMedian;
        case Some(Inputs) =>
          inputTime := currentTime - setupTime - startTime;
          estimation := estimation + Max(inputTime, inputMedian) + executionMedian + outputMedian;
        case Some(Application) =>
          executionTime := currentTime - startTime - setupTime - inputTime;
          estimation := estimation + Max(executionTime, executionMedian) + outputMedian;
        case Some(Outputs) =>
          uploadTime := currentTime - startTime - setupTime - inputTime - executionTime;
          estimation := estimation + Max(uploadTime, outputMedian);
        case Some(Finished) =>
      }
    }

    function GetEstimation(): int
      reads this
    {
      estimation
    }

    /** -1 when no phase was reached, otherwise the reached phase's code. */
    function GetLastStatusCode(): (code: int)
      reads this
      ensures code < 0 <==> lastStatus == None
      ensures forall p :: lastStatus == Some(p) ==> code == Ordinal(p)
    {
      StatusCode(lastStatus)
    }
  }

  /** Status codes compare like the phases they stand for, and "none reached" is below all. */
  lemma StatusCodeFollowsPhaseOrder(a: Option<Phase>, b: Option<Phase>)
    ensures StatusCode(a) < StatusCode(b) <==>
            (a == None && b != None) || (a != None && b != None && Ordinal(a.value) < Ordinal(b.value))
  {
  }

  /** The checkpoints the first switch acts on: those with one of the five phases. */
  function Recognised(cps: seq<Checkpoint>): (r: seq<Checkpoint>)
    ensures forall i :: 0 <= i < |r| ==> r[i].status.Known?
  {
    if cps == [] then []
    else
      var c := cps[|cps| - 1];
      Recognised(cps[..|cps| - 1]) + (if c.status.Known? then [c] else [])
  }

  /** Minor statuses other than the five phases leave every field as it was. */
  lemma {:induction false} WalkIgnoresOtherStatuses(cps: seq<Checkpoint>)
    ensures Walk(cps) == Walk(Recognised(cps))
  {
    if cps != [] {
      var p, c := cps[..|cps| - 1], cps[|cps| - 1];
      WalkIgnoresOtherStatuses(p);
      var r := Recognised(p);
      if c.status.Known? {
        assert (r + [c])[..|r|] == r;
      } else {
        assert Recognised(cps) == r + [] == r;
      }
    }
  }

  /** lastStatus is the phase of the last recognised checkpoint, and nothing when there is none. */
  lemma LastReachedIsLastRecognised(cps: seq<Checkpoint>)
    ensures var r := Recognised(cps);
            LastReached(cps) == if r == [] then None else Some(r[|r| - 1].status.phase)
  {
    WalkIgnoresOtherStatuses(cps);
  }

  lemma {:induction false} NothingRecognised(cps: seq<Checkpoint>)
    requires forall i :: 0 <= i < |cps| ==> cps[i].status.Other?
    ensures Recognised(cps) == []
  {
    if cps != [] {
      NothingRecognised(cps[..|cps| - 1]);
    }
  }

  /** A job with no recognised checkpoint is estimated at the sum of the medians, with status code -1. */
  lemma NotStartedEstimate(cps: seq<Checkpoint>, m: Medians, now: int)
    requires forall i :: 0 <= i < |cps| ==> cps[i].status.Other?
    ensures Estimate(cps, m, now) == m.setup + m.input + m.execution + m.output
    ensures StatusCode(LastReached(cps)) == -1
  {
    NothingRecognised(cps);
    WalkIgnoresOtherStatuses(cps);
  }

  /** The k-th phase in order Started, Inputs, Application, Outputs, Finished. */
  function PhaseAt(k: nat): Phase
    requires k < 5
  {
    [Started, Inputs, Application, Outputs, Finished][k]
  }

  /** Checkpoints for the first |times| phases, in order, reached at the given times. */
  function InOrder(times: seq<int>): seq<Checkpoint>
    requires |times| <= 5
  {
    seq(|times|, k requires 0 <= k < |times| => Checkpoint(Known(PhaseAt(k)), times[k]))
  }

  /** What the phase in progress (reached `elapsed` ms ago) and the phases after it add to
      the estimate: the phase in progress at least its median, the rest their medians. */
  function Outlook(last: Phase, elapsed: int, m: Medians): int
  {
    match last
    case Started => Max(elapsed, m.setup) + m.input + m.execution + m.output
    case Inputs => Max(elapsed, m.input) + m.execution + m.output
    case Application => Max(elapsed, m.execution) + m.output
    case Outputs => Max(elapsed, m.output)
    case Finished => 0
  }

  /** Walking checkpoints in phase order measures each completed phase as the gap
      between consecutive checkpoints, and their sum telescopes. */
  lemma {:induction false} WalkInOrder(times: seq<int>)
    requires 1 <= |times| <= 5
    ensures var f, n := Walk(InOrder(times)), |times|;
      && f.startTime == times[0]
      && f.setupTime == (if n > 1 then times[1] - times[0] else 0)
      && f.inputTime == (if n > 2 then times[2] - times[1] else 0)
      && f.executionTime == (if n > 3 then times[3] - times[2] else 0)
      && f.uploadTime == (if n > 4 then times[4] - times[3] else 0)
      && f.estimation == times[n - 1] - times[0]
      && f.lastStatus == Some(PhaseAt(n - 1))
  {
    var n := |times|;
    assert InOrder(times)[..n - 1] == InOrder(times[..n - 1]);
    if n > 1 {
      WalkInOrder(times[..n - 1]);
    }
  }

  /** For checkpoints reached in phase order, completed phases count their measured
      durations (adding up to the time since Started) and the rest is the Outlook. */
  lemma InOrderEstimate(cps: seq<Checkpoint>, times: seq<int>, m: Medians, now: int)
    requires 1 <= |times| <= 5
    requires Recognised(cps) == InOrder(times)
    ensures var last := |times| - 1;
      && Estimate(cps, m, now) == (times[last] - times[0]) + Outlook(PhaseAt(last), now - times[last], m)
      && LastReached(cps) == Some(PhaseAt(last))
  {
    WalkIgnoresOtherStatuses(cps);
    WalkInOrder(times);
  }

  /** A job whose last recognised checkpoint is Started, at time s: max(now - s, setupMedian)
      plus the other three medians. The estimate is reset, so durations measured before a
      repeated Started no longer count. */
  lemma StartedLastEstimate(cps: seq<Checkpoint>, m: Medians, now: int)
    requires LastReached(cps) == Some(Started)
    ensures var r := Recognised(cps);
      && r != [] && r[|r| - 1].status == Known(Started)
      && Estimate(cps, m, now) == Max(now - r[|r| - 1].date, m.setup) + m.input + m.execution + m.output
  {
    WalkIgnoresOtherStatuses(cps);
    var r := Recognised(cps);
    assert r != [];
    var c := r[|r| - 1];
    assert Walk(r) == Record(Walk(r[..|r| - 1]), c);
    assert c.status.Known?;
  }

  /** A job with only Started at time s: the Started-last case with nothing before it. */
  lemma StartedOnlyEstimate(cps: seq<Checkpoint>, s: int, m: Medians, now: int)
    requires Recognised(cps) == [Checkpoint(Known(Started), s)]
    ensures Estimate(cps, m, now) == Max(now - s, m.setup) + m.input + m.execution + m.output
  {
    assert InOrder([s]) == [Checkpoint(Known(Started), s)];
    InOrderEstimate(cps, [s], m, now);
  }

  /** A finished job is estimated at exactly its total run time F - S; no median is used. */
  lemma FinishedEstimateIsRunTime(cps: seq<Checkpoint>, times: seq<int>, m: Medians, now: int)
    requires |times| == 5 && Recognised(cps) == InOrder(times)
    ensures Estimate(cps, m, now) == times[4] - times[0]
    ensures StatusCode(LastReached(cps)) == 4
  {
    InOrderEstimate(cps, times, m, now);
  }

  /** A started, unfinished job with non-negative medians is estimated at no less than
      the time elapsed since it started. */
  lemma RunningEstimateCoversElapsed(cps: seq<Checkpoint>, times: seq<int>, m: Medians, now: int)
    requires 1 <= |times| <= 4 && Recognised(cps) == InOrder(times)
    requires m.NonNegative()
    ensures Estimate(cps, m, now) >= now - times[0]
  {
    InOrderEstimate(cps, times, m, now);
  }

  /** For fixed checkpoints the estimate never decreases as the clock advances. */
  lemma EstimateGrowsWithTime(cps: seq<Checkpoint>, m: Medians, now: int, later: int)
    requires now <= later
    ensures Estimate(cps, m, now) <= Estimate(cps, m, later)
  {
  }

  /** The measured part of a job does not depend on the clock: the duration of every phase
      the job has completed is the same at any two times, and so is the whole estimate of a
      finished job. Only the phase in progress and the estimate move with the clock. */
  lemma MeasuredPhasesIgnoreClock(cps: seq<Checkpoint>, m: Medians, now: int, later: int)
    ensures var f, g := Forecast(Walk(cps), m, now), Forecast(Walk(cps), m, later);
      && f.startTime == g.startTime
      && LastReached(cps) == f.lastStatus == g.lastStatus
      && (StatusCode(LastReached(cps)) >= 1 ==> f.setupTime == g.setupTime)
      && (StatusCode(LastReached(cps)) >= 2 ==> f.inputTime == g.inputTime)
      && (StatusCode(LastReached(cps)) >= 3 ==> f.executionTime == g.executionTime)
      && (StatusCode(LastReached(cps)) >= 4 ==> f.uploadTime == g.uploadTime && f.estimation == g.estimation)
  {
  }
}
