/** The per-command healing state (CommandState): four sample lists of phase
    durations that the listener appends to, the snapshot of the last logged
    medians, and one tick of the replication monitor, which sorts the lists,
    takes their medians, and heals every invocation of a running job. */
module CommandStates {
  import opened Gasw
  import opened Configuration
  import opened SampleStatistics
  import opened PhaseEstimator
  import opened HealingDecisions

  /** The four sample lists: setup, input (download), execution and output (upload) durations. */
  datatype SampleLists = SampleLists(setup: seq<int>, input: seq<int>, execution: seq<int>, output: seq<int>)

  /** The medians a tick computes, or None when one of the lists it reaches is empty
      (getMedianValue then reads index -1 and throws). */
  function TickMedians(l: SampleLists): (r: Option<Medians>)
    ensures r == None <==> l.setup == [] || l.input == [] || l.execution == [] || l.output == []
  {
    if l.setup == [] || l.input == [] || l.execution == [] || l.output == [] then None
    else Some(Medians(MedianOf(l.setup), MedianOf(l.input), MedianOf(l.execution), MedianOf(l.output)))
  }

  /** The lists after a tick's getMedianValue calls: each list it reaches is sorted in
      place, and the calls stop at the first empty list. */
  function AfterMedians(l: SampleLists): SampleLists
  {
    if l.setup == [] then l
    else if l.input == [] then l.(setup := Sort(l.setup))
    else if l.execution == [] then l.(setup := Sort(l.setup), input := Sort(l.input))
    else SampleLists(Sort(l.setup), Sort(l.input), Sort(l.execution), Sort(l.output))
  }

  /** What replicateJobs requests and how it ends, from the lists and the lookups it makes. */
  function TickResult(l: SampleLists, running: Fetch<seq<Fetch<InvocationJobs>>>,
                      policy: HealingPolicy, retryCount: int, now: int): TickOutcome
  {
    match TickMedians(l)
    case None => TickOutcome([], EmptySamples)
    case Some(m) =>
      match running
      case DaoError => TickOutcome([], DaoFailure)
      case Fetched(lookups) => HealInvocations(lookups, m, policy, retryCount, now)
  }

  /** lastLoggedTimes after replicateJobs: logged only when every median could be taken. */
  function LoggedAfterTick(l: SampleLists, logged: map<string, int>, percentage: int): (r: map<string, int>)
    requires LoggedShape(logged)
    ensures LoggedShape(r)
  {
    match TickMedians(l)
    case None => logged
    case Some(m) => LoggedAfter(logged, m, percentage)
  }

  /** The decision a KILL_REPLICA is made on, as doHealing reads it off a JobPhases. */
  function EstimatedPhases(p: JobPhases): Estimated
    reads p
  {
    Estimated(p.estimation, StatusCode(p.lastStatus))
  }

  class CommandState {
    const command: string
    var stop: bool
    var setupTimes: seq<int>
    var inputTimes: seq<int>
    var executionTimes: seq<int>
    var outputTimes: seq<int>
    var lastLoggedTimes: map<string, int>
    /** Whether the monitor thread the constructor starts is still alive. An exception
        that escapes replicateJobs ends it for good: its loop catches only interrupts. */
    var monitorRunning: bool

    /** lastLoggedTimes is empty until the first log and holds the four phases after it. */
    predicate Valid()
      reads this
    {
      LoggedShape(lastLoggedTimes)
    }

    function Samples(): SampleLists
      reads this
    {
      SampleLists(setupTimes, inputTimes, executionTimes, outputTimes)
    }

    /** A fresh state for `command`, whose monitor thread is started. */
    constructor (command: string)
      ensures Valid() && this.command == command && !stop && monitorRunning
      ensures Samples() == SampleLists([], [], [], []) && lastLoggedTimes == map[]
    {
      this.command := command;
      stop := false;
      monitorRunning := true;
      setupTimes, inputTimes, executionTimes, outputTimes := [], [], [], [];
      lastLoggedTimes := map[];
    }

    method AddSetupTime(time: int)
      modifies this
      ensures Samples() == old(Samples()).(setup := old(setupTimes) + [time])
      ensures stop == old(stop) && lastLoggedTimes == old(lastLoggedTimes)
      ensures monitorRunning == old(monitorRunning)
    {
      setupTimes := setupTimes + [time];
    }

    method AddDownloadTime(time: int)
      modifies this
      ensures Samples() == old(Samples()).(input := old(inputTimes) + [time])
      ensures stop == old(stop) && lastLoggedTimes == old(lastLoggedTimes)
      ensures monitorRunning == old(monitorRunning)
    {
      inputTimes := inputTimes + [time];
    }

    method AddExecutionTime(time: int)
      modifies this
      ensures Samples() == old(Samples()).(execution := old(executionTimes) + [time])
      ensures stop == old(stop) && lastLoggedTimes == old(lastLoggedTimes)
      ensures monitorRunning == old(monitorRunning)
    {
      executionTimes := executionTimes + [time];
    }

    method AddUploadTime(time: int)
      modifies this
      ensures Samples() == old(Samples()).(output := old(outputTimes) + [time])
      ensures stop == old(stop) && lastLoggedTimes == old(lastLoggedTimes)
      ensures monitorRunning == old(monitorRunning)
    {
      outputTimes := outputTimes + [time];
    }

    /** Stops the monitor: its loop exits before its next tick. */
    method Terminate()
      modifies this
      ensures stop
      ensures Samples() == old(Samples()) && lastLoggedTimes == old(lastLoggedTimes)
      ensures monitorRunning == old(monitorRunning)
    {
      stop := true;
    }

    /** getMedianValue: sorts the list (the caller stores `sorted` back in the field it
        passed, as Collections.sort does in place), then reads its median; None stands
        for the IndexOutOfBoundsException an empty list raises. */
    static method GetMedianValue(list: seq<int>) returns (sorted: seq<int>, median: Option<int>)
      ensures sorted == Sort(list) && IsSorted(sorted) && multiset(sorted) == multiset(list)
      ensures median == None <==> list == []
      ensures median.Some? ==> median.value == MedianOf(list)
    {
      sorted := Sort(list);
      assert |sorted| == |list|;
      if |sorted| % 2 == 1 {
        median := Some(sorted[|sorted| / 2]);
        assert median.value == Median(sorted);
      } else {
        var index := |sorted| / 2;
        if index - 1 < 0 {
          median := None;
        } else {
          median := Some(Half(sorted[index - 1] + sorted[index]));
          assert median.value == Median(sorted);
        }
      }
    }

    /** printAndUpdateStats: records the four medians as the logged snapshot. */
    method PrintAndUpdateStats(m: Medians)
      modifies this
      ensures lastLoggedTimes == old(lastLoggedTimes)["setup" := m.setup]["input" := m.input]
                                 ["execution" := m.execution]["output" := m.output]
      ensures old(Valid()) ==> lastLoggedTimes == StatsMap(m)
      ensures Samples() == old(Samples()) && stop == old(stop) && monitorRunning == old(monitorRunning)
    {
      lastLoggedTimes := lastLoggedTimes["setup" := m.setup];
      lastLoggedTimes := lastLoggedTimes["input" := m.input];
      lastLoggedTimes := lastLoggedTimes["execution" := m.execution];
      lastLoggedTimes := lastLoggedTimes["output" := m.output];
    }

    /** logTimesIfNecessary: logs on the first call, and later only when some median
        has drifted from the snapshot by more than `percentage` percent. */
    method LogTimesIfNecessary(m: Medians, percentage: int)
      requires Valid()
      modifies this
      ensures Valid() && lastLoggedTimes == LoggedAfter(old(lastLoggedTimes), m, percentage)
      ensures Samples() == old(Samples()) && stop == old(stop) && monitorRunning == old(monitorRunning)
    {
      if lastLoggedTimes == map[] {
        PrintAndUpdateStats(m);
      } else {
        var needToLog := false;
        if IsChangeGreaterThanPercentage(lastLoggedTimes["setup"], m.setup, percentage) {
          needToLog := true;
        } else if IsChangeGreaterThanPercentage(lastLoggedTimes["input"], m.input, percentage) {
          needToLog := true;
        } else if IsChangeGreaterThanPercentage(lastLoggedTimes["execution"], m.execution, percentage) {
          needToLog := true;
        } else if IsChangeGreaterThanPercentage(lastLoggedTimes["output"], m.output, percentage) {
          needToLog := true;
        }
        if needToLog {
          PrintAndUpdateStats(m);
        }
      }
    }

    /** canDoHealingForJobs: the jobs' own fields first, the minor-status reads last. */
    static method CanDoHealingForJobs(active: seq<Job>, failed: seq<Job>) returns (r: Fetch<bool>)
      ensures r == HealingAllowed(active, failed)
    {
      for i := 0 to |active|
        invariant forall k :: 0 <= k < i ==> !Unsettled(active[k])
      {
        if active[i].replicating || active[i].status != Running {
          return Fetched(false);
        }
      }
      for i := 0 to |failed|
        invariant forall k :: 0 <= k < i ==> !failed[k].replicating
      {
        if failed[i].replicating {
          return Fetched(false);
        }
      }
      for i := 0 to |active|
        invariant NoneFinished(active) == NoneFinished(active[i..])
      {
        assert active[i..][1..] == active[i + 1..];
        match HasFinished(active[i]) {
          case DaoError => return DaoError;
          case Fetched(finished) =>
            if finished {
              return Fetched(false);
            }
        }
      }
      return Fetched(true);
    }

    /** killReplicaIfNecessary: KILL_REPLICA for `evaluated` when it is in an earlier phase
        than `best` and at least blockedCoefficient times slower. */
    static method KillReplicaIfNecessary(evaluated: JobPhases, best: JobPhases, c: Fraction)
      returns (requests: seq<StatusRequest>)
      ensures ShouldKill(EstimatedPhases(evaluated), EstimatedPhases(best), c) ==> requests == [StatusRequest(evaluated.job.id, KillReplica)]
      ensures !ShouldKill(EstimatedPhases(evaluated), EstimatedPhases(best), c) ==> requests == []
    {
      if evaluated.GetLastStatusCode() >= best.GetLastStatusCode() {
        return [];
      }
      if QuotientAtLeast(evaluated.GetEstimation(), best.GetEstimation(), c) {
        requests := [StatusRequest(evaluated.job.id, KillReplica)];
      } else {
        requests := [];
      }
    }

    /** The body of doHealing's loop for a replica after the first: a strictly smaller
        estimation makes the new replica the best and tests the former best against it;
        otherwise the new replica is tested against the best. */
    static method ChallengeBest(jobPhases: JobPhases, bestJob: JobPhases, c: Fraction)
      returns (newBest: JobPhases, requests: seq<StatusRequest>)
      ensures newBest == (if jobPhases.estimation < bestJob.estimation then jobPhases else bestJob)
      ensures var tested := if jobPhases.estimation < bestJob.estimation then bestJob else jobPhases;
        requests == if ShouldKill(EstimatedPhases(tested), EstimatedPhases(newBest), c)
                    then [StatusRequest(tested.job.id, KillReplica)] else []
    {
      if jobPhases.GetEstimation() < bestJob.GetEstimation() {
        var formerBestJob := bestJob;
        newBest := jobPhases;
        requests := KillReplicaIfNecessary(formerBestJob, newBest, c);
      } else {
        newBest := bestJob;
        requests := KillReplicaIfNecessary(jobPhases, bestJob, c);
      }
    }

    /** doHealing: one JobPhases per active replica at time `now`, the best one kept as
        the scan goes, kills along the way and a REPLICATE for the best one at the end.
        A replica whose minor statuses cannot be read ends the scan with no REPLICATE. */
    static method DoHealing(jobs: seq<Job>, failed: seq<Job>, m: Medians,
                            policy: HealingPolicy, retryCount: int, now: int)
      returns (requests: seq<StatusRequest>)
      ensures requests == HealingRequests(jobs, failed, m, policy, retryCount, now)
    {
      var c := policy.blockedCoefficient;
      var bestJob: JobPhases? := null;
      requests := [];
      for i := 0 to |jobs|
        invariant forall k :: 0 <= k < i ==> jobs[k].minorStatuses.Fetched?
        invariant i == 0 <==> bestJob == null
        invariant i == 0 ==> requests == []
        invariant i > 0 ==> var es := EstimatesOf(jobs, i, m, now);
                            && bestJob.job == jobs[BestIndex(es)]
                            && EstimatedPhases(bestJob) == es[BestIndex(es)]
                            && requests == KillRequests(jobs, Kills(es, Comparisons(es), c))
      {
        if jobs[i].minorStatuses == DaoError {
          HealingStopsAtUnreadable(jobs, failed, m, policy, retryCount, now, i);
          return;
        }
        var jobPhases := new JobPhases(jobs[i], jobs[i].minorStatuses.value,
                                       m.setup, m.input, m.execution, m.output, now);
        assert EstimatedPhases(jobPhases) == EstimatedOf(jobs[i], m, now);
        if bestJob == null {
          ScanFirstReplica(jobs, m, now, c);
          bestJob := jobPhases;
        } else {
          ScanRequestsStep(jobs, i, m, now, c);
          var r;
          bestJob, r := ChallengeBest(jobPhases, bestJob, c);
          requests := requests + r;
        }
      }
      assert ReadablePrefix(jobs) == |jobs|;
      if |jobs| < policy.maxReplicas && |failed| < retryCount && bestJob != null
         && QuotientAtLeast(bestJob.GetEstimation(), m.Sum(), c) {
        requests := requests + [StatusRequest(bestJob.job.id, Replicate)];
      }
    }

    /** The four getMedianValue calls at the head of replicateJobs, in the order setup,
        input, execution, output; the first empty list ends them. `after` holds the
        lists as the calls leave them. */
    static method TakeMedians(lists: SampleLists) returns (after: SampleLists, medians: Option<Medians>)
      ensures medians == TickMedians(lists)
      ensures after == AfterMedians(lists)
    {
      after := lists;
      var sorted, setupMedian := GetMedianValue(lists.setup);
      after := after.(setup := sorted);
      if setupMedian == None {
        return after, None;
      }
      var inputMedian;
      sorted, inputMedian := GetMedianValue(lists.input);
      after := after.(input := sorted);
      if inputMedian == None {
        return after, None;
      }
      var executionMedian;
      sorted, executionMedian := GetMedianValue(lists.execution);
      after := after.(execution := sorted);
      if executionMedian == None {
        return after, None;
      }
      var outputMedian;
      sorted, outputMedian := GetMedianValue(lists.output);
      after := after.(output := sorted);
      if outputMedian == None {
        return after, None;
      }
      medians := Some(Medians(setupMedian.value, inputMedian.value, executionMedian.value, outputMedian.value));
    }

    /** The lists as getMedianValue's in-place sorts leave them. */
    method StoreSamples(lists: SampleLists)
      modifies this
      ensures Samples() == lists
      ensures stop == old(stop) && lastLoggedTimes == old(lastLoggedTimes)
      ensures monitorRunning == old(monitorRunning)
    {
      setupTimes, inputTimes, executionTimes, outputTimes := lists.setup, lists.input, lists.execution, lists.output;
    }

    /** replicateJobs' loop over the running jobs of the command, each with the active and
        failed jobs of its invocation; the first DAOException ends it. */
    static method HealRunningJobs(lookups: seq<Fetch<InvocationJobs>>, m: Medians, policy: HealingPolicy,
                                  retryCount: int, now: int)
      returns (outcome: TickOutcome)
      ensures outcome == HealInvocations(lookups, m, policy, retryCount, now)
    {
      var requests: seq<StatusRequest> := [];
      for i := 0 to |lookups|
        invariant HealInvocations(lookups[..i], m, policy, retryCount, now) == TickOutcome(requests, Normal)
      {
        assert lookups[..i + 1][..i] == lookups[..i];
        if lookups[i] == DaoError {
          FailureEndsTick(lookups, i + 1, m, policy, retryCount, now);
          return TickOutcome(requests, DaoFailure);
        }
        var inv := lookups[i].value;
        var can := CanDoHealingForJobs(inv.active, inv.failed);
        if can == DaoError {
          FailureEndsTick(lookups, i + 1, m, policy, retryCount, now);
          return TickOutcome(requests, DaoFailure);
        }
        if can.value {
          var healed := DoHealing(inv.active, inv.failed, m, policy, retryCount, now);
          requests := requests + healed;
        }
      }
      assert lookups[..|lookups|] == lookups;
      return TickOutcome(requests, Normal);
    }

    /** replicateJobs: the four medians, the stats log, then healing for the invocation of
        every running job of this command. A DAOException ends the tick, keeping the
        requests already made; an empty sample list ends it before any request. */
    method ReplicateJobs(running: Fetch<seq<Fetch<InvocationJobs>>>, policy: HealingPolicy,
                         retryCount: int, now: int)
      returns (outcome: TickOutcome)
      requires Valid()
      modifies this
      ensures Valid() && stop == old(stop) && monitorRunning == old(monitorRunning)
      ensures Samples() == AfterMedians(old(Samples()))
      ensures lastLoggedTimes == LoggedAfterTick(old(Samples()), old(lastLoggedTimes), policy.statsChangePercentage)
      ensures outcome == TickResult(old(Samples()), running, policy, retryCount, now)
    {
      var after, medians := TakeMedians(Samples());
      StoreSamples(after);
      if medians == None {
        return TickOutcome([], EmptySamples);
      }
      var m := medians.value;
      LogTimesIfNecessary(m, policy.statsChangePercentage);
      if running == DaoError {
        return TickOutcome([], DaoFailure);
      }
      outcome := HealRunningJobs(running.value, m, policy, retryCount, now);
    }

    /** One pass of the monitor thread's loop: nothing once stopped or once the thread has
        died, a tick only when the output list holds more than one sample. A tick that
        ends on an empty sample list throws out of the loop and kills the thread. */
    method MonitorStep(running: Fetch<seq<Fetch<InvocationJobs>>>, policy: HealingPolicy,
                       retryCount: int, now: int)
      returns (outcome: Option<TickOutcome>)
      requires Valid()
      modifies this
      ensures Valid() && stop == old(stop)
      ensures !old(monitorRunning) || old(stop) || |old(outputTimes)| <= 1 ==>
                && outcome == None && monitorRunning == old(monitorRunning)
                && Samples() == old(Samples()) && lastLoggedTimes == old(lastLoggedTimes)
      ensures old(monitorRunning) && !old(stop) && |old(outputTimes)| > 1 ==>
                && outcome == Some(TickResult(old(Samples()), running, policy, retryCount, now))
                && monitorRunning == (outcome.value.end != EmptySamples)
                && Samples() == AfterMedians(old(Samples()))
                && lastLoggedTimes == LoggedAfterTick(old(Samples()), old(lastLoggedTimes), policy.statsChangePercentage)
    {
      if !monitorRunning || stop || |outputTimes| <= 1 {
        return None;
      }
      var t := ReplicateJobs(running, policy, retryCount, now);
      monitorRunning := t.end != EmptySamples;
      return Some(t);
    }
  }

  /** A tick's sorting keeps every list's samples, so the next tick takes the same medians. */
  lemma SortingKeepsTheMedians(l: SampleLists)
    ensures var a := AfterMedians(l);
      && multiset(a.setup) == multiset(l.setup) && multiset(a.input) == multiset(l.input)
      && multiset(a.execution) == multiset(l.execution) && multiset(a.output) == multiset(l.output)
      && TickMedians(a) == TickMedians(l)
  {
    var a := AfterMedians(l);
    assert |multiset(a.setup)| == |a.setup| && |multiset(l.setup)| == |l.setup|;
    assert |multiset(a.input)| == |a.input| && |multiset(l.input)| == |l.input|;
    assert |multiset(a.execution)| == |a.execution| && |multiset(l.execution)| == |l.execution|;
    assert |multiset(a.output)| == |a.output| && |multiset(l.output)| == |l.output|;
    if TickMedians(l).Some? {
      MedianIgnoresOrder(l.setup, a.setup);
      MedianIgnoresOrder(l.input, a.input);
      MedianIgnoresOrder(l.execution, a.execution);
      MedianIgnoresOrder(l.output, a.output);
    }
  }

  /** A tick that cannot take every median makes no request and leaves the log alone;
      one that can logs before it heals. */
  lemma EmptySampleListStopsTheTick(l: SampleLists, logged: map<string, int>,
                                    running: Fetch<seq<Fetch<InvocationJobs>>>,
                                    policy: HealingPolicy, retryCount: int, now: int)
    requires LoggedShape(logged)
    ensures (l.setup == [] || l.input == [] || l.execution == [] || l.output == []) <==>
            TickResult(l, running, policy, retryCount, now) == TickOutcome([], EmptySamples)
    ensures (l.setup == [] || l.input == [] || l.execution == [] || l.output == []) ==>
            LoggedAfterTick(l, logged, policy.statsChangePercentage) == logged
    ensures !(l.setup == [] || l.input == [] || l.execution == [] || l.output == []) ==>
            LoggedAfterTick(l, logged, policy.statsChangePercentage) != map[]
  {
  }
}
