/** The plugin's entry point (HealingListener): one CommandState per command,
    created on first sight of the command, fed with phase durations as jobs
    report their minor statuses, and stopped when the plugin terminates. */
module Listener {
  import opened Gasw
  import opened CommandStates

  /** getDateDiff of the persistence layer: the milliseconds between two minor statuses
      of a job, or DaoError when the read throws. */
  type DateDiff = (string, Phase, Phase) -> Fetch<int>

  const NoSamples := SampleLists([], [], [], [])

  /** The phase a reported minor status closes, as the pair of minor statuses whose
      gap measures it: Inputs closes setup, Application closes input, Outputs closes
      execution and Finished closes output. Other reports close nothing. */
  function Gap(status: MinorStatus): (g: Option<(Phase, Phase)>)
    ensures g.Some? ==> status.Known? && status.phase != Started && g.value.1 == status.phase
  {
    match status
    case Known(Inputs) => Some((Started, Inputs))
    case Known(Application) => Some((Inputs, Application))
    case Known(Outputs) => Some((Application, Outputs))
    case Known(Finished) => Some((Outputs, Finished))
    case _ => None
  }

  /** The sample lists after a duration `d` is recorded for the phase `closed` ends. */
  function Append(l: SampleLists, closed: Phase, d: int): SampleLists
  {
    match closed
    case Inputs => l.(setup := l.setup + [d])
    case Application => l.(input := l.input + [d])
    case Outputs => l.(execution := l.execution + [d])
    case Finished => l.(output := l.output + [d])
    case Started => l
  }

  /** The sample lists of a command after one of its jobs reports `status`. */
  function Reported(l: SampleLists, jobId: string, status: MinorStatus, dateDiff: DateDiff): SampleLists
  {
    match Gap(status)
    case None => l
    case Some(g) =>
      match dateDiff(jobId, g.0, g.1)
      case DaoError => l
      case Fetched(d) => Append(l, g.1, d)
  }

  function Size(l: SampleLists): nat
  {
    |l.setup| + |l.input| + |l.execution| + |l.output|
  }

  predicate Extends(l: SampleLists, l': SampleLists)
  {
    && l.setup <= l'.setup && l.input <= l'.input
    && l.execution <= l'.execution && l.output <= l'.output
  }

  /** A report never drops a sample and adds one exactly when it closes a phase whose gap
      could be read; that sample is the gap, at the end of the list of that phase. */
  lemma ReportAddsAtMostOneSample(l: SampleLists, jobId: string, status: MinorStatus, dateDiff: DateDiff)
    ensures var r := Reported(l, jobId, status, dateDiff);
      && Extends(l, r)
      && (Size(r) == Size(l) + 1 <==> Gap(status).Some? && dateDiff(jobId, Gap(status).value.0, status.phase).Fetched?)
      && (Size(r) != Size(l) + 1 ==> r == l)
      && (status == Known(Finished) && r != l ==> r.output == l.output + [dateDiff(jobId, Outputs, Finished).value])
  {
  }

  /** A job that reports every phase, each gap readable, adds one sample to every list. */
  lemma CompleteRunFeedsEveryList(l: SampleLists, jobId: string, dateDiff: DateDiff)
    requires dateDiff(jobId, Started, Inputs).Fetched? && dateDiff(jobId, Inputs, Application).Fetched?
    requires dateDiff(jobId, Application, Outputs).Fetched? && dateDiff(jobId, Outputs, Finished).Fetched?
    ensures var r := Reported(Reported(Reported(Reported(Reported(l, jobId, Known(Started), dateDiff),
                       jobId, Known(Inputs), dateDiff), jobId, Known(Application), dateDiff),
                       jobId, Known(Outputs), dateDiff), jobId, Known(Finished), dateDiff);
      r == SampleLists(l.setup + [dateDiff(jobId, Started, Inputs).value],
                       l.input + [dateDiff(jobId, Inputs, Application).value],
                       l.execution + [dateDiff(jobId, Application, Outputs).value],
                       l.output + [dateDiff(jobId, Outputs, Finished).value])
  {
  }

  class HealingListener {
    var commandsMap: map<string, CommandState>

    /** Every command maps to its own state, which keeps the shape of its log snapshot. */
    predicate Valid()
      reads this, commandsMap.Values
    {
      forall c :: c in commandsMap ==> commandsMap[c].command == c && commandsMap[c].Valid()
    }

    /** load: an empty command map (the configuration it also loads is not modelled). */
    constructor ()
      ensures Valid() && commandsMap == map[]
    {
      commandsMap := map[];
    }

    /** jobSubmitted: a fresh state for a command seen for the first time; nothing otherwise. */
    method JobSubmitted(job: Job)
      requires Valid()
      modifies this
      ensures Valid()
      ensures job.command in old(commandsMap) ==> commandsMap == old(commandsMap)
      ensures job.command !in old(commandsMap) ==>
                && commandsMap.Keys == old(commandsMap).Keys + {job.command}
                && (forall c :: c in old(commandsMap) ==> commandsMap[c] == old(commandsMap)[c])
                && fresh(commandsMap[job.command])
                && commandsMap[job.command].Samples() == NoSamples
                && commandsMap[job.command].lastLoggedTimes == map[]
                && !commandsMap[job.command].stop && commandsMap[job.command].monitorRunning
    {
      var command := job.command;
      if command !in commandsMap {
        var cs := new CommandState(command);
        commandsMap := commandsMap[command := cs];
      }
    }

    /** jobMinorStatusReported: finds or creates the state of the job's command, then
        records the duration of the phase the status closes; a failed read of the gap
        records nothing. No other command's state changes. */
    method JobMinorStatusReported(job: Job, status: MinorStatus, dateDiff: DateDiff)
      requires Valid()
      modifies this, commandsMap.Values
      ensures Valid()
      ensures commandsMap.Keys == old(commandsMap).Keys + {job.command}
      ensures forall c :: c in old(commandsMap) ==> commandsMap[c] == old(commandsMap)[c]
      ensures forall c :: c in old(commandsMap) && c != job.command ==> unchanged(commandsMap[c])
      ensures job.command in old(commandsMap) ==>
                && commandsMap[job.command].Samples() ==
                     Reported(old(commandsMap[job.command].Samples()), job.id, status, dateDiff)
                && commandsMap[job.command].stop == old(commandsMap[job.command].stop)
                && commandsMap[job.command].monitorRunning == old(commandsMap[job.command].monitorRunning)
                && commandsMap[job.command].lastLoggedTimes == old(commandsMap[job.command].lastLoggedTimes)
      ensures job.command !in old(commandsMap) ==>
                && fresh(commandsMap[job.command])
                && commandsMap[job.command].Samples() == Reported(NoSamples, job.id, status, dateDiff)
                && !commandsMap[job.command].stop && commandsMap[job.command].monitorRunning
                && commandsMap[job.command].lastLoggedTimes == map[]
    {
      var cs: CommandState;
      if job.command in commandsMap {
        cs := commandsMap[job.command];
      } else {
        cs := new CommandState(job.command);
        commandsMap := commandsMap[job.command := cs];
      }
      RecordPhase(cs, job.id, status, dateDiff);
    }

    /** The routing switch of jobMinorStatusReported: the gap the status closes goes to
        the matching add*Time call, unless reading it fails. */
    static method RecordPhase(cs: CommandState, jobId: string, status: MinorStatus, dateDiff: DateDiff)
      modifies cs
      ensures cs.Samples() == Reported(old(cs.Samples()), jobId, status, dateDiff)
      ensures cs.stop == old(cs.stop) && cs.lastLoggedTimes == old(cs.lastLoggedTimes)
      ensures cs.monitorRunning == old(cs.monitorRunning)
    {
      match status {
        case Known(Inputs) =>
          var gap := dateDiff(jobId, Started, Inputs);
          if gap.Fetched? {
            cs.AddSetupTime(gap.value);
          }
        case Known(Application) =>
          var gap := dateDiff(jobId, Inputs, Application);
          if gap.Fetched? {
            cs.AddDownloadTime(gap.value);
          }
        case Known(Outputs) =>
          var gap := dateDiff(jobId, Application, Outputs);
          if gap.Fetched? {
            cs.AddExecutionTime(gap.value);
          }
        case Known(Finished) =>
          var gap := dateDiff(jobId, Outputs, Finished);
          if gap.Fetched? {
            cs.AddUploadTime(gap.value);
          }
        case _ =>
      }
    }

    /** terminate: stops the monitor of every command. */
    method Terminate()
      requires Valid()
      modifies commandsMap.Values
      ensures Valid() && commandsMap == old(commandsMap)
      ensures forall c :: c in commandsMap ==> commandsMap[c].stop
      ensures forall c :: c in commandsMap ==>
                commandsMap[c].Samples() == old(commandsMap[c].Samples())
                && commandsMap[c].lastLoggedTimes == old(commandsMap[c].lastLoggedTimes)
                && commandsMap[c].monitorRunning == old(commandsMap[c].monitorRunning)
    {
      var pending := commandsMap.Values;
      while pending != {}
        invariant pending <= commandsMap.Values
        invariant forall cs :: cs in commandsMap.Values && cs !in pending ==> cs.stop
        invariant forall cs :: cs in commandsMap.Values ==>
                    cs.Samples() == old(cs.Samples()) && cs.lastLoggedTimes == old(cs.lastLoggedTimes)
                    && cs.monitorRunning == old(cs.monitorRunning)
        decreases pending
      {
        var cs :| cs in pending;
        cs.Terminate();
        pending := pending - {cs};
      }
    }
  }
}
