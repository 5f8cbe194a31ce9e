/** The parts of the GASW framework that the healing plugin reads: jobs, their
    statuses, their minor-status checkpoints, and the outcome of a read from
    the persistence layer. */
module Gasw {

  datatype Option<+T> = None | Some(value: T)

  /** The result of one read from the persistence layer; a DAOException is DaoError. */
  datatype Fetch<+T> = Fetched(value: T) | DaoError

  /** The five execution phases a job reports, in the order it reaches them. */
  datatype Phase = Started | Inputs | Application | Outputs | Finished

  /** A minor status: one of the five phases, or any other minor status the
      framework records (those are ignored by the healing logic). */
  datatype MinorStatus = Known(phase: Phase) | Other(name: string)

  /** One recorded minor status of a job with its timestamp in milliseconds. */
  datatype Checkpoint = Checkpoint(status: MinorStatus, date: int)

  /** Position of a phase in the order Started < Inputs < Application < Outputs < Finished.
      It stands for GaswMinorStatus.getStatusCode(), whose values increase in this order. */
  function Ordinal(p: Phase): nat
  {
    match p
    case Started => 0
    case Inputs => 1
    case Application => 2
    case Outputs => 3
    case Finished => 4
  }

  datatype GaswStatus =
    | Created | Queued | SuccessfullySubmitted | Running
    | Replicate | KillReplica | Kill | Completed
    | Error | ErrorHeld | Stalled | StalledHeld | Cancelled | Deleted

  /** A job as the persistence layer returns it at one tick. `minorStatuses` is
      what getExecutionMinorStatus returns for this job's id. */
  datatype Job = Job(
    id: string,
    command: string,
    invocationId: int,
    status: GaswStatus,
    replicating: bool,
    minorStatuses: Fetch<seq<Checkpoint>>)

  /** A job.setStatus(status) followed by jobDAO.update(job). */
  datatype StatusRequest = StatusRequest(jobId: string, status: GaswStatus)
}
