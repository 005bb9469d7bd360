/** The result model the engine works on (internal/model/model.go). */
module Model {
  datatype Option<+T> = None | Some(value: T)

  /** `Other` is the status a step takes from a step result the collector does not know. */
  datatype Status =
    | StatusPass | StatusFail | StatusPartial | StatusError | StatusCancelled | StatusSkip
    | StatusBlocked | StatusRemote | StatusRunning | StatusPending | Other(text: string)

  function StatusText(status: Status): string {
    match status
    case StatusPass => "pass"
    case StatusFail => "fail"
    case StatusPartial => "partial"
    case StatusError => "error"
    case StatusCancelled => "cancelled"
    case StatusSkip => "skip"
    case StatusBlocked => "blocked"
    case StatusRemote => "remote_only"
    case StatusRunning => "running"
    case StatusPending => "pending"
    case Other(text) => text
  }

  datatype Fidelity = Exact | Compatible | Approximate | RemoteOnly

  /** Times are milliseconds on one monotone clock. */
  datatype JobStep = JobStep(name: string, status: Status, startedAt: Option<int>, completedAt: Option<int>, durationMS: int)

  datatype Job = Job(
    id: string,
    needs: seq<string>,
    status: Status,
    fidelity: Fidelity,
    reason: string,
    rank: real,
    startedAt: Option<int>,
    completedAt: Option<int>,
    durationMS: int,
    log: string,
    steps: seq<JobStep>,
    errorMessage: string)

  datatype Workflow = Workflow(id: string, triggered: bool, fidelity: Fidelity, jobs: seq<Job>)

  ghost predicate DistinctIDs(jobs: seq<Job>) {
    forall i, j | 0 <= i < j < |jobs| :: jobs[i].id != jobs[j].id
  }
}
