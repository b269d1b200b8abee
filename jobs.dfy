/**
 * The in-process job queue (backend/app/services/jobs.py). Each job has one
 * status record, overwritten at every step of its runner: queued, then
 * running, then succeeded or failed. The runner's steps are separate
 * methods called in order; timestamps are integers passed in.
 */
module Jobs {
  import opened Wrappers

  /** A value in a job's result payload (a JSON-like dict). */
  datatype Value = IntValue(i: int) | StrValue(s: string)
  type Payload = map<string, Value>

  datatype Job = Job(jobId: string, kind: string, createdAt: int)

  datatype JobState = Queued | Running | Succeeded | Failed

  datatype JobStatus = JobStatus(
    jobId: string,
    kind: string,
    state: JobState,
    createdAt: int,
    startedAt: Option<int>,
    finishedAt: Option<int>,
    result: Option<Payload>,
    error: Option<string>)

  /** What the job's coroutine did: returned a payload or raised an exception. */
  datatype Outcome = Returned(payload: Payload) | Raised(message: string)

  /** The record enqueue writes. */
  function QueuedStatus(job: Job): JobStatus {
    JobStatus(job.jobId, job.kind, Queued, job.createdAt, None, None, None, None)
  }

  /** The runner's first step: running, with started_at set. */
  function Started(st: JobStatus, now: int): JobStatus {
    st.(state := Running, startedAt := Some(now))
  }

  /** The runner's last step, by the coroutine's outcome. */
  function Finished(st: JobStatus, outcome: Outcome, now: int): JobStatus {
    match outcome
    case Returned(p) => st.(state := Succeeded, finishedAt := Some(now), result := Some(p))
    case Raised(m) => st.(state := Failed, finishedAt := Some(now), error := Some(m))
  }

  /** How far along the lifecycle a state is. */
  function Rank(s: JobState): nat {
    match s
    case Queued => 0
    case Running => 1
    case Succeeded => 2
    case Failed => 2
  }

  /** The fields a record has at each state of the lifecycle. */
  predicate WellFormed(st: JobStatus) {
    match st.state
    case Queued => st.startedAt.None? && st.finishedAt.None? && st.result.None? && st.error.None?
    case Running => st.startedAt.Some? && st.finishedAt.None? && st.result.None? && st.error.None?
    case Succeeded => st.startedAt.Some? && st.finishedAt.Some? && st.result.Some? && st.error.None?
    case Failed => st.startedAt.Some? && st.finishedAt.Some? && st.result.None? && st.error.Some?
  }

  /** The fields no step changes. */
  predicate SameJob(a: JobStatus, b: JobStatus) {
    a.jobId == b.jobId && a.kind == b.kind && a.createdAt == b.createdAt
  }

  /** enqueue writes a queued record for the job with nothing else set. */
  lemma QueuedIsFresh(job: Job)
    ensures var st := QueuedStatus(job);
      && WellFormed(st) && st.state == Queued
      && st.jobId == job.jobId && st.kind == job.kind && st.createdAt == job.createdAt
  {
  }

  /** Starting a queued job moves it one step on and keeps every other field. */
  lemma StartAdvances(st: JobStatus, now: int)
    requires WellFormed(st) && st.state == Queued
    ensures var st' := Started(st, now);
      && WellFormed(st') && Rank(st'.state) == Rank(st.state) + 1 && SameJob(st, st')
      && st'.startedAt == Some(now)
  {
  }

  /**
   * Finishing a running job makes it succeeded (with the payload) or failed
   * (with the message, result left None), keeping started_at and the job's
   * fields.
   */
  lemma FinishAdvances(st: JobStatus, outcome: Outcome, now: int)
    requires WellFormed(st) && st.state == Running
    ensures var st' := Finished(st, outcome, now);
      && WellFormed(st') && Rank(st'.state) == Rank(st.state) + 1 && SameJob(st, st')
      && st'.startedAt == st.startedAt && st'.finishedAt == Some(now)
      && (st'.state == Succeeded <==> outcome.Returned?)
      && (outcome.Returned? ==> st'.result == Some(outcome.payload))
      && (outcome.Raised? ==> st'.error == Some(outcome.message) && st'.result.None?)
  {
  }

  /**
   * The runner's first step does not look at the state it overwrites: it
   * keeps the record well formed exactly when the job has not finished, since
   * a finished record would keep its finished_at (and result or error) while
   * running again.
   */
  lemma StartShape(st: JobStatus, now: int)
    requires WellFormed(st)
    ensures WellFormed(Started(st, now)) <==> Rank(st.state) < 2
  {
  }

  /**
   * Nor does the last step: it keeps the record well formed exactly from
   * running, or when it repeats the outcome the record already has. A queued
   * record has no started_at, and the other outcome would leave the old result
   * or error beside the new one.
   */
  lemma FinishShape(st: JobStatus, outcome: Outcome, now: int)
    requires WellFormed(st)
    ensures WellFormed(Finished(st, outcome, now)) <==>
      || st.state == Running
      || (st.state == Succeeded && outcome.Returned?)
      || (st.state == Failed && outcome.Raised?)
  {
  }

  /** InProcessJobQueue: the status record of each job id, and the ids that have a runner. */
  class JobQueue {
    var jobs: map<string, JobStatus>
    var tasks: set<string>

    /** Every stored record is filed under its own job id. */
    ghost predicate Valid()
      reads this
    {
      forall id :: id in jobs ==> jobs[id].jobId == id
    }

    constructor ()
      ensures Valid() && jobs == map[] && tasks == {}
    {
      jobs := map[];
      tasks := {};
    }

    /** enqueue: (over)writes a queued record and starts a runner for the id. */
    method Enqueue(job: Job)
      requires Valid()
      modifies this
      ensures Valid()
      ensures jobs == old(jobs)[job.jobId := QueuedStatus(job)]
      ensures tasks == old(tasks) + {job.jobId}
    {
      jobs := jobs[job.jobId := QueuedStatus(job)];
      tasks := tasks + {job.jobId};
    }

    /** The runner's first step. */
    method Start(jobId: string, now: int)
      requires Valid() && jobId in jobs
      modifies this
      ensures Valid()
      ensures jobs == old(jobs)[jobId := Started(old(jobs)[jobId], now)]
      ensures tasks == old(tasks)
    {
      var current := jobs[jobId];
      jobs := jobs[jobId := Started(current, now)];
    }

    /** The runner's step after the coroutine returned or raised. */
    method Finish(jobId: string, outcome: Outcome, now: int)
      requires Valid() && jobId in jobs
      modifies this
      ensures Valid()
      ensures jobs == old(jobs)[jobId := Finished(old(jobs)[jobId], outcome, now)]
      ensures tasks == old(tasks)
    {
      var current := jobs[jobId];
      match outcome
      case Returned(p) =>
        jobs := jobs[jobId := current.(state := Succeeded, finishedAt := Some(now), result := Some(p))];
      case Raised(m) =>
        jobs := jobs[jobId := current.(state := Failed, finishedAt := Some(now), error := Some(m))];
    }

    /** get_status: the current record, or None for an unknown id. */
    method GetStatus(jobId: string) returns (r: Option<JobStatus>)
      requires Valid()
      ensures r.Some? <==> jobId in jobs
      ensures r.Some? ==> r.value == jobs[jobId] && r.value.jobId == jobId
    {
      if jobId in jobs {
        r := Some(jobs[jobId]);
      } else {
        r := None;
      }
    }
  }

  /**
   * One job run from enqueue to the end of its runner, with no other call in
   * between: the status read afterwards is the finished record, well formed,
   * carrying the job's fields and the outcome; other ids are untouched.
   */
  method RunToEnd(q: JobQueue, job: Job, startedAt: int, outcome: Outcome, finishedAt: int)
      returns (r: Option<JobStatus>)
    requires q.Valid()
    modifies q
    ensures q.Valid()
    ensures r.Some? && WellFormed(r.value) && Rank(r.value.state) == 2
    ensures r.value == Finished(Started(QueuedStatus(job), startedAt), outcome, finishedAt)
    ensures forall id :: id in old(q.jobs) && id != job.jobId ==> id in q.jobs && q.jobs[id] == old(q.jobs)[id]
  {
    q.Enqueue(job);
    QueuedIsFresh(job);
    q.Start(job.jobId, startedAt);
    StartAdvances(QueuedStatus(job), startedAt);
    q.Finish(job.jobId, outcome, finishedAt);
    FinishAdvances(Started(QueuedStatus(job), startedAt), outcome, finishedAt);
    r := q.GetStatus(job.jobId);
  }
}
