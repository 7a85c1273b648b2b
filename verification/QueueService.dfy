/** What a worker does with a claimed job. */
module QueueService {
  import opened Base
  import opened SendJobs
  import opened QueueRuns

  datatype Lookup = Gone | DbError(msg: string) | Loaded(enabled: bool)

  datatype Delivery = Sent | Rejected(msg: string) | Panicked(msg: string)

  /** Everything outside the queue that decides one run of `process`: the log resend, the task row,
      whether vars_json decodes, and the send itself. */
  datatype Outcome = Outcome(resend: Delivery, task: Lookup, varsOk: bool, send: Delivery)

  /** The worker ends the job as done. */
  predicate Completes(logId: int, o: Outcome) {
    if logId > 0 then !o.resend.Panicked?
    else o.task.Gone? || o.task == Loaded(false) || (o.task == Loaded(true) && o.varsOk && o.send.Sent?)
  }

  /** A payload that does not decode is not retried. */
  predicate Hopeless(logId: int, o: Outcome) {
    logId <= 0 && o.task == Loaded(true) && !o.varsOk
  }

  predicate Holds(t: Table, id: int, inst: string) { id in t && HeldBy(t[id], inst) }

  ghost predicate Freed(k: Job) { k.claimedBy == None && k.claimedAt == None }

  ghost predicate Finished(j: Job, k: Job) { Freed(k) && k.status == Done && k.attempts == j.attempts }

  ghost predicate GivenBack(j: Job, k: Job, max: int, backoff: seq<int>, appNow: int) {
    && Freed(k) && k.attempts == j.attempts + 1
    && if k.attempts >= max then k.status == Failed
       else k.status == Pending && RetriesAfter(k.nextRetryAt, k.attempts, backoff, appNow)
  }

  /** The row a worker that holds the claim leaves behind: done, or one more attempt counted, and no more for a payload
      that does not decode. */
  ghost predicate Settled(j: Job, k: Job, logId: int, o: Outcome, cfg: Config, appNow: int) {
    if Completes(logId, o) then Finished(j, k)
    else if Hopeless(logId, o) then GivenBack(j, k, 1, [], appNow)
    else GivenBack(j, k, cfg.maxAttempts, cfg.backoff, appNow)
  }

  class Worker {
    const repo: SendJobRepo
    const inst: string
    const cfg: Config
    var lastRunAt: map<int, int>

    constructor (repo: SendJobRepo, inst: string, cfg: Config)
      ensures this.repo == repo && this.inst == inst && this.cfg == cfg && lastRunAt == map[]
    {
      this.repo, this.inst, this.cfg, lastRunAt := repo, inst, cfg, map[];
    }

    method Process(id: int, job: Job, o: Outcome, now: int, appNow: int) returns (ghost call: Call)
      requires repo.Valid() && 1 <= cfg.maxAttempts
      modifies this`lastRunAt, repo
      ensures repo.Valid()
      // whatever happens, the table sees one call of the run model, by this instance
      ensures Allowed(call, cfg) && IsCallBy(call, id, inst) && repo.jobs == Step(old(repo.jobs), call, cfg)
      // with the claim, the claim is given up and the outcome recorded; without it nothing changes
      ensures if Holds(old(repo.jobs), id, inst)
              then id in repo.jobs && Settled(old(repo.jobs)[id], repo.jobs[id], job.logId, o, cfg, appNow)
              else repo.jobs == old(repo.jobs)
      ensures lastRunAt == if Holds(old(repo.jobs), id, inst)
                              && job.logId <= 0 && o.task == Loaded(true) && Completes(job.logId, o)
                           then old(lastRunAt)[job.taskId := appNow] else old(lastRunAt)
    {
      if job.logId > 0 {
        if o.resend.Panicked? {
          call := GiveBack(id, "panic: " + o.resend.msg, cfg.maxAttempts, cfg.backoff, appNow);
        } else {
          var ok;
          ok, call := Complete(id, now);
        }
        return;
      }
      match o.task {
        case Gone =>
          var ok;
          ok, call := Complete(id, now);
        case DbError(msg) =>
          call := GiveBack(id, "transient error: " + msg, cfg.maxAttempts, cfg.backoff, appNow);
        case Loaded(enabled) =>
          if !enabled {
            var ok;
            ok, call := Complete(id, now);
          } else if !o.varsOk {
            call := GiveBack(id, "vars_json invalid", 1, [], appNow);
          } else {
            match o.send {
              case Rejected(msg) => call := GiveBack(id, msg, cfg.maxAttempts, cfg.backoff, appNow);
              case Panicked(msg) => call := GiveBack(id, "panic: " + msg, cfg.maxAttempts, cfg.backoff, appNow);
              case Sent =>
                var ok;
                ok, call := Complete(id, now);
                if ok {
                  lastRunAt := lastRunAt[job.taskId := appNow];
                }
            }
          }
      }
    }

    /** Without the claim nothing changes. */
    method Complete(id: int, now: int) returns (ok: bool, ghost call: Call)
      requires repo.Valid()
      modifies repo
      ensures repo.Valid() && Allowed(call, cfg) && IsCallBy(call, id, inst)
              && repo.jobs == Step(old(repo.jobs), call, cfg)
      ensures ok <==> Holds(old(repo.jobs), id, inst)
      ensures if ok then id in repo.jobs && Finished(old(repo.jobs)[id], repo.jobs[id]) else repo.jobs == old(repo.jobs)
    {
      call := OneRow(id, Finish(inst, now));
      ok := repo.MarkDone(id, inst, now);
    }

    method GiveBack(id: int, err: string, max: int, backoff: seq<int>, appNow: int) returns (ghost call: Call)
      requires repo.Valid() && 1 <= max <= cfg.maxAttempts
      modifies repo
      ensures repo.Valid() && Allowed(call, cfg) && IsCallBy(call, id, inst)
              && repo.jobs == Step(old(repo.jobs), call, cfg)
      ensures if Holds(old(repo.jobs), id, inst)
              then id in repo.jobs && GivenBack(old(repo.jobs)[id], repo.jobs[id], max, backoff, appNow)
              else repo.jobs == old(repo.jobs)
    {
      call := OneRow(id, Fail(inst, err, max, backoff, appNow));
      var ok := repo.MarkFailed(id, inst, err, max, backoff, appNow);
    }
  }
}
