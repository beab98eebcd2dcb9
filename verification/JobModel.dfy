/** Jobs and the lock-guarded registry of pipeline/queue.py. */
module JobModel {
  import opened Models

  type Id = string

  datatype JobStatus = Queued | Running | Done | Failed | Cancelled {
    predicate Terminal() {
      Done? || Failed? || Cancelled?
    }
  }

  datatype Outcome = NoOutcome | Result(findings: seq<Finding>) | Error(message: string)

  datatype Job = Job(jobId: Id, status: JobStatus, files: seq<string>, submittedBy: string, outcome: Outcome)

  type Jobs = map<Id, Job>

  /** `cancel_if_queued` on the stored jobs. */
  function CancelledIfQueued(jobs: Jobs, id: Id): Jobs {
    if id in jobs && jobs[id].status.Queued? then jobs[id := jobs[id].(status := Cancelled)] else jobs
  }

  /** `start_if_runnable` on the stored jobs; `token` is the flag of the registered token, if any. */
  function ClaimedIfRunnable(jobs: Jobs, token: Option<bool>, id: Id): (Jobs, Option<Job>) {
    if id !in jobs || token.None? || !jobs[id].status.Queued? then (jobs, None)
    else if token.value then (jobs[id := jobs[id].(status := Cancelled)], None)
    else
      var running := jobs[id].(status := Running);
      (jobs[id := running], Some(running))
  }

  class CancelToken {
    var isSet: bool

    constructor ()
      ensures !isSet
    {
      isSet := false;
    }

    method Cancel()
      modifies this
      ensures isSet
    {
      isSet := true;
    }
  }

  /** Each method body is one region under the registry's lock; `writes` counts those that may
      change it. */
  class JobRegistry {
    var jobs: Jobs
    var tokens: map<Id, CancelToken>
    ghost var writes: nat

    constructor ()
      ensures jobs == map[] && tokens == map[] && writes == 0
    {
      jobs, tokens, writes := map[], map[], 0;
    }

    method Add(job: Job, token: CancelToken)
      modifies this
      ensures jobs == old(jobs)[job.jobId := job] && tokens == old(tokens)[job.jobId := token]
      ensures writes == old(writes) + 1
    {
      writes := writes + 1;
      jobs := jobs[job.jobId := job];
      tokens := tokens[job.jobId := token];
    }

    method Get(id: Id) returns (job: Option<Job>)
      ensures job == if id in jobs then Some(jobs[id]) else None
    {
      job := if id in jobs then Some(jobs[id]) else None;
    }

    method Token(id: Id) returns (token: CancelToken?)
      ensures if id in tokens then token == tokens[id] else token == null
    {
      token := if id in tokens then tokens[id] else null;
    }

    method Replace(job: Job)
      modifies this`jobs, this`writes
      ensures jobs == old(jobs)[job.jobId := job] && writes == old(writes) + 1
    {
      writes := writes + 1;
      jobs := jobs[job.jobId := job];
    }

    method Remove(id: Id)
      modifies this
      ensures jobs == old(jobs) - {id} && tokens == old(tokens) - {id} && writes == old(writes) + 1
    {
      writes := writes + 1;
      jobs := jobs - {id};
      tokens := tokens - {id};
    }

    method CancelIfQueued(id: Id) returns (flipped: bool)
      modifies this`jobs, this`writes
      ensures jobs == CancelledIfQueued(old(jobs), id) && writes == old(writes) + 1
      ensures flipped <==> id in old(jobs) && old(jobs)[id].status.Queued?
    {
      writes := writes + 1;
      if id !in jobs || !jobs[id].status.Queued? {
        return false;
      }
      jobs := jobs[id := jobs[id].(status := Cancelled)];
      return true;
    }

    ghost function TokenFlag(id: Id): Option<bool>
      reads this, if id in tokens then {tokens[id]} else {}
    {
      if id in tokens then Some(tokens[id].isSet) else None
    }

    method StartIfRunnable(id: Id) returns (claimed: Option<Job>)
      modifies this`jobs, this`writes
      ensures (jobs, claimed) == ClaimedIfRunnable(old(jobs), old(TokenFlag(id)), id) && writes == old(writes) + 1
    {
      writes := writes + 1;
      if id !in jobs || id !in tokens || !jobs[id].status.Queued? {
        return None;
      }
      if tokens[id].isSet {
        jobs := jobs[id := jobs[id].(status := Cancelled)];
        return None;
      }
      var running := jobs[id].(status := Running);
      jobs := jobs[id := running];
      return Some(running);
    }
  }
}
