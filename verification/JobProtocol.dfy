/** The job queue as a transition system. Submitters, cancellers, a shutdown caller and a fixed
    pool of workers interleave freely; every action is one region under a lock, one queue
    operation or one flag access of pipeline/queue.py. */
module JobProtocol {
  import opened Models
  import opened JobModel

  /** Who holds the lifecycle lock, and how far it got. */
  datatype Lock =
    | Free
    | Checking(job: Job)
    | Adding(job: Job)
    | Putting(job: Job)
    | Removing(job: Job)
    | Leaving
    | Stopping

  /** Where a worker thread is in `_work_loop` and `_process`. `afterFlag` records whether the
      shutdown flag was already set when the worker last saw the queue empty. */
  datatype Phase =
    | Polling
    | SawEmpty(afterFlag: bool)
    | Dequeued(id: Id)
    | Claimed(job: Job)
    | InRun(job: Job)
    | Finished(final: Job)
    | InCallback(final: Job)
    | CallbackDone(final: Job)
    | Exited(afterFlag: bool)

  /** Where a `cancel` call is. */
  datatype CancelPhase =
    | TokenRead(id: Id, found: bool)
    | JobRead(id: Id, found: bool, seen: Option<Job>)
    | TokenSet(id: Id)
    | Returned(id: Id, found: bool, result: bool)

  /** What has happened so far; no action depends on it except that job ids are never reused. */
  datatype History = History(
    used: set<Id>,
    accepted: set<Id>,
    refused: set<Id>,
    owner: map<Id, nat>,
    runs: multiset<Id>,
    callbacks: multiset<Id>)

  datatype State = State(
    jobs: Jobs,
    tokens: set<Id>,
    flags: set<Id>,
    pending: seq<Id>,
    maxPending: nat,
    stopping: bool,
    lock: Lock,
    workers: seq<Phase>,
    hasCallback: bool,
    cancels: map<nat, CancelPhase>,
    log: History)

  datatype RunResult = RunReturned(findings: seq<Finding>) | RunAborted | RunRaised(message: string)

  datatype Action =
    | Acquire(job: Job)
    | Check
    | Add
    | Put
    | Remove
    | Release
    | AcquireToStop
    | SetFlag
    | Poll(w: nat)
    | TestFlag(w: nat)
    | Claim(w: nat)
    | StartRun(w: nat)
    | FinishRun(w: nat, result: RunResult)
    | CallOnDone(w: nat)
    | ReturnFromOnDone(w: nat)
    | Publish(w: nat)
    | ReadToken(c: nat, id: Id)
    | ReadJob(c: nat)
    | SetToken(c: nat)
    | FlipIfQueued(c: nat)

  function Initial(maxPending: nat, workers: nat, hasCallback: bool): State {
    State(map[], {}, {}, [], maxPending, false, Free, seq(workers, _ => Polling), hasCallback, map[],
          History({}, {}, {}, map[], multiset{}, multiset{}))
  }

  predicate WorkerAction(a: Action) {
    || a.Poll? || a.TestFlag? || a.Claim? || a.StartRun?
    || a.FinishRun? || a.CallOnDone? || a.ReturnFromOnDone? || a.Publish?
  }

  predicate CancelAction(a: Action) {
    a.ReadToken? || a.ReadJob? || a.SetToken? || a.FlipIfQueued?
  }

  predicate Enabled(s: State, a: Action) {
    match a
    case Acquire(job) => s.lock.Free? && job.jobId !in s.log.used && job.status.Queued? && job.outcome.NoOutcome?
    case Check => s.lock.Checking?
    case Add => s.lock.Adding?
    case Put => s.lock.Putting?
    case Remove => s.lock.Removing?
    case Release => s.lock.Leaving?
    case AcquireToStop => s.lock.Free?
    case SetFlag => s.lock.Stopping?
    case Poll(w) => w < |s.workers| && s.workers[w].Polling?
    case TestFlag(w) => w < |s.workers| && s.workers[w].SawEmpty?
    case Claim(w) => w < |s.workers| && s.workers[w].Dequeued?
    case StartRun(w) => w < |s.workers| && s.workers[w].Claimed?
    case FinishRun(w, _) => w < |s.workers| && s.workers[w].InRun?
    case CallOnDone(w) => w < |s.workers| && s.workers[w].Finished? && s.workers[w].final.status.Done? && s.hasCallback
    case ReturnFromOnDone(w) => w < |s.workers| && s.workers[w].InCallback?
    case Publish(w) =>
      w < |s.workers| && (s.workers[w].CallbackDone?
                          || (s.workers[w].Finished? && !(s.workers[w].final.status.Done? && s.hasCallback)))
    case ReadToken(c, _) => c !in s.cancels
    case ReadJob(c) => c in s.cancels && s.cancels[c].TokenRead?
    case SetToken(c) => c in s.cancels && s.cancels[c].JobRead?
    case FlipIfQueued(c) => c in s.cancels && s.cancels[c].TokenSet?
  }

  function WithPhase(s: State, w: nat, p: Phase): State
    requires w < |s.workers|
  {
    s.(workers := s.workers[w := p])
  }

  /** `None` when the token is missing, otherwise whether it is set. */
  function TokenFlag(s: State, id: Id): Option<bool> {
    if id in s.tokens then Some(id in s.flags) else None
  }

  /** The record published when `worker.run` returns or raises. */
  function FinalRecord(job: Job, result: RunResult): Job {
    match result
    case RunReturned(findings) => job.(status := Done, outcome := Result(findings))
    case RunAborted => job.(status := Cancelled)
    case RunRaised(message) => job.(status := Failed, outcome := Error(message))
  }

  // Submission and shutdown -----------------------------------------------------

  function DoCheck(s: State): State
    requires Enabled(s, Check)
  {
    if s.stopping then s.(lock := Leaving, log := s.log.(refused := s.log.refused + {s.lock.job.jobId}))
    else s.(lock := Adding(s.lock.job))
  }

  function DoAdd(s: State): State
    requires Enabled(s, Add)
  {
    var id := s.lock.job.jobId;
    s.(jobs := s.jobs[id := s.lock.job], tokens := s.tokens + {id}, lock := Putting(s.lock.job))
  }

  function DoPut(s: State): State
    requires Enabled(s, Put)
  {
    var id := s.lock.job.jobId;
    if |s.pending| < s.maxPending then
      s.(pending := s.pending + [id], lock := Leaving, log := s.log.(accepted := s.log.accepted + {id}))
    else
      s.(lock := Removing(s.lock.job))
  }

  function DoRemove(s: State): State
    requires Enabled(s, Remove)
  {
    var id := s.lock.job.jobId;
    s.(jobs := s.jobs - {id}, tokens := s.tokens - {id}, lock := Leaving,
        log := s.log.(refused := s.log.refused + {id}))
  }

  // Workers ---------------------------------------------------------------------

  function DoPoll(s: State, w: nat): State
    requires Enabled(s, Poll(w))
  {
    if s.pending == [] then WithPhase(s, w, SawEmpty(s.stopping))
    else
      var id := s.pending[0];
      WithPhase(s, w, Dequeued(id)).(pending := s.pending[1..], log := s.log.(owner := s.log.owner[id := w]))
  }

  function DoTestFlag(s: State, w: nat): State
    requires Enabled(s, TestFlag(w))
  {
    WithPhase(s, w, if s.stopping then Exited(s.workers[w].afterFlag) else Polling)
  }

  function DoClaim(s: State, w: nat): State
    requires Enabled(s, Claim(w))
  {
    var id := s.workers[w].id;
    var (jobs, claimed) := ClaimedIfRunnable(s.jobs, TokenFlag(s, id), id);
    WithPhase(s, w, if claimed.Some? then Claimed(claimed.value) else Polling).(jobs := jobs)
  }

  function DoStartRun(s: State, w: nat): State
    requires Enabled(s, StartRun(w))
  {
    var job := s.workers[w].job;
    if job.jobId !in s.tokens then WithPhase(s, w, Polling)
    else WithPhase(s, w, InRun(job)).(log := s.log.(runs := s.log.runs + multiset{job.jobId}))
  }

  function DoFinishRun(s: State, w: nat, result: RunResult): State
    requires Enabled(s, FinishRun(w, result))
  {
    WithPhase(s, w, Finished(FinalRecord(s.workers[w].job, result)))
  }

  function DoReturnFromOnDone(s: State, w: nat): State
    requires Enabled(s, ReturnFromOnDone(w))
  {
    var final := s.workers[w].final;
    WithPhase(s, w, CallbackDone(final)).(log := s.log.(callbacks := s.log.callbacks + multiset{final.jobId}))
  }

  function DoPublish(s: State, w: nat): State
    requires Enabled(s, Publish(w))
  {
    var final := s.workers[w].final;
    WithPhase(s, w, Polling).(jobs := s.jobs[final.jobId := final])
  }

  // Cancellers ------------------------------------------------------------------

  function WithCancel(s: State, c: nat, p: CancelPhase): State {
    s.(cancels := s.cancels[c := p])
  }

  function DoReadJob(s: State, c: nat): State
    requires Enabled(s, ReadJob(c))
  {
    var id := s.cancels[c].id;
    WithCancel(s, c, JobRead(id, s.cancels[c].found, if id in s.jobs then Some(s.jobs[id]) else None))
  }

  function DoSetToken(s: State, c: nat): State
    requires Enabled(s, SetToken(c))
  {
    var p := s.cancels[c];
    if !p.found || p.seen.None? || p.seen.value.status.Terminal() then WithCancel(s, c, Returned(p.id, p.found, false))
    else WithCancel(s, c, TokenSet(p.id)).(flags := s.flags + {p.id})
  }

  function DoFlipIfQueued(s: State, c: nat): State
    requires Enabled(s, FlipIfQueued(c))
  {
    var id := s.cancels[c].id;
    WithCancel(s, c, Returned(id, true, true)).(jobs := CancelledIfQueued(s.jobs, id))
  }

  function Apply(s: State, a: Action): State
    requires Enabled(s, a)
  {
    match a
    case Acquire(job) => s.(lock := Checking(job), log := s.log.(used := s.log.used + {job.jobId}))
    case Check => DoCheck(s)
    case Add => DoAdd(s)
    case Put => DoPut(s)
    case Remove => DoRemove(s)
    case Release => s.(lock := Free)
    case AcquireToStop => s.(lock := Stopping)
    case SetFlag => s.(stopping := true, lock := Leaving)
    case Poll(w) => DoPoll(s, w)
    case TestFlag(w) => DoTestFlag(s, w)
    case Claim(w) => DoClaim(s, w)
    case StartRun(w) => DoStartRun(s, w)
    case FinishRun(w, result) => DoFinishRun(s, w, result)
    case CallOnDone(w) => WithPhase(s, w, InCallback(s.workers[w].final))
    case ReturnFromOnDone(w) => DoReturnFromOnDone(s, w)
    case Publish(w) => DoPublish(s, w)
    case ReadToken(c, id) => WithCancel(s, c, TokenRead(id, id in s.tokens))
    case ReadJob(c) => DoReadJob(s, c)
    case SetToken(c) => DoSetToken(s, c)
    case FlipIfQueued(c) => DoFlipIfQueued(s, c)
  }

  /** The state after a sequence of actions, or `None` if one of them cannot happen. */
  function After(s: State, acts: seq<Action>): Option<State> {
    if acts == [] then Some(s)
    else
      var mid := After(s, acts[..|acts| - 1]);
      if mid.Some? && Enabled(mid.value, acts[|acts| - 1]) then Some(Apply(mid.value, acts[|acts| - 1])) else None
  }

  // ---------------------------------------------------------------------------
  // The invariant
  // ---------------------------------------------------------------------------

  /** The job id in a worker's hands. */
  function Held(p: Phase): Option<Id> {
    match p
    case Dequeued(id) => Some(id)
    case Claimed(job) => Some(job.jobId)
    case InRun(job) => Some(job.jobId)
    case Finished(final) => Some(final.jobId)
    case InCallback(final) => Some(final.jobId)
    case CallbackDone(final) => Some(final.jobId)
    case _ => None
  }

  /** The worker has claimed the job and not yet published. */
  predicate HasClaimed(p: Phase) {
    Held(p).Some? && !p.Dequeued?
  }

  predicate InSubmission(s: State, id: Id) {
    (s.lock.Putting? || s.lock.Removing?) && s.lock.job.jobId == id
  }

  ghost predicate NotStarted(s: State, id: Id) {
    id in s.jobs && (s.jobs[id].status.Queued? || s.jobs[id].status.Cancelled?)
    && s.log.runs[id] == 0 && s.log.callbacks[id] == 0
  }

  /** `final` is what the run of the registered, running job left to publish. */
  ghost predicate Ends(job: Job, final: Job) {
    job.status.Running? && final.status.Terminal()
    && final.jobId == job.jobId && final.files == job.files && final.submittedBy == job.submittedBy
  }

  ghost predicate LockOk(s: State) {
    match s.lock
    case Checking(job) => FreshJob(s, job)
    case Adding(job) => FreshJob(s, job) && !s.stopping
    case Putting(job) => Submitted(s, job.jobId)
    case Removing(job) => Submitted(s, job.jobId)
    case _ => true
  }

  ghost predicate FreshJob(s: State, job: Job) {
    job.status.Queued? && job.outcome.NoOutcome? && job.jobId in s.log.used
    && job.jobId !in s.jobs && job.jobId !in s.log.refused
  }

  ghost predicate Submitted(s: State, id: Id) {
    !s.stopping && NotStarted(s, id) && id !in s.log.accepted
  }

  ghost predicate PhaseOk(s: State, w: nat, p: Phase) {
    match p
    case Polling => true
    case SawEmpty(afterFlag) => afterFlag ==> s.stopping && s.pending == []
    case Exited(afterFlag) => s.stopping && (afterFlag ==> s.pending == [])
    case Dequeued(id) => Owns(s, w, id) && NotStarted(s, id)
    case Claimed(job) => Owns(s, w, job.jobId) && s.jobs[job.jobId] == job && job.status.Running?
        && Progress(s, job.jobId, 0, 0)
    case InRun(job) => Owns(s, w, job.jobId) && s.jobs[job.jobId] == job && job.status.Running?
        && Progress(s, job.jobId, 1, 0)
    case Finished(final) => Owns(s, w, final.jobId) && Ends(s.jobs[final.jobId], final)
        && Progress(s, final.jobId, 1, 0)
    case InCallback(final) =>
      Owns(s, w, final.jobId) && Ends(s.jobs[final.jobId], final) && Progress(s, final.jobId, 1, 0)
          && final.status.Done? && s.hasCallback
    case CallbackDone(final) =>
      Owns(s, w, final.jobId) && Ends(s.jobs[final.jobId], final) && Progress(s, final.jobId, 1, 1)
          && final.status.Done? && s.hasCallback
  }

  ghost predicate Owns(s: State, w: nat, id: Id) {
    id in s.log.accepted && id in s.jobs && id !in s.pending && id in s.log.owner && s.log.owner[id] == w
  }

  ghost predicate Progress(s: State, id: Id, runs: nat, callbacks: nat) {
    s.log.runs[id] == runs && s.log.callbacks[id] == callbacks
  }

  /** The owner of an accepted, unfinished job that has left the queue holds it, and has claimed
      it if it is running. */
  ghost predicate OwnerHolds(s: State, id: Id)
    requires id in s.jobs
  {
    id in s.log.owner && s.log.owner[id] < |s.workers|
    && Held(s.workers[s.log.owner[id]]) == Some(id)
    && (s.jobs[id].status.Running? ==> HasClaimed(s.workers[s.log.owner[id]]))
  }

  ghost predicate StatusOk(s: State, id: Id)
    requires id in s.jobs
  {
    match s.jobs[id].status
    case Queued => Progress(s, id, 0, 0)
    case Running => id in s.log.accepted && s.log.runs[id] <= 1 && s.log.callbacks[id] <= 1
    case Done => Progress(s, id, 1, if s.hasCallback then 1 else 0)
    case Failed => Progress(s, id, 1, 0)
    case Cancelled => s.log.runs[id] <= 1 && s.log.callbacks[id] == 0
  }

  /** Everything the invariant says about one job id. */
  ghost predicate RecordOk(s: State, id: Id) {
    && (id in s.tokens <==> id in s.jobs)
    && (id in s.jobs || id in s.log.refused ==> id in s.log.used)
    && (id in s.log.accepted ==> id in s.jobs)
    && (id in s.log.refused ==> id !in s.jobs)
    && (id in s.log.owner ==> id in s.log.accepted)
    && (id !in s.log.accepted ==> Progress(s, id, 0, 0))
    && (id in s.pending ==> id in s.log.accepted && id !in s.log.owner && NotStarted(s, id))
    && (id in s.jobs ==>
          && s.jobs[id].jobId == id
          && (id in s.log.accepted || InSubmission(s, id))
          && StatusOk(s, id)
          && (id in s.log.accepted && !s.jobs[id].status.Terminal() && id !in s.pending ==> OwnerHolds(s, id)))
  }

  ghost predicate QueueOk(s: State) {
    && |s.pending| <= s.maxPending && s.flags <= s.log.used
    && (forall i, j | 0 <= i < j < |s.pending| :: s.pending[i] != s.pending[j])
  }

  /** The id has been registered at some time. */
  ghost predicate Known(s: State, id: Id) {
    id in s.log.used && (id in s.jobs || id in s.log.refused)
  }

  /** Rejected at submission, or finished. */
  ghost predicate Over(s: State, id: Id) {
    id in s.log.refused || (id in s.jobs && s.jobs[id].status.Terminal())
  }

  ghost predicate CancelOk(s: State, p: CancelPhase) {
    match p
    case TokenRead(id, found) => found ==> Known(s, id)
    case JobRead(id, found, seen) =>
      found ==>
        Known(s, id) && (seen.None? ==> Over(s, id))
        && (seen.Some? && seen.value.status.Terminal() ==> Over(s, id))
    case TokenSet(id) => Known(s, id) && id in s.flags
    case Returned(id, found, result) => (result ==> id in s.flags) && (found && !result ==> Over(s, id))
  }

  ghost predicate Inv(s: State) {
    && QueueOk(s)
    && LockOk(s)
    && (forall w: nat | w < |s.workers| :: PhaseOk(s, w, s.workers[w]))
    && (forall id :: RecordOk(s, id))
    && (forall c | c in s.cancels :: CancelOk(s, s.cancels[c]))
  }

  lemma InitialInv(maxPending: nat, workers: nat, hasCallback: bool)
    ensures Inv(Initial(maxPending, workers, hasCallback))
  {
  }

  // ---------------------------------------------------------------------------
  // Every action keeps the invariant
  // ---------------------------------------------------------------------------

  function ActingWorker(a: Action): Option<nat> {
    if WorkerAction(a) then Some(a.w) else None
  }

  /** The id whose record or place action `a` may change. */
  function Touched(s: State, a: Action): Option<Id>
    requires Enabled(s, a)
  {
    match a
    case Check => Some(s.lock.job.jobId)
    case Add => Some(s.lock.job.jobId)
    case Put => Some(s.lock.job.jobId)
    case Remove => Some(s.lock.job.jobId)
    case Poll(_) => if s.pending == [] then None else Some(s.pending[0])
    case Claim(w) => Some(s.workers[w].id)
    case StartRun(w) => Some(s.workers[w].job.jobId)
    case FinishRun(w, _) => Some(s.workers[w].job.jobId)
    case CallOnDone(w) => Some(s.workers[w].final.jobId)
    case ReturnFromOnDone(w) => Some(s.workers[w].final.jobId)
    case Publish(w) => Some(s.workers[w].final.jobId)
    case FlipIfQueued(c) => Some(s.cancels[c].id)
    case _ => None
  }

  ghost predicate SameRecord(s: State, t: State, id: Id) {
    && (id in s.jobs <==> id in t.jobs) && (id in s.jobs ==> s.jobs[id] == t.jobs[id])
    && (id in s.tokens <==> id in t.tokens)
    && (id in s.log.used ==> id in t.log.used)
    && (id in s.log.accepted <==> id in t.log.accepted) && (id in s.log.refused <==> id in t.log.refused)
    && (id in s.log.owner <==> id in t.log.owner) && (id in s.log.owner ==> s.log.owner[id] == t.log.owner[id])
    && s.log.runs[id] == t.log.runs[id] && s.log.callbacks[id] == t.log.callbacks[id]
    && (id in s.pending <==> id in t.pending)
  }

  /** What no action ever takes back, and who may change a worker's phase. */
  ghost predicate Grows(s: State, a: Action, t: State) {
    && t.hasCallback == s.hasCallback && t.maxPending == s.maxPending && (s.stopping ==> t.stopping)
    && s.flags <= t.flags && s.log.used <= t.log.used && s.log.refused <= t.log.refused
    && s.log.accepted <= t.log.accepted && s.log.callbacks <= t.log.callbacks
    && |t.workers| == |s.workers|
    && (forall w: nat | w < |s.workers| && ActingWorker(a) != Some(w) :: t.workers[w] == s.workers[w])
  }

  lemma StepGrows(s: State, a: Action)
    requires Enabled(s, a)
    ensures Grows(s, a, Apply(s, a))
  {
    if WorkerAction(a) {
      hide Apply;
      if a.StartRun? || a.Poll? || a.ReturnFromOnDone? {
        LoggingStepGrows(s, a);
      } else {
        WorkerStepGrows(s, a);
      }
    } else if CancelAction(a) {
      CancelStepGrows(s, a);
    }
  }

  lemma LoggingStepGrows(s: State, a: Action)
    requires Enabled(s, a) && (a.StartRun? || a.Poll? || a.ReturnFromOnDone?)
    ensures Grows(s, a, Apply(s, a))
  {
    hide Grows;
    if a.Poll? {
      PollGrows(s, a.w);
    } else if a.StartRun? {
      StartRunGrows(s, a.w);
    } else {
      ReturnGrows(s, a.w);
    }
  }

  lemma PollGrows(s: State, w: nat)
    requires Enabled(s, Poll(w))
    ensures Grows(s, Poll(w), DoPoll(s, w))
  {
  }

  lemma StartRunGrows(s: State, w: nat)
    requires Enabled(s, StartRun(w))
    ensures Grows(s, StartRun(w), DoStartRun(s, w))
  {
  }

  lemma ReturnGrows(s: State, w: nat)
    requires Enabled(s, ReturnFromOnDone(w))
    ensures Grows(s, ReturnFromOnDone(w), DoReturnFromOnDone(s, w))
  {
  }

  lemma WorkerStepGrows(s: State, a: Action)
    requires Enabled(s, a) && WorkerAction(a) && !a.StartRun? && !a.Poll? && !a.ReturnFromOnDone?
    ensures Grows(s, a, Apply(s, a))
  {
    hide ClaimedIfRunnable, FinalRecord, TokenFlag;
  }

  lemma CancelStepGrows(s: State, a: Action)
    requires Enabled(s, a) && CancelAction(a)
    ensures Grows(s, a, Apply(s, a))
  {
  }

  lemma UntouchedRecord(s: State, a: Action, id: Id)
    requires Enabled(s, a) && Touched(s, a) != Some(id)
    ensures SameRecord(s, Apply(s, a), id)
  {
    hide Apply, SameRecord;
    if a.Poll? {
      UntouchedByPoll(s, a.w, id);
    } else if WorkerAction(a) {
      UntouchedByWorker(s, a, id);
    } else if CancelAction(a) {
      UntouchedByCancel(s, a, id);
    } else {
      UntouchedBySubmission(s, a, id);
    }
  }

  lemma UntouchedByCancel(s: State, a: Action, id: Id)
    requires CancelAction(a) && Enabled(s, a) && Touched(s, a) != Some(id)
    ensures SameRecord(s, Apply(s, a), id)
  {
  }

  lemma UntouchedBySubmission(s: State, a: Action, id: Id)
    requires !WorkerAction(a) && !CancelAction(a) && Enabled(s, a) && Touched(s, a) != Some(id)
    ensures SameRecord(s, Apply(s, a), id)
  {
  }

  lemma UntouchedByPoll(s: State, w: nat, id: Id)
    requires Enabled(s, Poll(w)) && Touched(s, Poll(w)) != Some(id)
    ensures SameRecord(s, Apply(s, Poll(w)), id)
  {
    if s.pending != [] {
      assert s.pending == [s.pending[0]] + s.pending[1..];
    }
  }

  lemma UntouchedByWorker(s: State, a: Action, id: Id)
    requires WorkerAction(a) && !a.Poll? && Enabled(s, a) && Touched(s, a) != Some(id)
    ensures SameRecord(s, Apply(s, a), id)
  {
    if a.Claim? {
      UntouchedByClaim(s, a.w, id);
    } else {
      UntouchedByLateWorker(s, a, id);
    }
  }

  lemma UntouchedByClaim(s: State, w: nat, id: Id)
    requires Enabled(s, Claim(w)) && s.workers[w].id != id
    ensures SameRecord(s, DoClaim(s, w), id)
  {
  }

  lemma UntouchedByLateWorker(s: State, a: Action, id: Id)
    requires WorkerAction(a) && !a.Poll? && !a.Claim? && Enabled(s, a) && Touched(s, a) != Some(id)
    ensures SameRecord(s, Apply(s, a), id)
  {
  }

  /** What the invariant says about the thread that takes action `a` and the id it works on. */
  ghost predicate Ready(s: State, a: Action) {
    && Enabled(s, a) && LockOk(s) && QueueOk(s)
    && (ActingWorker(a).Some? ==> PhaseOk(s, a.w, s.workers[a.w]))
    && (a.ReadJob? || a.SetToken? || a.FlipIfQueued? ==> CancelOk(s, s.cancels[a.c]))
    && (Touched(s, a).Some? ==> RecordOk(s, Touched(s, a).value))
  }

  lemma QueuedIsNotSubmitted(s: State, a: Action)
    requires Ready(s, a) && a.Put?
    ensures s.lock.job.jobId !in s.pending
  {
  }

  lemma QueueKept(s: State, a: Action)
    requires Ready(s, a)
    ensures QueueOk(Apply(s, a))
  {
    hide RecordOk, PhaseOk, ClaimedIfRunnable, FinalRecord;
    if a.Put? {
      QueuedIsNotSubmitted(s, a);
    }
  }

  lemma LockKept(s: State, a: Action)
    requires Ready(s, a)
    requires a.Acquire? ==> RecordOk(s, a.job.jobId)
    requires s.lock.Checking? || s.lock.Adding? ==> RecordOk(s, s.lock.job.jobId)
    ensures LockOk(Apply(s, a))
  {
    if WorkerAction(a) || CancelAction(a) {
      LockKeptByOthers(s, a);
    }
  }

  lemma WorkerTouchesAccepted(s: State, a: Action)
    requires Ready(s, a) && WorkerAction(a) && Touched(s, a).Some?
    ensures Touched(s, a).value in s.log.accepted
  {
  }

  lemma SharedFieldsStay(s: State, a: Action)
    requires Enabled(s, a) && (WorkerAction(a) || CancelAction(a))
    ensures Apply(s, a).lock == s.lock && Apply(s, a).stopping == s.stopping
  {
    if WorkerAction(a) {
      WorkerKeepsShared(s, a);
    } else {
      CancelKeepsShared(s, a);
    }
  }

  lemma WorkerKeepsShared(s: State, a: Action)
    requires Enabled(s, a) && WorkerAction(a)
    ensures Apply(s, a).lock == s.lock && Apply(s, a).stopping == s.stopping
  {
  }

  lemma WorkerKeepsCancels(s: State, a: Action)
    requires Enabled(s, a) && WorkerAction(a)
    ensures Apply(s, a).cancels == s.cancels && Apply(s, a).flags == s.flags
  {
  }

  lemma CancelKeepsShared(s: State, a: Action)
    requires Enabled(s, a) && CancelAction(a)
    ensures Apply(s, a).lock == s.lock && Apply(s, a).stopping == s.stopping
  {
  }

  lemma FlipKeepsLock(s: State, c: nat)
    requires Enabled(s, FlipIfQueued(c)) && LockOk(s)
    ensures LockOk(DoFlipIfQueued(s, c))
  {
  }

  lemma LockKeptByOthers(s: State, a: Action)
    requires Ready(s, a) && (WorkerAction(a) || CancelAction(a))
    requires s.lock.Checking? || s.lock.Adding? ==> RecordOk(s, s.lock.job.jobId)
    ensures LockOk(Apply(s, a))
  {
    SharedFieldsStay(s, a);
    if a.FlipIfQueued? {
      FlipKeepsLock(s, a.c);
    } else if s.lock.Checking? || s.lock.Adding? || s.lock.Putting? || s.lock.Removing? {
      assert s.lock.job.jobId !in s.log.accepted;
      if WorkerAction(a) && Touched(s, a).Some? {
        WorkerTouchesAccepted(s, a);
      }
      UntouchedRecord(s, a, s.lock.job.jobId);
      hide Apply, Enabled, RecordOk;
      LockFrame(s, Apply(s, a));
    }
  }

  lemma LockFrame(s: State, t: State)
    requires s.lock.Checking? || s.lock.Adding? || s.lock.Putting? || s.lock.Removing?
    requires LockOk(s) && t.lock == s.lock && t.stopping == s.stopping && SameRecord(s, t, s.lock.job.jobId)
    ensures LockOk(t)
  {
  }

  lemma ActorPhaseKept(s: State, a: Action)
    requires Ready(s, a) && WorkerAction(a)
    ensures PhaseOk(Apply(s, a), a.w, Apply(s, a).workers[a.w])
  {
    if a.Poll? || a.TestFlag? || a.Claim? {
      ActorPhaseKeptEarly(s, a);
    } else {
      ActorPhaseKeptLate(s, a);
    }
  }

  lemma ActorPhaseKeptEarly(s: State, a: Action)
    requires Ready(s, a) && (a.Poll? || a.TestFlag? || a.Claim?)
    ensures PhaseOk(Apply(s, a), a.w, Apply(s, a).workers[a.w])
  {
  }

  lemma ActorPhaseKeptLate(s: State, a: Action)
    requires Ready(s, a) && WorkerAction(a) && !a.Poll? && !a.TestFlag? && !a.Claim?
    ensures PhaseOk(Apply(s, a), a.w, Apply(s, a).workers[a.w])
  {
  }

  lemma EmptyQueueStaysEmpty(s: State, a: Action)
    requires Enabled(s, a) && LockOk(s) && s.stopping && s.pending == []
    ensures Apply(s, a).pending == []
  {
  }

  lemma OtherPhaseKept(s: State, a: Action, w: nat)
    requires Ready(s, a) && w < |s.workers| && ActingWorker(a) != Some(w)
    requires PhaseOk(s, w, s.workers[w])
    ensures w < |Apply(s, a).workers| && PhaseOk(Apply(s, a), w, Apply(s, a).workers[w])
  {
    hide Apply, Enabled, RecordOk;
    var p, t := s.workers[w], Apply(s, a);
    StepGrows(s, a);
    if Held(p).Some? {
      HeldByOther(s, a, w, Held(p).value);
      if Touched(s, a) == Held(p) {
        PhaseKeptByFlip(s, a.c, w, p);
      } else {
        UntouchedRecord(s, a, Held(p).value);
        HeldPhaseFrame(s, t, w, p);
      }
    } else if s.stopping && s.pending == [] {
      EmptyQueueStaysEmpty(s, a);
    }
  }

  lemma HeldByOther(s: State, a: Action, w: nat, id: Id)
    requires Ready(s, a) && w < |s.workers| && ActingWorker(a) != Some(w) && Owns(s, w, id)
    ensures Touched(s, a) == Some(id) ==> a.FlipIfQueued?
  {
  }

  lemma PhaseKeptByFlip(s: State, c: nat, w: nat, p: Phase)
    requires Enabled(s, FlipIfQueued(c)) && PhaseOk(s, w, p)
    ensures PhaseOk(Apply(s, FlipIfQueued(c)), w, p)
  {
  }

  lemma HeldPhaseFrame(s: State, t: State, w: nat, p: Phase)
    requires Held(p).Some? && SameRecord(s, t, Held(p).value) && t.hasCallback == s.hasCallback
    requires PhaseOk(s, w, p)
    ensures PhaseOk(t, w, p)
  {
  }

  lemma TouchedRecordKept(s: State, a: Action)
    requires Ready(s, a) && Touched(s, a).Some?
    ensures RecordOk(Apply(s, a), Touched(s, a).value)
  {
    if WorkerAction(a) {
      if a.Poll? || a.Claim? {
        TouchedByEarlyWorker(s, a);
      } else {
        TouchedByLateWorker(s, a);
      }
    } else if CancelAction(a) {
      TouchedByCancel(s, a);
    } else {
      TouchedBySubmission(s, a);
    }
  }

  lemma TouchedByEarlyWorker(s: State, a: Action)
    requires Ready(s, a) && (a.Poll? || a.Claim?) && Touched(s, a).Some?
    ensures RecordOk(Apply(s, a), Touched(s, a).value)
  {
  }

  lemma TouchedByLateWorker(s: State, a: Action)
    requires Ready(s, a) && WorkerAction(a) && !a.Poll? && !a.Claim? && Touched(s, a).Some?
    ensures RecordOk(Apply(s, a), Touched(s, a).value)
  {
    hide ClaimedIfRunnable, CancelledIfQueued, LockOk, CancelOk;
  }

  lemma TouchedByCancel(s: State, a: Action)
    requires Ready(s, a) && CancelAction(a) && Touched(s, a).Some?
    ensures RecordOk(Apply(s, a), Touched(s, a).value)
  {
  }

  lemma TouchedBySubmission(s: State, a: Action)
    requires Ready(s, a) && !WorkerAction(a) && !CancelAction(a) && Touched(s, a).Some?
    ensures RecordOk(Apply(s, a), Touched(s, a).value)
  {
  }

  lemma OwnerStillHolds(s: State, a: Action, id: Id)
    requires Ready(s, a) && Touched(s, a) != Some(id) && id in s.jobs && OwnerHolds(s, id)
    requires id in Apply(s, a).jobs && SameRecord(s, Apply(s, a), id)
    ensures OwnerHolds(Apply(s, a), id)
  {
    hide Apply;
    StepGrows(s, a);
  }

  lemma RecordFrame(s: State, t: State, id: Id)
    requires RecordOk(s, id) && SameRecord(s, t, id) && s.hasCallback == t.hasCallback
    requires InSubmission(s, id) ==> InSubmission(t, id)
    requires id in s.jobs && OwnerHolds(s, id) ==> OwnerHolds(t, id)
    ensures RecordOk(t, id)
  {
  }

  lemma SubmissionStays(s: State, a: Action, id: Id)
    requires Enabled(s, a) && Touched(s, a) != Some(id) && InSubmission(s, id)
    ensures InSubmission(Apply(s, a), id)
  {
  }

  lemma OtherRecordKept(s: State, a: Action, id: Id)
    requires Ready(s, a) && Touched(s, a) != Some(id) && RecordOk(s, id)
    ensures RecordOk(Apply(s, a), id)
  {
    hide Apply, Enabled, RecordOk;
    UntouchedRecord(s, a, id);
    StepGrows(s, a);
    if InSubmission(s, id) {
      SubmissionStays(s, a, id);
    }
    if id in s.jobs && OwnerHolds(s, id) {
      OwnerStillHolds(s, a, id);
    }
    RecordFrame(s, Apply(s, a), id);
  }

  lemma OverStays(s: State, a: Action, id: Id)
    requires Ready(s, a) && RecordOk(s, id)
    ensures Known(s, id) ==> Known(Apply(s, a), id)
    ensures Over(s, id) ==> Over(Apply(s, a), id)
  {
    StepGrows(s, a);
    if Touched(s, a) != Some(id) {
      UntouchedRecord(s, a, id);
    } else if WorkerAction(a) {
      WorkerKeepsOver(s, a, id);
    }
  }

  lemma WorkerKeepsOver(s: State, a: Action, id: Id)
    requires Ready(s, a) && RecordOk(s, id) && WorkerAction(a) && Touched(s, a) == Some(id)
    ensures Known(Apply(s, a), id) && (Over(s, id) ==> Over(Apply(s, a), id))
  {
  }

  lemma CancelFrame(s: State, t: State, p: CancelPhase)
    requires CancelOk(s, p)
    requires Known(s, p.id) ==> Known(t, p.id)
    requires Over(s, p.id) ==> Over(t, p.id)
    requires p.id in s.flags ==> p.id in t.flags
    ensures CancelOk(t, p)
  {
  }

  lemma OwnCancelKept(s: State, a: Action)
    requires Enabled(s, a) && CancelAction(a)
    requires a.ReadToken? || CancelOk(s, s.cancels[a.c])
    requires RecordOk(s, if a.ReadToken? then a.id else s.cancels[a.c].id)
    ensures a.c in Apply(s, a).cancels && CancelOk(Apply(s, a), Apply(s, a).cancels[a.c])
  {
    hide CancelOk;
    if a.ReadToken? || a.ReadJob? {
      ReadsKept(s, a);
    } else if a.SetToken? {
      SetTokenKept(s, a.c);
    } else {
      FlipKept(s, a.c);
    }
  }

  lemma ReadsKept(s: State, a: Action)
    requires Enabled(s, a) && (a.ReadToken? || a.ReadJob?)
    requires a.ReadToken? || CancelOk(s, s.cancels[a.c])
    requires RecordOk(s, if a.ReadToken? then a.id else s.cancels[a.c].id)
    ensures a.c in Apply(s, a).cancels && CancelOk(Apply(s, a), Apply(s, a).cancels[a.c])
  {
  }

  lemma SetTokenKept(s: State, c: nat)
    requires Enabled(s, SetToken(c)) && CancelOk(s, s.cancels[c]) && RecordOk(s, s.cancels[c].id)
    ensures c in DoSetToken(s, c).cancels && CancelOk(DoSetToken(s, c), DoSetToken(s, c).cancels[c])
  {
  }

  lemma FlipKept(s: State, c: nat)
    requires Enabled(s, FlipIfQueued(c)) && CancelOk(s, s.cancels[c]) && RecordOk(s, s.cancels[c].id)
    ensures c in DoFlipIfQueued(s, c).cancels && CancelOk(DoFlipIfQueued(s, c), DoFlipIfQueued(s, c).cancels[c])
  {
  }

  lemma OtherCancelsStay(s: State, a: Action, c: nat)
    requires Enabled(s, a) && !(CancelAction(a) && a.c == c) && c in Apply(s, a).cancels
    ensures c in s.cancels && Apply(s, a).cancels[c] == s.cancels[c]
  {
    hide Apply;
    if WorkerAction(a) {
      WorkerKeepsCancels(s, a);
    } else if CancelAction(a) {
      CancelLeavesOthers(s, a, c);
    } else {
      SubmissionKeepsCancels(s, a);
    }
  }

  lemma CancelLeavesOthers(s: State, a: Action, c: nat)
    requires Enabled(s, a) && CancelAction(a) && a.c != c && c in Apply(s, a).cancels
    ensures c in s.cancels && Apply(s, a).cancels[c] == s.cancels[c]
  {
  }

  lemma SubmissionKeepsCancels(s: State, a: Action)
    requires Enabled(s, a) && !WorkerAction(a) && !CancelAction(a)
    ensures Apply(s, a).cancels == s.cancels
  {
  }

  lemma CancelKept(s: State, a: Action, c: nat)
    requires Inv(s) && Ready(s, a) && c in Apply(s, a).cancels
    ensures CancelOk(Apply(s, a), Apply(s, a).cancels[c])
  {
    hide Apply, RecordOk, LockOk, PhaseOk, CancelOk, QueueOk;
    if CancelAction(a) && a.c == c {
      OwnCancelKept(s, a);
    } else {
      hide Enabled;
      OtherCancelsStay(s, a, c);
      StepGrows(s, a);
      OverStays(s, a, s.cancels[c].id);
      CancelFrame(s, Apply(s, a), s.cancels[c]);
    }
  }

  lemma InvariantIsReady(s: State, a: Action)
    requires Inv(s) && Enabled(s, a)
    ensures Ready(s, a)
  {
    hide Touched, RecordOk, LockOk, PhaseOk, CancelOk, QueueOk;
  }

  lemma PhasesKept(s: State, a: Action)
    requires Inv(s) && Ready(s, a)
    ensures forall w: nat | w < |Apply(s, a).workers| :: PhaseOk(Apply(s, a), w, Apply(s, a).workers[w])
  {
    hide Apply, Enabled, RecordOk, LockOk, PhaseOk, CancelOk, QueueOk;
    StepGrows(s, a);
    forall w: nat | w < |Apply(s, a).workers|
      ensures PhaseOk(Apply(s, a), w, Apply(s, a).workers[w])
    {
      if ActingWorker(a) == Some(w) {
        ActorPhaseKept(s, a);
      } else {
        OtherPhaseKept(s, a, w);
      }
    }
  }

  lemma RecordsKept(s: State, a: Action)
    requires Inv(s) && Ready(s, a)
    ensures forall id :: RecordOk(Apply(s, a), id)
  {
    hide Apply, Enabled, RecordOk, LockOk, PhaseOk, CancelOk, QueueOk;
    forall id
      ensures RecordOk(Apply(s, a), id)
    {
      if Touched(s, a) == Some(id) {
        TouchedRecordKept(s, a);
      } else {
        OtherRecordKept(s, a, id);
      }
    }
  }

  lemma StepKeepsInvariant(s: State, a: Action)
    requires Inv(s) && Enabled(s, a)
    ensures Inv(Apply(s, a))
  {
    InvariantIsReady(s, a);
    hide Apply, Enabled, RecordOk, LockOk, PhaseOk, CancelOk, QueueOk;
    QueueKept(s, a);
    assert a.Acquire? ==> RecordOk(s, a.job.jobId);
    assert s.lock.Checking? || s.lock.Adding? ==> RecordOk(s, s.lock.job.jobId);
    LockKept(s, a);
    PhasesKept(s, a);
    RecordsKept(s, a);
    forall c | c in Apply(s, a).cancels
      ensures CancelOk(Apply(s, a), Apply(s, a).cancels[c])
    {
      CancelKept(s, a, c);
    }
  }

  /** The invariant holds in every state any interleaving reaches. */
  lemma {:induction false} RunKeepsInvariant(s: State, acts: seq<Action>)
    requires Inv(s) && After(s, acts).Some?
    ensures Inv(After(s, acts).value)
  {
    if acts != [] {
      RunKeepsInvariant(s, acts[..|acts| - 1]);
      StepKeepsInvariant(After(s, acts[..|acts| - 1]).value, acts[|acts| - 1]);
    }
  }
}
