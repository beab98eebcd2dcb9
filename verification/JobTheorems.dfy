/** What the job queue guarantees in every state and over every run of the protocol. */
module JobTheorems {
  import opened Models
  import opened JobModel
  import opened JobProtocol

  ghost predicate Reachable(s: State) {
    exists maxPending: nat, workers: nat, hasCallback: bool, acts: seq<Action> ::
      After(Initial(maxPending, workers, hasCallback), acts) == Some(s)
  }

  lemma ReachableIsInvariant(s: State)
    requires Reachable(s)
    ensures Inv(s)
  {
    var maxPending: nat, workers: nat, hasCallback, acts :|
      After(Initial(maxPending, workers, hasCallback), acts) == Some(s);
    InitialInv(maxPending, workers, hasCallback);
    RunKeepsInvariant(Initial(maxPending, workers, hasCallback), acts);
  }

  /** One run after another is a run. */
  lemma {:induction false} AfterAppend(s: State, first: seq<Action>, mid: State, second: seq<Action>)
    requires After(s, first) == Some(mid)
    ensures After(s, first + second) == After(mid, second)
  {
    hide Apply, Enabled;
    if second == [] {
      assert first + second == first;
    } else {
      AfterAppend(s, first, mid, second[..|second| - 1]);
      assert (first + second)[..|first + second| - 1] == first + second[..|second| - 1];
    }
  }

  lemma ReachableRun(s: State, acts: seq<Action>)
    requires Reachable(s) && After(s, acts).Some?
    ensures Reachable(After(s, acts).value)
  {
    hide After;
    var maxPending: nat, workers: nat, hasCallback, first :|
      After(Initial(maxPending, workers, hasCallback), first) == Some(s);
    AfterAppend(Initial(maxPending, workers, hasCallback), first, s, acts);
    assert After(Initial(maxPending, workers, hasCallback), first + acts) == After(s, acts);
  }

  // ---------------------------------------------------------------------------
  // Placement
  // ---------------------------------------------------------------------------

  function Count(ps: seq<Phase>, p: Phase -> bool): nat {
    if ps == [] then 0 else Count(ps[..|ps| - 1], p) + if p(ps[|ps| - 1]) then 1 else 0
  }

  function Holding(id: Id): Phase -> bool {
    (p: Phase) => Held(p) == Some(id)
  }

  function Claiming(id: Id): Phase -> bool {
    (p: Phase) => Held(p) == Some(id) && HasClaimed(p)
  }

  lemma {:induction false} CountUnique(ps: seq<Phase>, p: Phase -> bool, o: nat)
    requires forall w | 0 <= w < |ps| && p(ps[w]) :: w == o
    ensures Count(ps, p) == if o < |ps| && p(ps[o]) then 1 else 0
  {
    if ps != [] {
      CountUnique(ps[..|ps| - 1], p, o);
    }
  }

  lemma {:induction false} DistinctOnce(ids: seq<Id>, id: Id)
    requires forall i, j | 0 <= i < j < |ids| :: ids[i] != ids[j]
    ensures multiset(ids)[id] == if id in ids then 1 else 0
  {
    if ids != [] {
      var front, last := ids[..|ids| - 1], ids[|ids| - 1];
      DistinctOnce(front, id);
      assert ids == front + [last];
    }
  }

  lemma HoldersAreOwners(s: State, id: Id, w: nat)
    requires Inv(s) && w < |s.workers| && Held(s.workers[w]) == Some(id)
    ensures Owns(s, w, id)
    ensures HasClaimed(s.workers[w]) ==> s.jobs[id].status.Running?
  {
    hide RecordOk, CancelOk, LockOk, QueueOk;
    assert PhaseOk(s, w, s.workers[w]);
  }

  /** Every registered job that is not finished is in exactly one place: the submission in
      progress, one queue slot, or one worker's hands. It is RUNNING exactly while one worker,
      and no other, has claimed it. */
  lemma PlacementIsUnique(s: State, id: Id)
    requires Reachable(s) && id in s.jobs
    ensures !s.jobs[id].status.Terminal() ==>
              (if InSubmission(s, id) then 1 else 0) + multiset(s.pending)[id] + Count(s.workers, Holding(id)) == 1
    ensures Count(s.workers, Claiming(id)) == if s.jobs[id].status.Running? then 1 else 0
  {
    ReachableIsInvariant(s);
    hide PhaseOk, CancelOk, StatusOk;
    assert RecordOk(s, id);
    forall w: nat | w < |s.workers| && Held(s.workers[w]) == Some(id)
      ensures Owns(s, w, id) && (HasClaimed(s.workers[w]) ==> s.jobs[id].status.Running?)
    {
      HoldersAreOwners(s, id, w);
    }
    var o: nat := if id in s.log.owner then s.log.owner[id] else 0;
    CountUnique(s.workers, Holding(id), o);
    CountUnique(s.workers, Claiming(id), o);
    DistinctOnce(s.pending, id);
    RunningIsClaimed(s, id);
  }

  lemma RunningIsClaimed(s: State, id: Id)
    requires Inv(s) && id in s.jobs
    ensures s.jobs[id].status.Running? ==> OwnerHolds(s, id) && id !in s.pending
  {
    hide PhaseOk, CancelOk, LockOk;
    assert RecordOk(s, id);
  }

  /** The pending queue is bounded, a claimed job's token is still registered, and a worker about
      to publish overwrites exactly the record it claimed: its snapshot is not stale. */
  lemma ClaimIsExclusive(s: State, w: nat)
    requires Reachable(s) && w < |s.workers|
    ensures |s.pending| <= s.maxPending
    ensures s.workers[w].Claimed? ==>
              var job := s.workers[w].job; job.jobId in s.tokens && job.jobId in s.jobs && s.jobs[job.jobId] == job
    ensures Enabled(s, Publish(w)) ==>
              var final := s.workers[w].final;
              final.jobId in s.jobs && final == s.jobs[final.jobId].(status := final.status, outcome := final.outcome)
              && s.jobs[final.jobId].status.Running? && final.status.Terminal()
  {
    ReachableIsInvariant(s);
    hide CancelOk, LockOk;
    assert PhaseOk(s, w, s.workers[w]);
    if s.workers[w].Claimed? {
      assert RecordOk(s, s.workers[w].job.jobId);
    }
    if s.workers[w].Finished? || s.workers[w].CallbackDone? {
      assert RecordOk(s, s.workers[w].final.jobId);
    }
  }

  // ---------------------------------------------------------------------------
  // Status
  // ---------------------------------------------------------------------------

  predicate Edge(a: JobStatus, b: JobStatus) {
    || (a.Queued? && (b.Running? || b.Cancelled?))
    || (a.Running? && b.Terminal())
  }

  predicate Advances(a: JobStatus, b: JobStatus) {
    a == b || Edge(a, b) || (a.Queued? && b.Terminal())
  }

  /** What every action does to an accepted job: nothing, or one edge of the life cycle. */
  ghost predicate Moves(s: State, t: State, id: Id) {
    && id in t.log.accepted && id in s.jobs && id in t.jobs
    && t.jobs[id].files == s.jobs[id].files && t.jobs[id].submittedBy == s.jobs[id].submittedBy
    && (t.jobs[id] == s.jobs[id] || Edge(s.jobs[id].status, t.jobs[id].status))
  }

  lemma StepMoves(s: State, a: Action, id: Id)
    requires Inv(s) && Enabled(s, a) && id in s.log.accepted
    ensures Moves(s, Apply(s, a), id)
  {
    hide CancelOk, LockOk, RecordOk, PhaseOk;
    RegisteredFacts(s, id);
    if Touched(s, a) != Some(id) {
      UntouchedRecord(s, a, id);
    } else if WorkerAction(a) {
      if !a.Poll? {
        ActorFacts(s, a);
      }
    } else {
      SubmissionIsNotAccepted(s);
    }
  }

  lemma RegisteredFacts(s: State, id: Id)
    requires Inv(s) && id in s.log.accepted
    ensures id in s.jobs && s.jobs[id].jobId == id
  {
    hide CancelOk, LockOk, PhaseOk;
    assert RecordOk(s, id);
  }

  lemma SubmissionIsNotAccepted(s: State)
    requires Inv(s)
    ensures s.lock.Checking? || s.lock.Adding? || s.lock.Putting? || s.lock.Removing? ==>
            s.lock.job.jobId !in s.log.accepted
  {
    hide CancelOk, PhaseOk;
    if s.lock.Checking? || s.lock.Adding? || s.lock.Putting? || s.lock.Removing? {
      assert RecordOk(s, s.lock.job.jobId);
    }
  }

  lemma ActorFacts(s: State, a: Action)
    requires Inv(s) && Enabled(s, a) && WorkerAction(a) && !a.Poll? && !a.TestFlag?
    ensures Held(s.workers[a.w]).Some?
    ensures var id := Held(s.workers[a.w]).value; id in s.jobs && s.jobs[id].jobId == id
    ensures (a.StartRun? || a.FinishRun?) ==>
            s.jobs[s.workers[a.w].job.jobId] == s.workers[a.w].job && s.workers[a.w].job.status.Running?
    ensures (a.CallOnDone? || a.ReturnFromOnDone? || a.Publish?) ==>
            Ends(s.jobs[s.workers[a.w].final.jobId], s.workers[a.w].final)
    ensures a.ReturnFromOnDone? ==> s.log.callbacks[s.workers[a.w].final.jobId] == 0
  {
    hide CancelOk, LockOk;
    assert PhaseOk(s, a.w, s.workers[a.w]);
    assert RecordOk(s, Held(s.workers[a.w]).value);
  }

  /** Over every run an accepted job only moves QUEUED -> RUNNING -> DONE, FAILED or CANCELLED, or
      QUEUED -> CANCELLED; a finished record never changes again; its files and submitter never
      change at all; and `worker.run` is started for it at most once. */
  lemma {:induction false} StatusOnlyAdvances(s: State, acts: seq<Action>, id: Id)
    requires Reachable(s) && After(s, acts).Some? && id in s.log.accepted
    ensures var t := After(s, acts).value;
            && id in s.jobs && id in t.log.accepted && id in t.jobs
            && Advances(s.jobs[id].status, t.jobs[id].status)
            && (s.jobs[id].status.Terminal() ==> t.jobs[id] == s.jobs[id])
            && t.jobs[id].files == s.jobs[id].files && t.jobs[id].submittedBy == s.jobs[id].submittedBy
            && t.log.runs[id] <= 1
  {
    ReachableIsInvariant(s);
    RunKeepsInvariant(s, acts);
    AtMostOneRun(After(s, acts).value, id);
    RunMoves(s, acts, id);
  }

  lemma AtMostOneRun(s: State, id: Id)
    requires Inv(s)
    ensures s.log.runs[id] <= 1
  {
    hide CancelOk, LockOk, PhaseOk;
    assert RecordOk(s, id);
  }

  lemma {:induction false} RunMoves(s: State, acts: seq<Action>, id: Id)
    requires Inv(s) && After(s, acts).Some? && id in s.log.accepted
    ensures var t := After(s, acts).value;
            && id in s.jobs && id in t.log.accepted && id in t.jobs
            && Advances(s.jobs[id].status, t.jobs[id].status)
            && (s.jobs[id].status.Terminal() ==> t.jobs[id] == s.jobs[id])
            && t.jobs[id].files == s.jobs[id].files && t.jobs[id].submittedBy == s.jobs[id].submittedBy
  {
    hide Inv, Apply, Enabled;
    RegisteredFacts(s, id);
    if acts != [] {
      var front, last := acts[..|acts| - 1], acts[|acts| - 1];
      RunMoves(s, front, id);
      RunKeepsInvariant(s, front);
      StepMoves(After(s, front).value, last, id);
    }
  }

  // ---------------------------------------------------------------------------
  // Results
  // ---------------------------------------------------------------------------

  /** The finished record that a worker has yet to publish. */
  function Unpublished(p: Phase): Option<Job> {
    match p
    case Finished(final) => Some(final)
    case InCallback(final) => Some(final)
    case CallbackDone(final) => Some(final)
    case _ => None
  }

  lemma {:induction false} RunKeepsResult(s: State, acts: seq<Action>, w: nat)
    requires After(s, acts).Some? && w < |s.workers| && Unpublished(s.workers[w]).Some?
    requires Publish(w) !in acts
    ensures var t := After(s, acts).value; w < |t.workers| && Unpublished(t.workers[w]) == Unpublished(s.workers[w])
  {
    if acts != [] {
      var front, last := acts[..|acts| - 1], acts[|acts| - 1];
      assert acts == front + [last] && last in acts;
      hide Apply, Enabled;
      RunKeepsResult(s, front, w);
      StepKeepsResult(After(s, front).value, last, w);
    }
  }

  lemma StepKeepsResult(s: State, a: Action, w: nat)
    requires Enabled(s, a) && w < |s.workers| && Unpublished(s.workers[w]).Some? && a != Publish(w)
    ensures var t := Apply(s, a); w < |t.workers| && Unpublished(t.workers[w]) == Unpublished(s.workers[w])
  {
    StepGrows(s, a);
  }

  /** How a finished record answers to what the run did. */
  ghost predicate Answers(running: Job, final: Job, result: RunResult) {
    && final.jobId == running.jobId && final.files == running.files && final.submittedBy == running.submittedBy
    && (final.status.Done? <==> result.RunReturned?)
    && (final.status.Failed? <==> result.RunRaised?)
    && (final.status.Cancelled? <==> result.RunAborted?)
    && (result.RunReturned? ==> final.outcome == Result(result.findings))
    && (result.RunRaised? ==> final.outcome == Error(result.message))
  }

  /** What `worker.run` came to is what the registry shows once published, however many other
      threads act before and after: DONE with exactly the findings returned, FAILED with the error
      raised, CANCELLED if the run aborted; and the record of the submission is otherwise kept. */
  lemma ResultIsPublished(s: State, w: nat, result: RunResult, wait: seq<Action>, later: seq<Action>)
    requires Reachable(s) && Enabled(s, FinishRun(w, result)) && Publish(w) !in wait
    requires After(Apply(s, FinishRun(w, result)), wait).Some?
    requires Enabled(After(Apply(s, FinishRun(w, result)), wait).value, Publish(w))
    requires After(Apply(After(Apply(s, FinishRun(w, result)), wait).value, Publish(w)), later).Some?
    ensures var u := After(Apply(After(Apply(s, FinishRun(w, result)), wait).value, Publish(w)), later).value;
            var id := s.workers[w].job.jobId;
            id in s.jobs && id in u.jobs && Answers(s.jobs[id], u.jobs[id], result)
  {
    hide Inv, After;
    ReachableIsInvariant(s);
    ActorFacts(s, FinishRun(w, result));
    var s1 := Apply(s, FinishRun(w, result));
    StepKeepsInvariant(s, FinishRun(w, result));
    assert Unpublished(s1.workers[w]) == Some(FinalRecord(s.workers[w].job, result));
    RunKeepsInvariant(s1, wait);
    RunKeepsResult(s1, wait, w);
    PublishedForGood(After(s1, wait).value, w, later);
  }

  /** A published record stays. */
  lemma PublishedForGood(s: State, w: nat, later: seq<Action>)
    requires Inv(s) && Enabled(s, Publish(w)) && After(Apply(s, Publish(w)), later).Some?
    ensures var final := s.workers[w].final;
            var u := After(Apply(s, Publish(w)), later).value;
            final.jobId in u.jobs && u.jobs[final.jobId] == final
  {
    hide Inv, After;
    ActorFacts(s, Publish(w));
    var id := s.workers[w].final.jobId;
    HolderIsAccepted(s, w);
    StepKeepsInvariant(s, Publish(w));
    StepGrows(s, Publish(w));
    RunMoves(Apply(s, Publish(w)), later, id);
  }

  lemma HolderIsAccepted(s: State, w: nat)
    requires Inv(s) && w < |s.workers| && Held(s.workers[w]).Some?
    ensures Held(s.workers[w]).value in s.log.accepted
  {
    hide CancelOk, LockOk, RecordOk, QueueOk;
    assert PhaseOk(s, w, s.workers[w]);
  }

  // ---------------------------------------------------------------------------
  // Cancellation
  // ---------------------------------------------------------------------------

  /** The token is set and no worker has claimed the job. */
  ghost predicate Doomed(s: State, id: Id) {
    && id in s.flags && Known(s, id) && s.log.runs[id] == 0
    && (id in s.jobs ==> s.jobs[id].status.Queued? || s.jobs[id].status.Cancelled?)
  }

  lemma StepKeepsDoomed(s: State, a: Action, id: Id)
    requires Inv(s) && Enabled(s, a) && Doomed(s, id)
    ensures Doomed(Apply(s, a), id)
  {
    hide CancelOk, LockOk, RecordOk, PhaseOk, QueueOk, Apply;
    assert RecordOk(s, id);
    StepGrows(s, a);
    TokenFollowsJob(s, id);
    if Touched(s, a) != Some(id) {
      UntouchedRecord(s, a, id);
    } else if WorkerAction(a) {
      WorkerKeepsKnown(s, a, id);
      WorkerKeepsDoomed(s, a, id);
    } else {
      OthersKeepDoomed(s, a, id);
    }
  }

  lemma WorkerKeepsKnown(s: State, a: Action, id: Id)
    requires Enabled(s, a) && WorkerAction(a) && Known(s, id)
    ensures Known(Apply(s, a), id)
  {
  }

  lemma OthersKeepDoomed(s: State, a: Action, id: Id)
    requires Inv(s) && Enabled(s, a) && Doomed(s, id) && !WorkerAction(a) && Touched(s, a) == Some(id)
    requires id in s.tokens <==> id in s.jobs
    ensures Doomed(Apply(s, a), id)
  {
    hide CancelOk, LockOk, RecordOk, PhaseOk, QueueOk;
    if !a.FlipIfQueued? {
      FreshIsUnknown(s);
    }
  }

  lemma WorkerKeepsDoomed(s: State, a: Action, id: Id)
    requires Inv(s) && Enabled(s, a) && Doomed(s, id) && WorkerAction(a) && Touched(s, a) == Some(id)
    requires RecordOk(s, id) && (id in s.tokens <==> id in s.jobs)
    requires Known(Apply(s, a), id)
    ensures Doomed(Apply(s, a), id)
  {
    hide CancelOk, LockOk, PhaseOk, QueueOk, RecordOk, Known;
    if !a.Poll? {
      ActorFacts(s, a);
    }
  }

  lemma TokenFollowsJob(s: State, id: Id)
    requires Inv(s)
    ensures id in s.tokens <==> id in s.jobs
  {
    hide CancelOk, LockOk, PhaseOk;
    assert RecordOk(s, id);
  }

  lemma FreshIsUnknown(s: State)
    requires Inv(s)
    ensures s.lock.Checking? || s.lock.Adding? ==> !Known(s, s.lock.job.jobId)
    ensures s.lock.Putting? || s.lock.Removing? ==> NotStarted(s, s.lock.job.jobId)
  {
    hide CancelOk, PhaseOk, RecordOk;
  }

  /** Once a job's token is set while no worker has claimed it, no later step ever makes it
      RUNNING or runs it. */
  lemma {:induction false} CancelledBeforeClaimNeverRuns(s: State, acts: seq<Action>, id: Id)
    requires Reachable(s) && After(s, acts).Some? && id in s.flags && id in s.jobs
    requires s.jobs[id].status.Queued?
    ensures var t := After(s, acts).value;
            t.log.runs[id] == 0 && (id in t.jobs ==> t.jobs[id].status.Queued? || t.jobs[id].status.Cancelled?)
  {
    ReachableIsInvariant(s);
    assert RecordOk(s, id);
    RunKeepsDoomed(s, acts, id);
  }

  lemma {:induction false} RunKeepsDoomed(s: State, acts: seq<Action>, id: Id)
    requires Inv(s) && After(s, acts).Some? && Doomed(s, id)
    ensures Doomed(After(s, acts).value, id)
  {
    hide Inv, Apply, Enabled;
    if acts != [] {
      RunKeepsDoomed(s, acts[..|acts| - 1], id);
      RunKeepsInvariant(s, acts[..|acts| - 1]);
      StepKeepsDoomed(After(s, acts[..|acts| - 1]).value, acts[|acts| - 1], id);
    }
  }

  /** Rejected at submission, or no longer waiting. */
  ghost predicate Settled(s: State, id: Id) {
    id in s.log.refused || (id in s.jobs && !s.jobs[id].status.Queued?)
  }

  lemma StepKeepsSettled(s: State, a: Action, id: Id)
    requires Inv(s) && Enabled(s, a) && Settled(s, id)
    ensures Settled(Apply(s, a), id)
  {
    hide CancelOk, LockOk, RecordOk, PhaseOk, QueueOk;
    if id in s.log.refused {
      StepGrows(s, a);
    } else if id in s.log.accepted {
      StepMoves(s, a, id);
    } else if Touched(s, a) != Some(id) {
      UntouchedRecord(s, a, id);
    } else {
      UnacceptedIsInSubmission(s, id);
      if WorkerAction(a) {
        WorkerTouchesAccepted(s, a);
      }
    }
  }

  lemma UnacceptedIsInSubmission(s: State, id: Id)
    requires Inv(s) && id in s.jobs && id !in s.log.accepted
    ensures InSubmission(s, id)
  {
    hide CancelOk, LockOk, PhaseOk;
    assert RecordOk(s, id);
  }

  /** Every cancel that answered True has taken effect. */
  ghost predicate TrueMeansSettled(s: State) {
    forall c | c in s.cancels && s.cancels[c].Returned? && s.cancels[c].result :: Settled(s, s.cancels[c].id)
  }

  lemma StepKeepsTruth(s: State, a: Action)
    requires Inv(s) && Enabled(s, a) && TrueMeansSettled(s)
    ensures TrueMeansSettled(Apply(s, a))
  {
    hide Inv, Apply, Enabled, Settled;
    var t := Apply(s, a);
    forall c | c in t.cancels && t.cancels[c].Returned? && t.cancels[c].result
      ensures Settled(t, t.cancels[c].id)
    {
      OnlyFlipAnswersTrue(s, a, c);
      if a == FlipIfQueued(c) {
        FlipSettles(s, c);
      } else {
        StepKeepsSettled(s, a, t.cancels[c].id);
      }
    }
  }

  /** A cancel that has answered True had done so before, or does so with its last step. */
  lemma OnlyFlipAnswersTrue(s: State, a: Action, c: nat)
    requires Enabled(s, a)
    requires c in Apply(s, a).cancels && Apply(s, a).cancels[c].Returned? && Apply(s, a).cancels[c].result
    ensures a == FlipIfQueued(c) || (c in s.cancels && s.cancels[c] == Apply(s, a).cancels[c])
    ensures a == FlipIfQueued(c) ==> c in s.cancels && Apply(s, a).cancels[c].id == s.cancels[c].id
  {
    if CancelAction(a) {
      CancelAnswersTrue(s, a, c);
    } else if WorkerAction(a) {
      WorkerKeepsCancels(s, a);
    }
  }

  lemma CancelAnswersTrue(s: State, a: Action, c: nat)
    requires Enabled(s, a) && CancelAction(a)
    requires c in Apply(s, a).cancels && Apply(s, a).cancels[c].Returned? && Apply(s, a).cancels[c].result
    ensures a == FlipIfQueued(c) || (c in s.cancels && s.cancels[c] == Apply(s, a).cancels[c])
    ensures a == FlipIfQueued(c) ==> c in s.cancels && Apply(s, a).cancels[c].id == s.cancels[c].id
  {
    hide CancelledIfQueued;
  }

  lemma FlipSettles(s: State, c: nat)
    requires Inv(s) && Enabled(s, FlipIfQueued(c))
    ensures Settled(Apply(s, FlipIfQueued(c)), s.cancels[c].id)
  {
    hide LockOk, RecordOk, PhaseOk, QueueOk;
    assert CancelOk(s, s.cancels[c]);
  }

  lemma {:induction false} RunKeepsTruth(s: State, acts: seq<Action>)
    requires Inv(s) && TrueMeansSettled(s) && After(s, acts).Some?
    ensures TrueMeansSettled(After(s, acts).value)
  {
    hide Inv, Apply, Enabled, TrueMeansSettled;
    if acts != [] {
      RunKeepsTruth(s, acts[..|acts| - 1]);
      RunKeepsInvariant(s, acts[..|acts| - 1]);
      StepKeepsTruth(After(s, acts[..|acts| - 1]).value, acts[|acts| - 1]);
    }
  }

  lemma {:induction false} RunKeepsSettled(s: State, acts: seq<Action>, id: Id)
    requires Inv(s) && Settled(s, id) && After(s, acts).Some?
    ensures Settled(After(s, acts).value, id)
  {
    hide Inv, Apply, Enabled, Settled;
    if acts != [] {
      RunKeepsSettled(s, acts[..|acts| - 1], id);
      RunKeepsInvariant(s, acts[..|acts| - 1]);
      StepKeepsSettled(After(s, acts[..|acts| - 1]).value, acts[|acts| - 1], id);
    }
  }

  /** `cancel` answers truthfully although its four steps interleave with everything else. True
      means that the token is set and that from then on, in every later state, the job is rejected
      or no longer QUEUED; False for an id it found means that the job was rejected or is over. */
  lemma CancelAnswers(s: State, c: nat, acts: seq<Action>)
    requires Reachable(s) && c in s.cancels && s.cancels[c].Returned? && After(s, acts).Some?
    ensures s.cancels[c].result ==> s.cancels[c].id in s.flags && Settled(After(s, acts).value, s.cancels[c].id)
    ensures s.cancels[c].found && !s.cancels[c].result ==> Over(s, s.cancels[c].id)
  {
    ReachableIsInvariant(s);
    assert CancelOk(s, s.cancels[c]);
    ReachableIsTruthful(s);
    if s.cancels[c].result {
      RunKeepsSettled(s, acts, s.cancels[c].id);
    }
  }

  lemma ReachableIsTruthful(s: State)
    requires Reachable(s)
    ensures TrueMeansSettled(s)
  {
    var maxPending: nat, workers: nat, hasCallback, acts :|
      After(Initial(maxPending, workers, hasCallback), acts) == Some(s);
    InitialInv(maxPending, workers, hasCallback);
    RunKeepsTruth(Initial(maxPending, workers, hasCallback), acts);
  }

  /** No job is cancelled unasked: one that is CANCELLED without having run has its token set. */
  ghost predicate AskedIfCancelled(s: State) {
    forall id | id in s.jobs && s.jobs[id].status.Cancelled? && s.log.runs[id] == 0 :: id in s.flags
  }

  lemma StepKeepsAsked(s: State, a: Action)
    requires Inv(s) && Enabled(s, a) && AskedIfCancelled(s)
    ensures AskedIfCancelled(Apply(s, a))
  {
    hide Inv, Apply, Enabled;
    var t := Apply(s, a);
    StepGrows(s, a);
    forall id | id in t.jobs && t.jobs[id].status.Cancelled? && t.log.runs[id] == 0
      ensures id in t.flags
    {
      if Touched(s, a) != Some(id) {
        UntouchedRecord(s, a, id);
      } else if WorkerAction(a) {
        WorkerCancelsWhenAsked(s, a, id);
      } else {
        OthersCancelWhenAsked(s, a, id);
      }
    }
  }

  lemma WorkerCancelsWhenAsked(s: State, a: Action, id: Id)
    requires Inv(s) && Enabled(s, a) && AskedIfCancelled(s) && WorkerAction(a) && Touched(s, a) == Some(id)
    requires var t := Apply(s, a); id in t.jobs && t.jobs[id].status.Cancelled? && t.log.runs[id] == 0
    ensures id in Apply(s, a).flags
  {
    hide CancelOk, LockOk, RecordOk, QueueOk;
    WorkerKeepsCancels(s, a);
    if !a.Poll? {
      assert PhaseOk(s, a.w, s.workers[a.w]);
    }
  }

  lemma OthersCancelWhenAsked(s: State, a: Action, id: Id)
    requires Inv(s) && Enabled(s, a) && AskedIfCancelled(s) && !WorkerAction(a) && Touched(s, a) == Some(id)
    requires var t := Apply(s, a); id in t.jobs && t.jobs[id].status.Cancelled? && t.log.runs[id] == 0
    ensures id in Apply(s, a).flags
  {
    hide RecordOk, QueueOk, PhaseOk;
    if a.FlipIfQueued? {
      assert CancelOk(s, s.cancels[a.c]);
    }
  }

  lemma {:induction false} RunKeepsAsked(s: State, acts: seq<Action>)
    requires Inv(s) && AskedIfCancelled(s) && After(s, acts).Some?
    ensures AskedIfCancelled(After(s, acts).value)
  {
    hide Inv, Apply, Enabled, AskedIfCancelled;
    if acts != [] {
      RunKeepsAsked(s, acts[..|acts| - 1]);
      RunKeepsInvariant(s, acts[..|acts| - 1]);
      StepKeepsAsked(After(s, acts[..|acts| - 1]).value, acts[|acts| - 1]);
    }
  }

  /** In every reachable state a job that is CANCELLED without having run was asked to be. */
  lemma NoJobIsCancelledUnasked(s: State)
    requires Reachable(s)
    ensures AskedIfCancelled(s)
  {
    var maxPending: nat, workers: nat, hasCallback, acts :|
      After(Initial(maxPending, workers, hasCallback), acts) == Some(s);
    InitialInv(maxPending, workers, hasCallback);
    RunKeepsAsked(Initial(maxPending, workers, hasCallback), acts);
  }

  /** So an accepted job that is over and whose token was never set has run, exactly once. */
  lemma UncancelledJobHasRun(s: State, id: Id)
    requires Reachable(s) && id in s.log.accepted && id !in s.flags
    ensures id in s.jobs && (s.jobs[id].status.Terminal() ==> s.log.runs[id] == 1)
  {
    NoJobIsCancelledUnasked(s);
    ReachableIsInvariant(s);
    hide CancelOk, LockOk, PhaseOk;
    assert RecordOk(s, id);
  }

  // ---------------------------------------------------------------------------
  // The completion callback
  // ---------------------------------------------------------------------------

  lemma {:induction false} RunKeepsCallbacks(s: State, acts: seq<Action>, id: Id)
    requires After(s, acts).Some?
    ensures After(s, acts).value.log.callbacks[id] >= s.log.callbacks[id]
    ensures After(s, acts).value.hasCallback == s.hasCallback
  {
    hide Apply, Enabled;
    if acts != [] {
      RunKeepsCallbacks(s, acts[..|acts| - 1], id);
      StepGrows(After(s, acts[..|acts| - 1]).value, acts[|acts| - 1]);
    }
  }

  /** In every state where DONE is visible `on_done` has already returned for the job, exactly
      once, and it has never been called for a job that is queued, failed or cancelled. */
  lemma CallbackPrecedesDone(s: State, id: Id)
    requires Reachable(s) && id in s.jobs
    ensures s.log.callbacks[id] <= 1
    ensures s.hasCallback && s.jobs[id].status.Done? ==> s.log.callbacks[id] == 1
    ensures s.log.callbacks[id] == 1 ==> s.hasCallback && (s.jobs[id].status.Done? || s.jobs[id].status.Running?)
  {
    ReachableIsInvariant(s);
    hide CancelOk, LockOk;
    assert RecordOk(s, id);
    if s.jobs[id].status.Running? {
      RunningIsClaimed(s, id);
      assert PhaseOk(s, s.log.owner[id], s.workers[s.log.owner[id]]);
    }
  }

  /** Once `on_done` has returned for a job, DONE is the only way it can end. */
  lemma CallbackOnlyForDone(s: State, acts: seq<Action>, id: Id)
    requires Reachable(s) && After(s, acts).Some? && s.log.callbacks[id] == 1
    ensures var t := After(s, acts).value;
            id in t.jobs && (t.jobs[id].status.Terminal() ==> t.jobs[id].status.Done?)
  {
    ReachableIsInvariant(s);
    RunKeepsInvariant(s, acts);
    RunKeepsCallbacks(s, acts, id);
    hide CancelOk, LockOk, PhaseOk;
    assert RecordOk(After(s, acts).value, id);
  }

  // ---------------------------------------------------------------------------
  // Rejected submissions
  // ---------------------------------------------------------------------------

  lemma {:induction false} RunKeepsRefused(s: State, acts: seq<Action>, id: Id)
    requires After(s, acts).Some? && id in s.log.refused
    ensures id in After(s, acts).value.log.refused
  {
    hide Apply, Enabled;
    if acts != [] {
      RunKeepsRefused(s, acts[..|acts| - 1], id);
      StepGrows(After(s, acts[..|acts| - 1]).value, acts[|acts| - 1]);
    }
  }

  /** A submission that raised leaves no registry entry, no token, no queue slot and no id that
      any worker ever holds, from then on. */
  lemma RefusedLeavesNothing(s: State, acts: seq<Action>, id: Id, w: nat)
    requires Reachable(s) && After(s, acts).Some? && id in s.log.refused
    ensures var t := After(s, acts).value;
            id !in t.jobs && id !in t.tokens && id !in t.pending && t.log.runs[id] == 0
            && (w < |t.workers| ==> Held(t.workers[w]) != Some(id))
  {
    ReachableIsInvariant(s);
    RunKeepsInvariant(s, acts);
    RunKeepsRefused(s, acts, id);
    var t := After(s, acts).value;
    RefusedFacts(t, id);
    if w < |t.workers| && Held(t.workers[w]) == Some(id) {
      HoldersAreOwners(t, id, w);
    }
  }

  lemma RefusedFacts(s: State, id: Id)
    requires Inv(s) && id in s.log.refused
    ensures id !in s.jobs && id !in s.tokens && id !in s.pending && s.log.runs[id] == 0
  {
    hide CancelOk, LockOk, PhaseOk;
    assert RecordOk(s, id);
  }

  // ---------------------------------------------------------------------------
  // Shutdown
  // ---------------------------------------------------------------------------

  function Cost(p: Phase): nat {
    match p
    case Exited(_) => 0
    case SawEmpty(_) => 1
    case Polling => 2
    case CallbackDone(_) => 3
    case InCallback(_) => 4
    case Finished(_) => 5
    case InRun(_) => 6
    case Claimed(_) => 7
    case Dequeued(_) => 8
  }

  function TotalCost(ps: seq<Phase>): nat {
    if ps == [] then 0 else TotalCost(ps[..|ps| - 1]) + Cost(ps[|ps| - 1])
  }

  /** What is left to do: queued jobs, jobs in hand, workers still alive. */
  function Backlog(s: State): nat {
    7 * |s.pending| + TotalCost(s.workers)
  }

  lemma {:induction false} TotalCostUpdate(ps: seq<Phase>, w: nat, p: Phase)
    requires w < |ps|
    ensures TotalCost(ps[w := p]) == TotalCost(ps) - Cost(ps[w]) + Cost(p)
  {
    var front := ps[..|ps| - 1];
    if w == |ps| - 1 {
      assert ps[w := p][..|ps| - 1] == front;
    } else {
      assert ps[w := p][..|ps| - 1] == front[w := p];
      TotalCostUpdate(front, w, p);
    }
  }

  lemma SubmissionNeedsOpenQueue(s: State)
    requires Inv(s) && s.stopping
    ensures !s.lock.Adding? && !s.lock.Putting? && !s.lock.Removing?
  {
    hide CancelOk, PhaseOk, RecordOk;
  }

  /** Once the shutdown flag is set nothing enters the queue, and every step of a worker brings
      the backlog down; no other step touches it. */
  lemma StepDrains(s: State, a: Action)
    requires Inv(s) && s.stopping && Enabled(s, a)
    ensures var t := Apply(s, a);
            && t.stopping && t.log.accepted == s.log.accepted
            && (t.pending == s.pending || (a.Poll? && s.pending != [] && t.pending == s.pending[1..]))
            && if WorkerAction(a) then Backlog(t) < Backlog(s) else Backlog(t) == Backlog(s)
  {
    hide Inv, Apply, Enabled;
    SubmissionNeedsOpenQueue(s);
    if WorkerAction(a) {
      WorkerStepQueue(s, a);
      WorkerStepCost(s, a);
      TotalCostUpdate(s.workers, a.w, Apply(s, a).workers[a.w]);
    } else {
      OthersLeaveBacklog(s, a);
    }
  }

  lemma WorkerStepQueue(s: State, a: Action)
    requires Enabled(s, a) && WorkerAction(a)
    ensures var t := Apply(s, a);
            && t.stopping == s.stopping && t.log.accepted == s.log.accepted && a.w < |s.workers|
            && t.pending == if a.Poll? && s.pending != [] then s.pending[1..] else s.pending
  {
    if !a.Poll? {
      LateStepQueue(s, a);
    }
  }

  lemma LateStepQueue(s: State, a: Action)
    requires Enabled(s, a) && WorkerAction(a) && !a.Poll?
    ensures var t := Apply(s, a);
            t.stopping == s.stopping && t.log.accepted == s.log.accepted && t.pending == s.pending
  {
  }

  lemma OthersLeaveBacklog(s: State, a: Action)
    requires s.stopping && Enabled(s, a) && !WorkerAction(a)
    requires !s.lock.Adding? && !s.lock.Putting? && !s.lock.Removing?
    ensures var t := Apply(s, a);
            t.stopping && t.log.accepted == s.log.accepted && t.pending == s.pending && t.workers == s.workers
  {
  }

  lemma WorkerStepCost(s: State, a: Action)
    requires s.stopping && Enabled(s, a) && WorkerAction(a)
    ensures var t := Apply(s, a);
            && t.workers == s.workers[a.w := t.workers[a.w]]
            && Cost(t.workers[a.w]) < Cost(s.workers[a.w]) + if a.Poll? && s.pending != [] then 7 else 0
  {
  }

  function WorkerSteps(acts: seq<Action>): nat {
    if acts == [] then 0 else WorkerSteps(acts[..|acts| - 1]) + if WorkerAction(acts[|acts| - 1]) then 1 else 0
  }

  /** After shutdown the workers take at most `Backlog` more steps, whatever else happens: the
      drain terminates, and what is pending at any time is a suffix of what was pending. */
  lemma {:induction false} DrainTerminates(s: State, acts: seq<Action>)
    requires Reachable(s) && s.stopping && After(s, acts).Some?
    ensures var t := After(s, acts).value;
            WorkerSteps(acts) + Backlog(t) <= Backlog(s)
            && t.stopping && t.log.accepted == s.log.accepted
            && |t.pending| <= |s.pending| && t.pending == s.pending[|s.pending| - |t.pending|..]
  {
    ReachableIsInvariant(s);
    RunDrains(s, acts);
  }

  lemma {:induction false} RunDrains(s: State, acts: seq<Action>)
    requires Inv(s) && s.stopping && After(s, acts).Some?
    ensures var t := After(s, acts).value;
            WorkerSteps(acts) + Backlog(t) <= Backlog(s)
            && t.stopping && t.log.accepted == s.log.accepted
            && |t.pending| <= |s.pending| && t.pending == s.pending[|s.pending| - |t.pending|..]
  {
    hide Apply, Enabled, Inv, Backlog;
    if acts != [] {
      RunDrains(s, acts[..|acts| - 1]);
      RunKeepsInvariant(s, acts[..|acts| - 1]);
      StepDrains(After(s, acts[..|acts| - 1]).value, acts[|acts| - 1]);
    }
  }

  /** No worker ever gets stuck: one that has not exited can always take its next step. */
  lemma WorkersNeverBlock(s: State, w: nat)
    requires w < |s.workers|
    ensures s.workers[w].Exited? <==> !exists a :: ActingWorker(a) == Some(w) && Enabled(s, a)
  {
    var next := match s.workers[w]
      case Polling => Poll(w)
      case SawEmpty(_) => TestFlag(w)
      case Dequeued(_) => Claim(w)
      case Claimed(_) => StartRun(w)
      case InRun(_) => FinishRun(w, RunAborted)
      case Finished(final) => if final.status.Done? && s.hasCallback then CallOnDone(w) else Publish(w)
      case InCallback(_) => ReturnFromOnDone(w)
      case CallbackDone(_) => Publish(w)
      case Exited(_) => Poll(w);
    if !s.workers[w].Exited? {
      assert ActingWorker(next) == Some(w) && Enabled(s, next);
    }
  }

  ghost predicate AllExited(s: State) {
    forall w | 0 <= w < |s.workers| :: s.workers[w].Exited?
  }

  ghost predicate AllFinished(s: State) {
    forall id | id in s.log.accepted :: id in s.jobs && s.jobs[id].status.Terminal()
  }

  /** When every worker has exited, every accepted job is finished iff nothing but cancelled jobs
      is left in the queue; and that is so whenever some worker's final look at the empty queue
      came after the shutdown flag was set. */
  lemma DrainIsComplete(s: State)
    requires Reachable(s) && AllExited(s)
    ensures AllFinished(s) <==> forall id | id in s.pending :: id in s.jobs && s.jobs[id].status.Cancelled?
    ensures (exists w :: 0 <= w < |s.workers| && s.workers[w].afterFlag) ==> s.pending == [] && AllFinished(s)
  {
    ReachableIsInvariant(s);
    hide CancelOk, LockOk;
    forall id | id in s.log.accepted && id !in s.pending
      ensures id in s.jobs && s.jobs[id].status.Terminal()
    {
      assert RecordOk(s, id);
    }
    forall id | id in s.pending
      ensures id in s.log.accepted && id in s.jobs && (s.jobs[id].status.Terminal() <==> s.jobs[id].status.Cancelled?)
    {
      assert RecordOk(s, id);
    }
    forall w | 0 <= w < |s.workers| && s.workers[w].afterFlag
      ensures s.pending == []
    {
      assert PhaseOk(s, w, s.workers[w]);
    }
  }

  /** The worker has not seen the queue empty before the flag was set: it will look again. */
  predicate WillLook(p: Phase) {
    p != SawEmpty(false) && p != Exited(false)
  }

  ghost predicate OnlyCancelledPending(s: State) {
    forall id | id in s.pending :: id in s.jobs && s.jobs[id].status.Cancelled?
  }

  /** However the threads go on, when the last worker is gone every accepted job is finished. */
  ghost predicate DrainsFully(s: State) {
    forall acts | After(s, acts).Some? && AllExited(After(s, acts).value) :: AllFinished(After(s, acts).value)
  }

  lemma {:induction false} RunKeepsLook(s: State, acts: seq<Action>, w: nat)
    requires s.stopping && After(s, acts).Some? && w < |s.workers| && WillLook(s.workers[w])
    ensures var t := After(s, acts).value; t.stopping && w < |t.workers| && WillLook(t.workers[w])
  {
    if acts != [] {
      hide Apply, Enabled;
      RunKeepsLook(s, acts[..|acts| - 1], w);
      StepKeepsLook(After(s, acts[..|acts| - 1]).value, acts[|acts| - 1], w);
    }
  }

  lemma StepKeepsLook(s: State, a: Action, w: nat)
    requires s.stopping && Enabled(s, a) && w < |s.workers| && WillLook(s.workers[w])
    ensures var t := Apply(s, a); t.stopping && w < |t.workers| && WillLook(t.workers[w])
  {
    StepGrows(s, a);
  }

  lemma RunKeepsCancelledPending(s: State, acts: seq<Action>)
    requires Inv(s) && s.stopping && After(s, acts).Some? && OnlyCancelledPending(s)
    ensures OnlyCancelledPending(After(s, acts).value)
  {
    hide After, Backlog;
    RunDrains(s, acts);
    var t := After(s, acts).value;
    hide Inv;
    forall id | id in t.pending
      ensures id in t.jobs && t.jobs[id].status.Cancelled?
    {
      assert id in s.pending;
      PendingIsAccepted(s, id);
      RunMoves(s, acts, id);
    }
  }

  lemma PendingIsAccepted(s: State, id: Id)
    requires Inv(s) && id in s.pending
    ensures id in s.log.accepted
  {
    hide CancelOk, LockOk, PhaseOk;
    assert RecordOk(s, id);
  }

  /** The first `n` workers, having seen the queue empty, test the flag and stop. */
  lemma {:induction false} LastTests(s: State, n: nat) returns (acts: seq<Action>, t: State)
    requires s.stopping && n <= |s.workers| && forall w | 0 <= w < |s.workers| :: !WillLook(s.workers[w])
    ensures After(s, acts) == Some(t) && t == s.(workers := t.workers) && |t.workers| == |s.workers|
    ensures forall w | 0 <= w < n :: t.workers[w].Exited?
    ensures forall w | n <= w < |s.workers| :: t.workers[w] == s.workers[w]
  {
    hide After;
    if n == 0 {
      acts, t := EmptyRun(s);
    } else {
      acts, t := LastTests(s, n - 1);
      if t.workers[n - 1].SawEmpty? {
        acts, t := Extend(s, acts, t, TestFlag(n - 1));
      }
    }
  }

  /** Exactly when the promise of `submit` is kept, as it stands at any time once the shutdown flag
      is set: some worker has yet to take its last look at the queue, or all that is left in the
      queue is cancelled. */
  lemma DrainKeepsItsPromise(s: State)
    requires Reachable(s) && s.stopping
    ensures DrainsFully(s) <==> (exists w :: 0 <= w < |s.workers| && WillLook(s.workers[w])) || OnlyCancelledPending(s)
  {
    ReachableIsInvariant(s);
    hide Inv, Reachable, After;
    if w: nat :| w < |s.workers| && WillLook(s.workers[w]) {
      forall acts | After(s, acts).Some? && AllExited(After(s, acts).value)
        ensures AllFinished(After(s, acts).value)
      {
        ReachableRun(s, acts);
        RunKeepsLook(s, acts, w);
        DrainIsComplete(After(s, acts).value);
      }
    } else if OnlyCancelledPending(s) {
      forall acts | After(s, acts).Some? && AllExited(After(s, acts).value)
        ensures AllFinished(After(s, acts).value)
      {
        ReachableRun(s, acts);
        RunKeepsCancelledPending(s, acts);
        DrainIsComplete(After(s, acts).value);
      }
    } else {
      var acts, t := LastTests(s, |s.workers|);
      ReachableRun(s, acts);
      DrainIsComplete(t);
    }
  }

  /** The worker looks at the empty queue, and then a submission goes through. */
  lemma SubmitAfterLook(job: Job, maxPending: nat, hasCallback: bool) returns (acts: seq<Action>, s: State)
    requires maxPending > 0 && job.status.Queued? && job.outcome.NoOutcome?
    ensures After(Initial(maxPending, 1, hasCallback), acts) == Some(s)
    ensures s.lock.Free? && s.workers == [SawEmpty(false)] && s.pending == [job.jobId]
    ensures job.jobId in s.log.accepted && job.jobId in s.jobs && s.jobs[job.jobId] == job
  {
    hide After;
    var init := Initial(maxPending, 1, hasCallback);
    acts, s := EmptyRun(init);
    acts, s := Extend(init, acts, s, Poll(0));
    acts, s := Extend(init, acts, s, Acquire(job));
    acts, s := Extend(init, acts, s, Check);
    acts, s := Extend(init, acts, s, Add);
    acts, s := Extend(init, acts, s, Put);
    acts, s := Extend(init, acts, s, Release);
  }

  /** The condition is needed: a submission and the shutdown that slip between a worker's empty
      look at the queue and its test of the flag leave an accepted job queued for ever. */
  lemma StrandedJob(job: Job, maxPending: nat, hasCallback: bool)
    requires maxPending > 0 && job.status.Queued? && job.outcome.NoOutcome?
    ensures exists s: State ::
              Reachable(s) && AllExited(s) && job.jobId in s.log.accepted
              && s.pending == [job.jobId] && job.jobId in s.jobs && s.jobs[job.jobId] == job
  {
    hide After;
    var init := Initial(maxPending, 1, hasCallback);
    var acts, s := SubmitAfterLook(job, maxPending, hasCallback);
    acts, s := Extend(init, acts, s, AcquireToStop);
    acts, s := Extend(init, acts, s, SetFlag);
    acts, s := Extend(init, acts, s, Release);
    acts, s := Extend(init, acts, s, TestFlag(0));
    assert Reachable(s);
  }

  lemma EmptyRun(s: State) returns (acts: seq<Action>, t: State)
    ensures acts == [] && t == s && After(s, acts) == Some(t)
  {
    acts, t := [], s;
  }

  lemma Extend(s: State, acts: seq<Action>, mid: State, a: Action) returns (longer: seq<Action>, next: State)
    requires After(s, acts) == Some(mid) && Enabled(mid, a)
    ensures longer == acts + [a] && next == Apply(mid, a) && After(s, longer) == Some(next)
  {
    longer, next := acts + [a], Apply(mid, a);
    assert longer[..|acts|] == acts;
  }
}
