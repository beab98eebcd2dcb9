/** The queue object itself: `submit`, `cancel`, `shutdown` and the worker loop as code. Every
    access to what threads share is a method of its own that takes one action of the protocol; the
    object records the actions it takes in `trace`, and after each of them its fields match the
    state, `view`, that the trace leads to. So the order of the accesses is the protocol's. */
module JobQueueCode {
  import opened Models
  import opened Sequences
  import opened JobModel
  import opened JobProtocol
  import opened JobTheorems

  datatype SubmitResult = Accepted(job: Job) | QueueFull | ShuttingDown

  // ---------------------------------------------------------------------------
  // The protocol's actions of one call, back to back
  // ---------------------------------------------------------------------------

  /** All that one call may leave changed. */
  ghost predicate SameButQueue(s: State, t: State) {
    t.maxPending == s.maxPending && t.hasCallback == s.hasCallback && t.stopping == s.stopping
    && t.workers == s.workers && t.flags == s.flags && t.cancels == s.cancels
  }

  /** All that a step of a submission or shutdown under the lock may leave changed. */
  ghost predicate OnlyLock(s: State, t: State) {
    t.maxPending == s.maxPending && t.stopping == s.stopping && t.pending == s.pending && t.flags == s.flags
  }

  function SubmitActions(s: State, job: Job): seq<Action> {
    if s.stopping then [Acquire(job), Check, Release]
    else if |s.pending| < s.maxPending then [Acquire(job), Check, Add, Put, Release]
    else [Acquire(job), Check, Add, Put, Remove, Release]
  }

  /** A submission that nothing interleaves with: it is accepted iff the queue is open and has room,
      and refused otherwise; then registry, tokens and queue are as they were. */
  lemma SubmitRun(s: State, job: Job) returns (t: State)
    requires Inv(s) && s.lock.Free? && job.jobId !in s.log.used && job.status.Queued? && job.outcome.NoOutcome?
    ensures After(s, SubmitActions(s, job)) == Some(t) && t.lock.Free? && SameButQueue(s, t)
    ensures job.jobId in t.log.accepted <==> !s.stopping && |s.pending| < s.maxPending
    ensures job.jobId in t.log.refused <==> s.stopping || |s.pending| >= s.maxPending
    ensures t.jobs == (if job.jobId in t.log.accepted then s.jobs[job.jobId := job] else s.jobs)
    ensures t.tokens == (if job.jobId in t.log.accepted then s.tokens + {job.jobId} else s.tokens)
    ensures t.pending == (if job.jobId in t.log.accepted then s.pending + [job.jobId] else s.pending)
  {
    hide After, Inv;
    UnusedIsUnregistered(s, job.jobId);
    var acts;
    acts, t := EmptyRun(s);
    acts, t := Extend(s, acts, t, Acquire(job));
    acts, t := Extend(s, acts, t, Check);
    if !s.stopping {
      acts, t := Extend(s, acts, t, Add);
      acts, t := Extend(s, acts, t, Put);
      if |s.pending| >= s.maxPending {
        acts, t := Extend(s, acts, t, Remove);
        assert t.jobs == s.jobs && t.tokens == s.tokens;
      }
    }
    acts, t := Extend(s, acts, t, Release);
    assert acts == SubmitActions(s, job);
  }

  predicate Cancellable(s: State, id: Id) {
    id in s.tokens && id in s.jobs && !s.jobs[id].status.Terminal()
  }

  function CancelActions(s: State, c: nat, id: Id): seq<Action> {
    [ReadToken(c, id), ReadJob(c), SetToken(c)] + if Cancellable(s, id) then [FlipIfQueued(c)] else []
  }

  lemma CancelRun(s: State, c: nat, id: Id) returns (t: State)
    requires c !in s.cancels
    ensures After(s, CancelActions(s, c, id)) == Some(t)
    ensures t == s.(jobs := if Cancellable(s, id) then CancelledIfQueued(s.jobs, id) else s.jobs,
                    flags := if Cancellable(s, id) then s.flags + {id} else s.flags,
                    cancels := s.cancels[c := Returned(id, id in s.tokens, Cancellable(s, id))])
  {
    hide After, CancelledIfQueued;
    var acts;
    acts, t := LookUpRun(s, c, id);
    acts, t := Extend(s, acts, t, SetToken(c));
    if Cancellable(s, id) {
      acts, t := Extend(s, acts, t, FlipIfQueued(c));
    }
    assert acts == CancelActions(s, c, id);
  }

  lemma LookUpRun(s: State, c: nat, id: Id) returns (acts: seq<Action>, t: State)
    requires c !in s.cancels
    ensures acts == [ReadToken(c, id), ReadJob(c)] && After(s, acts) == Some(t)
    ensures var seen := if id in s.jobs then Some(s.jobs[id]) else None;
            t == s.(cancels := s.cancels[c := JobRead(id, id in s.tokens, seen)])
  {
    hide After;
    acts, t := EmptyRun(s);
    acts, t := Extend(s, acts, t, ReadToken(c, id));
    acts, t := Extend(s, acts, t, ReadJob(c));
  }

  lemma ShutdownRun(s: State) returns (t: State)
    requires s.lock.Free?
    ensures After(s, [AcquireToStop, SetFlag, Release]) == Some(t) && t == s.(stopping := true)
  {
    hide After;
    var acts;
    acts, t := EmptyRun(s);
    acts, t := Extend(s, acts, t, AcquireToStop);
    acts, t := Extend(s, acts, t, SetFlag);
    acts, t := Extend(s, acts, t, Release);
    assert acts == [AcquireToStop, SetFlag, Release];
  }

  /** The registry after `_process`. */
  function Processed(jobs: Jobs, token: Option<bool>, id: Id, run: Job -> RunResult): Jobs {
    var (claimed, running) := ClaimedIfRunnable(jobs, token, id);
    if running.None? then claimed else claimed[id := FinalRecord(running.value, run(running.value))]
  }

  /** `on_done` is called for this job. */
  predicate Calls(hasCallback: bool, result: RunResult) {
    hasCallback && result.RunReturned?
  }

  function PublishActions(calls: bool, w: nat): seq<Action> {
    (if calls then [CallOnDone(w), ReturnFromOnDone(w)] else []) + [Publish(w)]
  }

  function RunActions(hasCallback: bool, w: nat, result: RunResult): seq<Action> {
    [FinishRun(w, result)] + PublishActions(Calls(hasCallback, result), w)
  }

  function ProcessActions(s: State, w: nat, id: Id, run: Job -> RunResult): seq<Action> {
    var running := ClaimedIfRunnable(s.jobs, TokenFlag(s, id), id).1;
    [Claim(w)] + if running.None? then [] else [StartRun(w)] + RunActions(s.hasCallback, w, run(running.value))
  }

  /** What `on_done` has been called with. */
  function Callbacks(s: State, id: Id, run: Job -> RunResult): seq<Job> {
    var running := ClaimedIfRunnable(s.jobs, TokenFlag(s, id), id).1;
    if running.Some? && Calls(s.hasCallback, run(running.value)) then [FinalRecord(running.value, run(running.value))]
    else []
  }

  lemma DoneIsCalled(hasCallback: bool, job: Job, result: RunResult)
    ensures FinalRecord(job, result).jobId == job.jobId
    ensures FinalRecord(job, result).status.Done? && hasCallback <==> Calls(hasCallback, result)
  {
  }

  lemma PublishRun(s: State, w: nat) returns (t: State)
    requires w < |s.workers| && s.workers[w].Finished?
    ensures var final := s.workers[w].final;
            && After(s, PublishActions(final.status.Done? && s.hasCallback, w)) == Some(t)
            && t == s.(jobs := s.jobs[final.jobId := final], workers := s.workers[w := Polling], log := t.log)
  {
    hide After;
    var calls := s.workers[w].final.status.Done? && s.hasCallback;
    var acts;
    acts, t := EmptyRun(s);
    if calls {
      acts, t := Extend(s, acts, t, CallOnDone(w));
      acts, t := Extend(s, acts, t, ReturnFromOnDone(w));
    }
    acts, t := Extend(s, acts, t, Publish(w));
    assert acts == PublishActions(calls, w);
  }

  lemma FinishRunOf(s: State, w: nat, job: Job, result: RunResult) returns (t: State)
    requires w < |s.workers| && s.workers[w] == Claimed(job) && job.jobId in s.tokens
    ensures After(s, [StartRun(w)] + [FinishRun(w, result)]) == Some(t)
    ensures t == s.(workers := s.workers[w := Finished(FinalRecord(job, result))], log := t.log)
  {
    hide After, FinalRecord;
    var acts;
    acts, t := EmptyRun(s);
    acts, t := Extend(s, acts, t, StartRun(w));
    acts, t := Extend(s, acts, t, FinishRun(w, result));
    assert acts == [StartRun(w)] + [FinishRun(w, result)];
  }

  lemma ClaimedRun(s: State, w: nat, job: Job, run: Job -> RunResult) returns (t: State)
    requires w < |s.workers| && s.workers[w] == Claimed(job) && job.jobId in s.tokens
    ensures After(s, [StartRun(w)] + RunActions(s.hasCallback, w, run(job))) == Some(t)
    ensures t.(log := s.log)
         == s.(jobs := s.jobs[job.jobId := FinalRecord(job, run(job))], workers := s.workers[w := Polling])
  {
    hide After, FinalRecord, Calls, PublishActions;
    var result := run(job);
    DoneIsCalled(s.hasCallback, job, result);
    var finished := FinishRunOf(s, w, job, result);
    t := PublishRun(finished, w);
    var first, second := [StartRun(w)] + [FinishRun(w, result)], PublishActions(Calls(s.hasCallback, result), w);
    AfterAppend(s, first, finished, second);
    ConcatAssociates([StartRun(w)], [FinishRun(w, result)], second);
  }

  lemma ClaimRun(s: State, w: nat, id: Id) returns (t: State)
    requires w < |s.workers| && s.workers[w] == Dequeued(id)
    ensures After(s, [Claim(w)]) == Some(t)
    ensures var (jobs, running) := ClaimedIfRunnable(s.jobs, TokenFlag(s, id), id);
            t == s.(jobs := jobs, workers := s.workers[w := if running.Some? then Claimed(running.value) else Polling])
  {
    hide After, ClaimedIfRunnable, TokenFlag;
    var acts;
    acts, t := EmptyRun(s);
    acts, t := Extend(s, acts, t, Claim(w));
    assert acts == [Claim(w)];
  }

  /** A job that the registry declines is over; one that it hands out is the registered one. */
  lemma ClaimDecides(jobs: Jobs, token: Option<bool>, id: Id)
    requires id in jobs && jobs[id].jobId == id && token.Some?
    requires jobs[id].status.Queued? || jobs[id].status.Cancelled?
    ensures var (claimed, running) := ClaimedIfRunnable(jobs, token, id);
            && (running.None? ==> id in claimed && claimed[id].status.Terminal())
            && (running.Some? ==> running.value.jobId == id)
  {
  }

  lemma FinalIsTerminal(job: Job, result: RunResult)
    ensures FinalRecord(job, result).status.Terminal()
  {
  }

  lemma ProcessRun(s: State, w: nat, id: Id, run: Job -> RunResult) returns (t: State)
    requires Inv(s) && w < |s.workers| && s.workers[w] == Dequeued(id)
    ensures After(s, ProcessActions(s, w, id, run)) == Some(t)
    ensures t.(log := s.log)
         == s.(jobs := Processed(s.jobs, TokenFlag(s, id), id, run), workers := s.workers[w := Polling])
    ensures id in t.jobs && t.jobs[id].status.Terminal()
  {
    DequeuedFacts(s, w, id);
    ClaimDecides(s.jobs, TokenFlag(s, id), id) by {
      assert NotStarted(s, id);
    }
    hide After, Inv, NotStarted, ClaimedIfRunnable, RunActions, FinalRecord;
    t := ClaimRun(s, w, id);
    var running := ClaimedIfRunnable(s.jobs, TokenFlag(s, id), id).1;
    if running.Some? {
      var result := run(running.value);
      var claimed := t;
      t := ClaimedRun(claimed, w, running.value, run);
      AfterAppend(s, [Claim(w)], claimed, [StartRun(w)] + RunActions(s.hasCallback, w, result));
      FinalIsTerminal(running.value, result);
    } else {
      assert [Claim(w)] + [] == [Claim(w)];
    }
  }

  // ---------------------------------------------------------------------------
  // The code
  // ---------------------------------------------------------------------------

  /** The action is a region of the registry that may change it. */
  predicate IsWrite(a: Action) {
    a.Add? || a.Remove? || a.Claim? || a.Publish? || a.FlipIfQueued?
  }

  function Writes(acts: seq<Action>): nat {
    if acts == [] then 0 else Writes(acts[..|acts| - 1]) + if IsWrite(acts[|acts| - 1]) then 1 else 0
  }

  function IdsOf(jobs: seq<Job>): multiset<Id> {
    if jobs == [] then multiset{} else IdsOf(jobs[..|jobs| - 1]) + multiset{jobs[|jobs| - 1].jobId}
  }

  class JobQueue {
    const maxPending: nat
    const workers: nat
    const hasCallback: bool
    const registry: JobRegistry
    var queue: seq<Id>
    var shutdownEvent: bool
    /** The calls of `on_done` so far. */
    var delivered: seq<Job>
    ghost var view: State
    ghost var trace: seq<Action>

    /** The fields are those of the state that the trace leads to, and the registry has been written
        and `on_done` called exactly as often as the trace says. */
    ghost predicate Matches()
      reads this, registry, registry.tokens.Values
    {
      && registry.jobs == view.jobs
      && registry.tokens.Keys == view.tokens
      && (forall id | id in registry.tokens :: registry.tokens[id].isSet <==> id in view.flags)
      && (forall i, j | i in registry.tokens && j in registry.tokens && i != j ::
            registry.tokens[i] != registry.tokens[j])
      && queue == view.pending && shutdownEvent == view.stopping
      && maxPending == view.maxPending && hasCallback == view.hasCallback
      && registry.writes == Writes(trace) && IdsOf(delivered) == view.log.callbacks
      && After(Initial(maxPending, workers, hasCallback), trace) == Some(view)
    }

    constructor (maxPending: nat, workers: nat, hasCallback: bool)
      requires maxPending > 0 && workers > 0
      ensures Matches() && view == Initial(maxPending, workers, hasCallback) && trace == [] && fresh(registry)
    {
      this.maxPending, this.workers, this.hasCallback := maxPending, workers, hasCallback;
      registry := new JobRegistry();
      queue, shutdownEvent, delivered := [], false, [];
      view, trace := Initial(maxPending, workers, hasCallback), [];
    }

    // Single accesses -------------------------------------------------------------

    /** Records one action of the protocol. */
    ghost method Take(a: Action)
      requires Enabled(view, a) && After(Initial(maxPending, workers, hasCallback), trace) == Some(view)
      modifies this`view, this`trace
      ensures view == Apply(old(view), a) && trace == old(trace) + [a]
      ensures After(Initial(maxPending, workers, hasCallback), trace) == Some(view)
      ensures Writes(trace) == Writes(old(trace)) + if IsWrite(a) then 1 else 0
    {
      hide Apply, Enabled;
      assert (trace + [a])[..|trace|] == trace;
      view, trace := Apply(view, a), trace + [a];
    }

    /** Entering or leaving the region under the lifecycle lock. */
    ghost method Lock(a: Action)
      requires Matches() && Enabled(view, a) && (a.Acquire? || a.AcquireToStop? || a.Release?)
      modifies this`view, this`trace
      ensures Matches() && view == Apply(old(view), a) && trace == old(trace) + [a]
      ensures OnlyLock(old(view), view)
      ensures view.lock == match a case Acquire(job) => Checking(job) case AcquireToStop => Stopping case _ => Free
    {
      hide After, Writes;
      Take(a);
    }

    method CheckFlag() returns (stopping: bool)
      requires Matches() && Enabled(view, Check)
      modifies this`view, this`trace
      ensures Matches() && view == Apply(old(view), Check) && trace == old(trace) + [Check]
      ensures stopping == old(view).stopping && OnlyLock(old(view), view)
      ensures view.lock == if stopping then Leaving else Adding(old(view).lock.job)
    {
      hide After, Writes;
      stopping := shutdownEvent;
      Take(Check);
    }

    method AddJob(job: Job, token: CancelToken)
      requires Matches() && view.lock == Adding(job) && job.jobId !in view.flags
      requires !token.isSet && token !in registry.tokens.Values
      modifies this`view, this`trace, registry
      ensures Matches() && view == Apply(old(view), Add) && trace == old(trace) + [Add]
      ensures OnlyLock(old(view), view) && view.lock == Putting(job)
    {
      hide After, Writes;
      registry.Add(job, token);
      Take(Add);
    }

    method PutNoWait(id: Id) returns (full: bool)
      requires Matches() && view.lock.Putting? && view.lock.job.jobId == id
      modifies this`queue, this`view, this`trace
      ensures Matches() && view == Apply(old(view), Put) && trace == old(trace) + [Put]
      ensures full <==> |old(view).pending| >= old(view).maxPending
      ensures view.lock == if full then Removing(old(view).lock.job) else Leaving
    {
      hide After, Writes;
      full := |queue| >= maxPending;
      if !full {
        queue := queue + [id];
      }
      Take(Put);
    }

    method RemoveJob(id: Id)
      requires Matches() && view.lock.Removing? && view.lock.job.jobId == id
      modifies this`view, this`trace, registry
      ensures Matches() && view == Apply(old(view), Remove) && trace == old(trace) + [Remove]
      ensures view.lock == Leaving
    {
      hide After, Writes;
      registry.Remove(id);
      Take(Remove);
    }

    method SetShutdownEvent()
      requires Matches() && Enabled(view, SetFlag)
      modifies this`shutdownEvent, this`view, this`trace
      ensures Matches() && view == Apply(old(view), SetFlag) && trace == old(trace) + [SetFlag]
      ensures view.lock == Leaving
    {
      hide After, Writes;
      shutdownEvent := true;
      Take(SetFlag);
    }

    method LookUpToken(c: nat, id: Id) returns (token: CancelToken?)
      requires Matches() && Enabled(view, ReadToken(c, id))
      modifies this`view, this`trace
      ensures Matches() && view == Apply(old(view), ReadToken(c, id)) && trace == old(trace) + [ReadToken(c, id)]
      ensures if id in registry.tokens then token == registry.tokens[id] else token == null
      ensures view == old(view).(cancels := view.cancels)
      ensures c in view.cancels && view.cancels[c] == TokenRead(id, id in view.tokens)
    {
      hide After, Writes;
      token := registry.Token(id);
      Take(ReadToken(c, id));
    }

    method LookUpJob(c: nat, id: Id) returns (job: Option<Job>)
      requires Matches() && Enabled(view, ReadJob(c)) && view.cancels[c].id == id
      modifies this`view, this`trace
      ensures Matches() && view == Apply(old(view), ReadJob(c)) && trace == old(trace) + [ReadJob(c)]
      ensures view == old(view).(cancels := view.cancels)
      ensures c in view.cancels && view.cancels[c] == JobRead(id, old(view).cancels[c].found, job)
      ensures job == if id in view.jobs then Some(view.jobs[id]) else None
    {
      hide After, Writes;
      job := registry.Get(id);
      Take(ReadJob(c));
    }

    /** `cancel` returns without effect. */
    ghost method GiveUp(c: nat)
      requires Matches() && Enabled(view, SetToken(c))
      requires var p := view.cancels[c]; !p.found || p.seen.None? || p.seen.value.status.Terminal()
      modifies this`view, this`trace
      ensures Matches() && view == Apply(old(view), SetToken(c)) && trace == old(trace) + [SetToken(c)]
    {
      hide After, Writes;
      Take(SetToken(c));
    }

    method SignalToken(c: nat, token: CancelToken)
      requires Matches() && Enabled(view, SetToken(c))
      requires var p := view.cancels[c];
               && p.found && p.seen.Some? && !p.seen.value.status.Terminal()
               && p.id in registry.tokens && registry.tokens[p.id] == token
      modifies this`view, this`trace, token
      ensures Matches() && view == Apply(old(view), SetToken(c)) && trace == old(trace) + [SetToken(c)]
      ensures c in view.cancels && view.cancels[c] == TokenSet(old(view).cancels[c].id)
    {
      hide After, Writes;
      token.Cancel();
      Take(SetToken(c));
    }

    method Flip(c: nat, id: Id)
      requires Matches() && Enabled(view, FlipIfQueued(c)) && view.cancels[c].id == id
      modifies this`view, this`trace, registry`jobs, registry`writes
      ensures Matches() && view == Apply(old(view), FlipIfQueued(c)) && trace == old(trace) + [FlipIfQueued(c)]
    {
      hide After, Writes;
      var _ := registry.CancelIfQueued(id);
      Take(FlipIfQueued(c));
    }

    method GetWithTimeout(w: nat) returns (id: Option<Id>)
      requires Matches() && Enabled(view, Poll(w))
      modifies this`queue, this`view, this`trace
      ensures Matches() && view == Apply(old(view), Poll(w)) && trace == old(trace) + [Poll(w)]
      ensures id == if old(queue) == [] then None else Some(old(queue)[0])
      ensures queue == if id.None? then [] else old(queue)[1..]
      ensures |view.workers| == |old(view).workers|
      ensures view.workers[w] == if id.None? then SawEmpty(old(view).stopping) else Dequeued(id.value)
    {
      hide After, Writes;
      id := None;
      if queue != [] {
        id, queue := Some(queue[0]), queue[1..];
      }
      Take(Poll(w));
    }

    method SeesShutdown(w: nat) returns (stopping: bool)
      requires Matches() && Enabled(view, TestFlag(w))
      modifies this`view, this`trace
      ensures Matches() && view == Apply(old(view), TestFlag(w)) && trace == old(trace) + [TestFlag(w)]
      ensures stopping == view.stopping && |view.workers| == |old(view).workers|
      ensures view.workers[w] == if stopping then Exited(old(view).workers[w].afterFlag) else Polling
    {
      hide After, Writes;
      stopping := shutdownEvent;
      Take(TestFlag(w));
    }

    method ClaimJob(w: nat, id: Id) returns (running: Option<Job>)
      requires Matches() && Enabled(view, Claim(w)) && view.workers[w].id == id
      modifies this`view, this`trace, registry`jobs, registry`writes
      ensures Matches() && view == Apply(old(view), Claim(w)) && trace == old(trace) + [Claim(w)]
      ensures running == ClaimedIfRunnable(old(view).jobs, TokenFlag(old(view), id), id).1
      ensures view.tokens == old(view).tokens && |view.workers| == |old(view).workers|
      ensures view.workers[w] == if running.Some? then Claimed(running.value) else Polling
    {
      hide After, Writes;
      assert registry.TokenFlag(id) == TokenFlag(view, id);
      running := registry.StartIfRunnable(id);
      Take(Claim(w));
    }

    method FetchToken(w: nat, id: Id) returns (token: CancelToken?)
      requires Matches() && Enabled(view, StartRun(w)) && view.workers[w].job.jobId == id
      modifies this`view, this`trace
      ensures Matches() && view == Apply(old(view), StartRun(w)) && trace == old(trace) + [StartRun(w)]
      ensures token == null <==> id !in old(view).tokens
      ensures view.hasCallback == old(view).hasCallback
      ensures |view.workers| == |old(view).workers|
      ensures view.workers[w] == if token == null then Polling else InRun(old(view).workers[w].job)
    {
      hide After, Writes;
      token := registry.Token(id);
      Take(StartRun(w));
    }

    /** `worker.run` touches nothing that is shared here; `result` is how it ends. */
    method RunWorker(w: nat, job: Job, run: Job -> RunResult) returns (result: RunResult)
      requires Matches() && w < |view.workers| && view.workers[w] == InRun(job)
      requires Enabled(view, FinishRun(w, run(job)))
      modifies this`view, this`trace
      ensures result == run(job)
      ensures |view.workers| == |old(view).workers| && view.workers[w] == Finished(FinalRecord(job, result))
      ensures view.hasCallback == old(view).hasCallback
      ensures Matches() && view == Apply(old(view), FinishRun(w, run(job)))
              && trace == old(trace) + [FinishRun(w, result)]
    {
      hide After, Writes;
      result := run(job);
      Take(FinishRun(w, result));
    }

    /** `on_done` is called and returns, or what it raises is swallowed. */
    method Notify(w: nat, done: Job)
      requires Matches() && Enabled(view, CallOnDone(w)) && view.workers[w].final == done
      modifies this`delivered, this`view, this`trace
      ensures Matches() && trace == old(trace) + [CallOnDone(w)] + [ReturnFromOnDone(w)]
      ensures |view.workers| == |old(view).workers| && view.workers[w] == CallbackDone(done)
      ensures delivered == old(delivered) + [done]
    {
      hide After, Writes;
      Take(CallOnDone(w));
      assert (delivered + [done])[..|delivered|] == delivered;
      delivered := delivered + [done];
      Take(ReturnFromOnDone(w));
    }

    method PublishRecord(w: nat, final: Job)
      requires Matches() && Enabled(view, Publish(w)) && view.workers[w].final == final
      modifies this`view, this`trace, registry`jobs, registry`writes
      ensures Matches() && view == Apply(old(view), Publish(w)) && trace == old(trace) + [Publish(w)]
    {
      hide After, Writes;
      registry.Replace(final);
      Take(Publish(w));
    }

    // The calls ---------------------------------------------------------------------

    lemma Fields()
      requires Matches()
      ensures registry.jobs == view.jobs && registry.tokens.Keys == view.tokens
      ensures After(Initial(maxPending, workers, hasCallback), trace) == Some(view)
      ensures queue == view.pending && shutdownEvent == view.stopping
      ensures maxPending == view.maxPending && hasCallback == view.hasCallback
    {
    }

    lemma FlagMatches(id: Id)
      requires Matches()
      ensures registry.TokenFlag(id) == TokenFlag(view, id)
    {
    }

    /** The trace has grown by `acts`, which lead from the one view to the other. */
    lemma TraceGrew(before: seq<Action>, was: State, acts: seq<Action>)
      requires Matches() && trace == before + acts
      requires After(Initial(maxPending, workers, hasCallback), before) == Some(was)
      ensures After(was, acts) == Some(view)
    {
      AfterAppend(Initial(maxPending, workers, hasCallback), before, was, acts);
    }

    method Submit(job: Job) returns (result: SubmitResult)
      requires Matches() && Inv(view) && view.lock.Free?
      requires job.jobId !in view.log.used && job.status.Queued? && job.outcome.NoOutcome?
      modifies this`queue, this`view, this`trace, registry
      ensures Matches() && view.lock.Free?
      ensures trace == old(trace) + SubmitActions(old(view), job)
      ensures After(old(view), SubmitActions(old(view), job)) == Some(view)
      ensures result == if old(shutdownEvent) then ShuttingDown
                        else if |old(queue)| < maxPending then Accepted(job) else QueueFull
      ensures result.Accepted? ==>
                queue == old(queue) + [job.jobId] && registry.jobs == old(registry.jobs)[job.jobId := job]
      ensures !result.Accepted? ==>
                queue == old(queue) && registry.jobs == old(registry.jobs)
                    && registry.tokens.Keys == old(registry.tokens.Keys)
    {
      hide After, Inv, Writes, Matches, Apply;
      Fields();
      UnusedIsUnregistered(view, job.jobId);
      ghost var t := SubmitRun(view, job);
      var token := new CancelToken();
      Lock(Acquire(job));
      var stopping := CheckFlag();
      if stopping {
        result := ShuttingDown;
      } else {
        AddJob(job, token);
        var full := PutNoWait(job.jobId);
        if full {
          RemoveJob(job.jobId);
          result := QueueFull;
        } else {
          result := Accepted(job);
        }
      }
      Lock(Release);
      assert trace == old(trace) + SubmitActions(old(view), job);
      TraceGrew(old(trace), old(view), SubmitActions(old(view), job));
      Fields();
    }

    /** The two reads of `cancel`, in this order. */
    method LookUp(c: nat, id: Id) returns (token: CancelToken?, job: Option<Job>)
      requires Matches() && c !in view.cancels
      modifies this`view, this`trace
      ensures Matches() && trace == old(trace) + [ReadToken(c, id)] + [ReadJob(c)]
      ensures view == old(view).(cancels := view.cancels)
      ensures c in view.cancels && view.cancels[c] == JobRead(id, id in view.tokens, job)
      ensures if id in registry.tokens then token == registry.tokens[id] else token == null
      ensures job == if id in view.jobs then Some(view.jobs[id]) else None
    {
      hide After, Writes, Matches, Apply;
      token := LookUpToken(c, id);
      job := LookUpJob(c, id);
    }

    method Cancel(c: nat, id: Id) returns (result: bool)
      requires Matches() && c !in view.cancels
      modifies this`view, this`trace, registry`jobs, registry`writes, registry.tokens.Values
      ensures Matches() && trace == old(trace) + CancelActions(old(view), c, id)
      ensures After(old(view), CancelActions(old(view), c, id)) == Some(view)
      ensures c in view.cancels && view.cancels[c] == Returned(id, id in old(registry.tokens), result)
      ensures result <==>
                id in old(registry.tokens) && id in old(registry.jobs) && !old(registry.jobs)[id].status.Terminal()
      ensures registry.jobs == if result then CancelledIfQueued(old(registry.jobs), id) else old(registry.jobs)
    {
      hide After, Writes, Matches, Apply, CancelledIfQueued;
      Fields();
      ghost var t := CancelRun(view, c, id);
      var token, job := LookUp(c, id);
      if token == null || job.None? || job.value.status.Terminal() {
        GiveUp(c);
        result := false;
      } else {
        SignalToken(c, token);
        Flip(c, id);
        result := true;
      }
      assert trace == old(trace) + CancelActions(old(view), c, id);
      TraceGrew(old(trace), old(view), CancelActions(old(view), c, id));
      Fields();
    }

    /** The part of `shutdown` under the lock. */
    method RequestShutdown()
      requires Matches() && view.lock.Free?
      modifies this`shutdownEvent, this`view, this`trace
      ensures Matches() && view == old(view).(stopping := true)
      ensures trace == old(trace) + [AcquireToStop, SetFlag, Release]
      ensures After(old(view), [AcquireToStop, SetFlag, Release]) == Some(view)
    {
      hide After, Writes, Matches, Apply;
      Fields();
      ghost var t := ShutdownRun(view);
      Lock(AcquireToStop);
      SetShutdownEvent();
      Lock(Release);
      assert trace == old(trace) + [AcquireToStop, SetFlag, Release];
      TraceGrew(old(trace), old(view), [AcquireToStop, SetFlag, Release]);
    }

    /** `_process` by worker `w`; `run` says how `worker.run` ends for a job. */
    method Process(w: nat, id: Id, run: Job -> RunResult)
      requires Matches() && Inv(view) && w < |view.workers| && view.workers[w] == Dequeued(id)
      modifies this`delivered, this`view, this`trace, registry`jobs, registry`writes
      ensures Matches() && trace == old(trace) + ProcessActions(old(view), w, id, run)
      ensures After(old(view), ProcessActions(old(view), w, id, run)) == Some(view)
      ensures view.(log := old(view).log)
           == old(view).(jobs := Processed(old(registry.jobs), old(registry.TokenFlag(id)), id, run),
               workers := old(view).workers[w := Polling])
      ensures id in registry.jobs && registry.jobs[id].status.Terminal()
      ensures delivered == old(delivered) + Callbacks(old(view), id, run)
    {
      hide After, Writes, Inv, NotStarted, Matches, Apply;
      Fields();
      FlagMatches(id);
      DequeuedFacts(view, w, id);
      ghost var t := ProcessRun(view, w, id, run);
      var running := ClaimJob(w, id);
      if running.Some? {
        RunClaimed(w, running.value, run);
        assert [Claim(w)] + [StartRun(w)] + RunActions(hasCallback, w, run(running.value))
            == [Claim(w)] + ([StartRun(w)] + RunActions(hasCallback, w, run(running.value)));
      }
      assert trace == old(trace) + ProcessActions(old(view), w, id, run);
      TraceGrew(old(trace), old(view), ProcessActions(old(view), w, id, run));
      Fields();
    }

    /** The part of `_process` after the claim: the token of a claimed job is always found. */
    method RunClaimed(w: nat, running: Job, run: Job -> RunResult)
      requires Matches() && w < |view.workers| && view.workers[w] == Claimed(running) && running.jobId in view.tokens
      modifies this`delivered, this`view, this`trace, registry`jobs, registry`writes
      ensures Matches() && trace == old(trace) + [StartRun(w)] + RunActions(hasCallback, w, run(running))
      ensures delivered
           == old(delivered) + if Calls(hasCallback, run(running)) then [FinalRecord(running, run(running))] else []
    {
      hide After, Writes, Matches, Apply;
      var token := FetchToken(w, running.jobId);
      if token == null {
        assert false;
      }
      RunAndPublish(w, running, run);
    }

    /** The part of `_process` from the call of `worker.run` on. */
    method RunAndPublish(w: nat, running: Job, run: Job -> RunResult)
      requires Matches() && w < |view.workers| && view.workers[w] == InRun(running)
      modifies this`delivered, this`view, this`trace, registry`jobs, registry`writes
      ensures Matches() && trace == old(trace) + RunActions(hasCallback, w, run(running))
      ensures delivered
           == old(delivered) + if Calls(hasCallback, run(running)) then [FinalRecord(running, run(running))] else []
    {
      hide After, Writes, Matches, Apply;
      Fields();
      var result := RunWorker(w, running, run);
      match result {
        case RunAborted =>
          PublishRecord(w, running.(status := Cancelled));
        case RunRaised(message) =>
          PublishRecord(w, running.(status := Failed, outcome := Error(message)));
        case RunReturned(findings) =>
          var done := running.(status := Done, outcome := Result(findings));
          if hasCallback {
            Notify(w, done);
          }
          PublishRecord(w, done);
      }
    }

    /** One turn of `_work_loop`: a job, if there is one; otherwise the worker stops iff the flag is
        set. */
    method Turn(w: nat, run: Job -> RunResult) returns (stopped: bool, ghost acts: seq<Action>)
      requires Matches() && Inv(view) && w < |view.workers| && view.workers[w] == Polling
      modifies this`queue, this`delivered, this`view, this`trace, registry`jobs, registry`writes
      ensures Matches() && Inv(view) && trace == old(trace) + acts && w < |view.workers|
      ensures stopped <==> old(queue) == [] && shutdownEvent
      ensures queue == if old(queue) == [] then [] else old(queue)[1..]
      ensures view.workers[w] == if stopped then Exited(true) else Polling
    {
      hide After, Writes, Inv, Matches, Apply, ProcessActions, Processed, Callbacks;
      Fields();
      StepKeepsInvariant(view, Poll(w));
      var id := GetWithTimeout(w);
      if id.None? {
        StepKeepsInvariant(view, TestFlag(w));
        stopped := SeesShutdown(w);
        Fields();
        acts := [Poll(w)] + [TestFlag(w)];
      } else {
        ghost var before := view;
        Process(w, id.value, run);
        RunKeepsInvariant(before, ProcessActions(before, w, id.value, run));
        acts := [Poll(w)] + ProcessActions(before, w, id.value, run);
        stopped := false;
      }
    }

    /** `_work_loop` once the shutdown flag is set: worker `w` empties the queue, and its final look
        at the empty queue came after the flag. */
    method WorkLoop(w: nat, run: Job -> RunResult) returns (ghost acts: seq<Action>)
      requires Matches() && Inv(view) && w < |view.workers| && view.workers[w] == Polling && shutdownEvent
      modifies this`queue, this`delivered, this`view, this`trace, registry`jobs, registry`writes
      ensures Matches() && trace == old(trace) + acts && After(old(view), acts) == Some(view)
      ensures queue == [] && w < |view.workers| && view.workers[w] == Exited(true)
    {
      hide After, Writes, Inv, Matches, Apply;
      Fields();
      acts := [];
      while true
        invariant Matches() && trace == old(trace) + acts && Inv(view)
        invariant w < |view.workers| && view.workers[w] == Polling && shutdownEvent
        decreases |queue|
      {
        ghost var more;
        var stopped;
        stopped, more := Turn(w, run);
        assert old(trace) + acts + more == old(trace) + (acts + more);
        acts := acts + more;
        if stopped {
          TraceGrew(old(trace), old(view), acts);
          return;
        }
      }
    }
  }

  lemma UnusedIsUnregistered(s: State, id: Id)
    requires Inv(s) && id !in s.log.used
    ensures id !in s.jobs && id !in s.tokens && id !in s.flags && id !in s.log.accepted && id !in s.log.refused
  {
    hide CancelOk, LockOk, PhaseOk;
    assert RecordOk(s, id);
  }

  lemma DequeuedFacts(s: State, w: nat, id: Id)
    requires Inv(s) && w < |s.workers| && s.workers[w] == Dequeued(id)
    ensures id in s.jobs && s.jobs[id].jobId == id && id in s.tokens && NotStarted(s, id)
  {
    hide CancelOk, LockOk;
    assert PhaseOk(s, w, s.workers[w]);
    assert RecordOk(s, id);
  }
}
