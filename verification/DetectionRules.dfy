/** What the windowed detectors decide, as values: which events count, what the window is
    measured by, one evaluation step, and the statement the steps are proved to meet. */
module DetectionRules {
  import opened Models
  import opened Sequences
  import opened SlidingWindow

  datatype Kind =
    | BruteForce(statuses: set<int>, matchPaths: seq<string>)
    | BruteForceSuccess(statuses: set<int>, successStatuses: set<int>, matchPaths: seq<string>)
    | ScannerBurst(statuses: set<int>, probePaths: seq<string>)
    | SshInvalidUserEnum
    | RateLimitAbuse(statuses: set<int>)

  datatype RuleSpec = RuleSpec(ruleId: string, severity: int, threshold: int, windowSeconds: int, kind: Kind)

  /** The loader insists on a positive window, though not on a positive threshold. */
  predicate ValidSpec(spec: RuleSpec) {
    spec.windowSeconds > 0
  }

  type Rule = spec: RuleSpec | ValidSpec(spec) witness RuleSpec("", 0, 1, 1, SshInvalidUserEnum)

  /** The success rule reads the first event of a window that may be empty; a threshold that an
      empty window does not meet keeps it from doing so. */
  predicate NeverRaises(rule: Rule) {
    rule.kind.BruteForceSuccess? ==> rule.threshold >= 1
  }

  type SafeRule = rule: Rule | NeverRaises(rule) witness RuleSpec("", 0, 1, 1, SshInvalidUserEnum)

  predicate HasStatus(e: LogEvent, statuses: set<int>) {
    e.status.Some? && e.status.value in statuses
  }

  predicate IsFailure(e: LogEvent, statuses: set<int>, matchPaths: seq<string>) {
    if e.source == Web then
      HasStatus(e, statuses) && (matchPaths == [] || StartsWithAny(TextOr(e.path), matchPaths))
    else
      Contains(TextOr(e.message), "Failed password")
  }

  predicate IsSuccess(e: LogEvent, statuses: set<int>) {
    if e.source == Web then HasStatus(e, statuses)
    else Contains(TextOr(e.message), "Accepted password")
  }

  predicate IsProbe(e: LogEvent, statuses: set<int>, probePaths: seq<string>) {
    HasStatus(e, statuses) && (probePaths == [] || StartsWithAny(TextOr(e.path), probePaths))
  }

  predicate IsInvalidUserAttempt(e: LogEvent) {
    Contains(TextOr(e.message), "invalid user")
  }

  /** The events a rule adds to its counter. */
  predicate Records(kind: Kind, e: LogEvent) {
    match kind
    case BruteForce(statuses, paths) => IsFailure(e, statuses, paths)
    case BruteForceSuccess(statuses, _, paths) => IsFailure(e, statuses, paths)
    case ScannerBurst(statuses, paths) => IsProbe(e, statuses, paths)
    case SshInvalidUserEnum => IsInvalidUserAttempt(e)
    case RateLimitAbuse(statuses) => HasStatus(e, statuses)
  }

  /** The events at which a rule looks at the window. */
  predicate Probes(kind: Kind, e: LogEvent) {
    match kind
    case BruteForceSuccess(statuses, successes, paths) => !IsFailure(e, statuses, paths) && IsSuccess(e, successes)
    case _ => Records(kind, e)
  }

  function DistinctPaths(window: seq<LogEvent>): set<string> {
    set e | e in window && e.path.Some? && e.path.value != "" :: e.path.value
  }

  function DistinctUsers(window: seq<LogEvent>): set<string> {
    set e | e in window && e.user.Some? && e.user.value != "" :: e.user.value
  }

  /** What a rule compares with its threshold. */
  function Level(kind: Kind, window: seq<LogEvent>): nat {
    match kind
    case ScannerBurst(_, _) => |DistinctPaths(window)|
    case SshInvalidUserEnum => |DistinctUsers(window)|
    case _ => |window|
  }

  function BuildFinding(rule: Rule, ip: string, window: seq<LogEvent>, e: LogEvent): Finding
    requires window != []
  {
    var success := rule.kind.BruteForceSuccess?;
    Finding(
      rule.ruleId, rule.severity, Some(ip),
      if rule.kind.SshInvalidUserEnum? then DistinctUsers(window) else {},
      window[0].timestamp,
      if success then e.timestamp else window[|window| - 1].timestamp,
      if success then |window| + 1 else |window|,
      EvidenceOf(if success then window + [e] else window),
      {})
  }

  // ---------------------------------------------------------------------------
  // Evaluation
  // ---------------------------------------------------------------------------

  datatype RuleState = RuleState(entries: Entries, flagged: set<string>)

  const FRESH := RuleState(map[], {})

  function Cutoff(rule: Rule, e: LogEvent): Instant {
    e.timestamp - Seconds(rule.windowSeconds)
  }

  /** The counter after `e`, which has address `ip`. */
  function EntriesAfter(rule: Rule, st: RuleState, ip: string, e: LogEvent): Entries {
    if Records(rule.kind, e) then Added(st.entries, rule.windowSeconds, ip, e) else st.entries
  }

  /** The window the rule looks at when it probes at `e`. */
  function ProbeWindow(rule: Rule, st: RuleState, ip: string, e: LogEvent): seq<LogEvent> {
    Filter(Recent(Cutoff(rule, e)), Bucket(EntriesAfter(rule, st, ip, e), ip))
  }

  predicate Fires(rule: Rule, st: RuleState, e: LogEvent) {
    e.ip.Some? && Probes(rule.kind, e) && e.ip.value !in st.flagged
    && Level(rule.kind, ProbeWindow(rule, st, e.ip.value, e)) >= rule.threshold
  }

  function Step(rule: Rule, st: RuleState, e: LogEvent): (RuleState, seq<Finding>) {
    if e.ip.None? then (st, [])
    else
      var ip, entries := e.ip.value, EntriesAfter(rule, st, e.ip.value, e);
      var window := ProbeWindow(rule, st, ip, e);
      if Fires(rule, st, e) then
        (RuleState(entries, st.flagged + {ip}), if window == [] then [] else [BuildFinding(rule, ip, window, e)])
      else
        (RuleState(entries, st.flagged), [])
  }

  /** The finding is built from an empty window: `window[0]` raises IndexError. */
  predicate Raises(rule: Rule, st: RuleState, e: LogEvent) {
    Fires(rule, st, e) && ProbeWindow(rule, st, e.ip.value, e) == []
  }

  /** Evaluating these events raises at one of them. */
  predicate RaisesIn(rule: Rule, st: RuleState, xs: seq<LogEvent>) {
    xs != [] && (RaisesIn(rule, st, xs[..|xs| - 1]) || Raises(rule, Run(rule, st, xs[..|xs| - 1]).0, xs[|xs| - 1]))
  }

  function Run(rule: Rule, st: RuleState, xs: seq<LogEvent>): (RuleState, seq<Finding>) {
    if xs == [] then (st, [])
    else
      var (st1, found) := Run(rule, st, xs[..|xs| - 1]);
      var (st2, more) := Step(rule, st1, xs[|xs| - 1]);
      (st2, found + more)
  }

  /** A rule that records and looks at the same event sees just the evicted bucket. */
  lemma RecordingProbeWindow(rule: Rule, st: RuleState, ip: string, e: LogEvent)
    requires Records(rule.kind, e)
    ensures ProbeWindow(rule, st, ip, e) == Bucket(Added(st.entries, rule.windowSeconds, ip, e), ip)
  {
    var p := Recent(Cutoff(rule, e));
    FilterCompose(p, p, p, Bucket(st.entries, ip) + [e]);
  }

  lemma FiringWindowIsNonempty(rule: Rule, st: RuleState, e: LogEvent)
    requires Fires(rule, st, e) && NeverRaises(rule)
    ensures ProbeWindow(rule, st, e.ip.value, e) != []
  {
    if !rule.kind.BruteForceSuccess? {
      RecordingProbeWindow(rule, st, e.ip.value, e);
      FilterSnoc(Recent(Cutoff(rule, e)), Bucket(st.entries, e.ip.value), e);
    }
  }

  lemma RunSnoc(rule: Rule, st: RuleState, xs: seq<LogEvent>, i: nat)
    requires i < |xs|
    ensures var (before, found) := Run(rule, st, xs[..i]);
            var (after, more) := Step(rule, before, xs[i]);
            && Run(rule, st, xs[..i + 1]) == (after, found + more)
            && (RaisesIn(rule, st, xs[..i + 1]) <==> RaisesIn(rule, st, xs[..i]) || Raises(rule, before, xs[i]))
  {
    hide Step, Raises;
    assert xs[..i + 1][..i] == xs[..i];
  }

  /** The step at an event that does not concern the rule. */
  lemma SkippingStep(rule: Rule, st: RuleState, e: LogEvent)
    requires e.ip.None? || (!Records(rule.kind, e) && !Probes(rule.kind, e))
    ensures Step(rule, st, e) == (st, []) && !Raises(rule, st, e)
  {
    hide Records, ProbeWindow;
  }

  /** The step of a rule that looks at the window of what it has just recorded. */
  lemma CountingStep(rule: Rule, st: RuleState, e: LogEvent, window: seq<LogEvent>)
    requires !rule.kind.BruteForceSuccess? && e.ip.Some? && Records(rule.kind, e)
    requires window == Bucket(Added(st.entries, rule.windowSeconds, e.ip.value, e), e.ip.value)
    ensures window != []
    ensures var entries := Added(st.entries, rule.windowSeconds, e.ip.value, e);
            Step(rule, st, e)
            == if Level(rule.kind, window) >= rule.threshold && e.ip.value !in st.flagged
               then (RuleState(entries, st.flagged + {e.ip.value}), [BuildFinding(rule, e.ip.value, window, e)])
               else (RuleState(entries, st.flagged), [])
  {
    hide Records, Filter, Level, ProbeWindow;
    RecordingProbeWindow(rule, st, e.ip.value, e);
    FilterSnoc(Recent(Cutoff(rule, e)), Bucket(st.entries, e.ip.value), e);
  }

  /** The steps of the success rule at a failure and at a success. */
  lemma FailureStep(rule: Rule, st: RuleState, e: LogEvent)
    requires rule.kind.BruteForceSuccess? && e.ip.Some? && Records(rule.kind, e)
    ensures Step(rule, st, e) == (RuleState(Added(st.entries, rule.windowSeconds, e.ip.value, e), st.flagged), [])
    ensures !Raises(rule, st, e)
  {
    hide Filter, ProbeWindow;
  }

  lemma SuccessStep(rule: Rule, st: RuleState, e: LogEvent, window: seq<LogEvent>)
    requires rule.kind.BruteForceSuccess? && e.ip.Some? && Probes(rule.kind, e)
    requires window == Filter(Recent(e.timestamp - Seconds(rule.windowSeconds)), Bucket(st.entries, e.ip.value))
    ensures var fires := |window| >= rule.threshold && e.ip.value !in st.flagged;
            && (Raises(rule, st, e) <==> fires && window == [])
            && Step(rule, st, e).0 == (if fires then RuleState(st.entries, st.flagged + {e.ip.value}) else st)
            && Step(rule, st, e).1
               == (if fires && window != [] then [BuildFinding(rule, e.ip.value, window, e)] else [])
  {
    hide Filter;
    assert !Records(rule.kind, e);
  }

  lemma {:induction false} SafeRulesDoNotRaise(rule: Rule, st: RuleState, xs: seq<LogEvent>)
    requires NeverRaises(rule)
    ensures !RaisesIn(rule, st, xs)
  {
    hide Run, ProbeWindow, Fires;
    if xs != [] {
      var front, last := xs[..|xs| - 1], xs[|xs| - 1];
      SafeRulesDoNotRaise(rule, st, front);
      if Fires(rule, Run(rule, st, front).0, last) {
        FiringWindowIsNonempty(rule, Run(rule, st, front).0, last);
      }
    }
  }

  /** Feeding a rule in one batch or in two makes no difference. */
  lemma {:induction false} RunAppend(rule: Rule, st: RuleState, xs: seq<LogEvent>, ys: seq<LogEvent>)
    ensures var first := Run(rule, st, xs);
            var second := Run(rule, first.0, ys);
            Run(rule, st, xs + ys) == (second.0, first.1 + second.1)
  {
    if ys == [] {
      assert xs + ys == xs;
      assert Run(rule, st, xs).1 + [] == Run(rule, st, xs).1;
    } else {
      var front, last := ys[..|ys| - 1], ys[|ys| - 1];
      RunAppend(rule, st, xs, front);
      assert (xs + ys)[..|xs + ys| - 1] == xs + front && (xs + ys)[|xs + ys| - 1] == last;
      var (st1, found) := Run(rule, st, xs);
      var (st2, more) := Run(rule, st1, front);
      var (st3, last') := Step(rule, st2, last);
      assert found + more + last' == found + (more + last');
    }
  }

  // ---------------------------------------------------------------------------
  // The declarative statement
  // ---------------------------------------------------------------------------

  ghost predicate OrderedPerIp(xs: seq<LogEvent>) {
    forall i, j | 0 <= i < j < |xs| && xs[i].ip == xs[j].ip :: xs[i].timestamp <= xs[j].timestamp
  }

  function InWindowOf(rule: Rule, e: LogEvent): LogEvent -> bool {
    (f: LogEvent) => f.ip == e.ip && Records(rule.kind, f) && f.timestamp >= Cutoff(rule, e)
  }

  /** All events up to the i-th, of its address, that count for the rule and lie in the window
      ending at it: nothing evicted, nothing remembered. */
  function Window(rule: Rule, xs: seq<LogEvent>, i: nat): seq<LogEvent>
    requires i < |xs|
  {
    Filter(InWindowOf(rule, xs[i]), xs[..i + 1])
  }

  predicate Triggers(rule: Rule, xs: seq<LogEvent>, i: nat)
    requires i < |xs|
  {
    xs[i].ip.Some? && Probes(rule.kind, xs[i]) && Level(rule.kind, Window(rule, xs, i)) >= rule.threshold
  }

  ghost predicate TriggeredBefore(rule: Rule, xs: seq<LogEvent>, n: nat, ip: string)
    requires n <= |xs|
  {
    exists i: nat | i < n :: Triggers(rule, xs, i) && xs[i].ip == Some(ip)
  }

  /** The i-th event is the earliest trigger of its address. */
  ghost predicate FirstTrigger(rule: Rule, xs: seq<LogEvent>, i: nat)
    requires i < |xs|
  {
    Triggers(rule, xs, i) && !TriggeredBefore(rule, xs, i, xs[i].ip.value)
  }

  lemma TriggerWindowIsNonempty(rule: Rule, xs: seq<LogEvent>, i: nat)
    requires i < |xs| && Triggers(rule, xs, i) && NeverRaises(rule)
    ensures Window(rule, xs, i) != []
  {
    if !rule.kind.BruteForceSuccess? {
      assert xs[..i + 1] == xs[..i] + [xs[i]];
      FilterSnoc(InWindowOf(rule, xs[i]), xs[..i], xs[i]);
    }
  }

  ghost function FindingAt(rule: Rule, xs: seq<LogEvent>, i: nat): Finding
    requires i < |xs| && Triggers(rule, xs, i) && Window(rule, xs, i) != []
  {
    BuildFinding(rule, xs[i].ip.value, Window(rule, xs, i), xs[i])
  }

  /** One finding per earliest trigger, in event order. */
  ghost function Declared(rule: Rule, xs: seq<LogEvent>, n: nat): seq<Finding>
    requires n <= |xs|
  {
    if n == 0 then []
    else if FirstTrigger(rule, xs, n - 1) && Window(rule, xs, n - 1) != [] then
      Declared(rule, xs, n - 1) + [FindingAt(rule, xs, n - 1)]
    else Declared(rule, xs, n - 1)
  }

  function RecordedFor(rule: Rule, ip: string): LogEvent -> bool {
    (f: LogEvent) => f.ip == Some(ip) && Records(rule.kind, f)
  }

  /** What the remembered state says about the n events seen so far. */
  ghost predicate Remembers(rule: Rule, xs: seq<LogEvent>, n: nat, st: RuleState)
    requires n <= |xs|
  {
    && (forall ip :: Lossless(rule.windowSeconds, Bucket(st.entries, ip), Filter(RecordedFor(rule, ip), xs[..n])))
    && (forall ip :: ip in st.flagged <==> TriggeredBefore(rule, xs, n, ip))
  }

  lemma LastRecordedIsEarlier(rule: Rule, xs: seq<LogEvent>, n: nat, ip: string)
    requires OrderedPerIp(xs) && n < |xs| && xs[n].ip == Some(ip)
    ensures var h := Filter(RecordedFor(rule, ip), xs[..n]);
            h != [] ==> h[|h| - 1].timestamp <= xs[n].timestamp
  {
    var h := Filter(RecordedFor(rule, ip), xs[..n]);
    FilterMembers(RecordedFor(rule, ip), xs[..n]);
    if h != [] {
      assert h[|h| - 1] in xs[..n];
      var i :| 0 <= i < n && xs[i] == h[|h| - 1];
    }
  }

  lemma BucketFollowsHistory(rule: Rule, st: RuleState, ip: string, e: LogEvent, h: seq<LogEvent>)
    requires e.ip.Some?
    requires Lossless(rule.windowSeconds, Bucket(st.entries, ip), h)
    requires e.ip.value == ip && h != [] ==> h[|h| - 1].timestamp <= e.timestamp
    ensures Lossless(rule.windowSeconds, Bucket(EntriesAfter(rule, st, e.ip.value, e), ip),
                     if e.ip.value == ip && Records(rule.kind, e) then h + [e] else h)
  {
    hide Records, Probes;
    if e.ip.value == ip && Records(rule.kind, e) {
      LosslessAdd(rule.windowSeconds, Bucket(st.entries, ip), h, e);
    } else {
      assert Bucket(EntriesAfter(rule, st, e.ip.value, e), ip) == Bucket(st.entries, ip);
    }
  }

  lemma HistorySnoc(rule: Rule, xs: seq<LogEvent>, n: nat, ip: string)
    requires n < |xs|
    ensures Filter(RecordedFor(rule, ip), xs[..n + 1])
         == var h := Filter(RecordedFor(rule, ip), xs[..n]);
            if xs[n].ip == Some(ip) && Records(rule.kind, xs[n]) then h + [xs[n]] else h
  {
    hide Records, Probes;
    assert xs[..n + 1] == xs[..n] + [xs[n]];
    FilterSnoc(RecordedFor(rule, ip), xs[..n], xs[n]);
  }

  lemma RemembersBucket(rule: Rule, xs: seq<LogEvent>, n: nat, st: RuleState, ip: string)
    requires OrderedPerIp(xs) && n < |xs| && xs[n].ip.Some?
    requires Lossless(rule.windowSeconds, Bucket(st.entries, ip), Filter(RecordedFor(rule, ip), xs[..n]))
    ensures Lossless(rule.windowSeconds, Bucket(EntriesAfter(rule, st, xs[n].ip.value, xs[n]), ip),
                     Filter(RecordedFor(rule, ip), xs[..n + 1]))
  {
    hide Records, Probes;
    HistorySnoc(rule, xs, n, ip);
    if xs[n].ip.value == ip {
      LastRecordedIsEarlier(rule, xs, n, ip);
    }
    BucketFollowsHistory(rule, st, ip, xs[n], Filter(RecordedFor(rule, ip), xs[..n]));
  }

  lemma WindowCutsHistory(rule: Rule, xs: seq<LogEvent>, n: nat, ip: string)
    requires n < |xs| && xs[n].ip == Some(ip)
    ensures Filter(Recent(Cutoff(rule, xs[n])), Filter(RecordedFor(rule, ip), xs[..n + 1])) == Window(rule, xs, n)
  {
    hide Records, Probes;
    FilterCompose(RecordedFor(rule, ip), Recent(Cutoff(rule, xs[n])), InWindowOf(rule, xs[n]), xs[..n + 1]);
  }

  lemma ProbeWindowIsWindow(rule: Rule, xs: seq<LogEvent>, n: nat, st: RuleState)
    requires OrderedPerIp(xs) && n < |xs| && xs[n].ip.Some?
    requires Remembers(rule, xs, n, st)
    ensures ProbeWindow(rule, st, xs[n].ip.value, xs[n]) == Window(rule, xs, n)
  {
    hide Records, Probes, Filter;
    var e, ip := xs[n], xs[n].ip.value;
    assert Lossless(rule.windowSeconds, Bucket(st.entries, ip), Filter(RecordedFor(rule, ip), xs[..n]));
    RemembersBucket(rule, xs, n, st, ip);
    LastRecordedIsEarlier(rule, xs, n, ip);
    HistorySnoc(rule, xs, n, ip);
    LosslessView(rule.windowSeconds, Bucket(EntriesAfter(rule, st, ip, e), ip),
                 Filter(RecordedFor(rule, ip), xs[..n + 1]), e.timestamp);
    WindowCutsHistory(rule, xs, n, ip);
  }

  lemma StepRemembers(rule: Rule, xs: seq<LogEvent>, n: nat, st: RuleState)
    requires OrderedPerIp(xs) && n < |xs|
    requires Remembers(rule, xs, n, st)
    ensures Remembers(rule, xs, n + 1, Step(rule, st, xs[n]).0)
    ensures Step(rule, st, xs[n]).1
         == if FirstTrigger(rule, xs, n) && Window(rule, xs, n) != [] then [FindingAt(rule, xs, n)] else []
  {
    hide Records, Probes, Fires, ProbeWindow, Filter, Level, Window, Lossless;
    var e, st' := xs[n], Step(rule, st, xs[n]).0;
    FirstTriggerFires(rule, xs, n, st);
    forall ip
      ensures Lossless(rule.windowSeconds, Bucket(st'.entries, ip), Filter(RecordedFor(rule, ip), xs[..n + 1]))
    {
      assert Lossless(rule.windowSeconds, Bucket(st.entries, ip), Filter(RecordedFor(rule, ip), xs[..n]));
      if e.ip.Some? {
        RemembersBucket(rule, xs, n, st, ip);
      } else {
        HistorySnoc(rule, xs, n, ip);
      }
    }
    forall ip
      ensures ip in st'.flagged <==> TriggeredBefore(rule, xs, n + 1, ip)
    {
      assert ip in st.flagged <==> TriggeredBefore(rule, xs, n, ip);
      if TriggeredBefore(rule, xs, n + 1, ip) && !TriggeredBefore(rule, xs, n, ip) {
        var i: nat :| i < n + 1 && Triggers(rule, xs, i) && xs[i].ip == Some(ip);
        assert i == n;
      }
    }
  }

  /** Evaluating from a fresh rule yields exactly the declared findings, in order. */
  lemma {:induction false} RunMeetsDeclaration(rule: Rule, xs: seq<LogEvent>, n: nat)
    requires OrderedPerIp(xs) && n <= |xs|
    ensures Remembers(rule, xs, n, Run(rule, FRESH, xs[..n]).0)
    ensures Run(rule, FRESH, xs[..n]).1 == Declared(rule, xs, n)
  {
    hide Run, Step, Remembers, FirstTrigger, Window;
    if n == 0 {
      NothingRemembered(rule, xs);
    } else {
      RunMeetsDeclaration(rule, xs, n - 1);
      RunSnoc(rule, FRESH, xs, n - 1);
      StepRemembers(rule, xs, n - 1, Run(rule, FRESH, xs[..n - 1]).0);
      ConcatNothing(Declared(rule, xs, n - 1));
    }
  }

  lemma NothingRemembered(rule: Rule, xs: seq<LogEvent>)
    ensures Run(rule, FRESH, xs[..0]) == (FRESH, []) && Remembers(rule, xs, 0, FRESH)
  {
    assert xs[..0] == [];
  }

  ghost predicate FromFirstTrigger(rule: Rule, xs: seq<LogEvent>, n: nat, f: Finding)
    requires n <= |xs|
  {
    exists i: nat | i < n :: FirstTrigger(rule, xs, i) && Window(rule, xs, i) != [] && f == FindingAt(rule, xs, i)
  }

  /** Some success that is the earliest trigger of its address has no failure in the window before
      it. */
  ghost predicate EmptyTrigger(rule: Rule, xs: seq<LogEvent>, n: nat)
    requires n <= |xs|
  {
    exists i: nat | i < n :: FirstTrigger(rule, xs, i) && Window(rule, xs, i) == []
  }

  /** Exactly when the evaluation raises IndexError: the threshold of the success rule is not
      positive, and an address that succeeds has nothing in its window. */
  lemma {:induction false} RaisesExactly(rule: Rule, xs: seq<LogEvent>, n: nat)
    requires OrderedPerIp(xs) && n <= |xs|
    ensures RaisesIn(rule, FRESH, xs[..n]) <==> EmptyTrigger(rule, xs, n)
    ensures EmptyTrigger(rule, xs, n) ==> rule.kind.BruteForceSuccess? && rule.threshold < 1
  {
    hide Run, Window, ProbeWindow, Fires, FirstTrigger, EmptyTrigger, RaisesIn, Remembers, Declared;
    if NeverRaises(rule) {
      NoEmptyTrigger(rule, xs, n);
    }
    if n == 0 {
      NothingRaises(rule, xs);
    } else {
      RaisesExactly(rule, xs, n - 1);
      RunSnoc(rule, FRESH, xs, n - 1);
      RunMeetsDeclaration(rule, xs, n - 1);
      FirstTriggerFires(rule, xs, n - 1, Run(rule, FRESH, xs[..n - 1]).0);
      OneMoreTrigger(rule, xs, n - 1);
    }
  }

  /** One success is enough under a threshold of zero. */
  lemma ZeroThresholdRaises(rule: Rule, success: LogEvent)
    requires rule.kind.BruteForceSuccess? && rule.threshold == 0
    requires success.ip.Some? && Probes(rule.kind, success)
    ensures RaisesIn(rule, FRESH, [success])
  {
    var xs := [success];
    assert xs[..1] == xs;
    FilterNone(InWindowOf(rule, success), xs);
    hide RaisesIn, InWindowOf, Filter;
    assert Window(rule, xs, 0) == [] && FirstTrigger(rule, xs, 0);
    RaisesExactly(rule, xs, 1);
  }

  lemma NothingRaises(rule: Rule, xs: seq<LogEvent>)
    ensures !RaisesIn(rule, FRESH, xs[..0]) && !EmptyTrigger(rule, xs, 0)
  {
  }

  lemma OneMoreTrigger(rule: Rule, xs: seq<LogEvent>, n: nat)
    requires n < |xs|
    ensures EmptyTrigger(rule, xs, n + 1)
        <==> EmptyTrigger(rule, xs, n) || (FirstTrigger(rule, xs, n) && Window(rule, xs, n) == [])
  {
    hide FirstTrigger, Window;
  }

  lemma NoEmptyTrigger(rule: Rule, xs: seq<LogEvent>, n: nat)
    requires n <= |xs| && NeverRaises(rule)
    ensures !EmptyTrigger(rule, xs, n)
  {
    hide Window, Triggers, TriggeredBefore;
    forall i: nat | i < n && FirstTrigger(rule, xs, i)
      ensures Window(rule, xs, i) != []
    {
      TriggerWindowIsNonempty(rule, xs, i);
    }
  }

  lemma {:induction false} DeclaredReports(rule: Rule, xs: seq<LogEvent>, n: nat, ip: string)
    requires n <= |xs| && !EmptyTrigger(rule, xs, n)
    ensures ReportsIp(Declared(rule, xs, n), ip) <==> TriggeredBefore(rule, xs, n, ip)
  {
    hide Window, Level, Records, Probes;
    if n > 0 {
      DeclaredReports(rule, xs, n - 1, ip);
      var before, found := Declared(rule, xs, n - 1), Declared(rule, xs, n);
      if ReportsIp(before, ip) {
        var f :| f in before && f.ip == Some(ip);
        assert f in found;
      } else if TriggeredBefore(rule, xs, n, ip) {
        var i: nat :| i < n && Triggers(rule, xs, i) && xs[i].ip == Some(ip);
        assert i == n - 1 && FirstTrigger(rule, xs, n - 1);
        assert found[|before|] in found && found[|before|].ip == Some(ip);
      }
    }
  }

  ghost predicate DistinctIps(found: seq<Finding>) {
    forall a, b | 0 <= a < b < |found| :: found[a].ip != found[b].ip
  }

  lemma {:induction false} DeclaredOnce(rule: Rule, xs: seq<LogEvent>, n: nat)
    requires n <= |xs| && !EmptyTrigger(rule, xs, n)
    ensures DistinctIps(Declared(rule, xs, n))
  {
    hide Window, Level, Records, Probes;
    if n > 0 {
      DeclaredOnce(rule, xs, n - 1);
      var before := Declared(rule, xs, n - 1);
      if FirstTrigger(rule, xs, n - 1) {
        var ip := xs[n - 1].ip.value;
        DeclaredReports(rule, xs, n - 1, ip);
        assert !ReportsIp(before, ip);
        assert forall a | 0 <= a < |before| :: before[a] in before && before[a].ip != Some(ip);
      }
    }
  }

  lemma {:induction false} DeclaredFromFirstTriggers(rule: Rule, xs: seq<LogEvent>, n: nat)
    requires n <= |xs|
    ensures forall f | f in Declared(rule, xs, n) :: FromFirstTrigger(rule, xs, n, f)
  {
    hide Window, Level, Records, Probes;
    if n > 0 {
      DeclaredFromFirstTriggers(rule, xs, n - 1);
      forall f | f in Declared(rule, xs, n)
        ensures FromFirstTrigger(rule, xs, n, f)
      {
        if f in Declared(rule, xs, n - 1) {
          assert FromFirstTrigger(rule, xs, n - 1, f);
        } else {
          assert FirstTrigger(rule, xs, n - 1) && f == FindingAt(rule, xs, n - 1);
        }
      }
    }
  }

  /** A rule reports an address iff one of its events triggers, exactly once over the rule's
      lifetime, at the earliest such event, with the window of the whole history there. */
  lemma DetectorMeetsStatement(rule: Rule, xs: seq<LogEvent>)
    requires OrderedPerIp(xs) && !RaisesIn(rule, FRESH, xs)
    ensures forall ip :: ReportsIp(Run(rule, FRESH, xs).1, ip) <==> TriggeredBefore(rule, xs, |xs|, ip)
    ensures DistinctIps(Run(rule, FRESH, xs).1)
    ensures forall f | f in Run(rule, FRESH, xs).1 :: FromFirstTrigger(rule, xs, |xs|, f)
  {
    var n := |xs|;
    assert xs[..n] == xs;
    RunMeetsDeclaration(rule, xs, n);
    RaisesExactly(rule, xs, n);
    forall ip
      ensures ReportsIp(Declared(rule, xs, n), ip) <==> TriggeredBefore(rule, xs, n, ip)
    {
      DeclaredReports(rule, xs, n, ip);
    }
    DeclaredOnce(rule, xs, n);
    DeclaredFromFirstTriggers(rule, xs, n);
  }

  /** What a finding says about the events that count: its address, that they all lie between its
      first and last instant, that the first is attained and the last is the trigger's, that the
      two are at most a window apart, and how many they are. */
  lemma FindingDescribesWindow(rule: Rule, xs: seq<LogEvent>, i: nat)
    requires OrderedPerIp(xs) && i < |xs| && Triggers(rule, xs, i) && Window(rule, xs, i) != []
    ensures var f, w := FindingAt(rule, xs, i), Window(rule, xs, i);
            && f.ruleId == rule.ruleId && f.ip == xs[i].ip
            && (exists e :: e in w && e.timestamp == f.firstSeen)
            && (forall e | e in w :: f.firstSeen <= e.timestamp <= f.lastSeen)
            && f.lastSeen == xs[i].timestamp && f.lastSeen - f.firstSeen <= Seconds(rule.windowSeconds)
            && f.count == |f.evidence| == |w| + (if rule.kind.BruteForceSuccess? then 1 else 0)
            && (forall k | 0 <= k < |w| :: f.evidence[k] == Evidence(w[k].file, w[k].lineNo))
            && f.evidence[|f.evidence| - 1] == Evidence(xs[i].file, xs[i].lineNo)
  {
    hide Records, Probes, Level, Filter;
    WindowIsOrdered(rule, xs, i);
    var w := Window(rule, xs, i);
    assert w[0] in w;
    if !rule.kind.BruteForceSuccess? {
      TriggerEndsWindow(rule, xs, i);
    }
  }

  lemma WindowIsOrdered(rule: Rule, xs: seq<LogEvent>, i: nat)
    requires OrderedPerIp(xs) && i < |xs|
    ensures var w := Window(rule, xs, i);
            && (forall e | e in w :: Cutoff(rule, xs[i]) <= e.timestamp <= xs[i].timestamp)
            && (forall a, b | 0 <= a <= b < |w| :: w[a].timestamp <= w[b].timestamp)
            && (forall e | e in w :: w[0].timestamp <= e.timestamp)
  {
    hide Records, Filter;
    var w := Window(rule, xs, i);
    FilterMembers(InWindowOf(rule, xs[i]), xs[..i + 1]);
    FilterOrdered(TimestampOf, InWindowOf(rule, xs[i]), xs[..i + 1]);
    assert forall a, b | 0 <= a < b < |w| :: TimestampOf(w[a]) <= TimestampOf(w[b]);
    forall e | e in w
      ensures Cutoff(rule, xs[i]) <= e.timestamp <= xs[i].timestamp
    {
      assert e in xs[..i + 1];
      var j :| 0 <= j <= i && xs[j] == e;
    }
  }

  lemma TriggerEndsWindow(rule: Rule, xs: seq<LogEvent>, i: nat)
    requires i < |xs| && Triggers(rule, xs, i) && !rule.kind.BruteForceSuccess?
    requires rule.windowSeconds >= 0
    ensures var w := Window(rule, xs, i); w != [] && w[|w| - 1] == xs[i]
  {
    assert xs[..i + 1] == xs[..i] + [xs[i]];
    FilterSnoc(InWindowOf(rule, xs[i]), xs[..i], xs[i]);
  }

  // ---------------------------------------------------------------------------
  // The deciding number
  // ---------------------------------------------------------------------------

  /** One event raises the measure by at most one; eviction never raises it. */
  lemma LevelGrowsByOne(kind: Kind, p: LogEvent -> bool, window: seq<LogEvent>, e: LogEvent)
    ensures Level(kind, Filter(p, window + [e])) <= Level(kind, window) + 1
  {
    hide Filter, DistinctPaths, DistinctUsers;
    var grown := window + [e];
    FilterMembers(p, grown);
    FilterIsAll(p, grown);
    OneMorePath(window, e, Filter(p, grown));
    OneMoreUser(window, e, Filter(p, grown));
  }

  lemma OneMorePath(window: seq<LogEvent>, e: LogEvent, kept: seq<LogEvent>)
    requires forall f | f in kept :: f in window + [e]
    ensures |DistinctPaths(kept)| <= |DistinctPaths(window)| + 1
  {
    var path := if e.path.Some? then {e.path.value} else {};
    SubsetSize(DistinctPaths(kept), DistinctPaths(window) + path);
  }

  lemma OneMoreUser(window: seq<LogEvent>, e: LogEvent, kept: seq<LogEvent>)
    requires forall f | f in kept :: f in window + [e]
    ensures |DistinctUsers(kept)| <= |DistinctUsers(window)| + 1
  {
    var user := if e.user.Some? then {e.user.value} else {};
    SubsetSize(DistinctUsers(kept), DistinctUsers(window) + user);
  }

  /** No unreported address is already at the threshold. */
  ghost predicate BelowThreshold(rule: Rule, st: RuleState) {
    forall ip | ip !in st.flagged :: Level(rule.kind, Bucket(st.entries, ip)) < rule.threshold
  }

  lemma StepStaysBelow(rule: Rule, st: RuleState, e: LogEvent)
    requires !rule.kind.BruteForceSuccess?
    requires BelowThreshold(rule, st)
    ensures BelowThreshold(rule, Step(rule, st, e).0)
  {
    hide Level, Records, Filter;
    assert Probes(rule.kind, e) == Records(rule.kind, e);
    if e.ip.Some? && Records(rule.kind, e) {
      RecordingProbeWindow(rule, st, e.ip.value, e);
    }
    forall ip | ip !in Step(rule, st, e).0.flagged
      ensures Level(rule.kind, Bucket(Step(rule, st, e).0.entries, ip)) < rule.threshold
    {
      if Some(ip) != e.ip || !Records(rule.kind, e) {
        assert Bucket(Step(rule, st, e).0.entries, ip) == Bucket(st.entries, ip);
      }
    }
  }

  lemma FreshIsBelow(rule: Rule)
    requires rule.threshold >= 1
    ensures BelowThreshold(rule, FRESH)
  {
    assert DistinctPaths([]) == {} && DistinctUsers([]) == {};
    assert forall ip :: Bucket(FRESH.entries, ip) == [];
  }

  lemma {:induction false} RunStaysBelow(rule: Rule, xs: seq<LogEvent>)
    requires rule.threshold >= 1 && !rule.kind.BruteForceSuccess?
    ensures BelowThreshold(rule, Run(rule, FRESH, xs).0)
  {
    if xs == [] {
      FreshIsBelow(rule);
    } else {
      var front, last := xs[..|xs| - 1], xs[|xs| - 1];
      RunStaysBelow(rule, front);
      StepStaysBelow(rule, Run(rule, FRESH, front).0, last);
    }
  }

  lemma ThresholdReachedExactly(rule: Rule, st: RuleState, e: LogEvent)
    requires BelowThreshold(rule, st) && !rule.kind.BruteForceSuccess?
    requires Fires(rule, st, e)
    ensures Level(rule.kind, ProbeWindow(rule, st, e.ip.value, e)) == rule.threshold
  {
    LevelGrowsByOne(rule.kind, Recent(Cutoff(rule, e)), Bucket(st.entries, e.ip.value), e);
    RecordingProbeWindow(rule, st, e.ip.value, e);
  }

  /** When a counting rule reports, the deciding number is the threshold itself, never more. */
  lemma DecidingLevelIsThreshold(rule: Rule, xs: seq<LogEvent>, i: nat)
    requires OrderedPerIp(xs) && i < |xs|
    requires rule.threshold >= 1 && !rule.kind.BruteForceSuccess?
    requires FirstTrigger(rule, xs, i)
    ensures Window(rule, xs, i) != [] && Level(rule.kind, Window(rule, xs, i)) == rule.threshold
    ensures rule.kind.BruteForce? || rule.kind.RateLimitAbuse? ==> FindingAt(rule, xs, i).count == rule.threshold
    ensures rule.kind.SshInvalidUserEnum? ==> |FindingAt(rule, xs, i).users| == rule.threshold
  {
    var st := Run(rule, FRESH, xs[..i]).0;
    TriggerWindowIsNonempty(rule, xs, i);
    RunMeetsDeclaration(rule, xs, i);
    RunStaysBelow(rule, xs[..i]);
    FirstTriggerFires(rule, xs, i, st);
    ThresholdReachedExactly(rule, st, xs[i]);
  }

  lemma FirstTriggerFires(rule: Rule, xs: seq<LogEvent>, i: nat, st: RuleState)
    requires OrderedPerIp(xs) && i < |xs| && Remembers(rule, xs, i, st)
    ensures FirstTrigger(rule, xs, i) <==> Fires(rule, st, xs[i])
    ensures Fires(rule, st, xs[i]) ==> ProbeWindow(rule, st, xs[i].ip.value, xs[i]) == Window(rule, xs, i)
  {
    if xs[i].ip.Some? {
      ProbeWindowIsWindow(rule, xs, i, st);
      assert xs[i].ip.value in st.flagged <==> TriggeredBefore(rule, xs, i, xs[i].ip.value);
    }
  }
}
