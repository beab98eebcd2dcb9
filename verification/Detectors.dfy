/** The stateful rule objects of the detection package. Each keeps its own counter and its own
    set of already flagged addresses, and is proved to step exactly as its `Rule` says. */
module Detectors {
  import opened Models
  import opened Sequences
  import opened SlidingWindow
  import opened DetectionRules

  class BruteForceRule {
    const rule: Rule
    const counter: SlidingWindowCounter
    var flagged: set<string>

    ghost predicate Valid() {
      rule.kind.BruteForce? && counter.windowSeconds == rule.windowSeconds
    }

    ghost function State(): RuleState
      reads this, counter
    {
      RuleState(counter.entries, flagged)
    }

    constructor (rule: Rule)
      requires rule.kind.BruteForce?
      ensures Valid() && this.rule == rule && State() == FRESH && fresh(counter)
    {
      this.rule := rule;
      counter := new SlidingWindowCounter(rule.windowSeconds);
      flagged := {};
    }

    method Evaluate(events: seq<LogEvent>) returns (findings: seq<Finding>)
      requires Valid()
      modifies this, counter
      ensures (State(), findings) == Run(rule, old(State()), events)
    {
      hide Run, Step, BuildFinding, Added, Bucket, RaisesIn, Raises;
      NothingRun(rule, State(), events);
      findings := [];
      for i := 0 to |events|
        invariant (State(), findings) == Run(rule, old(State()), events[..i])
      {
        var event := events[i];
        RunSnoc(rule, old(State()), events, i);
        ConcatNothing(findings);
        ghost var before := State();
        if event.ip.Some? && IsFailure(event, rule.kind.statuses, rule.kind.matchPaths) {
          var ip := event.ip.value;
          var window := counter.Add(ip, event);
          CountingStep(rule, before, event, window);
          if |window| >= rule.threshold && ip !in flagged {
            flagged := flagged + {ip};
            findings := findings + [BuildFinding(rule, ip, window, event)];
          }
        } else {
          SkippingStep(rule, before, event);
        }
      }
      assert events[..|events|] == events;
    }
  }

  class BruteForceSuccessRule {
    const rule: Rule
    const counter: SlidingWindowCounter
    var flagged: set<string>

    ghost predicate Valid() {
      rule.kind.BruteForceSuccess? && counter.windowSeconds == rule.windowSeconds
    }

    ghost function State(): RuleState
      reads this, counter
    {
      RuleState(counter.entries, flagged)
    }

    constructor (rule: Rule)
      requires rule.kind.BruteForceSuccess?
      ensures Valid() && this.rule == rule && State() == FRESH && fresh(counter)
    {
      this.rule := rule;
      counter := new SlidingWindowCounter(rule.windowSeconds);
      flagged := {};
    }

    /** `raised` stands for the IndexError of a finding built from an empty window. */
    method Evaluate(events: seq<LogEvent>) returns (findings: seq<Finding>, raised: bool)
      requires Valid()
      modifies this, counter
      ensures raised <==> RaisesIn(rule, old(State()), events)
      ensures !raised ==> (State(), findings) == Run(rule, old(State()), events)
      ensures raised ==> RaisedAt(rule, old(State()), events, State())
    {
      hide Run, Step, BuildFinding, Added, Bucket, Filter, RaisesIn, Raises;
      NothingRun(rule, State(), events);
      findings, raised := [], false;
      for i := 0 to |events|
        invariant !RaisesIn(rule, old(State()), events[..i])
        invariant (State(), findings) == Run(rule, old(State()), events[..i])
      {
        var event := events[i];
        RunSnoc(rule, old(State()), events, i);
        ConcatNothing(findings);
        ghost var before := State();
        if event.ip.None? {
          SkippingStep(rule, before, event);
        } else if IsFailure(event, rule.kind.statuses, rule.kind.matchPaths) {
          FailureStep(rule, before, event);
          var _ := counter.Add(event.ip.value, event);
        } else if !IsSuccess(event, rule.kind.successStatuses) {
          SkippingStep(rule, before, event);
        } else {
          var ip := event.ip.value;
          var window := counter.WindowAsOf(ip, event.timestamp);
          SuccessStep(rule, before, event, window);
          if |window| >= rule.threshold && ip !in flagged {
            flagged := flagged + {ip};
            if window == [] {
              RaiseStays(rule, old(State()), events, i + 1);
              return [], true;
            }
            findings := findings + [BuildFinding(rule, ip, window, event)];
          }
        }
      }
      assert events[..|events|] == events;
    }
  }

  class ScannerBurstRule {
    const rule: Rule
    const counter: SlidingWindowCounter
    var flagged: set<string>

    ghost predicate Valid() {
      rule.kind.ScannerBurst? && counter.windowSeconds == rule.windowSeconds
    }

    ghost function State(): RuleState
      reads this, counter
    {
      RuleState(counter.entries, flagged)
    }

    constructor (rule: Rule)
      requires rule.kind.ScannerBurst?
      ensures Valid() && this.rule == rule && State() == FRESH && fresh(counter)
    {
      this.rule := rule;
      counter := new SlidingWindowCounter(rule.windowSeconds);
      flagged := {};
    }

    method Evaluate(events: seq<LogEvent>) returns (findings: seq<Finding>)
      requires Valid()
      modifies this, counter
      ensures (State(), findings) == Run(rule, old(State()), events)
    {
      hide Run, Step, BuildFinding, Added, Bucket, RaisesIn, Raises;
      NothingRun(rule, State(), events);
      findings := [];
      for i := 0 to |events|
        invariant (State(), findings) == Run(rule, old(State()), events[..i])
      {
        var event := events[i];
        RunSnoc(rule, old(State()), events, i);
        ConcatNothing(findings);
        ghost var before := State();
        if event.ip.Some? && IsProbe(event, rule.kind.statuses, rule.kind.probePaths) {
          var ip := event.ip.value;
          var window := counter.Add(ip, event);
          CountingStep(rule, before, event, window);
          if |DistinctPaths(window)| >= rule.threshold && ip !in flagged {
            flagged := flagged + {ip};
            findings := findings + [BuildFinding(rule, ip, window, event)];
          }
        } else {
          SkippingStep(rule, before, event);
        }
      }
      assert events[..|events|] == events;
    }
  }

  class SshInvalidUserEnumRule {
    const rule: Rule
    const counter: SlidingWindowCounter
    var flagged: set<string>

    ghost predicate Valid() {
      rule.kind.SshInvalidUserEnum? && counter.windowSeconds == rule.windowSeconds
    }

    ghost function State(): RuleState
      reads this, counter
    {
      RuleState(counter.entries, flagged)
    }

    constructor (rule: Rule)
      requires rule.kind.SshInvalidUserEnum?
      ensures Valid() && this.rule == rule && State() == FRESH && fresh(counter)
    {
      this.rule := rule;
      counter := new SlidingWindowCounter(rule.windowSeconds);
      flagged := {};
    }

    method Evaluate(events: seq<LogEvent>) returns (findings: seq<Finding>)
      requires Valid()
      modifies this, counter
      ensures (State(), findings) == Run(rule, old(State()), events)
    {
      hide Run, Step, BuildFinding, Added, Bucket, RaisesIn, Raises;
      NothingRun(rule, State(), events);
      findings := [];
      for i := 0 to |events|
        invariant (State(), findings) == Run(rule, old(State()), events[..i])
      {
        var event := events[i];
        RunSnoc(rule, old(State()), events, i);
        ConcatNothing(findings);
        ghost var before := State();
        if event.ip.Some? && IsInvalidUserAttempt(event) {
          var ip := event.ip.value;
          var window := counter.Add(ip, event);
          CountingStep(rule, before, event, window);
          if |DistinctUsers(window)| >= rule.threshold && ip !in flagged {
            flagged := flagged + {ip};
            findings := findings + [BuildFinding(rule, ip, window, event)];
          }
        } else {
          SkippingStep(rule, before, event);
        }
      }
      assert events[..|events|] == events;
    }
  }

  class RateLimitAbuseRule {
    const rule: Rule
    const counter: SlidingWindowCounter
    var flagged: set<string>

    ghost predicate Valid() {
      rule.kind.RateLimitAbuse? && counter.windowSeconds == rule.windowSeconds
    }

    ghost function State(): RuleState
      reads this, counter
    {
      RuleState(counter.entries, flagged)
    }

    constructor (rule: Rule)
      requires rule.kind.RateLimitAbuse?
      ensures Valid() && this.rule == rule && State() == FRESH && fresh(counter)
    {
      this.rule := rule;
      counter := new SlidingWindowCounter(rule.windowSeconds);
      flagged := {};
    }

    method Evaluate(events: seq<LogEvent>) returns (findings: seq<Finding>)
      requires Valid()
      modifies this, counter
      ensures (State(), findings) == Run(rule, old(State()), events)
    {
      hide Run, Step, BuildFinding, Added, Bucket, RaisesIn, Raises;
      NothingRun(rule, State(), events);
      findings := [];
      for i := 0 to |events|
        invariant (State(), findings) == Run(rule, old(State()), events[..i])
      {
        var event := events[i];
        RunSnoc(rule, old(State()), events, i);
        ConcatNothing(findings);
        ghost var before := State();
        if event.ip.Some? && HasStatus(event, rule.kind.statuses) {
          var ip := event.ip.value;
          var window := counter.Add(ip, event);
          CountingStep(rule, before, event, window);
          if |window| >= rule.threshold && ip !in flagged {
            flagged := flagged + {ip};
            findings := findings + [BuildFinding(rule, ip, window, event)];
          }
        } else {
          SkippingStep(rule, before, event);
        }
      }
      assert events[..|events|] == events;
    }
  }

  lemma NothingRun(rule: Rule, st: RuleState, events: seq<LogEvent>)
    ensures Run(rule, st, events[..0]) == (st, []) && !RaisesIn(rule, st, events[..0])
  {
  }

  /** Where an evaluation that raises leaves the rule: right after the event at which it does. */
  ghost predicate RaisedAt(rule: Rule, st: RuleState, events: seq<LogEvent>, after: RuleState) {
    exists n | 0 < n <= |events| ::
      !RaisesIn(rule, st, events[..n - 1]) && RaisesIn(rule, st, events[..n]) && after == Run(rule, st, events[..n]).0
  }

  lemma {:induction false} RaiseStays(rule: Rule, st: RuleState, events: seq<LogEvent>, n: nat)
    requires n <= |events| && RaisesIn(rule, st, events[..n])
    ensures RaisesIn(rule, st, events)
    decreases |events| - n
  {
    hide Run;
    if n == |events| {
      assert events[..n] == events;
    } else {
      assert events[..n + 1][..n] == events[..n];
      RaiseStays(rule, st, events, n + 1);
    }
  }

  /** What the registry's factories build: one of the five rule objects. */
  datatype Detector =
    | BruteForceDetector(bruteForce: BruteForceRule)
    | BruteForceSuccessDetector(success: BruteForceSuccessRule)
    | ScannerBurstDetector(scanner: ScannerBurstRule)
    | SshEnumDetector(sshEnum: SshInvalidUserEnumRule)
    | RateLimitDetector(rateLimit: RateLimitAbuseRule)
  {
    ghost function Objects(): set<object> {
      match this
      case BruteForceDetector(r) => {r, r.counter}
      case BruteForceSuccessDetector(r) => {r, r.counter}
      case ScannerBurstDetector(r) => {r, r.counter}
      case SshEnumDetector(r) => {r, r.counter}
      case RateLimitDetector(r) => {r, r.counter}
    }

    ghost predicate Valid() {
      match this
      case BruteForceDetector(r) => r.Valid()
      case BruteForceSuccessDetector(r) => r.Valid()
      case ScannerBurstDetector(r) => r.Valid()
      case SshEnumDetector(r) => r.Valid()
      case RateLimitDetector(r) => r.Valid()
    }

    ghost function RuleOf(): Rule {
      match this
      case BruteForceDetector(r) => r.rule
      case BruteForceSuccessDetector(r) => r.rule
      case ScannerBurstDetector(r) => r.rule
      case SshEnumDetector(r) => r.rule
      case RateLimitDetector(r) => r.rule
    }

    ghost function State(): RuleState
      reads Objects()
    {
      match this
      case BruteForceDetector(r) => r.State()
      case BruteForceSuccessDetector(r) => r.State()
      case ScannerBurstDetector(r) => r.State()
      case SshEnumDetector(r) => r.State()
      case RateLimitDetector(r) => r.State()
    }

    method Evaluate(events: seq<LogEvent>) returns (findings: seq<Finding>)
      requires Valid() && NeverRaises(RuleOf())
      modifies Objects()
      ensures (State(), findings) == Run(RuleOf(), old(State()), events)
    {
      match this
      case BruteForceDetector(r) => findings := r.Evaluate(events);
      case BruteForceSuccessDetector(r) =>
        SafeRulesDoNotRaise(r.rule, r.State(), events);
        var raised;
        findings, raised := r.Evaluate(events);
      case ScannerBurstDetector(r) => findings := r.Evaluate(events);
      case SshEnumDetector(r) => findings := r.Evaluate(events);
      case RateLimitDetector(r) => findings := r.Evaluate(events);
    }
  }

  method BuildRule(rule: Rule) returns (d: Detector)
    ensures d.Valid() && d.RuleOf() == rule && d.State() == FRESH && fresh(d.Objects())
  {
    match rule.kind
    case BruteForce(_, _) =>
      var r := new BruteForceRule(rule);
      d := BruteForceDetector(r);
    case BruteForceSuccess(_, _, _) =>
      var r := new BruteForceSuccessRule(rule);
      d := BruteForceSuccessDetector(r);
    case ScannerBurst(_, _) =>
      var r := new ScannerBurstRule(rule);
      d := ScannerBurstDetector(r);
    case SshInvalidUserEnum =>
      var r := new SshInvalidUserEnumRule(rule);
      d := SshEnumDetector(r);
    case RateLimitAbuse(_) =>
      var r := new RateLimitAbuseRule(rule);
      d := RateLimitDetector(r);
  }
}
