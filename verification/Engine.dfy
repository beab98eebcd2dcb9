/** The batch engine: files to events to findings, in one analysis. */
module Engine {
  import opened Models
  import opened Sequences
  import opened DetectionRules
  import opened Detectors
  import opened Correlation
  import opened Configuration
  import opened AnalysisModel

  datatype PendingFile = PendingFile(file: string, lines: seq<string>)

  function ReadPending(env: Environment, reference: Instant): PendingFile -> seq<LogEvent> {
    (p: PendingFile) => ParsedEvents(env, Some(reference), p.file, p.lines)
  }

  function FailPending(env: Environment, reference: Instant): PendingFile -> seq<ParseFailure> {
    (p: PendingFile) => ParsedFailures(env, Some(reference), p.file, p.lines)
  }

  function PendingAuth(env: Environment, fmt: string, files: seq<string>): seq<PendingFile> {
    if files == [] then []
    else
      var front, last := PendingAuth(env, fmt, files[..|files| - 1]), files[|files| - 1];
      var access := Open(env, fmt, last);
      if access.Ok? && access.value.1.SyslogAuthParser? then front + [PendingFile(last, access.value.0)] else front
  }

  /** Deferring the auth files loses none of them. */
  lemma {:induction false} PendingIsAll(env: Environment, fmt: string, reference: Instant, files: seq<string>)
    ensures FlatMap(ReadPending(env, reference), PendingAuth(env, fmt, files))
            == FlatMap(AuthEventsIn(env, fmt, reference), files)
    ensures FlatMap(FailPending(env, reference), PendingAuth(env, fmt, files))
            == FlatMap(AuthFailuresIn(env, fmt, reference), files)
  {
    if files != [] {
      hide Open;
      var front, last := files[..|files| - 1], files[|files| - 1];
      PendingIsAll(env, fmt, reference, front);
      var pending := PendingAuth(env, fmt, front);
      var access := Open(env, fmt, last);
      if access.Ok? && access.value.1.SyslogAuthParser? {
        assert (pending + [PendingFile(last, access.value.0)])[..|pending|] == pending;
      }
    }
  }

  class AnalysisEngine {
    const config: seq<RuleConfig>

    constructor (config: seq<RuleConfig>)
      ensures this.config == config
    {
      this.config := config;
    }

    method Analyze(env: Environment, files: seq<string>, fmt: string, now: Instant) returns (result: Result<Analysis>)
      ensures result == Analyzed(config, env, fmt, now, files)
    {
      hide Open, FlatMap, PendingAuth, FirstError, FindingsOf, InferReference, Sort;
      var error, webEvents, webFailures, pendingAuth := ReadFiles(env, files, fmt);
      if error.Some? {
        return Failed(error.value);
      }
      var events, failures := webEvents, webFailures;
      if pendingAuth != [] {
        var reference := LatestOrNow(webEvents, now);
        var authEvents, authFailures := ReadDeferred(env, pendingAuth, reference);
        events, failures := events + authEvents, failures + authFailures;
      } else {
        NothingDeferred(env, InferReference(webEvents, now));
        assert webEvents + [] == webEvents && webFailures + [] == webFailures;
      }
      PendingIsAll(env, fmt, InferReference(webEvents, now), files);
      events := Sort(TimestampOf, events);
      var findings := Detect(events);
      result := Ok(Analysis(events, failures, findings));
    }

    static method ReadFiles(env: Environment, files: seq<string>, fmt: string)
      returns (error: Option<ConfigError>, events: seq<LogEvent>, failures: seq<ParseFailure>,
          pendingAuth: seq<PendingFile>)
      ensures error == FirstError(env, fmt, files)
      ensures error.None? ==>
                && events == WebEvents(env, fmt, files) && failures == FlatMap(WebFailuresIn(env, fmt), files)
                && pendingAuth == PendingAuth(env, fmt, files)
    {
      hide Open, ParsedEvents, ParsedFailures;
      error, events, failures, pendingAuth := None, [], [], [];
      for i := 0 to |files|
        invariant FirstError(env, fmt, files[..i]) == None
        invariant events == WebEvents(env, fmt, files[..i]) && failures == FlatMap(WebFailuresIn(env, fmt), files[..i])
        invariant pendingAuth == PendingAuth(env, fmt, files[..i])
      {
        assert files[..i + 1][..i] == files[..i];
        var access := Open(env, fmt, files[i]);
        if access.Failed? {
          ErrorStays(env, fmt, files, i + 1);
          return Some(access.error), events, failures, pendingAuth;
        }
        var (lines, parser) := access.value;
        if parser.SyslogAuthParser? {
          OtherParserReadsNothing(env, files[i]);
          pendingAuth := pendingAuth + [PendingFile(files[i], lines)];
          assert events + [] == events && failures + [] == failures;
        } else {
          var fileEvents, fileFailures := ParseLines(env, None, files[i], lines);
          events, failures := events + fileEvents, failures + fileFailures;
        }
      }
      assert files[..|files|] == files;
    }

    static method ReadDeferred(env: Environment, pendingAuth: seq<PendingFile>, reference: Instant)
      returns (events: seq<LogEvent>, failures: seq<ParseFailure>)
      ensures events == FlatMap(ReadPending(env, reference), pendingAuth)
      ensures failures == FlatMap(FailPending(env, reference), pendingAuth)
    {
      hide ParsedEvents, ParsedFailures;
      events, failures := [], [];
      for i := 0 to |pendingAuth|
        invariant events == FlatMap(ReadPending(env, reference), pendingAuth[..i])
        invariant failures == FlatMap(FailPending(env, reference), pendingAuth[..i])
      {
        assert pendingAuth[..i + 1][..i] == pendingAuth[..i];
        var fileEvents, fileFailures := ParseLines(env, Some(reference), pendingAuth[i].file, pendingAuth[i].lines);
        events, failures := events + fileEvents, failures + fileFailures;
      }
      assert pendingAuth[..|pendingAuth|] == pendingAuth;
    }

    /** `_infer_reference`: the maximum of the timestamps, where there are any. */
    static method LatestOrNow(events: seq<LogEvent>, now: Instant) returns (reference: Instant)
      ensures reference == InferReference(events, now)
    {
      if events == [] {
        return now;
      }
      reference := events[0].timestamp;
      assert events[..1][..0] == [];
      for i := 1 to |events|
        invariant reference == Latest(events[..i])
      {
        assert events[..i + 1][..i] == events[..i];
        if reference < events[i].timestamp {
          reference := events[i].timestamp;
        }
      }
      assert events[..|events|] == events;
    }

    static method ParseLines(env: Environment, reference: Option<Instant>, file: string, lines: seq<string>)
      returns (events: seq<LogEvent>, failures: seq<ParseFailure>)
      ensures events == ParsedEvents(env, reference, file, lines)
              && failures == ParsedFailures(env, reference, file, lines)
    {
      events, failures := [], [];
      for i := 0 to |lines|
        invariant events == ParsedEvents(env, reference, file, lines[..i])
        invariant failures == ParsedFailures(env, reference, file, lines[..i])
      {
        assert lines[..i + 1][..i] == lines[..i];
        match ParseLine(env, reference, file, i + 1, lines[i])
        case Parsed(event) => events := events + [event];
        case Unparsed(failure) => failures := failures + [failure];
      }
      assert lines[..|lines|] == lines;
    }

    method Detect(events: seq<LogEvent>) returns (findings: seq<Finding>)
      ensures findings == FindingsOf(config, events)
    {
      hide Run, Filter;
      var detectorConfigs := DetectorConfigs(config);
      findings := [];
      for i := 0 to |detectorConfigs|
        invariant findings == RulePass(detectorConfigs[..i], events)
      {
        assert detectorConfigs[..i + 1][..i] == detectorConfigs[..i];
        var found := EvaluateFresh(detectorConfigs[i], events);
        findings := findings + found;
      }
      assert detectorConfigs[..|detectorConfigs|] == detectorConfigs;
      var correlated := Correlate(findings, CorrelationConfigs(config), RuleSourcesOf(detectorConfigs));
      findings := findings + correlated;
    }

    static method EvaluateFresh(d: DetectorConfig, events: seq<LogEvent>) returns (findings: seq<Finding>)
      ensures findings == OnePass(d, events)
    {
      hide Run, Filter;
      var ruleEvents := events;
      if d.source.Some? {
        ruleEvents := Filter(MatchesSource(d.source), events);
      } else {
        FilterAll(MatchesSource(d.source), events);
      }
      var rule := BuildRule(d.rule);
      findings := rule.Evaluate(ruleEvents);
    }
  }

  lemma NothingDeferred(env: Environment, reference: Instant)
    ensures FlatMap(ReadPending(env, reference), []) == [] && FlatMap(FailPending(env, reference), []) == []
  {
  }

  /** The first error stays the first, whatever files follow. */
  lemma {:induction false} ErrorStays(env: Environment, fmt: string, files: seq<string>, i: nat)
    requires i <= |files| && FirstError(env, fmt, files[..i]).Some?
    ensures FirstError(env, fmt, files) == FirstError(env, fmt, files[..i])
    decreases |files| - i
  {
    if i == |files| {
      assert files[..i] == files;
    } else {
      assert files[..i + 1][..i] == files[..i];
      ErrorStays(env, fmt, files, i + 1);
    }
  }

  lemma OtherParserReadsNothing(env: Environment, file: string)
    ensures ParsedEvents(env, None, file, []) == [] && ParsedFailures(env, None, file, []) == []
  {
  }
}
