/** What one batch analysis of some files comes to, as values: pipeline/engine.py. */
module AnalysisModel {
  import opened Models
  import opened Sequences
  import opened DetectionRules
  import opened Correlation
  import opened Configuration
  import opened WatchReading
  import opened IncrementalRules

  datatype ReadResult = Lines(lines: seq<string>) | NotFound | Unreadable

  datatype ConfigError = LogFileNotFound(file: string) | CannotReadLog(file: string) | UnknownFormat(file: string)

  datatype Result<+T> = Ok(value: T) | Failed(error: ConfigError)

  /** The files as this run finds them, and the parsers, never looked into: which one a format name
      and a sample select, and what they make of a line. */
  datatype Environment = Environment(
    read: string -> ReadResult,
    resolve: (string, seq<string>) -> Option<Parser>,
    parseWeb: (string, nat, string) -> ParseOutcome,
    parseAuth: (Instant, string, nat, string) -> ParseOutcome)

  datatype Analysis = Analysis(events: seq<LogEvent>, failures: seq<ParseFailure>, findings: seq<Finding>)

  const SNIFF_SAMPLE_LINES := 20

  // ---------------------------------------------------------------------------
  // Reading and parsing
  // ---------------------------------------------------------------------------

  /** The lines of a file and the parser chosen for them, or the error that ends the run. */
  function Open(env: Environment, fmt: string, file: string): Result<(seq<string>, Parser)> {
    match env.read(file)
    case NotFound => Failed(LogFileNotFound(file))
    case Unreadable => Failed(CannotReadLog(file))
    case Lines(lines) =>
      var sample := if |lines| <= SNIFF_SAMPLE_LINES then lines else lines[..SNIFF_SAMPLE_LINES];
      var parser := env.resolve(fmt, sample);
      if parser.None? then Failed(UnknownFormat(file)) else Ok((lines, parser.value))
  }

  /** One numbered line; `reference` dates the lines of an authentication log. Either parser stamps
      what it returns with its source, the file and the line number. */
  function ParseLine(env: Environment, reference: Option<Instant>, file: string, no: nat, text: string): ParseOutcome {
    var outcome :=
      if reference.None? then env.parseWeb(file, no, text) else env.parseAuth(reference.value, file, no, text);
    match outcome
    case Parsed(e) => Parsed(e.(source := if reference.None? then Web else Auth, file := file, lineNo := no))
    case Unparsed(_) => Unparsed(ParseFailure(file, no))
  }

  function ParsedEvents(env: Environment, reference: Option<Instant>, file: string, lines: seq<string>): seq<LogEvent> {
    if lines == [] then []
    else
      var front := ParsedEvents(env, reference, file, lines[..|lines| - 1]);
      var outcome := ParseLine(env, reference, file, |lines|, lines[|lines| - 1]);
      if outcome.Parsed? then front + [outcome.event] else front
  }

  function ParsedFailures(
    env: Environment, reference: Option<Instant>, file: string, lines: seq<string>): seq<ParseFailure> {
    if lines == [] then []
    else
      var front := ParsedFailures(env, reference, file, lines[..|lines| - 1]);
      var outcome := ParseLine(env, reference, file, |lines|, lines[|lines| - 1]);
      if outcome.Unparsed? then front + [outcome.failure] else front
  }

  function LinesIn(env: Environment, fmt: string, file: string): seq<string> {
    var access := Open(env, fmt, file);
    if access.Ok? then access.value.0 else []
  }

  /** The lines of a file that the given parser reads; none if another one does. */
  function LinesFor(env: Environment, fmt: string, parser: Parser, file: string): seq<string> {
    var access := Open(env, fmt, file);
    if access.Ok? && access.value.1 == parser then LinesIn(env, fmt, file) else []
  }

  function WebEventsIn(env: Environment, fmt: string): string -> seq<LogEvent> {
    file => ParsedEvents(env, None, file, LinesFor(env, fmt, ApacheAccessParser, file))
  }

  function WebFailuresIn(env: Environment, fmt: string): string -> seq<ParseFailure> {
    file => ParsedFailures(env, None, file, LinesFor(env, fmt, ApacheAccessParser, file))
  }

  function AuthEventsIn(env: Environment, fmt: string, reference: Instant): string -> seq<LogEvent> {
    file => ParsedEvents(env, Some(reference), file, LinesFor(env, fmt, SyslogAuthParser, file))
  }

  function AuthFailuresIn(env: Environment, fmt: string, reference: Instant): string -> seq<ParseFailure> {
    file => ParsedFailures(env, Some(reference), file, LinesFor(env, fmt, SyslogAuthParser, file))
  }

  function Latest(events: seq<LogEvent>): Instant
    requires events != []
  {
    var front, last := events[..|events| - 1], events[|events| - 1].timestamp;
    if front == [] || Latest(front) < last then last else Latest(front)
  }

  function InferReference(events: seq<LogEvent>, now: Instant): Instant {
    if events == [] then now else Latest(events)
  }

  function WebEvents(env: Environment, fmt: string, files: seq<string>): seq<LogEvent> {
    FlatMap(WebEventsIn(env, fmt), files)
  }

  /** The instant that dates the yearless lines of the run. */
  function ReferenceOf(env: Environment, fmt: string, now: Instant, files: seq<string>): Instant {
    InferReference(WebEvents(env, fmt, files), now)
  }

  function AllEvents(env: Environment, fmt: string, now: Instant, files: seq<string>): seq<LogEvent> {
    WebEvents(env, fmt, files) + FlatMap(AuthEventsIn(env, fmt, ReferenceOf(env, fmt, now, files)), files)
  }

  function AllFailures(env: Environment, fmt: string, now: Instant, files: seq<string>): seq<ParseFailure> {
    FlatMap(WebFailuresIn(env, fmt), files)
        + FlatMap(AuthFailuresIn(env, fmt, ReferenceOf(env, fmt, now, files)), files)
  }

  /** The first file, in order, that cannot be opened. */
  function FirstError(env: Environment, fmt: string, files: seq<string>): Option<ConfigError> {
    if files == [] then None
    else
      var front, last := FirstError(env, fmt, files[..|files| - 1]), Open(env, fmt, files[|files| - 1]);
      if front.Some? then front else if last.Failed? then Some(last.error) else None
  }

  // ---------------------------------------------------------------------------
  // Detection
  // ---------------------------------------------------------------------------

  /** A fresh rule evaluated once over the ordered events of its source. */
  function OnePass(d: DetectorConfig, ordered: seq<LogEvent>): seq<Finding> {
    Run(d.rule, FRESH, Filter(MatchesSource(d.source), ordered)).1
  }

  function RulePass(ds: seq<DetectorConfig>, ordered: seq<LogEvent>): seq<Finding> {
    if ds == [] then [] else RulePass(ds[..|ds| - 1], ordered) + OnePass(ds[|ds| - 1], ordered)
  }

  function FindingsOf(rules: seq<RuleConfig>, ordered: seq<LogEvent>): seq<Finding> {
    var ds := DetectorConfigs(rules);
    var found := RulePass(ds, ordered);
    found + Correlated(CorrelationConfigs(rules), RuleSourcesOf(ds), found)
  }

  /** `AnalysisEngine.analyze`: `now` is the current time, were it asked for. */
  function Analyzed(
    rules: seq<RuleConfig>, env: Environment, fmt: string, now: Instant, files: seq<string>): Result<Analysis> {
    var error := FirstError(env, fmt, files);
    if error.Some? then Failed(error.value)
    else
      var ordered := Sort(TimestampOf, AllEvents(env, fmt, now, files));
      Ok(Analysis(ordered, AllFailures(env, fmt, now, files), FindingsOf(rules, ordered)))
  }

  // ---------------------------------------------------------------------------
  // Conservation
  // ---------------------------------------------------------------------------

  datatype Place = Place(file: string, lineNo: nat)

  function EventAt(p: Place): LogEvent -> bool {
    (e: LogEvent) => e.file == p.file && e.lineNo == p.lineNo
  }

  function FailureAt(p: Place): ParseFailure -> bool {
    (f: ParseFailure) => f.file == p.file && f.lineNo == p.lineNo
  }

  /** How often a place occurs among events and failures. */
  function Occurrences(p: Place, events: seq<LogEvent>, failures: seq<ParseFailure>): nat {
    |Filter(EventAt(p), events)| + |Filter(FailureAt(p), failures)|
  }

  lemma OccurrencesAppend(p: Place, a: seq<LogEvent>, b: seq<LogEvent>, c: seq<ParseFailure>, d: seq<ParseFailure>)
    ensures Occurrences(p, a + b, c + d) == Occurrences(p, a, c) + Occurrences(p, b, d)
  {
    hide Filter;
    FilterAppend(EventAt(p), a, b);
    FilterAppend(FailureAt(p), c, d);
  }

  lemma OneLineOccursOnce(p: Place, env: Environment, reference: Option<Instant>, file: string, no: nat, text: string)
    ensures var outcome := ParseLine(env, reference, file, no, text);
            var once := if p == Place(file, no) then 1 else 0;
            && (outcome.Parsed? ==> Occurrences(p, [outcome.event], []) == once)
            && (outcome.Unparsed? ==> Occurrences(p, [], [outcome.failure]) == once)
  {
    hide Filter, ParseLine;
    LineIsStamped(env, reference, file, no, text);
    var outcome := ParseLine(env, reference, file, no, text);
    if outcome.Parsed? {
      FilterOne(EventAt(p), outcome.event);
      FilterNone(FailureAt(p), []);
    } else {
      FilterOne(FailureAt(p), outcome.failure);
      FilterNone(EventAt(p), []);
    }
  }

  lemma LineIsStamped(env: Environment, reference: Option<Instant>, file: string, no: nat, text: string)
    ensures var outcome := ParseLine(env, reference, file, no, text);
            && (outcome.Parsed? ==> outcome.event.file == file && outcome.event.lineNo == no)
            && (outcome.Unparsed? ==> outcome.failure == ParseFailure(file, no))
  {
  }

  predicate IsLineOf(p: Place, file: string, lines: seq<string>) {
    p.file == file && 1 <= p.lineNo <= |lines|
  }

  lemma {:induction false} FileOccurrences(
    p: Place, env: Environment, reference: Option<Instant>, file: string, lines: seq<string>)
    ensures Occurrences(p, ParsedEvents(env, reference, file, lines), ParsedFailures(env, reference, file, lines))
         == if IsLineOf(p, file, lines) then 1 else 0
  {
    hide Occurrences, ParseLine;
    if lines == [] {
      NothingOccurs(p);
    } else {
      var front := lines[..|lines| - 1];
      FileOccurrences(p, env, reference, file, front);
      var events, failures := ParsedEvents(env, reference, file, front), ParsedFailures(env, reference, file, front);
      var outcome := ParseLine(env, reference, file, |lines|, lines[|lines| - 1]);
      OneLineOccursOnce(p, env, reference, file, |lines|, lines[|lines| - 1]);
      if outcome.Parsed? {
        OccurrencesAppend(p, events, [outcome.event], failures, []);
        assert failures + [] == failures;
      } else {
        OccurrencesAppend(p, events, [], failures, [outcome.failure]);
        assert events + [] == events;
      }
    }
  }

  lemma NothingOccurs(p: Place)
    ensures Occurrences(p, [], []) == 0
  {
  }

  /** The files read by one parser: each of its lines occurs once for each mention of the file. */
  lemma {:induction false} ParserOccurrences(
    p: Place, env: Environment, fmt: string, reference: Option<Instant>, parser: Parser, files: seq<string>,
    events: string -> seq<LogEvent>, failures: string -> seq<ParseFailure>)
    requires forall f :: events(f) == ParsedEvents(env, reference, f, LinesFor(env, fmt, parser, f))
    requires forall f :: failures(f) == ParsedFailures(env, reference, f, LinesFor(env, fmt, parser, f))
    ensures Occurrences(p, FlatMap(events, files), FlatMap(failures, files))
         == if IsLineOf(p, p.file, LinesFor(env, fmt, parser, p.file)) then multiset(files)[p.file] else 0
  {
    hide Occurrences, LinesFor, ParsedEvents, ParsedFailures;
    if files == [] {
      NothingOccurs(p);
    } else {
      var front, last := files[..|files| - 1], files[|files| - 1];
      assert files == front + [last];
      ParserOccurrences(p, env, fmt, reference, parser, front, events, failures);
      FileOccurrences(p, env, reference, last, LinesFor(env, fmt, parser, last));
      OccurrencesAppend(p, FlatMap(events, front), events(last), FlatMap(failures, front), failures(last));
    }
  }

  lemma OccurrencesOfPermutation(p: Place, a: seq<LogEvent>, b: seq<LogEvent>, failures: seq<ParseFailure>)
    requires multiset(a) == multiset(b)
    ensures Occurrences(p, a, failures) == Occurrences(p, b, failures)
  {
    hide Filter;
    FilterPermutation(EventAt(p), a, b);
    assert |multiset(Filter(EventAt(p), a))| == |multiset(Filter(EventAt(p), b))|;
  }

  /** The events come out ordered by time, and every line of every file, under its file and its
      number, comes out exactly once for each time the file is named: as an event or as a failure.
      Nothing else comes out. */
  lemma EveryLineComesOutOnce(
    rules: seq<RuleConfig>, env: Environment, fmt: string, now: Instant, files: seq<string>, p: Place)
    requires Analyzed(rules, env, fmt, now, files).Ok?
    ensures var r := Analyzed(rules, env, fmt, now, files).value;
            && IsSorted(TimestampOf, r.events) && multiset(r.events) == multiset(AllEvents(env, fmt, now, files))
            && Occurrences(p, r.events, r.failures)
               == if p.file in files && IsLineOf(p, p.file, LinesIn(env, fmt, p.file))
                  then multiset(files)[p.file] else 0
  {
    hide Filter, Sort, Occurrences, FindingsOf, ReferenceOf, FlatMap;
    var all, failures := AllEvents(env, fmt, now, files), AllFailures(env, fmt, now, files);
    SortSorts(TimestampOf, all);
    OccurrencesOfPermutation(p, Sort(TimestampOf, all), all, failures);
    var reference := ReferenceOf(env, fmt, now, files);
    ParserOccurrences(p, env, fmt, None, ApacheAccessParser, files, WebEventsIn(env, fmt), WebFailuresIn(env, fmt));
    ParserOccurrences(p, env, fmt, Some(reference), SyslogAuthParser, files, AuthEventsIn(env, fmt, reference),
        AuthFailuresIn(env, fmt, reference));
    OccurrencesAppend(p, WebEvents(env, fmt, files), FlatMap(AuthEventsIn(env, fmt, reference), files),
                      FlatMap(WebFailuresIn(env, fmt), files), FlatMap(AuthFailuresIn(env, fmt, reference), files));
    NoErrorMeansOpen(env, fmt, files);
    assert p.file !in files ==> multiset(files)[p.file] == 0;
  }

  /** The run fails iff some file cannot be opened. */
  lemma {:induction false} NoErrorMeansOpen(env: Environment, fmt: string, files: seq<string>)
    ensures FirstError(env, fmt, files).None? <==> forall f | f in files :: Open(env, fmt, f).Ok?
    ensures FirstError(env, fmt, files).Some? ==>
            exists f :: f in files && Open(env, fmt, f) == Failed(FirstError(env, fmt, files).value)
  {
    hide Open;
    if files != [] {
      var front, last := files[..|files| - 1], files[|files| - 1];
      NoErrorMeansOpen(env, fmt, front);
      assert files == front + [last];
    }
  }

  // ---------------------------------------------------------------------------
  // The order in which the files are named
  // ---------------------------------------------------------------------------

  lemma {:induction false} LatestIsMax(events: seq<LogEvent>)
    requires events != []
    ensures exists e :: e in events && e.timestamp == Latest(events)
    ensures forall e | e in events :: e.timestamp <= Latest(events)
  {
    var front, last := events[..|events| - 1], events[|events| - 1];
    assert events == front + [last] && last in events;
    if front != [] {
      LatestIsMax(front);
      var e :| e in front && e.timestamp == Latest(front);
      assert e in events;
    }
  }

  lemma LatestOfPermutation(a: seq<LogEvent>, b: seq<LogEvent>)
    requires multiset(a) == multiset(b) && a != []
    ensures b != [] && Latest(a) == Latest(b)
  {
    hide Latest;
    SameMembers(a, b);
    LatestIsMax(a);
    LatestIsMax(b);
  }

  /** Auth files wait until every web file has been read, so as soon as one web event parses, the
      reference does not depend on the order of the files, nor on when the run takes place. */
  lemma ReferenceIgnoresOrder(
    env: Environment, fmt: string, files: seq<string>, others: seq<string>, now: Instant, later: Instant)
    requires multiset(files) == multiset(others)
    requires WebEvents(env, fmt, files) != [] || now == later
    ensures multiset(WebEvents(env, fmt, files)) == multiset(WebEvents(env, fmt, others))
    ensures ReferenceOf(env, fmt, now, files) == ReferenceOf(env, fmt, later, others)
  {
    hide FlatMap, Latest;
    FlatMapPermutation(WebEventsIn(env, fmt), files, others);
    SameMembers(WebEvents(env, fmt, files), WebEvents(env, fmt, others));
    if WebEvents(env, fmt, files) != [] {
      LatestOfPermutation(WebEvents(env, fmt, files), WebEvents(env, fmt, others));
    }
  }

  /** Naming the files in another order, and at another time, the run fails or succeeds alike, and
      yields the same events and failures, each as often. */
  lemma FileOrderIsImmaterial(
    rules: seq<RuleConfig>, env: Environment, fmt: string, files: seq<string>, others: seq<string>,
    now: Instant, later: Instant)
    requires multiset(files) == multiset(others)
    requires WebEvents(env, fmt, files) != [] || now == later
    ensures var r, s := Analyzed(rules, env, fmt, now, files), Analyzed(rules, env, fmt, later, others);
            && (r.Ok? <==> s.Ok?)
            && (r.Ok? ==> multiset(r.value.events) == multiset(s.value.events)
                          && multiset(r.value.failures) == multiset(s.value.failures))
  {
    hide FlatMap, Sort, FindingsOf, ReferenceOf, WebEvents;
    ReferenceIgnoresOrder(env, fmt, files, others, now, later);
    SameMembers(files, others);
    NoErrorMeansOpen(env, fmt, files);
    NoErrorMeansOpen(env, fmt, others);
    var reference := ReferenceOf(env, fmt, now, files);
    FlatMapPermutation(AuthEventsIn(env, fmt, reference), files, others);
    FlatMapPermutation(WebFailuresIn(env, fmt), files, others);
    FlatMapPermutation(AuthFailuresIn(env, fmt, reference), files, others);
    SortSorts(TimestampOf, AllEvents(env, fmt, now, files));
    SortSorts(TimestampOf, AllEvents(env, fmt, later, others));
  }

  // ---------------------------------------------------------------------------
  // The batch engine and the watch session find the same
  // ---------------------------------------------------------------------------

  function StreamFindings(ds: seq<DetectorConfig>, batches: seq<seq<LogEvent>>): seq<Finding> {
    if ds == [] then [] else StreamFindings(ds[..|ds| - 1], batches) + StreamRun(ds[|ds| - 1], batches).1
  }

  lemma {:induction false} StreamFindingsStep(ds: seq<DetectorConfig>, front: seq<seq<LogEvent>>, last: seq<LogEvent>)
    ensures multiset(StreamFindings(ds, front + [last]))
            == multiset(StreamFindings(ds, front)) + multiset(NewFindings(ds, front, last))
  {
    hide Run, EventsFor;
    if ds != [] {
      StreamFindingsStep(ds[..|ds| - 1], front, last);
      assert (front + [last])[..|front|] == front;
    }
  }

  lemma {:induction false} NothingStreamed(ds: seq<DetectorConfig>)
    ensures StreamFindings(ds, []) == []
  {
    if ds != [] {
      NothingStreamed(ds[..|ds| - 1]);
    }
  }

  lemma {:induction false} BatchwiseIsRulewise(ds: seq<DetectorConfig>, batches: seq<seq<LogEvent>>)
    ensures multiset(Flatten(FoundBatchwise(ds, batches))) == multiset(StreamFindings(ds, batches))
  {
    if batches == [] {
      NothingStreamed(ds);
    } else {
      hide StreamRun, NewFindings;
      var front, last := batches[..|batches| - 1], batches[|batches| - 1];
      BatchwiseIsRulewise(ds, front);
      StreamFindingsStep(ds, front, last);
      assert batches == front + [last];
      var found := FoundBatchwise(ds, front);
      assert (found + [NewFindings(ds, front, last)])[..|found|] == found;
    }
  }

  lemma {:induction false} StreamIsRulePass(ds: seq<DetectorConfig>, batches: seq<seq<LogEvent>>)
    requires NeverBackInTime(batches)
    ensures StreamFindings(ds, batches) == RulePass(ds, Sort(TimestampOf, Flatten(batches)))
  {
    if ds != [] {
      StreamIsRulePass(ds[..|ds| - 1], batches);
      StreamEqualsBatch(ds[|ds| - 1], batches);
    }
  }

  /** Fed in any batches that never go back in time, the rules find, finding for finding, what the
      engine's single pass over all those events finds. */
  lemma WatchFindsWhatTheEngineFinds(ds: seq<DetectorConfig>, batches: seq<seq<LogEvent>>)
    requires NeverBackInTime(batches)
    ensures multiset(Flatten(FoundBatchwise(ds, batches)))
            == multiset(RulePass(ds, Sort(TimestampOf, Flatten(batches))))
  {
    hide Sort, FoundBatchwise, RulePass, NeverBackInTime;
    BatchwiseIsRulewise(ds, batches);
    StreamIsRulePass(ds, batches);
  }

  /** And whatever correlation the watch session ever emits, the engine's single analysis of those
      events reports under the same configuration for the same address. */
  lemma WatchCorrelationsAreTheEngines(setup: Setup, ds: seq<DetectorConfig>, batches: seq<seq<LogEvent>>)
    requires NeverBackInTime(batches)
    ensures forall c | c in CorrelationRun(setup, FoundBatchwise(ds, batches)).1 ::
              BatchReports(setup, RulePass(ds, Sort(TimestampOf, Flatten(batches))), c)
  {
    hide Sort, FoundBatchwise, RulePass, NeverBackInTime, BatchReports, CorrelationRun;
    var feeds := FoundBatchwise(ds, batches);
    var found := RulePass(ds, Sort(TimestampOf, Flatten(batches)));
    EmissionsAreSound(setup, feeds);
    WatchFindsWhatTheEngineFinds(ds, batches);
    SameMembers(Flatten(feeds), found);
    forall c | c in CorrelationRun(setup, feeds).1
      ensures BatchReports(setup, found, c)
    {
      MoreFindingsKeepBatchReports(setup, Flatten(feeds), found, c);
    }
  }
}
