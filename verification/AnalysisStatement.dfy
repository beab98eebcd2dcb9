/** What one analysis promises, said of its files, its configured rules and its findings: which
    lines come out as which events, what the rules report of them, what correlation adds; and what
    watch mode returns of it. */
module AnalysisStatement {
  import opened Models
  import opened Sequences
  import opened DetectionRules
  import opened DetectionStatement
  import opened Correlation
  import opened CorrelationStatement
  import opened Configuration
  import opened WatchReading
  import opened IncrementalRules
  import opened AnalysisModel
  import FileOrder

  // ---------------------------------------------------------------------------
  // The findings
  // ---------------------------------------------------------------------------

  /** Each enabled detector in turn reports what it makes, from a fresh start, of the events of its
      source. */
  ghost predicate FoundByRules(rules: seq<RuleConfig>, events: seq<LogEvent>, found: seq<Finding>) {
    var ds := DetectorConfigs(rules);
    exists parts: seq<seq<Finding>> :: Pieces(found, parts) && |parts| == |ds|
      && forall k | 0 <= k < |ds| :: parts[k] == Run(ds[k].rule, FRESH, Filter(MatchesSource(ds[k].source), events)).1
  }

  /** Each enabled correlation in turn reports what it makes of the findings. */
  ghost predicate CorrelatedFrom(rules: seq<RuleConfig>, found: seq<Finding>, reports: seq<Finding>) {
    var cfgs, sources := CorrelationConfigs(rules), RuleSourcesOf(DetectorConfigs(rules));
    exists parts: seq<seq<Finding>> :: Pieces(reports, parts) && |parts| == |cfgs|
      && forall k | 0 <= k < |cfgs| :: parts[k] == CorrelatedBy(cfgs[k], sources, found)
  }

  lemma {:induction false} RulePassInPieces(ds: seq<DetectorConfig>, events: seq<LogEvent>)
    returns (parts: seq<seq<Finding>>)
    ensures Pieces(RulePass(ds, events), parts) && |parts| == |ds|
    ensures forall k | 0 <= k < |ds| :: parts[k] == OnePass(ds[k], events)
  {
    hide Pieces, OnePass;
    parts := [];
    if ds == [] {
      NoPieces<Finding>();
    } else {
      var n := |ds| - 1;
      var front := RulePassInPieces(ds[..n], events);
      OnePieceMore(RulePass(ds[..n], events), front, OnePass(ds[n], events));
      parts := front + [OnePass(ds[n], events)];
    }
  }

  lemma {:induction false} CorrelatedInPieces(cfgs: seq<Config>, sources: RuleSources, fs: seq<Finding>)
    returns (parts: seq<seq<Finding>>)
    ensures Pieces(Correlated(cfgs, sources, fs), parts) && |parts| == |cfgs|
    ensures forall k | 0 <= k < |cfgs| :: parts[k] == CorrelatedBy(cfgs[k], sources, fs)
  {
    hide Pieces, CorrelatedBy;
    parts := [];
    if cfgs == [] {
      NoPieces<Finding>();
    } else {
      var n := |cfgs| - 1;
      var front := CorrelatedInPieces(cfgs[..n], sources, fs);
      OnePieceMore(Correlated(cfgs[..n], sources, fs), front, CorrelatedBy(cfgs[n], sources, fs));
      parts := front + [CorrelatedBy(cfgs[n], sources, fs)];
    }
  }

  /** The findings of an analysis: first all that the rules find in its events, then all that
      correlating those findings adds. */
  lemma AnalysisFindings(rules: seq<RuleConfig>, env: Environment, fmt: string, now: Instant, files: seq<string>)
    returns (n: nat)
    requires Analyzed(rules, env, fmt, now, files).Ok?
    ensures var r := Analyzed(rules, env, fmt, now, files).value;
            && n <= |r.findings| && IsSorted(TimestampOf, r.events)
            && FoundByRules(rules, r.events, r.findings[..n])
            && CorrelatedFrom(rules, r.findings[..n], r.findings[n..])
            && r.findings[..n] == RulePass(DetectorConfigs(rules), r.events)
  {
    hide Sort, AllEvents, AllFailures, Run, Filter, CorrelatedBy, Pieces, IsSorted, RulePass, Correlated;
    SortSorts(TimestampOf, AllEvents(env, fmt, now, files));
    var r := Analyzed(rules, env, fmt, now, files).value;
    var ds, cfgs := DetectorConfigs(rules), CorrelationConfigs(rules);
    var found := RulePass(ds, r.events);
    var parts := RulePassInPieces(ds, r.events);
    var reports := CorrelatedInPieces(cfgs, RuleSourcesOf(ds), found);
    n := |found|;
    assert r.findings[..n] == found && r.findings[n..] == Correlated(cfgs, RuleSourcesOf(ds), found);
  }

  // Of addresses -------------------------------------------------------------------

  ghost predicate Finds(found: seq<Finding>, id: string, ip: string) {
    exists f :: f in found && f.ruleId == id && f.ip == Some(ip)
  }

  ghost predicate FromSource(source: Option<LogSource>, e: LogEvent) {
    source == None || source == Some(e.source)
  }

  /** Some event of the address, and events within reach of it, all of the source, show enough. */
  ghost predicate ShownFrom(source: Option<LogSource>, rule: Rule, events: seq<LogEvent>, ip: string) {
    exists i: nat, ks: seq<nat> :: ShowsFrom(source, rule, events, ip, i, ks)
  }

  ghost predicate ShowsFrom(
    source: Option<LogSource>, rule: Rule, events: seq<LogEvent>, ip: string, i: nat, ks: seq<nat>) {
    && i < |events| && events[i].ip == Some(ip) && Shows(rule, events, i, ks) && FromSource(source, events[i])
    && forall a | 0 <= a < |ks| :: ks[a] < |events| && FromSource(source, events[ks[a]])
  }

  /** Selecting the source first makes no difference to what is shown. */
  lemma ShownOfSelected(source: Option<LogSource>, rule: Rule, events: seq<LogEvent>, ip: string)
    ensures var own := Filter(MatchesSource(source), events);
            (exists i | 0 <= i < |own| :: own[i].ip == Some(ip) && Shown(rule, own, i))
            <==> ShownFrom(source, rule, events, ip)
  {
    hide Filter, Shows, ShowsFrom;
    var own, at := Filter(MatchesSource(source), events), Places(MatchesSource(source), events);
    FilterByPlaces(MatchesSource(source), events);
    if i :| 0 <= i < |own| && own[i].ip == Some(ip) && Shown(rule, own, i) {
      var ks :| Shows(rule, own, i, ks);
      ShowsInAll(source, rule, events, own, at, ip, i, ks);
    }
    if i: nat, ks: seq<nat> :| ShowsFrom(source, rule, events, ip, i, ks) {
      var j, js := ShowsInSelected(source, rule, events, own, at, ip, i, ks);
    }
  }

  /** `own` is what the source selects, standing at the places `at`. */
  ghost predicate SelectedAt(source: Option<LogSource>, events: seq<LogEvent>, own: seq<LogEvent>, at: seq<nat>) {
    && Increasing(at) && (forall k: nat :: k in at <==> k < |events| && MatchesSource(source)(events[k]))
    && |at| == |own| && forall j | 0 <= j < |at| :: at[j] < |events| && own[j] == events[at[j]]
  }

  /** The same events, in the same order, show the same. */
  ghost predicate SameAt(xs: seq<LogEvent>, ys: seq<LogEvent>, i: nat, j: nat, ks: seq<nat>, js: seq<nat>) {
    && i < |xs| && j < |ys| && xs[i] == ys[j] && |ks| == |js|
    && (forall a | 0 <= a < |ks| :: ks[a] < |xs| && js[a] < |ys| && xs[ks[a]] == ys[js[a]])
    && (forall a | 0 <= a < |ks| :: ks[a] <= i ==> js[a] <= j)
    && (forall a, b | 0 <= a < b < |ks| :: ks[a] != ks[b] ==> js[a] != js[b])
  }

  lemma ShowsTheSame(
    rule: Rule, xs: seq<LogEvent>, ys: seq<LogEvent>, i: nat, j: nat, ks: seq<nat>, js: seq<nat>)
    requires SameAt(xs, ys, i, j, ks, js) && Shows(rule, xs, i, ks)
    ensures Shows(rule, ys, j, js)
  {
    hide Decides, Counts;
    forall a | 0 <= a < |js|
      ensures InReach(rule, ys, j, js[a])
    {
      assert InReach(rule, xs, i, ks[a]);
    }
  }

  lemma ShowsInAll(
    source: Option<LogSource>, rule: Rule, events: seq<LogEvent>, own: seq<LogEvent>, at: seq<nat>, ip: string,
    i: nat, ks: seq<nat>)
    requires SelectedAt(source, events, own, at)
    requires i < |own| && own[i].ip == Some(ip) && Shows(rule, own, i, ks)
    ensures ShownFrom(source, rule, events, ip)
  {
    ShownAreThere(rule, own, i, ks);
    hide Shows;
    var all := seq(|ks|, a requires 0 <= a < |ks| => at[ks[a]]);
    ShowsTheSame(rule, own, events, i, at[i], ks, all);
    assert at[i] in at && forall a | 0 <= a < |ks| :: all[a] in at;
    assert ShowsFrom(source, rule, events, ip, at[i], all);
  }

  lemma ShownAreThere(rule: Rule, xs: seq<LogEvent>, i: nat, ks: seq<nat>)
    requires i < |xs| && Shows(rule, xs, i, ks)
    ensures forall a | 0 <= a < |ks| :: ks[a] <= i
  {
    hide Decides, Counts;
    assert forall a | 0 <= a < |ks| :: InReach(rule, xs, i, ks[a]);
  }

  lemma {:induction false} PlacesIn(at: seq<nat>, ks: seq<nat>) returns (js: seq<nat>)
    requires forall a | 0 <= a < |ks| :: ks[a] in at
    ensures |js| == |ks| && forall a | 0 <= a < |ks| :: js[a] < |at| && at[js[a]] == ks[a]
  {
    js := [];
    if ks != [] {
      var n := |ks| - 1;
      var front := PlacesIn(at, ks[..n]);
      var j: nat :| j < |at| && at[j] == ks[n];
      js := front + [j];
    }
  }

  lemma ShowsInSelected(
    source: Option<LogSource>, rule: Rule, events: seq<LogEvent>, own: seq<LogEvent>, at: seq<nat>, ip: string,
    i: nat, ks: seq<nat>) returns (j: nat, js: seq<nat>)
    requires SelectedAt(source, events, own, at) && ShowsFrom(source, rule, events, ip, i, ks)
    ensures j < |own| && own[j].ip == Some(ip) && Shows(rule, own, j, js)
  {
    hide Shows;
    assert i in at;
    j :| 0 <= j < |at| && at[j] == i;
    js := PlacesIn(at, ks);
    ShowsTheSame(rule, events, own, i, j, ks, js);
  }

  lemma SortedPerIp(events: seq<LogEvent>, p: LogEvent -> bool)
    requires IsSorted(TimestampOf, events)
    ensures OrderedPerIp(Filter(p, events))
  {
    hide Filter;
    var own, at := Filter(p, events), Places(p, events);
    FilterByPlaces(p, events);
    forall i, j | 0 <= i < j < |own|
      ensures own[i].timestamp <= own[j].timestamp
    {
      assert at[i] < at[j] && TimestampOf(events[at[i]]) <= TimestampOf(events[at[j]]);
    }
  }

  lemma RuleNamesItself(rule: Rule, xs: seq<LogEvent>)
    requires OrderedPerIp(xs) && !RaisesIn(rule, FRESH, xs)
    ensures forall f | f in Run(rule, FRESH, xs).1 :: f.ruleId == rule.ruleId
  {
    hide Run, RaisesIn, AllInReach, InReach, OrderedPerIp;
    var at := FindingsAreExact(rule, xs);
    forall f | f in Run(rule, FRESH, xs).1
      ensures f.ruleId == rule.ruleId
    {
      var j :| 0 <= j < |at| && Run(rule, FRESH, xs).1[j] == f;
      assert ToldAt(rule, xs, at[j], f);
    }
  }

  /** One detector over the events of a run. */
  lemma DetectorFindsIff(d: DetectorConfig, events: seq<LogEvent>, id: string, ip: string)
    requires IsSorted(TimestampOf, events)
    ensures Finds(Run(d.rule, FRESH, Filter(MatchesSource(d.source), events)).1, id, ip)
       <==> d.rule.ruleId == id && ShownFrom(d.source, d.rule, events, ip)
  {
    hide Run, Filter, Shown, ShownFrom, RaisesIn, IsSorted, OrderedPerIp;
    var own := Filter(MatchesSource(d.source), events);
    SortedPerIp(events, MatchesSource(d.source));
    SafeRulesDoNotRaise(d.rule, FRESH, own);
    ReportedIffShown(d.rule, own, ip);
    RuleNamesItself(d.rule, own);
    ShownOfSelected(d.source, d.rule, events, ip);
  }

  lemma {:induction false} FindsInPieces(all: seq<Finding>, parts: seq<seq<Finding>>, id: string, ip: string)
    requires Pieces(all, parts)
    ensures Finds(all, id, ip) <==> exists k | 0 <= k < |parts| :: Finds(parts[k], id, ip)
  {
    hide Finds, Pieces;
    MembersOfPieces(all, parts);
    FindsMember(all, id, ip);
    forall k | 0 <= k < |parts| {
      FindsMember(parts[k], id, ip);
    }
  }

  lemma FindsMember(found: seq<Finding>, id: string, ip: string)
    ensures Finds(found, id, ip) <==> exists f :: f in found && f.ruleId == id && f.ip == Some(ip)
  {
  }

  /** A configured detector of this id whose events show enough. */
  ghost predicate DetectedUnder(rule: RuleConfig, events: seq<LogEvent>, id: string, ip: string) {
    rule.DetectorRule? && rule.enabled && rule.rule.ruleId == id && ShownFrom(rule.source, rule.rule, events, ip)
  }

  /** Which addresses the rules report under an id: those of which the events of its source show
      enough for some enabled rule of that id. */
  lemma RulesFindIff(rules: seq<RuleConfig>, events: seq<LogEvent>, found: seq<Finding>, id: string, ip: string)
    requires FoundByRules(rules, events, found) && IsSorted(TimestampOf, events)
    ensures Finds(found, id, ip) <==> exists rule :: rule in rules && DetectedUnder(rule, events, id, ip)
  {
    hide Run, Filter, ShownFrom, Finds, Pieces, IsSorted, DetectorConfigs;
    var ds := DetectorConfigs(rules);
    var parts: seq<seq<Finding>> :| Pieces(found, parts) && |parts| == |ds|
      && forall k | 0 <= k < |ds| :: parts[k] == Run(ds[k].rule, FRESH, Filter(MatchesSource(ds[k].source), events)).1;
    FindsInPieces(found, parts, id, ip);
    forall k | 0 <= k < |ds|
      ensures Finds(parts[k], id, ip) <==> ds[k].rule.ruleId == id && ShownFrom(ds[k].source, ds[k].rule, events, ip)
    {
      DetectorFindsIff(ds[k], events, id, ip);
    }
    var at := DetectorsAreEnabled(rules);
    if k :| 0 <= k < |parts| && Finds(parts[k], id, ip) {
      assert rules[at[k]] in rules && DetectedUnder(rules[at[k]], events, id, ip);
    }
    if rule :| rule in rules && DetectedUnder(rule, events, id, ip) {
      var i: nat :| i < |rules| && rules[i] == rule;
      assert i in at;
      var k :| 0 <= k < |at| && at[k] == i;
      assert Finds(parts[k], id, ip);
    }
  }

  /** A configured correlation of this id under which findings of the address belong together. */
  ghost predicate CorrelatedUnder(
    rules: seq<RuleConfig>, rule: RuleConfig, found: seq<Finding>, id: string, ip: string) {
    rule.CorrelationRule? && rule.enabled && rule.config.id == id
    && SomeTogether(rule.config, RuleSourcesOf(DetectorConfigs(rules)), found, ip)
  }

  lemma CorrelationNamesItself(cfg: Config, sources: RuleSources, fs: seq<Finding>)
    ensures forall f | f in CorrelatedBy(cfg, sources, fs) :: f.ruleId == cfg.id && f.ip.Some?
  {
    hide CorrelatedBy, Sort, Filter, TellsOf, Together;
    forall f | f in CorrelatedBy(cfg, sources, fs)
      ensures f.ruleId == cfg.id && f.ip.Some?
    {
      ReportIsExact(cfg, sources, fs, f);
    }
  }

  lemma ConfigFindsIff(cfg: Config, sources: RuleSources, fs: seq<Finding>, id: string, ip: string)
    ensures Finds(CorrelatedBy(cfg, sources, fs), id, ip) <==> cfg.id == id && SomeTogether(cfg, sources, fs, ip)
  {
    hide CorrelatedBy, SomeTogether;
    CorrelationNamesItself(cfg, sources, fs);
    ReportedIffTogether(cfg, sources, fs);
    assert SomeTogether(cfg, sources, fs, ip) <==> ReportsIp(CorrelatedBy(cfg, sources, fs), ip);
  }

  /** Which addresses correlation adds under an id: those of which the rules' findings belong together
      under some enabled correlation of that id. Every report is of an address. */
  lemma CorrelationFindsIff(
    rules: seq<RuleConfig>, found: seq<Finding>, reports: seq<Finding>, id: string, ip: string)
    requires CorrelatedFrom(rules, found, reports)
    ensures Finds(reports, id, ip) <==> exists rule :: rule in rules && CorrelatedUnder(rules, rule, found, id, ip)
    ensures forall f | f in reports :: f.ip.Some?
  {
    hide CorrelatedBy, SomeTogether, Finds, Pieces, CorrelationConfigs;
    var cfgs, sources := CorrelationConfigs(rules), RuleSourcesOf(DetectorConfigs(rules));
    var parts: seq<seq<Finding>> :| Pieces(reports, parts) && |parts| == |cfgs|
      && forall k | 0 <= k < |cfgs| :: parts[k] == CorrelatedBy(cfgs[k], sources, found);
    FindsInPieces(reports, parts, id, ip);
    MembersOfPieces(reports, parts);
    forall k | 0 <= k < |cfgs|
      ensures Finds(parts[k], id, ip) <==> cfgs[k].id == id && SomeTogether(cfgs[k], sources, found, ip)
      ensures forall f | f in parts[k] :: f.ip.Some?
    {
      ConfigFindsIff(cfgs[k], sources, found, id, ip);
      CorrelationNamesItself(cfgs[k], sources, found);
    }
    var at := CorrelationsAreEnabled(rules);
    if k :| 0 <= k < |parts| && Finds(parts[k], id, ip) {
      assert rules[at[k]] in rules && CorrelatedUnder(rules, rules[at[k]], found, id, ip);
    }
    if rule :| rule in rules && CorrelatedUnder(rules, rule, found, id, ip) {
      var i: nat :| i < |rules| && rules[i] == rule;
      assert i in at;
      var k :| 0 <= k < |at| && at[k] == i;
      assert Finds(parts[k], id, ip);
    }
  }

  // ---------------------------------------------------------------------------
  // The events
  // ---------------------------------------------------------------------------

  /** The lines that decide the format of a file. */
  function FirstLines(lines: seq<string>): seq<string> {
    if |lines| > 20 then lines[..20] else lines
  }

  /** What comes of the i-th line of a file, counted from 0, where lines of an authentication log are
      dated by `reference`. */
  ghost predicate Yields(
    env: Environment, fmt: string, reference: Instant, file: string, i: nat, outcome: ParseOutcome) {
    && env.read(file).Lines? && i < |env.read(file).lines|
    && var line := env.read(file).lines[i];
       match env.resolve(fmt, FirstLines(env.read(file).lines))
       case None => false
       case Some(ApacheAccessParser) => outcome == Placed(Web, file, i, env.parseWeb(file, i + 1, line))
       case Some(SyslogAuthParser) => outcome == Placed(Auth, file, i, env.parseAuth(reference, file, i + 1, line))
  }

  /** With the source, file and line number that the parser stamps. */
  function Placed(source: LogSource, file: string, i: nat, outcome: ParseOutcome): ParseOutcome {
    if outcome.Parsed? then Parsed(outcome.event.(source := source, file := file, lineNo := i + 1))
    else Unparsed(ParseFailure(file, i + 1))
  }

  /** `reference` is the latest instant of a web event, or the current time where there is none. */
  ghost predicate Dates(events: seq<LogEvent>, now: Instant, reference: Instant) {
    if exists e :: e in events && e.source == Web then
      && (exists e :: e in events && e.source == Web && e.timestamp == reference)
      && forall e | e in events && e.source == Web :: e.timestamp <= reference
    else reference == now
  }

  function ParsesTo(env: Environment, reference: Option<Instant>, file: string): Numbered -> bool {
    (item: Numbered) => ParseLine(env, reference, file, item.no, item.text).Parsed?
  }

  lemma {:induction false} ParsedFiltered(
    env: Environment, reference: Option<Instant>, file: string, lines: seq<string>)
    ensures var kept := Filter(ParsesTo(env, reference, file), Number(0, lines));
            var events := ParsedEvents(env, reference, file, lines);
            |events| == |kept| && forall j | 0 <= j < |kept| ::
              ParseLine(env, reference, file, kept[j].no, kept[j].text) == Parsed(events[j])
  {
    hide ParseLine;
    if lines != [] {
      var n := |lines| - 1;
      ParsedFiltered(env, reference, file, lines[..n]);
      assert Number(0, lines)[..n] == Number(0, lines[..n]);
    }
  }

  /** The events of a file are those of its lines that parse, in order, under their numbers. */
  lemma ParsedInOrder(env: Environment, reference: Option<Instant>, file: string, lines: seq<string>)
    returns (at: seq<nat>)
    ensures Increasing(at)
    ensures forall i: nat ::
              i in at <==> i < |lines| && ParseLine(env, reference, file, i + 1, lines[i]).Parsed?
    ensures var events := ParsedEvents(env, reference, file, lines);
            |events| == |at| && forall j | 0 <= j < |at| ::
              at[j] < |lines| && ParseLine(env, reference, file, at[j] + 1, lines[at[j]]) == Parsed(events[j])
  {
    hide ParseLine, Filter, Places, Increasing, ParsedEvents;
    at := Places(ParsesTo(env, reference, file), Number(0, lines));
    FilterByPlaces(ParsesTo(env, reference, file), Number(0, lines));
    ParsedFiltered(env, reference, file, lines);
  }

  lemma ParsedMembers(env: Environment, reference: Option<Instant>, file: string, lines: seq<string>, e: LogEvent)
    ensures e in ParsedEvents(env, reference, file, lines) <==>
            exists i | 0 <= i < |lines| :: ParseLine(env, reference, file, i + 1, lines[i]) == Parsed(e)
  {
    hide ParseLine, ParsedEvents;
    var at := ParsedInOrder(env, reference, file, lines);
    var events := ParsedEvents(env, reference, file, lines);
    if i :| 0 <= i < |lines| && ParseLine(env, reference, file, i + 1, lines[i]) == Parsed(e) {
      assert i in at;
      var j :| 0 <= j < |at| && at[j] == i;
      assert events[j] == e;
    }
    if j :| 0 <= j < |events| && events[j] == e {
      assert ParseLine(env, reference, file, at[j] + 1, lines[at[j]]) == Parsed(e);
    }
  }

  lemma {:induction false} FailedMembers(
    env: Environment, reference: Option<Instant>, file: string, lines: seq<string>, f: ParseFailure)
    ensures f in ParsedFailures(env, reference, file, lines) <==>
            exists i | 0 <= i < |lines| :: ParseLine(env, reference, file, i + 1, lines[i]) == Unparsed(f)
  {
    hide ParseLine;
    if lines != [] {
      var n := |lines| - 1;
      FailedMembers(env, reference, file, lines[..n], f);
      if i :| 0 <= i < |lines| && ParseLine(env, reference, file, i + 1, lines[i]) == Unparsed(f) {
        assert i < n ==> lines[..n][i] == lines[i];
      }
      if i :| 0 <= i < n && ParseLine(env, reference, file, i + 1, lines[..n][i]) == Unparsed(f) {
        assert lines[..n][i] == lines[i];
      }
    }
  }

  /** What the program's two readings of a file come to. */
  lemma WebYields(env: Environment, fmt: string, reference: Instant, file: string, i: nat, outcome: ParseOutcome)
    ensures var lines := LinesFor(env, fmt, ApacheAccessParser, file);
            i < |lines| && ParseLine(env, None, file, i + 1, lines[i]) == outcome
            ==> Yields(env, fmt, reference, file, i, outcome)
    ensures var lines := LinesFor(env, fmt, SyslogAuthParser, file);
            i < |lines| && ParseLine(env, Some(reference), file, i + 1, lines[i]) == outcome
            ==> Yields(env, fmt, reference, file, i, outcome)
  {
  }

  lemma YieldsIsRead(env: Environment, fmt: string, reference: Instant, file: string, i: nat, outcome: ParseOutcome)
    requires Yields(env, fmt, reference, file, i, outcome)
    ensures var web, auth := LinesFor(env, fmt, ApacheAccessParser, file), LinesFor(env, fmt, SyslogAuthParser, file);
            || (i < |web| && ParseLine(env, None, file, i + 1, web[i]) == outcome)
            || (i < |auth| && ParseLine(env, Some(reference), file, i + 1, auth[i]) == outcome)
  {
  }

  lemma FileYields(env: Environment, fmt: string, reference: Instant, file: string)
    ensures forall e :: e in WebEventsIn(env, fmt)(file) || e in AuthEventsIn(env, fmt, reference)(file) <==>
                        exists i: nat :: Yields(env, fmt, reference, file, i, Parsed(e))
    ensures forall f :: f in WebFailuresIn(env, fmt)(file) || f in AuthFailuresIn(env, fmt, reference)(file) <==>
                        exists i: nat :: Yields(env, fmt, reference, file, i, Unparsed(f))
  {
    hide ParsedEvents, ParsedFailures, LinesFor, ParseLine, Yields;
    var web, auth := LinesFor(env, fmt, ApacheAccessParser, file), LinesFor(env, fmt, SyslogAuthParser, file);
    forall e: LogEvent
      ensures e in WebEventsIn(env, fmt)(file) || e in AuthEventsIn(env, fmt, reference)(file) <==>
              exists i: nat :: Yields(env, fmt, reference, file, i, Parsed(e))
    {
      ParsedMembers(env, None, file, web, e);
      ParsedMembers(env, Some(reference), file, auth, e);
      YieldsIff(env, fmt, reference, file, Parsed(e));
    }
    forall f: ParseFailure
      ensures f in WebFailuresIn(env, fmt)(file) || f in AuthFailuresIn(env, fmt, reference)(file) <==>
              exists i: nat :: Yields(env, fmt, reference, file, i, Unparsed(f))
    {
      FailedMembers(env, None, file, web, f);
      FailedMembers(env, Some(reference), file, auth, f);
      YieldsIff(env, fmt, reference, file, Unparsed(f));
    }
  }

  lemma YieldsIff(env: Environment, fmt: string, reference: Instant, file: string, outcome: ParseOutcome)
    ensures var web, auth := LinesFor(env, fmt, ApacheAccessParser, file), LinesFor(env, fmt, SyslogAuthParser, file);
            (exists i: nat :: Yields(env, fmt, reference, file, i, outcome)) <==>
            || (exists i | 0 <= i < |web| :: ParseLine(env, None, file, i + 1, web[i]) == outcome)
            || (exists i | 0 <= i < |auth| :: ParseLine(env, Some(reference), file, i + 1, auth[i]) == outcome)
  {
    hide LinesFor, ParseLine, Yields;
    var web, auth := LinesFor(env, fmt, ApacheAccessParser, file), LinesFor(env, fmt, SyslogAuthParser, file);
    if i: nat :| Yields(env, fmt, reference, file, i, outcome) {
      YieldsIsRead(env, fmt, reference, file, i, outcome);
    }
    if i :| 0 <= i < |web| && ParseLine(env, None, file, i + 1, web[i]) == outcome {
      WebYields(env, fmt, reference, file, i, outcome);
    }
    if i :| 0 <= i < |auth| && ParseLine(env, Some(reference), file, i + 1, auth[i]) == outcome {
      WebYields(env, fmt, reference, file, i, outcome);
    }
  }

  lemma ReferenceDates(env: Environment, fmt: string, now: Instant, files: seq<string>)
    ensures Dates(AllEvents(env, fmt, now, files), now, ReferenceOf(env, fmt, now, files))
  {
    hide FlatMap, Latest;
    var web, reference := WebEvents(env, fmt, files), ReferenceOf(env, fmt, now, files);
    var auth := FlatMap(AuthEventsIn(env, fmt, reference), files);
    FileOrder.ReadersStamp(env, fmt, reference);
    FileOrder.SourceOfAll(WebEventsIn(env, fmt), files, Web);
    FileOrder.SourceOfAll(AuthEventsIn(env, fmt, reference), files, Auth);
    assert forall e :: e in web + auth <==> e in web || e in auth;
    if web != [] {
      LatestIsMax(web);
      assert web[0] in web;
    }
  }

  lemma SameDates(events: seq<LogEvent>, others: seq<LogEvent>, now: Instant, reference: Instant)
    requires Dates(events, now, reference) && forall e :: e in events <==> e in others
    ensures Dates(others, now, reference)
  {
  }

  /** Events and failures are those of the lines of the files. */
  ghost predicate ComeFrom(
    env: Environment, fmt: string, now: Instant, files: seq<string>, reference: Instant, r: Analysis) {
    && Dates(r.events, now, reference)
    && (forall e :: e in r.events <==>
          exists f, i: nat :: f in files && Yields(env, fmt, reference, f, i, Parsed(e)))
    && (forall x :: x in r.failures <==>
          exists f, i: nat :: f in files && Yields(env, fmt, reference, f, i, Unparsed(x)))
  }

  /** Exactly what comes out of the files: each line of each file as an event or a failure, web lines
      as they say, yearless lines dated by the latest web event of the whole run, or by the current
      time where there is none. */
  lemma AnalysisEvents(rules: seq<RuleConfig>, env: Environment, fmt: string, now: Instant, files: seq<string>)
    returns (reference: Instant)
    ensures Analyzed(rules, env, fmt, now, files).Ok? ==>
              ComeFrom(env, fmt, now, files, reference, Analyzed(rules, env, fmt, now, files).value)
  {
    hide Sort, FlatMap, ReferenceOf, Dates, Yields, FindingsOf;
    hide WebEventsIn, AuthEventsIn, WebFailuresIn, AuthFailuresIn;
    reference := ReferenceOf(env, fmt, now, files);
    ReferenceDates(env, fmt, now, files);
    SortMembers(TimestampOf, AllEvents(env, fmt, now, files));
    SameDates(AllEvents(env, fmt, now, files), Sort(TimestampOf, AllEvents(env, fmt, now, files)), now, reference);
    FlatMapMembers(WebEventsIn(env, fmt), files);
    FlatMapMembers(AuthEventsIn(env, fmt, reference), files);
    FlatMapMembers(WebFailuresIn(env, fmt), files);
    FlatMapMembers(AuthFailuresIn(env, fmt, reference), files);
    forall f | f in files {
      FileYields(env, fmt, reference, f);
    }
  }

  /** The file cannot be opened, for this reason. */
  ghost predicate CannotOpen(env: Environment, fmt: string, file: string, error: ConfigError) {
    match env.read(file)
    case NotFound => error == LogFileNotFound(file)
    case Unreadable => error == CannotReadLog(file)
    case Lines(lines) => env.resolve(fmt, FirstLines(lines)) == None && error == UnknownFormat(file)
  }

  /** The files before the i-th can all be opened, and the i-th cannot. */
  ghost predicate FailsAt(env: Environment, fmt: string, files: seq<string>, i: nat, error: ConfigError) {
    && i < |files| && CannotOpen(env, fmt, files[i], error)
    && forall j, other | 0 <= j < i :: !CannotOpen(env, fmt, files[j], other)
  }

  /** The run fails with the error of the first file that cannot be opened, and only then. */
  lemma AnalysisFailsIff(
    rules: seq<RuleConfig>, env: Environment, fmt: string, now: Instant, files: seq<string>, error: ConfigError)
    ensures Analyzed(rules, env, fmt, now, files) == Failed(error) <==>
            exists i: nat :: FailsAt(env, fmt, files, i, error)
  {
    hide AllEvents, AllFailures, FindingsOf, Sort, FailsAt, FirstError;
    FirstErrorIsFirst(env, fmt, files, error);
  }

  lemma {:induction false} FirstErrorIsFirst(env: Environment, fmt: string, files: seq<string>, error: ConfigError)
    ensures FirstError(env, fmt, files) == Some(error) <==> exists i: nat :: FailsAt(env, fmt, files, i, error)
    ensures FirstError(env, fmt, files) == None <==>
            forall j, other | 0 <= j < |files| :: !CannotOpen(env, fmt, files[j], other)
  {
    hide CannotOpen, Open;
    if files != [] {
      var n := |files| - 1;
      var front, last := files[..n], files[n];
      FirstErrorIsFirst(env, fmt, front, error);
      OpenIff(env, fmt, last);
      assert forall j | 0 <= j < n :: front[j] == files[j];
      if i: nat :| FailsAt(env, fmt, front, i, error) {
        assert FailsAt(env, fmt, files, i, error);
      }
      if i: nat :| FailsAt(env, fmt, files, i, error) {
        if i < n {
          assert FailsAt(env, fmt, front, i, error);
        }
      }
      if FirstError(env, fmt, front) == None && Open(env, fmt, last) == Failed(error) {
        assert FailsAt(env, fmt, files, n, error);
      }
    }
  }

  lemma OpenIff(env: Environment, fmt: string, file: string)
    ensures forall error :: Open(env, fmt, file) == Failed(error) <==> CannotOpen(env, fmt, file, error)
    ensures Open(env, fmt, file).Ok? <==> forall error :: !CannotOpen(env, fmt, file, error)
  {
    var access := Open(env, fmt, file);
    assert access.Failed? ==> CannotOpen(env, fmt, file, access.error);
  }

  // ---------------------------------------------------------------------------
  // What watch mode returns of it
  // ---------------------------------------------------------------------------

  lemma BatchReportIsFound(
    rules: seq<RuleConfig>, setup: Setup, found: seq<Finding>, reports: seq<Finding>, c: Finding)
    requires setup.cfgs == CorrelationConfigs(rules) && setup.sources == RuleSourcesOf(DetectorConfigs(rules))
    requires CorrelatedFrom(rules, found, reports) && BatchReports(setup, found, c)
    ensures c.ip.Some? && Finds(reports, c.ruleId, c.ip.value)
  {
    hide CorrelatedBy, Pieces, DetectorConfigs, CorrelationConfigs;
    var parts: seq<seq<Finding>> :| Pieces(reports, parts) && |parts| == |setup.cfgs|
      && forall k | 0 <= k < |setup.cfgs| :: parts[k] == CorrelatedBy(setup.cfgs[k], setup.sources, found);
    var cfg :| cfg in setup.cfgs && cfg.id == c.ruleId && c.ip.Some?
        && ReportsIp(CorrelatedBy(cfg, setup.sources, found), c.ip.value);
    var k: nat :| k < |setup.cfgs| && setup.cfgs[k] == cfg;
    CorrelationNamesItself(cfg, setup.sources, found);
    MembersOfPieces(reports, parts);
    var f :| f in parts[k] && f.ip == c.ip;
    assert f in reports;
  }

  /** Fed the events of an analysis in any batches that never go back in time, the live rules find,
      finding for finding, what the rules find in the analysis; and for whatever correlation is
      emitted, the analysis has a correlation of the same rule and address. */
  lemma WatchFindsWhatAnalysisFinds(
    rules: seq<RuleConfig>, env: Environment, fmt: string, now: Instant, files: seq<string>,
    setup: Setup, batches: seq<seq<LogEvent>>) returns (n: nat)
    requires Analyzed(rules, env, fmt, now, files).Ok?
    requires setup.cfgs == CorrelationConfigs(rules) && setup.sources == RuleSourcesOf(DetectorConfigs(rules))
    requires NeverBackInTime(batches)
    requires Sort(TimestampOf, Flatten(batches)) == Analyzed(rules, env, fmt, now, files).value.events
    ensures var r := Analyzed(rules, env, fmt, now, files).value;
            var feeds := FoundBatchwise(DetectorConfigs(rules), batches);
            && n <= |r.findings| && FoundByRules(rules, r.events, r.findings[..n])
            && CorrelatedFrom(rules, r.findings[..n], r.findings[n..])
            && multiset(Flatten(feeds)) == multiset(r.findings[..n])
            && forall c | c in CorrelationRun(setup, feeds).1 ::
                  c.ip.Some? && Finds(r.findings[n..], c.ruleId, c.ip.value)
  {
    hide Analyzed, Sort, Flatten, FoundBatchwise, CorrelationRun, NeverBackInTime, BatchReports, RulePass;
    hide FoundByRules, CorrelatedFrom, Finds, DetectorConfigs, CorrelationConfigs, RuleSourcesOf, IsSorted;
    n := AnalysisFindings(rules, env, fmt, now, files);
    var r, ds := Analyzed(rules, env, fmt, now, files).value, DetectorConfigs(rules);
    WatchFindsWhatTheEngineFinds(ds, batches);
    WatchCorrelationsAreTheEngines(setup, ds, batches);
    forall c | c in CorrelationRun(setup, FoundBatchwise(ds, batches)).1
      ensures c.ip.Some? && Finds(r.findings[n..], c.ruleId, c.ip.value)
    {
      BatchReportIsFound(rules, setup, r.findings[..n], r.findings[n..], c);
    }
  }
}
