/** When the order in which the files are named can change what an analysis yields. */
module FileOrder {
  import opened Models
  import opened Sequences
  import opened DetectionRules
  import opened Configuration
  import opened WatchReading
  import opened AnalysisModel

  type FileEvents = string -> seq<LogEvent>

  // ---------------------------------------------------------------------------
  // Files read by one parser
  // ---------------------------------------------------------------------------

  /** Different files yield no events at the same instant. */
  ghost predicate Apart(eventsOf: FileEvents, files: seq<string>) {
    forall f, g, d, e | f in files && g in files && f != g && d in eventsOf(f) && e in eventsOf(g) ::
        d.timestamp != e.timestamp
  }

  function At(k: Instant): LogEvent -> bool {
    KeyIs(TimestampOf, k)
  }

  lemma AtMeans(k: Instant)
    ensures forall e :: At(k)(e) <==> e.timestamp == k
  {
    forall e: LogEvent
      ensures At(k)(e) <==> e.timestamp == k
    {
      assert At(k)(e) <==> TimestampOf(e) == k;
    }
  }

  function Repeated<T>(xs: seq<T>, n: nat): seq<T> {
    if n == 0 then [] else Repeated(xs, n - 1) + xs
  }

  lemma MentionsSnoc(front: seq<string>, last: string, f: string)
    ensures multiset(front + [last])[f] == multiset(front)[f] + if last == f then 1 else 0
  {
  }

  /** Where only one file has events at an instant, they come out in its order, once for each time
      the file is named. */
  lemma {:induction false} OnlyOneFile(eventsOf: FileEvents, files: seq<string>, k: Instant, f: string)
    requires forall g | g in files && g != f :: Filter(At(k), eventsOf(g)) == []
    ensures Filter(At(k), FlatMap(eventsOf, files)) == Repeated(Filter(At(k), eventsOf(f)), multiset(files)[f])
  {
    if files != [] {
      hide Filter, At;
      var front, last := files[..|files| - 1], files[|files| - 1];
      MentionsSnoc(front, last, f);
      assert files == front + [last] && last in files;
      OnlyOneFile(eventsOf, front, k, f);
      FilterAppend(At(k), FlatMap(eventsOf, front), eventsOf(last));
      var before := Filter(At(k), FlatMap(eventsOf, front));
      if last != f {
        assert before + [] == before;
      }
    }
  }

  lemma ApartMeansOneFile(eventsOf: FileEvents, files: seq<string>, k: Instant, f: string)
    requires Apart(eventsOf, files) && f in files && Filter(At(k), eventsOf(f)) != []
    ensures forall g | g in files && g != f :: Filter(At(k), eventsOf(g)) == []
  {
    hide Filter, At;
    AtMeans(k);
    FilterMembers(At(k), eventsOf(f));
    var d := Filter(At(k), eventsOf(f))[0];
    assert d in Filter(At(k), eventsOf(f));
    forall g | g in files && g != f
      ensures Filter(At(k), eventsOf(g)) == []
    {
      FilterNone(At(k), eventsOf(g));
    }
  }

  /** If the files are apart, their order does not matter to what comes out at any one instant. */
  lemma ApartKeepsOrder(eventsOf: FileEvents, files: seq<string>, others: seq<string>, k: Instant)
    requires Apart(eventsOf, files) && multiset(files) == multiset(others)
    ensures Filter(At(k), FlatMap(eventsOf, files)) == Filter(At(k), FlatMap(eventsOf, others))
  {
    hide Filter, Apart, FlatMap;
    SameMembers(files, others);
    if files != [] {
      var f := files[0];
      if g :| g in files && Filter(At(k), eventsOf(g)) != [] {
        f := g;
        ApartMeansOneFile(eventsOf, files, k, f);
      }
      OnlyOneFile(eventsOf, files, k, f);
      OnlyOneFile(eventsOf, others, k, f);
    }
  }

  // ---------------------------------------------------------------------------
  // A tie between two files
  // ---------------------------------------------------------------------------

  lemma {:induction false} FlatMapCons(eventsOf: FileEvents, f: string, rest: seq<string>)
    ensures FlatMap(eventsOf, [f] + rest) == eventsOf(f) + FlatMap(eventsOf, rest)
  {
    if rest == [] {
      assert [f] + rest == [f] && [f][..0] == [];
      assert eventsOf(f) + [] == eventsOf(f) && [] + eventsOf(f) == eventsOf(f);
    } else {
      var front, last := rest[..|rest| - 1], rest[|rest| - 1];
      FlatMapCons(eventsOf, f, front);
      assert ([f] + rest)[..|rest|] == [f] + front && ([f] + rest)[|rest|] == last;
      assert eventsOf(f) + FlatMap(eventsOf, front) + eventsOf(last)
              == eventsOf(f) + (FlatMap(eventsOf, front) + eventsOf(last));
    }
  }

  /** The same files, with `f` named first. */
  lemma NamedFirst(files: seq<string>, f: string) returns (rest: seq<string>)
    requires f in files
    ensures multiset([f] + rest) == multiset(files)
  {
    var k :| 0 <= k < |files| && files[k] == f;
    rest := files[..k] + files[k + 1..];
    BagWithout(files, k);
    assert multiset([f] + rest) == multiset{f} + multiset(rest);
  }

  /** The first event at an instant is of the file named first, if that has one. */
  lemma FirstFileComesFirst(eventsOf: FileEvents, f: string, rest: seq<string>, d: LogEvent)
    requires d in eventsOf(f) && forall e | e in eventsOf(f) :: e.file == f
    ensures var at := Filter(At(d.timestamp), FlatMap(eventsOf, [f] + rest)); at != [] && at[0].file == f
  {
    hide Filter, FlatMap, At;
    var k := d.timestamp;
    AtMeans(k);
    FlatMapCons(eventsOf, f, rest);
    FilterAppend(At(k), eventsOf(f), FlatMap(eventsOf, rest));
    FilterMembers(At(k), eventsOf(f));
    var own := Filter(At(k), eventsOf(f));
    assert d in own;
    assert own[0] in own;
  }

  /** If two files tie, two ways of naming the files differ in what comes out at some instant. */
  lemma TieShows(eventsOf: FileEvents, files: seq<string>) returns (one: seq<string>, other: seq<string>, k: Instant)
    requires !Apart(eventsOf, files) && forall f, e | e in eventsOf(f) :: e.file == f
    ensures multiset(one) == multiset(files) && multiset(other) == multiset(files)
    ensures Filter(At(k), FlatMap(eventsOf, one)) != Filter(At(k), FlatMap(eventsOf, other))
  {
    hide Filter, FlatMap;
    var f, g, d, e :| f in files && g in files && f != g && d in eventsOf(f) && e in eventsOf(g)
        && d.timestamp == e.timestamp;
    k := d.timestamp;
    var rest := NamedFirst(files, f);
    FirstFileComesFirst(eventsOf, f, rest, d);
    one := [f] + rest;
    rest := NamedFirst(files, g);
    FirstFileComesFirst(eventsOf, g, rest, e);
    other := [g] + rest;
  }

  // ---------------------------------------------------------------------------
  // The whole analysis
  // ---------------------------------------------------------------------------

  /** No two files read by the same parser yield events at the same instant. Ties inside one file,
      and between a web log and an authentication log, are welcome. */
  ghost predicate ParsersApart(env: Environment, fmt: string, now: Instant, files: seq<string>) {
    && Apart(WebEventsIn(env, fmt), files)
    && Apart(AuthEventsIn(env, fmt, ReferenceOf(env, fmt, now, files)), files)
  }

  lemma {:induction false} EventsAreStamped(
    env: Environment, reference: Option<Instant>, file: string, lines: seq<string>)
    ensures forall e | e in ParsedEvents(env, reference, file, lines) ::
              e.file == file && e.source == if reference.None? then Web else Auth
  {
    if lines != [] {
      EventsAreStamped(env, reference, file, lines[..|lines| - 1]);
    }
  }

  lemma {:induction false} SourceOfAll(eventsOf: FileEvents, files: seq<string>, source: LogSource)
    requires forall f, e | e in eventsOf(f) :: e.source == source
    ensures forall e | e in FlatMap(eventsOf, files) :: e.source == source
  {
    if files != [] {
      SourceOfAll(eventsOf, files[..|files| - 1], source);
    }
  }

  lemma ReadersStamp(env: Environment, fmt: string, reference: Instant)
    ensures forall f, e | e in WebEventsIn(env, fmt)(f) :: e.file == f && e.source == Web
    ensures forall f, e | e in AuthEventsIn(env, fmt, reference)(f) :: e.file == f && e.source == Auth
  {
    hide ParsedEvents, LinesFor;
    forall f, e | e in WebEventsIn(env, fmt)(f)
      ensures e.file == f && e.source == Web
    {
      EventsAreStamped(env, None, f, LinesFor(env, fmt, ApacheAccessParser, f));
    }
    forall f, e | e in AuthEventsIn(env, fmt, reference)(f)
      ensures e.file == f && e.source == Auth
    {
      EventsAreStamped(env, Some(reference), f, LinesFor(env, fmt, SyslogAuthParser, f));
    }
  }

  /** What one source contributes at one instant, within the whole. */
  lemma SourceAt(env: Environment, fmt: string, now: Instant, files: seq<string>, k: Instant)
    ensures var reference := ReferenceOf(env, fmt, now, files);
            var at := Filter(At(k), AllEvents(env, fmt, now, files));
            && at == Filter(At(k), WebEvents(env, fmt, files))
                  + Filter(At(k), FlatMap(AuthEventsIn(env, fmt, reference), files))
            && Filter(MatchesSource(Some(Web)), at) == Filter(At(k), WebEvents(env, fmt, files))
            && Filter(MatchesSource(Some(Auth)), at) == Filter(At(k), FlatMap(AuthEventsIn(env, fmt, reference), files))
  {
    hide Filter, FlatMap, ReferenceOf, WebEventsIn, AuthEventsIn;
    var reference := ReferenceOf(env, fmt, now, files);
    var web, auth := WebEvents(env, fmt, files), FlatMap(AuthEventsIn(env, fmt, reference), files);
    FilterAppend(At(k), web, auth);
    ReadersStamp(env, fmt, reference);
    SourceOfAll(WebEventsIn(env, fmt), files, Web);
    SourceOfAll(AuthEventsIn(env, fmt, reference), files, Auth);
    SplitBySource(Filter(At(k), web), Filter(At(k), auth)) by {
      FilterMembers(At(k), web);
      FilterMembers(At(k), auth);
    }
  }

  lemma SplitBySource(web: seq<LogEvent>, auth: seq<LogEvent>)
    requires (forall e | e in web :: e.source == Web) && (forall e | e in auth :: e.source == Auth)
    ensures Filter(MatchesSource(Some(Web)), web + auth) == web && Filter(MatchesSource(Some(Auth)), web + auth) == auth
  {
    hide Filter;
    FilterAppend(MatchesSource(Some(Web)), web, auth);
    FilterAppend(MatchesSource(Some(Auth)), web, auth);
    FilterAll(MatchesSource(Some(Web)), web);
    FilterNone(MatchesSource(Some(Web)), auth);
    FilterNone(MatchesSource(Some(Auth)), web);
    FilterAll(MatchesSource(Some(Auth)), auth);
    assert web + [] == web && [] + auth == auth;
  }

  /** If the files of each parser are apart, naming them in another order, and at another time as
      soon as one web event parses, changes nothing about the events and the findings. */
  lemma FileOrderKeepsFindings(
    rules: seq<RuleConfig>, env: Environment, fmt: string, files: seq<string>, others: seq<string>,
    now: Instant, later: Instant)
    requires multiset(files) == multiset(others)
    requires WebEvents(env, fmt, files) != [] || now == later
    requires Analyzed(rules, env, fmt, now, files).Ok?
    requires ParsersApart(env, fmt, now, files)
    ensures var r, s := Analyzed(rules, env, fmt, now, files), Analyzed(rules, env, fmt, later, others);
            s.Ok? && r.value.events == s.value.events && r.value.findings == s.value.findings
  {
    hide FlatMap, Sort, Filter, FindingsOf, ReferenceOf, WebEvents, Apart, AllEvents;
    FileOrderIsImmaterial(rules, env, fmt, files, others, now, later);
    var all, same := AllEvents(env, fmt, now, files), AllEvents(env, fmt, later, others);
    forall k
      ensures Filter(KeyIs(TimestampOf, k), all) == Filter(KeyIs(TimestampOf, k), same)
    {
      AtEachInstant(env, fmt, files, others, now, later, k);
    }
    SortByKeys(TimestampOf, all, same);
  }

  lemma AtEachInstant(
    env: Environment, fmt: string, files: seq<string>, others: seq<string>, now: Instant, later: Instant, k: Instant)
    requires multiset(files) == multiset(others)
    requires WebEvents(env, fmt, files) != [] || now == later
    requires ParsersApart(env, fmt, now, files)
    ensures Filter(At(k), AllEvents(env, fmt, now, files)) == Filter(At(k), AllEvents(env, fmt, later, others))
  {
    hide FlatMap, Filter, ReferenceOf, Apart, AllEvents;
    ReferenceIgnoresOrder(env, fmt, files, others, now, later);
    SourceAt(env, fmt, now, files, k);
    SourceAt(env, fmt, later, others, k);
    ApartKeepsOrder(WebEventsIn(env, fmt), files, others, k);
    ApartKeepsOrder(AuthEventsIn(env, fmt, ReferenceOf(env, fmt, now, files)), files, others, k);
  }

  /** The events are the same however the files are named. */
  ghost predicate EventsIgnoreOrder(
    rules: seq<RuleConfig>, env: Environment, fmt: string, now: Instant, files: seq<string>)
    requires Analyzed(rules, env, fmt, now, files).Ok?
  {
    forall others | multiset(others) == multiset(files) ::
      Analyzed(rules, env, fmt, now, others).Ok?
      && Analyzed(rules, env, fmt, now, others).value.events == Analyzed(rules, env, fmt, now, files).value.events
  }

  /** Exactly when the order of the files is immaterial to the events: when the files of each parser
      are apart. */
  lemma OrderIsImmaterialIffApart(
    rules: seq<RuleConfig>, env: Environment, fmt: string, now: Instant, files: seq<string>)
    requires Analyzed(rules, env, fmt, now, files).Ok?
    ensures EventsIgnoreOrder(rules, env, fmt, now, files) <==> ParsersApart(env, fmt, now, files)
  {
    hide FlatMap, Sort, Filter, FindingsOf, ReferenceOf, WebEvents, Apart, AllEvents, FirstError;
    if ParsersApart(env, fmt, now, files) {
      forall others | multiset(others) == multiset(files)
        ensures Analyzed(rules, env, fmt, now, others).Ok?
        ensures Analyzed(rules, env, fmt, now, others).value.events
                == Analyzed(rules, env, fmt, now, files).value.events
      {
        FileOrderKeepsFindings(rules, env, fmt, files, others, now, now);
      }
    } else {
      var other := TieChangesEvents(env, fmt, now, files);
      var r := Analyzed(rules, env, fmt, now, other);
      assert r.Ok? ==> r.value.events == Sort(TimestampOf, AllEvents(env, fmt, now, other));
    }
  }

  lemma TieChangesEvents(env: Environment, fmt: string, now: Instant, files: seq<string>)
    returns (other: seq<string>)
    requires !ParsersApart(env, fmt, now, files)
    ensures multiset(other) == multiset(files)
    ensures Sort(TimestampOf, AllEvents(env, fmt, now, other)) != Sort(TimestampOf, AllEvents(env, fmt, now, files))
  {
    hide FlatMap, Sort, Filter, ReferenceOf, Apart, AllEvents, WebEventsIn, AuthEventsIn;
    var reference := ReferenceOf(env, fmt, now, files);
    ReadersStamp(env, fmt, reference);
    var one, k;
    if !Apart(WebEventsIn(env, fmt), files) {
      one, other, k := TieShows(WebEventsIn(env, fmt), files);
    } else {
      one, other, k := TieShows(AuthEventsIn(env, fmt, reference), files);
    }
    ReferenceIgnoresOrder(env, fmt, files, one, now, now);
    ReferenceIgnoresOrder(env, fmt, files, other, now, now);
    SourceAt(env, fmt, now, one, k);
    SourceAt(env, fmt, now, other, k);
    SortByKeys(TimestampOf, AllEvents(env, fmt, now, one), AllEvents(env, fmt, now, other));
    assert At(k) == KeyIs(TimestampOf, k);
    if Sort(TimestampOf, AllEvents(env, fmt, now, one)) != Sort(TimestampOf, AllEvents(env, fmt, now, files)) {
      other := one;
    }
  }

  // ---------------------------------------------------------------------------
  // A tie that changes the findings
  // ---------------------------------------------------------------------------

  /** Two web logs of one line each: a failed login in `a.log`, and in `b.log`, at the same instant
      and from the same address, one that got in. */
  function TiedLine(file: string, no: nat, text: string): ParseOutcome {
    var status := if text == "failed" then 401 else 200;
    Parsed(LogEvent(Web, file, no, 0, Some("198.51.100.7"), None, Some("/login"), Some(status), None))
  }

  function TiedLogs(): Environment {
    Environment(
      file => Lines([if file == "a.log" then "failed" else "accepted"]),
      (fmt, sample) => Some(ApacheAccessParser),
      TiedLine,
      (reference: Instant, file: string, no: nat, text: string) => Unparsed(ParseFailure(file, no)))
  }

  const SUCCESS_RULE: SafeRule := RuleSpec("brute-force-success", 3, 1, 300, BruteForceSuccess({401}, {200}, []))

  const SUCCESS_ONLY: seq<RuleConfig> := [DetectorRule(true, None, SUCCESS_RULE)]

  function TiedEvent(file: string): LogEvent {
    TiedLine(file, 1, if file == "a.log" then "failed" else "accepted").event
  }

  /** Such a tie decides what is found: named in one order the two logs yield a finding, in the
      other they do not. */
  lemma TiesLetOrderMatter(now: Instant)
    ensures var r := Analyzed(SUCCESS_ONLY, TiedLogs(), "auto", now, ["a.log", "b.log"]);
            var s := Analyzed(SUCCESS_ONLY, TiedLogs(), "auto", now, ["b.log", "a.log"]);
            r.Ok? && s.Ok? && r.value.findings != [] && s.value.findings == []
  {
    var failed, success := TiedEvent("a.log"), TiedEvent("b.log");
    hide Sort, Run, Filter, TiedLogs, Records, Probes, TiedEvent;
    TwoLogs(now, "a.log", "b.log");
    TwoLogs(now, "b.log", "a.log");
    OneRule([failed, success]);
    OneRule([success, failed]);
    TiedEventsMatter();
    FailureThenSuccess(SUCCESS_RULE, failed, success);
    SuccessThenFailure(SUCCESS_RULE, failed, success);
    SortedAlready(TimestampOf, failed, success);
    SortedAlready(TimestampOf, success, failed);
  }

  lemma TiedEventsMatter()
    ensures var failed, success := TiedEvent("a.log"), TiedEvent("b.log");
            && failed.timestamp == success.timestamp && failed.ip.Some? && failed.ip == success.ip
            && Records(SUCCESS_RULE.kind, failed) && Probes(SUCCESS_RULE.kind, success)
  {
  }

  lemma OneLog(now: Instant, file: string)
    ensures Open(TiedLogs(), "auto", file).Ok?
    ensures WebEventsIn(TiedLogs(), "auto")(file) == [TiedEvent(file)]
    ensures forall reference :: AuthEventsIn(TiedLogs(), "auto", reference)(file) == []
  {
    var text := if file == "a.log" then "failed" else "accepted";
    assert LinesFor(TiedLogs(), "auto", ApacheAccessParser, file) == [text];
    assert [text][..0] == [];
    assert ParsedEvents(TiedLogs(), None, file, []) == [];
  }

  lemma TwoLogs(now: Instant, a: string, b: string)
    ensures FirstError(TiedLogs(), "auto", [a, b]).None?
    ensures AllEvents(TiedLogs(), "auto", now, [a, b]) == [TiedEvent(a), TiedEvent(b)]
  {
    hide TiedLogs, Open, WebEventsIn, AuthEventsIn, TiedEvent;
    OneLog(now, a);
    OneLog(now, b);
    assert [a, b][..1] == [a] && [a][..0] == [];
    assert FirstError(TiedLogs(), "auto", [a]).None?;
    var reference := ReferenceOf(TiedLogs(), "auto", now, [a, b]);
    assert FlatMap(WebEventsIn(TiedLogs(), "auto"), [a]) == [TiedEvent(a)];
    assert FlatMap(AuthEventsIn(TiedLogs(), "auto", reference), [a]) == [];
  }

  lemma OneRule(ordered: seq<LogEvent>)
    ensures FindingsOf(SUCCESS_ONLY, ordered) == Run(SUCCESS_RULE, FRESH, ordered).1
  {
    hide Run, Filter;
    assert SUCCESS_ONLY[..0] == [];
    assert DetectorConfigs(SUCCESS_ONLY) == [DetectorConfig(None, SUCCESS_RULE)];
    assert CorrelationConfigs(SUCCESS_ONLY) == [];
    var ds := DetectorConfigs(SUCCESS_ONLY);
    assert ds[..0] == [];
    FilterAll(MatchesSource(None), ordered);
    assert [] + Run(SUCCESS_RULE, FRESH, ordered).1 == Run(SUCCESS_RULE, FRESH, ordered).1;
    assert RulePass(ds, ordered) == Run(SUCCESS_RULE, FRESH, ordered).1;
  }

  lemma FailureThenSuccess(rule: Rule, failed: LogEvent, success: LogEvent)
    requires rule.kind.BruteForceSuccess? && rule.threshold == 1
    requires failed.timestamp == success.timestamp && failed.ip.Some? && failed.ip == success.ip
    requires Records(rule.kind, failed) && Probes(rule.kind, success)
    ensures Run(rule, FRESH, [failed, success]).1 != []
  {
    var xs := [failed, success];
    hide Records, Probes, Filter, Run;
    SafeRulesDoNotRaise(rule, FRESH, xs);
    DetectorMeetsStatement(rule, xs);
    FilterMembers(InWindowOf(rule, success), xs[..2]);
    assert xs[..2] == xs && xs[0] == failed;
    assert failed in Window(rule, xs, 1);
    assert Triggers(rule, xs, 1);
    assert TriggeredBefore(rule, xs, 2, failed.ip.value);
  }

  lemma SuccessThenFailure(rule: Rule, failed: LogEvent, success: LogEvent)
    requires rule.kind.BruteForceSuccess? && rule.threshold == 1
    requires failed.timestamp == success.timestamp && failed.ip.Some? && failed.ip == success.ip
    requires Records(rule.kind, failed) && Probes(rule.kind, success)
    ensures Run(rule, FRESH, [success, failed]).1 == []
  {
    var xs := [success, failed];
    assert xs[..1] == [success] && xs[..2] == xs;
    FilterNone(InWindowOf(rule, success), [success]);
    assert !Triggers(rule, xs, 0) && !Triggers(rule, xs, 1);
    hide Run, Triggers;
    RunMeetsDeclaration(rule, xs, 2);
    assert Declared(rule, xs, 1) == [];
  }
}
