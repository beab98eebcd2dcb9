/** The watch session: polls its files, parses what is new, feeds the analyzer, and keeps count. */
module WatchSessions {
  import opened Models
  import opened Tailing
  import opened WatchReading
  import opened WatchBooks
  import opened WatchFindings
  import opened Configuration
  import opened IncrementalRules
  import opened Watch

  class WatchSession {
    const setting: Setting
    const analyzer: IncrementalAnalyzer
    const tailers: map<string, FileTailer>
    var parsers: map<string, Parser>
    var pending: map<string, seq<Numbered>>
    var lineNo: map<string, nat>
    var eventCount: nat
    var failureCount: nat
    var findingCount: nat

    /** Everything each file has shown so far. */
    ghost var views: map<string, seq<FileView>>
    /** All polls so far, and all findings returned by them. */
    ghost var polls: seq<seq<FileView>>
    ghost var reported: seq<Finding>

    /** One tailer for each file, not shared. */
    ghost predicate Wired() {
      && (forall f :: f in tailers <==> f in setting.files)
      && (forall f | f in tailers :: tailers[f].decode == setting.decode && tailers[f].limit == setting.limit)
      && (forall f, g | f in tailers && g in tailers && f != g :: tailers[f] != tailers[g])
    }

    ghost function Tails(): map<string, TailState>
      reads tailers.Values
    {
      map f | f in tailers :: tailers[f].State()
    }

    /** The books of the session, with `unfed` events read but not yet counted. */
    ghost function Now(unfed: nat): Books
      reads this`parsers, this`pending, this`lineNo, this`eventCount, this`failureCount, this`views, tailers.Values
    {
      Books(Tails(), parsers, pending, lineNo, eventCount + unfed, failureCount, views)
    }

    /** The books, the batches fed and the findings returned are those of the polls so far. */
    ghost predicate Follows()
      requires PollsOf(setting, polls)
      reads this, tailers.Values, analyzer
    {
      && Now(0) == SessionRun(setting, polls).0
      && analyzer.batches == BatchesOf(setting, polls)
      && reported == SessionFindings(setting, analyzer.setup, analyzer.detectors, polls)
      && findingCount == |reported|
    }

    ghost predicate Valid()
      reads this, tailers.Values, analyzer, analyzer.Repr
    {
      && Wired() && PollsOf(setting, polls) && Follows()
      && analyzer.Valid() && this !in analyzer.Repr && tailers.Values !! analyzer.Repr
    }

    constructor (setting: Setting, config: seq<RuleConfig>)
      ensures Valid() && this.setting == setting && Now(0) == Opened(setting)
      ensures polls == [] && reported == [] && analyzer.batches == [] && fresh(analyzer.Repr) && fresh(tailers.Values)
    {
      hide IncrementalAnalyzer.Valid, SessionRun, BatchesOf, SessionFindings, Sound, Covers, Now, Opened, ForEach;
      var made := OpenTailers(setting);
      var a := new IncrementalAnalyzer(config);
      analyzer := a;
      this.setting, tailers := setting, made;
      parsers := map[];
      pending := ForEach(setting.files, []);
      lineNo := ForEach<nat>(setting.files, 0);
      views := ForEach(setting.files, []);
      eventCount, failureCount, findingCount := 0, 0, 0;
      polls, reported := [], [];
      new;
      StartsOpened();
      NothingPolled(setting, analyzer.setup, analyzer.detectors);
    }

    lemma StartsOpened()
      requires forall f :: f in tailers <==> f in setting.files
      requires forall f | f in tailers :: tailers[f].State() == FRESH_TAIL
      requires parsers == map[] && eventCount == 0 && failureCount == 0
      requires pending == ForEach(setting.files, []) && lineNo == ForEach<nat>(setting.files, 0)
      requires views == ForEach(setting.files, [])
      ensures Now(0) == Opened(setting)
    {
      assert Tails() == Opened(setting).tails;
    }

    static method OpenTailers(setting: Setting) returns (tailers: map<string, FileTailer>)
      ensures fresh(tailers.Values)
      ensures forall f :: f in tailers <==> f in setting.files
      ensures forall f | f in tailers ::
                fresh(tailers[f]) && tailers[f].State() == FRESH_TAIL
                && tailers[f].decode == setting.decode && tailers[f].limit == setting.limit
      ensures forall f, g | f in tailers && g in tailers && f != g :: tailers[f] != tailers[g]
    {
      var files := setting.files;
      tailers := map[];
      for i := 0 to |files|
        invariant forall f :: f in tailers <==> f in files[..i]
        invariant forall f | f in tailers ::
                    fresh(tailers[f]) && tailers[f].State() == FRESH_TAIL
                    && tailers[f].decode == setting.decode && tailers[f].limit == setting.limit
        invariant forall f, g | f in tailers && g in tailers && f != g :: tailers[f] != tailers[g]
      {
        var tailer := new FileTailer(setting.decode, setting.limit);
        tailers := tailers[files[i] := tailer];
      }
    }

    method PollTailer(file: string, view: FileView) returns (lines: seq<string>)
      requires Wired() && file in tailers
      modifies tailers[file]
      ensures (Tails()[file], lines) == PollStep(setting.decode, setting.limit, old(Tails())[file], view)
      ensures Tails() == old(Tails())[file := Tails()[file]]
    {
      hide PollStep;
      lines := tailers[file].Poll(view);
    }

    method ReadFileEvents(file: string, view: FileView, ghost unfed: nat) returns (events: seq<LogEvent>)
      requires Wired() && file in tailers && file in pending && file in lineNo && file in views
      modifies this`parsers, this`pending, this`lineNo, this`failureCount, this`views, tailers[file]
      ensures Now(unfed + |events|) == ReadBooks(setting, old(Now(unfed)), file, view)
      ensures events == EventsRead(setting, old(Now(unfed)), file, view)
    {
      hide PollStep, ReadStep;
      var newLines := PollTailer(file, view);
      events := NumberAndParse(file, newLines);
      views := views[file := views[file] + [view]];
    }

    /** The part of `_read_file_events` after the poll. */
    method NumberAndParse(file: string, newLines: seq<string>) returns (events: seq<LogEvent>)
      requires file in pending && file in lineNo
      modifies this`parsers, this`pending, this`lineNo, this`failureCount
      ensures var parser := if file in old(parsers) then Some(old(parsers)[file]) else None;
              var (after, t) := ReadStep(setting.parsing, file,
                  Reader(parser, old(pending)[file], old(lineNo)[file]), newLines);
              && events == t.events && failureCount == old(failureCount) + t.failures
              && pending == old(pending)[file := after.pending] && lineNo == old(lineNo)[file := after.lineNo]
              && parsers == if after.parser.Some? then old(parsers)[file := after.parser.value] else old(parsers)
    {
      hide EventsOf, FailuresOf, Number;
      AppendNumbered(file, newLines);
      var gathered := pending[file];
      if gathered == [] {
        return [];
      }
      if file !in parsers {
        var resolved := setting.parsing.resolve(Texts(gathered));
        if resolved.None? {
          if |gathered| > MAX_SNIFF_BUFFER {
            pending := pending[file := gathered[|gathered| - MAX_SNIFF_BUFFER..]];
          }
          return [];
        }
        parsers := parsers[file := resolved.value];
      }
      events := ParseGathered(file, parsers[file], gathered);
      pending := pending[file := []];
    }

    method AppendNumbered(file: string, newLines: seq<string>)
      requires file in pending && file in lineNo
      modifies this`pending, this`lineNo
      ensures lineNo == old(lineNo)[file := old(lineNo)[file] + |newLines|]
      ensures pending == old(pending)[file := old(pending)[file] + Number(old(lineNo)[file], newLines)]
    {
      assert old(pending)[file] + Number(old(lineNo)[file], newLines[..0]) == old(pending)[file];
      for i := 0 to |newLines|
        invariant file in pending && file in lineNo
        invariant lineNo == old(lineNo)[file := old(lineNo)[file] + i]
        invariant pending == old(pending)[file := old(pending)[file] + Number(old(lineNo)[file], newLines[..i])]
      {
        lineNo := lineNo[file := lineNo[file] + 1];
        pending := pending[file := pending[file] + [Numbered(lineNo[file], newLines[i])]];
        NumberSnoc(old(lineNo)[file], newLines, i);
        assert pending[file] == old(pending)[file] + Number(old(lineNo)[file], newLines[..i + 1]);
      }
      assert newLines[..|newLines|] == newLines;
    }

    method ParseGathered(file: string, parser: Parser, gathered: seq<Numbered>) returns (events: seq<LogEvent>)
      modifies this`failureCount
      ensures events == EventsOf(setting.parsing, parser, file, gathered)
      ensures failureCount == old(failureCount) + FailuresOf(setting.parsing, parser, file, gathered)
    {
      events := [];
      for i := 0 to |gathered|
        invariant events == EventsOf(setting.parsing, parser, file, gathered[..i])
        invariant failureCount == old(failureCount) + FailuresOf(setting.parsing, parser, file, gathered[..i])
      {
        assert gathered[..i + 1][..i] == gathered[..i];
        var now := setting.parsing.clock(file, gathered[i].no);
        var outcome := setting.parsing.parseLine(parser, now, file, gathered[i].no, gathered[i].text);
        if outcome.Unparsed? {
          failureCount := failureCount + 1;
        } else {
          events := events + [outcome.event];
        }
      }
      assert gathered[..|gathered|] == gathered;
    }

    method ReadAll(shown: seq<FileView>) returns (polled: seq<LogEvent>)
      requires Wired() && Covers(setting, Now(0)) && |shown| == |setting.files|
      modifies this`parsers, this`pending, this`lineNo, this`failureCount, this`views, tailers.Values
      ensures (Now(|polled|), polled) == ReadAllBooks(setting, old(Now(0)), setting.files, shown)
    {
      hide ReadBooks, EventsRead, Wired, Covers;
      var files := setting.files;
      polled := [];
      for i := 0 to |files|
        invariant (Now(|polled|), polled) == ReadAllBooks(setting, old(Now(0)), files[..i], shown[..i])
      {
        assert files[..i + 1][..i] == files[..i] && shown[..i + 1][..i] == shown[..i];
        CoveredFile(setting, Now(|polled|), files[i]);
        var events := ReadFileEvents(files[i], shown[i], |polled|);
        polled := polled + events;
      }
      assert files[..|files|] == files && shown[..|shown|] == shown;
    }

    /** One poll: `shown[i]` is what the i-th file shows when its turn comes. */
    method PollOnce(shown: seq<FileView>) returns (findings: seq<Finding>)
      requires Valid() && |shown| == |setting.files|
      modifies this, tailers.Values, analyzer.Repr
      ensures Valid() && polls == old(polls) + [shown] && reported == old(reported) + findings
      ensures var (books, batch) := ReadAllBooks(setting, old(Now(0)), setting.files, shown);
              && Now(0) == books && findingCount == old(findingCount) + |findings|
              && findings == Fed(analyzer.setup, analyzer.detectors, old(analyzer.batches), batch)
              && analyzer.batches == if batch == [] then old(analyzer.batches) else old(analyzer.batches) + [batch]
    {
      hide IncrementalAnalyzer.Valid, Wired, Now, ReadAllBooks, Fed, FedAll, SessionRun, BatchesOf, Sound, Covers;
      OnePollMore(setting, polls, shown);
      findings := ReadAndFeed(shown);
      FedSnoc(analyzer.setup, analyzer.detectors, old(analyzer.batches),
          old(ReadAllBooks(setting, Now(0), setting.files, shown)).1);
      polls, reported := polls + [shown], reported + findings;
    }

    /** `poll_once` itself. */
    method ReadAndFeed(shown: seq<FileView>) returns (findings: seq<Finding>)
      requires Wired() && Covers(setting, Now(0)) && |shown| == |setting.files|
      requires analyzer.Valid() && this !in analyzer.Repr && tailers.Values !! analyzer.Repr
      modifies this`parsers, this`pending, this`lineNo, this`failureCount, this`views, tailers.Values
      modifies this`eventCount, this`findingCount, analyzer.Repr
      ensures analyzer.Valid() && analyzer.Repr == old(analyzer.Repr)
      ensures var (books, batch) := ReadAllBooks(setting, old(Now(0)), setting.files, shown);
              && Now(0) == books && findingCount == old(findingCount) + |findings|
              && findings == Fed(analyzer.setup, analyzer.detectors, old(analyzer.batches), batch)
              && analyzer.batches == if batch == [] then old(analyzer.batches) else old(analyzer.batches) + [batch]
    {
      hide IncrementalAnalyzer.Valid, Wired, Covers, ReadAllBooks, Fed;
      var batch := ReadAll(shown);
      findings := FeedBatch(batch);
    }

    method FeedBatch(batch: seq<LogEvent>) returns (findings: seq<Finding>)
      requires analyzer.Valid() && this !in analyzer.Repr && tailers.Values !! analyzer.Repr
      modifies this`eventCount, this`findingCount, analyzer.Repr
      ensures analyzer.Valid() && analyzer.Repr == old(analyzer.Repr)
      ensures Now(0) == old(Now(|batch|)) && findingCount == old(findingCount) + |findings|
      ensures findings == Fed(analyzer.setup, analyzer.detectors, old(analyzer.batches), batch)
      ensures analyzer.batches == if batch == [] then old(analyzer.batches) else old(analyzer.batches) + [batch]
    {
      hide IncrementalAnalyzer.Valid, Fed;
      ghost var before := Tails();
      findings := analyzer.Feed(batch);
      assert Tails() == before;
      eventCount := eventCount + |batch|;
      findingCount := findingCount + |findings|;
    }
  }

  lemma NothingPolled(s: Setting, setup: Setup, ds: seq<DetectorConfig>)
    ensures PollsOf(s, []) && SessionRun(s, []) == (Opened(s), []) && BatchesOf(s, []) == []
    ensures SessionFindings(s, setup, ds, []) == []
  {
  }

  lemma FedSnoc(setup: Setup, ds: seq<DetectorConfig>, batches: seq<seq<LogEvent>>, batch: seq<LogEvent>)
    ensures FedAll(setup, ds, batches) + Fed(setup, ds, batches, batch)
         == FedAll(setup, ds, if batch == [] then batches else batches + [batch])
  {
    hide FedAll;
    FedOneMore(setup, ds, batches, batch);
    if batch == [] {
      assert FedAll(setup, ds, batches) + [] == FedAll(setup, ds, batches);
    }
  }

  lemma NumberSnoc(before: nat, lines: seq<string>, i: nat)
    requires i < |lines|
    ensures Number(before, lines[..i + 1]) == Number(before, lines[..i]) + [Numbered(before + i + 1, lines[i])]
  {
  }
}
