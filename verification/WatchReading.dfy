/** What a watch session makes of one file: tail, number, sniff a format, parse. */
module WatchReading {
  import opened Models
  import opened Sequences
  import opened Tailing

  const MAX_SNIFF_BUFFER := 100

  datatype Parser = ApacheAccessParser | SyslogAuthParser

  datatype ParseOutcome = Parsed(event: LogEvent) | Unparsed(failure: ParseFailure)

  /** The parsers, never looked into: which one recognises a sample, and what one makes, at some
      instant, of a numbered line of a file. The instant matters because a live session dates
      yearless lines by the clock, each at the moment it is parsed: `clock` is when the session comes
      to parse a line of a file, which it does at most once, in whichever poll that is. */
  datatype Parsing = Parsing(
    resolve: seq<string> -> Option<Parser>,
    parseLine: (Parser, Instant, string, nat, string) -> ParseOutcome,
    clock: (string, nat) -> Instant)

  datatype Numbered = Numbered(no: nat, text: string)

  function Outcome(ps: Parsing, parser: Parser, file: string, item: Numbered): ParseOutcome {
    ps.parseLine(parser, ps.clock(file, item.no), file, item.no, item.text)
  }

  /** What the session remembers about one file besides the tailer. */
  datatype Reader = Reader(parser: Option<Parser>, pending: seq<Numbered>, lineNo: nat)

  const FRESH_READER := Reader(None, [], 0)

  /** What has become of the lines: events and failures of the parsed ones, and how many were
      dropped from the sniff buffer. */
  datatype Tally = Tally(events: seq<LogEvent>, failures: nat, parsed: seq<Numbered>, trimmed: nat)

  const NOTHING_READ := Tally([], 0, [], 0)

  function Number(before: nat, lines: seq<string>): seq<Numbered> {
    seq(|lines|, i requires 0 <= i < |lines| => Numbered(before + i + 1, lines[i]))
  }

  function Texts(items: seq<Numbered>): seq<string> {
    seq(|items|, i requires 0 <= i < |items| => items[i].text)
  }

  function EventsOf(ps: Parsing, parser: Parser, file: string, items: seq<Numbered>): seq<LogEvent> {
    if items == [] then []
    else
      var front, last := EventsOf(ps, parser, file, items[..|items| - 1]), items[|items| - 1];
      var outcome := Outcome(ps, parser, file, last);
      if outcome.Parsed? then front + [outcome.event] else front
  }

  function FailuresOf(ps: Parsing, parser: Parser, file: string, items: seq<Numbered>): nat {
    if items == [] then 0
    else
      var last := items[|items| - 1];
      FailuresOf(ps, parser, file, items[..|items| - 1])
      + if Outcome(ps, parser, file, last).Unparsed? then 1 else 0
  }

  /** The parser to use once `pending` is what has gathered. */
  function ParserFor(ps: Parsing, r: Reader, pending: seq<Numbered>): Option<Parser> {
    if r.parser.Some? then r.parser else ps.resolve(Texts(pending))
  }

  /** `_read_file_events` after the poll: the new reader, and what became of lines in this call. */
  function ReadStep(ps: Parsing, file: string, r: Reader, lines: seq<string>): (Reader, Tally) {
    var pending := r.pending + Number(r.lineNo, lines);
    var lineNo := r.lineNo + |lines|;
    if pending == [] then (Reader(r.parser, [], lineNo), NOTHING_READ)
    else
      var parser := ParserFor(ps, r, pending);
      if parser.None? then
        var cut := if |pending| > MAX_SNIFF_BUFFER then |pending| - MAX_SNIFF_BUFFER else 0;
        (Reader(None, pending[cut..], lineNo), Tally([], 0, [], cut))
      else
        (Reader(parser, [], lineNo),
         Tally(EventsOf(ps, parser.value, file, pending), FailuresOf(ps, parser.value, file, pending), pending, 0))
  }

  function Plus(a: Tally, b: Tally): Tally {
    Tally(a.events + b.events, a.failures + b.failures, a.parsed + b.parsed, a.trimmed + b.trimmed)
  }

  /** One file over a sequence of polls. */
  function FileRun(
    ps: Parsing, decode: Decoder, limit: nat, file: string, views: seq<FileView>): (TailState, Reader, Tally) {
    if views == [] then (FRESH_TAIL, FRESH_READER, NOTHING_READ)
    else
      var (tail, reader, tally) := FileRun(ps, decode, limit, file, views[..|views| - 1]);
      var (tail', lines) := PollStep(decode, limit, tail, views[|views| - 1]);
      var (reader', more) := ReadStep(ps, file, reader, lines);
      (tail', reader', Plus(tally, more))
  }

  // ---------------------------------------------------------------------------

  /** Lines `parsed` then `pending`, under their numbers, are all of `lines` but the first few. */
  ghost predicate Stretch(lines: seq<string>, trimmed: nat, parsed: seq<Numbered>, pending: seq<Numbered>) {
    && trimmed <= |lines|
    && |parsed| + |pending| == |lines| - trimmed
    && (forall i | 0 <= i < |parsed| :: parsed[i] == Numbered(trimmed + i + 1, lines[trimmed + i]))
    && (forall i | 0 <= i < |pending| ::
          pending[i] == Numbered(trimmed + |parsed| + i + 1, lines[trimmed + |parsed| + i]))
  }

  /** How far a reader has got with the lines tailed so far. */
  ghost predicate Accounts(ps: Parsing, file: string, lines: seq<string>, r: Reader, t: Tally) {
    && r.lineNo == |lines| && Stretch(lines, t.trimmed, t.parsed, r.pending)
    && (r.parser.None? ==>
          t.parsed == [] && |r.pending| == Min(|lines|, MAX_SNIFF_BUFFER) && t.events == [] && t.failures == 0)
    && (r.parser.Some? ==> r.pending == [] && t.events == EventsOf(ps, r.parser.value, file, t.parsed)
                           && t.failures == FailuresOf(ps, r.parser.value, file, t.parsed))
  }

  lemma {:induction false} EventsOfAppend(ps: Parsing, parser: Parser, file: string, a: seq<Numbered>, b: seq<Numbered>)
    ensures EventsOf(ps, parser, file, a + b) == EventsOf(ps, parser, file, a) + EventsOf(ps, parser, file, b)
    ensures FailuresOf(ps, parser, file, a + b) == FailuresOf(ps, parser, file, a) + FailuresOf(ps, parser, file, b)
  {
    if b == [] {
      assert a + b == a;
    } else {
      var front, last := b[..|b| - 1], b[|b| - 1];
      EventsOfAppend(ps, parser, file, a, front);
      assert (a + b)[..|a + b| - 1] == a + front && (a + b)[|a + b| - 1] == last;
    }
  }

  lemma {:induction false} EveryItemIsCounted(ps: Parsing, parser: Parser, file: string, items: seq<Numbered>)
    ensures |EventsOf(ps, parser, file, items)| + FailuresOf(ps, parser, file, items) == |items|
  {
    if items != [] {
      EveryItemIsCounted(ps, parser, file, items[..|items| - 1]);
    }
  }

  lemma StretchGathers(
    lines: seq<string>, more: seq<string>, trimmed: nat, parsed: seq<Numbered>, pending: seq<Numbered>)
    requires Stretch(lines, trimmed, parsed, pending)
    ensures Stretch(lines + more, trimmed, parsed, pending + Number(|lines|, more))
    ensures |pending + Number(|lines|, more)| == |pending| + |more|
  {
  }

  lemma StretchTrims(lines: seq<string>, trimmed: nat, pending: seq<Numbered>, cut: nat)
    requires Stretch(lines, trimmed, [], pending) && cut <= |pending|
    ensures Stretch(lines, trimmed + cut, [], pending[cut..])
  {
  }

  lemma StretchParses(lines: seq<string>, trimmed: nat, parsed: seq<Numbered>, pending: seq<Numbered>)
    requires Stretch(lines, trimmed, parsed, pending)
    ensures Stretch(lines, trimmed, parsed + pending, [])
  {
  }

  lemma StepAccounts(ps: Parsing, file: string, lines: seq<string>, more: seq<string>, r: Reader, t: Tally)
    requires Accounts(ps, file, lines, r, t)
    ensures var (r', d) := ReadStep(ps, file, r, more);
            Accounts(ps, file, lines + more, r', Plus(t, d))
  {
    hide EventsOf, FailuresOf, Number, ParserFor, Accounts, Plus;
    var gathered := r.pending + Number(r.lineNo, more);
    if gathered == [] {
      NothingToRead(ps, file, lines, more, r, t);
    } else if ParserFor(ps, r, gathered).None? {
      UnsniffedAccounts(ps, file, lines, more, r, t, gathered);
    } else {
      ParsedAccounts(ps, file, lines, more, r, t, gathered);
    }
  }

  lemma NothingToRead(ps: Parsing, file: string, lines: seq<string>, more: seq<string>, r: Reader, t: Tally)
    requires Accounts(ps, file, lines, r, t) && r.pending + Number(r.lineNo, more) == []
    ensures Accounts(ps, file, lines + more, Reader(r.parser, [], r.lineNo + |more|), Plus(t, NOTHING_READ))
  {
    hide Accounts, Plus;
    assert |r.pending + Number(r.lineNo, more)| == |r.pending| + |more|;
    assert lines + [] == lines;
    PlusNothing(t);
  }

  lemma PlusNothing(t: Tally)
    ensures Plus(t, NOTHING_READ) == t
  {
    assert t.events + [] == t.events && t.parsed + [] == t.parsed;
  }

  lemma TrimmedPlusTrimmed(trimmed: nat, cut: nat)
    ensures Plus(Tally([], 0, [], trimmed), Tally([], 0, [], cut)) == Tally([], 0, [], trimmed + cut)
  {
  }

  /** Keeping the newest hundred of what was pending and what is new. */
  lemma CutToSize(lines: nat, more: nat, cut: nat)
    requires var gathered := Min(lines, MAX_SNIFF_BUFFER) + more;
             cut == if gathered > MAX_SNIFF_BUFFER then gathered - MAX_SNIFF_BUFFER else 0
    ensures Min(lines, MAX_SNIFF_BUFFER) + more - cut == Min(lines + more, MAX_SNIFF_BUFFER)
  {
  }

  lemma UnsniffedSoFar(ps: Parsing, file: string, lines: seq<string>, r: Reader, t: Tally, gathered: seq<Numbered>)
    requires Accounts(ps, file, lines, r, t) && ParserFor(ps, r, gathered).None?
    ensures t == Tally([], 0, [], t.trimmed) && r == Reader(None, r.pending, |lines|)
    ensures |r.pending| == Min(|lines|, MAX_SNIFF_BUFFER) && Stretch(lines, t.trimmed, [], r.pending)
  {
    hide Stretch, Min;
  }

  lemma UnsniffedStill(ps: Parsing, file: string, lines: seq<string>, pending: seq<Numbered>, trimmed: nat)
    requires |pending| == Min(|lines|, MAX_SNIFF_BUFFER) && Stretch(lines, trimmed, [], pending)
    ensures Accounts(ps, file, lines, Reader(None, pending, |lines|), Tally([], 0, [], trimmed))
  {
    hide Stretch, Min;
  }

  lemma UnsniffedAccounts(
    ps: Parsing, file: string, lines: seq<string>, more: seq<string>, r: Reader, t: Tally, gathered: seq<Numbered>)
    requires Accounts(ps, file, lines, r, t)
    requires gathered == r.pending + Number(r.lineNo, more) && ParserFor(ps, r, gathered).None?
    ensures var cut := if |gathered| > MAX_SNIFF_BUFFER then |gathered| - MAX_SNIFF_BUFFER else 0;
            Accounts(ps, file, lines + more, Reader(None, gathered[cut..], r.lineNo + |more|),
                Plus(t, Tally([], 0, [], cut)))
  {
    hide Accounts, Number, ParserFor, Stretch, Min, Plus;
    UnsniffedSoFar(ps, file, lines, r, t, gathered);
    StretchGathers(lines, more, t.trimmed, [], r.pending);
    var cut := if |gathered| > MAX_SNIFF_BUFFER then |gathered| - MAX_SNIFF_BUFFER else 0;
    CutToSize(|lines|, |more|, cut);
    StretchTrims(lines + more, t.trimmed, gathered, cut);
    TrimmedPlusTrimmed(t.trimmed, cut);
    UnsniffedStill(ps, file, lines + more, gathered[cut..], t.trimmed + cut);
  }

  lemma ParsedAccounts(
    ps: Parsing, file: string, lines: seq<string>, more: seq<string>, r: Reader, t: Tally, gathered: seq<Numbered>)
    requires Accounts(ps, file, lines, r, t)
    requires gathered == r.pending + Number(r.lineNo, more) && ParserFor(ps, r, gathered).Some?
    ensures var parser := ParserFor(ps, r, gathered);
            Accounts(ps, file, lines + more, Reader(parser, [], r.lineNo + |more|),
                     Plus(t, Tally(EventsOf(ps, parser.value, file, gathered),
                         FailuresOf(ps, parser.value, file, gathered), gathered, 0)))
  {
    hide EventsOf, FailuresOf, Number, ParserFor, Stretch;
    StretchGathers(lines, more, t.trimmed, t.parsed, r.pending);
    StretchParses(lines + more, t.trimmed, t.parsed, gathered);
    ParseAccounts(ps, file, r, t, gathered);
  }

  lemma ParseAccounts(ps: Parsing, file: string, r: Reader, t: Tally, gathered: seq<Numbered>)
    requires ParserFor(ps, r, gathered).Some?
    requires r.parser.None? ==> t.parsed == [] && t.events == [] && t.failures == 0
    requires r.parser.Some? ==> t.events == EventsOf(ps, r.parser.value, file, t.parsed)
                                && t.failures == FailuresOf(ps, r.parser.value, file, t.parsed)
    ensures var parser := ParserFor(ps, r, gathered).value;
            && t.events + EventsOf(ps, parser, file, gathered) == EventsOf(ps, parser, file, t.parsed + gathered)
            && t.failures + FailuresOf(ps, parser, file, gathered) == FailuresOf(ps, parser, file, t.parsed + gathered)
  {
    var parser := ParserFor(ps, r, gathered).value;
    EventsOfAppend(ps, parser, file, t.parsed, gathered);
  }

  /** Over any polls of a file: the tailer does what it does alone; the lines parsed and pending
      are one contiguous stretch of the tailed lines, each with its own number, preceded only by
      what was trimmed while no format was known; nothing is parsed twice; while no parser is known
      the newest 100 lines, and no more, are pending, and afterwards none. */
  lemma {:induction false} FileIsAccountedFor(
    ps: Parsing, decode: Decoder, limit: nat, file: string, views: seq<FileView>)
    ensures var (tail, r, t) := FileRun(ps, decode, limit, file, views);
            var (tail', lines) := Run(decode, limit, FRESH_TAIL, views);
            && tail == tail' && Accounts(ps, file, lines, r, t)
            && |r.pending| == (if r.parser.Some? then 0 else if |lines| < 100 then |lines| else 100)
            && |lines| == |t.events| + t.failures + |r.pending| + t.trimmed
  {
    hide Accounts, PollStep, ReadStep;
    if views == [] {
      NothingAccounted(ps, file);
    } else {
      FileIsAccountedFor(ps, decode, limit, file, views[..|views| - 1]);
      var (tail, r, t) := FileRun(ps, decode, limit, file, views[..|views| - 1]);
      var (tail', lines) := Run(decode, limit, FRESH_TAIL, views[..|views| - 1]);
      var more := PollStep(decode, limit, tail, views[|views| - 1]).1;
      StepAccounts(ps, file, lines, more, r, t);
    }
    var (tail, r, t) := FileRun(ps, decode, limit, file, views);
    AccountsConserve(ps, file, Run(decode, limit, FRESH_TAIL, views).1, r, t);
  }

  lemma NothingAccounted(ps: Parsing, file: string)
    ensures Accounts(ps, file, [], FRESH_READER, NOTHING_READ)
  {
  }

  lemma AccountsConserve(ps: Parsing, file: string, lines: seq<string>, r: Reader, t: Tally)
    requires Accounts(ps, file, lines, r, t)
    ensures |r.pending| == if r.parser.Some? then 0 else if |lines| < 100 then |lines| else 100
    ensures |lines| == |t.events| + t.failures + |r.pending| + t.trimmed
  {
    if r.parser.Some? {
      EveryItemIsCounted(ps, r.parser.value, file, t.parsed);
    }
  }

  /** End to end for a file that only grows: the lines parsed, in order and under their positions
      in the file, followed by those pending, are the decoded complete lines read so far, less the
      first `trimmed` of them. */
  lemma GrowingFileIsParsedInPlace(
    ps: Parsing, decode: Decoder, limit: nat, file: string, views: seq<FileView>, inode: nat, content: Bytes)
    requires Growing(views, inode, content)
    ensures var (tail, r, t) := FileRun(ps, decode, limit, file, views);
            tail.offset <= |content|
            && var lines := Lines(decode, content[..tail.offset]);
               && t.trimmed <= |lines| && |t.parsed| + |r.pending| == |lines| - t.trimmed
               && (forall i | 0 <= i < |t.parsed| :: t.parsed[i] == Numbered(t.trimmed + i + 1, lines[t.trimmed + i]))
               && (forall i | 0 <= i < |r.pending| ::
                     r.pending[i] == Numbered(t.trimmed + |t.parsed| + i + 1, lines[t.trimmed + |t.parsed| + i]))
  {
    hide Run, FileRun, Lines, Number, EventsOf, FailuresOf;
    FileIsAccountedFor(ps, decode, limit, file, views);
    TailerIsExact(decode, limit, views, inode, content);
    var (tail, r, t) := FileRun(ps, decode, limit, file, views);
    var lines := Lines(decode, content[..tail.offset]);
    assert Accounts(ps, file, lines, r, t);
  }

  // ---------------------------------------------------------------------------
  // Which parser, and what it makes of the lines
  // ---------------------------------------------------------------------------

  /** The sample at a poll: the newest 100 lines from before it, and those it has brought. */
  function SampleAt(decode: Decoder, limit: nat, views: seq<FileView>, k: nat): seq<string>
    requires k < |views|
  {
    var (tail, before) := Run(decode, limit, FRESH_TAIL, views[..k]);
    (if |before| > 100 then before[|before| - 100..] else before) + PollStep(decode, limit, tail, views[k]).1
  }

  /** At this poll there is a sample, and it resolves to this. */
  ghost predicate Resolves(
    ps: Parsing, decode: Decoder, limit: nat, views: seq<FileView>, k: nat, parser: Option<Parser>)
    requires k < |views|
  {
    var sample := SampleAt(decode, limit, views, k);
    parser == if sample == [] then None else ps.resolve(sample)
  }

  lemma PendingIsSample(ps: Parsing, file: string, lines: seq<string>, more: seq<string>, r: Reader, t: Tally)
    requires Accounts(ps, file, lines, r, t) && r.parser.None?
    ensures Texts(r.pending + Number(r.lineNo, more))
         == (if |lines| > 100 then lines[|lines| - 100..] else lines) + more
  {
    hide EventsOf, FailuresOf;
    var kept := if |lines| > 100 then lines[|lines| - 100..] else lines;
    assert Texts(r.pending) == kept;
    assert Texts(r.pending + Number(r.lineNo, more)) == Texts(r.pending) + more;
  }

  lemma ParserAfterStep(ps: Parsing, file: string, lines: seq<string>, more: seq<string>, r: Reader, t: Tally)
    requires Accounts(ps, file, lines, r, t)
    ensures var sample := (if |lines| > 100 then lines[|lines| - 100..] else lines) + more;
            ReadStep(ps, file, r, more).0.parser
            == if r.parser.Some? then r.parser else if sample == [] then None else ps.resolve(sample)
  {
    hide Accounts, EventsOf, FailuresOf, Number;
    if r.parser.None? {
      PendingIsSample(ps, file, lines, more, r, t);
      var gathered := r.pending + Number(r.lineNo, more);
      assert |Texts(gathered)| == |gathered|;
    }
  }

  /** This parser is the first that a sample resolves to, or none of them does. */
  ghost predicate FirstResolved(
    ps: Parsing, decode: Decoder, limit: nat, views: seq<FileView>, parser: Option<Parser>) {
    && (parser == None ==> forall k | 0 <= k < |views| :: Resolves(ps, decode, limit, views, k, None))
    && (parser != None ==> exists k | 0 <= k < |views| ::
          Resolves(ps, decode, limit, views, k, parser)
          && forall j | 0 <= j < k :: Resolves(ps, decode, limit, views, j, None))
  }

  lemma ResolvedAfterOneMore(
    ps: Parsing, decode: Decoder, limit: nat, views: seq<FileView>, before: Option<Parser>, after: Option<Parser>)
    requires views != [] && FirstResolved(ps, decode, limit, views[..|views| - 1], before)
    requires if before != None then after == before else Resolves(ps, decode, limit, views, |views| - 1, after)
    ensures FirstResolved(ps, decode, limit, views, after)
  {
    hide Resolves;
    var n := |views| - 1;
    var front := views[..n];
    forall k: nat, parser | k < n
      ensures Resolves(ps, decode, limit, views, k, parser) <==> Resolves(ps, decode, limit, front, k, parser)
    {
      SameSample(ps, decode, limit, views, n, k, parser);
    }
    if before != None {
      var k :| 0 <= k < n && Resolves(ps, decode, limit, front, k, before)
          && forall j | 0 <= j < k :: Resolves(ps, decode, limit, front, j, None);
      assert Resolves(ps, decode, limit, views, k, before);
    }
  }

  /** The parser of a file is the first one that a sample resolves to, and it is kept. */
  lemma {:induction false} ParserIsFirstResolved(
    ps: Parsing, decode: Decoder, limit: nat, file: string, views: seq<FileView>)
    ensures FirstResolved(ps, decode, limit, views, FileRun(ps, decode, limit, file, views).1.parser)
  {
    if views != [] {
      hide PollStep, ReadStep, Accounts, Run, Resolves, FirstResolved;
      var n := |views| - 1;
      var front := views[..n];
      ParserIsFirstResolved(ps, decode, limit, file, front);
      FileIsAccountedFor(ps, decode, limit, file, front);
      var (tail, r, t) := FileRun(ps, decode, limit, file, front);
      var lines := Run(decode, limit, FRESH_TAIL, front).1;
      ParserAfterStep(ps, file, lines, PollStep(decode, limit, tail, views[n]).1, r, t);
      LastResolves(ps, decode, limit, views);
      ResolvedAfterOneMore(
        ps, decode, limit, views, r.parser, FileRun(ps, decode, limit, file, views).1.parser);
    }
  }

  lemma LastResolves(ps: Parsing, decode: Decoder, limit: nat, views: seq<FileView>)
    requires views != []
    ensures var n := |views| - 1;
            var (tail, lines) := Run(decode, limit, FRESH_TAIL, views[..n]);
            var sample := (if |lines| > 100 then lines[|lines| - 100..] else lines)
                            + PollStep(decode, limit, tail, views[n]).1;
            forall parser :: Resolves(ps, decode, limit, views, n, parser) <==>
                             parser == if sample == [] then None else ps.resolve(sample)
  {
    hide Run, PollStep;
  }

  lemma SameSample(
    ps: Parsing, decode: Decoder, limit: nat, views: seq<FileView>, n: nat, k: nat, parser: Option<Parser>)
    requires k < n <= |views|
    ensures Resolves(ps, decode, limit, views, k, parser) <==> Resolves(ps, decode, limit, views[..n], k, parser)
  {
    assert views[..n][..k] == views[..k];
  }

  function Parses(ps: Parsing, parser: Parser, file: string): Numbered -> bool {
    (item: Numbered) => Outcome(ps, parser, file, item).Parsed?
  }

  lemma {:induction false} EventsFiltered(ps: Parsing, parser: Parser, file: string, items: seq<Numbered>)
    ensures var events, kept := EventsOf(ps, parser, file, items), Filter(Parses(ps, parser, file), items);
            && |events| == |kept| && FailuresOf(ps, parser, file, items) == |items| - |kept|
            && forall j | 0 <= j < |kept| :: Outcome(ps, parser, file, kept[j]) == Parsed(events[j])
  {
    hide Outcome;
    if items != [] {
      EventsFiltered(ps, parser, file, items[..|items| - 1]);
    }
  }

  /** What is made of some lines: each is parsed once, in order, at its own instant; those that do not
      parse are the failures. */
  lemma EventsInOrder(ps: Parsing, parser: Parser, file: string, items: seq<Numbered>) returns (at: seq<nat>)
    ensures Increasing(at)
    ensures forall i: nat :: i in at <==> i < |items| && Outcome(ps, parser, file, items[i]).Parsed?
    ensures var events := EventsOf(ps, parser, file, items);
            && |events| == |at| && FailuresOf(ps, parser, file, items) == |items| - |at|
            && forall j | 0 <= j < |at| ::
                 at[j] < |items| && Outcome(ps, parser, file, items[at[j]]) == Parsed(events[j])
  {
    hide Outcome, Filter, Places, Increasing, EventsOf, FailuresOf;
    at := Places(Parses(ps, parser, file), items);
    FilterByPlaces(Parses(ps, parser, file), items);
    EventsFiltered(ps, parser, file, items);
  }
}
