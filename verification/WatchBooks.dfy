/** What a watch session knows about all its files, and that its counters account for every line. */
module WatchBooks {
  import opened Models
  import opened Sequences
  import opened Tailing
  import opened WatchReading

  // ---------------------------------------------------------------------------
  // Totals over the files
  // ---------------------------------------------------------------------------

  /** The paths without repetition. */
  function Distinct(files: seq<string>): seq<string> {
    if files == [] then []
    else
      var front, last := Distinct(files[..|files| - 1]), files[|files| - 1];
      if last in front then front else front + [last]
  }

  lemma {:induction false} DistinctMembers(files: seq<string>)
    ensures forall f :: f in Distinct(files) <==> f in files
    ensures forall i, j | 0 <= i < j < |Distinct(files)| :: Distinct(files)[i] != Distinct(files)[j]
  {
    if files != [] {
      DistinctMembers(files[..|files| - 1]);
      assert files == files[..|files| - 1] + [files[|files| - 1]];
    }
  }

  function Total(files: seq<string>, counts: map<string, nat>): nat
    requires forall f | f in files :: f in counts
  {
    if files == [] then 0
    else
      assert files[|files| - 1] in files;
      Total(files[..|files| - 1], counts) + counts[files[|files| - 1]]
  }

  lemma {:induction false} TotalUpdate(files: seq<string>, counts: map<string, nat>, file: string, n: nat)
    requires forall f | f in files :: f in counts
    requires forall i, j | 0 <= i < j < |files| :: files[i] != files[j]
    requires file in counts
    ensures Total(files, counts[file := n]) == Total(files, counts) + if file in files then n - counts[file] else 0
  {
    if files != [] {
      var front, last := files[..|files| - 1], files[|files| - 1];
      assert files == front + [last];
      TotalUpdate(front, counts, file, n);
    }
  }

  lemma {:induction false} TotalOfNothing(files: seq<string>, counts: map<string, nat>)
    requires forall f | f in files :: f in counts && counts[f] == 0
    ensures Total(files, counts) == 0
  {
    if files != [] {
      TotalOfNothing(files[..|files| - 1], counts);
    }
  }

  /** An equation that holds of each file holds of the totals. */
  lemma {:induction false} TotalsAdd(
    files: seq<string>, all: map<string, nat>,
    a: map<string, nat>, b: map<string, nat>, c: map<string, nat>, d: map<string, nat>)
    requires forall f | f in files ::
              f in all && f in a && f in b && f in c && f in d && all[f] == a[f] + b[f] + c[f] + d[f]
    ensures Total(files, all) == Total(files, a) + Total(files, b) + Total(files, c) + Total(files, d)
  {
    if files != [] {
      assert files[|files| - 1] in files;
      TotalsAdd(files[..|files| - 1], all, a, b, c, d);
    }
  }

  // ---------------------------------------------------------------------------
  // The books
  // ---------------------------------------------------------------------------

  /** What stays fixed during a session. */
  datatype Setting = Setting(files: seq<string>, parsing: Parsing, decode: Decoder, limit: nat)

  /** The session's dictionaries and counters, with everything each file has shown so far. */
  datatype Books = Books(
    tails: map<string, TailState>,
    parsers: map<string, Parser>,
    pending: map<string, seq<Numbered>>,
    lineNo: map<string, nat>,
    events: nat,
    failures: nat,
    views: map<string, seq<FileView>>)

  function ReaderIn(b: Books, file: string): Reader
    requires file in b.pending && file in b.lineNo
  {
    Reader(if file in b.parsers then Some(b.parsers[file]) else None, b.pending[file], b.lineNo[file])
  }

  /** What one file's own polls make of it. */
  function Alone(s: Setting, file: string, views: seq<FileView>): (TailState, Reader, Tally) {
    FileRun(s.parsing, s.decode, s.limit, file, views)
  }

  function EventCounts(s: Setting, views: map<string, seq<FileView>>): map<string, nat> {
    map f | f in views :: |Alone(s, f, views[f]).2.events|
  }

  function FailureCounts(s: Setting, views: map<string, seq<FileView>>): map<string, nat> {
    map f | f in views :: Alone(s, f, views[f]).2.failures
  }

  function TrimmedCounts(s: Setting, views: map<string, seq<FileView>>): map<string, nat> {
    map f | f in views :: Alone(s, f, views[f]).2.trimmed
  }

  function PendingCounts(b: Books): map<string, nat> {
    map f | f in b.pending :: |b.pending[f]|
  }

  ghost predicate Covers(s: Setting, b: Books) {
    && (forall f :: f in b.views <==> f in s.files)
    && b.tails.Keys == b.views.Keys && b.pending.Keys == b.views.Keys && b.lineNo.Keys == b.views.Keys
  }

  /** Every file is where its own polls put it, whatever the other files did. */
  ghost predicate Follow(s: Setting, b: Books) {
    && Covers(s, b)
    && forall f | f in b.views :: b.tails[f] == Alone(s, f, b.views[f]).0 && ReaderIn(b, f) == Alone(s, f, b.views[f]).1
  }

  lemma DistinctCovered(s: Setting, b: Books)
    requires Covers(s, b)
    ensures forall f | f in Distinct(s.files) :: f in b.views
    ensures forall f | f in Distinct(s.files) :: f in b.tails && f in b.pending && f in b.lineNo
  {
    DistinctMembers(s.files);
    assert forall f | f in b.views.Keys :: f in b.tails && f in b.pending && f in b.lineNo;
  }

  /** The counters are the sums of what the files yielded. */
  ghost predicate Tallied(s: Setting, b: Books) {
    && (forall f | f in Distinct(s.files) :: f in b.views)
    && b.events == Total(Distinct(s.files), EventCounts(s, b.views))
    && b.failures == Total(Distinct(s.files), FailureCounts(s, b.views))
  }

  ghost predicate Sound(s: Setting, b: Books) {
    Follow(s, b) && Tallied(s, b)
  }

  /** Python's `{f: v for f in files}`. */
  function ForEach<T>(files: seq<string>, v: T): map<string, T> {
    map f | f in files :: v
  }

  function Opened(s: Setting): Books {
    Books(ForEach(s.files, FRESH_TAIL), map[], ForEach(s.files, []), ForEach<nat>(s.files, 0), 0, 0,
          ForEach(s.files, []))
  }

  /** `_read_file_events` of one file, when the file shows `view`: the books after it. */
  ghost function ReadBooks(s: Setting, b: Books, file: string, view: FileView): Books
    requires file in b.tails && file in b.pending && file in b.lineNo && file in b.views
  {
    var (tail, lines) := PollStep(s.decode, s.limit, b.tails[file], view);
    var (reader, t) := ReadStep(s.parsing, file, ReaderIn(b, file), lines);
    Books(b.tails[file := tail],
          if reader.parser.Some? then b.parsers[file := reader.parser.value] else b.parsers,
          b.pending[file := reader.pending], b.lineNo[file := reader.lineNo],
          b.events + |t.events|, b.failures + t.failures, b.views[file := b.views[file] + [view]])
  }

  function EventsRead(s: Setting, b: Books, file: string, view: FileView): seq<LogEvent>
    requires file in b.tails && file in b.pending && file in b.lineNo
  {
    var lines := PollStep(s.decode, s.limit, b.tails[file], view).1;
    ReadStep(s.parsing, file, ReaderIn(b, file), lines).1.events
  }

  lemma OpenedIsSound(s: Setting)
    ensures Sound(s, Opened(s))
  {
    var b := Opened(s);
    DistinctMembers(s.files);
    TotalOfNothing(Distinct(s.files), EventCounts(s, b.views));
    TotalOfNothing(Distinct(s.files), FailureCounts(s, b.views));
  }

  lemma AloneSnoc(s: Setting, file: string, views: seq<FileView>, view: FileView)
    ensures var (tail, reader, t) := Alone(s, file, views);
            var (tail', lines) := PollStep(s.decode, s.limit, tail, view);
            var (reader', more) := ReadStep(s.parsing, file, reader, lines);
            Alone(s, file, views + [view]) == (tail', reader', Plus(t, more))
  {
    hide PollStep, ReadStep;
    assert (views + [view])[..|views|] == views;
  }

  /** A parser once resolved is kept. */
  lemma ParserIsKept(ps: Parsing, file: string, r: Reader, lines: seq<string>)
    ensures r.parser.Some? ==> ReadStep(ps, file, r, lines).0.parser == r.parser
  {
  }

  lemma Followed(s: Setting, b: Books, file: string)
    requires Follow(s, b) && file in b.views
    ensures file in b.tails && file in b.pending && file in b.lineNo
    ensures b.tails[file] == Alone(s, file, b.views[file]).0 && ReaderIn(b, file) == Alone(s, file, b.views[file]).1
  {
    assert file in b.views.Keys;
  }

  lemma ReadFollows(s: Setting, b: Books, file: string, view: FileView)
    requires Follow(s, b) && file in s.files
    requires file in b.tails && file in b.pending && file in b.lineNo && file in b.views
    ensures Follow(s, ReadBooks(s, b, file, view))
  {
    hide PollStep, ReadStep, Alone;
    Followed(s, b, file);
    AloneSnoc(s, file, b.views[file], view);
    ParserIsKept(s.parsing, file, ReaderIn(b, file), PollStep(s.decode, s.limit, b.tails[file], view).1);
    var b' := ReadBooks(s, b, file, view);
    forall f | f in b'.views
      ensures b'.tails[f] == Alone(s, f, b'.views[f]).0 && ReaderIn(b', f) == Alone(s, f, b'.views[f]).1
    {
      if f != file {
        Followed(s, b, f);
      }
    }
  }

  /** Only the file that was read yields anything new. */
  lemma TotalsAfterRead(s: Setting, views: map<string, seq<FileView>>, file: string, shown: seq<FileView>)
    requires file in views && file in s.files && forall f | f in Distinct(s.files) :: f in views
    ensures var before, after := Alone(s, file, views[file]).2, Alone(s, file, shown).2;
            && Total(Distinct(s.files), EventCounts(s, views[file := shown]))
               == Total(Distinct(s.files), EventCounts(s, views)) + |after.events| - |before.events|
            && Total(Distinct(s.files), FailureCounts(s, views[file := shown]))
               == Total(Distinct(s.files), FailureCounts(s, views)) + after.failures - before.failures
  {
    hide Alone, Total, Distinct;
    DistinctMembers(s.files);
    var after := Alone(s, file, shown).2;
    assert EventCounts(s, views[file := shown]) == EventCounts(s, views)[file := |after.events|];
    assert FailureCounts(s, views[file := shown]) == FailureCounts(s, views)[file := after.failures];
    TotalUpdate(Distinct(s.files), EventCounts(s, views), file, |after.events|);
    TotalUpdate(Distinct(s.files), FailureCounts(s, views), file, after.failures);
  }

  lemma ReadTallies(s: Setting, b: Books, file: string, view: FileView)
    requires Follow(s, b) && Tallied(s, b) && file in s.files
    requires file in b.tails && file in b.pending && file in b.lineNo && file in b.views
    ensures Tallied(s, ReadBooks(s, b, file, view))
  {
    hide PollStep, ReadStep, Alone, Total, Distinct, EventCounts, FailureCounts;
    Followed(s, b, file);
    AloneSnoc(s, file, b.views[file], view);
    TotalsAfterRead(s, b.views, file, b.views[file] + [view]);
  }

  /** Reading a file keeps the books sound, and what it returns continues what that file has
      yielded before. */
  lemma ReadIsSound(s: Setting, b: Books, file: string, view: FileView)
    requires Sound(s, b) && file in s.files
    requires file in b.tails && file in b.pending && file in b.lineNo && file in b.views
    ensures Sound(s, ReadBooks(s, b, file, view))
    ensures Alone(s, file, b.views[file] + [view]).2.events
         == Alone(s, file, b.views[file]).2.events + EventsRead(s, b, file, view)
  {
    hide PollStep, ReadStep, Alone, ReadBooks, Tallied;
    ReadFollows(s, b, file, view);
    ReadTallies(s, b, file, view);
    Followed(s, b, file);
    AloneSnoc(s, file, b.views[file], view);
  }

  /** Every line tailed is an event, a failure, still pending, or was trimmed while its file had no
      known format; and no file keeps more than 100 lines pending, or any once its format is known. */
  lemma LinesAreConserved(s: Setting, b: Books)
    requires Sound(s, b)
    ensures Covers(s, b)
    ensures forall f | f in Distinct(s.files) :: f in b.views && f in b.pending && f in b.lineNo
    ensures Total(Distinct(s.files), b.lineNo)
         == b.events + b.failures + Total(Distinct(s.files), PendingCounts(b))
             + Total(Distinct(s.files), TrimmedCounts(s, b.views))
    ensures forall f | f in b.pending :: |b.pending[f]| <= 100 && (f in b.parsers ==> b.pending[f] == [])
  {
    hide Total, Distinct;
    DistinctCovered(s, b);
    forall f | f in b.views
      ensures f in b.pending && f in b.lineNo
      ensures b.lineNo[f]
           == EventCounts(s, b.views)[f] + FailureCounts(s, b.views)[f]
              + PendingCounts(b)[f] + TrimmedCounts(s, b.views)[f]
      ensures |b.pending[f]| <= 100 && (f in b.parsers ==> b.pending[f] == [])
    {
      Followed(s, b, f);
      FileConserves(s, f, b.views[f]);
    }
    TotalsAdd(Distinct(s.files), b.lineNo,
              EventCounts(s, b.views), FailureCounts(s, b.views), PendingCounts(b), TrimmedCounts(s, b.views));
  }

  lemma FileConserves(s: Setting, file: string, views: seq<FileView>)
    ensures var (tail, r, t) := Alone(s, file, views);
            && r.lineNo == |t.events| + t.failures + |r.pending| + t.trimmed
            && |r.pending| <= 100 && (r.parser.Some? ==> r.pending == [])
  {
    hide EventsOf, FailuresOf, Number;
    FileIsAccountedFor(s.parsing, s.decode, s.limit, file, views);
  }

  // ---------------------------------------------------------------------------
  // One poll of all the files
  // ---------------------------------------------------------------------------

  /** The files are read in order; `shown[i]` is what the i-th shows when its turn comes. */
  ghost function ReadAllBooks(
    s: Setting, b: Books, files: seq<string>, shown: seq<FileView>): (r: (Books, seq<LogEvent>))
    requires Covers(s, b) && |files| == |shown| && forall f | f in files :: f in s.files
    ensures Covers(s, r.0)
  {
    if files == [] then (b, [])
    else
      var n := |files| - 1;
      var (front, events) := ReadAllBooks(s, b, files[..n], shown[..n]);
      CoveredFile(s, front, files[n]);
      ReadCovers(s, front, files[n], shown[n]);
      (ReadBooks(s, front, files[n], shown[n]), events + EventsRead(s, front, files[n], shown[n]))
  }

  lemma CoveredFile(s: Setting, b: Books, file: string)
    requires Covers(s, b) && file in s.files
    ensures file in b.tails && file in b.pending && file in b.lineNo && file in b.views
  {
    assert file in b.views.Keys;
  }

  lemma ReadCovers(s: Setting, b: Books, file: string, view: FileView)
    requires Covers(s, b) && file in s.files
    requires file in b.tails && file in b.pending && file in b.lineNo && file in b.views
    ensures Covers(s, ReadBooks(s, b, file, view))
  {
  }

  lemma {:induction false} ReadAllIsSound(s: Setting, b: Books, files: seq<string>, shown: seq<FileView>)
    requires Sound(s, b) && |files| == |shown| && forall f | f in files :: f in s.files
    ensures Covers(s, b) && Sound(s, ReadAllBooks(s, b, files, shown).0)
    ensures ReadAllBooks(s, b, files, shown).0.events == b.events + |ReadAllBooks(s, b, files, shown).1|
  {
    hide ReadBooks, EventsRead, Tallied, Follow;
    SoundCovers(s, b);
    if files != [] {
      var n := |files| - 1;
      ReadAllIsSound(s, b, files[..n], shown[..n]);
      var front := ReadAllBooks(s, b, files[..n], shown[..n]).0;
      CoveredFile(s, front, files[n]);
      ReadIsSound(s, front, files[n], shown[n]);
      ReadCounts(s, front, files[n], shown[n]);
    }
  }

  /** What one file shows in the course of a poll: as often as it is named. */
  function ShownBy(files: seq<string>, shown: seq<FileView>, file: string): seq<FileView>
    requires |files| == |shown|
  {
    if files == [] then []
    else
      var n := |files| - 1;
      ShownBy(files[..n], shown[..n], file) + if files[n] == file then [shown[n]] else []
  }

  /** Everything that the i-th file named has shown before its turn. */
  function ShownBefore(b: Books, files: seq<string>, shown: seq<FileView>, i: nat): seq<FileView>
    requires |files| == |shown| && i < |files| && files[i] in b.views
  {
    b.views[files[i]] + ShownBy(files[..i], shown[..i], files[i])
  }

  lemma {:induction false} ViewsAfterReading(
    s: Setting, b: Books, files: seq<string>, shown: seq<FileView>, file: string)
    requires Covers(s, b) && |files| == |shown| && (forall f | f in files :: f in s.files) && file in s.files
    ensures file in b.views && file in ReadAllBooks(s, b, files, shown).0.views
    ensures ReadAllBooks(s, b, files, shown).0.views[file] == b.views[file] + ShownBy(files, shown, file)
  {
    hide ReadBooks, EventsRead, Covers;
    CoveredFile(s, b, file);
    if files == [] {
      ConcatNothing(b.views[file]);
    } else {
      var n := |files| - 1;
      ViewsAfterReading(s, b, files[..n], shown[..n], file);
      var front := ReadAllBooks(s, b, files[..n], shown[..n]).0;
      CoveredFile(s, front, files[n]);
      OneViewMore(s, front, files[n], shown[n], file);
      var before := ShownBy(files[..n], shown[..n], file);
      ConcatAssociates(b.views[file], before, if files[n] == file then [shown[n]] else []);
      ConcatNothing(front.views[file]);
    }
  }

  lemma OneViewMore(s: Setting, b: Books, read: string, view: FileView, file: string)
    requires read in b.tails && read in b.pending && read in b.lineNo && read in b.views && file in b.views
    ensures file in ReadBooks(s, b, read, view).views
    ensures ReadBooks(s, b, read, view).views[file] == b.views[file] + if read == file then [view] else []
  {
    hide PollStep, ReadStep;
  }

  /** `part` is what one more look at the file, after those before it, yields. */
  ghost predicate ReadNext(s: Setting, file: string, before: seq<FileView>, view: FileView, part: seq<LogEvent>) {
    Alone(s, file, before + [view]).2.events == Alone(s, file, before).2.events + part
  }

  /** The batch of a poll is what its files yield, in the order in which they are named, each going
      on from where its own polls have left it. */
  lemma {:induction false} BatchFileByFile(s: Setting, b: Books, files: seq<string>, shown: seq<FileView>)
    returns (parts: seq<seq<LogEvent>>)
    requires Sound(s, b) && |files| == |shown| && forall f | f in files :: f in s.files
    ensures Covers(s, b) && |parts| == |files| && Pieces(ReadAllBooks(s, b, files, shown).1, parts)
    ensures forall i | 0 <= i < |files| ::
              files[i] in b.views && ReadNext(s, files[i], ShownBefore(b, files, shown, i), shown[i], parts[i])
  {
    hide ReadBooks, EventsRead, Tallied, Follow, Pieces, Covers, ReadNext, ShownBy;
    SoundCovers(s, b);
    parts := [];
    if files == [] {
      NoPieces<LogEvent>();
    } else {
      var n := |files| - 1;
      parts := BatchFileByFile(s, b, files[..n], shown[..n]);
      ReadAllIsSound(s, b, files[..n], shown[..n]);
      var (front, events) := ReadAllBooks(s, b, files[..n], shown[..n]);
      CoveredFile(s, front, files[n]);
      var last := EventsRead(s, front, files[n], shown[n]);
      ReadsOn(s, front, files[n], shown[n]);
      ViewsAfterReading(s, b, files[..n], shown[..n], files[n]);
      OnePieceMore(events, parts, last);
      forall i | 0 <= i < n
        ensures files[i] in b.views
        ensures ReadNext(s, files[i], ShownBefore(b, files, shown, i), shown[i], parts[i])
      {
        assert files[..n][i] == files[i] && shown[..n][i] == shown[i];
        assert files[..n][..i] == files[..i] && shown[..n][..i] == shown[..i];
      }
      parts := parts + [last];
    }
  }

  lemma ReadsOn(s: Setting, b: Books, file: string, view: FileView)
    requires Sound(s, b) && file in s.files
    requires file in b.tails && file in b.pending && file in b.lineNo && file in b.views
    ensures ReadNext(s, file, b.views[file], view, EventsRead(s, b, file, view))
  {
    hide ReadBooks, EventsRead, Alone, Sound;
    ReadIsSound(s, b, file, view);
  }

  lemma SoundCovers(s: Setting, b: Books)
    requires Sound(s, b)
    ensures Covers(s, b)
  {
  }

  lemma ReadCounts(s: Setting, b: Books, file: string, view: FileView)
    requires file in b.tails && file in b.pending && file in b.lineNo && file in b.views
    ensures ReadBooks(s, b, file, view).events == b.events + |EventsRead(s, b, file, view)|
  {
    hide PollStep, ReadStep;
  }

  // ---------------------------------------------------------------------------
  // Whole sessions
  // ---------------------------------------------------------------------------

  ghost predicate PollsOf(s: Setting, polls: seq<seq<FileView>>) {
    forall shown | shown in polls :: |shown| == |s.files|
  }

  /** A session over some polls: its books, and the batches it has read. */
  ghost function SessionRun(s: Setting, polls: seq<seq<FileView>>): (r: (Books, seq<seq<LogEvent>>))
    requires PollsOf(s, polls)
    ensures Sound(s, r.0) && Covers(s, r.0)
  {
    if polls == [] then
      OpenedIsSound(s);
      (Opened(s), [])
    else
      var n := |polls| - 1;
      assert polls[n] in polls;
      var (before, batches) := SessionRun(s, polls[..n]);
      ReadAllIsSound(s, before, s.files, polls[n]);
      SoundCovers(s, ReadAllBooks(s, before, s.files, polls[n]).0);
      var (books, batch) := ReadAllBooks(s, before, s.files, polls[n]);
      (books, batches + [batch])
  }

  function CountAll(batches: seq<seq<LogEvent>>): nat {
    if batches == [] then 0 else CountAll(batches[..|batches| - 1]) + |batches[|batches| - 1]|
  }

  /** At every poll boundary of every session, over all files together: the lines numbered so far
      are those that came back as events in some batch, those that failed, those still pending and
      those trimmed while their file had no known format. */
  lemma {:induction false} SessionConserves(s: Setting, polls: seq<seq<FileView>>)
    requires PollsOf(s, polls)
    ensures var (b, batches) := SessionRun(s, polls);
            && b.events == CountAll(batches)
            && (forall f | f in Distinct(s.files) :: f in b.views && f in b.pending && f in b.lineNo)
            && Total(Distinct(s.files), b.lineNo)
               == CountAll(batches) + b.failures + Total(Distinct(s.files), PendingCounts(b))
                   + Total(Distinct(s.files), TrimmedCounts(s, b.views))
            && forall f | f in b.pending :: |b.pending[f]| <= 100
                  && (f in b.parsers ==> b.pending[f] == [])
  {
    hide ReadAllBooks, Sound, Covers, Total, Distinct, PendingCounts, TrimmedCounts;
    var (b, batches) := SessionRun(s, polls);
    LinesAreConserved(s, b);
    if polls != [] {
      var n := |polls| - 1;
      assert polls[n] in polls;
      SessionConserves(s, polls[..n]);
      ReadAllIsSound(s, SessionRun(s, polls[..n]).0, s.files, polls[n]);
    }
  }
}
