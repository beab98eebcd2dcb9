/** What a whole watch session finds, from the bytes of its files to its findings. */
module WatchFindings {
  import opened Models
  import opened Sequences
  import opened Tailing
  import opened WatchBooks
  import opened Configuration
  import opened IncrementalRules
  import opened AnalysisModel
  import opened AnalysisStatement

  /** A poll that reads no events feeds nothing. */
  function NonEmpty(batches: seq<seq<LogEvent>>): seq<seq<LogEvent>> {
    if batches == [] then []
    else
      var front, last := NonEmpty(batches[..|batches| - 1]), batches[|batches| - 1];
      if last == [] then front else front + [last]
  }

  /** The batches that the polls of a session feed to the analyzer. */
  ghost function BatchesOf(s: Setting, polls: seq<seq<FileView>>): seq<seq<LogEvent>>
    requires PollsOf(s, polls)
  {
    NonEmpty(SessionRun(s, polls).1)
  }

  /** All findings of a session, in the order in which its polls return them. */
  ghost function SessionFindings(
    s: Setting, setup: Setup, ds: seq<DetectorConfig>, polls: seq<seq<FileView>>): seq<Finding>
    requires PollsOf(s, polls)
  {
    FedAll(setup, ds, BatchesOf(s, polls))
  }

  lemma {:induction false} NonEmptyBatches(batches: seq<seq<LogEvent>>)
    ensures [] !in NonEmpty(batches) && Flatten(NonEmpty(batches)) == Flatten(batches)
  {
    if batches != [] {
      var front, last := batches[..|batches| - 1], batches[|batches| - 1];
      NonEmptyBatches(front);
      var kept := NonEmpty(front);
      if last == [] {
        assert Flatten(front) + [] == Flatten(front);
      } else {
        assert (kept + [last])[..|kept|] == kept;
      }
    }
  }

  lemma OnePollMore(s: Setting, polls: seq<seq<FileView>>, shown: seq<FileView>)
    requires PollsOf(s, polls) && |shown| == |s.files|
    ensures PollsOf(s, polls + [shown])
    ensures var (books, batch) := ReadAllBooks(s, SessionRun(s, polls).0, s.files, shown);
            && SessionRun(s, polls + [shown]).0 == books
            && BatchesOf(s, polls + [shown])
               == if batch == [] then BatchesOf(s, polls) else BatchesOf(s, polls) + [batch]
  {
    hide ReadAllBooks, Sound;
    var more := polls + [shown];
    assert more[..|polls|] == polls;
    var batches := SessionRun(s, polls).1;
    var batch := ReadAllBooks(s, SessionRun(s, polls).0, s.files, shown).1;
    assert (batches + [batch])[..|batches|] == batches;
    assert NonEmpty(batches) + [] == NonEmpty(batches);
  }

  /** End to end: if a session has read the events of an analysis, in batches that never go back in
      time, its findings are, one for one, what the rules find in the analysis and the correlations
      it has emitted; and for each of these the analysis has one of the same rule and address. */
  lemma SessionFindsWhatTheEngineFinds(
    s: Setting, setup: Setup, polls: seq<seq<FileView>>,
    rules: seq<RuleConfig>, env: Environment, fmt: string, now: Instant, files: seq<string>) returns (n: nat)
    requires PollsOf(s, polls) && NeverBackInTime(BatchesOf(s, polls))
    requires setup.cfgs == CorrelationConfigs(rules) && setup.sources == RuleSourcesOf(DetectorConfigs(rules))
    requires Analyzed(rules, env, fmt, now, files).Ok?
    requires Sort(TimestampOf, Flatten(SessionRun(s, polls).1)) == Analyzed(rules, env, fmt, now, files).value.events
    ensures var r, ds := Analyzed(rules, env, fmt, now, files).value, DetectorConfigs(rules);
            var emitted := CorrelationRun(setup, FoundBatchwise(ds, BatchesOf(s, polls))).1;
            && n <= |r.findings| && FoundByRules(rules, r.events, r.findings[..n])
            && CorrelatedFrom(rules, r.findings[..n], r.findings[n..])
            && multiset(SessionFindings(s, setup, ds, polls)) == multiset(r.findings[..n]) + multiset(emitted)
            && forall c | c in emitted :: c.ip.Some? && Finds(r.findings[n..], c.ruleId, c.ip.value)
  {
    hide SessionRun, FedAll, FoundBatchwise, CorrelationRun, RulePass, Sort, NeverBackInTime, Flatten, Analyzed;
    hide FoundByRules, CorrelatedFrom, Finds, DetectorConfigs, CorrelationConfigs, RuleSourcesOf;
    var ds, batches := DetectorConfigs(rules), BatchesOf(s, polls);
    NonEmptyBatches(SessionRun(s, polls).1);
    FedIsFoundAndEmitted(setup, ds, batches);
    n := WatchFindsWhatAnalysisFinds(rules, env, fmt, now, files, setup, batches);
  }
}
