/** What feeding a stream batch by batch comes to, as values: the rules' findings and the findings
    of the pruned, de-duplicated correlation. */
module IncrementalRules {
  import opened Models
  import opened Sequences
  import opened DetectionRules
  import opened Correlation
  import opened Configuration

  // ---------------------------------------------------------------------------
  // Rules: streaming equals one pass
  // ---------------------------------------------------------------------------

  function Flatten<T>(parts: seq<seq<T>>): seq<T> {
    if parts == [] then [] else Flatten(parts[..|parts| - 1]) + parts[|parts| - 1]
  }

  /** The time-ordered events of one batch that a rule with this source receives. */
  function EventsFor(source: Option<LogSource>, batch: seq<LogEvent>): seq<LogEvent> {
    Filter(MatchesSource(source), Sort(TimestampOf, batch))
  }

  /** One rule fed batch after batch. */
  function StreamRun(d: DetectorConfig, batches: seq<seq<LogEvent>>): (RuleState, seq<Finding>) {
    if batches == [] then (FRESH, [])
    else
      var (st1, found) := StreamRun(d, batches[..|batches| - 1]);
      var (st2, more) := Run(d.rule, st1, EventsFor(d.source, batches[|batches| - 1]));
      (st2, found + more)
  }

  ghost predicate NeverBackInTime(batches: seq<seq<LogEvent>>) {
    forall i, j, e, f | 0 <= i < j < |batches| && e in batches[i] && f in batches[j] :: TimestampOf(e) <= TimestampOf(f)
  }

  lemma {:induction false} FlattenMembers<T>(parts: seq<seq<T>>)
    ensures forall x | x in Flatten(parts) :: exists i | 0 <= i < |parts| :: x in parts[i]
  {
    if parts != [] {
      FlattenMembers(parts[..|parts| - 1]);
      forall x | x in Flatten(parts)
        ensures exists i | 0 <= i < |parts| :: x in parts[i]
      {
        if x in Flatten(parts[..|parts| - 1]) {
          var i :| 0 <= i < |parts| - 1 && x in parts[..|parts| - 1][i];
          assert x in parts[i];
        } else {
          assert x in parts[|parts| - 1];
        }
      }
    }
  }

  /** Over any batching that never goes back in time, a rule ends in the same state and has found
      the same, in the same order, as in one pass over the stably sorted whole. */
  lemma {:induction false} StreamEqualsBatch(d: DetectorConfig, batches: seq<seq<LogEvent>>)
    requires NeverBackInTime(batches)
    ensures StreamRun(d, batches) == Run(d.rule, FRESH, EventsFor(d.source, Flatten(batches)))
  {
    hide Run, Filter, Sort;
    if batches == [] {
      NoEvents(d);
    } else {
      var front, last := batches[..|batches| - 1], batches[|batches| - 1];
      StreamEqualsBatch(d, front);
      FlattenMembers(front);
      forall e, f | e in Flatten(front) && f in last
        ensures TimestampOf(e) <= TimestampOf(f)
      {
        var i :| 0 <= i < |front| && e in front[i];
        assert e in batches[i] && f in batches[|batches| - 1];
      }
      SortAppend(TimestampOf, Flatten(front), last);
      FilterAppend(MatchesSource(d.source), Sort(TimestampOf, Flatten(front)), Sort(TimestampOf, last));
      RunAppend(d.rule, FRESH, EventsFor(d.source, Flatten(front)), EventsFor(d.source, last));
    }
  }

  lemma NoEvents(d: DetectorConfig)
    ensures EventsFor(d.source, []) == [] && Run(d.rule, FRESH, []) == (FRESH, [])
  {
  }

  /** Sorting after selecting a source is selecting after sorting. */
  lemma SourceSelectionCommutes(source: Option<LogSource>, batch: seq<LogEvent>)
    ensures EventsFor(source, batch) == Sort(TimestampOf, Filter(MatchesSource(source), batch))
  {
    FilterSort(TimestampOf, MatchesSource(source), batch);
  }

  /** All rules on one more batch, in configuration order. */
  function NewFindings(ds: seq<DetectorConfig>, batches: seq<seq<LogEvent>>, batch: seq<LogEvent>): seq<Finding> {
    if ds == [] then []
    else
      var d := ds[|ds| - 1];
      NewFindings(ds[..|ds| - 1], batches, batch) + Run(d.rule, StreamRun(d, batches).0, EventsFor(d.source, batch)).1
  }

  /** What the rules found in each batch, having been fed those before it. */
  function FoundBatchwise(ds: seq<DetectorConfig>, batches: seq<seq<LogEvent>>): seq<seq<Finding>> {
    if batches == [] then []
    else
      var front, last := batches[..|batches| - 1], batches[|batches| - 1];
      FoundBatchwise(ds, front) + [NewFindings(ds, front, last)]
  }

  // ---------------------------------------------------------------------------
  // Correlation over a pruned buffer
  // ---------------------------------------------------------------------------

  type Key = (Option<string>, set<string>)

  function KeyOf(f: Finding): Key {
    (f.ip, f.correlatedRuleIds)
  }

  datatype CorrelationSetup = CorrelationSetup(window: int, cfgs: seq<Config>, sources: RuleSources)

  predicate ValidSetup(setup: CorrelationSetup) {
    setup.window > 0
  }

  type Setup = setup: CorrelationSetup | ValidSetup(setup) witness CorrelationSetup(1, [], map[])

  datatype CorrelationState = CorrelationState(recent: seq<Finding>, seen: set<Key>)

  const NOTHING_SEEN := CorrelationState([], {})

  function LastSeenFrom(cutoff: Instant): Finding -> bool {
    (f: Finding) => f.lastSeen >= cutoff
  }

  /** The findings within the correlation window of the newest one. */
  function Cut(window: int, fs: seq<Finding>): seq<Finding> {
    if fs == [] then [] else Filter(LastSeenFrom(MaxLast(fs) - Seconds(window)), fs)
  }

  /** The findings whose key is new, and all keys then known. */
  function Unseen(seen: set<Key>, correlated: seq<Finding>): (set<Key>, seq<Finding>) {
    if correlated == [] then (seen, [])
    else
      var (keys, unseen) := Unseen(seen, correlated[..|correlated| - 1]);
      var last := correlated[|correlated| - 1];
      if KeyOf(last) in keys then (keys, unseen) else (keys + {KeyOf(last)}, unseen + [last])
  }

  function CorrelateStep(setup: Setup, st: CorrelationState, found: seq<Finding>): (CorrelationState, seq<Finding>) {
    if setup.cfgs == [] || found == [] then (st, [])
    else
      var recent := Cut(setup.window, st.recent + found);
      var (seen, unseen) := Unseen(st.seen, Correlated(setup.cfgs, setup.sources, recent));
      (CorrelationState(recent, seen), unseen)
  }

  function CorrelationRun(setup: Setup, feeds: seq<seq<Finding>>): (CorrelationState, seq<Finding>) {
    if feeds == [] then (NOTHING_SEEN, [])
    else
      var (st1, emitted) := CorrelationRun(setup, feeds[..|feeds| - 1]);
      var (st2, more) := CorrelateStep(setup, st1, feeds[|feeds| - 1]);
      (st2, emitted + more)
  }

  /** What feeding one more batch returns: the rules' findings, then the correlations not yet seen. */
  function Fed(setup: Setup, ds: seq<DetectorConfig>, batches: seq<seq<LogEvent>>, batch: seq<LogEvent>): seq<Finding> {
    if batch == [] then []
    else
      var found := NewFindings(ds, batches, batch);
      found + CorrelateStep(setup, CorrelationRun(setup, FoundBatchwise(ds, batches)).0, found).1
  }

  /** Everything returned while being fed batch after batch. */
  function FedAll(setup: Setup, ds: seq<DetectorConfig>, batches: seq<seq<LogEvent>>): seq<Finding> {
    if batches == [] then []
    else
      var front, last := batches[..|batches| - 1], batches[|batches| - 1];
      FedAll(setup, ds, front) + Fed(setup, ds, front, last)
  }

  /** It is all that the rules found and all that the correlation emitted, nothing else. */
  lemma {:induction false} FedIsFoundAndEmitted(setup: Setup, ds: seq<DetectorConfig>, batches: seq<seq<LogEvent>>)
    requires [] !in batches
    ensures multiset(FedAll(setup, ds, batches))
         == multiset(Flatten(FoundBatchwise(ds, batches)))
             + multiset(CorrelationRun(setup, FoundBatchwise(ds, batches)).1)
  {
    if batches != [] {
      hide NewFindings, CorrelateStep, CorrelationRun, FoundBatchwise, Flatten, FedAll;
      var front, last := batches[..|batches| - 1], batches[|batches| - 1];
      assert batches == front + [last] && last in batches;
      FedIsFoundAndEmitted(setup, ds, front);
      FoundOneMore(ds, front, last);
      var feeds, found := FoundBatchwise(ds, front), NewFindings(ds, front, last);
      EmittedOneMore(setup, feeds, found);
      FedOneMore(setup, ds, front, last);
      BagsAdd(FedAll(setup, ds, front), Flatten(feeds), CorrelationRun(setup, feeds).1,
              found, CorrelateStep(setup, CorrelationRun(setup, feeds).0, found).1);
    } else {
      assert FoundBatchwise(ds, []) == [] && CorrelationRun(setup, []).1 == [];
    }
  }

  lemma FedOneMore(setup: Setup, ds: seq<DetectorConfig>, front: seq<seq<LogEvent>>, last: seq<LogEvent>)
    ensures FedAll(setup, ds, front + [last]) == FedAll(setup, ds, front) + Fed(setup, ds, front, last)
  {
    hide Fed;
    assert (front + [last])[..|front|] == front;
  }

  lemma BagsAdd(all: seq<Finding>, a: seq<Finding>, b: seq<Finding>, x: seq<Finding>, y: seq<Finding>)
    requires multiset(all) == multiset(a) + multiset(b)
    ensures multiset(all + (x + y)) == multiset(a + x) + multiset(b + y)
  {
  }

  lemma FoundOneMore(ds: seq<DetectorConfig>, front: seq<seq<LogEvent>>, last: seq<LogEvent>)
    ensures FoundBatchwise(ds, front + [last]) == FoundBatchwise(ds, front) + [NewFindings(ds, front, last)]
    ensures Flatten(FoundBatchwise(ds, front + [last]))
            == Flatten(FoundBatchwise(ds, front)) + NewFindings(ds, front, last)
  {
    hide NewFindings;
    assert (front + [last])[..|front|] == front;
    var feeds := FoundBatchwise(ds, front);
    assert (feeds + [NewFindings(ds, front, last)])[..|feeds|] == feeds;
  }

  lemma EmittedOneMore(setup: Setup, feeds: seq<seq<Finding>>, found: seq<Finding>)
    ensures CorrelationRun(setup, feeds + [found]).0 == CorrelateStep(setup, CorrelationRun(setup, feeds).0, found).0
    ensures CorrelationRun(setup, feeds + [found]).1
         == CorrelationRun(setup, feeds).1 + CorrelateStep(setup, CorrelationRun(setup, feeds).0, found).1
  {
    hide CorrelateStep;
    assert (feeds + [found])[..|feeds|] == feeds;
  }

  lemma {:induction false} MaxLastAppend(fs: seq<Finding>, gs: seq<Finding>)
    requires fs != [] && gs != []
    ensures MaxLast(fs + gs) == if MaxLast(fs) < MaxLast(gs) then MaxLast(gs) else MaxLast(fs)
  {
    assert forall f :: f in fs + gs <==> f in fs || f in gs;
  }

  /** The newest finding is always within its own window. */
  lemma CutKeepsNewest(window: int, fs: seq<Finding>)
    requires window > 0 && fs != []
    ensures Cut(window, fs) != [] && MaxLast(Cut(window, fs)) == MaxLast(fs)
    ensures forall f | f in Cut(window, fs) :: f in fs
  {
    hide Filter;
    FilterMembers(LastSeenFrom(MaxLast(fs) - Seconds(window)), fs);
    var f :| f in fs && f.lastSeen == MaxLast(fs);
    assert f in Cut(window, fs);
  }

  lemma NewestOfCut(window: int, fs: seq<Finding>, gs: seq<Finding>)
    requires window > 0 && fs != [] && gs != []
    ensures Cut(window, fs) != [] && MaxLast(fs) <= MaxLast(fs + gs) == MaxLast(Cut(window, fs) + gs)
  {
    hide MaxLast, Cut;
    CutKeepsNewest(window, fs);
    MaxLastAppend(Cut(window, fs), gs);
    MaxLastAppend(fs, gs);
  }

  /** Pruning before every step loses nothing that a later window could still contain. */
  lemma CutOfCut(window: int, fs: seq<Finding>, gs: seq<Finding>)
    requires window > 0 && fs != [] && gs != []
    ensures Cut(window, Cut(window, fs) + gs) == Cut(window, fs + gs)
  {
    hide Filter, MaxLast, Seconds;
    NewestOfCut(window, fs, gs);
    var kept := Cut(window, fs);
    LaterCut(MaxLast(fs) - Seconds(window), MaxLast(fs + gs) - Seconds(window), fs, gs);
  }

  lemma LaterCut(early: Instant, late: Instant, fs: seq<Finding>, gs: seq<Finding>)
    requires early <= late
    ensures Filter(LastSeenFrom(late), Filter(LastSeenFrom(early), fs) + gs) == Filter(LastSeenFrom(late), fs + gs)
  {
    hide Filter;
    FilterCompose(LastSeenFrom(early), LastSeenFrom(late), LastSeenFrom(late), fs);
    FilterAppend(LastSeenFrom(late), Filter(LastSeenFrom(early), fs), gs);
    FilterAppend(LastSeenFrom(late), fs, gs);
  }

  /** After any run the retained buffer is exactly the window of the newest finding, cut from
      everything ever fed: it never holds more, and it has lost nothing that window contains. */
  lemma {:induction false} BufferIsWindow(setup: Setup, feeds: seq<seq<Finding>>)
    requires setup.cfgs != []
    ensures CorrelationRun(setup, feeds).0.recent == Cut(setup.window, Flatten(feeds))
  {
    hide Cut, Unseen;
    if feeds == [] {
      EmptyCut(setup.window);
    } else {
      var front, last := feeds[..|feeds| - 1], feeds[|feeds| - 1];
      BufferIsWindow(setup, front);
      if last == [] {
        assert Flatten(feeds) == Flatten(front);
      } else if Flatten(front) == [] {
        EmptyCut(setup.window);
        assert Flatten(feeds) == last && [] + last == last;
      } else {
        CutOfCut(setup.window, Flatten(front), last);
      }
    }
  }

  lemma EmptyCut(window: int)
    ensures Cut(window, []) == []
  {
  }

  /** The newest retained finding never gets older, and everything retained is within the window
      of it. */
  lemma NewestNeverFalls(setup: Setup, feeds: seq<seq<Finding>>, more: seq<Finding>)
    requires setup.cfgs != [] && Flatten(feeds) != []
    ensures var before, after := CorrelationRun(setup, feeds).0.recent, CorrelationRun(setup, feeds + [more]).0.recent;
            && before != [] && after != [] && MaxLast(before) <= MaxLast(after)
            && forall f | f in after :: MaxLast(after) - Seconds(setup.window) <= f.lastSeen <= MaxLast(after)
  {
    hide CorrelationRun, Filter, MaxLast;
    assert (feeds + [more])[..|feeds|] == feeds;
    assert Flatten(feeds + [more]) == Flatten(feeds) + more;
    BufferIsWindow(setup, feeds);
    BufferIsWindow(setup, feeds + [more]);
    CutKeepsNewest(setup.window, Flatten(feeds));
    CutKeepsNewest(setup.window, Flatten(feeds) + more);
    if more == [] {
      assert Flatten(feeds) + more == Flatten(feeds);
    } else {
      MaxLastAppend(Flatten(feeds), more);
    }
    var after := Cut(setup.window, Flatten(feeds) + more);
    FilterMembers(LastSeenFrom(MaxLast(Flatten(feeds) + more) - Seconds(setup.window)), Flatten(feeds) + more);
    BoundedByMax(after);
  }

  lemma BoundedByMax(fs: seq<Finding>)
    requires fs != []
    ensures forall f | f in fs :: f.lastSeen <= MaxLast(fs)
  {
  }

  // Soundness against batch ------------------------------------------------------

  /** Some configuration that would report `c`'s address reports it over all of `fs`. */
  ghost predicate BatchReports(setup: Setup, fs: seq<Finding>, c: Finding) {
    exists cfg | cfg in setup.cfgs ::
        cfg.id == c.ruleId && c.ip.Some? && ReportsIp(CorrelatedBy(cfg, setup.sources, fs), c.ip.value)
  }

  lemma MoreFindingsKeepReports(cfg: Config, sources: RuleSources, few: seq<Finding>, many: seq<Finding>, ip: string)
    requires forall f | f in few :: f in many
    requires ReportsIp(CorrelatedBy(cfg, sources, few), ip)
    ensures ReportsIp(CorrelatedBy(cfg, sources, many), ip)
  {
    hide CorrelatedBy, Filter;
    CorrelationIsExact(cfg, sources, few);
    CorrelationIsExact(cfg, sources, many);
    FilterMembers(HasIp(ip), few);
    FilterMembers(HasIp(ip), many);
    var sub :| Qualifies(cfg, sources, Filter(HasIp(ip), few), sub);
    assert Qualifies(cfg, sources, Filter(HasIp(ip), many), sub);
  }

  lemma MoreFindingsKeepBatchReports(setup: Setup, few: seq<Finding>, many: seq<Finding>, c: Finding)
    requires forall f | f in few :: f in many
    requires BatchReports(setup, few, c)
    ensures BatchReports(setup, many, c)
  {
    hide CorrelatedBy;
    var cfg :| cfg in setup.cfgs && cfg.id == c.ruleId && c.ip.Some?
        && ReportsIp(CorrelatedBy(cfg, setup.sources, few), c.ip.value);
    MoreFindingsKeepReports(cfg, setup.sources, few, many, c.ip.value);
  }

  lemma {:induction false} CorrelatedIsReported(setup: Setup, cfgs: seq<Config>, fs: seq<Finding>)
    requires forall cfg | cfg in cfgs :: cfg in setup.cfgs
    ensures forall c | c in Correlated(cfgs, setup.sources, fs) :: BatchReports(setup, fs, c)
  {
    if cfgs != [] {
      var front, last := cfgs[..|cfgs| - 1], cfgs[|cfgs| - 1];
      CorrelatedIsReported(setup, front, fs);
      hide CorrelatedBy;
      CorrelationIsExact(last, setup.sources, fs);
      forall c | c in CorrelatedBy(last, setup.sources, fs)
        ensures BatchReports(setup, fs, c)
      {
        assert ReportFor(last, setup.sources, fs, c.ip.value) == Some(c);
        assert ReportsIp(CorrelatedBy(last, setup.sources, fs), c.ip.value);
        assert last in cfgs;
      }
    }
  }

  lemma {:induction false} UnseenExact(seen: set<Key>, correlated: seq<Finding>)
    ensures var (keys, unseen) := Unseen(seen, correlated);
            && (forall c | c in unseen :: c in correlated && KeyOf(c) !in seen)
            && (forall k :: k in keys <==> k in seen || exists c :: c in correlated && KeyOf(c) == k)
            && (forall k :: k in keys <==> k in seen || exists c :: c in unseen && KeyOf(c) == k)
            && (forall i, j | 0 <= i < j < |unseen| :: KeyOf(unseen[i]) != KeyOf(unseen[j]))
  {
    if correlated != [] {
      var front, last := correlated[..|correlated| - 1], correlated[|correlated| - 1];
      assert correlated == front + [last];
      UnseenExact(seen, front);
      var (keys, unseen) := Unseen(seen, front);
      assert forall i | 0 <= i < |unseen| :: unseen[i] in unseen;
      forall k
        ensures k in Unseen(seen, correlated).0 <==> k in seen || exists c :: c in correlated && KeyOf(c) == k
      {
        assert k in keys <==> k in seen || exists c :: c in front && KeyOf(c) == k;
        assert last in correlated;
      }
      forall k
        ensures k in Unseen(seen, correlated).0
                <==> k in seen || exists c :: c in Unseen(seen, correlated).1 && KeyOf(c) == k
      {
        assert k in keys <==> k in seen || exists c :: c in unseen && KeyOf(c) == k;
        assert KeyOf(last) !in keys ==> last in unseen + [last];
      }
    }
  }

  /** Whatever the incremental correlation ever emits, one batch correlation over all findings fed
      so far reports too: same configuration, same address. */
  lemma {:induction false} EmissionsAreSound(setup: Setup, feeds: seq<seq<Finding>>)
    ensures forall c | c in CorrelationRun(setup, feeds).1 :: BatchReports(setup, Flatten(feeds), c)
  {
    hide Cut, Unseen, Correlated, BatchReports;
    if feeds != [] && setup.cfgs != [] {
      var front, last := feeds[..|feeds| - 1], feeds[|feeds| - 1];
      EmissionsAreSound(setup, front);
      forall c | c in CorrelationRun(setup, front).1
        ensures BatchReports(setup, Flatten(feeds), c)
      {
        MoreFindingsKeepBatchReports(setup, Flatten(front), Flatten(feeds), c);
      }
      if last != [] {
        StepIsSound(setup, front, last);
      }
    } else {
      NoEmissions(setup, feeds);
    }
  }

  lemma {:induction false} NoEmissions(setup: Setup, feeds: seq<seq<Finding>>)
    requires feeds == [] || setup.cfgs == []
    ensures CorrelationRun(setup, feeds).1 == []
  {
    if feeds != [] {
      NoEmissions(setup, feeds[..|feeds| - 1]);
    }
  }

  lemma StepIsSound(setup: Setup, front: seq<seq<Finding>>, last: seq<Finding>)
    requires setup.cfgs != [] && last != []
    ensures forall c | c in CorrelateStep(setup, CorrelationRun(setup, front).0, last).1 ::
              BatchReports(setup, Flatten(front) + last, c)
  {
    hide Unseen, Correlated, BatchReports, CorrelationRun, Filter, MaxLast;
    var st := CorrelationRun(setup, front).0;
    assert (front + [last])[..|front|] == front;
    assert Flatten(front + [last]) == Flatten(front) + last;
    BufferIsWindow(setup, front);
    var recent := Cut(setup.window, st.recent + last);
    CutKeepsNewest(setup.window, st.recent + last);
    if Flatten(front) != [] {
      CutKeepsNewest(setup.window, Flatten(front));
    }
    CorrelatedIsReported(setup, setup.cfgs, recent);
    UnseenExact(st.seen, Correlated(setup.cfgs, setup.sources, recent));
    forall c | c in CorrelateStep(setup, st, last).1
      ensures BatchReports(setup, Flatten(front) + last, c)
    {
      MoreFindingsKeepBatchReports(setup, recent, Flatten(front) + last, c);
    }
  }

  ghost predicate DistinctKeys(found: seq<Finding>) {
    forall i, j | 0 <= i < j < |found| ::
      found[i].ip != found[j].ip || found[i].correlatedRuleIds != found[j].correlatedRuleIds
  }

  ghost predicate KeysAre(keys: set<Key>, found: seq<Finding>) {
    forall ip, ids :: (ip, ids) in keys <==> exists c :: c in found && c.ip == ip && c.correlatedRuleIds == ids
  }

  /** Each pair of address and rule ids is emitted at most once over a whole run, and the remembered
      keys are exactly those emitted. */
  lemma {:induction false} EmittedOnce(setup: Setup, feeds: seq<seq<Finding>>)
    ensures DistinctKeys(CorrelationRun(setup, feeds).1)
    ensures KeysAre(CorrelationRun(setup, feeds).0.seen, CorrelationRun(setup, feeds).1)
  {
    if feeds != [] {
      var front, last := feeds[..|feeds| - 1], feeds[|feeds| - 1];
      EmittedOnce(setup, front);
      hide Unseen, Correlated, Cut, DistinctKeys, KeysAre;
      var (st, emitted) := CorrelationRun(setup, front);
      if setup.cfgs != [] && last != [] {
        var correlated := Correlated(setup.cfgs, setup.sources, Cut(setup.window, st.recent + last));
        AppendEmissions(st.seen, emitted, correlated);
      } else {
        assert emitted + [] == emitted;
      }
    }
  }

  lemma AppendEmissions(seen: set<Key>, emitted: seq<Finding>, correlated: seq<Finding>)
    requires DistinctKeys(emitted) && KeysAre(seen, emitted)
    ensures DistinctKeys(emitted + Unseen(seen, correlated).1)
    ensures KeysAre(Unseen(seen, correlated).0, emitted + Unseen(seen, correlated).1)
  {
    hide Unseen;
    UnseenExact(seen, correlated);
    var (keys, unseen) := Unseen(seen, correlated);
    assert forall i | 0 <= i < |emitted| :: emitted[i] in emitted && KeyOf(emitted[i]) in seen;
    assert forall j | 0 <= j < |unseen| :: unseen[j] in unseen && KeyOf(unseen[j]) !in seen;
    forall ip, ids
      ensures (ip, ids) in keys <==> exists c :: c in emitted + unseen && c.ip == ip && c.correlatedRuleIds == ids
    {
      var k := (ip, ids);
      assert k in keys <==> k in seen || exists c :: c in unseen && KeyOf(c) == k;
      if k in seen {
        var c :| c in emitted && c.ip == ip && c.correlatedRuleIds == ids;
        assert c in emitted + unseen;
      } else if k in keys {
        var c :| c in unseen && KeyOf(c) == k;
        assert c in emitted + unseen;
      }
      if c :| c in emitted + unseen && c.ip == ip && c.correlatedRuleIds == ids {
        assert KeyOf(c) == k;
        assert c in emitted || c in unseen;
      }
    }
  }

  // Completeness against batch ---------------------------------------------------

  /** What a correlation over the window of the newest finding reports once `n` feeds are in. */
  function WindowReports(setup: Setup, feeds: seq<seq<Finding>>, n: nat): seq<Finding>
    requires n <= |feeds|
  {
    Correlated(setup.cfgs, setup.sources, Cut(setup.window, Flatten(feeds[..n])))
  }

  ghost predicate HasKey(found: seq<Finding>, k: Key) {
    exists c :: c in found && KeyOf(c) == k
  }

  ghost predicate ReportedInTime(setup: Setup, feeds: seq<seq<Finding>>, k: Key) {
    exists n: nat | n <= |feeds| :: HasKey(WindowReports(setup, feeds, n), k)
  }

  lemma {:induction false} NothingCorrelates(cfgs: seq<Config>, sources: RuleSources)
    ensures Correlated(cfgs, sources, []) == []
  {
    if cfgs != [] {
      NothingCorrelates(cfgs[..|cfgs| - 1], sources);
      var cfg := cfgs[|cfgs| - 1];
      assert Ips([]) == [];
      assert CorrelatedBy(cfg, sources, []) == Reports(cfg, sources, [], []);
    }
  }

  lemma ReportedOneFeedMore(setup: Setup, front: seq<seq<Finding>>, last: seq<Finding>, k: Key)
    ensures ReportedInTime(setup, front + [last], k)
        <==> ReportedInTime(setup, front, k) || HasKey(WindowReports(setup, front + [last], |front| + 1), k)
  {
    hide WindowReports, HasKey;
    var feeds := front + [last];
    forall n: nat | n <= |front|
      ensures WindowReports(setup, feeds, n) == WindowReports(setup, front, n)
    {
      EarlierReports(setup, front, last, n);
    }
    if n: nat :| n <= |front| && HasKey(WindowReports(setup, front, n), k) {
      assert HasKey(WindowReports(setup, feeds, n), k);
    }
    if n: nat :| n <= |feeds| && HasKey(WindowReports(setup, feeds, n), k) {
      assert n <= |front| ==> HasKey(WindowReports(setup, front, n), k);
    }
  }

  lemma EarlierReports(setup: Setup, front: seq<seq<Finding>>, last: seq<Finding>, n: nat)
    requires n <= |front|
    ensures WindowReports(setup, front + [last], n) == WindowReports(setup, front, n)
  {
    assert (front + [last])[..n] == front[..n];
  }

  lemma KeysOfStep(setup: Setup, front: seq<seq<Finding>>, last: seq<Finding>, k: Key)
    requires setup.cfgs != []
    ensures k in CorrelationRun(setup, front + [last]).0.seen
        <==> k in CorrelationRun(setup, front).0.seen
             || (last != [] && HasKey(WindowReports(setup, front + [last], |front| + 1), k))
  {
    hide Cut, Unseen, Correlated;
    var feeds := front + [last];
    assert feeds[..|front|] == front && feeds[..|front| + 1] == feeds;
    if last != [] {
      BufferIsWindow(setup, feeds);
      var st := CorrelationRun(setup, front).0;
      UnseenExact(st.seen, Correlated(setup.cfgs, setup.sources, Cut(setup.window, st.recent + last)));
    }
  }

  /** Exactly what is emitted over a run: the keys that a correlation over the window of the newest
      finding reports at the end of some feed. */
  lemma {:induction false} SeenExactly(setup: Setup, feeds: seq<seq<Finding>>, k: Key)
    requires setup.cfgs != []
    ensures k in CorrelationRun(setup, feeds).0.seen <==> ReportedInTime(setup, feeds, k)
  {
    hide WindowReports, CorrelationRun;
    if feeds == [] {
      NothingEmittedYet(setup);
      NoReportYet(setup, k);
    } else {
      var front, last := feeds[..|feeds| - 1], feeds[|feeds| - 1];
      assert feeds == front + [last];
      SeenExactly(setup, front, k);
      KeysOfStep(setup, front, last, k);
      ReportedOneFeedMore(setup, front, last, k);
      if last == [] {
        EmptyFeedReports(setup, front, k);
      }
    }
  }

  lemma NothingEmittedYet(setup: Setup)
    ensures CorrelationRun(setup, []) == (NOTHING_SEEN, [])
  {
  }

  lemma NoReportYet(setup: Setup, k: Key)
    ensures !ReportedInTime(setup, [], k)
  {
    hide Correlated;
    NothingCorrelates(setup.cfgs, setup.sources);
    EmptyCut(setup.window);
    var feeds: seq<seq<Finding>> := [];
    assert feeds[..0] == [];
  }

  lemma EmptyFeedReports(setup: Setup, front: seq<seq<Finding>>, k: Key)
    ensures HasKey(WindowReports(setup, front + [[]], |front| + 1), k) ==> ReportedInTime(setup, front, k)
  {
    hide Correlated, Cut, HasKey;
    var feeds := front + [[]];
    assert feeds[..|front| + 1] == feeds && feeds[..|front|] == front && front[..|front|] == front;
    assert Flatten(feeds) == Flatten(front);
    assert WindowReports(setup, feeds, |front| + 1) == WindowReports(setup, front, |front|);
  }

  /** Some key of this address has been emitted. */
  ghost predicate Emitted(setup: Setup, feeds: seq<seq<Finding>>, ip: string) {
    ReportsIp(CorrelationRun(setup, feeds).1, ip)
  }

  /** Once `n` feeds are in, findings of the address that qualify are all in the window. */
  ghost predicate QualifiesAt(setup: Setup, feeds: seq<seq<Finding>>, n: nat, cfg: Config, ip: string)
    requires n <= |feeds|
  {
    Correlatable(cfg, setup.sources, Filter(HasIp(ip), Cut(setup.window, Flatten(feeds[..n]))))
  }

  ghost predicate QualifiesInTime(setup: Setup, feeds: seq<seq<Finding>>, ip: string) {
    exists n: nat, cfg | n <= |feeds| && cfg in setup.cfgs :: QualifiesAt(setup, feeds, n, cfg, ip)
  }

  /** Exactly which addresses a run emits: those some of whose findings qualify and, at the end of
      some feed, are all no older than the window before the newest finding fed so far. A batch
      correlation asks for the first half alone. */
  lemma EmittedIffQualifiesInTime(setup: Setup, feeds: seq<seq<Finding>>, ip: string)
    requires setup.cfgs != []
    ensures Emitted(setup, feeds, ip) <==> QualifiesInTime(setup, feeds, ip)
  {
    hide CorrelationRun, ReportedInTime, WindowReports, QualifiesAt;
    EmittedOnce(setup, feeds);
    if Emitted(setup, feeds, ip) {
      var c :| c in CorrelationRun(setup, feeds).1 && c.ip == Some(ip);
      SeenExactly(setup, feeds, KeyOf(c));
      InTimeQualifies(setup, feeds, KeyOf(c), ip);
    }
    if n: nat, cfg :| n <= |feeds| && cfg in setup.cfgs && QualifiesAt(setup, feeds, n, cfg, ip) {
      var c := QualifyingIsReported(setup, feeds, n, cfg, ip);
      SeenExactly(setup, feeds, KeyOf(c));
      var e :| e in CorrelationRun(setup, feeds).1 && KeyOf(e) == KeyOf(c);
    }
  }

  lemma InTimeQualifies(setup: Setup, feeds: seq<seq<Finding>>, k: Key, ip: string)
    requires ReportedInTime(setup, feeds, k) && k.0 == Some(ip)
    ensures QualifiesInTime(setup, feeds, ip)
  {
    hide Correlatable, Filter, Cut, Correlated, CorrelatedBy;
    var n: nat :| n <= |feeds| && HasKey(WindowReports(setup, feeds, n), k);
    var recent := Cut(setup.window, Flatten(feeds[..n]));
    var c :| c in WindowReports(setup, feeds, n) && KeyOf(c) == k;
    CorrelatedIsReported(setup, setup.cfgs, recent);
    var cfg :| cfg in setup.cfgs && ReportsIp(CorrelatedBy(cfg, setup.sources, recent), ip);
    CorrelationIsExact(cfg, setup.sources, recent);
    assert QualifiesAt(setup, feeds, n, cfg, ip);
  }

  lemma {:induction false} ReportedByAll(
    cfgs: seq<Config>, sources: RuleSources, fs: seq<Finding>, cfg: Config, c: Finding)
    requires cfg in cfgs && c in CorrelatedBy(cfg, sources, fs)
    ensures c in Correlated(cfgs, sources, fs)
  {
    hide CorrelatedBy;
    if cfg in cfgs[..|cfgs| - 1] {
      ReportedByAll(cfgs[..|cfgs| - 1], sources, fs, cfg, c);
    }
  }

  lemma QualifyingIsReported(
    setup: Setup, feeds: seq<seq<Finding>>, n: nat, cfg: Config, ip: string) returns (c: Finding)
    requires n <= |feeds| && cfg in setup.cfgs && QualifiesAt(setup, feeds, n, cfg, ip)
    ensures c.ip == Some(ip) && ReportedInTime(setup, feeds, KeyOf(c))
  {
    hide Correlatable, Filter, Cut, Correlated, CorrelatedBy;
    var recent := Cut(setup.window, Flatten(feeds[..n]));
    CorrelationIsExact(cfg, setup.sources, recent);
    c :| c in CorrelatedBy(cfg, setup.sources, recent) && c.ip == Some(ip);
    ReportedByAll(setup.cfgs, setup.sources, recent, cfg, c);
    assert HasKey(WindowReports(setup, feeds, n), KeyOf(c));
  }

  /** Where nothing is pruned nothing is missed: while all findings end within one window, every
      report of a batch correlation over them has been emitted, under its own key. */
  lemma NothingPrunedNothingMissed(setup: Setup, feeds: seq<seq<Finding>>)
    requires setup.cfgs != []
    requires forall f, g | f in Flatten(feeds) && g in Flatten(feeds) ::
              g.lastSeen - f.lastSeen <= Seconds(setup.window)
    ensures forall c | c in Correlated(setup.cfgs, setup.sources, Flatten(feeds)) ::
              KeyOf(c) in CorrelationRun(setup, feeds).0.seen
  {
    hide CorrelationRun, Correlated, ReportedInTime, WindowReports, HasKey, Flatten;
    NothingPruned(setup, feeds);
    forall c | c in Correlated(setup.cfgs, setup.sources, Flatten(feeds))
      ensures KeyOf(c) in CorrelationRun(setup, feeds).0.seen
    {
      KeyIsThere(WindowReports(setup, feeds, |feeds|), c);
      ReportedAtEnd(setup, feeds, KeyOf(c));
      SeenExactly(setup, feeds, KeyOf(c));
    }
  }

  lemma KeyIsThere(found: seq<Finding>, c: Finding)
    requires c in found
    ensures HasKey(found, KeyOf(c))
  {
  }

  lemma NothingPruned(setup: Setup, feeds: seq<seq<Finding>>)
    requires forall f, g | f in Flatten(feeds) && g in Flatten(feeds) ::
              g.lastSeen - f.lastSeen <= Seconds(setup.window)
    ensures WindowReports(setup, feeds, |feeds|) == Correlated(setup.cfgs, setup.sources, Flatten(feeds))
  {
    hide Correlated, Filter, MaxLast, Flatten, Seconds;
    assert feeds[..|feeds|] == feeds;
    var all := Flatten(feeds);
    if all != [] {
      AllNearNewest(Seconds(setup.window), all);
      FilterAll(LastSeenFrom(MaxLast(all) - Seconds(setup.window)), all);
    }
  }

  lemma AllNearNewest(span: int, fs: seq<Finding>)
    requires fs != [] && forall f, g | f in fs && g in fs :: g.lastSeen - f.lastSeen <= span
    ensures forall f | f in fs :: f.lastSeen >= MaxLast(fs) - span
  {
  }

  lemma ReportedAtEnd(setup: Setup, feeds: seq<seq<Finding>>, k: Key)
    requires HasKey(WindowReports(setup, feeds, |feeds|), k)
    ensures ReportedInTime(setup, feeds, k)
  {
  }

  /** So a batch correlation can report what is never emitted. One way: a single feed brings a
      finding of another address that is newer by more than the window. */
  lemma PruningCanDropAGroup(setup: Setup, a: Finding, b: Finding, c: Finding, ip: string)
    requires |setup.cfgs| == 1 && setup.cfgs[0].minDistinctRules <= 2
    requires setup.cfgs[0].windowSeconds == setup.window
    requires a.ip == Some(ip) && b.ip == Some(ip) && c.ip.Some? && c.ip != Some(ip)
    requires a.firstSeen == b.firstSeen && a.ruleId != b.ruleId
    requires SourceOf(setup.sources, a.ruleId) == Some(Web) && SourceOf(setup.sources, b.ruleId) == Some(Auth)
    requires a.lastSeen < c.lastSeen - Seconds(setup.window) && b.lastSeen < c.lastSeen - Seconds(setup.window)
    ensures ReportsIp(CorrelatedBy(setup.cfgs[0], setup.sources, [a, b, c]), ip)
    ensures !ReportsIp(CorrelationRun(setup, [[a, b, c]]).1, ip)
  {
    hide CorrelatedBy, CorrelationRun, QualifiesInTime;
    BatchSeesBoth(setup.cfgs[0], setup.sources, [a, b, c], a, b, ip);
    EmittedIffQualifiesInTime(setup, [[a, b, c]], ip);
    OnlyOtherKept(setup, a, b, c, ip);
  }

  lemma OnlyOtherKept(setup: Setup, a: Finding, b: Finding, c: Finding, ip: string)
    requires c.ip != Some(ip)
    requires a.lastSeen < c.lastSeen - Seconds(setup.window) && b.lastSeen < c.lastSeen - Seconds(setup.window)
    ensures !QualifiesInTime(setup, [[a, b, c]], ip)
  {
    hide Filter, Cut, Correlatable, Flatten;
    OneFeed([a, b, c]);
    CutKeepsLast(setup.window, [a, b], c);
    assert [a, b] + [c] == [a, b, c];
    EmptyCut(setup.window);
    forall n: nat, cfg | n <= 1 && cfg in setup.cfgs
      ensures !QualifiesAt(setup, [[a, b, c]], n, cfg, ip)
    {
      OthersDoNotQualify(cfg, setup.sources, Cut(setup.window, Flatten([[a, b, c]][..n])), ip);
    }
  }

  lemma OneFeed(found: seq<Finding>)
    ensures Flatten([found][..0]) == [] && Flatten([found][..1]) == found
  {
    assert [found][..1] == [found] && [found][..0] == [];
    ConcatNothing(found);
  }

  lemma OthersDoNotQualify(cfg: Config, sources: RuleSources, fs: seq<Finding>, ip: string)
    requires forall f | f in fs :: f.ip != Some(ip)
    ensures !Correlatable(cfg, sources, Filter(HasIp(ip), fs))
  {
    FilterNone(HasIp(ip), fs);
    forall sub
      ensures !Qualifies(cfg, sources, [], sub)
    {
      if sub != [] {
        assert sub[0] in sub;
      }
    }
  }

  /** Another, with one address and one finding a feed: groups are measured from first instant to
      first instant, but the buffer is cut by last instants. */
  lemma LongFindingDropsAGroup(setup: Setup, a: Finding, b: Finding, ip: string)
    requires |setup.cfgs| == 1 && 2 == setup.cfgs[0].minDistinctRules && setup.cfgs[0].windowSeconds == setup.window
    requires a.ip == Some(ip) && b.ip == Some(ip) && a.ruleId != b.ruleId
    requires SourceOf(setup.sources, a.ruleId) == Some(Web) && SourceOf(setup.sources, b.ruleId) == Some(Auth)
    requires a.firstSeen <= b.firstSeen <= a.firstSeen + Seconds(setup.window)
    requires a.lastSeen < b.lastSeen - Seconds(setup.window)
    ensures ReportsIp(CorrelatedBy(setup.cfgs[0], setup.sources, [a, b]), ip)
    ensures !Emitted(setup, [[a], [b]], ip)
  {
    hide CorrelatedBy, Filter, Emitted, QualifiesInTime, Cut, Correlatable;
    BatchSeesBoth(setup.cfgs[0], setup.sources, [a, b], a, b, ip);
    EmittedIffQualifiesInTime(setup, [[a], [b]], ip);
    OneAtATime(setup, a, b, ip);
  }

  lemma OneAtATime(setup: Setup, a: Finding, b: Finding, ip: string)
    requires |setup.cfgs| == 1 && setup.cfgs[0].minDistinctRules == 2
    requires a.lastSeen < b.lastSeen - Seconds(setup.window)
    ensures !QualifiesInTime(setup, [[a], [b]], ip)
  {
    hide Filter, Cut, Correlatable;
    var feeds := [[a], [b]];
    Prefixes(a, b);
    CutKeepsLast(setup.window, [a], b);
    CutKeepsLast(setup.window, [], a);
    assert [a] + [b] == [a, b] && [] + [a] == [a];
    EmptyCut(setup.window);
    forall n: nat, cfg | n <= 2 && cfg in setup.cfgs
      ensures !QualifiesAt(setup, feeds, n, cfg, ip)
    {
      FewerThanTwo(cfg, setup.sources, Cut(setup.window, Flatten(feeds[..n])), ip);
    }
  }

  lemma Prefixes(a: Finding, b: Finding)
    ensures var feeds := [[a], [b]];
            Flatten(feeds[..0]) == [] && Flatten(feeds[..1]) == [a] && Flatten(feeds[..2]) == [a, b]
  {
    var feeds := [[a], [b]];
    assert feeds[..2][..1] == feeds[..1] && feeds[..1][..0] == [] && feeds[..0] == [];
  }

  lemma FewerThanTwo(cfg: Config, sources: RuleSources, fs: seq<Finding>, ip: string)
    requires |fs| <= 1 && cfg.minDistinctRules == 2
    ensures !Correlatable(cfg, sources, Filter(HasIp(ip), fs))
  {
    FilterMembers(HasIp(ip), fs);
    hide Filter;
    forall sub
      ensures !Qualifies(cfg, sources, Filter(HasIp(ip), fs), sub)
    {
      if sub != [] && forall f | f in sub :: f in Filter(HasIp(ip), fs) {
        assert sub[0] in sub && sub[0] in fs;
        assert RulesOf(sub) == {fs[0].ruleId};
      }
    }
  }

  lemma BatchSeesBoth(cfg: Config, sources: RuleSources, fs: seq<Finding>, a: Finding, b: Finding, ip: string)
    requires cfg.minDistinctRules <= 2 && a in fs && b in fs
    requires a.ip == Some(ip) && b.ip == Some(ip) && a.ruleId != b.ruleId
    requires a.firstSeen <= b.firstSeen <= a.firstSeen + Seconds(cfg.windowSeconds)
    requires SourceOf(sources, a.ruleId) == Some(Web) && SourceOf(sources, b.ruleId) == Some(Auth)
    ensures ReportsIp(CorrelatedBy(cfg, sources, fs), ip)
  {
    hide CorrelatedBy, Filter;
    CorrelationIsExact(cfg, sources, fs);
    FilterMembers(HasIp(ip), fs);
    TwoSourcesQualify(cfg, sources, a, b);
    assert Qualifies(cfg, sources, Filter(HasIp(ip), fs), [a, b]);
  }

  lemma TwoSourcesQualify(cfg: Config, sources: RuleSources, a: Finding, b: Finding)
    requires cfg.minDistinctRules <= 2 && a.ruleId != b.ruleId
    requires a.firstSeen <= b.firstSeen <= a.firstSeen + Seconds(cfg.windowSeconds)
    requires SourceOf(sources, a.ruleId) == Some(Web) && SourceOf(sources, b.ruleId) == Some(Auth)
    ensures Qualifies(cfg, sources, [a, b], [a, b])
  {
    assert a in [a, b] && b in [a, b];
    assert RulesOf([a, b]) == {a.ruleId, b.ruleId};
    assert SourcesOf(sources, {a.ruleId, b.ruleId}) == {Web, Auth};
  }

  /** A finding newer by more than the window is all that pruning keeps. */
  lemma CutKeepsLast(window: int, older: seq<Finding>, newest: Finding)
    requires window > 0 && forall f | f in older :: f.lastSeen < newest.lastSeen - Seconds(window)
    ensures Cut(window, older + [newest]) == [newest]
  {
    hide Filter, MaxLast, Seconds, Cut;
    WindowIsForward(window);
    NewestIsLast(older, newest);
    CutIsFilter(window, older + [newest]);
    var p := LastSeenFrom(newest.lastSeen - Seconds(window));
    FilterOnlyLast(p, older, newest);
  }

  lemma CutIsFilter(window: int, fs: seq<Finding>)
    requires |fs| > 0
    ensures Cut(window, fs) == Filter(LastSeenFrom(MaxLast(fs) - Seconds(window)), fs)
  {
  }

  lemma WindowIsForward(window: int)
    requires window > 0
    ensures Seconds(window) > 0
  {
  }

  lemma NewestIsLast(older: seq<Finding>, newest: Finding)
    requires forall f | f in older :: f.lastSeen <= newest.lastSeen
    ensures MaxLast(older + [newest]) == newest.lastSeen
  {
    assert newest in older + [newest];
  }
}
