/** What feeding the live analyzer promises, said of the findings fed and returned: what it keeps,
    which correlations it emits, in which order things come back. */
module IncrementalStatement {
  import opened Models
  import opened Sequences
  import opened DetectionRules
  import opened Correlation
  import opened CorrelationStatement
  import opened Configuration
  import opened IncrementalRules

  /** All that was fed is the feeds one after the other. */
  lemma {:induction false} FlattenInPieces<T>(parts: seq<seq<T>>)
    ensures Pieces(Flatten(parts), parts)
  {
    hide Pieces;
    if parts == [] {
      NoPieces<T>();
    } else {
      var front, last := parts[..|parts| - 1], parts[|parts| - 1];
      FlattenInPieces(front);
      OnePieceMore(Flatten(front), front, last);
      assert parts == front + [last];
    }
  }

  // ---------------------------------------------------------------------------
  // What is kept
  // ---------------------------------------------------------------------------

  /** No finding ends later by more than the window. */
  ghost predicate NotOutdated(window: int, fs: seq<Finding>, f: Finding) {
    forall g | g in fs :: g.lastSeen - f.lastSeen <= window * 1_000_000
  }

  lemma CutIsExact(window: int, fs: seq<Finding>) returns (ks: seq<nat>)
    ensures Increasing(ks) && forall k: nat :: k in ks <==> k < |fs| && NotOutdated(window, fs, fs[k])
    ensures |ks| == |Cut(window, fs)| && forall j | 0 <= j < |ks| :: ks[j] < |fs| && Cut(window, fs)[j] == fs[ks[j]]
  {
    if fs == [] {
      ks := [];
    } else {
      var p := LastSeenFrom(MaxLast(fs) - Seconds(window));
      ks := Places(p, fs);
      FilterByPlaces(p, fs);
      forall k: nat | k < |fs|
        ensures p(fs[k]) <==> NotOutdated(window, fs, fs[k])
      {
        RecentIsNotOutdated(window, fs, fs[k]);
      }
    }
  }

  lemma RecentIsNotOutdated(window: int, fs: seq<Finding>, f: Finding)
    requires fs != []
    ensures f.lastSeen >= MaxLast(fs) - Seconds(window) <==> NotOutdated(window, fs, f)
  {
    var newest := MaxLast(fs);
    var g :| g in fs && g.lastSeen == newest;
  }

  lemma CutMembers(window: int, fs: seq<Finding>)
    ensures forall f :: f in Cut(window, fs) <==> f in fs && NotOutdated(window, fs, f)
  {
    hide Cut, NotOutdated;
    var ks := CutIsExact(window, fs);
    forall f
      ensures f in Cut(window, fs) <==> f in fs && NotOutdated(window, fs, f)
    {
      if f in fs && NotOutdated(window, fs, f) {
        var k: nat :| k < |fs| && fs[k] == f;
        assert k in ks;
        var j :| 0 <= j < |ks| && ks[j] == k;
      }
      if f in Cut(window, fs) {
        var j :| 0 <= j < |ks| && Cut(window, fs)[j] == f;
        assert ks[j] in ks;
      }
    }
  }

  /** Exactly what is retained after any feeds: all findings fed that no other outdates, as they
      came. */
  lemma BufferIsExact(setup: Setup, feeds: seq<seq<Finding>>) returns (ks: seq<nat>)
    requires setup.cfgs != []
    ensures var fed, kept := Flatten(feeds), CorrelationRun(setup, feeds).0.recent;
            && Increasing(ks) && (forall k: nat :: k in ks <==> k < |fed| && NotOutdated(setup.window, fed, fed[k]))
            && |ks| == |kept| && forall j | 0 <= j < |ks| :: ks[j] < |fed| && kept[j] == fed[ks[j]]
  {
    hide CorrelationRun, Cut, NotOutdated;
    BufferIsWindow(setup, feeds);
    ks := CutIsExact(setup.window, Flatten(feeds));
  }

  // ---------------------------------------------------------------------------
  // What is emitted
  // ---------------------------------------------------------------------------

  /** Some finding here is about this address and these rules. */
  ghost predicate Has(found: seq<Finding>, ip: string, ids: set<string>) {
    exists f :: f in found && f.ip == Some(ip) && f.correlatedRuleIds == ids
  }

  /** What correlating the findings that are not outdated reports, once `n` feeds are in. */
  function ReportsAfter(setup: Setup, feeds: seq<seq<Finding>>, n: nat): seq<Finding>
    requires n <= |feeds|
  {
    Correlated(setup.cfgs, setup.sources, Cut(setup.window, Flatten(feeds[..n])))
  }

  ghost predicate HadAfterSome(setup: Setup, feeds: seq<seq<Finding>>, ip: string, ids: set<string>) {
    exists n: nat | n <= |feeds| :: Has(ReportsAfter(setup, feeds, n), ip, ids)
  }

  lemma HasIsHasKey(found: seq<Finding>, ip: string, ids: set<string>)
    ensures Has(found, ip, ids) <==> HasKey(found, (Some(ip), ids))
  {
    if Has(found, ip, ids) {
      var f :| f in found && f.ip == Some(ip) && f.correlatedRuleIds == ids;
      assert KeyOf(f) == (Some(ip), ids);
    }
  }

  /** Exactly which correlations a run emits: each pair of an address and a set of rules that the
      findings not outdated at the end of some feed are reported under; and each such pair once. */
  lemma EmittedExactly(setup: Setup, feeds: seq<seq<Finding>>)
    ensures forall ip, ids ::
              Has(CorrelationRun(setup, feeds).1, ip, ids) <==> HadAfterSome(setup, feeds, ip, ids)
    ensures var emitted := CorrelationRun(setup, feeds).1;
            forall i, j | 0 <= i < j < |emitted| ::
              emitted[i].ip != emitted[j].ip || emitted[i].correlatedRuleIds != emitted[j].correlatedRuleIds
  {
    hide CorrelationRun, HadAfterSome, Has;
    forall ip, ids
      ensures Has(CorrelationRun(setup, feeds).1, ip, ids) <==> HadAfterSome(setup, feeds, ip, ids)
    {
      EmittedPair(setup, feeds, ip, ids);
    }
    EmittedOnce(setup, feeds);
  }

  lemma EmittedPair(setup: Setup, feeds: seq<seq<Finding>>, ip: string, ids: set<string>)
    ensures Has(CorrelationRun(setup, feeds).1, ip, ids) <==> HadAfterSome(setup, feeds, ip, ids)
  {
    hide CorrelationRun, Has, HasKey;
    var emitted := CorrelationRun(setup, feeds).1;
    if setup.cfgs == [] {
      NoEmissions(setup, feeds);
      NothingHas(ip, ids);
    } else {
      HasIsHasKey(emitted, ip, ids);
      EmittedKey(setup, feeds, (Some(ip), ids));
      forall n: nat | n <= |feeds|
        ensures Has(ReportsAfter(setup, feeds, n), ip, ids)
           <==> HasKey(WindowReports(setup, feeds, n), (Some(ip), ids))
      {
        HasIsHasKey(ReportsAfter(setup, feeds, n), ip, ids);
      }
    }
  }

  lemma NothingHas(ip: string, ids: set<string>)
    ensures !Has([], ip, ids)
  {
  }

  lemma EmittedKey(setup: Setup, feeds: seq<seq<Finding>>, k: Key)
    requires setup.cfgs != []
    ensures HasKey(CorrelationRun(setup, feeds).1, k) <==> ReportedInTime(setup, feeds, k)
  {
    hide CorrelationRun, ReportedInTime;
    EmittedOnce(setup, feeds);
    SeenExactly(setup, feeds, k);
  }

  /** Enough findings of the address start within one window, and none of them was outdated yet once
      `n` feeds were in. */
  ghost predicate TogetherInTime(
    setup: Setup, feeds: seq<seq<Finding>>, n: nat, cfg: Config, ip: string, some: seq<Finding>)
    requires n <= |feeds|
  {
    && cfg in setup.cfgs && Together(cfg, setup.sources, Flatten(feeds[..n]), ip, some)
    && forall f | f in some :: NotOutdated(setup.window, Flatten(feeds[..n]), f)
  }

  /** Exactly which addresses a run emits. A batch correlation asks for the first half of the
      condition alone, and only once, in the end. */
  lemma EmittedIffTogetherInTime(setup: Setup, feeds: seq<seq<Finding>>, ip: string)
    ensures ReportsIp(CorrelationRun(setup, feeds).1, ip) <==>
            exists n: nat, cfg, some | n <= |feeds| :: TogetherInTime(setup, feeds, n, cfg, ip, some)
  {
    hide CorrelationRun, TogetherInTime;
    if setup.cfgs == [] {
      NoEmissions(setup, feeds);
    } else {
      EmittedIffQualifiesInTime(setup, feeds, ip);
    }
    if n: nat, cfg :| n <= |feeds| && cfg in setup.cfgs && QualifiesAt(setup, feeds, n, cfg, ip) {
      QualifiesIffTogether(setup, feeds, n, cfg, ip);
    }
    if n: nat, cfg, some :| n <= |feeds| && TogetherInTime(setup, feeds, n, cfg, ip, some) {
      QualifiesIffTogether(setup, feeds, n, cfg, ip);
      InTimeIsConfigured(setup, feeds, n, cfg, ip, some);
    }
  }

  lemma InTimeIsConfigured(
    setup: Setup, feeds: seq<seq<Finding>>, n: nat, cfg: Config, ip: string, some: seq<Finding>)
    requires n <= |feeds| && TogetherInTime(setup, feeds, n, cfg, ip, some)
    ensures cfg in setup.cfgs
  {
  }

  lemma QualifiesIffTogether(setup: Setup, feeds: seq<seq<Finding>>, n: nat, cfg: Config, ip: string)
    requires n <= |feeds|
    ensures cfg in setup.cfgs && QualifiesAt(setup, feeds, n, cfg, ip) <==>
            exists some :: TogetherInTime(setup, feeds, n, cfg, ip, some)
  {
    hide Correlatable, Cut, NotOutdated, Enough, Filter, Flatten;
    var fed := Flatten(feeds[..n]);
    CorrelatableIffTogether(cfg, setup.sources, Cut(setup.window, fed), ip);
    CutMembers(setup.window, fed);
    forall some: seq<Finding>
      ensures cfg in setup.cfgs && Together(cfg, setup.sources, Cut(setup.window, fed), ip, some)
         <==> TogetherInTime(setup, feeds, n, cfg, ip, some)
    {
    }
  }

  /** A group that grows is emitted again: two rules in one feed, a third in the next. */
  lemma GrowingGroupIsEmittedAgain(setup: Setup, a: Finding, b: Finding, c: Finding, ip: string)
    requires |setup.cfgs| == 1 && setup.cfgs[0].minDistinctRules <= 2 && !setup.cfgs[0].requireDistinctSources
    requires a.ip == Some(ip) && b.ip == Some(ip) && c.ip == Some(ip) && a.ruleId != b.ruleId
    requires a.firstSeen == b.firstSeen == c.firstSeen && a.lastSeen == b.lastSeen == c.lastSeen
    ensures Has(CorrelationRun(setup, [[a, b], [c]]).1, ip, {a.ruleId, b.ruleId})
    ensures Has(CorrelationRun(setup, [[a, b], [c]]).1, ip, {a.ruleId, b.ruleId, c.ruleId})
  {
    hide CorrelationRun, Has, Flatten, Correlated;
    var feeds := [[a, b], [c]];
    EmittedExactly(setup, feeds);
    TwoFeeds([a, b], [c]);
    AllReported(setup, feeds, 1, a, b, ip);
    AllReported(setup, feeds, 2, a, b, ip);
    assert (set f | f in [a, b] :: f.ruleId) == {a.ruleId, b.ruleId} by {
      assert a in [a, b] && b in [a, b];
    }
    assert (set f | f in [a, b] + [c] :: f.ruleId) == {a.ruleId, b.ruleId, c.ruleId} by {
      assert [a, b] + [c] == [a, b, c] && a in [a, b, c] && b in [a, b, c] && c in [a, b, c];
    }
  }

  lemma TwoFeeds(first: seq<Finding>, second: seq<Finding>)
    ensures Flatten([first, second][..1]) == first && Flatten([first, second][..2]) == first + second
  {
    assert [first, second][..1] == [first] && [first, second][..2] == [first, second];
    assert [first, second][..1][..0] == [] && [first][..0] == [];
    ConcatNothing(first);
    assert Flatten([first]) == first;
  }

  /** All findings fed are of one address, at one time, and of at least two rules. */
  lemma AllReported(setup: Setup, feeds: seq<seq<Finding>>, n: nat, a: Finding, b: Finding, ip: string)
    requires |setup.cfgs| == 1 && setup.cfgs[0].minDistinctRules <= 2 && !setup.cfgs[0].requireDistinctSources
    requires n <= |feeds| && a in Flatten(feeds[..n]) && b in Flatten(feeds[..n]) && a.ruleId != b.ruleId
    requires forall f | f in Flatten(feeds[..n]) ::
              f.ip == Some(ip) && f.firstSeen == a.firstSeen && f.lastSeen == a.lastSeen
    ensures HadAfterSome(setup, feeds, ip, set f | f in Flatten(feeds[..n]) :: f.ruleId)
  {
    hide Flatten, CorrelatedBy, Correlated, Cut, Sort, Filter, Together;
    var fed, cfg := Flatten(feeds[..n]), setup.cfgs[0];
    AllKept(setup.window, fed);
    OneSourceCanSuffice(cfg, setup.sources, fed, a, b, ip);
    var f :| f in CorrelatedBy(cfg, setup.sources, fed) && f.ip == Some(ip);
    ReportedByAll(setup.cfgs, setup.sources, fed, cfg, f);
    ReportIsExact(cfg, setup.sources, fed, f);
    var p := StartsFrom(ip, f.firstSeen, cfg.windowSeconds);
    SortMembers(FirstSeenOf, Filter(p, fed));
    FilterMembers(p, fed);
    OneStart(f, Sort(FirstSeenOf, Filter(p, fed)), fed, a.firstSeen);
    assert f.correlatedRuleIds == set g | g in fed :: g.ruleId;
    assert Has(ReportsAfter(setup, feeds, n), ip, f.correlatedRuleIds);
  }

  lemma OneStart(f: Finding, group: seq<Finding>, fed: seq<Finding>, start: Instant)
    requires TellsOf(f, group) && forall g | g in group :: g in fed
    requires forall g | g in fed :: g.firstSeen == start
    ensures f.firstSeen == start
  {
    hide AddsUp, Pieces;
  }

  lemma AllKept(window: int, fs: seq<Finding>)
    requires window > 0 && forall f, g | f in fs && g in fs :: f.lastSeen == g.lastSeen
    ensures Cut(window, fs) == fs
  {
    if fs != [] {
      FilterAll(LastSeenFrom(MaxLast(fs) - Seconds(window)), fs);
    }
  }

  // ---------------------------------------------------------------------------
  // What comes back
  // ---------------------------------------------------------------------------

  /** What the rules find in one more batch: for each rule in turn, what it adds to what it has found
      before. */
  lemma {:induction false} FoundRuleByRule(ds: seq<DetectorConfig>, batches: seq<seq<LogEvent>>, batch: seq<LogEvent>)
    returns (parts: seq<seq<Finding>>)
    ensures |parts| == |ds| && Pieces(NewFindings(ds, batches, batch), parts)
    ensures forall k | 0 <= k < |ds| ::
              StreamRun(ds[k], batches + [batch]).1 == StreamRun(ds[k], batches).1 + parts[k]
  {
    hide Pieces, Run, EventsFor;
    if ds == [] {
      parts := [];
      NoPieces<Finding>();
    } else {
      var front, d := ds[..|ds| - 1], ds[|ds| - 1];
      var before := FoundRuleByRule(front, batches, batch);
      var last := Run(d.rule, StreamRun(d, batches).0, EventsFor(d.source, batch)).1;
      parts := before + [last];
      OnePieceMore(NewFindings(front, batches, batch), before, last);
      assert (batches + [batch])[..|batches|] == batches;
    }
  }

  /** One feed returns first what the rules find, then what the correlation emits beyond what it has
      emitted before. */
  lemma FedIsFoundThenEmitted(
    setup: Setup, ds: seq<DetectorConfig>, batches: seq<seq<LogEvent>>, batch: seq<LogEvent>)
    requires batch != []
    ensures var found, returned := NewFindings(ds, batches, batch), Fed(setup, ds, batches, batch);
            var feeds := FoundBatchwise(ds, batches);
            && |found| <= |returned| && returned[..|found|] == found
            && CorrelationRun(setup, feeds + [found]).1 == CorrelationRun(setup, feeds).1 + returned[|found|..]
  {
    hide CorrelationRun, CorrelateStep, NewFindings;
    EmittedOneMore(setup, FoundBatchwise(ds, batches), NewFindings(ds, batches, batch));
  }
}
