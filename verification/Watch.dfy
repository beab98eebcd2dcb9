/** Watch mode: the analyzer that is kept alive between polls. */
module Watch {
  import opened Models
  import opened Sequences
  import opened DetectionRules
  import opened Detectors
  import opened Correlation
  import opened Configuration
  import opened IncrementalRules

  class IncrementalAnalyzer {
    const detectors: seq<DetectorConfig>
    const setup: Setup
    var rules: seq<Detector>
    var recentFindings: seq<Finding>
    var seenCorrelations: set<Key>

    ghost var batches: seq<seq<LogEvent>>
    ghost var Repr: set<object>

    /** Every rule is in the state that evaluating `fed` batch by batch has left it in. */
    ghost predicate RulesAt(fed: seq<seq<LogEvent>>)
      reads this`rules, this`Repr, Repr - {this}
    {
      && |rules| == |detectors|
      && (forall i | 0 <= i < |rules| ::
            rules[i].Objects() <= Repr - {this} && rules[i].Valid() && rules[i].RuleOf() == detectors[i].rule)
      && (forall i, j | 0 <= i < j < |rules| :: rules[i].Objects() !! rules[j].Objects())
      && (forall i | 0 <= i < |rules| :: rules[i].State() == StreamRun(detectors[i], fed).0)
    }

    ghost predicate Valid()
      reads this, Repr
      ensures Valid() ==> this in Repr
    {
      && this in Repr && RulesAt(batches)
      && CorrelationState(recentFindings, seenCorrelations)
            == CorrelationRun(setup, FoundBatchwise(detectors, batches)).0
    }

    constructor (config: seq<RuleConfig>)
      ensures Valid() && fresh(Repr) && batches == []
      ensures detectors == DetectorConfigs(config)
      ensures setup.cfgs == CorrelationConfigs(config) && setup.window == CorrelationWindow(setup.cfgs)
              && setup.sources == RuleSourcesOf(detectors)
    {
      hide Detector.State, Detector.Objects, Detector.RuleOf, Detector.Valid;
      hide StreamRun, CorrelationRun, FoundBatchwise;
      var ds := DetectorConfigs(config);
      NothingFed(ds);
      var built: seq<Detector> := [];
      ghost var objects: set<object> := {};
      for i := 0 to |ds|
        invariant |built| == i && fresh(objects)
        invariant forall k | 0 <= k < i ::
                  built[k].Objects() <= objects && built[k].Valid() && built[k].RuleOf() == ds[k].rule
        invariant forall k | 0 <= k < i :: built[k].State() == FRESH
        invariant forall k, l | 0 <= k < l < i :: built[k].Objects() !! built[l].Objects()
      {
        var d := BuildRule(ds[i].rule);
        built := built + [d];
        objects := objects + d.Objects();
      }
      detectors := ds;
      rules := built;
      var cfgs := CorrelationConfigs(config);
      setup := CorrelationSetup(CorrelationWindow(cfgs), cfgs, RuleSourcesOf(ds));
      recentFindings, seenCorrelations := [], {};
      batches := [];
      Repr := objects + {this};
    }

    /** The rules' part of `feed`: every rule that has events in the batch evaluates them. */
    method EvaluateRules(events: seq<LogEvent>) returns (newFindings: seq<Finding>)
      requires RulesAt(batches)
      modifies Repr - {this}
      ensures newFindings == NewFindings(detectors, batches, events)
      ensures RulesAt(batches + [events])
    {
      hide Run, StreamRun, NewFindings, CorrelationRun, EventsFor, Filter, Sort;
      hide Detector.State, Detector.Objects, Detector.RuleOf, Detector.Valid;
      var ordered := Sort(TimestampOf, events);
      newFindings := [];
      NoRulesNoFindings(detectors, batches, events);
      for i := 0 to |rules|
        invariant forall k | 0 <= k < i :: rules[k].State() == StreamRun(detectors[k], batches + [events]).0
        invariant forall k | i <= k < |rules| :: rules[k].State() == StreamRun(detectors[k], batches).0
        invariant newFindings == NewFindings(detectors[..i], batches, events)
      {
        var source := detectors[i].source;
        EventsForUnfolds(source, events);
        StreamSnoc(detectors[i], batches, events);
        FindingsSnoc(detectors, i, batches, events);
        NoEventsNoFindings(detectors[i].rule, rules[i].State());
        var ruleEvents := if source.None? then ordered else Filter(MatchesSource(source), ordered);
        if ruleEvents != [] {
          var found := rules[i].Evaluate(ruleEvents);
          newFindings := newFindings + found;
        } else {
          assert newFindings + [] == newFindings;
        }
      }
      assert detectors[..|rules|] == detectors;
    }

    method Feed(events: seq<LogEvent>) returns (findings: seq<Finding>)
      requires Valid()
      modifies Repr
      ensures Valid() && Repr == old(Repr)
      ensures findings == Fed(setup, detectors, old(batches), events)
      ensures batches == if events == [] then old(batches) else old(batches) + [events]
    {
      hide FoundBatchwise, Run, StreamRun, NewFindings, CorrelateStep, CorrelationRun, RulesAt;
      if events == [] {
        return [];
      }
      var newFindings := EvaluateRules(events);
      var correlated := CorrelateNew(newFindings, FoundBatchwise(detectors, batches));
      FoundOneMore(detectors, batches, events);
      findings := newFindings + correlated;
      batches := batches + [events];
    }

    method CorrelateNew(newFindings: seq<Finding>, ghost feeds: seq<seq<Finding>>) returns (unseen: seq<Finding>)
      requires CorrelationState(recentFindings, seenCorrelations) == CorrelationRun(setup, feeds).0
      modifies this`recentFindings, this`seenCorrelations
      ensures (CorrelationState(recentFindings, seenCorrelations), unseen)
           == CorrelateStep(setup, old(CorrelationState(recentFindings, seenCorrelations)), newFindings)
      ensures CorrelationState(recentFindings, seenCorrelations) == CorrelationRun(setup, feeds + [newFindings]).0
    {
      hide CorrelationRun, Filter, MaxLast, Correlated;
      EmittedOneMore(setup, feeds, newFindings);
      if setup.cfgs == [] || newFindings == [] {
        return [];
      }
      recentFindings := recentFindings + newFindings;
      var newest := MaxLast(recentFindings);
      var cutoff := newest - Seconds(setup.window);
      recentFindings := Filter(LastSeenFrom(cutoff), recentFindings);
      var correlated := Correlate(recentFindings, setup.cfgs, setup.sources);
      unseen := [];
      ghost var before := seenCorrelations;
      for i := 0 to |correlated|
        invariant (seenCorrelations, unseen) == Unseen(before, correlated[..i])
        invariant recentFindings == Cut(setup.window, old(recentFindings) + newFindings)
      {
        assert correlated[..i + 1][..i] == correlated[..i];
        var key := (correlated[i].ip, correlated[i].correlatedRuleIds);
        if key !in seenCorrelations {
          seenCorrelations := seenCorrelations + {key};
          unseen := unseen + [correlated[i]];
        }
      }
      assert correlated[..|correlated|] == correlated;
    }
  }

  lemma NothingFed(ds: seq<DetectorConfig>)
    ensures forall d :: StreamRun(d, []) == (FRESH, [])
    ensures forall setup :: CorrelationRun(setup, FoundBatchwise(ds, [])) == (NOTHING_SEEN, [])
  {
  }

  lemma NoRulesNoFindings(ds: seq<DetectorConfig>, batches: seq<seq<LogEvent>>, batch: seq<LogEvent>)
    ensures NewFindings(ds[..0], batches, batch) == []
  {
  }

  lemma FindingsSnoc(ds: seq<DetectorConfig>, i: nat, batches: seq<seq<LogEvent>>, batch: seq<LogEvent>)
    requires i < |ds|
    ensures NewFindings(ds[..i + 1], batches, batch)
         == NewFindings(ds[..i], batches, batch)
             + Run(ds[i].rule, StreamRun(ds[i], batches).0, EventsFor(ds[i].source, batch)).1
  {
    assert ds[..i + 1][..i] == ds[..i];
  }

  lemma StreamSnoc(d: DetectorConfig, batches: seq<seq<LogEvent>>, batch: seq<LogEvent>)
    ensures StreamRun(d, batches + [batch]).0 == Run(d.rule, StreamRun(d, batches).0, EventsFor(d.source, batch)).0
  {
    assert (batches + [batch])[..|batches|] == batches;
  }

  lemma NoEventsNoFindings(rule: Rule, st: RuleState)
    ensures Run(rule, st, []) == (st, [])
  {
  }

  lemma EventsForUnfolds(source: Option<LogSource>, batch: seq<LogEvent>)
    ensures EventsFor(source, batch)
         == var ordered := Sort(TimestampOf, batch);
            if source.None? then ordered else Filter(MatchesSource(source), ordered)
  {
    if source.None? {
      FilterAll(MatchesSource(source), Sort(TimestampOf, batch));
    }
  }
}
