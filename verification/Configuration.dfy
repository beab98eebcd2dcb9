/** The enabled rules of a configuration, as both pipelines split them. */
module Configuration {
  import opened Models
  import opened Sequences
  import opened DetectionRules
  import opened Correlation

  datatype RuleConfig =
    | DetectorRule(enabled: bool, source: Option<LogSource>, rule: SafeRule)
    | CorrelationRule(enabled: bool, config: Config)

  datatype DetectorConfig = DetectorConfig(source: Option<LogSource>, rule: SafeRule)

  const DEFAULT_CORRELATION_WINDOW := 600

  function DetectorConfigs(rules: seq<RuleConfig>): seq<DetectorConfig> {
    if rules == [] then []
    else
      var front, last := DetectorConfigs(rules[..|rules| - 1]), rules[|rules| - 1];
      if last.enabled && last.DetectorRule? then front + [DetectorConfig(last.source, last.rule)] else front
  }

  function CorrelationConfigs(rules: seq<RuleConfig>): seq<Config> {
    if rules == [] then []
    else
      var front, last := CorrelationConfigs(rules[..|rules| - 1]), rules[|rules| - 1];
      if last.enabled && last.CorrelationRule? then front + [last.config] else front
  }

  function RuleSourcesOf(detectors: seq<DetectorConfig>): RuleSources {
    if detectors == [] then map[]
    else
      var last := detectors[|detectors| - 1];
      RuleSourcesOf(detectors[..|detectors| - 1])[last.rule.ruleId := last.source]
  }

  predicate IsDetector(rule: RuleConfig) {
    rule.DetectorRule? && rule.enabled
  }

  predicate IsCorrelation(rule: RuleConfig) {
    rule.CorrelationRule? && rule.enabled
  }

  lemma {:induction false} DetectorsFiltered(rules: seq<RuleConfig>)
    ensures var ds, kept := DetectorConfigs(rules), Filter(IsDetector, rules);
            |ds| == |kept| && forall j | 0 <= j < |ds| :: kept[j] == DetectorRule(true, ds[j].source, ds[j].rule)
  {
    if rules != [] {
      DetectorsFiltered(rules[..|rules| - 1]);
    }
  }

  lemma {:induction false} CorrelationsFiltered(rules: seq<RuleConfig>)
    ensures var cfgs, kept := CorrelationConfigs(rules), Filter(IsCorrelation, rules);
            |cfgs| == |kept| && forall j | 0 <= j < |cfgs| :: kept[j] == CorrelationRule(true, cfgs[j])
  {
    if rules != [] {
      CorrelationsFiltered(rules[..|rules| - 1]);
    }
  }

  /** The detectors are the enabled rules that are not correlations, as configured, in order. */
  lemma DetectorsAreEnabled(rules: seq<RuleConfig>) returns (at: seq<nat>)
    ensures Increasing(at) && forall i: nat :: i in at <==> i < |rules| && rules[i].DetectorRule? && rules[i].enabled
    ensures var ds := DetectorConfigs(rules);
            |ds| == |at| && forall j | 0 <= j < |at| ::
              at[j] < |rules| && rules[at[j]] == DetectorRule(true, ds[j].source, ds[j].rule)
  {
    hide Filter, Places, DetectorConfigs, Increasing;
    at := Places(IsDetector, rules);
    FilterByPlaces(IsDetector, rules);
    DetectorsFiltered(rules);
  }

  /** And the correlations are the enabled correlation rules. */
  lemma CorrelationsAreEnabled(rules: seq<RuleConfig>) returns (at: seq<nat>)
    ensures Increasing(at) && forall i: nat :: i in at <==> i < |rules| && rules[i].CorrelationRule? && rules[i].enabled
    ensures var cfgs := CorrelationConfigs(rules);
            |cfgs| == |at| && forall j | 0 <= j < |at| ::
              at[j] < |rules| && rules[at[j]] == CorrelationRule(true, cfgs[j])
  {
    hide Filter, Places, CorrelationConfigs, Increasing;
    at := Places(IsCorrelation, rules);
    FilterByPlaces(IsCorrelation, rules);
    CorrelationsFiltered(rules);
  }

  predicate Detects(rule: RuleConfig, id: string) {
    rule.DetectorRule? && rule.enabled && rule.rule.ruleId == id
  }

  /** The last enabled detector with this id is configured for this source. */
  ghost predicate ConfiguredFor(rules: seq<RuleConfig>, id: string, source: Option<LogSource>) {
    exists i | 0 <= i < |rules| ::
      Detects(rules[i], id) && rules[i].source == source && forall j | i < j < |rules| :: !Detects(rules[j], id)
  }

  /** What correlation knows of a rule id: the source that the last detector of that id has. */
  lemma {:induction false} SourceIsConfigured(rules: seq<RuleConfig>, id: string, source: Option<LogSource>)
    ensures var sources := RuleSourcesOf(DetectorConfigs(rules));
            id in sources && sources[id] == source <==> ConfiguredFor(rules, id, source)
  {
    if rules != [] {
      var front, last := rules[..|rules| - 1], rules[|rules| - 1];
      SourceIsConfigured(front, id, source);
      LastDetectorDecides(front, last, id, source);
      assert rules == front + [last];
      var ds := DetectorConfigs(front);
      if last.enabled && last.DetectorRule? {
        assert (ds + [DetectorConfig(last.source, last.rule)])[..|ds|] == ds;
      }
    }
  }

  lemma LastDetectorDecides(front: seq<RuleConfig>, last: RuleConfig, id: string, source: Option<LogSource>)
    ensures ConfiguredFor(front + [last], id, source)
       <==> if Detects(last, id) then last.source == source else ConfiguredFor(front, id, source)
  {
    var rules := front + [last];
    assert rules[|front|] == last;
    if ConfiguredFor(rules, id, source) {
      var i :| 0 <= i < |rules| && Detects(rules[i], id) && rules[i].source == source
          && forall j | i < j < |rules| :: !Detects(rules[j], id);
      if i < |front| {
        assert front[i] == rules[i] && forall j | i < j < |front| :: front[j] == rules[j];
      }
    }
    if !Detects(last, id) && ConfiguredFor(front, id, source) {
      var i :| 0 <= i < |front| && Detects(front[i], id) && front[i].source == source
          && forall j | i < j < |front| :: !Detects(front[j], id);
      assert rules[i] == front[i] && forall j | i < j < |front| :: rules[j] == front[j];
    }
  }

  /** The widest configured correlation window. */
  function CorrelationWindow(cfgs: seq<Config>): (w: int)
    ensures w > 0
    ensures cfgs == [] ==> w == 600
    ensures forall cfg | cfg in cfgs :: cfg.windowSeconds <= w
    ensures cfgs != [] ==> exists cfg :: cfg in cfgs && cfg.windowSeconds == w
  {
    if cfgs == [] then DEFAULT_CORRELATION_WINDOW
    else
      var front, last := cfgs[..|cfgs| - 1], cfgs[|cfgs| - 1];
      assert cfgs == front + [last];
      if front == [] || CorrelationWindow(front) < last.windowSeconds then last.windowSeconds
          else CorrelationWindow(front)
  }
}
