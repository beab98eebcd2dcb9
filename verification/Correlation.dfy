/** The correlation engine: one address that triggered several rules within a window. */
module Correlation {
  import opened Models
  import opened Sequences

  datatype CorrelationConfig = CorrelationConfig(
    id: string,
    severity: int,
    windowSeconds: int,
    minDistinctRules: int,
    requireDistinctSources: bool)

  /** The loader insists on a positive window. */
  predicate ValidConfig(cfg: CorrelationConfig) {
    cfg.windowSeconds > 0
  }

  type Config = cfg: CorrelationConfig | ValidConfig(cfg) witness CorrelationConfig("", 0, 1, 2, true)

  type RuleSources = map<string, Option<LogSource>>

  /** `rule_sources.get(rule_id)` */
  function SourceOf(sources: RuleSources, ruleId: string): Option<LogSource> {
    if ruleId in sources then sources[ruleId] else None
  }

  function RulesOf(fs: seq<Finding>): set<string> {
    set f | f in fs :: f.ruleId
  }

  /** The known log sources behind some rules; unknown ones are discarded. */
  function SourcesOf(sources: RuleSources, rules: set<string>): set<LogSource> {
    set r | r in rules && SourceOf(sources, r).Some? :: SourceOf(sources, r).value
  }

  predicate MeetsThresholds(cfg: Config, sources: RuleSources, fs: seq<Finding>) {
    |RulesOf(fs)| >= cfg.minDistinctRules
    && (!cfg.requireDistinctSources || |SourcesOf(sources, RulesOf(fs))| >= 2)
  }

  function StartsBy(end: Instant): Finding -> bool {
    (f: Finding) => f.firstSeen <= end
  }

  /** The group anchored at the i-th finding. */
  function GroupAt(cfg: Config, ordered: seq<Finding>, i: nat): seq<Finding>
    requires i < |ordered|
  {
    Filter(StartsBy(ordered[i].firstSeen + Seconds(cfg.windowSeconds)), ordered[i..])
  }

  /** The group of the first anchor, from `i` on, that meets the thresholds. */
  function GroupFrom(cfg: Config, sources: RuleSources, ordered: seq<Finding>, i: nat): Option<seq<Finding>>
    requires i <= |ordered|
    decreases |ordered| - i
  {
    if i == |ordered| then None
    else if MeetsThresholds(cfg, sources, GroupAt(cfg, ordered, i)) then Some(GroupAt(cfg, ordered, i))
    else GroupFrom(cfg, sources, ordered, i + 1)
  }

  method FindCorrelatedGroup(
    cfg: Config, sources: RuleSources, ordered: seq<Finding>) returns (group: Option<seq<Finding>>)
    ensures group == GroupFrom(cfg, sources, ordered, 0)
  {
    for i := 0 to |ordered|
      invariant GroupFrom(cfg, sources, ordered, 0) == GroupFrom(cfg, sources, ordered, i)
    {
      var windowEnd := ordered[i].firstSeen + Seconds(cfg.windowSeconds);
      var candidates := Filter(StartsBy(windowEnd), ordered[i..]);
      var distinctRules := RulesOf(candidates);
      var distinctSources := SourcesOf(sources, distinctRules);
      if |distinctRules| >= cfg.minDistinctRules && (!cfg.requireDistinctSources || |distinctSources| >= 2) {
        return Some(candidates);
      }
    }
    return None;
  }

  // ---------------------------------------------------------------------------
  // The greedy scan decides the existential over all subsets
  // ---------------------------------------------------------------------------

  /** Some of the findings `fs`, at least one, whose starts span at most the window and which
      meet the thresholds. */
  ghost predicate Qualifies(cfg: Config, sources: RuleSources, fs: seq<Finding>, sub: seq<Finding>) {
    && sub != []
    && (forall f | f in sub :: f in fs)
    && (forall f, g | f in sub && g in sub :: g.firstSeen - f.firstSeen <= Seconds(cfg.windowSeconds))
    && MeetsThresholds(cfg, sources, sub)
  }

  ghost predicate Correlatable(cfg: Config, sources: RuleSources, fs: seq<Finding>) {
    exists sub :: Qualifies(cfg, sources, fs, sub)
  }

  /** More findings never fail thresholds that fewer meet. */
  lemma ThresholdsMonotone(cfg: Config, sources: RuleSources, few: seq<Finding>, many: seq<Finding>)
    requires forall f | f in few :: f in many
    requires MeetsThresholds(cfg, sources, few)
    ensures MeetsThresholds(cfg, sources, many)
  {
    SubsetSize(RulesOf(few), RulesOf(many));
    SubsetSize(SourcesOf(sources, RulesOf(few)), SourcesOf(sources, RulesOf(many)));
  }

  lemma GroupMembers(cfg: Config, ordered: seq<Finding>, i: nat)
    requires IsSorted(FirstSeenOf, ordered) && i < |ordered|
    ensures var g := GroupAt(cfg, ordered, i);
            && g != [] && g[0] == ordered[i]
            && forall f :: f in g <==>
                 f in ordered[i..] && f.firstSeen <= ordered[i].firstSeen + Seconds(cfg.windowSeconds)
  {
    hide Filter, IsSorted, Seconds;
    var p := StartsBy(ordered[i].firstSeen + Seconds(cfg.windowSeconds));
    assert p(ordered[i]) by {
      WindowIsPositive(cfg);
    }
    FilterMembers(p, ordered[i..]);
    FilterFirst(p, ordered[i..]);
  }

  lemma WindowIsPositive(cfg: Config)
    ensures Seconds(cfg.windowSeconds) > 0
  {
  }

  lemma GroupQualifies(cfg: Config, sources: RuleSources, ordered: seq<Finding>, i: nat)
    requires IsSorted(FirstSeenOf, ordered) && i < |ordered|
    requires MeetsThresholds(cfg, sources, GroupAt(cfg, ordered, i))
    ensures Qualifies(cfg, sources, ordered, GroupAt(cfg, ordered, i))
  {
    GroupMembers(cfg, ordered, i);
    forall f | f in ordered[i..]
      ensures f in ordered && ordered[i].firstSeen <= f.firstSeen
    {
      var j :| i <= j < |ordered| && ordered[j] == f;
      assert i == j || FirstSeenOf(ordered[i]) <= FirstSeenOf(ordered[j]);
    }
  }

  /** The index of a finding of `sub` before which no member of `sub` occurs. */
  lemma {:induction false} EarliestIndex(ordered: seq<Finding>, sub: seq<Finding>, from: nat) returns (i: nat)
    requires sub != [] && from <= |ordered|
    requires forall f | f in sub :: f in ordered[from..]
    ensures from <= i < |ordered| && ordered[i] in sub
    ensures forall f | f in sub :: f in ordered[i..]
    decreases |ordered| - from
  {
    assert sub[0] in ordered[from..];
    if ordered[from] in sub {
      i := from;
    } else {
      assert ordered[from..] == [ordered[from]] + ordered[from + 1..];
      i := EarliestIndex(ordered, sub, from + 1);
    }
  }

  /** If any subset qualifies, the anchor at its earliest member does. */
  lemma AnchorOfSubset(cfg: Config, sources: RuleSources, ordered: seq<Finding>, sub: seq<Finding>) returns (i: nat)
    requires IsSorted(FirstSeenOf, ordered)
    requires Qualifies(cfg, sources, ordered, sub)
    ensures i < |ordered| && MeetsThresholds(cfg, sources, GroupAt(cfg, ordered, i))
    ensures forall f | f in sub :: ordered[i].firstSeen <= f.firstSeen
  {
    assert ordered[0..] == ordered;
    i := EarliestIndex(ordered, sub, 0);
    GroupMembers(cfg, ordered, i);
    forall f | f in sub
      ensures f in GroupAt(cfg, ordered, i) && ordered[i].firstSeen <= f.firstSeen
    {
      var j :| i <= j < |ordered| && ordered[j] == f;
      assert i == j || FirstSeenOf(ordered[i]) <= FirstSeenOf(ordered[j]);
    }
    ThresholdsMonotone(cfg, sources, sub, GroupAt(cfg, ordered, i));
  }

  lemma {:induction false} GroupFromFirst(cfg: Config, sources: RuleSources, ordered: seq<Finding>, i: nat)
    requires i <= |ordered|
    ensures var g := GroupFrom(cfg, sources, ordered, i);
            && (g.None? <==> forall j | i <= j < |ordered| :: !MeetsThresholds(cfg, sources, GroupAt(cfg, ordered, j)))
            && (g.Some? ==> exists j | i <= j < |ordered| ::
                  && g.value == GroupAt(cfg, ordered, j) && MeetsThresholds(cfg, sources, GroupAt(cfg, ordered, j))
                  && forall k | i <= k < j :: !MeetsThresholds(cfg, sources, GroupAt(cfg, ordered, k)))
    decreases |ordered| - i
  {
    hide MeetsThresholds, GroupAt;
    if i < |ordered| && !MeetsThresholds(cfg, sources, GroupAt(cfg, ordered, i)) {
      GroupFromFirst(cfg, sources, ordered, i + 1);
    }
  }

  /** The scan returns a group iff some subset of the findings qualifies; the group qualifies
      itself; and no qualifying subset contains a finding that starts before it. */
  lemma GroupIffSubset(cfg: Config, sources: RuleSources, fs: seq<Finding>)
    ensures var g := GroupFrom(cfg, sources, Sort(FirstSeenOf, fs), 0);
            && (g.Some? <==> Correlatable(cfg, sources, fs))
            && (g.Some? ==> Qualifies(cfg, sources, fs, g.value)
                            && forall sub, f: Finding | Qualifies(cfg, sources, fs, sub) && f in sub ::
                                  g.value[0].firstSeen <= f.firstSeen)
  {
    var ordered := Sort(FirstSeenOf, fs);
    SortSorts(FirstSeenOf, fs);
    SortMembers(FirstSeenOf, fs);
    GroupFromFirst(cfg, sources, ordered, 0);
    var g := GroupFrom(cfg, sources, ordered, 0);
    if g.Some? {
      var j: nat :| j < |ordered| && g.value == GroupAt(cfg, ordered, j)
          && MeetsThresholds(cfg, sources, GroupAt(cfg, ordered, j))
        && forall k | 0 <= k < j :: !MeetsThresholds(cfg, sources, GroupAt(cfg, ordered, k));
      GroupQualifies(cfg, sources, ordered, j);
      GroupMembers(cfg, ordered, j);
      assert Qualifies(cfg, sources, fs, g.value);
      forall sub, f: Finding | Qualifies(cfg, sources, fs, sub) && f in sub
        ensures g.value[0].firstSeen <= f.firstSeen
      {
        var i := AnchorOfSubset(cfg, sources, ordered, sub);
        assert j <= i;
        assert i == j || FirstSeenOf(ordered[j]) <= FirstSeenOf(ordered[i]);
      }
    } else if Correlatable(cfg, sources, fs) {
      var sub :| Qualifies(cfg, sources, fs, sub);
      var i := AnchorOfSubset(cfg, sources, ordered, sub);
      assert false;
    }
  }

  // ---------------------------------------------------------------------------
  // One configuration over all addresses
  // ---------------------------------------------------------------------------

  function MinFirst(fs: seq<Finding>): (r: Instant)
    requires fs != []
    ensures (exists f :: f in fs && f.firstSeen == r) && forall f | f in fs :: r <= f.firstSeen
  {
    var last, front := fs[|fs| - 1], fs[..|fs| - 1];
    assert fs == front + [last];
    if front == [] || last.firstSeen < MinFirst(front) then last.firstSeen else MinFirst(front)
  }

  function MaxLast(fs: seq<Finding>): (r: Instant)
    requires fs != []
    ensures (exists f :: f in fs && f.lastSeen == r) && forall f | f in fs :: f.lastSeen <= r
  {
    var last, front := fs[|fs| - 1], fs[..|fs| - 1];
    assert fs == front + [last];
    if front == [] || MaxLast(front) < last.lastSeen then last.lastSeen else MaxLast(front)
  }

  function SumCount(fs: seq<Finding>): int {
    if fs == [] then 0 else SumCount(fs[..|fs| - 1]) + fs[|fs| - 1].count
  }

  function EvidenceIn(f: Finding): seq<Evidence> {
    f.evidence
  }

  function AllEvidence(fs: seq<Finding>): seq<Evidence> {
    FlatMap(EvidenceIn, fs)
  }

  function UsersOf(fs: seq<Finding>): set<string> {
    set f, u | f in fs && u in f.users :: u
  }

  function BuildFinding(cfg: Config, ip: string, group: seq<Finding>): Finding
    requires group != []
  {
    Finding(cfg.id, cfg.severity, Some(ip), UsersOf(group), MinFirst(group), MaxLast(group), SumCount(group),
            AllEvidence(group), RulesOf(group))
  }

  lemma GroupIsNonEmpty(cfg: Config, sources: RuleSources, fs: seq<Finding>)
    ensures var g := GroupFrom(cfg, sources, Sort(FirstSeenOf, fs), 0); g.Some? ==> g.value != []
  {
    hide GroupFrom, Sort;
    GroupIffSubset(cfg, sources, fs);
  }

  function HasIp(ip: string): Finding -> bool {
    (f: Finding) => f.ip == Some(ip)
  }

  /** The addresses in the order in which they first occur. */
  function Ips(fs: seq<Finding>): seq<string> {
    if fs == [] then []
    else
      var front, last := Ips(fs[..|fs| - 1]), fs[|fs| - 1];
      if last.ip.Some? && last.ip.value !in front then front + [last.ip.value] else front
  }

  function GroupFor(cfg: Config, sources: RuleSources, fs: seq<Finding>, ip: string): Option<seq<Finding>> {
    GroupFrom(cfg, sources, Sort(FirstSeenOf, Filter(HasIp(ip), fs)), 0)
  }

  /** What one configuration reports about one address. */
  function ReportFor(cfg: Config, sources: RuleSources, fs: seq<Finding>, ip: string): Option<Finding> {
    var group := GroupFor(cfg, sources, fs, ip);
    if group.None? then None
    else
      GroupIsNonEmpty(cfg, sources, Filter(HasIp(ip), fs));
      Some(BuildFinding(cfg, ip, group.value))
  }

  function Reports(cfg: Config, sources: RuleSources, fs: seq<Finding>, ips: seq<string>): seq<Finding> {
    if ips == [] then []
    else
      var front, last := Reports(cfg, sources, fs, ips[..|ips| - 1]), ReportFor(cfg, sources, fs, ips[|ips| - 1]);
      if last.Some? then front + [last.value] else front
  }

  function CorrelatedBy(cfg: Config, sources: RuleSources, fs: seq<Finding>): seq<Finding> {
    Reports(cfg, sources, fs, Ips(fs))
  }

  function Correlated(cfgs: seq<Config>, sources: RuleSources, fs: seq<Finding>): seq<Finding> {
    if cfgs == [] then []
    else Correlated(cfgs[..|cfgs| - 1], sources, fs) + CorrelatedBy(cfgs[|cfgs| - 1], sources, fs)
  }

  function Lookup(byIp: map<string, seq<Finding>>, ip: string): seq<Finding> {
    if ip in byIp then byIp[ip] else []
  }

  lemma GroupingStep(byIp: map<string, seq<Finding>>, front: seq<Finding>, f: Finding, ip: string)
    requires f.ip == Some(ip)
    requires forall k :: Lookup(byIp, k) == Filter(HasIp(k), front)
    ensures forall k :: Lookup(byIp[ip := Lookup(byIp, ip) + [f]], k) == Filter(HasIp(k), front + [f])
  {
    forall k
      ensures Lookup(byIp[ip := Lookup(byIp, ip) + [f]], k) == Filter(HasIp(k), front + [f])
    {
      FilterSnoc(HasIp(k), front, f);
      assert Lookup(byIp, k) == Filter(HasIp(k), front);
    }
  }

  lemma NoIpStep(front: seq<Finding>, f: Finding)
    requires f.ip.None?
    ensures forall k :: Filter(HasIp(k), front + [f]) == Filter(HasIp(k), front)
  {
    forall k
      ensures Filter(HasIp(k), front + [f]) == Filter(HasIp(k), front)
    {
      FilterSnoc(HasIp(k), front, f);
    }
  }

  lemma NothingFiltered()
    ensures forall ip :: Filter(HasIp(ip), []) == []
  {
  }

  /** The `by_ip` dictionary, whose iteration order is that of first insertion. */
  method GroupByIp(fs: seq<Finding>) returns (order: seq<string>, byIp: map<string, seq<Finding>>)
    ensures order == Ips(fs)
    ensures forall ip :: ip in byIp <==> ip in order
    ensures forall ip :: Lookup(byIp, ip) == Filter(HasIp(ip), fs)
  {
    hide Filter;
    order, byIp := [], map[];
    NothingFiltered();
    assert fs[..0] == [];
    for i := 0 to |fs|
      invariant order == Ips(fs[..i])
      invariant forall ip :: ip in byIp <==> ip in order
      invariant forall ip :: Lookup(byIp, ip) == Filter(HasIp(ip), fs[..i])
    {
      assert fs[..i + 1][..i] == fs[..i] && fs[..i + 1] == fs[..i] + [fs[i]];
      if fs[i].ip.Some? {
        var ip := fs[i].ip.value;
        GroupingStep(byIp, fs[..i], fs[i], ip);
        if ip !in byIp {
          order := order + [ip];
        }
        byIp := byIp[ip := Lookup(byIp, ip) + [fs[i]]];
      } else {
        NoIpStep(fs[..i], fs[i]);
      }
    }
    assert fs[..|fs|] == fs;
  }

  lemma NoReports(cfg: Config, sources: RuleSources, fs: seq<Finding>)
    ensures Reports(cfg, sources, fs, []) == []
  {
  }

  lemma ReportsSnoc(cfg: Config, sources: RuleSources, fs: seq<Finding>, ips: seq<string>, k: nat)
    requires k < |ips|
    ensures var report := ReportFor(cfg, sources, fs, ips[k]);
            Reports(cfg, sources, fs, ips[..k + 1])
            == if report.Some? then Reports(cfg, sources, fs, ips[..k]) + [report.value]
               else Reports(cfg, sources, fs, ips[..k])
  {
    hide ReportFor;
    assert ips[..k + 1][..k] == ips[..k];
  }

  lemma ReportIsBuilt(cfg: Config, sources: RuleSources, fs: seq<Finding>, ip: string)
    ensures var group := GroupFrom(cfg, sources, Sort(FirstSeenOf, Filter(HasIp(ip), fs)), 0);
            && (group.Some? ==> group.value != [])
            && ReportFor(cfg, sources, fs, ip)
               == if group.Some? then Some(BuildFinding(cfg, ip, group.value)) else None
  {
    hide Filter, Sort, GroupFrom, BuildFinding;
    GroupIsNonEmpty(cfg, sources, Filter(HasIp(ip), fs));
  }

  method CorrelateOne(fs: seq<Finding>, cfg: Config, sources: RuleSources) returns (results: seq<Finding>)
    ensures results == CorrelatedBy(cfg, sources, fs)
  {
    hide Filter, Sort, GroupFrom, BuildFinding, Ips, Reports, ReportFor;
    NoReports(cfg, sources, fs);
    var order, byIp := GroupByIp(fs);
    results := [];
    for k := 0 to |order|
      invariant results == Reports(cfg, sources, fs, order[..k])
    {
      var ip := order[k];
      ReportsSnoc(cfg, sources, fs, order, k);
      assert ip in byIp && Lookup(byIp, ip) == Filter(HasIp(ip), fs);
      ReportIsBuilt(cfg, sources, fs, ip);
      var ordered := Sort(FirstSeenOf, byIp[ip]);
      var group := FindCorrelatedGroup(cfg, sources, ordered);
      if group.Some? {
        results := results + [BuildFinding(cfg, ip, group.value)];
      }
    }
    assert order[..|order|] == order;
  }

  method Correlate(fs: seq<Finding>, cfgs: seq<Config>, sources: RuleSources) returns (correlated: seq<Finding>)
    ensures correlated == Correlated(cfgs, sources, fs)
  {
    correlated := [];
    for i := 0 to |cfgs|
      invariant correlated == Correlated(cfgs[..i], sources, fs)
    {
      assert cfgs[..i + 1][..i] == cfgs[..i];
      var more := CorrelateOne(fs, cfgs[i], sources);
      correlated := correlated + more;
    }
    assert cfgs[..|cfgs|] == cfgs;
  }

  // ---------------------------------------------------------------------------
  // Exactly the correlatable addresses, once each
  // ---------------------------------------------------------------------------

  lemma {:induction false} IpsOnce(fs: seq<Finding>)
    ensures forall i, j | 0 <= i < j < |Ips(fs)| :: Ips(fs)[i] != Ips(fs)[j]
    ensures forall ip :: ip in Ips(fs) <==> exists f :: f in fs && f.ip == Some(ip)
  {
    if fs != [] {
      var front, last := fs[..|fs| - 1], fs[|fs| - 1];
      IpsOnce(front);
      assert fs == front + [last];
      forall ip
        ensures ip in Ips(fs) <==> exists f :: f in fs && f.ip == Some(ip)
      {
        if f :| f in fs && f.ip == Some(ip) {
          if f in front {
            assert ip in Ips(front);
          }
        }
        if ip in Ips(front) {
          var f :| f in front && f.ip == Some(ip);
          assert f in fs;
        } else if ip in Ips(fs) {
          assert last in fs;
        }
      }
    }
  }

  /** The first of the findings with address `a` comes before the first with address `b`. */
  ghost predicate OccursBefore(fs: seq<Finding>, a: Option<string>, b: Option<string>) {
    exists i | 0 <= i < |fs| :: fs[i].ip == a && forall j | 0 <= j <= i :: fs[j].ip != b
  }

  lemma {:induction false} IpsInOrder(fs: seq<Finding>)
    ensures forall i, j | 0 <= i < j < |Ips(fs)| :: OccursBefore(fs, Some(Ips(fs)[i]), Some(Ips(fs)[j]))
  {
    if fs != [] {
      var front, last := fs[..|fs| - 1], fs[|fs| - 1];
      IpsInOrder(front);
      IpsOnce(front);
      assert fs == front + [last];
      forall i, j | 0 <= i < j < |Ips(fs)|
        ensures OccursBefore(fs, Some(Ips(fs)[i]), Some(Ips(fs)[j]))
      {
        var a, b := Ips(fs)[i], Ips(fs)[j];
        assert a == Ips(front)[i] && a in Ips(front);
        if j < |Ips(front)| {
          assert OccursBefore(front, Some(a), Some(b));
          var k :| 0 <= k < |front| && front[k].ip == Some(a) && forall l | 0 <= l <= k :: front[l].ip != Some(b);
          assert fs[k].ip == Some(a) && forall l | 0 <= l <= k :: fs[l].ip == front[l].ip;
        } else {
          var f :| f in front && f.ip == Some(a);
          var k :| 0 <= k < |front| && front[k] == f;
          assert b !in Ips(front) && forall l | 0 <= l <= k :: fs[l] == front[l] && front[l] in front;
          assert fs[k].ip == Some(a);
        }
      }
    }
  }

  lemma {:induction false} ReportedIps(
    cfg: Config, sources: RuleSources, fs: seq<Finding>, ips: seq<string>, ip: string)
    ensures ReportsIp(Reports(cfg, sources, fs, ips), ip) <==> ip in ips && GroupFor(cfg, sources, fs, ip).Some?
  {
    hide GroupFor;
    if ips != [] {
      var front, last := ips[..|ips| - 1], ips[|ips| - 1];
      ReportedIps(cfg, sources, fs, front, ip);
      assert ips == front + [last];
      var before, found := Reports(cfg, sources, fs, front), Reports(cfg, sources, fs, ips);
      if ReportsIp(before, ip) {
        var f :| f in before && f.ip == Some(ip);
        assert f in found;
      } else if ip == last && GroupFor(cfg, sources, fs, last).Some? {
        assert found[|before|] in found && found[|before|].ip == Some(last);
      }
    }
  }

  lemma {:induction false} ReportsOnce(cfg: Config, sources: RuleSources, fs: seq<Finding>, ips: seq<string>)
    requires forall i, j | 0 <= i < j < |ips| :: ips[i] != ips[j]
    ensures var found := Reports(cfg, sources, fs, ips);
            && (forall f | f in found :: f.ip.Some? && f.ip.value in ips
                  && ReportFor(cfg, sources, fs, f.ip.value) == Some(f))
            && (forall a, b | 0 <= a < b < |found| :: found[a].ip != found[b].ip)
  {
    hide GroupFor;
    if ips != [] {
      var front, last := ips[..|ips| - 1], ips[|ips| - 1];
      ReportsOnce(cfg, sources, fs, front);
      assert ips == front + [last];
      var before := Reports(cfg, sources, fs, front);
      assert forall a | 0 <= a < |before| :: before[a] in before && before[a].ip != Some(last);
    }
  }

  /** One configuration reports an address iff some subset of that address's findings qualifies,
      and it reports it once. */
  lemma CorrelationIsExact(cfg: Config, sources: RuleSources, fs: seq<Finding>)
    ensures forall ip ::
              ReportsIp(CorrelatedBy(cfg, sources, fs), ip) <==> Correlatable(cfg, sources, Filter(HasIp(ip), fs))
    ensures forall f | f in CorrelatedBy(cfg, sources, fs) ::
            f.ip.Some? && ReportFor(cfg, sources, fs, f.ip.value) == Some(f)
    ensures var found := CorrelatedBy(cfg, sources, fs);
            forall a, b | 0 <= a < b < |found| :: found[a].ip != found[b].ip
  {
    hide Reports, GroupFrom, Filter, Sort, Ips;
    IpsOnce(fs);
    ReportsOnce(cfg, sources, fs, Ips(fs));
    forall ip
      ensures ReportsIp(CorrelatedBy(cfg, sources, fs), ip) <==> Correlatable(cfg, sources, Filter(HasIp(ip), fs))
    {
      ReportedIps(cfg, sources, fs, Ips(fs), ip);
      GroupIffSubset(cfg, sources, Filter(HasIp(ip), fs));
      FilterMembers(HasIp(ip), fs);
      if Correlatable(cfg, sources, Filter(HasIp(ip), fs)) {
        var sub :| Qualifies(cfg, sources, Filter(HasIp(ip), fs), sub);
        assert sub[0] in Filter(HasIp(ip), fs);
      }
    }
  }

  // ---------------------------------------------------------------------------
  // The order of the findings does not matter
  // ---------------------------------------------------------------------------

  function StartsWithin(start: Instant, end: Instant): Finding -> bool {
    (f: Finding) => start <= f.firstSeen <= end
  }

  lemma NothingEarlierTies(cfg: Config, sources: RuleSources, ordered: seq<Finding>, j: nat, k: nat)
    requires IsSorted(FirstSeenOf, ordered) && k < j < |ordered|
    requires MeetsThresholds(cfg, sources, GroupAt(cfg, ordered, j))
              && !MeetsThresholds(cfg, sources, GroupAt(cfg, ordered, k))
    ensures ordered[k].firstSeen < ordered[j].firstSeen
  {
    assert FirstSeenOf(ordered[k]) <= FirstSeenOf(ordered[j]);
    if ordered[k].firstSeen == ordered[j].firstSeen {
      GroupMembers(cfg, ordered, k);
      GroupMembers(cfg, ordered, j);
      assert ordered[k..][j - k..] == ordered[j..];
      ThresholdsMonotone(cfg, sources, GroupAt(cfg, ordered, j), GroupAt(cfg, ordered, k));
    }
  }

  /** Ties included, the group is everything that starts within the window of its first member. */
  lemma GroupIsWindow(cfg: Config, sources: RuleSources, fs: seq<Finding>)
    requires GroupFrom(cfg, sources, Sort(FirstSeenOf, fs), 0).Some?
    ensures var g := GroupFrom(cfg, sources, Sort(FirstSeenOf, fs), 0).value;
            && g != []
            && g == Filter(StartsWithin(g[0].firstSeen, g[0].firstSeen + Seconds(cfg.windowSeconds)),
                Sort(FirstSeenOf, fs))
            && multiset(g)
               == multiset(Filter(StartsWithin(g[0].firstSeen, g[0].firstSeen + Seconds(cfg.windowSeconds)), fs))
  {
    hide GroupFrom, GroupAt, Filter, Sort, MeetsThresholds;
    var ordered := Sort(FirstSeenOf, fs);
    SortSorts(FirstSeenOf, fs);
    GroupFromFirst(cfg, sources, ordered, 0);
    var g := GroupFrom(cfg, sources, ordered, 0).value;
    var j: nat :| j < |ordered| && g == GroupAt(cfg, ordered, j)
        && MeetsThresholds(cfg, sources, GroupAt(cfg, ordered, j))
      && forall k | 0 <= k < j :: !MeetsThresholds(cfg, sources, GroupAt(cfg, ordered, k));
    GroupMembers(cfg, ordered, j);
    var start := ordered[j].firstSeen;
    var end := start + Seconds(cfg.windowSeconds);
    forall k: nat | k < j
      ensures ordered[k].firstSeen < start
    {
      NothingEarlierTies(cfg, sources, ordered, j, k);
    }
    assert g == Filter(StartsBy(end), ordered[j..]) by {
      GroupAtIsFilter(cfg, ordered, j);
    }
    WindowSplits(ordered, j, start, end);
    FilterPermutation(StartsWithin(start, end), ordered, fs);
  }

  lemma SortedFrom(ordered: seq<Finding>, j: nat, f: Finding)
    requires IsSorted(FirstSeenOf, ordered) && j < |ordered| && f in ordered[j..]
    ensures f in ordered && ordered[j].firstSeen <= f.firstSeen
  {
    var i :| j <= i < |ordered| && ordered[i] == f;
    assert i == j || FirstSeenOf(ordered[j]) <= FirstSeenOf(ordered[i]);
  }

  lemma GroupAtIsFilter(cfg: Config, ordered: seq<Finding>, i: nat)
    requires i < |ordered|
    ensures GroupAt(cfg, ordered, i)
            == Filter(StartsBy(ordered[i].firstSeen + Seconds(cfg.windowSeconds)), ordered[i..])
  {
  }

  lemma WindowSplits(ordered: seq<Finding>, j: nat, start: Instant, end: Instant)
    requires IsSorted(FirstSeenOf, ordered) && j < |ordered| && ordered[j].firstSeen == start
    requires forall k | 0 <= k < j :: ordered[k].firstSeen < start
    ensures Filter(StartsWithin(start, end), ordered) == Filter(StartsBy(end), ordered[j..])
  {
    hide Filter, IsSorted;
    assert ordered == ordered[..j] + ordered[j..];
    FilterAppend(StartsWithin(start, end), ordered[..j], ordered[j..]);
    FilterNone(StartsWithin(start, end), ordered[..j]);
    forall f | f in ordered[j..]
      ensures StartsWithin(start, end)(f) == StartsBy(end)(f)
    {
      SortedFrom(ordered, j, f);
    }
    FilterAgree(StartsWithin(start, end), StartsBy(end), ordered[j..]);
  }

  lemma PermutedStartsNoLater(cfg: Config, sources: RuleSources, fs: seq<Finding>, gs: seq<Finding>)
    requires multiset(fs) == multiset(gs)
    requires GroupFrom(cfg, sources, Sort(FirstSeenOf, fs), 0).Some?
    ensures var f := GroupFrom(cfg, sources, Sort(FirstSeenOf, fs), 0);
            var g := GroupFrom(cfg, sources, Sort(FirstSeenOf, gs), 0);
            && g.Some? && f.value != [] && g.value != []
            && g.value[0].firstSeen <= f.value[0].firstSeen
  {
    hide GroupFrom, Sort, MeetsThresholds;
    SameMembers(fs, gs);
    GroupIffSubset(cfg, sources, fs);
    GroupIffSubset(cfg, sources, gs);
    var f := GroupFrom(cfg, sources, Sort(FirstSeenOf, fs), 0).value;
    assert Qualifies(cfg, sources, gs, f) && f[0] in f;
  }

  lemma GroupOfPermutation(cfg: Config, sources: RuleSources, fs: seq<Finding>, gs: seq<Finding>)
    requires multiset(fs) == multiset(gs)
    ensures var f := GroupFrom(cfg, sources, Sort(FirstSeenOf, fs), 0);
            var g := GroupFrom(cfg, sources, Sort(FirstSeenOf, gs), 0);
            && (f.Some? <==> g.Some?)
            && (f.Some? ==> f.value != [] && g.value != [] && multiset(f.value) == multiset(g.value))
  {
    hide GroupFrom, Sort, Filter;
    var f, g := GroupFrom(cfg, sources, Sort(FirstSeenOf, fs), 0), GroupFrom(cfg, sources, Sort(FirstSeenOf, gs), 0);
    if f.Some? {
      PermutedStartsNoLater(cfg, sources, fs, gs);
    }
    if g.Some? {
      PermutedStartsNoLater(cfg, sources, gs, fs);
      GroupIsWindow(cfg, sources, fs);
      GroupIsWindow(cfg, sources, gs);
      var start := f.value[0].firstSeen;
      FilterPermutation(StartsWithin(start, start + Seconds(cfg.windowSeconds)), fs, gs);
    }
  }

  lemma {:induction false} SumWithout(a: seq<Finding>, k: nat)
    requires k < |a|
    ensures SumCount(a) == SumCount(a[..k] + a[k + 1..]) + a[k].count
  {
    var front, last := a[..|a| - 1], a[|a| - 1];
    if k == |a| - 1 {
      assert a[..k] + a[k + 1..] == front;
    } else {
      SumWithout(front, k);
      var rest := front[..k] + front[k + 1..];
      assert a[..k] + a[k + 1..] == rest + [last];
      assert (rest + [last])[..|rest|] == rest;
    }
  }

  lemma {:induction false} SumOfPermutation(a: seq<Finding>, b: seq<Finding>)
    requires multiset(a) == multiset(b)
    ensures SumCount(a) == SumCount(b)
    decreases |a|
  {
    if a == [] {
      assert |multiset(b)| == 0;
    } else {
      var front, last := a[..|a| - 1], a[|a| - 1];
      assert a == front + [last];
      assert last in multiset(b);
      var k :| 0 <= k < |b| && b[k] == last;
      BagWithout(b, k);
      assert multiset(front) == multiset(a) - multiset{last};
      SumOfPermutation(front, b[..k] + b[k + 1..]);
      SumWithout(b, k);
    }
  }

  lemma TotalsOfPermutation(a: seq<Finding>, b: seq<Finding>)
    requires multiset(a) == multiset(b)
    ensures SumCount(a) == SumCount(b) && multiset(AllEvidence(a)) == multiset(AllEvidence(b))
  {
    SumOfPermutation(a, b);
    FlatMapPermutation(EvidenceIn, a, b);
  }

  /** The same report, up to the order of its evidence. */
  ghost predicate SameReport(f: Finding, g: Finding) {
    f.(evidence := []) == g.(evidence := []) && multiset(f.evidence) == multiset(g.evidence)
  }

  /** Permuting the findings, ties included, changes neither which addresses a configuration
      reports nor, for any of them, the rules, users, first and last instants, count or evidence
      items of the report. */
  lemma CorrelationIgnoresOrder(cfg: Config, sources: RuleSources, fs: seq<Finding>, gs: seq<Finding>, ip: string)
    requires multiset(fs) == multiset(gs)
    ensures ReportsIp(CorrelatedBy(cfg, sources, fs), ip) <==> ReportsIp(CorrelatedBy(cfg, sources, gs), ip)
    ensures ReportFor(cfg, sources, fs, ip).Some? <==> ReportFor(cfg, sources, gs, ip).Some?
    ensures ReportFor(cfg, sources, fs, ip).Some? ==>
              SameReport(ReportFor(cfg, sources, fs, ip).value, ReportFor(cfg, sources, gs, ip).value)
  {
    hide Filter, Sort, GroupFrom, Qualifies, Correlatable, CorrelatedBy, BuildFinding, SameReport, ReportsIp;
    FilterPermutation(HasIp(ip), fs, gs);
    var fi, gi := Filter(HasIp(ip), fs), Filter(HasIp(ip), gs);
    CorrelationIsExact(cfg, sources, fs);
    CorrelationIsExact(cfg, sources, gs);
    GroupIffSubset(cfg, sources, fi);
    GroupIffSubset(cfg, sources, gi);
    GroupOfPermutation(cfg, sources, fi, gi);
    if GroupFor(cfg, sources, fs, ip).Some? {
      BuildOfPermutation(cfg, ip, GroupFor(cfg, sources, fs, ip).value, GroupFor(cfg, sources, gs, ip).value);
    }
  }

  /** All findings of one address that start within the window from `start` on. */
  function StartingWithin(cfg: Config, fs: seq<Finding>, ip: string, start: Instant): seq<Finding> {
    Filter(StartsWithin(start, start + Seconds(cfg.windowSeconds)), Filter(HasIp(ip), fs))
  }

  /** First and last instant, rules, users, count and evidence are those of `fs`. */
  ghost predicate Summarises(f: Finding, fs: seq<Finding>) {
    && (exists g :: g in fs && g.firstSeen == f.firstSeen) && (forall g | g in fs :: f.firstSeen <= g.firstSeen)
    && (exists g :: g in fs && g.lastSeen == f.lastSeen) && (forall g | g in fs :: g.lastSeen <= f.lastSeen)
    && f.correlatedRuleIds == RulesOf(fs) && f.users == UsersOf(fs)
    && f.count == SumCount(fs) && multiset(f.evidence) == multiset(AllEvidence(fs))
  }

  lemma BuiltSummarises(cfg: Config, ip: string, group: seq<Finding>, others: seq<Finding>)
    requires group != [] && multiset(group) == multiset(others)
    ensures Summarises(BuildFinding(cfg, ip, group), others)
  {
    hide SumCount, AllEvidence;
    SameMembers(group, others);
    TotalsOfPermutation(group, others);
    assert RulesOf(group) == RulesOf(others) && UsersOf(group) == UsersOf(others);
  }

  /** A report is about everything its address did from its first instant on, for one window: the
      rules, users, counts and evidence are theirs, they meet the thresholds, and no qualifying
      findings start earlier. */
  lemma ReportIsItsWindow(cfg: Config, sources: RuleSources, fs: seq<Finding>, f: Finding)
    requires f in CorrelatedBy(cfg, sources, fs)
    ensures f.ruleId == cfg.id && f.ip.Some?
    ensures Summarises(f, StartingWithin(cfg, fs, f.ip.value, f.firstSeen))
    ensures |f.correlatedRuleIds| >= cfg.minDistinctRules
    ensures cfg.requireDistinctSources ==> |SourcesOf(sources, f.correlatedRuleIds)| >= 2
    ensures forall sub, g: Finding | Qualifies(cfg, sources, Filter(HasIp(f.ip.value), fs), sub) && g in sub ::
            f.firstSeen <= g.firstSeen
  {
    hide CorrelatedBy, Filter, Sort, GroupFrom, Correlatable, Summarises;
    hide BuildFinding, MinFirst, RulesOf, SourcesOf, ReportFor, Qualifies;
    CorrelationIsExact(cfg, sources, fs);
    var ip := f.ip.value;
    var own := Filter(HasIp(ip), fs);
    ReportIsBuilt(cfg, sources, fs, ip);
    var group := GroupFrom(cfg, sources, Sort(FirstSeenOf, own), 0).value;
    BuiltFields(cfg, ip, group);
    GroupSpansWindow(cfg, sources, own);
    BuiltSummarises(cfg, ip, group, StartingWithin(cfg, fs, ip, f.firstSeen));
  }

  lemma BuiltFields(cfg: Config, ip: string, group: seq<Finding>)
    requires group != []
    ensures var f := BuildFinding(cfg, ip, group);
            && f.ruleId == cfg.id && f.ip == Some(ip)
            && f.firstSeen == MinFirst(group) && f.correlatedRuleIds == RulesOf(group)
  {
  }

  lemma GroupSpansWindow(cfg: Config, sources: RuleSources, own: seq<Finding>)
    requires GroupFrom(cfg, sources, Sort(FirstSeenOf, own), 0).Some?
    ensures var g := GroupFrom(cfg, sources, Sort(FirstSeenOf, own), 0).value;
            && g != [] && MeetsThresholds(cfg, sources, g)
            && multiset(g) == multiset(Filter(StartsWithin(MinFirst(g), MinFirst(g) + Seconds(cfg.windowSeconds)), own))
            && forall sub, f: Finding | Qualifies(cfg, sources, own, sub) && f in sub :: MinFirst(g) <= f.firstSeen
  {
    hide Filter, Sort, GroupFrom, Correlatable, MeetsThresholds;
    GroupIffSubset(cfg, sources, own);
    GroupIsWindow(cfg, sources, own);
    var g := GroupFrom(cfg, sources, Sort(FirstSeenOf, own), 0).value;
    assert g[0] in g && Qualifies(cfg, sources, own, g);
    forall f | f in g
      ensures g[0].firstSeen <= f.firstSeen
    {
    }
  }

  lemma BuildOfPermutation(cfg: Config, ip: string, f: seq<Finding>, g: seq<Finding>)
    requires f != [] && g != [] && multiset(f) == multiset(g)
    ensures SameReport(BuildFinding(cfg, ip, f), BuildFinding(cfg, ip, g))
  {
    hide SumCount, AllEvidence;
    SameMembers(f, g);
    TotalsOfPermutation(f, g);
    assert RulesOf(f) == RulesOf(g);
    assert UsersOf(f) == UsersOf(g);
  }
}
