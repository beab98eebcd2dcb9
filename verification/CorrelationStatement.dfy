/** What correlation promises, said of findings alone: which of them belong together, and what the
    report then says. */
module CorrelationStatement {
  import opened Models
  import opened Sequences
  import opened Correlation

  /** Some of the findings are of a rule that is configured for this source. */
  ghost predicate Involves(sources: RuleSources, fs: seq<Finding>, source: LogSource) {
    exists f :: f in fs && f.ruleId in sources && sources[f.ruleId] == Some(source)
  }

  /** Some findings, at least one, of as many rules as asked for and, only if that is asked for, from
      both sources. */
  ghost predicate Enough(cfg: Config, sources: RuleSources, fs: seq<Finding>) {
    && fs != []
    && |set f | f in fs :: f.ruleId| >= cfg.minDistinctRules
    && (cfg.requireDistinctSources ==> Involves(sources, fs, Web) && Involves(sources, fs, Auth))
  }

  /** Enough findings of one address that start within one window. */
  ghost predicate Together(cfg: Config, sources: RuleSources, fs: seq<Finding>, ip: string, some: seq<Finding>) {
    && (forall f | f in some :: f in fs && f.ip == Some(ip))
    && (forall f, g | f in some && g in some :: g.firstSeen - f.firstSeen <= cfg.windowSeconds * 1_000_000)
    && Enough(cfg, sources, some)
  }

  ghost predicate SomeTogether(cfg: Config, sources: RuleSources, fs: seq<Finding>, ip: string) {
    exists some :: Together(cfg, sources, fs, ip, some)
  }

  lemma BothSources(sources: RuleSources, fs: seq<Finding>)
    ensures |SourcesOf(sources, RulesOf(fs))| >= 2 <==> Involves(sources, fs, Web) && Involves(sources, fs, Auth)
  {
    var found := SourcesOf(sources, RulesOf(fs));
    SourceInvolved(sources, fs, Web);
    SourceInvolved(sources, fs, Auth);
    assert forall s | s in found :: s == Web || s == Auth;
    if Web in found && Auth in found {
      SubsetSize({Web, Auth}, found);
    } else if Web !in found {
      SubsetSize(found, {Auth});
    } else {
      SubsetSize(found, {Web});
    }
  }

  lemma SourceInvolved(sources: RuleSources, fs: seq<Finding>, source: LogSource)
    ensures source in SourcesOf(sources, RulesOf(fs)) <==> Involves(sources, fs, source)
  {
    if f :| f in fs && f.ruleId in sources && sources[f.ruleId] == Some(source) {
      assert f.ruleId in RulesOf(fs);
    }
  }

  lemma ThresholdsAreEnough(cfg: Config, sources: RuleSources, fs: seq<Finding>)
    ensures fs != [] && MeetsThresholds(cfg, sources, fs) <==> Enough(cfg, sources, fs)
  {
    hide Involves, SourcesOf;
    BothSources(sources, fs);
    assert RulesOf(fs) == set f | f in fs :: f.ruleId;
  }

  lemma QualifyingIsTogether(cfg: Config, sources: RuleSources, fs: seq<Finding>, ip: string, some: seq<Finding>)
    ensures Qualifies(cfg, sources, Filter(HasIp(ip), fs), some) <==> Together(cfg, sources, fs, ip, some)
  {
    hide Filter, Enough, MeetsThresholds;
    FilterMembers(HasIp(ip), fs);
    ThresholdsAreEnough(cfg, sources, some);
    assert some == [] ==> !Enough(cfg, sources, some) by {
      NothingIsNotEnough(cfg, sources);
    }
  }

  lemma NothingIsNotEnough(cfg: Config, sources: RuleSources)
    ensures !Enough(cfg, sources, [])
  {
  }

  lemma CorrelatableIffTogether(cfg: Config, sources: RuleSources, fs: seq<Finding>, ip: string)
    ensures Correlatable(cfg, sources, Filter(HasIp(ip), fs)) <==> SomeTogether(cfg, sources, fs, ip)
  {
    hide Filter, Qualifies, Together;
    forall some: seq<Finding>
      ensures Qualifies(cfg, sources, Filter(HasIp(ip), fs), some) <==> Together(cfg, sources, fs, ip, some)
    {
      QualifyingIsTogether(cfg, sources, fs, ip, some);
    }
  }

  /** An address is reported iff enough of its findings start within one window, and only once. */
  lemma ReportedIffTogether(cfg: Config, sources: RuleSources, fs: seq<Finding>)
    ensures forall ip :: ReportsIp(CorrelatedBy(cfg, sources, fs), ip) <==> SomeTogether(cfg, sources, fs, ip)
    ensures var found := CorrelatedBy(cfg, sources, fs);
            && (forall f | f in found :: f.ip.Some?)
            && forall a, b | 0 <= a < b < |found| :: found[a].ip != found[b].ip
  {
    hide CorrelatedBy, Correlatable, SomeTogether, Filter;
    CorrelationIsExact(cfg, sources, fs);
    forall ip
      ensures ReportsIp(CorrelatedBy(cfg, sources, fs), ip) <==> SomeTogether(cfg, sources, fs, ip)
    {
      CorrelatableIffTogether(cfg, sources, fs, ip);
    }
  }

  /** Without the demand for distinct sources, two findings of different rules within a window are
      enough under the default of two rules, wherever they come from. */
  lemma OneSourceCanSuffice(cfg: Config, sources: RuleSources, fs: seq<Finding>, a: Finding, b: Finding, ip: string)
    requires !cfg.requireDistinctSources && cfg.minDistinctRules <= 2
    requires a in fs && b in fs && a.ip == Some(ip) && b.ip == Some(ip) && a.ruleId != b.ruleId
    requires a.firstSeen <= b.firstSeen <= a.firstSeen + cfg.windowSeconds * 1_000_000
    ensures ReportsIp(CorrelatedBy(cfg, sources, fs), ip)
  {
    hide CorrelatedBy;
    ReportedIffTogether(cfg, sources, fs);
    var rules := set f | f in [a, b] :: f.ruleId;
    assert a in [a, b] && b in [a, b];
    SubsetSize({a.ruleId, b.ruleId}, rules);
    assert Together(cfg, sources, fs, ip, [a, b]);
  }

  // ---------------------------------------------------------------------------
  // What a report says
  // ---------------------------------------------------------------------------

  /** A finding of the address that starts within `seconds` from `start` on. */
  function StartsFrom(ip: string, start: Instant, seconds: int): Finding -> bool {
    (f: Finding) => f.ip == Some(ip) && start <= f.firstSeen <= start + seconds * 1_000_000
  }

  function CountsIn(fs: seq<Finding>): seq<int> {
    seq(|fs|, i requires 0 <= i < |fs| => fs[i].count)
  }

  function Evidences(fs: seq<Finding>): seq<seq<Evidence>> {
    seq(|fs|, i requires 0 <= i < |fs| => fs[i].evidence)
  }

  /** Its instants, rules, users, count and evidence are those of the group, in the group's order. */
  ghost predicate TellsOf(f: Finding, group: seq<Finding>) {
    && (forall g | g in group :: f.firstSeen <= g.firstSeen && g.lastSeen <= f.lastSeen)
    && (exists g :: g in group && g.firstSeen == f.firstSeen) && (exists g :: g in group && g.lastSeen == f.lastSeen)
    && (forall id :: id in f.correlatedRuleIds <==> exists g :: g in group && g.ruleId == id)
    && (forall u :: u in f.users <==> exists g :: g in group && u in g.users)
    && AddsUp(f.count, CountsIn(group)) && Pieces(f.evidence, Evidences(group))
  }

  lemma {:induction false} CountsAddUp(fs: seq<Finding>)
    ensures AddsUp(SumCount(fs), CountsIn(fs))
  {
    hide AddsUp;
    if fs == [] {
      AddsUpToNothing();
      assert CountsIn(fs) == [];
    } else {
      var front, last := fs[..|fs| - 1], fs[|fs| - 1];
      CountsAddUp(front);
      OneNumberMore(SumCount(front), CountsIn(front), last.count);
      assert CountsIn(fs) == CountsIn(front) + [last.count];
    }
  }

  lemma EvidenceInPieces(fs: seq<Finding>)
    ensures Pieces(AllEvidence(fs), Evidences(fs))
  {
    hide Pieces, FlatMap;
    FlatMapInPieces(EvidenceIn, fs);
    assert Evidences(fs) == Images(EvidenceIn, fs);
  }

  lemma BuiltTellsOf(cfg: Config, ip: string, group: seq<Finding>)
    requires group != []
    ensures var f := BuildFinding(cfg, ip, group);
            && f.ruleId == cfg.id && f.severity == cfg.severity && f.ip == Some(ip) && TellsOf(f, group)
  {
    hide SumCount, AllEvidence, AddsUp, Pieces;
    CountsAddUp(group);
    EvidenceInPieces(group);
    forall u
      ensures u in UsersOf(group) <==> exists g :: g in group && u in g.users
    {
    }
  }

  /** The group as the program finds it: everything of the address that starts within the window of
      the first, stably sorted by first instant. */
  lemma GroupIsSorted(cfg: Config, sources: RuleSources, fs: seq<Finding>, ip: string)
    requires GroupFor(cfg, sources, fs, ip).Some?
    ensures var g := GroupFor(cfg, sources, fs, ip).value;
            && g != []
            && g == Sort(FirstSeenOf, Filter(StartsFrom(ip, g[0].firstSeen, cfg.windowSeconds), fs))
            && Together(cfg, sources, fs, ip, g)
            && forall some, f: Finding | Together(cfg, sources, fs, ip, some) && f in some ::
                  g[0].firstSeen <= f.firstSeen
  {
    hide Filter, Sort, GroupFrom, Together, Qualifies, MeetsThresholds;
    var own := Filter(HasIp(ip), fs);
    GroupIffSubset(cfg, sources, own);
    GroupIsWindow(cfg, sources, own);
    var g := GroupFor(cfg, sources, fs, ip).value;
    var start := g[0].firstSeen;
    var within := StartsWithin(start, start + Seconds(cfg.windowSeconds));
    FilterSort(FirstSeenOf, within, own);
    FilterCompose(HasIp(ip), within, StartsFrom(ip, start, cfg.windowSeconds), fs);
    forall some: seq<Finding>
      ensures Qualifies(cfg, sources, own, some) <==> Together(cfg, sources, fs, ip, some)
    {
      QualifyingIsTogether(cfg, sources, fs, ip, some);
    }
  }

  /** Exactly what a report says: it is about everything of its address that starts within a window
      from the report's first instant on, sorted by first instant; that is enough; and no findings
      that are enough start earlier. */
  lemma ReportIsExact(cfg: Config, sources: RuleSources, fs: seq<Finding>, f: Finding)
    requires f in CorrelatedBy(cfg, sources, fs)
    ensures f.ruleId == cfg.id && f.severity == cfg.severity && f.ip.Some?
    ensures var group := Sort(FirstSeenOf, Filter(StartsFrom(f.ip.value, f.firstSeen, cfg.windowSeconds), fs));
            TellsOf(f, group) && Together(cfg, sources, fs, f.ip.value, group)
    ensures forall some, g: Finding | Together(cfg, sources, fs, f.ip.value, some) && g in some ::
            f.firstSeen <= g.firstSeen
  {
    hide CorrelatedBy, Filter, Sort, GroupFrom, Together, TellsOf, BuildFinding, ReportFor;
    CorrelationIsExact(cfg, sources, fs);
    var ip := f.ip.value;
    ReportIsBuilt(cfg, sources, fs, ip);
    var g := GroupFor(cfg, sources, fs, ip).value;
    GroupIsSorted(cfg, sources, fs, ip);
    BuiltTellsOf(cfg, ip, g);
    StartsWithFirst(cfg, sources, fs, ip, f, g);
  }

  lemma StartsWithFirst(
    cfg: Config, sources: RuleSources, fs: seq<Finding>, ip: string, f: Finding, group: seq<Finding>)
    requires group != [] && TellsOf(f, group) && Together(cfg, sources, fs, ip, group)
    requires forall some, g: Finding | Together(cfg, sources, fs, ip, some) && g in some ::
              group[0].firstSeen <= g.firstSeen
    ensures f.firstSeen == group[0].firstSeen
  {
    hide AddsUp, Pieces, Together;
    assert group[0] in group;
    var g :| g in group && g.firstSeen == f.firstSeen;
  }

  /** Addresses are reported in the order in which their findings first occur. */
  lemma ReportsInOrder(cfg: Config, sources: RuleSources, fs: seq<Finding>)
    ensures var found := CorrelatedBy(cfg, sources, fs);
            forall a, b | 0 <= a < b < |found| :: OccursBefore(fs, found[a].ip, found[b].ip)
  {
    hide Ips, OccursBefore;
    IpsInOrder(fs);
    var at := ReportPlaces(cfg, sources, fs, Ips(fs));
  }

  lemma {:induction false} ReportPlaces(cfg: Config, sources: RuleSources, fs: seq<Finding>, ips: seq<string>)
    returns (at: seq<nat>)
    ensures Increasing(at) && |at| == |Reports(cfg, sources, fs, ips)|
    ensures forall j | 0 <= j < |at| :: at[j] < |ips| && Reports(cfg, sources, fs, ips)[j].ip == Some(ips[at[j]])
  {
    hide GroupFor;
    at := [];
    if ips != [] {
      var n := |ips| - 1;
      at := ReportPlaces(cfg, sources, fs, ips[..n]);
      if ReportFor(cfg, sources, fs, ips[n]).Some? {
        at := at + [n];
      }
    }
  }
}
