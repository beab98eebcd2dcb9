/** What the windowed detectors promise, said of log events alone: which events count, how many of
    them within how many microseconds, and what the finding then says. No counter, no flags. */
module DetectionStatement {
  import opened Models
  import opened Sequences
  import opened DetectionRules

  // ---------------------------------------------------------------------------
  // Which events count
  // ---------------------------------------------------------------------------

  ghost predicate Says(e: LogEvent, phrase: string) {
    exists before: string, after: string :: e.message == Some(before + phrase + after)
  }

  ghost predicate Answered(e: LogEvent, statuses: set<int>) {
    e.status.Some? && e.status.value in statuses
  }

  /** No prefixes are named, or the path, empty where there is none, has one of them. */
  ghost predicate Under(e: LogEvent, prefixes: seq<string>) {
    var path := if e.path == None then "" else e.path.value;
    prefixes == [] || exists p :: p in prefixes && |p| <= |path| && path[..|p|] == p
  }

  ghost predicate FailedLogin(e: LogEvent, statuses: set<int>, prefixes: seq<string>) {
    || (e.source == Web && Answered(e, statuses) && Under(e, prefixes))
    || (e.source == Auth && Says(e, "Failed password"))
  }

  ghost predicate GotIn(e: LogEvent, statuses: set<int>) {
    || (e.source == Web && Answered(e, statuses))
    || (e.source == Auth && Says(e, "Accepted password"))
  }

  /** The events that a rule counts. */
  ghost predicate Counts(kind: Kind, e: LogEvent) {
    match kind
    case BruteForce(statuses, prefixes) => FailedLogin(e, statuses, prefixes)
    case BruteForceSuccess(statuses, _, prefixes) => FailedLogin(e, statuses, prefixes)
    case ScannerBurst(statuses, prefixes) => Answered(e, statuses) && Under(e, prefixes)
    case SshInvalidUserEnum => Says(e, "invalid user")
    case RateLimitAbuse(statuses) => Answered(e, statuses)
  }

  /** The events at which a rule may report. */
  ghost predicate Decides(kind: Kind, e: LogEvent) {
    if kind.BruteForceSuccess? then
      GotIn(e, kind.successStatuses) && !FailedLogin(e, kind.statuses, kind.matchPaths)
    else Counts(kind, e)
  }

  lemma ContainsIsSays(e: LogEvent, phrase: string)
    requires phrase != []
    ensures Contains(TextOr(e.message), phrase) <==> Says(e, phrase)
  {
    if e.message.Some? {
      var text := e.message.value;
      if i :| 0 <= i <= |text| && phrase <= text[i..] {
        assert text == text[..i] + phrase + text[i + |phrase|..];
        assert e.message == Some(text[..i] + phrase + text[i + |phrase|..]);
      }
      if before: string, after: string :| e.message == Some(before + phrase + after) {
        assert text[|before|..] == phrase + after;
      }
    }
  }

  lemma PrefixIsUnder(e: LogEvent, prefixes: seq<string>)
    ensures prefixes == [] || StartsWithAny(TextOr(e.path), prefixes) <==> Under(e, prefixes)
  {
    var path := TextOr(e.path);
    if i :| 0 <= i < |prefixes| && prefixes[i] <= path {
      assert prefixes[i] in prefixes && path[..|prefixes[i]|] == prefixes[i];
    }
    if p :| p in prefixes && |p| <= |path| && path[..|p|] == p {
      var i :| 0 <= i < |prefixes| && prefixes[i] == p;
      assert prefixes[i] <= path;
    }
  }

  lemma SameEventsCount(kind: Kind, e: LogEvent)
    ensures Records(kind, e) <==> Counts(kind, e)
    ensures Probes(kind, e) <==> Decides(kind, e)
  {
    hide Contains, Says, StartsWithAny, Under;
    ContainsIsSays(e, "Failed password");
    ContainsIsSays(e, "Accepted password");
    ContainsIsSays(e, "invalid user");
    match kind
    case BruteForce(_, prefixes) => PrefixIsUnder(e, prefixes);
    case BruteForceSuccess(_, _, prefixes) => PrefixIsUnder(e, prefixes);
    case ScannerBurst(_, prefixes) => PrefixIsUnder(e, prefixes);
    case _ =>
  }

  // ---------------------------------------------------------------------------
  // When a rule reports
  // ---------------------------------------------------------------------------

  /** The k-th event counts for what the rule decides at the i-th. */
  ghost predicate InReach(rule: Rule, xs: seq<LogEvent>, i: nat, k: nat)
    requires i < |xs|
  {
    && k <= i && xs[k].ip == xs[i].ip && Counts(rule.kind, xs[k])
    && xs[i].timestamp - xs[k].timestamp <= rule.windowSeconds * 1_000_000
  }

  /** The i-th event has an address and may decide, and `ks` are enough events within reach of it:
      with pairwise different paths for a scanner burst, users for an enumeration, and simply
      different events for the other rules. */
  ghost predicate Shows(rule: Rule, xs: seq<LogEvent>, i: nat, ks: seq<nat>)
    requires i < |xs|
  {
    && xs[i].ip != None && Decides(rule.kind, xs[i])
    && |ks| >= rule.threshold && (forall a | 0 <= a < |ks| :: InReach(rule, xs, i, ks[a]))
    && match rule.kind
       case ScannerBurst(_, _) =>
         && (forall a | 0 <= a < |ks| :: xs[ks[a]].path != None && xs[ks[a]].path != Some(""))
         && (forall a, b | 0 <= a < b < |ks| :: xs[ks[a]].path != xs[ks[b]].path)
       case SshInvalidUserEnum =>
         && (forall a | 0 <= a < |ks| :: xs[ks[a]].user != None && xs[ks[a]].user != Some(""))
         && (forall a, b | 0 <= a < b < |ks| :: xs[ks[a]].user != xs[ks[b]].user)
       case _ => forall a, b | 0 <= a < b < |ks| :: ks[a] != ks[b]
  }

  ghost predicate Shown(rule: Rule, xs: seq<LogEvent>, i: nat)
    requires i < |xs|
  {
    exists ks :: Shows(rule, xs, i, ks)
  }

  /** The first event of its address at which enough is shown. */
  ghost predicate ShownFirst(rule: Rule, xs: seq<LogEvent>, i: nat)
    requires i < |xs|
  {
    Shown(rule, xs, i) && forall j | 0 <= j < i && xs[j].ip == xs[i].ip :: !Shown(rule, xs, j)
  }

  // The window of the program, and the places in it -------------------------------

  lemma ReachIsWindow(rule: Rule, xs: seq<LogEvent>, i: nat, k: nat)
    requires i < |xs|
    ensures InReach(rule, xs, i, k) <==> k < |xs[..i + 1]| && InWindowOf(rule, xs[i])(xs[..i + 1][k])
  {
    hide Records, Counts;
    if k <= i {
      SameEventsCount(rule.kind, xs[k]);
    }
  }

  lemma ReachAll(rule: Rule, xs: seq<LogEvent>, i: nat, ks: seq<nat>)
    requires i < |xs|
    ensures (forall a | 0 <= a < |ks| :: InReach(rule, xs, i, ks[a]))
       <==> PassAt(InWindowOf(rule, xs[i]), xs[..i + 1], ks)
  {
    hide InReach, InWindowOf;
    forall a | 0 <= a < |ks|
      ensures InReach(rule, xs, i, ks[a]) <==> ks[a] < |xs[..i + 1]| && InWindowOf(rule, xs[i])(xs[..i + 1][ks[a]])
    {
      ReachIsWindow(rule, xs, i, ks[a]);
    }
  }

  function PathText(e: LogEvent): string {
    TextOr(e.path)
  }

  function UserText(e: LogEvent): string {
    TextOr(e.user)
  }

  /** In the window, and with some text there. */
  function InWindowWith(rule: Rule, e: LogEvent, text: LogEvent -> string): LogEvent -> bool {
    (f: LogEvent) => InWindowOf(rule, e)(f) && text(f) != ""
  }

  lemma PassWith(rule: Rule, xs: seq<LogEvent>, i: nat, text: LogEvent -> string, ks: seq<nat>)
    requires i < |xs|
    ensures PassAt(InWindowWith(rule, xs[i], text), xs[..i + 1], ks)
        <==> PassAt(InWindowOf(rule, xs[i]), xs[..i + 1], ks)
             && forall a | 0 <= a < |ks| :: ks[a] < |xs[..i + 1]| && text(xs[..i + 1][ks[a]]) != ""
  {
    hide InWindowOf;
  }

  lemma PathsShown(rule: Rule, xs: seq<LogEvent>, i: nat)
    requires i < |xs| && xs[i].ip.Some? && Decides(rule.kind, xs[i]) && rule.kind.ScannerBurst?
    ensures |DistinctPaths(Window(rule, xs, i))| >= rule.threshold <==> Shown(rule, xs, i)
  {
    hide Filter, InWindowOf, InReach, Decides;
    var ys, p := xs[..i + 1], InWindowWith(rule, xs[i], PathText);
    FilterMembers(InWindowOf(rule, xs[i]), ys);
    forall v
      ensures v in DistinctPaths(Window(rule, xs, i)) <==> exists e :: e in ys && p(e) && PathText(e) == v
    {
      if v in DistinctPaths(Window(rule, xs, i)) {
        var e :| e in Window(rule, xs, i) && e.path.Some? && e.path.value != "" && e.path.value == v;
        assert e in ys && p(e) && PathText(e) == v;
      }
      if e :| e in ys && p(e) && PathText(e) == v {
        assert e in Window(rule, xs, i) && e.path.Some? && e.path.value != "" && e.path.value == v;
      }
    }
    ManyValues(p, ys, PathText, DistinctPaths(Window(rule, xs, i)), rule.threshold);
    forall ks: seq<nat>
      ensures Shows(rule, xs, i, ks) <==> |ks| >= rule.threshold && PassAt(p, ys, ks) && DifferAt(PathText, ys, ks)
    {
      PathsAt(rule, xs, i, ks);
    }
  }

  lemma PathsAt(rule: Rule, xs: seq<LogEvent>, i: nat, ks: seq<nat>)
    requires i < |xs| && xs[i].ip.Some? && Decides(rule.kind, xs[i]) && rule.kind.ScannerBurst?
    ensures var ys, p := xs[..i + 1], InWindowWith(rule, xs[i], PathText);
            Shows(rule, xs, i, ks) <==> |ks| >= rule.threshold && PassAt(p, ys, ks) && DifferAt(PathText, ys, ks)
  {
    hide InWindowOf, Decides, InWindowWith, Counts;
    ReachAll(rule, xs, i, ks);
    PassWith(rule, xs, i, PathText, ks);
    assert forall a | 0 <= a < |ks| && ks[a] <= i :: xs[..i + 1][ks[a]] == xs[ks[a]];
  }

  lemma UsersShown(rule: Rule, xs: seq<LogEvent>, i: nat)
    requires i < |xs| && xs[i].ip.Some? && Decides(rule.kind, xs[i]) && rule.kind.SshInvalidUserEnum?
    ensures |DistinctUsers(Window(rule, xs, i))| >= rule.threshold <==> Shown(rule, xs, i)
  {
    hide Filter, InWindowOf, InReach, Decides;
    var ys, p := xs[..i + 1], InWindowWith(rule, xs[i], UserText);
    FilterMembers(InWindowOf(rule, xs[i]), ys);
    forall v
      ensures v in DistinctUsers(Window(rule, xs, i)) <==> exists e :: e in ys && p(e) && UserText(e) == v
    {
      if v in DistinctUsers(Window(rule, xs, i)) {
        var e :| e in Window(rule, xs, i) && e.user.Some? && e.user.value != "" && e.user.value == v;
        assert e in ys && p(e) && UserText(e) == v;
      }
      if e :| e in ys && p(e) && UserText(e) == v {
        assert e in Window(rule, xs, i) && e.user.Some? && e.user.value != "" && e.user.value == v;
      }
    }
    ManyValues(p, ys, UserText, DistinctUsers(Window(rule, xs, i)), rule.threshold);
    forall ks: seq<nat>
      ensures Shows(rule, xs, i, ks) <==> |ks| >= rule.threshold && PassAt(p, ys, ks) && DifferAt(UserText, ys, ks)
    {
      UsersAt(rule, xs, i, ks);
    }
  }

  lemma UsersAt(rule: Rule, xs: seq<LogEvent>, i: nat, ks: seq<nat>)
    requires i < |xs| && xs[i].ip.Some? && Decides(rule.kind, xs[i]) && rule.kind.SshInvalidUserEnum?
    ensures var ys, p := xs[..i + 1], InWindowWith(rule, xs[i], UserText);
            Shows(rule, xs, i, ks) <==> |ks| >= rule.threshold && PassAt(p, ys, ks) && DifferAt(UserText, ys, ks)
  {
    hide InWindowOf, Decides, InWindowWith, Counts;
    ReachAll(rule, xs, i, ks);
    PassWith(rule, xs, i, UserText, ks);
    assert forall a | 0 <= a < |ks| && ks[a] <= i :: xs[..i + 1][ks[a]] == xs[ks[a]];
  }

  lemma EventsShown(rule: Rule, xs: seq<LogEvent>, i: nat)
    requires i < |xs| && xs[i].ip.Some? && Decides(rule.kind, xs[i])
    requires !rule.kind.ScannerBurst? && !rule.kind.SshInvalidUserEnum?
    ensures |Window(rule, xs, i)| >= rule.threshold <==> Shown(rule, xs, i)
  {
    hide Filter, InWindowOf, InReach, Decides;
    var ys, p := xs[..i + 1], InWindowOf(rule, xs[i]);
    ManyPass(p, ys, rule.threshold);
    forall ks: seq<nat>
      ensures Shows(rule, xs, i, ks) <==> |ks| >= rule.threshold && PassAt(p, ys, ks) && AllDifferent(ks)
    {
      ReachAll(rule, xs, i, ks);
    }
  }

  /** The program's test is the statement's. */
  lemma TriggersIffShown(rule: Rule, xs: seq<LogEvent>, i: nat)
    requires i < |xs|
    ensures Triggers(rule, xs, i) <==> Shown(rule, xs, i)
  {
    hide Window, DistinctPaths, DistinctUsers, Records, Probes, Decides;
    SameEventsCount(rule.kind, xs[i]);
    if xs[i].ip.Some? && Decides(rule.kind, xs[i]) {
      if rule.kind.ScannerBurst? {
        PathsShown(rule, xs, i);
      } else if rule.kind.SshInvalidUserEnum? {
        UsersShown(rule, xs, i);
      } else {
        EventsShown(rule, xs, i);
      }
    }
  }

  lemma FirstTriggerIffShownFirst(rule: Rule, xs: seq<LogEvent>, i: nat)
    requires i < |xs|
    ensures FirstTrigger(rule, xs, i) <==> ShownFirst(rule, xs, i)
  {
    hide Triggers, Shown;
    forall j: nat | j <= i
      ensures Triggers(rule, xs, j) <==> Shown(rule, xs, j)
      ensures Triggers(rule, xs, j) ==> xs[j].ip.Some?
    {
      TriggersIffShown(rule, xs, j);
      if Shown(rule, xs, j) {
        ShownHasIp(rule, xs, j);
      }
    }
  }

  lemma ShownHasIp(rule: Rule, xs: seq<LogEvent>, i: nat)
    requires i < |xs| && Shown(rule, xs, i)
    ensures xs[i].ip.Some?
  {
  }

  // ---------------------------------------------------------------------------
  // What a rule reports
  // ---------------------------------------------------------------------------

  /** `ks` are all the events within reach of the i-th, in order. */
  ghost predicate AllInReach(rule: Rule, xs: seq<LogEvent>, i: nat, ks: seq<nat>)
    requires i < |xs|
  {
    Increasing(ks) && forall k: nat :: k in ks <==> InReach(rule, xs, i, k)
  }

  /** The finding tells of the events `ks`, and of the i-th too where that is the success after them. */
  ghost predicate Tells(rule: Rule, xs: seq<LogEvent>, i: nat, ks: seq<nat>, f: Finding)
    requires i < |xs| && forall a | 0 <= a < |ks| :: ks[a] < |xs|
  {
    var told := if rule.kind.BruteForceSuccess? then ks + [i] else ks;
    && ks != []
    && f.ruleId == rule.ruleId && f.severity == rule.severity && f.ip == xs[i].ip && f.correlatedRuleIds == {}
    && f.firstSeen == xs[ks[0]].timestamp && f.lastSeen == xs[i].timestamp
    && f.count == |told| == |f.evidence|
    && (forall a | 0 <= a < |told| :: f.evidence[a] == Evidence(xs[told[a]].file, xs[told[a]].lineNo))
    && (forall u :: u in f.users <==>
          rule.kind.SshInvalidUserEnum? && u != "" && exists a | 0 <= a < |ks| :: xs[ks[a]].user == Some(u))
  }

  ghost predicate ToldAt(rule: Rule, xs: seq<LogEvent>, i: nat, f: Finding) {
    && i < |xs|
    && exists ks :: AllInReach(rule, xs, i, ks) && (forall a | 0 <= a < |ks| :: ks[a] < |xs|)
                    && Tells(rule, xs, i, ks, f)
  }

  lemma ReachListed(rule: Rule, xs: seq<LogEvent>, i: nat) returns (ks: seq<nat>)
    requires i < |xs|
    ensures AllInReach(rule, xs, i, ks)
    ensures var w := Window(rule, xs, i);
            |ks| == |w| && forall a | 0 <= a < |ks| :: ks[a] < |xs| && w[a] == xs[ks[a]]
  {
    hide Filter, InReach, InWindowOf;
    ks := Places(InWindowOf(rule, xs[i]), xs[..i + 1]);
    FilterByPlaces(InWindowOf(rule, xs[i]), xs[..i + 1]);
    forall k: nat
      ensures k in ks <==> InReach(rule, xs, i, k)
    {
      ReachIsWindow(rule, xs, i, k);
    }
  }

  lemma BuiltTells(rule: Rule, xs: seq<LogEvent>, i: nat, ks: seq<nat>, w: seq<LogEvent>)
    requires i < |xs| && xs[i].ip.Some? && w != []
    requires |ks| == |w| && forall a | 0 <= a < |ks| :: ks[a] < |xs| && w[a] == xs[ks[a]]
    requires !rule.kind.BruteForceSuccess? ==> w[|w| - 1] == xs[i]
    ensures Tells(rule, xs, i, ks, BuildFinding(rule, xs[i].ip.value, w, xs[i]))
  {
    hide DistinctUsers;
    forall u
      ensures u in DistinctUsers(w) <==> u != "" && exists a | 0 <= a < |ks| :: xs[ks[a]].user == Some(u)
    {
      UsersOfWindow(w, u);
      assert forall a | 0 <= a < |ks| :: w[a] == xs[ks[a]];
    }
  }

  lemma TriggerIsTold(rule: Rule, xs: seq<LogEvent>, i: nat)
    requires i < |xs| && Triggers(rule, xs, i) && Window(rule, xs, i) != []
    ensures ToldAt(rule, xs, i, FindingAt(rule, xs, i))
  {
    hide AllInReach, Window, Tells, Records, Probes, Level;
    var ks := ReachListed(rule, xs, i);
    if !rule.kind.BruteForceSuccess? {
      TriggerEndsWindow(rule, xs, i);
    }
    BuiltTells(rule, xs, i, ks, Window(rule, xs, i));
  }

  lemma UsersOfWindow(w: seq<LogEvent>, u: string)
    ensures u in DistinctUsers(w) <==> u != "" && exists a | 0 <= a < |w| :: w[a].user == Some(u)
  {
    if a :| 0 <= a < |w| && w[a].user == Some(u) {
      assert w[a] in w;
    }
  }

  /** Exactly what a rule reports of any ordered events: one finding for each first event of an
      address at which enough is shown, in their order, telling of all the events within reach. */
  lemma FindingsAreExact(rule: Rule, xs: seq<LogEvent>) returns (at: seq<nat>)
    requires OrderedPerIp(xs) && !RaisesIn(rule, FRESH, xs)
    ensures ToldInOrder(rule, xs, |xs|, at, Run(rule, FRESH, xs).1)
  {
    hide Run, RaisesIn, ToldInOrder, EmptyTrigger, Declared;
    assert xs[..|xs|] == xs;
    RunMeetsDeclaration(rule, xs, |xs|);
    RaisesExactly(rule, xs, |xs|);
    at := DeclaredAt(rule, xs, |xs|);
  }

  /** The findings are those at the places `at`, which are all the first ones before `n`. */
  ghost predicate ToldInOrder(rule: Rule, xs: seq<LogEvent>, n: nat, at: seq<nat>, found: seq<Finding>)
    requires n <= |xs|
  {
    && Increasing(at) && (forall i: nat :: i in at <==> i < n && ShownFirst(rule, xs, i))
    && |found| == |at| && forall j | 0 <= j < |at| :: ToldAt(rule, xs, at[j], found[j])
  }

  lemma NotToldHere(rule: Rule, xs: seq<LogEvent>, n: nat, at: seq<nat>, found: seq<Finding>)
    requires n < |xs| && ToldInOrder(rule, xs, n, at, found) && !ShownFirst(rule, xs, n)
    ensures ToldInOrder(rule, xs, n + 1, at, found)
  {
    hide ShownFirst, ToldAt;
  }

  lemma ToldHere(rule: Rule, xs: seq<LogEvent>, n: nat, at: seq<nat>, found: seq<Finding>, f: Finding)
    requires n < |xs| && ToldInOrder(rule, xs, n, at, found) && ShownFirst(rule, xs, n) && ToldAt(rule, xs, n, f)
    ensures ToldInOrder(rule, xs, n + 1, at + [n], found + [f])
  {
    hide ShownFirst, ToldAt;
    forall j | 0 <= j < |at|
      ensures at[j] < n
    {
      assert at[j] in at;
    }
  }

  lemma {:induction false} DeclaredAt(rule: Rule, xs: seq<LogEvent>, n: nat) returns (at: seq<nat>)
    requires n <= |xs| && !EmptyTrigger(rule, xs, n)
    ensures ToldInOrder(rule, xs, n, at, Declared(rule, xs, n))
  {
    hide FirstTrigger, ShownFirst, Window, ToldAt, ToldInOrder, EmptyTrigger, FindingAt;
    if n == 0 {
      at := [];
      NothingTold(rule, xs);
    } else {
      OneMoreTrigger(rule, xs, n - 1);
      at := DeclaredAt(rule, xs, n - 1);
      FirstTriggerIffShownFirst(rule, xs, n - 1);
      if FirstTrigger(rule, xs, n - 1) {
        FirstTriggerTriggers(rule, xs, n - 1);
        TriggerIsTold(rule, xs, n - 1);
        ToldHere(rule, xs, n - 1, at, Declared(rule, xs, n - 1), FindingAt(rule, xs, n - 1));
        at := at + [n - 1];
      } else {
        NotToldHere(rule, xs, n - 1, at, Declared(rule, xs, n - 1));
      }
    }
  }

  lemma NothingTold(rule: Rule, xs: seq<LogEvent>)
    ensures ToldInOrder(rule, xs, 0, [], Declared(rule, xs, 0))
  {
  }

  lemma FirstTriggerTriggers(rule: Rule, xs: seq<LogEvent>, i: nat)
    requires i < |xs| && FirstTrigger(rule, xs, i)
    ensures Triggers(rule, xs, i)
  {
  }

  /** An address is reported iff some event of it shows enough, and never twice. */
  lemma ReportedIffShown(rule: Rule, xs: seq<LogEvent>, ip: string)
    requires OrderedPerIp(xs) && !RaisesIn(rule, FRESH, xs)
    ensures ReportsIp(Run(rule, FRESH, xs).1, ip) <==>
            exists i | 0 <= i < |xs| :: xs[i].ip == Some(ip) && Shown(rule, xs, i)
    ensures DistinctIps(Run(rule, FRESH, xs).1)
  {
    hide Run, RaisesIn, Shown, Triggers, OrderedPerIp;
    DetectorMeetsStatement(rule, xs);
    forall i | 0 <= i < |xs|
      ensures Triggers(rule, xs, i) <==> Shown(rule, xs, i)
    {
      TriggersIffShown(rule, xs, i);
    }
  }

  /** When a counting rule reports, the events within reach show the threshold and never more. */
  lemma NeverMoreThanThreshold(rule: Rule, xs: seq<LogEvent>, i: nat, ks: seq<nat>)
    requires OrderedPerIp(xs) && i < |xs| && ShownFirst(rule, xs, i)
    requires rule.threshold >= 1 && !rule.kind.BruteForceSuccess?
    requires Shows(rule, xs, i, ks)
    ensures |ks| == rule.threshold
  {
    FirstTriggerIffShownFirst(rule, xs, i);
    DecidingLevelIsThreshold(rule, xs, i);
    var stricter: Rule := rule.(threshold := rule.threshold + 1);
    hide Level, InReach, Decides, Shows;
    FilterAgree(InWindowOf(stricter, xs[i]), InWindowOf(rule, xs[i]), xs[..i + 1]);
    TriggersIffShown(stricter, xs, i);
    if |ks| > rule.threshold {
      StricterShows(rule, stricter, xs, i, ks);
    }
    StrictEnough(rule, xs, i, ks);
  }

  lemma StrictEnough(rule: Rule, xs: seq<LogEvent>, i: nat, ks: seq<nat>)
    requires i < |xs| && Shows(rule, xs, i, ks)
    ensures |ks| >= rule.threshold
  {
  }

  lemma StricterShows(rule: Rule, stricter: Rule, xs: seq<LogEvent>, i: nat, ks: seq<nat>)
    requires i < |xs| && Shows(rule, xs, i, ks)
    requires stricter == rule.(threshold := stricter.threshold) && |ks| >= stricter.threshold
    ensures Shown(stricter, xs, i)
  {
    hide Decides, Counts;
    assert Shows(stricter, xs, i, ks);
  }

  /** The success rule raises iff the first success of some address that shows enough, which takes a
      threshold of zero or less, has no failure within reach. */
  lemma RaisesIffNothingInReach(rule: Rule, xs: seq<LogEvent>)
    requires OrderedPerIp(xs)
    ensures RaisesIn(rule, FRESH, xs) <==>
            exists i | 0 <= i < |xs| :: ShownFirst(rule, xs, i) && forall k: nat :: !InReach(rule, xs, i, k)
  {
    hide RaisesIn, ShownFirst, FirstTrigger, Window, InReach, OrderedPerIp;
    assert xs[..|xs|] == xs;
    RaisesExactly(rule, xs, |xs|);
    forall i | 0 <= i < |xs|
      ensures FirstTrigger(rule, xs, i) <==> ShownFirst(rule, xs, i)
      ensures Window(rule, xs, i) == [] <==> forall k: nat :: !InReach(rule, xs, i, k)
    {
      FirstTriggerIffShownFirst(rule, xs, i);
      NothingInReach(rule, xs, i);
    }
  }

  lemma NothingInReach(rule: Rule, xs: seq<LogEvent>, i: nat)
    requires i < |xs|
    ensures Window(rule, xs, i) == [] <==> forall k: nat :: !InReach(rule, xs, i, k)
  {
    hide Window, InReach;
    var ks := ReachListed(rule, xs, i);
    if ks != [] {
      assert ks[0] in ks;
    }
  }
}
