/** The domain values shared by detectors, correlation and the pipelines. */
module Models {

  datatype Option<+T> = None | Some(value: T)

  /** Instants are whole microseconds, the resolution of Python's `datetime`. */
  type Instant = int

  function Seconds(n: int): int {
    n * 1_000_000
  }

  datatype LogSource = Web | Auth

  datatype LogEvent = LogEvent(
    source: LogSource,
    file: string,
    lineNo: nat,
    timestamp: Instant,
    ip: Option<string>,
    user: Option<string>,
    path: Option<string>,
    status: Option<int>,
    message: Option<string>)

  datatype ParseFailure = ParseFailure(file: string, lineNo: nat)

  datatype Evidence = Evidence(file: string, lineNo: nat)

  /** A finding without its random id and without the text derived from the other fields.
      The tuples the program keeps sorted (`users`, `correlated_rule_ids`) are sets. */
  datatype Finding = Finding(
    ruleId: string,
    severity: int,
    ip: Option<string>,
    users: set<string>,
    firstSeen: Instant,
    lastSeen: Instant,
    count: int,
    evidence: seq<Evidence>,
    correlatedRuleIds: set<string>)

  function TimestampOf(e: LogEvent): int {
    e.timestamp
  }

  function FirstSeenOf(f: Finding): int {
    f.firstSeen
  }

  function EvidenceOf(events: seq<LogEvent>): seq<Evidence> {
    seq(|events|, i requires 0 <= i < |events| => Evidence(events[i].file, events[i].lineNo))
  }

  /** `event.message or ""`, `event.path or ""`. */
  function TextOr(text: Option<string>): string {
    if text.Some? then text.value else ""
  }

  /** Python's `needle in text`. */
  predicate Contains(text: string, needle: string) {
    exists i | 0 <= i <= |text| :: needle <= text[i..]
  }

  /** Python's `any(text.startswith(p) for p in prefixes)`. */
  predicate StartsWithAny(text: string, prefixes: seq<string>) {
    exists i | 0 <= i < |prefixes| :: prefixes[i] <= text
  }

  ghost predicate ReportsIp(found: seq<Finding>, ip: string) {
    exists f :: f in found && f.ip == Some(ip)
  }

  /** The events a rule configured for `source` receives; `None` means every source. */
  function MatchesSource(source: Option<LogSource>): LogEvent -> bool {
    (e: LogEvent) => source.None? || e.source == source.value
  }
}
