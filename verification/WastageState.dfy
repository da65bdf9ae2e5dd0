/** The two wastage tables as values: what each SQL statement of the scan runner does to
    them, and what one scan or one user action does to the whole state. */
module WastageState {
  import opened Wrappers
  import opened OrderStatistic

  type Time = int  // a timestamp, in clock ticks

  datatype Status = Open | Acked | Resolved | Ignored

  /** The UNIQUE (provider, resource_id, rule_id) key of resource_wastage. */
  datatype Key = Key(provider: string, resourceId: string, ruleId: string)

  /** Columns that only an INSERT writes. */
  datatype Descr = Descr(accountId: string, resourceGroup: Option<string>, region: Option<string>,
                         resourceType: string, severity: string, category: string)

  datatype Finding = Finding(findingId: string, key: Key, descr: Descr,
                             cost: real, evidence: string, tags: map<string, string>)

  datatype Row = Row(findingId: string, descr: Descr, cost: real, evidence: string,
                     tags: map<string, string>, firstSeen: Time, lastSeen: Time, status: Status)

  type Table = map<Key, Row>

  datatype RunStatus = Running | Done | Error

  datatype Run = Run(provider: string, startedAt: Time, finishedAt: Option<Time>,
                     status: RunStatus, findingsCount: Option<nat>)

  // --- Upsert -------------------------------------------------------------------

  /** finding_id is the primary key, so inserting an id another row holds raises. */
  predicate IdTaken(t: Table, id: string) {
    exists k :: k in t && t[k].findingId == id
  }

  function Upsert(t: Table, f: Finding, now: Time): Option<Table> {
    if f.key in t then
      Some(t[f.key := t[f.key].(lastSeen := now, evidence := f.evidence, cost := f.cost, tags := f.tags)])
    else if IdTaken(t, f.findingId) then
      None
    else
      Some(t[f.key := Row(f.findingId, f.descr, f.cost, f.evidence, f.tags, now, now, Open)])
  }

  /** The transaction of one scan: all upserts in order, or None if one raises. */
  function UpsertAll(t: Table, fs: seq<Finding>, now: Time): Option<Table> {
    if fs == [] then Some(t)
    else
      match UpsertAll(t, fs[..|fs| - 1], now)
      case None => None
      case Some(u) => Upsert(u, fs[|fs| - 1], now)
  }

  ghost function KeysOf(fs: seq<Finding>): set<Key> {
    set i | 0 <= i < |fs| :: fs[i].key
  }

  // --- Auto-resolve -------------------------------------------------------------

  /** started_at of the provider's done runs. */
  function DoneStarts(runs: seq<Run>, provider: string): seq<Time> {
    if runs == [] then []
    else
      (if runs[0].provider == provider && runs[0].status == Done then [runs[0].startedAt] else [])
      + DoneStarts(runs[1..], provider)
  }

  /** The row at OFFSET threshold - 1 of the provider's done runs, newest first. */
  function Cutoff(runs: seq<Run>, provider: string, threshold: int): Option<Time>
    requires threshold >= 1
  {
    var newestFirst := SortDesc(DoneStarts(runs, provider));
    if threshold <= |newestFirst| then Some(newestFirst[threshold - 1]) else None
  }

  function Stale(k: Key, r: Row, provider: string, cutoff: Time): bool {
    k.provider == provider && r.status == Open && r.lastSeen < cutoff
  }

  function ResolveStale(t: Table, provider: string, cutoff: Time): Table {
    map k | k in t :: if Stale(k, t[k], provider, cutoff) then t[k].(status := Resolved) else t[k]
  }

  /** What auto-resolve leaves in the table when no statement of it fails. */
  function AutoResolved(t: Table, runs: seq<Run>, provider: string, threshold: int): Table
    requires threshold >= 1
  {
    match Cutoff(runs, provider, threshold)
    case None => t
    case Some(cutoff) => ResolveStale(t, provider, cutoff)
  }

  // --- One scan -----------------------------------------------------------------

  /** How the auto-resolve step ends: DbError is the psycopg.Error it swallows itself, Raised
      is any other exception, which reaches run_scan's own handler. */
  datatype ResolveFault = NoFault | DbError | Raised

  datatype Faults = Faults(openFails: bool, upsertFailsAt: Option<nat>, commitFails: bool,
                           resolve: ResolveFault, closeFails: bool)

  /** A scan as the database sees it: what the rules found in order, whether the inventory
      iterator raised after that, and which statements failed. */
  datatype Scan = Scan(provider: string, found: seq<Finding>, inventoryRaises: bool,
                       threshold: int, faults: Faults, at: Time, closedAt: Time)

  /** The findings table the scan's transaction commits, or None if it is rolled back. */
  function Committed(t: Table, sc: Scan): Option<Table> {
    if sc.inventoryRaises || sc.faults.commitFails
      || (sc.faults.upsertFailsAt.Some? && sc.faults.upsertFailsAt.value < |sc.found|)
    then None
    else UpsertAll(t, sc.found, sc.at)
  }

  /** OFFSET -1 and below is an SQL error, which auto-resolve swallows. */
  predicate Resolves(sc: Scan) {
    sc.faults.resolve == NoFault && sc.threshold >= 1
  }

  function Opened(sc: Scan): Run {
    Run(sc.provider, sc.at, None, Running, None)
  }

  function Closed(sc: Scan, status: RunStatus, count: nat): Run {
    if sc.faults.closeFails then Opened(sc)
    else Run(sc.provider, sc.at, Some(sc.closedAt), status, Some(count))
  }

  /** log[i] is a history variable: the keys whose upserts run i committed. */
  datatype State = State(findings: Table, runs: seq<Run>, log: seq<set<Key>>, clock: Time)

  ghost function ScanStep(s: State, sc: Scan): State {
    if sc.faults.openFails then s.(clock := sc.closedAt)
    else
      match Committed(s.findings, sc)
      case None =>
        State(s.findings, s.runs + [Closed(sc, Error, 0)], s.log + [{}], sc.closedAt)
      case Some(t) =>
        State(if Resolves(sc) then AutoResolved(t, s.runs + [Opened(sc)], sc.provider, sc.threshold) else t,
              s.runs + [if sc.faults.resolve == Raised && sc.threshold >= 1
                        then Closed(sc, Error, 0) else Closed(sc, Done, |sc.found|)],
              s.log + [KeysOf(sc.found)],
              sc.closedAt)
  }

  // --- User actions ---------------------------------------------------------------

  function SetStatus(t: Table, id: string, status: Status, extra: map<string, string>, now: Time): Table {
    map k | k in t ::
      if t[k].findingId == id then t[k].(status := status, tags := t[k].tags + extra, lastSeen := now) else t[k]
  }

  /** The status routes; Queue is the run row the API inserts for a scan it never executes. */
  datatype Action = Ack | Resolve | Ignore(reason: string)

  datatype Event =
    | Scanned(scan: Scan)
    | Acted(findingId: string, action: Action, at: Time)
    | Queued(provider: string, at: Time)
  {
    function Start(): Time {
      match this
      case Scanned(sc) => sc.at
      case Acted(_, _, at) => at
      case Queued(_, at) => at
    }
  }

  function StatusOf(a: Action): Status {
    match a
    case Ack => Acked
    case Resolve => Resolved
    case Ignore(_) => Ignored
  }

  function ExtraTags(a: Action): map<string, string> {
    if a.Ignore? && a.reason != "" then map["ignore_reason" := a.reason] else map[]
  }

  ghost function Step(s: State, e: Event): State {
    match e
    case Scanned(sc) => ScanStep(s, sc)
    case Acted(id, a, at) => s.(findings := SetStatus(s.findings, id, StatusOf(a), ExtraTags(a), at), clock := at)
    case Queued(p, at) => State(s.findings, s.runs + [Run(p, at, None, Running, None)], s.log + [{}], at)
  }

  /** Events happen one after another on a strictly increasing clock. */
  ghost predicate Later(s: State, e: Event) {
    s.clock < e.Start() && (e.Scanned? ==> e.scan.at <= e.scan.closedAt)
  }

  ghost function After(s: State, es: seq<Event>): State
    decreases |es|
  {
    if es == [] then s else After(Step(s, es[0]), es[1..])
  }

  ghost predicate InOrder(s: State, es: seq<Event>)
    decreases |es|
  {
    es == [] || (Later(s, es[0]) && InOrder(Step(s, es[0]), es[1..]))
  }

  const EMPTY := State(map[], [], [], 0)
}
