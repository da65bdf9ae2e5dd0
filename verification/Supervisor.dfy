/** Extractor supervision: request threads starting and cancelling runs, one monitor thread a
    run, and shutdown, as atomic steps that may interleave in any order the lock allows. */
module Supervisor {
  import opened Wrappers

  datatype Status = Running | Success | Failed

  datatype Proc = NotSpawned | Alive | Exited(code: int)

  /** How far start_extractor got with a run. */
  datatype Stage = Inserted | Spawned | Counted | Registered | Threaded

  /** Where the run's monitor thread is. */
  datatype Monitor = Idle | Reading | Deciding | Metering(verdict: Status) | Updating(verdict: Status) | Popping | Ended

  /** status is the extractor_runs row; returncode is what poll or wait last stored on the
      Popen object; metered is the result the monitor counted; cancels counts the cancel calls that returned True; disturbed is a history
      variable, set once a cancel, the shutdown or an exception in the monitor cut in. */
  datatype Run = Run(provider: string, status: Status, proc: Proc, returncode: Option<int>,
                     stage: Stage, monitor: Monitor, metered: Option<Status>, cancels: nat, disturbed: bool)

  /** Who holds _process_lock across steps. */
  datatype Lock =
    | Free
    | Cancelling(run: nat, waited: bool, updated: bool)
    | ShuttingDown(pending: set<nat>, current: Option<nat>)

  /** The extractor_run_total counters of one provider. */
  datatype Counters = Counters(running: nat, success: nat, failed: nat)

  datatype State = State(runs: map<nat, Run>, registry: set<nat>, lock: Lock,
                         shutdown: bool, totals: map<string, Counters>)

  const EMPTY := State(map[], {}, Free, false, map[])

  function Totals(s: State, provider: string): Counters {
    if provider in s.totals then s.totals[provider] else Counters(0, 0, 0)
  }

  datatype Event =
    // start_extractor: insert the row, spawn, count, register, start the thread
    | StartInsert(run: nat, provider: string)
    | StartSpawn(run: nat)
    | StartCount(run: nat)
    | StartRegister(run: nat)
    | StartThread(run: nat)
    // the process itself
    | Exits(run: nat, code: int)
    // monitor
    | MonitorPolls(run: nat)
    | MonitorSeesShutdown(run: nat)
    | MonitorRaises(run: nat)
    | MonitorDecides(run: nat)
    | MonitorMeters(run: nat, counts: bool)
    | MonitorUpdates(run: nat)
    | MonitorPops(run: nat)
    // cancel_run
    | CancelLocks(run: nat)
    | CancelWaits
    | CancelUpdates
    | CancelReturns
    // shutdown_all
    | ShutdownSets
    | ShutdownLocks
    | ShutdownWaits(run: nat, raises: bool)
    | ShutdownUpdates(raises: bool)
    | ShutdownUnlocks
    | ShutdownClears

  ghost predicate MonitorAt(s: State, run: nat, m: Monitor) {
    run in s.runs && s.runs[run].monitor == m
  }

  ghost predicate StageAt(s: State, run: nat, stage: Stage) {
    run in s.runs && s.runs[run].stage == stage
  }

  ghost predicate Enabled(s: State, e: Event) {
    match e
    case StartInsert(r, _) => r !in s.runs
    case StartSpawn(r) => StageAt(s, r, Inserted)
    case StartCount(r) => StageAt(s, r, Spawned)
    case StartRegister(r) => StageAt(s, r, Counted) && s.lock == Free
    case StartThread(r) => StageAt(s, r, Registered)
    case Exits(r, _) => r in s.runs && s.runs[r].proc == Alive
    case MonitorPolls(r) => MonitorAt(s, r, Reading) && s.runs[r].proc.Exited?
    case MonitorSeesShutdown(r) => MonitorAt(s, r, Reading) && s.shutdown
    case MonitorRaises(r) => MonitorAt(s, r, Reading) || MonitorAt(s, r, Deciding)
    case MonitorDecides(r) => MonitorAt(s, r, Deciding)
    case MonitorMeters(r, _) => r in s.runs && s.runs[r].monitor.Metering?
    case MonitorUpdates(r) => r in s.runs && s.runs[r].monitor.Updating?
    case MonitorPops(r) => MonitorAt(s, r, Popping) && s.lock == Free
    case CancelLocks(r) => s.lock == Free && r in s.registry
    case CancelWaits => s.lock.Cancelling? && !s.lock.waited && s.lock.run in s.runs && s.runs[s.lock.run].proc.Exited?
    case CancelUpdates => s.lock.Cancelling? && s.lock.waited && !s.lock.updated && s.lock.run in s.runs
    case CancelReturns => s.lock.Cancelling? && s.lock.updated && s.lock.run in s.runs
    case ShutdownSets => true
    case ShutdownLocks => s.lock == Free && s.shutdown
    case ShutdownWaits(r, raises) =>
      s.lock.ShuttingDown? && s.lock.current == None && r in s.lock.pending && r in s.runs
      && (raises || s.runs[r].proc.Exited?)
    case ShutdownUpdates(_) => s.lock.ShuttingDown? && s.lock.current.Some? && s.lock.current.value in s.runs
    case ShutdownUnlocks => s.lock.ShuttingDown? && s.lock.current == None && s.lock.pending == {}
    case ShutdownClears => s.shutdown
  }

  function SetRun(s: State, r: nat, run: Run): State {
    s.(runs := s.runs[r := run])
  }

  /** wait() or poll() on an exited process stores its exit code. */
  function Polled(run: Run): Run {
    if run.proc.Exited? then run.(returncode := Some(run.proc.code)) else run
  }

  ghost function Step(s: State, e: Event): State
    requires Enabled(s, e)
  {
    match e
    case StartInsert(r, p) => SetRun(s, r, Run(p, Running, NotSpawned, None, Inserted, Idle, None, 0, false))
    case StartSpawn(r) => SetRun(s, r, s.runs[r].(proc := Alive, stage := Spawned))
    case StartCount(r) =>
      var p := s.runs[r].provider;
      var c := Totals(s, p);
      SetRun(s.(totals := s.totals[p := c.(running := c.running + 1)]), r, s.runs[r].(stage := Counted))
    case StartRegister(r) => SetRun(s.(registry := s.registry + {r}), r, s.runs[r].(stage := Registered))
    case StartThread(r) => SetRun(s, r, s.runs[r].(stage := Threaded, monitor := Reading))
    case Exits(r, code) => SetRun(s, r, s.runs[r].(proc := Exited(code)))
    case MonitorPolls(r) => SetRun(s, r, Polled(s.runs[r]).(monitor := Deciding))
    case MonitorSeesShutdown(r) => SetRun(s, r, s.runs[r].(monitor := Deciding, disturbed := true))
    case MonitorRaises(r) => SetRun(s, r, s.runs[r].(monitor := Updating(Failed), disturbed := true))
    case MonitorDecides(r) =>
      SetRun(s, r, s.runs[r].(monitor := Metering(if s.runs[r].returncode == Some(0) then Success else Failed)))
    case MonitorMeters(r, counts) =>
      var run := s.runs[r];
      var s' := SetRun(s, r, run.(monitor := Updating(run.monitor.verdict), metered := if counts then Some(run.monitor.verdict) else None));
      var c := Totals(s, run.provider);
      if !counts then s'
      else s'.(totals := s.totals[run.provider :=
             if run.monitor.verdict == Success then c.(success := c.success + 1) else c.(failed := c.failed + 1)])
    case MonitorUpdates(r) => SetRun(s, r, s.runs[r].(status := s.runs[r].monitor.verdict, monitor := Popping))
    case MonitorPops(r) => SetRun(s.(registry := s.registry - {r}), r, s.runs[r].(monitor := Ended))
    case CancelLocks(r) => s.(lock := Cancelling(r, false, false))
    case CancelWaits => SetRun(s, s.lock.run, Polled(s.runs[s.lock.run])).(lock := s.lock.(waited := true))
    case CancelUpdates => SetRun(s, s.lock.run, s.runs[s.lock.run].(status := Failed, disturbed := true)).(lock := s.lock.(updated := true))
    case CancelReturns =>
      var r := s.lock.run;
      SetRun(s.(registry := s.registry - {r}, lock := Free), r, s.runs[r].(cancels := s.runs[r].cancels + 1))
    case ShutdownSets => s.(shutdown := true)
    case ShutdownLocks => s.(lock := ShuttingDown(s.registry, None))
    case ShutdownWaits(r, raises) =>
      SetRun(s, r, if raises then s.runs[r] else Polled(s.runs[r]))
        .(lock := ShuttingDown(s.lock.pending - {r}, Some(r)))
    case ShutdownUpdates(raises) =>
      var r := s.lock.current.value;
      SetRun(s, r, if raises then s.runs[r] else s.runs[r].(status := Failed, disturbed := true)).(lock := s.lock.(current := None))
    case ShutdownUnlocks => s.(lock := Free)
    case ShutdownClears => s.(registry := {})
  }

  ghost predicate Runs(s: State, es: seq<Event>)
    decreases |es|
  {
    es == [] || (Enabled(s, es[0]) && Runs(Step(s, es[0]), es[1..]))
  }

  ghost function After(s: State, es: seq<Event>): State
    requires Runs(s, es)
    decreases |es|
  {
    if es == [] then s else After(Step(s, es[0]), es[1..])
  }
}
