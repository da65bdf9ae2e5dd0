/** Safety of the supervision protocol over every interleaving. */
module SupervisorSafety {
  import opened Wrappers
  import opened Supervisor

  /** What holds of one run, given the registry and the lock. */
  ghost predicate RunOk(run: Run, registered: bool, cancelling: bool, waited: bool) {
    && (registered ==> run.stage.Registered? || run.stage.Threaded?)
    && (cancelling ==> (run.stage.Registered? || run.stage.Threaded?) && run.cancels == 0)
    && (waited ==> run.proc.Exited?)
    && (run.monitor != Idle <==> run.stage == Threaded)
    && (run.proc == NotSpawned <==> run.stage == Inserted)
    && (run.returncode.Some? ==> run.proc == Exited(run.returncode.value))
    && ((run.monitor.Metering? || run.monitor.Updating?) ==>
         run.monitor.verdict != Running && (run.monitor.verdict == Success ==> run.proc == Exited(0)))
    && (run.status == Success ==> run.proc == Exited(0))
    && (run.monitor == Deciding && !run.disturbed ==> run.returncode.Some?)
    && ((run.status == Failed || ((run.monitor.Metering? || run.monitor.Updating?) && run.monitor.verdict == Failed)) ==>
         run.disturbed || (run.proc.Exited? && run.proc.code != 0))
    && ((run.monitor == Popping || run.monitor == Ended) ==> run.status != Running)
    && (run.monitor == Ended ==> !registered)
    && (run.cancels > 0 ==> run.cancels == 1 && !registered && run.proc.Exited? && run.stage != Inserted
                            && run.stage != Spawned && run.stage != Counted)
    && (run.metered.Some? ==>
         && (run.monitor.Updating? || run.monitor == Popping || run.monitor == Ended)
         && (if run.metered == Some(Success) then run.proc == Exited(0)
             else run.metered == Some(Failed) && (run.disturbed || (run.proc.Exited? && run.proc.code != 0))))
  }

  ghost predicate Cancelled(s: State, r: nat) {
    s.lock.Cancelling? && s.lock.run == r
  }

  ghost predicate Inv(s: State) {
    && s.registry <= s.runs.Keys
    && (forall r :: r in s.runs ==>
          RunOk(s.runs[r], r in s.registry, Cancelled(s, r), Cancelled(s, r) && s.lock.waited))
    && (s.lock.Cancelling? ==> s.lock.run in s.runs && (s.lock.updated ==> s.lock.waited))
    && (forall p :: TotalsOk(s, p))
  }

  /** Runs of a provider that start_extractor counted. */
  ghost function CountedRuns(s: State, p: string): set<nat> {
    set r | r in s.runs && s.runs[r].provider == p && s.runs[r].stage != Inserted && s.runs[r].stage != Spawned
  }

  /** Runs of a provider for which the monitor counted this result. */
  ghost function MeteredRuns(s: State, p: string, result: Status): set<nat> {
    set r | r in s.runs && s.runs[r].provider == p && s.runs[r].metered == Some(result)
  }

  ghost predicate TotalsOk(s: State, p: string) {
    && Totals(s, p).running == |CountedRuns(s, p)|
    && Totals(s, p).success == |MeteredRuns(s, p, Success)|
    && Totals(s, p).failed == |MeteredRuns(s, p, Failed)|
  }

  ghost predicate RunOkIn(s: State, r: nat)
    requires r in s.runs
  {
    RunOk(s.runs[r], r in s.registry, Cancelled(s, r), Cancelled(s, r) && s.lock.waited)
  }

  ghost predicate OfStart(e: Event) {
    e.StartInsert? || e.StartSpawn? || e.StartCount? || e.StartRegister? || e.StartThread? || e.Exits?
  }

  ghost predicate OfMonitor(e: Event) {
    e.MonitorPolls? || e.MonitorSeesShutdown? || e.MonitorRaises? || e.MonitorDecides?
    || e.MonitorMeters? || e.MonitorUpdates? || e.MonitorPops?
  }

  /** The monitor steps before the outcome is decided. */
  ghost predicate OfMonitorReading(e: Event) {
    e.MonitorPolls? || e.MonitorSeesShutdown? || e.MonitorRaises?
  }

  ghost predicate OfCancel(e: Event) {
    e.CancelLocks? || e.CancelWaits? || e.CancelUpdates? || e.CancelReturns?
  }

  ghost predicate OfShutdown(e: Event) {
    !OfStart(e) && !OfMonitor(e) && !OfCancel(e)
  }

  lemma StartKeeps(s: State, e: Event, r: nat)
    requires Inv(s) && Enabled(s, e) && OfStart(e) && r in Step(s, e).runs
    ensures RunOkIn(Step(s, e), r)
  {
    if r in s.runs { assert RunOkIn(s, r); }
  }

  lemma MonitorKeeps(s: State, e: Event, r: nat)
    requires Inv(s) && Enabled(s, e) && OfMonitor(e) && r in Step(s, e).runs
    ensures RunOkIn(Step(s, e), r)
  {
    if OfMonitorReading(e) { ReadingKeeps(s, e, r); } else { OutcomeKeeps(s, e, r); }
  }

  lemma ReadingKeeps(s: State, e: Event, r: nat)
    requires Inv(s) && Enabled(s, e) && OfMonitorReading(e) && r in Step(s, e).runs
    ensures RunOkIn(Step(s, e), r)
  {
    assert RunOkIn(s, r);
  }

  lemma OutcomeKeeps(s: State, e: Event, r: nat)
    requires Inv(s) && Enabled(s, e) && OfMonitor(e) && !OfMonitorReading(e) && r in Step(s, e).runs
    ensures RunOkIn(Step(s, e), r)
  {
    if e.MonitorDecides? || e.MonitorMeters? { VerdictKeeps(s, e, r); } else { WriteKeeps(s, e, r); }
  }

  lemma VerdictKeeps(s: State, e: Event, r: nat)
    requires Inv(s) && Enabled(s, e) && (e.MonitorDecides? || e.MonitorMeters?) && r in Step(s, e).runs
    ensures RunOkIn(Step(s, e), r)
  {
    assert RunOkIn(s, r);
  }

  lemma WriteKeeps(s: State, e: Event, r: nat)
    requires Inv(s) && Enabled(s, e) && (e.MonitorUpdates? || e.MonitorPops?) && r in Step(s, e).runs
    ensures RunOkIn(Step(s, e), r)
  {
    assert RunOkIn(s, r);
  }

  lemma CancelKeeps(s: State, e: Event, r: nat)
    requires Inv(s) && Enabled(s, e) && OfCancel(e) && r in Step(s, e).runs
    ensures RunOkIn(Step(s, e), r)
  {
    assert RunOkIn(s, r);
  }

  lemma ShutdownKeeps(s: State, e: Event, r: nat)
    requires Inv(s) && Enabled(s, e) && OfShutdown(e) && r in Step(s, e).runs
    ensures RunOkIn(Step(s, e), r)
  {
    assert RunOkIn(s, r);
  }

  lemma Grows(before: set<nat>, after: set<nat>, r: nat, adds: bool)
    requires forall x :: x in after <==> x in before || (adds && x == r)
    requires adds ==> r !in before
    ensures |after| == |before| + if adds then 1 else 0
  {
    assert after == before + if adds then {r} else {};
  }

  lemma CountKeepsTotals(s: State, r: nat, p: string)
    requires TotalsOk(s, p) && StageAt(s, r, Spawned)
    ensures TotalsOk(Step(s, StartCount(r)), p)
  {
    var s' := Step(s, StartCount(r));
    var adds := s.runs[r].provider == p;
    Grows(CountedRuns(s, p), CountedRuns(s', p), r, adds);
    Grows(MeteredRuns(s, p, Success), MeteredRuns(s', p, Success), r, false);
    Grows(MeteredRuns(s, p, Failed), MeteredRuns(s', p, Failed), r, false);
  }

  lemma MeterKeepsTotals(s: State, r: nat, counts: bool, p: string)
    requires TotalsOk(s, p) && r in s.runs && s.runs[r].monitor.Metering? && s.runs[r].metered.None?
    requires s.runs[r].monitor.verdict != Running
    ensures TotalsOk(Step(s, MonitorMeters(r, counts)), p)
  {
    var s' := Step(s, MonitorMeters(r, counts));
    var adds := counts && s.runs[r].provider == p;
    var verdict := s.runs[r].monitor.verdict;
    Grows(CountedRuns(s, p), CountedRuns(s', p), r, false);
    Grows(MeteredRuns(s, p, Success), MeteredRuns(s', p, Success), r, adds && verdict == Success);
    Grows(MeteredRuns(s, p, Failed), MeteredRuns(s', p, Failed), r, adds && verdict == Failed);
  }

  ghost predicate SameShare(run: Run, run': Run) {
    run.provider == run'.provider && run.metered == run'.metered
    && (run.stage == Inserted || run.stage == Spawned <==> run'.stage == Inserted || run'.stage == Spawned)
  }

  /** r's part in the totals is the same in both states. */
  ghost predicate KeepsShare(s: State, s': State, r: nat) {
    && s'.totals == s.totals
    && (r in s.runs ==> r in s'.runs && SameShare(s.runs[r], s'.runs[r]))
    && (r !in s.runs && r in s'.runs ==> s'.runs[r].stage == Inserted && s'.runs[r].metered.None?)
  }

  lemma StartKeepsShare(s: State, e: Event, r: nat)
    requires Enabled(s, e) && OfStart(e) && !e.StartCount?
    ensures KeepsShare(s, Step(s, e), r)
  {
  }

  lemma MonitorKeepsShare(s: State, e: Event, r: nat)
    requires Enabled(s, e) && OfMonitor(e) && !e.MonitorMeters?
    ensures KeepsShare(s, Step(s, e), r)
  {
  }

  lemma CancelKeepsShare(s: State, e: Event, r: nat)
    requires Enabled(s, e) && OfCancel(e)
    ensures KeepsShare(s, Step(s, e), r)
  {
  }

  lemma ShutdownKeepsShare(s: State, e: Event, r: nat)
    requires Enabled(s, e) && OfShutdown(e)
    ensures KeepsShare(s, Step(s, e), r)
  {
  }

  lemma OthersKeepShares(s: State, e: Event, r: nat)
    requires Enabled(s, e) && !e.StartCount? && !e.MonitorMeters?
    ensures KeepsShare(s, Step(s, e), r)
  {
    if OfStart(e) { StartKeepsShare(s, e, r); }
    else if OfMonitor(e) { MonitorKeepsShare(s, e, r); }
    else if OfCancel(e) { CancelKeepsShare(s, e, r); }
    else { ShutdownKeepsShare(s, e, r); }
  }

  lemma OthersKeepTotals(s: State, e: Event, p: string)
    requires TotalsOk(s, p) && Enabled(s, e) && !e.StartCount? && !e.MonitorMeters?
    ensures TotalsOk(Step(s, e), p)
  {
    var s' := Step(s, e);
    forall r: nat
      ensures r in CountedRuns(s', p) <==> r in CountedRuns(s, p)
      ensures r in MeteredRuns(s', p, Success) <==> r in MeteredRuns(s, p, Success)
      ensures r in MeteredRuns(s', p, Failed) <==> r in MeteredRuns(s, p, Failed)
    {
      OthersKeepShares(s, e, r);
    }
    OthersKeepShares(s, e, 0);
    Grows(CountedRuns(s, p), CountedRuns(s', p), 0, false);
    Grows(MeteredRuns(s, p, Success), MeteredRuns(s', p, Success), 0, false);
    Grows(MeteredRuns(s, p, Failed), MeteredRuns(s', p, Failed), 0, false);
  }

  lemma StepKeepsTotals(s: State, e: Event, p: string)
    requires Inv(s) && Enabled(s, e)
    ensures TotalsOk(Step(s, e), p)
  {
    assert TotalsOk(s, p);
    if e.StartCount? {
      CountKeepsTotals(s, e.run, p);
    } else if e.MonitorMeters? {
      assert RunOkIn(s, e.run);
      MeterKeepsTotals(s, e.run, e.counts, p);
    } else {
      OthersKeepTotals(s, e, p);
    }
  }

  lemma StepKeepsInv(s: State, e: Event)
    requires Inv(s) && Enabled(s, e)
    ensures Inv(Step(s, e))
  {
    var s' := Step(s, e);
    forall r | r in s'.runs
      ensures RunOk(s'.runs[r], r in s'.registry, Cancelled(s', r), Cancelled(s', r) && s'.lock.waited)
    {
      if OfStart(e) { StartKeeps(s, e, r); }
      else if OfMonitor(e) { MonitorKeeps(s, e, r); }
      else if OfCancel(e) { CancelKeeps(s, e, r); }
      else { ShutdownKeeps(s, e, r); }
      assert RunOkIn(s', r);
    }
    forall p ensures TotalsOk(s', p) { StepKeepsTotals(s, e, p); }
  }

  lemma {:induction false} ReachableInv(s: State, es: seq<Event>)
    requires Inv(s) && Runs(s, es)
    ensures Inv(After(s, es))
    decreases |es|
  {
    if es == [] {
    } else {
      StepKeepsInv(s, es[0]);
      ReachableInv(Step(s, es[0]), es[1..]);
    }
  }

  lemma EmptyInv()
    ensures Inv(EMPTY)
  {
    forall p ensures TotalsOk(EMPTY, p) {
      assert CountedRuns(EMPTY, p) == {} && MeteredRuns(EMPTY, p, Success) == {} && MeteredRuns(EMPTY, p, Failed) == {};
    }
  }

  // --- What callers may rely on --------------------------------------------------------

  /** In every reachable state a success row means the process exited with code zero. */
  lemma SuccessMeansExitZero(es: seq<Event>, r: nat)
    requires Runs(EMPTY, es) && r in After(EMPTY, es).runs
    ensures var run := After(EMPTY, es).runs[r]; run.status == Success ==> run.proc == Exited(0) && Exits(r, 0) in es
  {
    EmptyInv();
    ReachableInv(EMPTY, es);
    assert RunOkIn(After(EMPTY, es), r);
    if After(EMPTY, es).runs[r].status == Success { ExitedOnce(es, r, 0); }
  }

  /** Of all cancel calls for a run at most one returns True, only once the process has
      exited, and the run is out of the registry from then on. */
  lemma CancelTrueAtMostOnce(es: seq<Event>, r: nat)
    requires Runs(EMPTY, es) && r in After(EMPTY, es).runs
    ensures var s := After(EMPTY, es);
      s.runs[r].cancels <= 1 && (s.runs[r].cancels == 1 ==> s.runs[r].proc.Exited? && r !in s.registry)
  {
    EmptyInv();
    ReachableInv(EMPTY, es);
    assert RunOkIn(After(EMPTY, es), r);
  }

  /** Runs of a provider that start_extractor got past the spawn. */
  ghost function StartedRuns(s: State, p: string): set<nat> {
    set r | r in s.runs && s.runs[r].provider == p && s.runs[r].proc != NotSpawned
  }

  /** Runs of a provider whose process exited with zero. */
  ghost function CleanRuns(s: State, p: string): set<nat> {
    set r | r in s.runs && s.runs[r].provider == p && s.runs[r].proc == Exited(0)
  }

  lemma SubsetSize(a: set<nat>, b: set<nat>)
    requires a <= b
    ensures |a| <= |b|
  {
    assert b == a + (b - a);
    assert |b| == |a| + |b - a|;
  }

  /** The success and failed counters of a provider never exceed its running counter, which never
      exceeds its started processes; and the success counter never exceeds its processes that
      exited with zero. */
  lemma TotalsBounded(es: seq<Event>, p: string)
    requires Runs(EMPTY, es)
    ensures var s := After(EMPTY, es); var c := Totals(s, p);
      && c.success + c.failed <= c.running <= |StartedRuns(s, p)|
      && c.success <= |CleanRuns(s, p)|
  {
    EmptyInv();
    ReachableInv(EMPTY, es);
    var s := After(EMPTY, es);
    assert TotalsOk(s, p);
    var won, lost, counted := MeteredRuns(s, p, Success), MeteredRuns(s, p, Failed), CountedRuns(s, p);
    forall r: nat ensures MeteredCounted(s, p, r) { MeteredAreCounted(s, p, r); }
    TwoParts(won, lost, counted);
    SubsetSize(counted, StartedRuns(s, p));
    SubsetSize(won, CleanRuns(s, p));
  }

  lemma TwoParts(a: set<nat>, b: set<nat>, whole: set<nat>)
    requires a <= whole && b <= whole && a !! b
    ensures |a| + |b| <= |whole|
  {
    assert |a + b| == |a| + |b|;
    SubsetSize(a + b, whole);
  }

  ghost predicate MeteredCounted(s: State, p: string, r: nat) {
    && (r in MeteredRuns(s, p, Success) || r in MeteredRuns(s, p, Failed) ==> r in CountedRuns(s, p))
    && (r in CountedRuns(s, p) ==> r in StartedRuns(s, p))
    && (r in MeteredRuns(s, p, Success) ==> r in CleanRuns(s, p))
  }

  lemma MeteredAreCounted(s: State, p: string, r: nat)
    requires Inv(s)
    ensures MeteredCounted(s, p, r)
  {
    if r in s.runs { assert RunOkIn(s, r); }
  }

  /** The exact counters: one success or failed a run whose monitor counted that result. */
  lemma TotalsExact(es: seq<Event>, p: string)
    requires Runs(EMPTY, es)
    ensures var s := After(EMPTY, es); var c := Totals(s, p);
      c.success == |MeteredRuns(s, p, Success)| && c.failed == |MeteredRuns(s, p, Failed)|
  {
    EmptyInv();
    ReachableInv(EMPTY, es);
    assert TotalsOk(After(EMPTY, es), p);
  }

  // --- From the events ---------------------------------------------------------------------

  lemma {:induction false} RunsSplit(s: State, es: seq<Event>)
    requires Runs(s, es) && es != []
    ensures var prev := es[..|es| - 1];
      Runs(s, prev) && Enabled(After(s, prev), es[|es| - 1]) && After(s, es) == Step(After(s, prev), es[|es| - 1])
    decreases |es|
  {
    if |es| == 1 {
    } else {
      RunsSplit(Step(s, es[0]), es[1..]);
      assert es[1..][..|es| - 2] == es[..|es| - 1][1..];
    }
  }

  lemma ProcStep(s: State, e: Event, r: nat, code: int)
    requires Enabled(s, e) && r in Step(s, e).runs && Step(s, e).runs[r].proc == Exited(code)
    ensures e == Exits(r, code) || (r in s.runs && s.runs[r].proc == Exited(code))
  {
  }

  /** An exit code in the state is one the process exited with. */
  lemma {:induction false} ExitedOnce(es: seq<Event>, r: nat, code: int)
    requires Runs(EMPTY, es) && r in After(EMPTY, es).runs && After(EMPTY, es).runs[r].proc == Exited(code)
    ensures Exits(r, code) in es
  {
    if es == [] {
    } else {
      var n := |es| - 1;
      RunsSplit(EMPTY, es);
      ProcStep(After(EMPTY, es[..n]), es[n], r, code);
      if es[n] != Exits(r, code) {
        ExitedOnce(es[..n], r, code);
        assert Exits(r, code) in es[..n];
      }
    }
  }

  /** The registry was cleared after the run was put there. */
  ghost predicate ClearedSince(es: seq<Event>, r: nat) {
    exists i, j :: 0 <= i < j < |es| && es[i] == StartRegister(r) && es[j] == ShutdownClears
  }

  lemma ClearedMore(es: seq<Event>, r: nat)
    requires es != []
    ensures var n := |es| - 1;
      ClearedSince(es, r) <==> ClearedSince(es[..n], r) || (es[n] == ShutdownClears && StartRegister(r) in es[..n])
  {
    var n := |es| - 1;
    if ClearedSince(es[..n], r) {
      var i, j :| 0 <= i < j < n && es[..n][i] == StartRegister(r) && es[..n][j] == ShutdownClears;
      assert es[i] == StartRegister(r) && es[j] == ShutdownClears;
    }
    if ClearedSince(es, r) {
      var i, j :| 0 <= i < j < |es| && es[i] == StartRegister(r) && es[j] == ShutdownClears;
      assert es[..n][i] == StartRegister(r);
      assert j < n ==> es[..n][j] == ShutdownClears;
    }
    if StartRegister(r) in es[..n] {
      var i :| 0 <= i < n && es[..n][i] == StartRegister(r);
      assert es[i] == StartRegister(r);
    }
  }

  /** Started far enough to be registered, and neither its monitor nor a cancel is done. */
  ghost predicate Active(s: State, r: nat) {
    r in s.runs && (s.runs[r].stage == Registered || s.runs[r].stage == Threaded)
    && s.runs[r].monitor != Ended && s.runs[r].cancels == 0
  }

  lemma StageStep(s: State, e: Event, r: nat)
    requires Enabled(s, e)
    ensures (StageAt(Step(s, e), r, Registered) || StageAt(Step(s, e), r, Threaded)) <==>
      e == StartRegister(r) || StageAt(s, r, Registered) || StageAt(s, r, Threaded)
  {
    if !OfStart(e) { OthersKeepStage(s, e, r); }
  }

  lemma OthersKeepStage(s: State, e: Event, r: nat)
    requires Enabled(s, e) && !OfStart(e)
    ensures r in Step(s, e).runs <==> r in s.runs
    ensures r in s.runs ==> Step(s, e).runs[r].stage == s.runs[r].stage
  {
  }

  lemma {:induction false} StageFromEvent(es: seq<Event>, r: nat)
    requires Runs(EMPTY, es)
    ensures var s := After(EMPTY, es);
      StageAt(s, r, Registered) || StageAt(s, r, Threaded) <==> StartRegister(r) in es
  {
    if es == [] {
    } else {
      var n := |es| - 1;
      RunsSplit(EMPTY, es);
      StageFromEvent(es[..n], r);
      StageStep(After(EMPTY, es[..n]), es[n], r);
      assert es == es[..n] + [es[n]];
    }
  }

  /** One step takes an active run out of the registry only by clearing it all, and puts none
      back that was cleared. */
  lemma ActiveStep(s: State, e: Event, r: nat)
    requires Inv(s) && Enabled(s, e) && Active(Step(s, e), r)
    ensures r in Step(s, e).registry <==> e == StartRegister(r) || (r in s.registry && e != ShutdownClears)
    ensures Active(s, r) || e == StartRegister(r)
    ensures e == StartRegister(r) ==> StageAt(s, r, Counted)
  {
    RegistryStep(s, e, r);
    StageStep(s, e, r);
    if r in s.runs {
      assert RunOkIn(s, r);
      StepKeepsEnded(s, e, r);
      CancelsStep(s, e, r);
    }
  }

  ghost predicate CancelReturnsOf(s: State, e: Event, r: nat) {
    e == CancelReturns && s.lock.Cancelling? && s.lock.run == r
  }

  lemma RegistryStep(s: State, e: Event, r: nat)
    requires Enabled(s, e)
    ensures r in Step(s, e).registry <==>
      e == StartRegister(r)
      || (r in s.registry && e != ShutdownClears && e != MonitorPops(r) && !CancelReturnsOf(s, e, r))
  {
  }

  lemma CancelsStep(s: State, e: Event, r: nat)
    requires Enabled(s, e) && r in s.runs
    ensures r in Step(s, e).runs
    ensures Step(s, e).runs[r].cancels == s.runs[r].cancels + if CancelReturnsOf(s, e, r) then 1 else 0
  {
    if OfStart(e) { CancelsKept(s, e, r); } else if OfMonitor(e) { CancelsKept(s, e, r); }
  }

  lemma CancelsKept(s: State, e: Event, r: nat)
    requires Enabled(s, e) && r in s.runs && (OfStart(e) || OfMonitor(e))
    ensures r in Step(s, e).runs && Step(s, e).runs[r].cancels == s.runs[r].cancels
  {
  }

  lemma {:induction false} ActiveRegisteredIff(es: seq<Event>, r: nat)
    requires Runs(EMPTY, es) && Active(After(EMPTY, es), r)
    ensures r in After(EMPTY, es).registry <==> !ClearedSince(es, r)
  {
    if es == [] {
    } else {
      var n := |es| - 1;
      var prev, e := es[..n], es[n];
      RunsSplit(EMPTY, es);
      EmptyInv();
      ReachableInv(EMPTY, prev);
      ActiveStep(After(EMPTY, prev), e, r);
      ClearedMore(es, r);
      StageFromEvent(prev, r);
      if e == StartRegister(r) {
        NotCleared(prev, r);
      } else {
        ActiveRegisteredIff(prev, r);
      }
    }
  }

  lemma NotCleared(es: seq<Event>, r: nat)
    requires StartRegister(r) !in es
    ensures !ClearedSince(es, r)
  {
  }

  /** Over every interleaving a run is in the registry exactly when it was registered, its monitor
      has not ended, no cancel of it returned True, and the shutdown has not cleared the registry
      since; then a cancel gets hold of it whenever the lock is free. */
  lemma RegisteredIff(es: seq<Event>, r: nat)
    requires Runs(EMPTY, es)
    ensures var s := After(EMPTY, es);
      && (r in s.registry <==>
           StartRegister(r) in es && !MonitorAt(s, r, Ended) && r in s.runs && s.runs[r].cancels == 0 && !ClearedSince(es, r))
      && (r in s.registry && s.lock == Free ==> Enabled(s, CancelLocks(r)))
  {
    var s := After(EMPTY, es);
    EmptyInv();
    ReachableInv(EMPTY, es);
    StageFromEvent(es, r);
    if r in s.registry { assert RunOkIn(s, r); }
    if Active(s, r) { ActiveRegisteredIff(es, r); }
  }

  // --- What the shutdown does --------------------------------------------------------------

  /** Some event of es is the shutdown's write of failed to this run, done or raising. */
  ghost predicate ShutdownWrites(s: State, es: seq<Event>, r: nat)
    requires Runs(s, es)
    decreases |es|
  {
    es != [] &&
    (|| (s.lock.ShuttingDown? && s.lock.current == Some(r) && es[0] == ShutdownUpdates(true))
     || (s.lock.ShuttingDown? && s.lock.current == Some(r) && es[0] == ShutdownUpdates(false)
         && r in Step(s, es[0]).runs && Step(s, es[0]).runs[r].status == Failed)
     || ShutdownWrites(Step(s, es[0]), es[1..], r))
  }

  lemma ShutdownStep(s: State, e: Event, r: nat)
    requires Enabled(s, e) && s.lock.ShuttingDown? && Targeted(s, r)
    ensures (Step(s, e).lock.ShuttingDown? && Targeted(Step(s, e), r))
         || (s.lock.current == Some(r) && e == ShutdownUpdates(true))
         || (s.lock.current == Some(r) && e == ShutdownUpdates(false)
             && r in Step(s, e).runs && Step(s, e).runs[r].status == Failed)
  {
  }

  lemma {:induction false} ShutdownReaches(s: State, es: seq<Event>, r: nat)
    requires Runs(s, es) && s.lock.ShuttingDown? && Targeted(s, r) && !After(s, es).lock.ShuttingDown?
    ensures ShutdownWrites(s, es, r)
    decreases |es|
  {
    if es == [] {
    } else {
      ShutdownStep(s, es[0], r);
      if Step(s, es[0]).lock.ShuttingDown? && Targeted(Step(s, es[0]), r) {
        ShutdownReaches(Step(s, es[0]), es[1..], r);
      }
    }
  }

  /** Whatever interleaves, from the moment the shutdown takes the lock until it lets it go every
      run that was registered then gets its row written failed, unless that write raises. */
  lemma ShutdownVisitsAll(s: State, es: seq<Event>, r: nat)
    requires Enabled(s, ShutdownLocks) && Runs(Step(s, ShutdownLocks), es) && r in s.registry
    requires After(Step(s, ShutdownLocks), es).lock == Free
    ensures ShutdownWrites(Step(s, ShutdownLocks), es, r)
  {
    ShutdownReaches(Step(s, ShutdownLocks), es, r);
  }

  // --- Who wrote the status last -----------------------------------------------------------

  /** A cancel or the shutdown holds the lock and is not done with this run. */
  ghost predicate Targeted(s: State, r: nat) {
    match s.lock
    case Free => false
    case Cancelling(run, _, _) => run == r
    case ShuttingDown(pending, current) => r in pending || current == Some(r)
  }

  /** A monitor pops its run under the lock, so no cancel or shutdown still has it in hand. */
  ghost predicate TargetsLive(s: State) {
    forall r :: Targeted(s, r) ==> !MonitorAt(s, r, Ended) && (StageAt(s, r, Registered) || StageAt(s, r, Threaded))
  }

  /** Only its own monitor's steps move a started monitor. */
  lemma OthersKeepMonitor(s: State, e: Event, r: nat)
    requires Enabled(s, e) && r in s.runs && !OfMonitor(e) && e != StartThread(r)
    ensures r in Step(s, e).runs && Step(s, e).runs[r].monitor == s.runs[r].monitor
  {
  }

  lemma OwnStepsMove(s: State, e: Event, r: nat)
    requires Enabled(s, e) && r in s.runs && OfMonitor(e)
    ensures r in Step(s, e).runs
    ensures e.run != r ==> Step(s, e).runs[r].monitor == s.runs[r].monitor
    ensures e.run == r ==> !MonitorAt(s, r, Ended) && (MonitorAt(s, r, Popping) <==> e == MonitorPops(r))
    ensures e == MonitorPops(r) <==> e.run == r && MonitorAt(Step(s, e), r, Ended)
  {
  }

  lemma StepKeepsEnded(s: State, e: Event, r: nat)
    requires Inv(s) && Enabled(s, e) && r in s.runs
    ensures r in Step(s, e).runs
    ensures MonitorAt(Step(s, e), r, Ended) <==> MonitorAt(s, r, Ended) || e == MonitorPops(r)
  {
    assert RunOkIn(s, r);
    if OfMonitor(e) { OwnStepsMove(s, e, r); }
    else if e != StartThread(r) { OthersKeepMonitor(s, e, r); }
  }

  lemma StepTargets(s: State, e: Event, r: nat)
    requires Enabled(s, e) && Targeted(Step(s, e), r)
    ensures Targeted(s, r) || r in s.registry
    ensures !e.MonitorPops?
  {
  }

  lemma StepKeepsTargets(s: State, e: Event)
    requires Inv(s) && TargetsLive(s) && Enabled(s, e)
    ensures TargetsLive(Step(s, e))
  {
    var s' := Step(s, e);
    forall r | Targeted(s', r)
      ensures !MonitorAt(s', r, Ended) && (StageAt(s', r, Registered) || StageAt(s', r, Threaded))
    {
      StepTargets(s, e, r);
      assert RunOkIn(s, r);
      StepKeepsEnded(s, e, r);
      StageStep(s, e, r);
    }
  }

  /** A cancel or the shutdown writes its failed into the row. */
  ghost predicate Overwrites(s: State, e: Event, r: nat) {
    || (e == CancelUpdates && s.lock.Cancelling? && s.lock.run == r)
    || (e == ShutdownUpdates(false) && s.lock.ShuttingDown? && s.lock.current == Some(r))
  }

  ghost predicate Overwritten(s: State, es: seq<Event>, r: nat)
    requires Runs(s, es)
    decreases |es|
  {
    es != [] && (Overwrites(s, es[0], r) || Overwritten(Step(s, es[0]), es[1..], r))
  }

  ghost predicate Disturbed(s: State, r: nat) {
    r in s.runs && s.runs[r].disturbed
  }

  lemma DisturbedStep(s: State, e: Event, r: nat)
    requires Enabled(s, e)
    ensures Disturbed(Step(s, e), r) <==>
      Disturbed(s, r) || e == MonitorSeesShutdown(r) || e == MonitorRaises(r) || Overwrites(s, e, r)
  {
    if OfStart(e) || OfMonitor(e) { OwnDisturbs(s, e, r); }
  }

  lemma OwnDisturbs(s: State, e: Event, r: nat)
    requires Enabled(s, e) && (OfStart(e) || OfMonitor(e))
    ensures Disturbed(Step(s, e), r) <==> Disturbed(s, r) || e == MonitorSeesShutdown(r) || e == MonitorRaises(r)
  {
  }

  /** A cancel or the shutdown wrote to the row, or the shutdown or an exception cut the run's
      monitor short. */
  lemma {:induction false} DisturbedIff(s: State, es: seq<Event>, r: nat)
    requires Runs(s, es)
    ensures Disturbed(After(s, es), r) <==>
      Disturbed(s, r) || MonitorSeesShutdown(r) in es || MonitorRaises(r) in es || Overwritten(s, es, r)
    decreases |es|
  {
    if es == [] {
    } else {
      DisturbedStep(s, es[0], r);
      DisturbedIff(Step(s, es[0]), es[1..], r);
      assert es == [es[0]] + es[1..];
    }
  }

  /** A failed row means the process exited with another code than zero, unless a cancel or the
      shutdown wrote to the row, or the shutdown or an exception cut the monitor short. */
  lemma FailedMeansExitNonZero(es: seq<Event>, r: nat)
    requires Runs(EMPTY, es) && r in After(EMPTY, es).runs && After(EMPTY, es).runs[r].status == Failed
    requires MonitorSeesShutdown(r) !in es && MonitorRaises(r) !in es && !Overwritten(EMPTY, es, r)
    ensures var run := After(EMPTY, es).runs[r];
      run.proc.Exited? && run.proc.code != 0 && Exits(r, run.proc.code) in es
  {
    EmptyInv();
    ReachableInv(EMPTY, es);
    DisturbedIff(EMPTY, es, r);
    assert RunOkIn(After(EMPTY, es), r);
    ExitedOnce(es, r, After(EMPTY, es).runs[r].proc.code);
  }

  lemma OwnRowWritten(s: State, e: Event, r: nat)
    requires Enabled(s, e) && r in s.runs && e != MonitorUpdates(r) && (OfStart(e) || OfMonitor(e))
    ensures r in Step(s, e).runs && Step(s, e).runs[r].status == s.runs[r].status
  {
  }

  lemma StatusStep(s: State, e: Event, r: nat)
    requires Enabled(s, e) && r in s.runs && e != MonitorUpdates(r)
    ensures r in Step(s, e).runs
    ensures Step(s, e).runs[r].status == if Overwrites(s, e, r) then Failed else s.runs[r].status
  {
    if OfStart(e) || OfMonitor(e) { OwnRowWritten(s, e, r); }
  }

  /** The monitor has written its verdict. */
  ghost predicate Wrote(s: State, r: nat) {
    MonitorAt(s, r, Popping) || MonitorAt(s, r, Ended)
  }

  lemma StepKeepsWrote(s: State, e: Event, r: nat)
    requires Inv(s) && Enabled(s, e) && Wrote(s, r)
    ensures Wrote(Step(s, e), r) && e != MonitorUpdates(r)
  {
    assert RunOkIn(s, r);
    StepKeepsEnded(s, e, r);
    if OfMonitor(e) { OwnStepsMove(s, e, r); }
    else if e != StartThread(r) { OthersKeepMonitor(s, e, r); }
  }

  lemma {:induction false} StatusAfterWrote(s: State, es: seq<Event>, r: nat)
    requires Inv(s) && Runs(s, es) && Wrote(s, r)
    ensures Wrote(After(s, es), r)
    ensures After(s, es).runs[r].status == if Overwritten(s, es, r) then Failed else s.runs[r].status
    decreases |es|
  {
    if es == [] {
    } else {
      StepKeepsWrote(s, es[0], r);
      StatusStep(s, es[0], r);
      StepKeepsInv(s, es[0]);
      StatusAfterWrote(Step(s, es[0]), es[1..], r);
    }
  }

  /** Over every interleaving, once the monitor has written, the row holds failed if a cancel or
      the shutdown wrote after it, and the monitor's verdict otherwise; what they wrote before it
      leaves no trace, so a run whose cancel returned True may still end in success. */
  lemma LastWriter(s: State, r: nat, es: seq<Event>)
    requires Inv(s) && Enabled(s, MonitorUpdates(r)) && Runs(Step(s, MonitorUpdates(r)), es)
    ensures var s1 := Step(s, MonitorUpdates(r)); var s' := After(s1, es);
      r in s'.runs && s'.runs[r].status == if Overwritten(s1, es, r) then Failed else s.runs[r].monitor.verdict
  {
    StepKeepsInv(s, MonitorUpdates(r));
    StatusAfterWrote(Step(s, MonitorUpdates(r)), es, r);
  }

  /** Until the monitor writes, the row holds failed if a cancel or the shutdown wrote. */
  lemma {:induction false} StatusBeforeMonitor(s: State, es: seq<Event>, r: nat)
    requires Runs(s, es) && r in s.runs && MonitorUpdates(r) !in es
    ensures r in After(s, es).runs
    ensures After(s, es).runs[r].status == if Overwritten(s, es, r) then Failed else s.runs[r].status
    decreases |es|
  {
    if es == [] {
    } else {
      StatusStep(s, es[0], r);
      StatusBeforeMonitor(Step(s, es[0]), es[1..], r);
    }
  }

  lemma EndedNotOverwritten(s: State, e: Event, r: nat)
    requires TargetsLive(s) && Enabled(s, e) && MonitorAt(s, r, Ended)
    ensures !Overwrites(s, e, r)
  {
    assert Overwrites(s, e, r) ==> Targeted(s, r);
  }

  /** Once a run's monitor has ended, then whatever happens next the run is not in the
      registry, and its status is terminal and never changes. */
  lemma {:induction false} EndedForGood(s: State, es: seq<Event>, r: nat)
    requires Inv(s) && TargetsLive(s) && Runs(s, es) && MonitorAt(s, r, Ended)
    ensures var s' := After(s, es);
      && MonitorAt(s', r, Ended) && r !in s'.registry
      && s'.runs[r].status != Running && s'.runs[r].status == s.runs[r].status
    decreases |es|
  {
    assert RunOkIn(s, r);
    if es == [] {
    } else {
      StepKeepsEnded(s, es[0], r);
      EndedNotOverwritten(s, es[0], r);
      StepKeepsWrote(s, es[0], r);
      StatusStep(s, es[0], r);
      StepKeepsInv(s, es[0]);
      StepKeepsTargets(s, es[0]);
      EndedForGood(Step(s, es[0]), es[1..], r);
    }
  }

  lemma {:induction false} ReachableTargets(s: State, es: seq<Event>)
    requires Inv(s) && TargetsLive(s) && Runs(s, es)
    ensures TargetsLive(After(s, es))
    decreases |es|
  {
    if es == [] {
    } else {
      StepKeepsInv(s, es[0]);
      StepKeepsTargets(s, es[0]);
      ReachableTargets(Step(s, es[0]), es[1..]);
    }
  }

  lemma Prepend(s: State, e: Event, es: seq<Event>)
    requires Enabled(s, e) && Runs(Step(s, e), es)
    ensures Runs(s, [e] + es) && After(s, [e] + es) == After(Step(s, e), es)
  {
    assert ([e] + es)[1..] == es;
  }

  lemma CancelSteps(s: State, r: nat) returns (s1: State, s2: State, s3: State, s4: State)
    requires s.lock == Free && r in s.registry && r in s.runs && s.runs[r].proc.Exited?
    ensures Enabled(s, CancelLocks(r)) && Step(s, CancelLocks(r)) == s1
    ensures Enabled(s1, CancelWaits) && Step(s1, CancelWaits) == s2
    ensures Enabled(s2, CancelUpdates) && Step(s2, CancelUpdates) == s3
    ensures Enabled(s3, CancelReturns) && Step(s3, CancelReturns) == s4
    ensures r in s4.runs && s4.runs[r] == Polled(s.runs[r]).(status := Failed, cancels := s.runs[r].cancels + 1, disturbed := true)
  {
    s1 := Step(s, CancelLocks(r));
    s2 := Step(s1, CancelWaits);
    s3 := Step(s2, CancelUpdates);
    s4 := Step(s3, CancelReturns);
  }

  /** Both outcomes of a True cancel occur for a process that exited with zero: if nothing else
      comes after the four steps of the cancel the row holds failed, and if the monitor's
      come next it holds success. */
  lemma CancelEitherWay(s: State, r: nat) returns (es: seq<Event>, fs: seq<Event>)
    requires s.lock == Free && r in s.registry && MonitorAt(s, r, Reading) && s.runs[r].proc == Exited(0)
    ensures es == [CancelLocks(r), CancelWaits, CancelUpdates, CancelReturns] && Runs(s, es)
    ensures r in After(s, es).runs && After(s, es).runs[r].status == Failed
         && After(s, es).runs[r].cancels == s.runs[r].cancels + 1
    ensures fs == [MonitorPolls(r), MonitorDecides(r), MonitorMeters(r, true), MonitorUpdates(r)]
    ensures Runs(After(s, es), fs)
    ensures r in After(After(s, es), fs).runs && After(After(s, es), fs).runs[r].status == Success
         && After(After(s, es), fs).runs[r].cancels == s.runs[r].cancels + 1
  {
    var s1, s2, s3, s4 := CancelSteps(s, r);
    assert [CancelReturns] + [] == [CancelReturns];
    Prepend(s3, CancelReturns, []);
    Prepend(s2, CancelUpdates, [CancelReturns]);
    Prepend(s1, CancelWaits, [CancelUpdates] + [CancelReturns]);
    Prepend(s, CancelLocks(r), [CancelWaits] + ([CancelUpdates] + [CancelReturns]));
    es := [CancelLocks(r)] + ([CancelWaits] + ([CancelUpdates] + [CancelReturns]));
    fs := MonitorSucceeds(s4, r);
  }

  lemma MonitorSucceeds(s: State, r: nat) returns (fs: seq<Event>)
    requires MonitorAt(s, r, Reading) && s.runs[r].proc == Exited(0)
    ensures fs == [MonitorPolls(r), MonitorDecides(r), MonitorMeters(r, true), MonitorUpdates(r)] && Runs(s, fs)
    ensures r in After(s, fs).runs && After(s, fs).runs[r].status == Success
         && After(s, fs).runs[r].cancels == s.runs[r].cancels
  {
    var s1, s2, s3, s4 := MonitorSteps(s, r);
    assert [MonitorUpdates(r)] + [] == [MonitorUpdates(r)];
    Prepend(s3, MonitorUpdates(r), []);
    Prepend(s2, MonitorMeters(r, true), [MonitorUpdates(r)]);
    Prepend(s1, MonitorDecides(r), [MonitorMeters(r, true)] + [MonitorUpdates(r)]);
    Prepend(s, MonitorPolls(r), [MonitorDecides(r)] + ([MonitorMeters(r, true)] + [MonitorUpdates(r)]));
    fs := [MonitorPolls(r)] + ([MonitorDecides(r)] + ([MonitorMeters(r, true)] + [MonitorUpdates(r)]));
  }

  lemma MonitorSteps(s: State, r: nat) returns (s1: State, s2: State, s3: State, s4: State)
    requires MonitorAt(s, r, Reading) && s.runs[r].proc == Exited(0)
    ensures Enabled(s, MonitorPolls(r)) && Step(s, MonitorPolls(r)) == s1
    ensures Enabled(s1, MonitorDecides(r)) && Step(s1, MonitorDecides(r)) == s2
    ensures Enabled(s2, MonitorMeters(r, true)) && Step(s2, MonitorMeters(r, true)) == s3
    ensures Enabled(s3, MonitorUpdates(r)) && Step(s3, MonitorUpdates(r)) == s4
    ensures r in s4.runs && s4.runs[r].status == Success && s4.runs[r].cancels == s.runs[r].cancels
  {
    s1 := Step(s, MonitorPolls(r));
    s2 := Step(s1, MonitorDecides(r));
    s3 := Step(s2, MonitorMeters(r, true));
    s4 := Step(s3, MonitorUpdates(r));
  }

  // --- Nobody is stuck ---------------------------------------------------------------------

  /** While the lock is free, the monitor of a run whose process has exited can always go on. */
  lemma MonitorNotStuck(s: State, r: nat)
    requires Inv(s) && s.lock == Free && StageAt(s, r, Threaded) && s.runs[r].proc.Exited?
    ensures MonitorAt(s, r, Ended)
         || Enabled(s, MonitorPolls(r)) || Enabled(s, MonitorDecides(r)) || Enabled(s, MonitorMeters(r, true))
         || Enabled(s, MonitorUpdates(r)) || Enabled(s, MonitorPops(r))
  {
    assert RunOkIn(s, r);
  }

  /** The lock holder waits for a process of a run it has in hand that is still alive. */
  ghost predicate WaitsForLive(s: State) {
    exists r :: Targeted(s, r) && r in s.runs && s.runs[r].proc == Alive
  }

  ghost predicate CancelCanGo(s: State) {
    Enabled(s, CancelWaits) || Enabled(s, CancelUpdates) || Enabled(s, CancelReturns)
  }

  ghost predicate ShutdownCanGo(s: State) {
    (exists r :: Enabled(s, ShutdownWaits(r, false))) || Enabled(s, ShutdownUpdates(false)) || Enabled(s, ShutdownUnlocks)
  }

  /** Whoever holds the lock can go on, unless it waits for a process that is still alive. */
  lemma HolderNotStuck(s: State)
    requires Inv(s) && TargetsLive(s) && s.lock != Free
    ensures WaitsForLive(s) || CancelCanGo(s) || ShutdownCanGo(s)
  {
    if s.lock.Cancelling? {
      TargetSpawned(s, s.lock.run);
      CancelNotStuck(s);
    } else {
      forall r | Targeted(s, r) ensures r in s.runs && (s.runs[r].proc.Exited? || WaitsForLive(s)) {
        TargetSpawned(s, r);
      }
      ShutdownNotStuck(s);
    }
  }

  lemma CancelNotStuck(s: State)
    requires s.lock.Cancelling? && (s.lock.updated ==> s.lock.waited) && s.lock.run in s.runs
    requires s.runs[s.lock.run].proc.Exited? || WaitsForLive(s)
    ensures WaitsForLive(s) || CancelCanGo(s)
  {
  }

  lemma ShutdownNotStuck(s: State)
    requires s.lock.ShuttingDown?
    requires forall r :: Targeted(s, r) ==> r in s.runs && (s.runs[r].proc.Exited? || WaitsForLive(s))
    ensures WaitsForLive(s) || ShutdownCanGo(s)
  {
    if s.lock.current.Some? {
      assert Targeted(s, s.lock.current.value);
    } else if s.lock.pending != {} {
      var r :| r in s.lock.pending;
      assert Targeted(s, r);
      assert s.runs[r].proc.Exited? ==> Enabled(s, ShutdownWaits(r, false));
    }
  }

  lemma TargetSpawned(s: State, r: nat)
    requires Inv(s) && TargetsLive(s) && Targeted(s, r)
    ensures r in s.runs && (s.runs[r].proc.Exited? || WaitsForLive(s))
  {
    assert RunOkIn(s, r);
  }

  lemma {:induction false} Extend(s: State, es: seq<Event>, e: Event)
    requires Runs(s, es) && Enabled(After(s, es), e)
    ensures Runs(s, es + [e]) && After(s, es + [e]) == Step(After(s, es), e)
    decreases |es|
  {
    if es == [] {
      assert [e][1..] == [];
    } else {
      assert (es + [e])[1..] == es[1..] + [e];
      Extend(Step(s, es[0]), es[1..], e);
    }
  }

  /** From the insert of its row to the exit of its process. */
  lemma StartsNormally(p: string) returns (es: seq<Event>)
    ensures es == [StartInsert(1, p), StartSpawn(1), StartCount(1), StartRegister(1), StartThread(1), Exits(1, 0)]
    ensures Runs(EMPTY, es)
    ensures After(EMPTY, es) ==
      State(map[1 := Run(p, Running, Exited(0), None, Threaded, Reading, None, 0, false)], {1}, Free, false, map[p := Counters(1, 0, 0)])
  {
    es := [];
    Extend(EMPTY, es, StartInsert(1, p));
    es := es + [StartInsert(1, p)];
    Extend(EMPTY, es, StartSpawn(1));
    es := es + [StartSpawn(1)];
    Extend(EMPTY, es, StartCount(1));
    es := es + [StartCount(1)];
    Extend(EMPTY, es, StartRegister(1));
    es := es + [StartRegister(1)];
    Extend(EMPTY, es, StartThread(1));
    es := es + [StartThread(1)];
    Extend(EMPTY, es, Exits(1, 0));
    es := es + [Exits(1, 0)];
  }

  /** And on to the end of its monitor: a run that nothing disturbs. */
  lemma CompletesNormally(p: string) returns (es: seq<Event>)
    ensures es == [StartInsert(1, p), StartSpawn(1), StartCount(1), StartRegister(1), StartThread(1), Exits(1, 0)]
                  + [MonitorPolls(1), MonitorDecides(1), MonitorMeters(1, true), MonitorUpdates(1), MonitorPops(1)]
    ensures Runs(EMPTY, es)
    ensures After(EMPTY, es) ==
      State(map[1 := Run(p, Success, Exited(0), Some(0), Threaded, Ended, Some(Success), 0, false)], {}, Free, false, map[p := Counters(1, 1, 0)])
  {
    es := StartsNormally(p);
    Extend(EMPTY, es, MonitorPolls(1));
    es := es + [MonitorPolls(1)];
    Extend(EMPTY, es, MonitorDecides(1));
    es := es + [MonitorDecides(1)];
    Extend(EMPTY, es, MonitorMeters(1, true));
    es := es + [MonitorMeters(1, true)];
    Extend(EMPTY, es, MonitorUpdates(1));
    es := es + [MonitorUpdates(1)];
    Extend(EMPTY, es, MonitorPops(1));
    es := es + [MonitorPops(1)];
  }
}
