/** What every run of scans and user actions keeps, and when auto-resolve fires. */
module WastageLifecycle {
  import opened Wrappers
  import opened OrderStatistic
  import opened WastageState
  import opened WastageUpsert

  /** Index of the last run that committed a sighting of k, or -1. */
  ghost function LastSighting(log: seq<set<Key>>, k: Key): (i: int)
    ensures -1 <= i < |log|
    ensures i >= 0 ==> k in log[i]
    ensures forall j :: i < j < |log| ==> k !in log[j]
  {
    if log == [] then -1
    else if k in log[|log| - 1] then |log| - 1 else LastSighting(log[..|log| - 1], k)
  }

  /** Done runs of k's provider that started after the last committed sighting of k. */
  ghost function Misses(s: State, k: Key): nat
    requires |s.log| == |s.runs|
  {
    |DoneStarts(s.runs[LastSighting(s.log, k) + 1..], k.provider)|
  }

  ghost predicate RunsOrdered(s: State) {
    && |s.log| == |s.runs|
    && (forall i, j :: 0 <= i < j < |s.runs| ==> s.runs[i].startedAt < s.runs[j].startedAt)
    && (forall i :: 0 <= i < |s.runs| ==> s.runs[i].startedAt <= s.clock)
  }

  ghost predicate RowsDated(s: State) {
    forall k :: k in s.findings ==> s.findings[k].firstSeen <= s.findings[k].lastSeen <= s.clock
  }

  ghost predicate IdsUnique(t: Table) {
    forall k, l :: k in t && l in t && t[k].findingId == t[l].findingId ==> k == l
  }

  /** An open row's last_seen_at is the start of the last run that committed a sighting. */
  ghost predicate OpenDatesSighting(s: State)
    requires |s.log| == |s.runs|
  {
    forall k :: k in s.findings && s.findings[k].status == Open ==>
      LastSighting(s.log, k) >= 0 && s.findings[k].lastSeen == s.runs[LastSighting(s.log, k)].startedAt
  }

  ghost predicate Inv(s: State) {
    RunsOrdered(s) && RowsDated(s) && IdsUnique(s.findings) && OpenDatesSighting(s)
  }

  // --- Counting missed runs ---------------------------------------------------------

  lemma {:induction false} DoneStartsAppend(a: seq<Run>, b: seq<Run>, p: string)
    ensures DoneStarts(a + b, p) == DoneStarts(a, p) + DoneStarts(b, p)
  {
    if a == [] {
      assert a + b == b;
    } else {
      assert (a + b)[1..] == a[1..] + b;
      DoneStartsAppend(a[1..], b, p);
    }
  }

  lemma {:induction false} CountAboveAppend(a: seq<int>, b: seq<int>, x: int)
    ensures CountAbove(a + b, x) == CountAbove(a, x) + CountAbove(b, x)
  {
    if a == [] {
      assert a + b == b;
    } else {
      assert (a + b)[1..] == a[1..] + b;
      CountAboveAppend(a[1..], b, x);
    }
  }

  lemma {:induction false} CountAllOrNone(runs: seq<Run>, p: string, x: int)
    ensures (forall i :: 0 <= i < |runs| ==> runs[i].startedAt <= x) ==> CountAbove(DoneStarts(runs, p), x) == 0
    ensures (forall i :: 0 <= i < |runs| ==> runs[i].startedAt > x)
        ==> CountAbove(DoneStarts(runs, p), x) == |DoneStarts(runs, p)|
  {
    if runs == [] {
    } else {
      CountAllOrNone(runs[1..], p, x);
      var head := if runs[0].provider == p && runs[0].status == Done then [runs[0].startedAt] else [];
      CountAboveAppend(head, DoneStarts(runs[1..], p), x);
    }
  }

  /** Timestamps stand in for history: the done runs started after an open row's last_seen_at
      are the done runs since its last committed sighting. */
  lemma MissesAreLaterStarts(s: State, k: Key)
    requires Inv(s) && k in s.findings && s.findings[k].status == Open
    ensures CountAbove(DoneStarts(s.runs, k.provider), s.findings[k].lastSeen) == Misses(s, k)
  {
    var i := LastSighting(s.log, k) + 1;
    var x := s.findings[k].lastSeen;
    assert s.runs == s.runs[..i] + s.runs[i..];
    DoneStartsAppend(s.runs[..i], s.runs[i..], k.provider);
    CountAboveAppend(DoneStarts(s.runs[..i], k.provider), DoneStarts(s.runs[i..], k.provider), x);
    CountAllOrNone(s.runs[..i], k.provider, x);
    CountAllOrNone(s.runs[i..], k.provider, x);
  }

  /** The row comparison auto-resolve makes, as a count of done runs. */
  lemma StaleIffCount(t: Table, runs: seq<Run>, p: string, n: int, k: Key)
    requires n >= 1 && k in t
    ensures k in AutoResolved(t, runs, p, n)
    ensures var fires := k.provider == p && t[k].status == Open && CountAbove(DoneStarts(runs, p), t[k].lastSeen) >= n;
      AutoResolved(t, runs, p, n)[k] == if fires then t[k].(status := Resolved) else t[k]
  {
    NthLargestVersusCount(DoneStarts(runs, p), n, t[k].lastSeen);
  }

  /** The run being closed is not yet done when its own auto-resolve reads the cutoff. */
  lemma CurrentRunNotCounted(s: State, sc: Scan)
    ensures DoneStarts(s.runs + [Opened(sc)], sc.provider) == DoneStarts(s.runs, sc.provider)
  {
    DoneStartsAppend(s.runs, [Opened(sc)], sc.provider);
  }

  // --- One step ------------------------------------------------------------------------

  lemma SightingAppend(log: seq<set<Key>>, e: set<Key>, k: Key)
    ensures LastSighting(log + [e], k) == if k in e then |log| else LastSighting(log, k)
  {
    assert (log + [e])[..|log|] == log;
  }

  /** What a scan does to a row that was there before it. */
  ghost function ScannedRow(s: State, sc: Scan, k: Key): Row
    requires Inv(s) && k in s.findings
  {
    var r := s.findings[k];
    if sc.faults.openFails || Committed(s.findings, sc).None? then r
    else if k in KeysOf(sc.found) then
      var last := sc.found[var i := LastIndex(sc.found, k); FoundIffIndexed(sc.found, k); i];
      r.(lastSeen := sc.at, cost := last.cost, evidence := last.evidence, tags := last.tags)
    else if Resolves(sc) && k.provider == sc.provider && r.status == Open && Misses(s, k) >= sc.threshold then
      r.(status := Resolved)
    else r
  }

  /** A scan resolves a row exactly when it commits, did not sight it, auto-resolve runs, the
      row is an open one of its provider, and the provider's done runs since the row's last
      committed sighting number at least the threshold; it changes nothing else of a row it
      did not sight. */
  lemma AutoResolveExact(s: State, sc: Scan, k: Key)
    requires Inv(s) && Later(s, Scanned(sc)) && k in s.findings
    ensures k in ScanStep(s, sc).findings
    ensures ScanStep(s, sc).findings[k] == ScannedRow(s, sc, k)
    ensures var r, r' := s.findings[k], ScanStep(s, sc).findings[k];
      var commits := !sc.faults.openFails && Committed(s.findings, sc).Some?;
      && (!commits ==> r' == r)
      && (commits && k in KeysOf(sc.found) ==> r' == r.(lastSeen := sc.at, cost := r'.cost, evidence := r'.evidence, tags := r'.tags))
      && (commits && k !in KeysOf(sc.found) ==>
           var resolves := k.provider == sc.provider && r.status == Open && sc.faults.resolve == NoFault
                           && sc.threshold >= 1 && Misses(s, k) >= sc.threshold;
           r' == if resolves then r.(status := Resolved) else r)
  {
    if !sc.faults.openFails && Committed(s.findings, sc).Some? {
      var t := Committed(s.findings, sc).value;
      UpsertAllAt(s.findings, sc.found, sc.at, k);
      FoundIffIndexed(sc.found, k);
      if Resolves(sc) {
        CurrentRunNotCounted(s, sc);
        StaleIffCount(t, s.runs + [Opened(sc)], sc.provider, sc.threshold, k);
        if k in KeysOf(sc.found) {
          CountAllOrNone(s.runs, sc.provider, sc.at);
        } else if s.findings[k].status == Open && k.provider == sc.provider {
          MissesAreLaterStarts(s, k);
        }
      }
    }
  }

  /** Some part of the scan raised before its commit. */
  ghost predicate RollsBack(s: State, sc: Scan) {
    || sc.faults.openFails || sc.inventoryRaises || sc.faults.commitFails
    || (sc.faults.upsertFailsAt.Some? && sc.faults.upsertFailsAt.value < |sc.found|)
    || exists i :: Clashes(s.findings, sc.found, i)
  }

  /** All or nothing: a scan that raises anywhere before its commit leaves the findings table
      exactly as it was; any other scan leaves one row per key that was there or was found. */
  lemma ScanAllOrNothing(s: State, sc: Scan)
    requires Inv(s) && Later(s, Scanned(sc))
    ensures RollsBack(s, sc) <==>
      || sc.faults.openFails || sc.inventoryRaises || sc.faults.commitFails
      || (sc.faults.upsertFailsAt.Some? && sc.faults.upsertFailsAt.value < |sc.found|)
      || exists i :: Clashes(s.findings, sc.found, i)
    ensures RollsBack(s, sc) <==> sc.faults.openFails || Committed(s.findings, sc).None?
    ensures RollsBack(s, sc) ==> ScanStep(s, sc).findings == s.findings
    ensures !RollsBack(s, sc) ==> ScanStep(s, sc).findings.Keys == s.findings.Keys + KeysOf(sc.found)
  {
    UpsertAllRaises(s.findings, sc.found, sc.at);
    if !RollsBack(s, sc) {
      UpsertAllEffect(s.findings, sc.found, sc.at);
    }
  }

  /** A row the scan created is open, first and last seen at the scan's start. */
  lemma NewRowOpen(s: State, sc: Scan, k: Key)
    requires Inv(s) && Later(s, Scanned(sc)) && k !in s.findings
    ensures k in ScanStep(s, sc).findings <==>
      !sc.faults.openFails && Committed(s.findings, sc).Some? && k in KeysOf(sc.found)
    ensures k in ScanStep(s, sc).findings ==>
      && FirstIndex(sc.found, k) >= 0 && LastIndex(sc.found, k) >= 0
      && ScanStep(s, sc).findings[k] == SightedRow(s.findings, sc.found, k, sc.at)
      && var r := ScanStep(s, sc).findings[k]; r.status == Open && r.firstSeen == r.lastSeen == sc.at
  {
    if !sc.faults.openFails && Committed(s.findings, sc).Some? {
      var t := Committed(s.findings, sc).value;
      UpsertAllAt(s.findings, sc.found, sc.at, k);
      FoundIffIndexed(sc.found, k);
      if Resolves(sc) && k in t {
        CurrentRunNotCounted(s, sc);
        StaleIffCount(t, s.runs + [Opened(sc)], sc.provider, sc.threshold, k);
        CountAllOrNone(s.runs, sc.provider, sc.at);
      }
    }
  }

  // --- Every reachable state -------------------------------------------------------------

  lemma {:induction false} UpsertAllIds(t: Table, fs: seq<Finding>, now: Time)
    requires IdsUnique(t) && UpsertAll(t, fs, now).Some?
    ensures IdsUnique(UpsertAll(t, fs, now).value)
  {
    if fs == [] {
    } else {
      UpsertAllIds(t, fs[..|fs| - 1], now);
    }
  }

  /** The runs and log rows one scan appends. */
  lemma ScanAppends(s: State, sc: Scan)
    requires Inv(s) && Later(s, Scanned(sc)) && !sc.faults.openFails
    ensures var s' := ScanStep(s, sc);
      && RunsOrdered(s')
      && s'.clock == sc.closedAt
      && s'.runs == s.runs + [s'.runs[|s.runs|]]
      && s'.runs[|s.runs|].startedAt == sc.at
      && s'.log == s.log + [if Committed(s.findings, sc).Some? then KeysOf(sc.found) else {}]
  {
  }

  lemma ScanKeepsRow(s: State, sc: Scan, k: Key)
    requires Inv(s) && Later(s, Scanned(sc)) && !sc.faults.openFails && k in ScanStep(s, sc).findings
    ensures |ScanStep(s, sc).log| == |ScanStep(s, sc).runs|
    ensures var s' := ScanStep(s, sc); var r := s'.findings[k];
      && r.firstSeen <= r.lastSeen <= s'.clock
      && (r.status == Open ==>
           LastSighting(s'.log, k) >= 0 && r.lastSeen == s'.runs[LastSighting(s'.log, k)].startedAt)
  {
    ScanAppends(s, sc);
    var e := if Committed(s.findings, sc).Some? then KeysOf(sc.found) else {};
    SightingAppend(s.log, e, k);
    if k in s.findings { AutoResolveExact(s, sc, k); } else { NewRowOpen(s, sc, k); }
  }

  lemma ScanKeepsIds(s: State, sc: Scan)
    requires Inv(s) && Later(s, Scanned(sc))
    ensures IdsUnique(ScanStep(s, sc).findings)
  {
    if !sc.faults.openFails && Committed(s.findings, sc).Some? {
      var t := Committed(s.findings, sc).value;
      UpsertAllIds(s.findings, sc.found, sc.at);
      var u := ScanStep(s, sc).findings;
      forall k | k in u ensures k in t && u[k].findingId == t[k].findingId {
        if Resolves(sc) {
          if k in t { StaleIffCount(t, s.runs + [Opened(sc)], sc.provider, sc.threshold, k); }
        }
      }
    }
  }

  lemma ScanKeepsInv(s: State, sc: Scan)
    requires Inv(s) && Later(s, Scanned(sc))
    ensures Inv(ScanStep(s, sc))
  {
    ScanKeepsIds(s, sc);
    if !sc.faults.openFails {
      ScanAppends(s, sc);
      var s' := ScanStep(s, sc);
      forall k | k in s'.findings
        ensures s'.findings[k].firstSeen <= s'.findings[k].lastSeen <= s'.clock
        ensures s'.findings[k].status == Open ==>
          LastSighting(s'.log, k) >= 0 && s'.findings[k].lastSeen == s'.runs[LastSighting(s'.log, k)].startedAt
      {
        ScanKeepsRow(s, sc, k);
      }
    }
  }

  lemma StepKeepsInv(s: State, e: Event)
    requires Inv(s) && Later(s, e)
    ensures Inv(Step(s, e))
  {
    match e
    case Scanned(sc) => ScanKeepsInv(s, sc);
    case Acted(id, a, at) => ActionKeepsInv(s, id, a, at);
    case Queued(p, at) => QueueKeepsInv(s, p, at);
  }

  lemma ActionKeepsInv(s: State, id: string, a: Action, at: Time)
    requires Inv(s) && Later(s, Acted(id, a, at))
    ensures Inv(Step(s, Acted(id, a, at)))
  {
    var s' := Step(s, Acted(id, a, at));
    forall k | k in s'.findings
      ensures k in s.findings && s'.findings[k].findingId == s.findings[k].findingId
      ensures s'.findings[k].firstSeen <= s'.findings[k].lastSeen <= at
      ensures s'.findings[k].status == Open ==> s'.findings[k] == s.findings[k]
    {
    }
  }

  lemma QueueKeepsInv(s: State, p: string, at: Time)
    requires Inv(s) && Later(s, Queued(p, at))
    ensures Inv(Step(s, Queued(p, at)))
  {
    var s' := Step(s, Queued(p, at));
    assert RunsOrdered(s');
    forall k | k in s'.findings && s'.findings[k].status == Open
      ensures LastSighting(s'.log, k) >= 0
      ensures s'.findings[k].lastSeen == s'.runs[LastSighting(s'.log, k)].startedAt
    {
      SightingAppend(s.log, {}, k);
    }
  }

  lemma {:induction false} RunKeepsInv(s: State, es: seq<Event>)
    requires Inv(s) && InOrder(s, es)
    ensures Inv(After(s, es))
    decreases |es|
  {
    if es == [] {
    } else {
      StepKeepsInv(s, es[0]);
      RunKeepsInv(Step(s, es[0]), es[1..]);
    }
  }

  lemma ReachableInv(es: seq<Event>)
    requires InOrder(EMPTY, es)
    ensures Inv(After(EMPTY, es))
  {
    RunKeepsInv(EMPTY, es);
  }

  // --- Lifecycle of a row --------------------------------------------------------------

  /** How a row may differ later: identity and first sighting are fixed, last sighting only
      moves forward, and no row ever returns to open. */
  ghost predicate Evolves(r: Row, r': Row) {
    && r'.findingId == r.findingId && r'.descr == r.descr && r'.firstSeen == r.firstSeen
    && r.lastSeen <= r'.lastSeen
    && (r.status != Open ==> r'.status != Open)
  }

  /** A scan leaves the status of acked, ignored and resolved rows alone. */
  lemma ScanKeepsDecisions(s: State, sc: Scan, k: Key)
    requires Inv(s) && Later(s, Scanned(sc)) && k in s.findings && s.findings[k].status != Open
    ensures k in ScanStep(s, sc).findings && ScanStep(s, sc).findings[k].status == s.findings[k].status
  {
    AutoResolveExact(s, sc, k);
  }

  lemma StepEvolves(s: State, e: Event, k: Key)
    requires Inv(s) && Later(s, e) && k in s.findings
    ensures k in Step(s, e).findings && Evolves(s.findings[k], Step(s, e).findings[k])
  {
    if e.Scanned? { AutoResolveExact(s, e.scan, k); }
  }

  /** Rows are never deleted, and every row evolves, over every run of events. */
  lemma {:induction false} RunEvolves(s: State, es: seq<Event>, k: Key)
    requires Inv(s) && InOrder(s, es) && k in s.findings
    ensures k in After(s, es).findings && Evolves(s.findings[k], After(s, es).findings[k])
    decreases |es|
  {
    if es == [] {
    } else {
      StepKeepsInv(s, es[0]);
      StepEvolves(s, es[0], k);
      RunEvolves(Step(s, es[0]), es[1..], k);
    }
  }

  /** A scan leaves a row of another provider exactly as it was unless one of its own rules
      reports a finding under that row's key. */
  lemma OtherProviderUntouched(s: State, sc: Scan, k: Key)
    requires Inv(s) && Later(s, Scanned(sc)) && k in s.findings && k.provider != sc.provider
    ensures k in ScanStep(s, sc).findings
    ensures ScanStep(s, sc).findings[k] == s.findings[k]
       <==> sc.faults.openFails || Committed(s.findings, sc).None? || k !in KeysOf(sc.found)
  {
    AutoResolveExact(s, sc, k);
  }

  /** A user action reaches the one row with that finding_id and no other. */
  lemma ActionTouchesOneRow(s: State, id: string, a: Action, at: Time, k: Key)
    requires Inv(s) && k in s.findings && s.findings[k].findingId == id
    ensures var t := Step(s, Acted(id, a, at)).findings;
      && t.Keys == s.findings.Keys
      && ActedOn(s.findings[k], t[k], a, at)
      && (forall l :: l in t && l != k ==> t[l] == s.findings[l])
  {
  }

  /** Ack, resolve and ignore set their status and the time; a reason given with ignore becomes
      the tag ignore_reason, and every other tag and column stays. */
  ghost predicate ActedOn(r: Row, r': Row, a: Action, at: Time) {
    && r'.status == (match a case Ack => Acked case Resolve => Resolved case Ignore(_) => Ignored)
    && r'.lastSeen == at && r' == r.(status := r'.status, lastSeen := at, tags := r'.tags)
    && (if a.Ignore? && a.reason != ""
        then r'.tags.Keys == r.tags.Keys + {"ignore_reason"} && r'.tags["ignore_reason"] == a.reason
             && forall x :: x in r.tags && x != "ignore_reason" ==> r'.tags[x] == r.tags[x]
        else r'.tags == r.tags)
  }

  // --- Lifecycle of a run row ---------------------------------------------------------------

  /** A run row is open with neither end nor count, or closed with both; an error counts zero. */
  ghost predicate RunShaped(r: Run) {
    && (r.status == Running <==> r.finishedAt.None?) && (r.status == Running <==> r.findingsCount.None?)
    && (r.status == Error ==> r.findingsCount == Some(0))
    && (r.finishedAt.Some? ==> r.startedAt <= r.finishedAt.value)
  }

  lemma StepAppendsRun(s: State, e: Event)
    requires Later(s, e)
    ensures |s.runs| <= |Step(s, e).runs| <= |s.runs| + 1 && s.runs <= Step(s, e).runs
    ensures |Step(s, e).runs| > |s.runs| ==> RunShaped(Step(s, e).runs[|s.runs|])
  {
  }

  /** Over every run each run row has its final content when the event that opened it ends: no
      later event touches it, so a queued run, or one whose closing write failed, stays running
      for good and never counts as done. */
  lemma {:induction false} RunRowsFinal(s: State, es: seq<Event>)
    requires InOrder(s, es)
    ensures s.runs <= After(s, es).runs
    ensures forall i :: |s.runs| <= i < |After(s, es).runs| ==> RunShaped(After(s, es).runs[i])
    decreases |es|
  {
    if es == [] {
    } else {
      StepAppendsRun(s, es[0]);
      RunRowsFinal(Step(s, es[0]), es[1..]);
    }
  }

  // --- Whole-run timing -------------------------------------------------------------------

  /** A scan of p with threshold n that runs and closes without a fault and does not see k. */
  ghost predicate CleanMiss(s: State, e: Event, p: string, n: int, k: Key) {
    e.Scanned? && e.scan.provider == p && e.scan.threshold == n && !e.scan.inventoryRaises
    && e.scan.faults == Faults(false, None, false, NoFault, false) && k !in KeysOf(e.scan.found)
    && Committed(s.findings, e.scan).Some?
  }

  /** Anything that neither counts as a done run of p nor touches k: a scan of p that raised
      before its commit, a queued run, another provider's scan, an action on another row. */
  ghost predicate Aside(s: State, e: Event, p: string, k: Key)
    requires k in s.findings
  {
    match e
    case Scanned(sc) =>
      k !in KeysOf(sc.found) && (sc.provider != p || sc.faults.openFails || Committed(s.findings, sc).None?)
    case Acted(id, _, _) => id != s.findings[k].findingId
    case Queued(_, _) => true
  }

  /** Every event is a clean miss of k whose upserts succeed, or is aside from it. */
  ghost predicate Missing(s: State, es: seq<Event>, p: string, n: int, k: Key)
    decreases |es|
  {
    es == [] ||
    (k in s.findings &&
     MissOrAside(s, es[0], p, n, k) &&
     Missing(Step(s, es[0]), es[1..], p, n, k))
  }

  /** How many of the events are clean misses. */
  ghost function DoneRuns(s: State, es: seq<Event>, p: string, n: int, k: Key): nat
    decreases |es|
  {
    if es == [] then 0
    else (if CleanMiss(s, es[0], p, n, k) then 1 else 0) + DoneRuns(Step(s, es[0]), es[1..], p, n, k)
  }

  lemma MissesAppend(s: State, s': State, run: Run, e: set<Key>, k: Key)
    requires |s.log| == |s.runs| && s'.runs == s.runs + [run] && s'.log == s.log + [e] && k !in e
    ensures Misses(s', k) == Misses(s, k) + if run.provider == k.provider && run.status == Done then 1 else 0
  {
    var i := LastSighting(s.log, k) + 1;
    SightingAppend(s.log, e, k);
    assert s'.runs[i..] == s.runs[i..] + [run];
    DoneStartsAppend(s.runs[i..], [run], k.provider);
    assert [run][1..] == [];
  }

  ghost predicate MissOrAside(s: State, e: Event, p: string, n: int, k: Key)
    requires k in s.findings
  {
    CleanMiss(s, e, p, n, k) || Aside(s, e, p, k)
  }

  lemma MissesAfterStep(s: State, e: Event, p: string, n: int, k: Key)
    requires Inv(s) && Later(s, e) && k in s.findings && k.provider == p
    requires MissOrAside(s, e, p, n, k)
    ensures |Step(s, e).log| == |Step(s, e).runs|
    ensures Misses(Step(s, e), k) == Misses(s, k) + if CleanMiss(s, e, p, n, k) then 1 else 0
  {
    match e
    case Scanned(sc) => ScanMisses(s, sc, p, n, k);
    case Acted(_, _, _) =>
    case Queued(q, at) =>
      MissesAppend(s, Step(s, e), Run(q, at, None, Running, None), {}, k);
  }

  lemma ScanMisses(s: State, sc: Scan, p: string, n: int, k: Key)
    requires Inv(s) && Later(s, Scanned(sc)) && k in s.findings && k.provider == p
    requires MissOrAside(s, Scanned(sc), p, n, k)
    ensures |ScanStep(s, sc).log| == |ScanStep(s, sc).runs|
    ensures Misses(ScanStep(s, sc), k) == Misses(s, k) + if CleanMiss(s, Scanned(sc), p, n, k) then 1 else 0
  {
    if !sc.faults.openFails {
      ScanAppends(s, sc);
      var s' := ScanStep(s, sc);
      var run, e := s'.runs[|s.runs|], if Committed(s.findings, sc).Some? then KeysOf(sc.found) else {};
      MissesAppend(s, s', run, e, k);
      DoneIffClean(s, sc, p, n, k);
    }
  }

  /** The run row a scan leaves counts for p exactly when it is a clean miss. */
  lemma DoneIffClean(s: State, sc: Scan, p: string, n: int, k: Key)
    requires !sc.faults.openFails && k in s.findings && |s.log| == |s.runs| && MissOrAside(s, Scanned(sc), p, n, k)
    ensures |ScanStep(s, sc).runs| == |s.runs| + 1
    ensures var run := ScanStep(s, sc).runs[|s.runs|];
      run.provider == p && run.status == Done <==> CleanMiss(s, Scanned(sc), p, n, k)
  {
  }

  /** One event of a missing run: only a clean miss that comes after n others resolves k. */
  lemma StatusAfterStep(s: State, e: Event, p: string, n: int, k: Key)
    requires Inv(s) && Later(s, e) && n >= 1 && k in s.findings && k.provider == p
    requires MissOrAside(s, e, p, n, k)
    ensures k in Step(s, e).findings
    ensures Step(s, e).findings[k].status ==
      if s.findings[k].status == Open && CleanMiss(s, e, p, n, k) && Misses(s, k) >= n then Resolved
      else s.findings[k].status
  {
    if e.Scanned? { AutoResolveExact(s, e.scan, k); }
  }

  /** With d clean misses among the events, an open row missed m times before them is still
      open exactly when d is zero or m + d is at most n: the n-th missed done run does not
      resolve it, because its own run is not done yet when the cutoff is read; run n + 1 does. */
  lemma {:induction false} MissTiming(s: State, es: seq<Event>, p: string, n: int, k: Key)
    requires Inv(s) && InOrder(s, es) && n >= 1
    requires k in s.findings && k.provider == p && s.findings[k].status == Open
    requires Missing(s, es, p, n, k)
    ensures k in After(s, es).findings
    ensures var d := DoneRuns(s, es, p, n, k);
      After(s, es).findings[k].status == if d == 0 || Misses(s, k) + d <= n then Open else Resolved
    decreases |es|
  {
    if es == [] {
    } else {
      var e, s' := es[0], Step(s, es[0]);
      StepKeepsInv(s, e);
      MissesAfterStep(s, e, p, n, k);
      StatusAfterStep(s, e, p, n, k);
      if s'.findings[k].status == Open {
        MissTiming(s', es[1..], p, n, k);
      } else {
        StaysResolved(s', es[1..], p, n, k);
      }
    }
  }

  /** Starting from a row its last done run sighted: n missed done runs leave it open, although
      the documentation has it resolved after them; the next missed done run resolves it. */
  lemma NPlusOneRunsResolve(s: State, es: seq<Event>, p: string, n: int, k: Key)
    requires Inv(s) && InOrder(s, es) && n >= 1
    requires k in s.findings && k.provider == p && s.findings[k].status == Open && Misses(s, k) == 0
    requires Missing(s, es, p, n, k) && n <= DoneRuns(s, es, p, n, k) <= n + 1
    ensures k in After(s, es).findings
    ensures After(s, es).findings[k].status == if DoneRuns(s, es, p, n, k) == n then Open else Resolved
  {
    MissTiming(s, es, p, n, k);
  }

  const KEY := Key("azure", "vm-1", "azure.idle")

  const SEEN := Finding("id", KEY, Descr("acc", None, None, "vm", "low", "compute"), 1.0, "", map[])

  /** A scan with threshold one that raises nowhere. */
  function OneScan(found: seq<Finding>, at: Time): Event {
    Scanned(Scan("azure", found, false, 1, Faults(false, None, false, NoFault, false), at, at))
  }

  /** A committed sighting starts the count of missed runs again. */
  lemma SightingResets(s: State, sc: Scan, k: Key)
    requires Inv(s) && Later(s, Scanned(sc)) && !sc.faults.openFails
    requires Committed(s.findings, sc).Some? && k in KeysOf(sc.found)
    ensures |ScanStep(s, sc).log| == |ScanStep(s, sc).runs| && Misses(ScanStep(s, sc), k) == 0
  {
    ScanAppends(s, sc);
    SightingAppend(s.log, KeysOf(sc.found), k);
  }

  lemma CommitsOne(t: Table, f: Finding, at: Time)
    requires f.key !in t && !IdTaken(t, f.findingId)
    ensures Committed(t, OneScan([f], at).scan).Some? && KeysOf([f]) == {f.key}
  {
    assert [f][..0] == [] && [f][0] == f;
    assert UpsertAll(t, [f], at) == Upsert(t, f, at);
  }

  /** The first scan of an empty store leaves its finding open and just sighted. */
  lemma FirstScan() returns (s: State)
    ensures s == Step(EMPTY, OneScan([SEEN], 1)) && Later(EMPTY, OneScan([SEEN], 1)) && Inv(s) && s.clock == 1
    ensures KEY in s.findings && s.findings[KEY].status == Open && Misses(s, KEY) == 0
  {
    var e := OneScan([SEEN], 1);
    s := Step(EMPTY, e);
    CommitsOne(EMPTY.findings, SEEN, 1);
    StepKeepsInv(EMPTY, e);
    NewRowOpen(EMPTY, e.scan, KEY);
    SightingResets(EMPTY, e.scan, KEY);
  }

  /** With threshold one, documented as absent for one run, a finding that the second of two
      scans does not see is still open after it, and resolved only by a third. */
  lemma OneMissLeavesOpen(es: seq<Event>)
    requires es == [OneScan([SEEN], 1), OneScan([], 2), OneScan([], 3)]
    ensures InOrder(EMPTY, es)
    ensures var s := After(EMPTY, es[..2]); KEY in s.findings && s.findings[KEY].status == Open
    ensures var s := After(EMPTY, es); KEY in s.findings && s.findings[KEY].status == Resolved
  {
    var s1 := FirstScan();
    EmptyScanMisses(s1, 2);
    EmptyScanMisses(Step(s1, OneScan([], 2)), 3);
    ThreeSteps(EMPTY, es);
  }

  lemma OneStep(s: State, es: seq<Event>)
    requires es != []
    ensures After(s, es) == After(Step(s, es[0]), es[1..])
    ensures InOrder(s, es) <==> Later(s, es[0]) && InOrder(Step(s, es[0]), es[1..])
    ensures |es| == 1 ==> After(s, es) == Step(s, es[0]) && (InOrder(s, es) <==> Later(s, es[0]))
  {
    assert |es| == 1 ==> es[1..] == [];
  }

  lemma ThreeSteps(s: State, es: seq<Event>)
    requires |es| == 3
    requires Later(s, es[0]) && Later(Step(s, es[0]), es[1]) && Later(Step(Step(s, es[0]), es[1]), es[2])
    ensures InOrder(s, es)
    ensures After(s, es[..2]) == Step(Step(s, es[0]), es[1])
    ensures After(s, es) == Step(Step(Step(s, es[0]), es[1]), es[2])
  {
    var s1 := Step(s, es[0]);
    var s2 := Step(s1, es[1]);
    OneStep(s, es);
    OneStep(s1, es[1..]);
    OneStep(s2, es[1..][1..]);
    OneStep(s, es[..2]);
    OneStep(s1, es[..2][1..]);
  }

  lemma EmptyScanMisses(s: State, at: Time)
    requires Inv(s) && Later(s, OneScan([], at)) && KEY in s.findings && s.findings[KEY].status == Open
    ensures var s' := Step(s, OneScan([], at));
      && Inv(s') && s'.clock == at && KEY in s'.findings && Misses(s', KEY) == Misses(s, KEY) + 1
      && s'.findings[KEY].status == if Misses(s, KEY) >= 1 then Resolved else Open
  {
    var e := OneScan([], at);
    StepKeepsInv(s, e);
    MissesAfterStep(s, e, "azure", 1, KEY);
    StatusAfterStep(s, e, "azure", 1, KEY);
  }

  lemma {:induction false} StaysResolved(s: State, es: seq<Event>, p: string, n: int, k: Key)
    requires Inv(s) && InOrder(s, es) && n >= 1
    requires k in s.findings && k.provider == p && s.findings[k].status == Resolved
    requires Missing(s, es, p, n, k)
    ensures k in After(s, es).findings && After(s, es).findings[k].status == Resolved
    decreases |es|
  {
    if es == [] {
    } else {
      StepKeepsInv(s, es[0]);
      StatusAfterStep(s, es[0], p, n, k);
      StaysResolved(Step(s, es[0]), es[1..], p, n, k);
    }
  }
}
