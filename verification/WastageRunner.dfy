/** The scan runner over the tables it mutates: the (row, rule) loop inside one transaction,
    auto-resolve, and the run record around both. */
module WastageRunner {
  import opened Wrappers
  import opened WastageState

  datatype RuleResult = RuleRaises | NoFinding | Found(finding: Finding)

  /** A registered rule; the inventory row type is left abstract. */
  datatype Rule<!R> = Rule(id: string, fn: R -> RuleResult)

  /** The rules whose id starts with the provider's prefix, in registry order. */
  function ProviderRules<R>(registry: seq<Rule<R>>, provider: string): seq<Rule<R>> {
    if registry == [] then []
    else
      var before, rule := ProviderRules(registry[..|registry| - 1], provider), registry[|registry| - 1];
      if (provider + ".") <= rule.id then before + [rule] else before
  }

  /** The rule id is the provider, a dot, and anything. */
  ghost predicate IdFits(id: string, provider: string) {
    |id| > |provider| && id[..|provider|] == provider && id[|provider|] == '.'
  }

  /** rules are the registered rules at these positions, in registry order, and these are all
      the positions whose id fits. */
  ghost predicate Picks<R>(registry: seq<Rule<R>>, provider: string, rules: seq<Rule<R>>, at: seq<nat>) {
    && |at| == |rules|
    && (forall i :: 0 <= i < |at| ==> at[i] < |registry| && rules[i] == registry[at[i]])
    && (forall i, j :: 0 <= i < j < |at| ==> at[i] < at[j])
    && (forall n: nat :: n < |registry| ==> (n in at <==> IdFits(registry[n].id, provider)))
  }

  lemma PicksMore<R>(registry: seq<Rule<R>>, provider: string, rules: seq<Rule<R>>, at: seq<nat>, rule: Rule<R>)
    requires Picks(registry, provider, rules, at)
    ensures IdFits(rule.id, provider) ==> Picks(registry + [rule], provider, rules + [rule], at + [|registry|])
    ensures !IdFits(rule.id, provider) ==> Picks(registry + [rule], provider, rules, at)
  {
    var n := |registry|;
    assert forall k: nat :: k in at + [n] <==> k in at || k == n;
  }

  /** A scan runs exactly the registered rules whose id starts with its provider and a dot, each
      as often as registered and in registry order. */
  lemma {:induction false} ProviderRulesAre<R>(registry: seq<Rule<R>>, provider: string) returns (at: seq<nat>)
    ensures Picks(registry, provider, ProviderRules(registry, provider), at)
  {
    if registry == [] {
      at := [];
    } else {
      var prev, rule := registry[..|registry| - 1], registry[|registry| - 1];
      var before := ProviderRulesAre(prev, provider);
      PrefixIff(rule.id, provider);
      PicksMore(prev, provider, ProviderRules(prev, provider), before, rule);
      assert prev + [rule] == registry;
      at := if IdFits(rule.id, provider) then before + [|prev|] else before;
    }
  }

  lemma PrefixIff(id: string, provider: string)
    ensures (provider + ".") <= id <==> IdFits(id, provider)
  {
    var n := |provider|;
    if (provider + ".") <= id {
      assert id[n] == (provider + ".")[n] && id[..n] == (provider + ".")[..n];
    }
    if IdFits(id, provider) {
      assert id[..n + 1] == id[..n] + [id[n]];
    }
  }

  ghost function FoundInRow<R>(row: R, rules: seq<Rule<R>>): seq<Finding> {
    if rules == [] then []
    else
      var r := rules[|rules| - 1].fn(row);
      FoundInRow(row, rules[..|rules| - 1]) + (if r.Found? then [r.finding] else [])
  }

  /** What the nested loop upserts, in order: a rule that raises or returns None adds nothing. */
  ghost function FoundIn<R>(rows: seq<R>, rules: seq<Rule<R>>): seq<Finding> {
    if rows == [] then []
    else FoundIn(rows[..|rows| - 1], rules) + FoundInRow(rows[|rows| - 1], rules)
  }

  /** The (row, rule) index pairs that produced a finding. */
  ghost function Hits<R>(rows: seq<R>, rules: seq<Rule<R>>): set<(int, int)> {
    set i, j | 0 <= i < |rows| && 0 <= j < |rules| && rules[j].fn(rows[i]).Found? :: (i, j)
  }

  ghost function RowHits<R>(row: R, i: int, rules: seq<Rule<R>>): set<(int, int)> {
    set j | 0 <= j < |rules| && rules[j].fn(row).Found? :: (i, j)
  }

  lemma {:induction false} RowHitsCount<R>(row: R, i: int, rules: seq<Rule<R>>)
    ensures |FoundInRow(row, rules)| == |RowHits(row, i, rules)|
  {
    if rules == [] {
    } else {
      var n := |rules| - 1;
      RowHitsCount(row, i, rules[..n]);
      assert RowHits(row, i, rules) == RowHits(row, i, rules[..n]) + if rules[n].fn(row).Found? then {(i, n)} else {};
    }
  }

  /** The findings the loop upserts are one per (row, rule) pair that produced one. */
  lemma {:induction false} FoundInCount<R>(rows: seq<R>, rules: seq<Rule<R>>)
    ensures |FoundIn(rows, rules)| == |Hits(rows, rules)|
  {
    if rows == [] {
    } else {
      var n := |rows| - 1;
      FoundInCount(rows[..n], rules);
      RowHitsCount(rows[n], n, rules);
      var a, b := Hits(rows[..n], rules), RowHits(rows[n], n, rules);
      HitsSplit(rows, rules);
      assert a !! b;
      assert |a + b| == |a| + |b|;
    }
  }

  lemma HitsSplit<R>(rows: seq<R>, rules: seq<Rule<R>>)
    requires rows != []
    ensures Hits(rows, rules) == Hits(rows[..|rows| - 1], rules) + RowHits(rows[|rows| - 1], |rows| - 1, rules)
  {
    var n := |rows| - 1;
    var h, u := Hits(rows, rules), Hits(rows[..n], rules) + RowHits(rows[n], n, rules);
    forall i, j ensures (i, j) in h <==> (i, j) in u {}
  }

  lemma {:induction false} FoundInRowIff<R>(row: R, rules: seq<Rule<R>>, f: Finding)
    ensures f in FoundInRow(row, rules) <==> Reports(rules, row, f)
  {
    if rules == [] {
    } else {
      var n := |rules| - 1;
      FoundInRowIff(row, rules[..n], f);
      assert forall j :: 0 <= j < n ==> rules[..n][j] == rules[j];
    }
  }

  ghost predicate ReportsAny<R>(rules: seq<Rule<R>>, rows: seq<R>, f: Finding) {
    exists i :: 0 <= i < |rows| && Reports(rules, rows[i], f)
  }

  lemma ReportsSplit<R>(rows: seq<R>, rules: seq<Rule<R>>, f: Finding)
    requires rows != []
    ensures ReportsAny(rules, rows, f) <==>
      ReportsAny(rules, rows[..|rows| - 1], f) || Reports(rules, rows[|rows| - 1], f)
  {
    var n := |rows| - 1;
    if ReportsAny(rules, rows[..n], f) {
      var i :| 0 <= i < n && Reports(rules, rows[..n][i], f);
      assert Reports(rules, rows[i], f);
    }
    if ReportsAny(rules, rows, f) {
      var i :| 0 <= i < |rows| && Reports(rules, rows[i], f);
      assert i < n ==> Reports(rules, rows[..n][i], f);
    }
  }

  ghost predicate Reports<R>(rules: seq<Rule<R>>, row: R, f: Finding) {
    exists j :: 0 <= j < |rules| && rules[j].fn(row) == Found(f)
  }

  /** A finding is upserted exactly when some rule reports it for some row. */
  lemma {:induction false} FoundInIff<R>(rows: seq<R>, rules: seq<Rule<R>>, f: Finding)
    ensures f in FoundIn(rows, rules) <==> ReportsAny(rules, rows, f)
  {
    if rows == [] {
    } else {
      var n := |rows| - 1;
      FoundInIff(rows[..n], rules, f);
      FoundInRowIff(rows[n], rules, f);
      ReportsSplit(rows, rules, f);
    }
  }

  /** A scan upserts a finding exactly when a registered rule whose id fits its provider reports
      it for some row. */
  lemma ScanFindsIff<R>(registry: seq<Rule<R>>, provider: string, rows: seq<R>, f: Finding)
    ensures f in FoundIn(rows, ProviderRules(registry, provider)) <==>
      exists i, n :: 0 <= i < |rows| && 0 <= n < |registry|
        && IdFits(registry[n].id, provider) && registry[n].fn(rows[i]) == Found(f)
  {
    var rules := ProviderRules(registry, provider);
    var at := ProviderRulesAre(registry, provider);
    FoundInIff(rows, rules, f);
    if ReportsAny(rules, rows, f) {
      var i :| 0 <= i < |rows| && Reports(rules, rows[i], f);
      var j :| 0 <= j < |rules| && rules[j].fn(rows[i]) == Found(f);
      assert at[j] in at && registry[at[j]].fn(rows[i]) == Found(f);
    }
    if exists i, n :: 0 <= i < |rows| && 0 <= n < |registry|
        && IdFits(registry[n].id, provider) && registry[n].fn(rows[i]) == Found(f) {
      var i, n: nat :| 0 <= i < |rows| && 0 <= n < |registry|
        && IdFits(registry[n].id, provider) && registry[n].fn(rows[i]) == Found(f);
      assert n in at <==> IdFits(registry[n].id, provider);
      var j :| 0 <= j < |at| && at[j] == n;
      assert rules[j].fn(rows[i]) == Found(f);
      assert Reports(rules, rows[i], f);
    }
  }

  /** The pairs with a finding that the loops reach before rule j of row i. */
  ghost function HitsBefore<R>(rows: seq<R>, rules: seq<Rule<R>>, i: int, j: int): set<(int, int)> {
    set h | h in Hits(rows, rules) && (h.0 < i || (h.0 == i && h.1 < j))
  }

  /** The finding of a pair is upserted after those of all pairs of earlier rows, and of earlier
      rules of its own row, and before the rest. */
  lemma FoundInOrder<R>(rows: seq<R>, rules: seq<Rule<R>>, i: nat, j: nat)
    requires i < |rows| && j < |rules| && rules[j].fn(rows[i]).Found?
    ensures |HitsBefore(rows, rules, i, j)| < |FoundIn(rows, rules)|
    ensures FoundIn(rows, rules)[|HitsBefore(rows, rules, i, j)|] == rules[j].fn(rows[i]).finding
  {
    var before, own := FoundIn(rows[..i], rules), FoundInRow(rows[i], rules[..j]);
    RowPrefix(rows[i], rules, j + 1);
    RowsPrefix(rows, i + 1, rules);
    OneMoreRow(rows, i, rules);
    OneMoreRule(rows[i], rules, j);
    assert before + (own + [rules[j].fn(rows[i]).finding]) <= FoundIn(rows, rules);
    HitsBeforeCount(rows, rules, i, j);
  }

  lemma HitsBeforeCount<R>(rows: seq<R>, rules: seq<Rule<R>>, i: nat, j: nat)
    requires i < |rows| && j <= |rules|
    ensures |HitsBefore(rows, rules, i, j)| == |FoundIn(rows[..i], rules)| + |FoundInRow(rows[i], rules[..j])|
  {
    var a, b := Hits(rows[..i], rules), RowHits(rows[i], i, rules[..j]);
    FoundInCount(rows[..i], rules);
    RowHitsCount(rows[i], i, rules[..j]);
    forall x, y ensures (x, y) in HitsBefore(rows, rules, i, j) <==> (x, y) in a + b {}
    assert HitsBefore(rows, rules, i, j) == a + b;
    assert a !! b;
    assert |a + b| == |a| + |b|;
  }

  datatype ScanError = OpenFailed | ScanFailed

  class WastageStore {
    var findings: Table
    var runs: seq<Run>
    ghost var log: seq<set<Key>>
    ghost var clock: Time

    ghost function Abstract(): State
      reads this
    {
      State(findings, runs, log, clock)
    }

    constructor ()
      ensures Abstract() == EMPTY
    {
      findings, runs, log, clock := map[], [], [], 0;
    }

    /** Runs one scan; run ids are positions in `runs`. It raises on every path that the
        source re-raises on, and in each case leaves the state ScanStep describes. */
    method RunScan<R>(registry: seq<Rule<R>>, provider: string, rows: seq<R>, inventoryRaises: bool,
                      threshold: int, faults: Faults, now: Time, closedAt: Time)
      returns (r: Result<nat, ScanError>)
      requires |log| == |runs|
      modifies this
      ensures var sc := Scan(provider, FoundIn(rows, ProviderRules(registry, provider)), inventoryRaises,
                             threshold, faults, now, closedAt);
        && Abstract() == ScanStep(old(Abstract()), sc)
        && r == (if faults.openFails then Err(OpenFailed)
                 else if Committed(old(findings), sc).None? || (faults.resolve == Raised && threshold >= 1)
                 then Err(ScanFailed) else Ok(old(|runs|)))
      ensures r == Err(OpenFailed) ==> runs == old(runs)
      ensures r != Err(OpenFailed) ==> runs == old(runs) + [
        if faults.closeFails then Run(provider, now, None, Running, None)
        else if r.Ok? then Run(provider, now, Some(closedAt), Done, Some(|Hits(rows, ProviderRules(registry, provider))|))
        else Run(provider, now, Some(closedAt), Error, Some(0))]
    {
      clock := closedAt;
      if faults.openFails {
        return Err(OpenFailed);
      }
      var runId := |runs|;
      runs := runs + [Run(provider, now, None, Running, None)];

      var rules := ProviderRules(registry, provider);
      var committed, count := FoldInventory(rules, rows, inventoryRaises, faults, now);
      if !committed {
        CloseScanRun(runId, Error, 0, faults.closeFails, closedAt);
        log := log + [{}];
        return Err(ScanFailed);
      }
      log := log + [KeysOf(FoundIn(rows, rules))];
      var raised := AutoResolveStale(provider, threshold, faults.resolve);
      if raised {
        CloseScanRun(runId, Error, 0, faults.closeFails, closedAt);
        return Err(ScanFailed);
      }
      CloseScanRun(runId, Done, count, faults.closeFails, closedAt);
      FoundInCount(rows, rules);
      return Ok(runId);
    }

    /** The transaction: `pending` is the uncommitted table, dropped on rollback. */
    method FoldInventory<R>(rules: seq<Rule<R>>, rows: seq<R>, inventoryRaises: bool, faults: Faults, now: Time)
      returns (committed: bool, count: nat)
      modifies this`findings
      ensures var sc := Scan("", FoundIn(rows, rules), inventoryRaises, 0, faults, now, now);
        && committed == Committed(old(findings), sc).Some?
        && findings == (if committed then Committed(old(findings), sc).value else old(findings))
        && (committed ==> count == |FoundIn(rows, rules)|)
    {
      var pending := findings;
      count := 0;
      var i := 0;
      while i < |rows|
        invariant 0 <= i <= |rows| && findings == old(findings)
        invariant Folded(findings, FoundIn(rows[..i], rules), faults, now, pending, count)
      {
        ghost var before := FoundIn(rows[..i], rules);
        var next, n, raised := FoldRow(rules, rows[i], faults, now, findings, before, pending, count);
        OneMoreRow(rows, i, rules);
        if raised {
          RowsPrefix(rows, i + 1, rules);
          RaisesLater(findings, FoundIn(rows[..i + 1], rules), FoundIn(rows, rules), faults, now);
          return false, n;
        }
        pending, count := next, n;
        i := i + 1;
      }
      assert rows[..i] == rows;
      if inventoryRaises || faults.commitFails {
        return false, count;
      }
      findings := pending;
      return true, count;
    }

    /** The inner loop over one inventory row's rules. */
    method FoldRow<R>(rules: seq<Rule<R>>, row: R, faults: Faults, now: Time, ghost start: Table,
                      ghost before: seq<Finding>, pending: Table, count: nat)
      returns (next: Table, total: nat, raised: bool)
      requires Folded(start, before, faults, now, pending, count)
      ensures raised ==> Raises(start, before + FoundInRow(row, rules), faults, now)
      ensures !raised ==> Folded(start, before + FoundInRow(row, rules), faults, now, next, total)
    {
      next, total := pending, count;
      var j := 0;
      assert before + FoundInRow(row, rules[..0]) == before;
      while j < |rules|
        invariant 0 <= j <= |rules|
        invariant Folded(start, before + FoundInRow(row, rules[..j]), faults, now, next, total)
      {
        var result := rules[j].fn(row);
        ghost var sofar := before + FoundInRow(row, rules[..j]);
        OneMoreRule(row, rules, j);
        j := j + 1;
        if result.RuleRaises? || result.NoFinding? {
          assert before + FoundInRow(row, rules[..j]) == sofar;
          continue;
        }
        var f := result.finding;
        assert before + FoundInRow(row, rules[..j]) == sofar + [f];
        OneMoreUpsert(start, sofar, faults, now, next, total, f);
        var inserted := Upsert(next, f, now);
        if faults.upsertFailsAt == Some(total) || inserted.None? {
          RowPrefix(row, rules, j);
          assert sofar + [f] <= before + FoundInRow(row, rules);
          RaisesLater(start, sofar + [f], before + FoundInRow(row, rules), faults, now);
          return next, total, true;
        }
        next := inserted.value;
        total := total + 1;
      }
      assert rules[..j] == rules;
      return next, total, false;
    }

    /** Returns true when an exception other than a database error escapes it. */
    method AutoResolveStale(provider: string, threshold: int, fault: ResolveFault) returns (raised: bool)
      modifies this`findings
      ensures raised == (fault == Raised && threshold >= 1)
      ensures findings == if fault == NoFault && threshold >= 1
                          then AutoResolved(old(findings), runs, provider, threshold) else old(findings)
    {
      if threshold < 1 || fault == DbError {
        return false;
      }
      if fault == Raised {
        return true;
      }
      var cutoff := Cutoff(runs, provider, threshold);
      if cutoff.Some? {
        findings := ResolveStale(findings, provider, cutoff.value);
      }
      return false;
    }

    /** Closes the run row; a database error here is logged and leaves the row running. */
    method CloseScanRun(runId: nat, status: RunStatus, count: nat, fails: bool, finishedAt: Time)
      requires runId < |runs|
      modifies this`runs
      ensures runs == if fails then old(runs)
        else old(runs)[runId := old(runs)[runId].(finishedAt := Some(finishedAt), status := status, findingsCount := Some(count))]
    {
      if !fails {
        runs := runs[runId := runs[runId].(finishedAt := Some(finishedAt), status := status, findingsCount := Some(count))];
      }
    }

    /** The ack, resolve and ignore routes; returns whether a row has that id. */
    method SetFindingStatus(id: string, action: Action, now: Time) returns (found: bool)
      modifies this
      ensures Abstract() == Step(old(Abstract()), Acted(id, action, now))
      ensures found == IdTaken(old(findings), id)
    {
      found := IdTaken(findings, id);
      findings := SetStatus(findings, id, StatusOf(action), ExtraTags(action), now);
      clock := now;
    }

    /** The run row the scan route inserts for an out-of-band worker. */
    method CreateScanRun(provider: string, now: Time) returns (runId: nat)
      modifies this
      ensures Abstract() == Step(old(Abstract()), Queued(provider, now))
      ensures runId == old(|runs|)
    {
      runId := |runs|;
      runs := runs + [Run(provider, now, None, Running, None)];
      log := log + [{}];
      clock := now;
    }
  }

  /** The upserts of fs all succeeded, giving t. */
  ghost predicate Folded(start: Table, fs: seq<Finding>, faults: Faults, now: Time, t: Table, count: nat) {
    && count == |fs|
    && UpsertAll(start, fs, now) == Some(t)
    && (faults.upsertFailsAt.Some? ==> |fs| <= faults.upsertFailsAt.value)
  }

  /** Some upsert of fs raised. */
  ghost predicate Raises(start: Table, fs: seq<Finding>, faults: Faults, now: Time) {
    || (faults.upsertFailsAt.Some? && faults.upsertFailsAt.value < |fs|)
    || UpsertAll(start, fs, now).None?
  }

  lemma RaisesLater(start: Table, a: seq<Finding>, b: seq<Finding>, faults: Faults, now: Time)
    requires Raises(start, a, faults, now) && a <= b
    ensures Raises(start, b, faults, now)
  {
    SeqPrefixFails(start, b, |a|, now);
    assert b[..|a|] == a;
  }

  lemma OneMoreUpsert(start: Table, fs: seq<Finding>, faults: Faults, now: Time, t: Table, count: nat, f: Finding)
    requires Folded(start, fs, faults, now, t, count)
    ensures var u := Upsert(t, f, now);
      if faults.upsertFailsAt == Some(count) || u.None? then Raises(start, fs + [f], faults, now)
      else Folded(start, fs + [f], faults, now, u.value, count + 1)
  {
    assert (fs + [f])[..|fs|] == fs;
  }

  lemma OneMoreRow<R>(rows: seq<R>, i: nat, rules: seq<Rule<R>>)
    requires i < |rows|
    ensures FoundIn(rows[..i + 1], rules) == FoundIn(rows[..i], rules) + FoundInRow(rows[i], rules)
  {
    assert rows[..i + 1][..i] == rows[..i];
  }

  lemma OneMoreRule<R>(row: R, rules: seq<Rule<R>>, j: nat)
    requires j < |rules|
    ensures var r := rules[j].fn(row);
      FoundInRow(row, rules[..j + 1]) == if r.Found? then FoundInRow(row, rules[..j]) + [r.finding] else FoundInRow(row, rules[..j])
  {
    assert rules[..j + 1][..j] == rules[..j];
  }

  lemma {:induction false} RowPrefix<R>(row: R, rules: seq<Rule<R>>, j: nat)
    requires j <= |rules|
    ensures FoundInRow(row, rules[..j]) <= FoundInRow(row, rules)
  {
    if j < |rules| {
      RowPrefix(row, rules[..|rules| - 1], j);
      assert rules[..|rules| - 1][..j] == rules[..j];
    } else {
      assert rules[..j] == rules;
    }
  }

  lemma {:induction false} RowsPrefix<R>(rows: seq<R>, i: nat, rules: seq<Rule<R>>)
    requires i <= |rows|
    ensures FoundIn(rows[..i], rules) <= FoundIn(rows, rules)
  {
    if i < |rows| {
      RowsPrefix(rows[..|rows| - 1], i, rules);
      assert rows[..|rows| - 1][..i] == rows[..i];
    } else {
      assert rows[..i] == rows;
    }
  }

  lemma {:induction false} SeqPrefixFails(t: Table, fs: seq<Finding>, n: nat, now: Time)
    requires n <= |fs|
    ensures UpsertAll(t, fs[..n], now).None? ==> UpsertAll(t, fs, now).None?
  {
    if n < |fs| {
      SeqPrefixFails(t, fs[..|fs| - 1], n, now);
      assert fs[..|fs| - 1][..n] == fs[..n];
    } else {
      assert fs[..n] == fs;
    }
  }
}
