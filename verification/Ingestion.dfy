/** Batched `INSERT ... ON CONFLICT (record_id) DO NOTHING` into cost_records, one commit a
    batch, with a failure possible at any batch. */
module Ingestion {
  import opened Wrappers

  type Time = int

  /** A normalised record; ingestedAt is stamped anew each time it is extracted. */
  datatype Record = Record(id: string, data: string, ingestedAt: Time)

  type Table = map<string, Record>

  function InsertOne(t: Table, r: Record): Table {
    if r.id in t then t else t[r.id := r]
  }

  /** The uninterrupted first-write-wins insert of a record list. */
  function FirstWins(t: Table, rs: seq<Record>): Table {
    if rs == [] then t else InsertOne(FirstWins(t, rs[..|rs| - 1]), rs[|rs| - 1])
  }

  ghost function IdsOf(rs: seq<Record>): set<string> {
    set i | 0 <= i < |rs| :: rs[i].id
  }

  function Min(a: int, b: int): int { if a < b then a else b }

  const DEFAULT_BATCH_SIZE := 500

  /** The batch length the streaming loop really uses. */
  function Effective(batchSize: int): nat
    ensures Effective(batchSize) >= 1
    ensures batchSize >= 1 ==> Effective(batchSize) == batchSize
    ensures batchSize == 0 ==> Effective(batchSize) == 500
    ensures batchSize < 0 ==> Effective(batchSize) == 1
  {
    if batchSize == 0 then DEFAULT_BATCH_SIZE else if batchSize < 0 then 1 else batchSize
  }

  /** Where batch k starts, reached as the loops reach it. */
  ghost function BatchStart(k: nat, size: nat): nat {
    if k == 0 then 0 else BatchStart(k - 1, size) + size
  }

  datatype Failure = BadBatchSize | BatchFailed | SourceFailed

  class CostRecords {
    var rows: Table

    constructor ()
      ensures rows == map[]
    {
      rows := map[];
    }

    /** One executemany and commit; on failure the transaction is rolled back. The count is of
        rows really inserted, as RETURNING reports them. */
    method InsertBatch(batch: seq<Record>, fails: bool) returns (inserted: Option<nat>)
      modifies this
      ensures fails ==> inserted == None && rows == old(rows)
      ensures !fails ==> rows == FirstWins(old(rows), batch) && inserted.Some? && |rows| == |old(rows)| + inserted.value
    {
      if fails {
        return None;
      }
      var pending, count, i := rows, 0, 0;
      while i < |batch|
        invariant 0 <= i <= |batch|
        invariant pending == FirstWins(rows, batch[..i]) && |pending| == |rows| + count
      {
        assert batch[..i + 1][..i] == batch[..i];
        if batch[i].id !in pending {
          pending := pending[batch[i].id := batch[i]];
          count := count + 1;
        }
        i := i + 1;
      }
      assert batch[..i] == batch;
      rows := pending;
      return Some(count);
    }

    /** The AWS, Azure and LiteLLM loop over fixed slices; batch failAt raises. It reports
        records attempted. A run that raises has committed the batches before the failing one;
        batchSize zero is the ValueError of range, and a negative one inserts nothing. */
    method InsertRecords(records: seq<Record>, batchSize: int, failAt: Option<nat>)
      returns (r: Result<nat, Failure>)
      modifies this
      ensures batchSize == 0 ==> r == Err(BadBatchSize) && rows == old(rows)
      ensures batchSize < 0 ==> r == Ok(0) && rows == old(rows)
      ensures batchSize >= 1 ==>
        if failAt.None? || BatchStart(failAt.value, batchSize) >= |records|
        then r == Ok(|records|) && Holds(old(rows), rows, records, |records|)
        else r == Err(BatchFailed) && Holds(old(rows), rows, records, BatchStart(failAt.value, batchSize))
    {
      if batchSize == 0 {
        return Err(BadBatchSize);
      }
      if batchSize < 0 {
        return Ok(0);
      }
      var total, i, k := 0, 0, 0;
      while i < |records|
        invariant 0 <= i && i == BatchStart(k, batchSize)
        invariant Holds(old(rows), rows, records, Min(i, |records|))
        invariant total == Min(i, |records|)
        invariant failAt.Some? ==> k <= failAt.value
        decreases |records| - i
      {
        var end := Min(i + batchSize, |records|);
        ghost var now := rows;
        var inserted := InsertBatch(records[i..end], failAt == Some(k));
        if inserted.None? {
          return Err(BatchFailed);
        }
        HoldsMore(old(rows), now, records, i, end);
        total := total + (end - i);
        i := i + batchSize;
        k := k + 1;
      }
      if failAt.Some? {
        BatchStartMono(k, failAt.value, batchSize);
      }
      return Ok(total);
    }

    /** Inserts rows done..i of a list whose first `done` rows the table already holds, and adds
        to the count of rows inserted since it was `was`. */
    method Flush(batch: seq<Record>, fails: bool, total: nat, ghost was: Table, ghost records: seq<Record>, ghost done: nat, ghost i: nat)
      returns (newTotal: Option<nat>)
      requires done <= i <= |records| && batch == records[done..i] && Grown(was, rows, records, done, total)
      modifies this
      ensures newTotal.None? <==> fails
      ensures fails ==> rows == old(rows)
      ensures !fails ==> Grown(was, rows, records, i, newTotal.value)
    {
      var inserted := InsertBatch(batch, fails);
      if inserted.None? {
        return None;
      }
      HoldsMore(was, old(rows), records, done, i);
      return Some(total + inserted.value);
    }

    /** The GCP loop: rows are streamed, a full batch is flushed as soon as it is full, and the
        result counts rows really inserted. sourceFailsAt is the row whose read or
        normalisation raises, failAt the flush that raises. A run that raises has committed the
        whole batches before the failing flush, or before the batch of the failing row. */
    method Extract(records: seq<Record>, batchSize: int, sourceFailsAt: Option<nat>, failAt: Option<nat>)
      returns (r: Result<nat, Failure>, ghost flushes: nat)
      modifies this
      ensures r.Ok? ==> Grown(old(rows), rows, records, |records|, r.value)
      ensures r.Err? ==> Stopped(old(rows), rows, records, Effective(batchSize), flushes, r.error, sourceFailsAt, failAt)
      ensures r == Err(BatchFailed) <==> FlushFails(|records|, Effective(batchSize), sourceFailsAt, failAt)
      ensures r.Ok? <==> !FlushFails(|records|, Effective(batchSize), sourceFailsAt, failAt) && !ReadFails(|records|, sourceFailsAt)
    {
      var size := if batchSize == 0 then DEFAULT_BATCH_SIZE else batchSize;
      var raised, total, k, batch, done := Stream(records, size, sourceFailsAt, failAt);
      flushes := k;
      if raised.Some? {
        return Err(raised.value), flushes;
      }
      if batch != [] {
        var flushed := Flush(batch, failAt == Some(k), total, old(rows), records, done, |records|);
        if flushed.None? {
          return Err(BatchFailed), flushes;
        }
        total := flushed.value;
      }
      NothingStops(|records|, done, k, Effective(batchSize), sourceFailsAt, failAt);
      return Ok(total), flushes;
    }

    /** Its loop: `batch` is what is left to flush after k whole batches, up to row `done`. */
    method Stream(records: seq<Record>, size: int, sourceFailsAt: Option<nat>, failAt: Option<nat>)
      returns (raised: Option<Failure>, total: nat, k: nat, batch: seq<Record>, ghost done: nat)
      requires size != 0
      modifies this
      ensures raised.None? ==>
        && Streaming(|records|, done, k, Effective(size), sourceFailsAt, failAt)
        && batch == records[done..] && Grown(old(rows), rows, records, done, total)
      ensures raised.Some? ==>
        && Stopped(old(rows), rows, records, Effective(size), k, raised.value, sourceFailsAt, failAt)
        && (raised.value == BatchFailed <==> FlushFails(|records|, Effective(size), sourceFailsAt, failAt))
        && (raised.value == SourceFailed ==> ReadFails(|records|, sourceFailsAt))
    {
      total, k, batch, done := 0, 0, [], 0;
      var i := 0;
      while i < |records|
        invariant 0 <= done <= i <= |records| && batch == records[done..i]
        invariant Grown(old(rows), rows, records, done, total)
        invariant Streaming(i, done, k, Effective(size), sourceFailsAt, failAt)
      {
        if sourceFailsAt == Some(i) {
          ReadStops(|records|, i, done, k, Effective(size), sourceFailsAt, failAt);
          return Some(SourceFailed), total, k, batch, done;
        }
        batch := batch + [records[i]];
        i := i + 1;
        assert batch == records[done..i];
        if |batch| >= size {
          FlushDue(|records|, i, done, k, Effective(size), sourceFailsAt, failAt);
          var flushed := Flush(batch, failAt == Some(k), total, old(rows), records, done, i);
          if flushed.None? {
            return Some(BatchFailed), total, k, batch, done;
          }
          total, k, batch, done := flushed.value, k + 1, [], i;
        }
      }
      return None, total, k, batch, done;
    }
  }

  ghost predicate ReadFails(n: nat, sourceFailsAt: Option<nat>) {
    sourceFailsAt.Some? && sourceFailsAt.value < n
  }

  /** Flush failAt is reached: its batch has rows, and no row up to its last one fails. */
  ghost predicate FlushFails(n: nat, size: nat, sourceFailsAt: Option<nat>, failAt: Option<nat>) {
    && failAt.Some? && BatchStart(failAt.value, size) < n
    && (sourceFailsAt.Some? ==> sourceFailsAt.value >= Min(BatchStart(failAt.value + 1, size), n))
  }

  /** Rows up to i are read, `flushes` whole batches up to `done` flushed, nothing has failed. */
  ghost predicate Streaming(i: nat, done: nat, flushes: nat, size: nat, sourceFailsAt: Option<nat>, failAt: Option<nat>) {
    && done == BatchStart(flushes, size) && done <= i && i - done < size
    && (sourceFailsAt.Some? ==> i <= sourceFailsAt.value)
    && (failAt.Some? ==> flushes <= failAt.value)
  }

  /** Row i completes batch `flushes`, whose flush is due. */
  lemma FlushDue(n: nat, i: nat, done: nat, flushes: nat, size: nat, sourceFailsAt: Option<nat>, failAt: Option<nat>)
    requires 0 < i <= n && i - done == size && sourceFailsAt != Some(i - 1)
    requires Streaming(i - 1, done, flushes, size, sourceFailsAt, failAt)
    ensures failAt == Some(flushes) ==> FlushFails(n, size, sourceFailsAt, failAt)
    ensures failAt != Some(flushes) ==> Streaming(i, i, flushes + 1, size, sourceFailsAt, failAt)
  {
  }

  lemma ReadStops(n: nat, i: nat, done: nat, flushes: nat, size: nat, sourceFailsAt: Option<nat>, failAt: Option<nat>)
    requires Streaming(i, done, flushes, size, sourceFailsAt, failAt) && i < n && sourceFailsAt == Some(i)
    ensures !FlushFails(n, size, sourceFailsAt, failAt)
    ensures i < BatchStart(flushes + 1, size)
  {
    if failAt.Some? {
      BatchStartMono(flushes + 1, failAt.value + 1, size);
    }
  }

  lemma NothingStops(n: nat, done: nat, flushes: nat, size: nat, sourceFailsAt: Option<nat>, failAt: Option<nat>)
    requires Streaming(n, done, flushes, size, sourceFailsAt, failAt)
    requires done < n ==> failAt != Some(flushes)
    ensures !FlushFails(n, size, sourceFailsAt, failAt) && !ReadFails(n, sourceFailsAt)
  {
    if failAt.Some? && failAt.value > flushes {
      BatchStartMono(flushes + 1, failAt.value, size);
    }
  }

  /** The table is what it was plus the first n records, first write winning. */
  ghost predicate Holds(was: Table, rows: Table, records: seq<Record>, n: nat) {
    n <= |records| && rows == FirstWins(was, records[..n])
  }

  /** And it grew by total rows. */
  ghost predicate Grown(was: Table, rows: Table, records: seq<Record>, n: nat, total: nat) {
    Holds(was, rows, records, n) && |rows| == |was| + total
  }

  /** A streaming run of batches of `size` stopped with k batches committed: its k-th flush
      raised, or the source raised on a row of batch k. */
  ghost predicate Stopped(was: Table, rows: Table, records: seq<Record>, size: nat, k: nat, error: Failure,
                          sourceFailsAt: Option<nat>, failAt: Option<nat>)
  {
    && Holds(was, rows, records, BatchStart(k, size))
    && match error
       case BadBatchSize => false
       case BatchFailed => failAt == Some(k)
       case SourceFailed =>
         sourceFailsAt.Some? && BatchStart(k, size) <= sourceFailsAt.value < BatchStart(k + 1, size)
  }

  lemma HoldsMore(was: Table, now: Table, records: seq<Record>, n: nat, m: nat)
    requires Holds(was, now, records, n) && n <= m <= |records|
    ensures Holds(was, FirstWins(now, records[n..m]), records, m)
  {
    FirstWinsSplit(was, records[..n], records[n..m]);
    assert records[..n] + records[n..m] == records[..m];
  }

  lemma {:induction false} BatchStartMono(k: nat, n: nat, size: nat)
    requires k <= n && size >= 1
    ensures BatchStart(k, size) <= BatchStart(n, size)
    ensures k < n ==> BatchStart(k, size) < BatchStart(n, size)
  {
    if k == n {
    } else {
      BatchStartMono(k, n - 1, size);
    }
  }

  // --- Facts about first-write-wins ------------------------------------------------------

  lemma {:induction false} FirstWinsSplit(t: Table, a: seq<Record>, b: seq<Record>)
    ensures FirstWins(t, a + b) == FirstWins(FirstWins(t, a), b)
  {
    if b == [] {
      assert a + b == a;
    } else {
      assert (a + b)[..|a + b| - 1] == a + b[..|b| - 1];
      FirstWinsSplit(t, a, b[..|b| - 1]);
    }
  }

  /** Index of the first record with that id, or -1. */
  ghost function FirstIndex(rs: seq<Record>, id: string): (i: int)
    ensures -1 <= i < |rs|
    ensures i >= 0 ==> rs[i].id == id && forall j :: 0 <= j < i ==> rs[j].id != id
    ensures i == -1 ==> forall j :: 0 <= j < |rs| ==> rs[j].id != id
  {
    if rs == [] then -1
    else
      var i := FirstIndex(rs[..|rs| - 1], id);
      if i >= 0 then i else if rs[|rs| - 1].id == id then |rs| - 1 else -1
  }

  /** Row by row: what was there stays; otherwise the first record of the id is the row. */
  lemma {:induction false} FirstWinsAt(t: Table, rs: seq<Record>, id: string)
    ensures id in FirstWins(t, rs) <==> id in t || FirstIndex(rs, id) >= 0
    ensures id in t ==> FirstWins(t, rs)[id] == t[id]
    ensures id !in t && FirstIndex(rs, id) >= 0 ==> FirstWins(t, rs)[id] == rs[FirstIndex(rs, id)]
  {
    if rs == [] {
    } else {
      FirstWinsAt(t, rs[..|rs| - 1], id);
    }
  }

  /** The table grows by the number of distinct ids it did not hold. */
  lemma FirstWinsGrowth(t: Table, rs: seq<Record>)
    ensures |FirstWins(t, rs)| == |t| + |IdsOf(rs) - t.Keys|
  {
    KeysAfter(t, rs);
    UnionSize(t.Keys, IdsOf(rs));
    assert |FirstWins(t, rs)| == |FirstWins(t, rs).Keys| && |t| == |t.Keys|;
  }

  lemma KeysAfter(t: Table, rs: seq<Record>)
    ensures FirstWins(t, rs).Keys == t.Keys + IdsOf(rs)
  {
    forall id ensures id in FirstWins(t, rs).Keys <==> id in t.Keys + IdsOf(rs) {
      FirstWinsAt(t, rs, id);
      IndexedIffId(rs, id);
    }
  }

  lemma UnionSize(a: set<string>, b: set<string>)
    ensures |a + b| == |a| + |b - a|
  {
    assert a + b == a + (b - a);
    assert |a + (b - a)| == |a| + |b - a|;
  }

  lemma IndexedIffId(rs: seq<Record>, id: string)
    ensures id in IdsOf(rs) <==> FirstIndex(rs, id) >= 0
  {
    if id in IdsOf(rs) {
      var i :| 0 <= i < |rs| && rs[i].id == id;
    }
  }

  // --- Crash and re-run ---------------------------------------------------------------------

  /** A run that failed: it had extracted these records and committed the first `committed`. */
  datatype Attempt = Attempt(records: seq<Record>, committed: nat)

  ghost predicate Possible(a: Attempt) { a.committed <= |a.records| }

  ghost function AfterAttempts(t: Table, attempts: seq<Attempt>): Table
    requires forall i :: 0 <= i < |attempts| ==> Possible(attempts[i])
    decreases |attempts|
  {
    if attempts == [] then t
    else
      assert Possible(attempts[0]);
      AfterAttempts(FirstWins(t, attempts[0].records[..attempts[0].committed]), attempts[1..])
  }

  lemma FirstIndexPrefix(rs: seq<Record>, n: nat, id: string)
    requires n <= |rs|
    ensures FirstIndex(rs[..n], id) >= 0 ==> FirstIndex(rs[..n], id) == FirstIndex(rs, id)
  {
    var i := FirstIndex(rs[..n], id);
    if i >= 0 {
      assert rs[..n][i] == rs[i];
      forall m | 0 <= m < i ensures rs[m].id != id { assert rs[..n][m] == rs[m]; }
    }
  }

  /** Re-running after a committed prefix adds what is missing and nothing else. */
  lemma PrefixThenAll(t: Table, rs: seq<Record>, n: nat)
    requires n <= |rs|
    ensures FirstWins(FirstWins(t, rs[..n]), rs) == FirstWins(t, rs)
  {
    var u := FirstWins(t, rs[..n]);
    forall id
      ensures id in FirstWins(u, rs) <==> id in FirstWins(t, rs)
      ensures id in FirstWins(u, rs) ==> FirstWins(u, rs)[id] == FirstWins(t, rs)[id]
    {
      FirstWinsAt(t, rs[..n], id);
      FirstWinsAt(t, rs, id);
      FirstWinsAt(u, rs, id);
      FirstIndexPrefix(rs, n, id);
    }
  }

  /** Any number of runs that fail after any number of batches, then one complete run: the
      table is that of one uninterrupted first-write-wins insert. */
  lemma {:induction false} Converges(t: Table, rs: seq<Record>, attempts: seq<Attempt>)
    requires forall i :: 0 <= i < |attempts| ==> Possible(attempts[i]) && attempts[i].records == rs
    ensures FirstWins(AfterAttempts(t, attempts), rs) == FirstWins(t, rs)
    decreases |attempts|
  {
    if attempts == [] {
    } else {
      PrefixThenAll(t, rs, attempts[0].committed);
      Converges(FirstWins(t, rs[..attempts[0].committed]), rs, attempts[1..]);
    }
  }

  // --- Re-extraction stamps new ingestion times ----------------------------------------------

  ghost predicate SameData(a: Record, b: Record) { a.id == b.id && a.data == b.data }

  ghost predicate SameList(a: seq<Record>, b: seq<Record>) {
    |a| == |b| && forall i :: 0 <= i < |a| ==> SameData(a[i], b[i])
  }

  ghost predicate SameTable(a: Table, b: Table) {
    a.Keys == b.Keys && forall id :: id in a ==> SameData(a[id], b[id])
  }

  lemma {:induction false} FirstWinsSame(t: Table, u: Table, a: seq<Record>, b: seq<Record>)
    requires SameTable(t, u) && SameList(a, b)
    ensures SameTable(FirstWins(t, a), FirstWins(u, b))
  {
    if a == [] {
    } else {
      FirstWinsSame(t, u, a[..|a| - 1], b[..|b| - 1]);
    }
  }

  /** When every attempt re-extracts the same data under new ingestion times, the table is
      still that of one uninterrupted insert, up to those times. */
  lemma {:induction false} ConvergesUpToStamps(t: Table, u: Table, rs: seq<Record>, attempts: seq<Attempt>, last: seq<Record>)
    requires forall i :: 0 <= i < |attempts| ==> Possible(attempts[i]) && SameList(attempts[i].records, rs)
    requires SameList(last, rs) && SameTable(t, u)
    ensures SameTable(FirstWins(AfterAttempts(t, attempts), last), FirstWins(u, rs))
    decreases |attempts|
  {
    if attempts == [] {
      FirstWinsSame(t, u, last, rs);
    } else {
      var n := attempts[0].committed;
      var t', u' := FirstWins(t, attempts[0].records[..n]), FirstWins(u, rs[..n]);
      FirstWinsSame(t, u, attempts[0].records[..n], rs[..n]);
      ConvergesUpToStamps(t', u', rs, attempts[1..], last);
      PrefixThenAll(u, rs, n);
    }
  }
}
