/** What one scan's ordered upserts amount to, said without the fold. */
module WastageUpsert {
  import opened WastageState

  /** Index of the last finding of key k, or -1. */
  ghost function LastIndex(fs: seq<Finding>, k: Key): (i: int)
    ensures -1 <= i < |fs|
    ensures i >= 0 ==> fs[i].key == k
    ensures forall j :: i < j < |fs| ==> fs[j].key != k
  {
    if fs == [] then -1
    else if fs[|fs| - 1].key == k then |fs| - 1 else LastIndex(fs[..|fs| - 1], k)
  }

  /** Index of the first finding of key k, or -1. */
  ghost function FirstIndex(fs: seq<Finding>, k: Key): (i: int)
    ensures -1 <= i < |fs|
    ensures i >= 0 ==> fs[i].key == k && forall j :: 0 <= j < i ==> fs[j].key != k
    ensures i == -1 ==> forall j :: 0 <= j < |fs| ==> fs[j].key != k
  {
    if fs == [] then -1
    else
      var i := FirstIndex(fs[..|fs| - 1], k);
      if i >= 0 then i else if fs[|fs| - 1].key == k then |fs| - 1 else -1
  }

  lemma FoundIffIndexed(fs: seq<Finding>, k: Key)
    ensures k in KeysOf(fs) <==> FirstIndex(fs, k) >= 0
    ensures k in KeysOf(fs) <==> LastIndex(fs, k) >= 0
  {
    if k in KeysOf(fs) {
      var i :| 0 <= i < |fs| && fs[i].key == k;
    }
  }

  /** The row a scan at `now` leaves for a key it found: data of the last finding; identity,
      first sighting and status of the row that was there, else of the first finding. */
  ghost function SightedRow(t: Table, fs: seq<Finding>, k: Key, now: Time): Row
    requires FirstIndex(fs, k) >= 0 && LastIndex(fs, k) >= 0
  {
    var first, last := fs[FirstIndex(fs, k)], fs[LastIndex(fs, k)];
    if k in t
    then Row(t[k].findingId, t[k].descr, last.cost, last.evidence, last.tags, t[k].firstSeen, now, t[k].status)
    else Row(first.findingId, first.descr, last.cost, last.evidence, last.tags, now, now, Open)
  }

  lemma {:induction false} UpsertAllAt(t: Table, fs: seq<Finding>, now: Time, k: Key)
    requires UpsertAll(t, fs, now).Some?
    ensures var r := UpsertAll(t, fs, now).value;
      && (k in r <==> k in t || FirstIndex(fs, k) >= 0)
      && (FirstIndex(fs, k) >= 0 <==> LastIndex(fs, k) >= 0)
      && (FirstIndex(fs, k) < 0 && k in t ==> r[k] == t[k])
      && (FirstIndex(fs, k) >= 0 ==> r[k] == SightedRow(t, fs, k, now))
  {
    if fs == [] {
    } else {
      UpsertAllAt(t, fs[..|fs| - 1], now, k);
    }
  }

  /** The row carries what the last finding of its key says and the time; on an existing row
      the id, the insert-only columns, the first sighting and the status are as they were, and a
      new one has them from the first finding and is open. */
  ghost predicate CarriesFinding(t: Table, r: Row, k: Key, first: Finding, last: Finding, now: Time) {
    && r.cost == last.cost && r.evidence == last.evidence && r.tags == last.tags && r.lastSeen == now
    && (if k in t
        then r.findingId == t[k].findingId && r.descr == t[k].descr && r.firstSeen == t[k].firstSeen && r.status == t[k].status
        else r.findingId == first.findingId && r.descr == first.descr && r.firstSeen == now && r.status == Open)
  }

  /** One committed scan, row by row: nothing is deleted, rows nobody sighted are untouched,
      and every sighted row carries its findings. */
  lemma UpsertAllEffect(t: Table, fs: seq<Finding>, now: Time)
    requires UpsertAll(t, fs, now).Some?
    ensures var r := UpsertAll(t, fs, now).value;
      && r.Keys == t.Keys + KeysOf(fs)
      && (forall k :: k in t && k !in KeysOf(fs) ==> r[k] == t[k])
      && (forall k :: k in KeysOf(fs) ==>
           FirstIndex(fs, k) >= 0 && LastIndex(fs, k) >= 0
           && CarriesFinding(t, r[k], k, fs[FirstIndex(fs, k)], fs[LastIndex(fs, k)], now))
  {
    var r := UpsertAll(t, fs, now).value;
    forall k
      ensures k in r <==> k in t || k in KeysOf(fs)
      ensures k in t && k !in KeysOf(fs) ==> r[k] == t[k]
      ensures k in KeysOf(fs) ==>
        FirstIndex(fs, k) >= 0 && LastIndex(fs, k) >= 0
        && CarriesFinding(t, r[k], k, fs[FirstIndex(fs, k)], fs[LastIndex(fs, k)], now)
    {
      UpsertAllAt(t, fs, now, k);
      FoundIffIndexed(fs, k);
    }
  }

  /** Finding i inserts a row: its key is neither in the table nor found before i. */
  ghost predicate Inserts(t: Table, fs: seq<Finding>, i: int) {
    0 <= i < |fs| && fs[i].key !in t && FirstIndex(fs, fs[i].key) == i
  }

  ghost predicate InsertsId(t: Table, fs: seq<Finding>, id: string) {
    exists j :: Inserts(t, fs, j) && fs[j].findingId == id
  }

  /** Finding i inserts a row whose finding_id another row already holds by then. */
  ghost predicate Clashes(t: Table, fs: seq<Finding>, i: int) {
    Inserts(t, fs, i) && (IdTaken(t, fs[i].findingId) || InsertsId(t, fs[..i], fs[i].findingId))
  }

  lemma InsertsPrefix(t: Table, fs: seq<Finding>, n: nat)
    requires n + 1 == |fs|
    ensures forall j :: 0 <= j < n ==> (Inserts(t, fs, j) <==> Inserts(t, fs[..n], j))
    ensures forall j :: 0 <= j < n ==> (Clashes(t, fs, j) <==> Clashes(t, fs[..n], j))
  {
    forall j | 0 <= j < n
      ensures Inserts(t, fs, j) <==> Inserts(t, fs[..n], j)
      ensures fs[..j] == fs[..n][..j]
    {
      assert fs[..n][j] == fs[j];
    }
  }

  /** The ids in the table after the upserts: those there before and those inserted. */
  lemma {:induction false} IdsAfter(t: Table, fs: seq<Finding>, now: Time, id: string)
    requires UpsertAll(t, fs, now).Some?
    ensures IdTaken(UpsertAll(t, fs, now).value, id) <==> IdTaken(t, id) || InsertsId(t, fs, id)
  {
    if fs == [] {
    } else {
      var n := |fs| - 1;
      var init, f := fs[..n], fs[n];
      IdsAfter(t, init, now, id);
      UpsertAllAt(t, init, now, f.key);
      IdAfterOne(UpsertAll(t, init, now).value, f, now, id);
      assert Inserts(t, fs, n) <==> f.key !in UpsertAll(t, init, now).value;
      InsertsIdSplit(t, fs, n, id);
    }
  }

  lemma InsertsIdSplit(t: Table, fs: seq<Finding>, n: nat, id: string)
    requires n + 1 == |fs|
    ensures InsertsId(t, fs, id) <==> InsertsId(t, fs[..n], id) || (Inserts(t, fs, n) && fs[n].findingId == id)
  {
    InsertsPrefix(t, fs, n);
    if InsertsId(t, fs[..n], id) {
      var j :| Inserts(t, fs[..n], j) && fs[..n][j].findingId == id;
      assert Inserts(t, fs, j) && fs[j].findingId == id;
    }
    if InsertsId(t, fs, id) {
      var j :| Inserts(t, fs, j) && fs[j].findingId == id;
      assert j < n ==> Inserts(t, fs[..n], j) && fs[..n][j].findingId == id;
    }
  }

  lemma IdAfterOne(u: Table, f: Finding, now: Time, id: string)
    requires Upsert(u, f, now).Some?
    ensures IdTaken(Upsert(u, f, now).value, id) <==> IdTaken(u, id) || (f.key !in u && f.findingId == id)
  {
    var r := Upsert(u, f, now).value;
    assert forall k :: k in u ==> k in r && r[k].findingId == u[k].findingId;
    if f.key !in u && f.findingId == id { assert r[f.key].findingId == id; }
  }

  /** The upserts raise exactly when some inserted row would repeat a finding_id. */
  lemma {:induction false} UpsertAllRaises(t: Table, fs: seq<Finding>, now: Time)
    ensures UpsertAll(t, fs, now).None? <==> exists i :: Clashes(t, fs, i)
  {
    if fs == [] {
    } else {
      var n := |fs| - 1;
      var init := fs[..n];
      UpsertAllRaises(t, init, now);
      InsertsPrefix(t, fs, n);
      if UpsertAll(t, init, now).None? {
        var i :| Clashes(t, init, i);
        assert Clashes(t, fs, i);
      } else {
        UpsertAllAt(t, init, now, fs[n].key);
        IdsAfter(t, init, now, fs[n].findingId);
        assert UpsertAll(t, fs, now).None? <==> Clashes(t, fs, n);
        forall i | Clashes(t, fs, i) ensures i == n {
          assert i < n ==> Clashes(t, init, i);
        }
      }
    }
  }
}
