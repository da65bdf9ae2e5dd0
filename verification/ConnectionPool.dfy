/** Checking connections out of the sync pool and back in, under timeouts, stale connections
    and failing queries. A pool whose putconn works is assumed. */
module ConnectionPool {
  import opened Wrappers

  const MAX_RETRIES := 3

  /** What one getconn does: a live connection, one that is already closed, no connection, a
      PoolTimeout, or another database error. */
  datatype Answer = Live(conn: nat) | Stale(conn: nat) | Nothing | TimedOut | Broken

  datatype PoolError = PoolTimeout | DatabaseError | NotSerialisable | QueryFailed

  predicate Retried(a: Answer) { a.Stale? || a.Nothing? || a.TimedOut? }

  /** The first answer that is not retried decides, if it comes within three attempts. */
  ghost function Decides(answers: nat -> Answer, attempt: nat): (i: nat)
    requires attempt <= MAX_RETRIES
    ensures attempt <= i <= MAX_RETRIES
    ensures forall j :: attempt <= j < i ==> Retried(answers(j))
    ensures i < MAX_RETRIES ==> !Retried(answers(i))
    decreases MAX_RETRIES - attempt
  {
    if attempt == MAX_RETRIES || !Retried(answers(attempt)) then attempt else Decides(answers, attempt + 1)
  }

  ghost function Connected(answers: nat -> Answer): Result<nat, PoolError> {
    var i := Decides(answers, 0);
    if i == MAX_RETRIES then Err(PoolTimeout)
    else if answers(i).Live? then Ok(answers(i).conn) else Err(DatabaseError)
  }

  /** Getconn number i delivers this live connection after the ones before it delivered none. */
  ghost predicate ServesAt(answers: nat -> Answer, i: nat, conn: nat) {
    && i < 3 && answers(i) == Live(conn)
    && forall j: nat :: j < i ==> answers(j).Stale? || answers(j).Nothing? || answers(j).TimedOut?
  }

  ghost predicate Serves(answers: nat -> Answer, conn: nat) {
    exists i: nat :: ServesAt(answers, i, conn)
  }

  /** Getconn number i raises a database error after the ones before it delivered none. */
  ghost predicate BreaksAt(answers: nat -> Answer, i: nat) {
    && i < 3 && answers(i).Broken?
    && forall j: nat :: j < i ==> answers(j).Stale? || answers(j).Nothing? || answers(j).TimedOut?
  }

  /** Of three attempts the first that delivers a live connection or raises decides. */
  lemma ConnectedIff(answers: nat -> Answer, conn: nat)
    ensures Connected(answers) == Ok(conn) <==> Serves(answers, conn)
    ensures Connected(answers) == Err(DatabaseError) <==> exists i: nat :: BreaksAt(answers, i)
    ensures Connected(answers).Err? ==> Connected(answers).error == DatabaseError || Connected(answers).error == PoolTimeout
  {
    var d := Decides(answers, 0);
    if d < MAX_RETRIES {
      assert answers(d) == Live(conn) ==> ServesAt(answers, d, conn);
      assert answers(d).Broken? ==> BreaksAt(answers, d);
    }
    forall i: nat | ServesAt(answers, i, conn) || BreaksAt(answers, i) ensures i == d {
      assert !Retried(answers(i));
    }
  }

  /** The helpers: the first three dump dict parameters to JSON before their try block,
      insert_and_return only wraps them. */
  datatype Helper = QueryOne | QueryAll | Execute | InsertAndReturn

  /** One helper call: the pool's answers, whether its dict parameters serialise, and whether
      the statement, the fetch or the commit raises. */
  datatype Call = Call(helper: Helper, answers: nat -> Answer, serialisable: bool, fails: bool)

  /** The call leaves its connection checked out. */
  ghost predicate Leaks(c: Call) {
    Connected(c.answers).Ok? && !c.helper.InsertAndReturn? && !c.serialisable
  }

  ghost function Outcome(c: Call): Result<(), PoolError> {
    match Connected(c.answers)
    case Err(e) => Err(e)
    case Ok(_) =>
      if !c.helper.InsertAndReturn? && !c.serialisable then Err(NotSerialisable)
      else if c.fails then Err(QueryFailed) else Ok(())
  }

  /** The pool never hands out a connection that is checked out. */
  ghost predicate HandsOutFree(out: set<nat>, answers: nat -> Answer) {
    forall i :: (answers(i).Live? || answers(i).Stale?) ==> answers(i).conn !in out
  }

  class Pool {
    var checkedOut: set<nat>
    ghost var attempts: nat  // getconn calls of the last GetConnection

    constructor ()
      ensures checkedOut == {}
    {
      checkedOut, attempts := {}, 0;
    }

    /** At most three attempts; one live connection is checked out, or none. */
    method GetConnection(answers: nat -> Answer) returns (r: Result<nat, PoolError>)
      requires HandsOutFree(checkedOut, answers)
      modifies this
      ensures r == Connected(answers)
      ensures forall conn: nat :: r == Ok(conn) <==> Serves(answers, conn)
      ensures r == Err(DatabaseError) <==> exists i: nat :: BreaksAt(answers, i)
      ensures r.Ok? ==> r.value !in old(checkedOut) && checkedOut == old(checkedOut) + {r.value}
      ensures r.Err? ==> checkedOut == old(checkedOut)
      ensures 1 <= attempts <= MAX_RETRIES && attempts == Decides(answers, 0) + if r == Err(PoolTimeout) then 0 else 1
    {
      forall conn: nat ensures Connected(answers) == Ok(conn) <==> Serves(answers, conn) { ConnectedIff(answers, conn); }
      ConnectedIff(answers, 0);
      attempts := 0;
      var attempt := 0;
      while attempt < MAX_RETRIES
        invariant 0 <= attempt < MAX_RETRIES && attempts == attempt
        invariant Decides(answers, 0) == Decides(answers, attempt)
        invariant checkedOut == old(checkedOut)
      {
        var a := answers(attempt);
        attempts := attempts + 1;
        if a.Live? {
          checkedOut := checkedOut + {a.conn};
          return Ok(a.conn);
        }
        if a.Broken? {
          return Err(DatabaseError);
        }
        if a.Stale? {
          checkedOut := checkedOut + {a.conn};
          ReleaseConnection(a.conn);
          assert checkedOut == old(checkedOut);
        }
        if attempt == MAX_RETRIES - 1 {
          return Err(PoolTimeout);
        }
        attempt := attempt + 1;
      }
      assert false;
    }

    method ReleaseConnection(conn: nat)
      modifies this`checkedOut
      ensures checkedOut == old(checkedOut) - {conn}
    {
      checkedOut := checkedOut - {conn};
    }

    /** query_one, query_all, execute and insert_and_return. When the parameters serialise, or
        are only wrapped, the pool is as before whatever it answers and whether or not the
        query fails; otherwise exactly the connection it served stays out. */
    method RunHelper(c: Call) returns (r: Result<(), PoolError>)
      requires HandsOutFree(checkedOut, c.answers)
      modifies this
      ensures r == Outcome(c) && checkedOut == AfterCall(old(checkedOut), c)
      ensures c.serialisable || c.helper == InsertAndReturn ==> checkedOut == old(checkedOut)
      ensures !c.serialisable && c.helper != InsertAndReturn ==>
        forall conn: nat :: conn in checkedOut <==> conn in old(checkedOut) || Serves(c.answers, conn)
      ensures forall conn: nat :: Serves(c.answers, conn) ==> conn !in old(checkedOut)
      ensures r == Err(QueryFailed) <==>
        (exists conn: nat :: Serves(c.answers, conn)) && (c.serialisable || c.helper == InsertAndReturn) && c.fails
      ensures r == Err(NotSerialisable) <==>
        (exists conn: nat :: Serves(c.answers, conn)) && !c.serialisable && c.helper != InsertAndReturn
      ensures r == Ok(()) <==>
        (exists conn: nat :: Serves(c.answers, conn)) && (c.serialisable || c.helper == InsertAndReturn) && !c.fails
    {
      var conn := GetConnection(c.answers);
      assert conn.Ok? ==> Serves(c.answers, conn.value);
      if conn.Err? {
        return Err(conn.error);
      }
      if !c.helper.InsertAndReturn? && !c.serialisable {
        return Err(NotSerialisable);
      }
      r := if c.fails then Err(QueryFailed) else Ok(());
      ReleaseConnection(conn.value);
      assert checkedOut == old(checkedOut);
    }
  }

  // --- Any sequence of calls -------------------------------------------------------------

  ghost function AfterCall(out: set<nat>, c: Call): set<nat> {
    if Leaks(c) then out + {Connected(c.answers).value} else out
  }

  ghost function AfterCalls(out: set<nat>, calls: seq<Call>): set<nat>
    decreases |calls|
  {
    if calls == [] then out else AfterCalls(AfterCall(out, calls[0]), calls[1..])
  }

  ghost predicate Served(out: set<nat>, calls: seq<Call>)
    decreases |calls|
  {
    calls == [] || (HandsOutFree(out, calls[0].answers) && Served(AfterCall(out, calls[0]), calls[1..]))
  }

  /** The call gets a connection and then fails to dump a parameter. */
  ghost predicate Fumbles(c: Call) {
    !c.serialisable && c.helper != InsertAndReturn && exists conn: nat :: Serves(c.answers, conn)
  }

  ghost function FumbleCount(calls: seq<Call>): nat {
    if calls == [] then 0 else (if Fumbles(calls[0]) then 1 else 0) + FumbleCount(calls[1..])
  }

  lemma AfterCallAdds(out: set<nat>, c: Call)
    requires HandsOutFree(out, c.answers)
    ensures |AfterCall(out, c)| == |out| + if Fumbles(c) then 1 else 0
    ensures !Fumbles(c) ==> AfterCall(out, c) == out
    ensures out <= AfterCall(out, c)
  {
    forall conn: nat ensures Connected(c.answers) == Ok(conn) <==> Serves(c.answers, conn) { ConnectedIff(c.answers, conn); }
    if Connected(c.answers).Ok? {
      assert Serves(c.answers, Connected(c.answers).value);
      assert c.answers(Decides(c.answers, 0)).Live?;
    }
  }

  /** A sequence of helper calls ends with one more connection out for each call that got one
      and then failed to serialise its parameters, and with the very same ones out otherwise. */
  lemma {:induction false} NetCheckouts(out: set<nat>, calls: seq<Call>)
    requires Served(out, calls)
    ensures |AfterCalls(out, calls)| == |out| + FumbleCount(calls) && out <= AfterCalls(out, calls)
    ensures AfterCalls(out, calls) == out <==> FumbleCount(calls) == 0
    decreases |calls|
  {
    if calls == [] {
    } else {
      AfterCallAdds(out, calls[0]);
      NetCheckouts(AfterCall(out, calls[0]), calls[1..]);
      SameSize(out, AfterCalls(out, calls));
    }
  }

  lemma SameSize(a: set<nat>, b: set<nat>)
    requires a <= b
    ensures |a| == |b| <==> a == b
  {
    assert b == a + (b - a);
    assert |b| == |a| + |b - a|;
  }

  /** Calls whose parameters serialise bring the pool back to where it was, failing queries,
      timeouts and stale connections included. */
  lemma {:induction false} SerialisableCallsReturnAll(out: set<nat>, calls: seq<Call>)
    requires Served(out, calls)
    requires forall i :: 0 <= i < |calls| ==> calls[i].serialisable || calls[i].helper == InsertAndReturn
    ensures AfterCalls(out, calls) == out
    decreases |calls|
  {
    if calls == [] {
    } else {
      AfterCallAdds(out, calls[0]);
      SerialisableCallsReturnAll(AfterCall(out, calls[0]), calls[1..]);
    }
  }

  /** A query whose dict parameter does not serialise keeps the connection it was given. */
  lemma UnserialisableLeaks() returns (c: Call)
    ensures c.helper == QueryOne && !c.serialisable && Served({}, [c])
    ensures Outcome(c) == Err(NotSerialisable) && AfterCalls({}, [c]) == {7}
  {
    c := Call(QueryOne, _ => Live(7), false, false);
    assert Decides(c.answers, 0) == 0;
    assert Leaks(c) && [c][1..] == [];
    assert AfterCalls({}, [c]) == AfterCalls(AfterCall({}, c), []);
  }
}
