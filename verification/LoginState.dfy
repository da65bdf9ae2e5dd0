/** The single-use login state of the authorization-code flow. */
module LoginState {
  import opened Wrappers
  import opened ExpiringStore

  const STATE_EXPIRY := 600

  datatype Login = Login(providerId: string, nonce: string, codeVerifier: string)

  datatype StateError = InvalidState | StateExpired

  class LoginStates {
    var states: Store<Login>

    constructor ()
      ensures states == map[]
    {
      states := map[];
    }

    method StoreState(state: string, login: Login, now: Time)
      modifies this
      ensures states == Step(old(states), Put(state, login, 600, now))
    {
      states := states[state := Entry(login, now + STATE_EXPIRY)];
    }

    method ValidateAndConsumeState(state: string, now: Time) returns (r: Result<Login, StateError>)
      modifies this
      ensures states == if state == "" then old(states) else Step(old(states), Take(state, now))
      ensures r == if state == "" || state !in old(states) then Err(InvalidState)
                   else match Taken(old(states), state, now)
                        case None => Err(StateExpired)
                        case Some(login) => Ok(login)
    {
      if state == "" || state !in states {
        assert state != "" ==> states - {state} == states;
        return Err(InvalidState);
      }
      var stored := states[state];
      if now > stored.expiresAt {
        states := states - {state};
        return Err(StateExpired);
      }
      states := states - {state};
      return Ok(stored.value);
    }

    method ClearExpiredStates(now: Time)
      modifies this
      ensures states == Step(old(states), Sweep(now))
    {
      var expired := set s | s in states && states[s].expiresAt < now;
      var pending := expired;
      while pending != {}
        invariant pending <= expired
        invariant states == old(states) - (expired - pending)
        decreases pending
      {
        var s :| s in pending;
        states := states - {s};
        pending := pending - {s};
        assert expired - pending == expired - (pending + {s}) + {s};
      }
      assert states == Swept(old(states), now);
    }
  }

  /** From the moment a login is stored until another event names its state, consuming the state
      at t yields exactly that login, up to 600 seconds later and unless a sweep stamped later
      than that came first. */
  lemma StoredThenConsumed(before: seq<Event<Login>>, state: string, login: Login, now: Time,
                           between: seq<Event<Login>>, t: Time)
    requires Silent(between, state)
    ensures Taken(Run(before + [Put(state, login, 600, now)] + between), state, t)
         == if t <= now + 600 && NoSweepPast(between, now + 600) then Some(login) else None
  {
    var put := Put(state, login, 600, now);
    var es, n := before + [put] + between, |before|;
    LastIsAt(before, put, between, state);
    TakeIff(es, state, t);
    assert es[n] == put;
    forall i | 0 <= i < |between| ensures es[n + 1 + i] == between[i] {}
    if SweptAway(es, n) {
      var j :| n < j < |es| && SweepsPast(es[j], now + 600);
      assert es[j] == between[j - n - 1];
    }
    if !NoSweepPast(between, now + 600) {
      var i :| 0 <= i < |between| && SweepsPast(between[i], now + 600);
      assert SweepsPast(es[n + 1 + i], now + 600);
    }
  }

  /** Once consumed, and until it is stored again, a state yields nothing. */
  lemma ConsumedOnce(before: seq<Event<Login>>, state: string, t: Time, later: seq<Event<Login>>, t': Time)
    requires forall i :: 0 <= i < |later| && later[i].Put? ==> later[i].key != state
    ensures Taken(Run(before + [Take(state, t)] + later), state, t') == None
  {
    var es, n := before + [Take(state, t)] + later, |before|;
    assert es[n] == Take(state, t);
    forall j | n < j < |es| ensures es[j].Put? ==> es[j].key != state {
      assert es[j] == later[j - n - 1];
    }
    assert LastTouch(es, state) >= n;
    TakeIff(es, state, t');
  }

  /** No put or take of this state. */
  ghost predicate Silent(es: seq<Event<Login>>, state: string) {
    forall i :: 0 <= i < |es| ==> es[i].Sweep? || es[i].key != state
  }

  ghost predicate NoSweepPast(es: seq<Event<Login>>, expiresAt: Time) {
    forall i :: 0 <= i < |es| ==> !SweepsPast(es[i], expiresAt)
  }

  lemma LastIsAt(before: seq<Event<Login>>, e: Event<Login>, after: seq<Event<Login>>, state: string)
    requires !e.Sweep? && e.key == state && Silent(after, state)
    ensures LastTouch(before + [e] + after, state) == |before|
  {
    var es := before + [e] + after;
    assert es[|before|] == e;
    forall j | |before| < j < |es| ensures es[j].Sweep? || es[j].key != state {
      assert es[j] == after[j - |before| - 1];
    }
  }
}
