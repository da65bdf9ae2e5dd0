/** The in-memory stores of one-time values behind the OIDC flows: put with an expiry, take
    at most once, sweep. */
module ExpiringStore {
  import opened Wrappers

  type Time = int

  datatype Entry<+V> = Entry(value: V, expiresAt: Time)

  type Store<V> = map<string, Entry<V>>

  /** What a take at `now` returns; the entry is gone afterwards whether or not it expired. */
  function Taken<V>(s: Store<V>, key: string, now: Time): Option<V> {
    if key in s && now <= s[key].expiresAt then Some(s[key].value) else None
  }

  function Swept<V>(s: Store<V>, now: Time): Store<V> {
    map k | k in s && s[k].expiresAt >= now :: s[k]
  }

  datatype Event<+V> =
    | Put(key: string, value: V, ttl: int, at: Time)
    | Take(key: string, at: Time)
    | Sweep(at: Time)

  function Step<V>(s: Store<V>, e: Event<V>): Store<V> {
    match e
    case Put(k, v, ttl, at) => s[k := Entry(v, at + ttl)]
    case Take(k, _) => s - {k}
    case Sweep(at) => Swept(s, at)
  }

  ghost function Run<V>(es: seq<Event<V>>): Store<V> {
    if es == [] then map[] else Step(Run(es[..|es| - 1]), es[|es| - 1])
  }

  ghost predicate NonDecreasing<V>(es: seq<Event<V>>) {
    forall i, j :: 0 <= i < j < |es| ==> es[i].at <= es[j].at
  }

  /** Index of the last put or take of the key, or -1. */
  ghost function LastTouch<V>(es: seq<Event<V>>, key: string): (i: int)
    ensures -1 <= i < |es|
    ensures i >= 0 ==> !es[i].Sweep? && es[i].key == key
    ensures forall j :: i < j < |es| ==> es[j].Sweep? || es[j].key != key
  {
    if es == [] then -1
    else
      var e := es[|es| - 1];
      if !e.Sweep? && e.key == key then |es| - 1 else LastTouch(es[..|es| - 1], key)
  }

  /** A sweep after put i is stamped past that put's expiry. */
  ghost predicate SweptAway<V>(es: seq<Event<V>>, i: nat)
    requires i < |es| && es[i].Put?
  {
    exists j :: i < j < |es| && SweepsPast(es[j], es[i].at + es[i].ttl)
  }

  ghost predicate SweepsPast<V>(e: Event<V>, expiresAt: Time) {
    e.Sweep? && e.at > expiresAt
  }

  /** The last event that named the key was a put. */
  ghost predicate LastPut<V>(es: seq<Event<V>>, key: string) {
    LastTouch(es, key) >= 0 && es[LastTouch(es, key)].Put?
  }

  ghost function EntryOf<V>(e: Event<V>): Entry<V>
    requires e.Put?
  {
    Entry(e.value, e.at + e.ttl)
  }

  /** A key is stored exactly when the last event that named it was a put no sweep removed. */
  lemma {:induction false} StoredIff<V>(es: seq<Event<V>>, key: string)
    ensures key in Run(es) <==> LastPut(es, key) && !SweptAway(es, LastTouch(es, key))
    ensures key in Run(es) ==> Run(es)[key] == EntryOf(es[LastTouch(es, key)])
  {
    if es == [] {
    } else {
      var prev, e := es[..|es| - 1], es[|es| - 1];
      StoredIff(prev, key);
      if LastPut(prev, key) && LastTouch(es, key) == LastTouch(prev, key) {
        SweptAwayMore(es, LastTouch(prev, key));
      }
    }
  }

  lemma SweptAwayMore<V>(es: seq<Event<V>>, i: nat)
    requires i < |es| - 1 && es[i].Put?
    ensures SweptAway(es, i) <==>
      SweptAway(es[..|es| - 1], i) || SweepsPast(es[|es| - 1], es[i].at + es[i].ttl)
  {
    var n := |es| - 1;
    if SweptAway(es[..n], i) {
      var j :| i < j < n && SweepsPast(es[..n][j], es[i].at + es[i].ttl);
      assert SweepsPast(es[j], es[i].at + es[i].ttl);
    }
    if SweptAway(es, i) {
      var j :| i < j < |es| && SweepsPast(es[j], es[i].at + es[i].ttl);
      assert j < n ==> SweepsPast(es[..n][j], es[i].at + es[i].ttl);
    }
  }

  /** A take after any events, on any clock, returns exactly the value of the last event that
      named its key, if that was a put that has not expired and that no sweep after it, stamped
      past its expiry, removed. */
  lemma TakeIff<V>(es: seq<Event<V>>, key: string, now: Time)
    ensures var i := LastTouch(es, key);
      Taken(Run(es), key, now)
        == if LastPut(es, key) && now <= es[i].at + es[i].ttl && !SweptAway(es, i) then Some(es[i].value) else None
  {
    StoredIff(es, key);
  }

  /** Between two takes of one key that both return a value there is a put of that key. */
  lemma AtMostOnce<V>(es: seq<Event<V>>, i: nat, j: nat)
    requires i < j < |es| && es[i].Take? && es[j].Take? && es[i].key == es[j].key
    requires Taken(Run(es[..j]), es[j].key, es[j].at).Some?
    ensures exists p :: i < p < j && es[p].Put? && es[p].key == es[j].key
                     && Taken(Run(es[..j]), es[j].key, es[j].at) == Some(es[p].value)
  {
    TakeIff(es[..j], es[j].key, es[j].at);
    var p := LastTouch(es[..j], es[j].key);
    assert es[..j][i] == es[i] && es[..j][p] == es[p];
  }

  // --- Sweeps are invisible -----------------------------------------------------------

  ghost function Unswept<V>(es: seq<Event<V>>): seq<Event<V>> {
    if es == [] then []
    else
      var prev := Unswept(es[..|es| - 1]);
      if es[|es| - 1].Sweep? then prev else prev + [es[|es| - 1]]
  }

  /** What every take of the run returns, in order. */
  ghost function Results<V>(es: seq<Event<V>>): seq<Option<V>> {
    if es == [] then []
    else
      var prev, e := es[..|es| - 1], es[|es| - 1];
      if e.Take? then Results(prev) + [Taken(Run(prev), e.key, e.at)] else Results(prev)
  }

  /** Without sweeps a key is stored exactly when the last event that named it was a put. */
  lemma {:induction false} UnsweptStoredIff<V>(es: seq<Event<V>>, key: string)
    ensures key in Run(Unswept(es)) <==> LastPut(es, key)
    ensures LastPut(es, key) ==> Run(Unswept(es))[key] == EntryOf(es[LastTouch(es, key)])
  {
    if es == [] {
    } else {
      var prev, e := es[..|es| - 1], es[|es| - 1];
      UnsweptStoredIff(prev, key);
      assert !e.Sweep? ==> (Unswept(prev) + [e])[..|Unswept(prev)|] == Unswept(prev);
    }
  }

  /** A take at now would come in time for the last put of its key, which a sweep stamped past
      the expiry has removed. */
  ghost predicate Missed<V>(es: seq<Event<V>>, key: string, now: Time) {
    LastPut(es, key) &&
    var i := LastTouch(es, key);
    now <= es[i].at + es[i].ttl && SweptAway(es, i)
  }

  /** Event t is a take that a sweep before it makes come back empty. */
  ghost predicate Shows<V>(es: seq<Event<V>>, t: nat)
    requires t < |es|
  {
    es[t].Take? && Missed(es[..t], es[t].key, es[t].at)
  }

  lemma TakesAgreeIff<V>(es: seq<Event<V>>, key: string, now: Time)
    ensures Taken(Run(es), key, now) == Taken(Run(Unswept(es)), key, now) <==> !Missed(es, key, now)
  {
    StoredIff(es, key);
    UnsweptStoredIff(es, key);
  }

  ghost predicate NoneShows<V>(es: seq<Event<V>>) {
    forall t :: 0 <= t < |es| ==> !Shows(es, t)
  }

  lemma NoneShowsMore<V>(es: seq<Event<V>>)
    requires es != []
    ensures NoneShows(es) <==> NoneShows(es[..|es| - 1]) && !Shows(es, |es| - 1)
  {
    var n := |es| - 1;
    forall t | 0 <= t < n ensures Shows(es, t) <==> Shows(es[..n], t) {
      assert es[..t] == es[..n][..t];
    }
  }

  /** Sweeps change which takes of a run return a value, or what they return, exactly when some
      take shows one. */
  lemma {:induction false} SweepsInvisibleIff<V>(es: seq<Event<V>>)
    ensures |Results(es)| == |Results(Unswept(es))|
    ensures Results(es) == Results(Unswept(es)) <==> NoneShows(es)
  {
    if es == [] {
    } else {
      var prev, e := es[..|es| - 1], es[|es| - 1];
      SweepsInvisibleIff(prev);
      NoneShowsMore(es);
      var u := Unswept(prev);
      assert (u + [e])[..|u|] == u;
      if e.Take? {
        TakesAgreeIff(prev, e.key, e.at);
        LastDiffers(Results(prev), Results(u), Taken(Run(prev), e.key, e.at), Taken(Run(u), e.key, e.at));
      }
    }
  }

  lemma LastDiffers<T>(a: seq<T>, b: seq<T>, x: T, y: T)
    requires |a| == |b|
    ensures a + [x] == b + [y] <==> a == b && x == y
  {
    if a + [x] == b + [y] {
      assert (a + [x])[..|a|] == a && (b + [y])[..|b|] == b;
      assert (a + [x])[|a|] == x && (b + [y])[|b|] == y;
    }
  }

  /** On a clock that does not go back, sweeping at any points of any run changes neither which
      takes return a value nor which values they return. */
  lemma SweepsInvisible<V>(es: seq<Event<V>>)
    requires NonDecreasing(es)
    ensures Results(es) == Results(Unswept(es))
  {
    forall t | 0 <= t < |es| ensures !Shows(es, t) {
      InOrderNotShown(es, t);
    }
    SweepsInvisibleIff(es);
  }

  lemma InOrderNotShown<V>(es: seq<Event<V>>, t: nat)
    requires NonDecreasing(es) && t < |es|
    ensures !Shows(es, t)
  {
    var before := es[..t];
    if es[t].Take? && LastPut(before, es[t].key) {
      var i := LastTouch(before, es[t].key);
      if SweptAway(before, i) {
        var j :| i < j < t && SweepsPast(before[j], before[i].at + before[i].ttl);
        assert before[j] == es[j];
      }
    }
  }

  /** time.time() may step back; then a sweep can show: the take at 599 comes in time for a put
      that expires at 600 and that a sweep stamped 601 removed. */
  lemma SweepShowsIfClockSteps<V>(key: string, v: V) returns (es: seq<Event<V>>)
    ensures es == [Put(key, v, 600, 0), Sweep(601), Take(key, 599)]
    ensures Shows(es, 2) && Results(es) != Results(Unswept(es))
  {
    es := [Put(key, v, 600, 0), Sweep(601), Take(key, 599)];
    var before := es[..2];
    assert before[0] == es[0] && before[1] == es[1];
    assert LastPut(before, key) && LastTouch(before, key) == 0;
    assert SweepsPast(before[1], 600) && SweptAway(before, 0);
    assert Shows(es, 2) && !NoneShows(es);
    SweepsInvisibleIff(es);
  }
}
