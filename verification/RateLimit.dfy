/** The per-IP sliding-window limiter both OIDC route modules use. */
module RateLimit {

  type Time = int

  datatype Call = Call(ip: string, at: Time)

  /** A call and what the limiter answered. */
  datatype Entry = Entry(ip: string, at: Time, limited: bool)

  /** log is a history variable: every call so far with its answer. */
  datatype State = State(store: map<string, seq<Time>>, log: seq<Entry>)

  const EMPTY := State(map[], [])

  /** [t for t in ts if now - t < window] */
  function Recent(ts: seq<Time>, now: Time, window: int): seq<Time> {
    if ts == [] then []
    else if now - ts[0] < window then [ts[0]] + Recent(ts[1..], now, window)
    else Recent(ts[1..], now, window)
  }

  function Stored(store: map<string, seq<Time>>, ip: string): seq<Time> {
    if ip in store then store[ip] else []
  }

  /** One call of _check_rate_limit. */
  ghost function Step(s: State, c: Call, maxAttempts: int, window: int): State {
    var recent := Recent(Stored(s.store, c.ip), c.at, window);
    var limited := |recent| >= maxAttempts;
    State(s.store[c.ip := if limited then recent else recent + [c.at]],
          s.log + [Entry(c.ip, c.at, limited)])
  }

  class RateLimiter {
    var store: map<string, seq<Time>>
    ghost var log: seq<Entry>

    ghost function Abstract(): State
      reads this
    {
      State(store, log)
    }

    constructor ()
      ensures Abstract() == EMPTY
    {
      store, log := map[], [];
    }

    /** Returns true if the call is refused. */
    method CheckRateLimit(ip: string, maxAttempts: int, window: int, now: Time) returns (limited: bool)
      modifies this
      ensures Abstract() == Step(old(Abstract()), Call(ip, now), maxAttempts, window)
      ensures log == old(log) + [Entry(ip, now, limited)]
    {
      if ip !in store {
        store := store[ip := []];
      }
      store := store[ip := Recent(store[ip], now, window)];
      if |store[ip]| >= maxAttempts {
        log := log + [Entry(ip, now, true)];
        return true;
      }
      store := store[ip := store[ip] + [now]];
      log := log + [Entry(ip, now, false)];
      return false;
    }
  }

  // --- Whole call sequences -------------------------------------------------------------

  ghost function Run(calls: seq<Call>, maxAttempts: int, window: int): State {
    if calls == [] then EMPTY
    else Step(Run(calls[..|calls| - 1], maxAttempts, window), calls[|calls| - 1], maxAttempts, window)
  }

  ghost predicate NonDecreasing(calls: seq<Call>) {
    forall i, j :: 0 <= i < j < |calls| ==> calls[i].at <= calls[j].at
  }

  /** Times of the accepted calls of one ip, oldest first. */
  ghost function Accepted(log: seq<Entry>, ip: string): seq<Time> {
    if log == [] then []
    else
      var e := log[|log| - 1];
      var before := Accepted(log[..|log| - 1], ip);
      if e.ip == ip && !e.limited then before + [e.at] else before
  }

  /** How many of ts lie in [from, until). */
  ghost function CountIn(ts: seq<Time>, from: Time, until: Time): nat {
    if ts == [] then 0 else (if from <= ts[0] < until then 1 else 0) + CountIn(ts[1..], from, until)
  }

  lemma {:induction false} CountInAppend(a: seq<Time>, t: Time, from: Time, until: Time)
    ensures CountIn(a + [t], from, until) == CountIn(a, from, until) + (if from <= t < until then 1 else 0)
  {
    if a == [] {
      assert a + [t] == [t];
    } else {
      assert (a + [t])[1..] == a[1..] + [t];
      CountInAppend(a[1..], t, from, until);
    }
  }

  lemma {:induction false} RecentAppend(a: seq<Time>, t: Time, now: Time, window: int)
    ensures Recent(a + [t], now, window)
         == if now - t < window then Recent(a, now, window) + [t] else Recent(a, now, window)
  {
    if a == [] {
      assert a + [t] == [t];
    } else {
      assert (a + [t])[1..] == a[1..] + [t];
      RecentAppend(a[1..], t, now, window);
    }
  }

  /** Pruning twice on a clock that does not go back is pruning once. */
  lemma {:induction false} RecentTwice(ts: seq<Time>, earlier: Time, now: Time, window: int)
    requires earlier <= now
    ensures Recent(Recent(ts, earlier, window), now, window) == Recent(ts, now, window)
  {
    if ts == [] {
    } else {
      RecentTwice(ts[1..], earlier, now, window);
      var r := Recent(ts[1..], earlier, window);
      if earlier - ts[0] < window { assert ([ts[0]] + r)[1..] == r; }
    }
  }

  ghost predicate NoneAfter(ts: seq<Time>, now: Time) {
    forall i :: 0 <= i < |ts| ==> ts[i] <= now
  }

  /** Among times not after now, the pruned ones are those in the window that ends at now. */
  lemma {:induction false} RecentIsWindow(ts: seq<Time>, now: Time, window: int)
    requires NoneAfter(ts, now)
    ensures |Recent(ts, now, window)| == CountIn(ts, now - window + 1, now + 1)
  {
    if ts == [] {
    } else {
      RecentIsWindow(ts[1..], now, window);
    }
  }

  /** Any window that reaches back no further holds no more of them. */
  lemma {:induction false} CountWithinRecent(ts: seq<Time>, from: Time, until: Time, now: Time, window: int)
    requires now - from < window
    ensures CountIn(ts, from, until) <= |Recent(ts, now, window)|
  {
    if ts == [] {
    } else {
      CountWithinRecent(ts[1..], from, until, now, window);
    }
  }

  lemma AcceptedStep(s: State, c: Call, maxAttempts: int, window: int, ip: string)
    ensures var limited := |Recent(Stored(s.store, c.ip), c.at, window)| >= maxAttempts;
      Accepted(Step(s, c, maxAttempts, window).log, ip)
        == if c.ip == ip && !limited then Accepted(s.log, ip) + [c.at] else Accepted(s.log, ip)
  {
    var s' := Step(s, c, maxAttempts, window);
    assert s'.log[..|s.log|] == s.log;
  }

  /** The stored list and the whole accepted history prune to the same list from now on. */
  lemma {:induction false} StoreTracksHistory(calls: seq<Call>, maxAttempts: int, window: int, ip: string, now: Time)
    requires NonDecreasing(calls) && forall i :: 0 <= i < |calls| ==> calls[i].at <= now
    ensures var s := Run(calls, maxAttempts, window);
      Recent(Stored(s.store, ip), now, window) == Recent(Accepted(s.log, ip), now, window)
  {
    if calls == [] {
    } else {
      var prev, c := calls[..|calls| - 1], calls[|calls| - 1];
      var s := Run(prev, maxAttempts, window);
      AcceptedStep(s, c, maxAttempts, window, ip);
      StoreTracksHistory(prev, maxAttempts, window, ip, now);
      if c.ip == ip {
        var recent := Recent(Stored(s.store, ip), c.at, window);
        RecentTwice(Stored(s.store, ip), c.at, now, window);
        RecentAppend(recent, c.at, now, window);
        RecentAppend(Accepted(s.log, ip), c.at, now, window);
      }
    }
  }

  lemma {:induction false} AcceptedNotAfter(calls: seq<Call>, maxAttempts: int, window: int, ip: string, now: Time)
    requires forall i :: 0 <= i < |calls| ==> calls[i].at <= now
    ensures NoneAfter(Accepted(Run(calls, maxAttempts, window).log, ip), now)
  {
    if calls == [] {
    } else {
      var prev, c := calls[..|calls| - 1], calls[|calls| - 1];
      AcceptedNotAfter(prev, maxAttempts, window, ip, now);
      AcceptedStep(Run(prev, maxAttempts, window), c, maxAttempts, window, ip);
      assert c.at <= now;
    }
  }

  lemma InOrderBefore(calls: seq<Call>, c: Call)
    requires NonDecreasing(calls + [c])
    ensures NonDecreasing(calls) && forall i :: 0 <= i < |calls| ==> calls[i].at <= c.at
  {
    forall i, j | 0 <= i < j < |calls| ensures calls[i].at <= calls[j].at {
      assert (calls + [c])[i] == calls[i] && (calls + [c])[j] == calls[j];
    }
    forall i | 0 <= i < |calls| ensures calls[i].at <= c.at {
      assert (calls + [c])[i] == calls[i] && (calls + [c])[|calls|] == c;
    }
  }

  /** After any earlier calls, a call is refused exactly when maxAttempts accepted calls of
      its ip lie in the window of that length ending at it. */
  lemma RefusedIff(calls: seq<Call>, c: Call, maxAttempts: int, window: int)
    requires NonDecreasing(calls + [c])
    ensures var s := Run(calls, maxAttempts, window);
      Step(s, c, maxAttempts, window).log[|s.log|].limited <==>
      CountIn(Accepted(s.log, c.ip), c.at - window + 1, c.at + 1) >= maxAttempts
  {
    InOrderBefore(calls, c);
    StoreTracksHistory(calls, maxAttempts, window, c.ip, c.at);
    AcceptedNotAfter(calls, maxAttempts, window, c.ip, c.at);
    RecentIsWindow(Accepted(Run(calls, maxAttempts, window).log, c.ip), c.at, window);
  }

  /** One step keeps the bound of a window, if what is stored prunes to what was accepted. */
  lemma WindowStep(s: State, c: Call, maxAttempts: int, window: int, ip: string, from: Time)
    requires Recent(Stored(s.store, c.ip), c.at, window) == Recent(Accepted(s.log, c.ip), c.at, window)
    requires LogWithin(s.log, maxAttempts, window, ip, from)
    ensures LogWithin(Step(s, c, maxAttempts, window).log, maxAttempts, window, ip, from)
  {
    AcceptedStep(s, c, maxAttempts, window, ip);
    var a := Accepted(s.log, ip);
    CountInAppend(a, c.at, from, from + window);
    if c.ip == ip && from <= c.at < from + window {
      CountWithinRecent(a, from, from + window, c.at, window);
    }
  }

  /** At most maxAttempts accepted calls of the ip lie in the window that starts at from. */
  ghost predicate LogWithin(log: seq<Entry>, maxAttempts: int, window: int, ip: string, from: Time) {
    CountIn(Accepted(log, ip), from, from + window) <= if maxAttempts >= 0 then maxAttempts else 0
  }

  /** Over every call sequence on a clock that does not go back, no half-open interval of
      length window holds more than maxAttempts accepted calls of one ip. */
  lemma {:induction false} WindowBound(calls: seq<Call>, maxAttempts: int, window: int, ip: string, from: Time)
    requires NonDecreasing(calls)
    ensures LogWithin(Run(calls, maxAttempts, window).log, maxAttempts, window, ip, from)
  {
    if calls == [] {
    } else {
      var prev, c := calls[..|calls| - 1], calls[|calls| - 1];
      WindowBound(prev, maxAttempts, window, ip, from);
      StoreTracksHistory(prev, maxAttempts, window, c.ip, c.at);
      WindowStep(Run(prev, maxAttempts, window), c, maxAttempts, window, ip, from);
    }
  }

  // --- Independence of ips ----------------------------------------------------------------

  ghost function CallsOf(calls: seq<Call>, ip: string): seq<Call> {
    if calls == [] then []
    else
      var before := CallsOf(calls[..|calls| - 1], ip);
      if calls[|calls| - 1].ip == ip then before + [calls[|calls| - 1]] else before
  }

  ghost function EntriesOf(log: seq<Entry>, ip: string): seq<Entry> {
    if log == [] then []
    else
      var before := EntriesOf(log[..|log| - 1], ip);
      if log[|log| - 1].ip == ip then before + [log[|log| - 1]] else before
  }

  /** Every answer one ip gets is the answer it would get if no other ip had called. */
  lemma {:induction false} IpsIndependent(calls: seq<Call>, maxAttempts: int, window: int, ip: string)
    ensures SameAlone(Run(calls, maxAttempts, window), Run(CallsOf(calls, ip), maxAttempts, window), ip)
  {
    if calls == [] {
    } else {
      var prev, c := calls[..|calls| - 1], calls[|calls| - 1];
      var own := CallsOf(prev, ip);
      IpsIndependent(prev, maxAttempts, window, ip);
      AloneStep(Run(prev, maxAttempts, window), Run(own, maxAttempts, window), c, maxAttempts, window, ip);
      RunAppend(own, c, maxAttempts, window);
    }
  }

  /** Seen by one ip, the store and log are as if no other ip had called. */
  ghost predicate SameAlone(all: State, own: State, ip: string) {
    EntriesOf(all.log, ip) == own.log && Stored(all.store, ip) == Stored(own.store, ip)
  }

  lemma AloneStep(all: State, own: State, c: Call, maxAttempts: int, window: int, ip: string)
    requires SameAlone(all, own, ip)
    ensures SameAlone(Step(all, c, maxAttempts, window),
                      if c.ip == ip then Step(own, c, maxAttempts, window) else own, ip)
  {
    var s' := Step(all, c, maxAttempts, window);
    assert s'.log[..|all.log|] == all.log;
  }

  lemma RunAppend(calls: seq<Call>, c: Call, maxAttempts: int, window: int)
    ensures Run(calls + [c], maxAttempts, window) == Step(Run(calls, maxAttempts, window), c, maxAttempts, window)
  {
    assert (calls + [c])[..|calls|] == calls;
  }

  // --- Without a clock in order ----------------------------------------------------------

  ghost predicate Within(calls: seq<Call>, maxAttempts: int, window: int, ip: string, from: Time) {
    LogWithin(Run(calls, maxAttempts, window).log, maxAttempts, window, ip, from)
  }

  /** The window bound on call sequences whose times come in any order: it holds of all of them
      exactly when one attempt or none is allowed, or the window is empty. So for more attempts
      it rests on the order the callers keep, by awaiting nothing between reading the monotonic
      clock and appending to the list. */
  lemma BoundOnAnyClockIff(maxAttempts: int, window: int)
    ensures (forall calls, ip, from :: Within(calls, maxAttempts, window, ip, from)) <==> maxAttempts <= 1 || window <= 0
  {
    if maxAttempts <= 1 || window <= 0 {
      forall calls, ip, from ensures Within(calls, maxAttempts, window, ip, from) {
        WithinOnAnyClock(calls, maxAttempts, window, ip, from);
      }
    } else {
      var calls := OneTooMany(maxAttempts, window);
      assert !Within(calls, maxAttempts, window, "a", 0);
    }
  }

  lemma WithinOnAnyClock(calls: seq<Call>, maxAttempts: int, window: int, ip: string, from: Time)
    requires maxAttempts <= 1 || window <= 0
    ensures Within(calls, maxAttempts, window, ip, from)
  {
    var s := Run(calls, maxAttempts, window);
    if window <= 0 {
      EmptyWindow(Accepted(s.log, ip), from, from + window);
    } else if maxAttempts <= 0 {
      NoneAccepted(calls, maxAttempts, window, ip);
    } else {
      OneAttemptRun(calls, window, ip);
      SpacedCount(Accepted(s.log, ip), window, from);
    }
  }

  lemma {:induction false} EmptyWindow(ts: seq<Time>, from: Time, until: Time)
    requires until <= from || forall i :: 0 <= i < |ts| ==> ts[i] >= until
    ensures CountIn(ts, from, until) == 0
  {
    if ts == [] {
    } else {
      EmptyWindow(ts[1..], from, until);
    }
  }

  lemma {:induction false} NoneAccepted(calls: seq<Call>, maxAttempts: int, window: int, ip: string)
    requires maxAttempts <= 0
    ensures Accepted(Run(calls, maxAttempts, window).log, ip) == []
  {
    if calls == [] {
    } else {
      var prev := calls[..|calls| - 1];
      NoneAccepted(prev, maxAttempts, window, ip);
      AcceptedStep(Run(prev, maxAttempts, window), calls[|calls| - 1], maxAttempts, window, ip);
    }
  }

  ghost predicate Spaced(ts: seq<Time>, window: int) {
    forall i, j :: 0 <= i < j < |ts| ==> ts[i] + window <= ts[j]
  }

  /** With one attempt only the last accepted call is stored, and each comes a window later. */
  ghost predicate OneAttempt(s: State, window: int, ip: string) {
    var a := Accepted(s.log, ip);
    Spaced(a, window) && Stored(s.store, ip) == if a == [] then [] else [a[|a| - 1]]
  }

  lemma OneAttemptStep(s: State, c: Call, window: int, ip: string)
    requires window > 0 && OneAttempt(s, window, ip)
    ensures OneAttempt(Step(s, c, 1, window), window, ip)
  {
    AcceptedStep(s, c, 1, window, ip);
    var a := Accepted(s.log, ip);
    if a != [] { RecentOne(a[|a| - 1], c.at, window); }
    if a == [] || c.at - a[|a| - 1] >= window { SpacedMore(a, c.at, window); }
  }

  lemma RecentOne(t: Time, now: Time, window: int)
    ensures Recent([t], now, window) == if now - t < window then [t] else []
  {
    assert [t][1..] == [];
  }

  lemma SpacedMore(a: seq<Time>, t: Time, window: int)
    requires window > 0 && Spaced(a, window) && (a != [] ==> a[|a| - 1] + window <= t)
    ensures Spaced(a + [t], window)
  {
    forall i | 0 <= i < |a| ensures a[i] + window <= t {
      assert i < |a| - 1 ==> a[i] + window <= a[|a| - 1];
    }
  }

  lemma {:induction false} OneAttemptRun(calls: seq<Call>, window: int, ip: string)
    requires window > 0
    ensures OneAttempt(Run(calls, 1, window), window, ip)
  {
    if calls == [] {
    } else {
      OneAttemptRun(calls[..|calls| - 1], window, ip);
      OneAttemptStep(Run(calls[..|calls| - 1], 1, window), calls[|calls| - 1], window, ip);
    }
  }

  lemma SpacedCount(ts: seq<Time>, window: int, from: Time)
    requires window > 0 && Spaced(ts, window)
    ensures CountIn(ts, from, from + window) <= 1
  {
    if ts == [] {
    } else {
      SpacedCount(ts[1..], window, from);
      if from <= ts[0] {
        EmptyWindow(ts[1..], from, from + window);
      }
    }
  }

  ghost function Zeros(n: nat): seq<Time> {
    if n == 0 then [] else Zeros(n - 1) + [0]
  }

  lemma {:induction false} ZerosFacts(n: nat, window: int)
    requires window > 0
    ensures |Zeros(n)| == n && CountIn(Zeros(n), 0, window) == n
    ensures Recent(Zeros(n), 0, window) == Zeros(n) && Recent(Zeros(n), window, window) == []
  {
    if n == 0 {
    } else {
      ZerosFacts(n - 1, window);
      CountInAppend(Zeros(n - 1), 0, 0, window);
      RecentAppend(Zeros(n - 1), 0, 0, window);
      RecentAppend(Zeros(n - 1), 0, window, window);
    }
  }

  /** What is stored and was accepted for "a" after these calls. */
  ghost predicate Now(calls: seq<Call>, maxAttempts: int, window: int, stored: seq<Time>, accepted: seq<Time>) {
    var s := Run(calls, maxAttempts, window);
    Stored(s.store, "a") == stored && Accepted(s.log, "a") == accepted
  }

  lemma AcceptsOne(calls: seq<Call>, maxAttempts: int, window: int, stored: seq<Time>, accepted: seq<Time>, at: Time)
    requires Now(calls, maxAttempts, window, stored, accepted) && |Recent(stored, at, window)| < maxAttempts
    ensures Now(calls + [Call("a", at)], maxAttempts, window, Recent(stored, at, window) + [at], accepted + [at])
  {
    RunAppend(calls, Call("a", at), maxAttempts, window);
    AcceptedStep(Run(calls, maxAttempts, window), Call("a", at), maxAttempts, window, "a");
  }

  lemma {:induction false} Fills(n: nat, maxAttempts: int, window: int) returns (calls: seq<Call>)
    requires n <= maxAttempts && window > 0
    ensures Now(calls, maxAttempts, window, Zeros(n), Zeros(n))
  {
    calls := [];
    if n == 0 {
    } else {
      var before := Fills(n - 1, maxAttempts, window);
      ZerosFacts(n - 1, window);
      AcceptsOne(before, maxAttempts, window, Zeros(n - 1), Zeros(n - 1), 0);
      calls := before + [Call("a", 0)];
    }
  }

  /** maxAttempts calls at 0, one at window that prunes them all, and one stamped window - 1. */
  lemma OneTooMany(maxAttempts: int, window: int) returns (calls: seq<Call>)
    requires maxAttempts >= 2 && window > 0
    ensures !Within(calls, maxAttempts, window, "a", 0)
  {
    var pruned := Pruned(maxAttempts, window);
    calls := pruned + [Call("a", window - 1)];
    RecentOne(window, window - 1, window);
    AcceptsOne(pruned, maxAttempts, window, [window], Zeros(maxAttempts) + [window], window - 1);
    TooMany(calls, maxAttempts, window);
  }

  lemma TooMany(calls: seq<Call>, maxAttempts: int, window: int)
    requires maxAttempts >= 2 && window > 0
    requires Now(calls, maxAttempts, window, [window] + [window - 1], Zeros(maxAttempts) + [window] + [window - 1])
    ensures !Within(calls, maxAttempts, window, "a", 0)
  {
    OneTooManyCount(maxAttempts, window);
  }

  lemma Pruned(maxAttempts: int, window: int) returns (calls: seq<Call>)
    requires maxAttempts >= 2 && window > 0
    ensures Now(calls, maxAttempts, window, [window], Zeros(maxAttempts) + [window])
  {
    var z := Zeros(maxAttempts);
    ZerosFacts(maxAttempts, window);
    calls := Fills(maxAttempts, maxAttempts, window);
    AcceptsOne(calls, maxAttempts, window, z, z, window);
    calls := calls + [Call("a", window)];
    assert [] + [window] == [window];
  }

  lemma OneTooManyCount(maxAttempts: int, window: int)
    requires maxAttempts >= 2 && window > 0
    ensures CountIn(Zeros(maxAttempts) + [window] + [window - 1], 0, window) == maxAttempts + 1
  {
    var z := Zeros(maxAttempts);
    ZerosFacts(maxAttempts, window);
    CountInAppend(z, window, 0, window);
    CountInAppend(z + [window], window - 1, 0, window);
  }
}
