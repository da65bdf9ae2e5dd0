/** What every interleaving of device starts, polls and sweeps keeps. */
module DeviceFlowSafety {
  import opened ExpiringStore
  import opened DeviceFlow

  ghost predicate Runs(s: State, es: seq<FlowEvent>)
    decreases |es|
  {
    es == [] || (Fits(s, es[0]) && Runs(FlowStep(s, es[0]), es[1..]))
  }

  ghost function After(s: State, es: seq<FlowEvent>): State
    requires Runs(s, es)
    decreases |es|
  {
    if es == [] then s else After(FlowStep(s, es[0]), es[1..])
  }

  ghost predicate HeldBy(s: State, poll: nat, code: string) {
    poll in s.inflight && s.inflight[poll].code == code
  }

  ghost predicate IsHeld(s: State, code: string) {
    exists p :: HeldBy(s, p, code)
  }

  /** A poll of this code has ended for good. */
  ghost predicate UsedUp(s: State, code: string) {
    exists i :: 0 <= i < |s.finishes| && Final(s.finishes[i], code)
  }

  ghost predicate Final(f: Finish, code: string) {
    f.code == code && !f.ending.Restores()
  }

  /** A code is in at most one place: stored, held, used up or lapsed; it is in one of them
      exactly when it was started; and wherever it is its metadata is what it started with. */
  ghost predicate CodeOk(s: State, c: string) {
    && (c in s.codes ==> !IsHeld(s, c) && !UsedUp(s, c) && c !in s.lapsed)
    && (IsHeld(s, c) ==> !UsedUp(s, c) && c !in s.lapsed)
    && (UsedUp(s, c) ==> c !in s.lapsed)
    && (c in s.started <==> c in s.codes || IsHeld(s, c) || UsedUp(s, c) || c in s.lapsed)
    && (c in s.codes ==> s.codes[c].value == s.started[c])
    && (forall p :: HeldBy(s, p, c) ==> s.inflight[p].meta == s.started[c])
    && (forall p, q :: HeldBy(s, p, c) && HeldBy(s, q, c) ==> p == q)
    && (forall i, j | 0 <= i < |s.finishes| && 0 <= j < |s.finishes| ::
          Final(s.finishes[i], c) && Final(s.finishes[j], c) ==> i == j)
  }

  ghost predicate Inv(s: State) {
    forall c :: CodeOk(s, c)
  }

  lemma BeginKeeps(s: State, poll: nat, code: string, at: Time, c: string)
    requires Inv(s) && poll !in s.inflight
    ensures CodeOk(Begin(s, poll, code, at), c)
  {
    var s' := Begin(s, poll, code, at);
    assert CodeOk(s, c);
    if Taken(s.codes, code, at).Some? {
      forall p ensures HeldBy(s', p, c) <==> HeldBy(s, p, c) || (p == poll && c == code) {}
      if c == code { assert HeldBy(s', poll, c); }
    } else {
      forall p ensures HeldBy(s', p, c) <==> HeldBy(s, p, c) {}
    }
    assert UsedUp(s', c) <==> UsedUp(s, c);
    if IsHeld(s, c) { var p :| HeldBy(s, p, c); assert HeldBy(s', p, c); }
  }

  lemma EndKeeps(s: State, poll: nat, ending: Ending, at: Time, c: string)
    requires Inv(s) && poll in s.inflight
    ensures CodeOk(End(s, poll, ending, at), c)
  {
    var s' := End(s, poll, ending, at);
    var code := s.inflight[poll].code;
    assert CodeOk(s, c);
    assert HeldBy(s, poll, code);
    forall p ensures HeldBy(s', p, c) <==> HeldBy(s, p, c) && p != poll {}
    forall i | 0 <= i < |s.finishes| ensures s'.finishes[i] == s.finishes[i] {}
    assert s'.finishes[|s.finishes|] == Finish(code, ending);
    if UsedUp(s, c) { var i :| 0 <= i < |s.finishes| && Final(s.finishes[i], c); assert Final(s'.finishes[i], c); }
    if c == code {
      assert !IsHeld(s', c);
      if !ending.Restores() { assert Final(s'.finishes[|s.finishes|], c); }
    } else {
      assert UsedUp(s', c) <==> UsedUp(s, c);
      if IsHeld(s, c) { var p :| HeldBy(s, p, c); assert HeldBy(s', p, c); }
    }
  }

  lemma StoreOnlyKeeps(s: State, s': State, c: string)
    requires CodeOk(s, c) && s'.inflight == s.inflight && s'.finishes == s.finishes
    ensures forall p :: HeldBy(s', p, c) <==> HeldBy(s, p, c)
    ensures IsHeld(s', c) <==> IsHeld(s, c)
    ensures UsedUp(s', c) <==> UsedUp(s, c)
  {
    forall p ensures HeldBy(s', p, c) <==> HeldBy(s, p, c) {}
  }

  lemma StepKeepsInv(s: State, e: FlowEvent)
    requires Inv(s) && Fits(s, e)
    ensures Inv(FlowStep(s, e))
  {
    var s' := FlowStep(s, e);
    forall c ensures CodeOk(s', c) {
      assert CodeOk(s, c);
      match e
      case Start(_, _, _, _) => StoreOnlyKeeps(s, s', c);
      case PollBegin(poll, code, at) => BeginKeeps(s, poll, code, at, c);
      case PollEnd(poll, reply, login, at) => EndKeeps(s, poll, Ends(reply, login), at, c);
      case SweepCodes(_) => StoreOnlyKeeps(s, s', c);
    }
  }

  /** Every reachable state satisfies Inv, whatever the interleaving. */
  lemma {:induction false} ReachableInv(s: State, es: seq<FlowEvent>)
    requires Inv(s) && Runs(s, es)
    ensures Inv(After(s, es))
    decreases |es|
  {
    if es == [] {
    } else {
      StepKeepsInv(s, es[0]);
      ReachableInv(FlowStep(s, es[0]), es[1..]);
    }
  }

  lemma EmptyInv()
    ensures Inv(EMPTY)
  {
    forall c ensures CodeOk(EMPTY, c) {}
  }

  /** Any two polls that ended for good ended different codes; in particular at most one poll
      of a code completes, and at most one creates a user. */
  lemma OneFinalPollPerCode(es: seq<FlowEvent>, i: nat, j: nat)
    requires Runs(EMPTY, es)
    requires i < j < |After(EMPTY, es).finishes|
    requires var f := After(EMPTY, es).finishes; !f[i].ending.Restores() && !f[j].ending.Restores()
    ensures var f := After(EMPTY, es).finishes; f[i].code != f[j].code
    ensures var f := After(EMPTY, es).finishes;
      f[i].ending.Provisions() && f[j].ending.Provisions() ==> f[i].code != f[j].code
  {
    EmptyInv();
    ReachableInv(EMPTY, es);
    var s := After(EMPTY, es);
    assert CodeOk(s, s.finishes[i].code);
    assert Final(s.finishes[i], s.finishes[i].code);
  }

  /** In no reachable state is a code both stored and held, or held by two polls. */
  lemma NeverSharedOrDuplicated(es: seq<FlowEvent>, p: nat, q: nat)
    requires Runs(EMPTY, es)
    ensures var s := After(EMPTY, es);
      && (p in s.inflight ==> s.inflight[p].code !in s.codes)
      && (p in s.inflight && q in s.inflight && s.inflight[p].code == s.inflight[q].code ==> p == q)
  {
    EmptyInv();
    ReachableInv(EMPTY, es);
    var s := After(EMPTY, es);
    if p in s.inflight {
      assert CodeOk(s, s.inflight[p].code);
      assert HeldBy(s, p, s.inflight[p].code);
      assert q in s.inflight && s.inflight[p].code == s.inflight[q].code ==> HeldBy(s, q, s.inflight[p].code);
    }
  }

  /** Once a poll of a code has ended for good, no later poll of it gets past the pop, and it
      never returns to the store. */
  lemma {:induction false} UsedUpForGood(s: State, es: seq<FlowEvent>, code: string, poll: nat, at: Time)
    requires Inv(s) && Runs(s, es) && UsedUp(s, code)
    ensures var s' := After(s, es);
      UsedUp(s', code) && code !in s'.codes && Taken(s'.codes, code, at).None?
      && (poll !in s'.inflight ==> poll !in FlowStep(s', PollBegin(poll, code, at)).inflight)
    decreases |es|
  {
    if es == [] {
      assert CodeOk(s, code);
    } else {
      var s' := FlowStep(s, es[0]);
      var i :| 0 <= i < |s.finishes| && Final(s.finishes[i], code);
      assert Final(s'.finishes[i], code);
      StepKeepsInv(s, es[0]);
      UsedUpForGood(s', es[1..], code, poll, at);
    }
  }

  /** Whatever a code went through, what is stored or held under it is the provider, client
      credentials and interval it was started with. */
  lemma {:induction false} MetadataKept(s: State, es: seq<FlowEvent>, code: string, p: nat)
    requires Inv(s) && Runs(s, es) && code in s.started
    ensures var s' := After(s, es);
      && code in s'.started && s'.started[code] == s.started[code]
      && (code in s'.codes ==> s'.codes[code].value == s.started[code])
      && (p in s'.inflight && s'.inflight[p].code == code ==> s'.inflight[p].meta == s.started[code])
    decreases |es|
  {
    if es == [] {
      assert CodeOk(s, code);
      assert p in s.inflight && s.inflight[p].code == code ==> HeldBy(s, p, code);
    } else {
      StepKeepsInv(s, es[0]);
      MetadataKept(FlowStep(s, es[0]), es[1..], code, p);
    }
  }

  /** A code a poll popped is never lost while it is live: it is back in the store when the
      poll ends unless that ending is final. */
  lemma PoppedCodeReturns(s: State, poll: nat, reply: Reply, login: Login, at: Time)
    requires Inv(s) && poll in s.inflight
    ensures var code := s.inflight[poll].code;
      var s' := FlowStep(s, PollEnd(poll, reply, login, at));
      && (code in s'.codes <==> Ends(reply, login).Restores())
      && (UsedUp(s', code) <==> !Ends(reply, login).Restores())
  {
    var code := s.inflight[poll].code;
    var s' := FlowStep(s, PollEnd(poll, reply, login, at));
    assert CodeOk(s, code);
    assert HeldBy(s, poll, code);
    StepKeepsInv(s, PollEnd(poll, reply, login, at));
    assert CodeOk(s', code);
    forall p ensures !HeldBy(s', p, code) { assert HeldBy(s', p, code) ==> HeldBy(s, p, code); }
    assert s'.finishes[|s.finishes|] == Finish(code, Ends(reply, login));
    if !Ends(reply, login).Restores() { assert Final(s'.finishes[|s.finishes|], code); }
  }

  // --- When a poll gets past the pop ----------------------------------------------------------

  lemma {:induction false} RunsSplit(s: State, es: seq<FlowEvent>)
    requires Runs(s, es) && es != []
    ensures var prev := es[..|es| - 1];
      Runs(s, prev) && Fits(After(s, prev), es[|es| - 1]) && After(s, es) == FlowStep(After(s, prev), es[|es| - 1])
    decreases |es|
  {
    if |es| == 1 {
    } else {
      RunsSplit(FlowStep(s, es[0]), es[1..]);
      assert es[1..][..|es| - 2] == es[..|es| - 1][1..];
    }
  }

  lemma {:induction false} RunsPrefix(es: seq<FlowEvent>, n: nat)
    requires Runs(EMPTY, es) && n <= |es|
    ensures Runs(EMPTY, es[..n])
  {
    if n == |es| {
      assert es[..n] == es;
    } else {
      RunsSplit(EMPTY, es);
      RunsPrefix(es[..|es| - 1], n);
      assert es[..|es| - 1][..n] == es[..n];
    }
  }

  /** The lifetime in seconds that a reply gives a code it puts back, if it does: what an answer
      that asks to wait says, 300 if it says nothing, and 300 for a retry. */
  ghost predicate PutsBackFor(reply: Reply, login: Login, seconds: int) {
    match reply
    case ProviderGone => false
    case Failed(oidc) => oidc && seconds == 300
    case Answer(None, _, idToken) => (idToken == "" || login.VerifyFails?) && seconds == 300
    case Answer(Some(error), expiresIn, _) =>
      if error == "authorization_pending" || error == "slow_down" then
        expiresIn == Seconds(seconds) || (expiresIn == Absent && seconds == 300)
      else
        error != "expired_token" && error != "access_denied" && seconds == 300
  }

  /** In this state the event puts the code, to expire then: its start, or the end of the poll
      that holds it. */
  ghost predicate Puts(s: State, e: FlowEvent, code: string, expiresAt: Time) {
    match e
    case Start(c, _, expiresIn, at) => c == code && expiresAt == at + expiresIn
    case PollEnd(poll, reply, login, at) => HeldBy(s, poll, code) && PutsBackFor(reply, login, expiresAt - at)
    case _ => false
  }

  /** A poll of the code begins, or a sweep comes that is stamped past the expiry. */
  ghost predicate Removes(e: FlowEvent, code: string, expiresAt: Time) {
    (e.PollBegin? && e.code == code) || (e.SweepCodes? && e.at > expiresAt)
  }

  ghost predicate StoredTill(s: State, code: string, expiresAt: Time) {
    code in s.codes && s.codes[code].expiresAt == expiresAt
  }

  lemma PutsBackIff(reply: Reply, login: Login, seconds: int)
    ensures PutsBackFor(reply, login, seconds) <==> Ends(reply, login).Restores() && Ends(reply, login).Ttl() == seconds
  {
  }

  lemma StepStores(s: State, e: FlowEvent, code: string, expiresAt: Time)
    requires Inv(s) && Fits(s, e)
    ensures StoredTill(FlowStep(s, e), code, expiresAt) <==>
      Puts(s, e, code, expiresAt) || (StoredTill(s, code, expiresAt) && !Removes(e, code, expiresAt))
  {
    assert CodeOk(s, code);
    match e
    case Start(_, _, _, _) =>
    case PollBegin(_, _, _) =>
    case PollEnd(poll, reply, login, at) =>
      assert HeldBy(s, poll, code) ==> IsHeld(s, code);
      PutsBackIff(reply, login, expiresAt - at);
    case SweepCodes(_) =>
  }

  /** Event i is a put of the code, to expire then. */
  ghost predicate PutAt(es: seq<FlowEvent>, i: nat, code: string, expiresAt: Time) {
    i < |es| && Runs(EMPTY, es[..i]) && Puts(After(EMPTY, es[..i]), es[i], code, expiresAt)
  }

  /** Event i is a put of the code that nothing since has removed. */
  ghost predicate LiveSince(es: seq<FlowEvent>, i: nat, code: string, expiresAt: Time) {
    PutAt(es, i, code, expiresAt) && forall j :: i < j < |es| ==> !Removes(es[j], code, expiresAt)
  }

  lemma LiveSinceMore(es: seq<FlowEvent>, i: nat, code: string, expiresAt: Time)
    requires es != [] && i < |es| - 1
    ensures LiveSince(es, i, code, expiresAt) <==>
      LiveSince(es[..|es| - 1], i, code, expiresAt) && !Removes(es[|es| - 1], code, expiresAt)
  {
    var prev := es[..|es| - 1];
    assert prev[..i] == es[..i];
    assert forall j :: i < j < |prev| ==> prev[j] == es[j];
  }

  /** A code is stored, to expire then, exactly when some event put it so and nothing since has
      removed it. */
  lemma {:induction false} StoredIff(es: seq<FlowEvent>, code: string, expiresAt: Time)
    requires Runs(EMPTY, es)
    ensures StoredTill(After(EMPTY, es), code, expiresAt) <==> exists i: nat :: LiveSince(es, i, code, expiresAt)
  {
    if es == [] {
    } else {
      var n := |es| - 1;
      var prev, e := es[..n], es[n];
      RunsSplit(EMPTY, es);
      StoredIff(prev, code, expiresAt);
      EmptyInv();
      ReachableInv(EMPTY, prev);
      StepStores(After(EMPTY, prev), e, code, expiresAt);
      assert Puts(After(EMPTY, prev), e, code, expiresAt) <==> LiveSince(es, n, code, expiresAt);
      forall i: nat | i < n
        ensures LiveSince(es, i, code, expiresAt) <==> LiveSince(prev, i, code, expiresAt) && !Removes(e, code, expiresAt)
      {
        LiveSinceMore(es, i, code, expiresAt);
      }
      LastOrBefore(es, n, code, expiresAt);
    }
  }

  lemma LastOrBefore(es: seq<FlowEvent>, n: nat, code: string, expiresAt: Time)
    requires n + 1 == |es|
    requires forall i: nat :: i < n ==>
      (LiveSince(es, i, code, expiresAt) <==> LiveSince(es[..n], i, code, expiresAt) && !Removes(es[n], code, expiresAt))
    ensures (exists i: nat :: LiveSince(es, i, code, expiresAt)) <==>
      LiveSince(es, n, code, expiresAt)
      || ((exists i: nat :: LiveSince(es[..n], i, code, expiresAt)) && !Removes(es[n], code, expiresAt))
  {
    if exists i: nat :: LiveSince(es, i, code, expiresAt) {
      var i: nat :| LiveSince(es, i, code, expiresAt);
      assert i < n ==> LiveSince(es[..n], i, code, expiresAt);
    }
    if exists i: nat :: LiveSince(es[..n], i, code, expiresAt) {
      var i: nat :| LiveSince(es[..n], i, code, expiresAt);
      assert !Removes(es[n], code, expiresAt) ==> LiveSince(es, i, code, expiresAt);
    }
  }

  /** Over every interleaving and on any clock, a poll gets past the pop exactly when its code was
      put by some event, to expire at x, no poll of it began since, no sweep stamped past x came
      since, and it is not later than x; then the poll holds that code. */
  lemma PollHoldsIff(es: seq<FlowEvent>, poll: nat, code: string, t: Time)
    requires Runs(EMPTY, es) && poll !in After(EMPTY, es).inflight
    ensures var s' := FlowStep(After(EMPTY, es), PollBegin(poll, code, t));
      && (poll in s'.inflight <==> exists i: nat, x :: LiveSince(es, i, code, x) && t <= x)
      && (poll in s'.inflight ==> s'.inflight[poll].code == code)
      && code !in s'.codes
  {
    var s := After(EMPTY, es);
    if code in s.codes {
      StoredIff(es, code, s.codes[code].expiresAt);
    }
    forall i: nat, x | LiveSince(es, i, code, x) ensures StoredTill(s, code, x) {
      StoredIff(es, code, x);
    }
  }
}
