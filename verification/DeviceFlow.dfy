/** The RFC 8628 device flow: codes in the store, and polls that hold a code across the await
    points between popping it and re-storing or dropping it. */
module DeviceFlow {
  import opened Wrappers
  import opened ExpiringStore

  const RESTORE_EXPIRY := 300

  datatype Meta = Meta(providerId: string, clientId: string, clientSecret: string, interval: int)

  /** A poll in flight and the code it popped. */
  datatype Held = Held(code: string, meta: Meta)

  /** What reaches the handler once the provider was asked: an exception (oidc when it is an
      OIDCError), or the decoded token response. ProviderGone is the 404 for a provider that
      was disabled or deleted meanwhile. */
  datatype Reply =
    | ProviderGone
    | Failed(oidc: bool)
    | Answer(error: Option<string>, expiresIn: ExpiresIn, idToken: string)

  /** expires_in of an answer; Unusable is one that int() raises on, such as null. */
  datatype ExpiresIn = Absent | Seconds(seconds: int) | Unusable

  /** How the handler ends after a response with an id token; userCreated tells whether a new
      user row was inserted. */
  datatype Login =
    | VerifyFails
    | Refused
    | Crashes(userCreated: bool)
    | LoggedIn(userCreated: bool)

  /** The end of a poll: the code goes back to the store, or it is used up. */
  datatype Ending =
    | Pending(expiresIn: int)
    | Retry
    | Expired
    | Denied
    | Aborted(userCreated: bool)
    | Completed(userCreated: bool)
  {
    predicate Restores() { Pending? || Retry? }

    function Ttl(): int
      requires Restores()
    {
      if Pending? then expiresIn else RESTORE_EXPIRY
    }

    predicate Provisions() { (Aborted? || Completed?) && userCreated }
  }

  predicate Asks(reply: Reply, error: string) { reply.Answer? && reply.error == Some(error) }

  predicate AsksToWait(reply: Reply) {
    Asks(reply, "authorization_pending") || Asks(reply, "slow_down")
  }

  const NAMED_ERRORS := {"authorization_pending", "slow_down", "expired_token", "access_denied"}

  predicate HasToken(reply: Reply) { reply.Answer? && reply.error == None && reply.idToken != "" }

  /** The branches of the callback, in order. Of the errors of RFC 8628, section 3.5, only
      access_denied and expired_token use the code up; any other error, a missing or rejected
      token and an OIDCError leave it pollable. So do the two that ask to wait, unless their
      expires_in does not convert to a number. */
  function Ends(reply: Reply, login: Login): (e: Ending)
    ensures e == Denied <==> Asks(reply, "access_denied")
    ensures e == Expired <==> Asks(reply, "expired_token")
    ensures e.Pending? <==> AsksToWait(reply) && !reply.expiresIn.Unusable?
    ensures e.Pending? ==> e.expiresIn == if reply.expiresIn.Seconds? then reply.expiresIn.seconds else 300
    ensures e == Retry <==>
      || reply == Failed(true)
      || (reply.Answer? && reply.error.Some? && reply.error.value !in NAMED_ERRORS)
      || (reply.Answer? && reply.error.None? && (reply.idToken == "" || login.VerifyFails?))
    ensures e.Completed? <==> HasToken(reply) && login.LoggedIn?
    ensures e.Provisions() <==> HasToken(reply) && (login.LoggedIn? || login.Crashes?) && login.userCreated
    ensures e.Aborted? <==>
      || reply == ProviderGone || reply == Failed(false)
      || (AsksToWait(reply) && reply.expiresIn.Unusable?)
      || (HasToken(reply) && (login.Refused? || login.Crashes?))
  {
    match reply
    case ProviderGone => Aborted(false)
    case Failed(oidc) => if oidc then Retry else Aborted(false)
    case Answer(Some(error), expiresIn, _) =>
      if error == "authorization_pending" || error == "slow_down" then
        (match expiresIn
         case Absent => Pending(RESTORE_EXPIRY)
         case Seconds(seconds) => Pending(seconds)
         case Unusable => Aborted(false))
      else if error == "expired_token" then Expired
      else if error == "access_denied" then Denied
      else Retry
    case Answer(None, _, idToken) =>
      if idToken == "" then Retry
      else
        match login
        case VerifyFails => Retry
        case Refused => Aborted(false)
        case Crashes(created) => Aborted(created)
        case LoggedIn(created) => Completed(created)
  }

  datatype Finish = Finish(code: string, ending: Ending)

  /** started, finishes and lapsed are history variables: what each code was first stored with,
      every poll that ended, and the codes an expiry check dropped. */
  datatype State = State(codes: Store<Meta>, inflight: map<nat, Held>,
                         started: map<string, Meta>, finishes: seq<Finish>, lapsed: set<string>)

  const EMPTY := State(map[], map[], map[], [], {})

  datatype FlowEvent =
    | Start(code: string, meta: Meta, expiresIn: int, at: Time)
    | PollBegin(poll: nat, code: string, at: Time)
    | PollEnd(poll: nat, reply: Reply, login: Login, at: Time)
    | SweepCodes(at: Time)

  /** Providers issue fresh codes, and each request is a poll of its own. */
  ghost predicate Fits(s: State, e: FlowEvent) {
    match e
    case Start(code, _, _, _) => code !in s.started
    case PollBegin(poll, _, _) => poll !in s.inflight
    case PollEnd(poll, _, _, _) => poll in s.inflight
    case SweepCodes(_) => true
  }

  ghost function FlowStep(s: State, e: FlowEvent): State
    requires Fits(s, e)
  {
    match e
    case Start(code, meta, expiresIn, at) =>
      s.(codes := s.codes[code := Entry(meta, at + expiresIn)], started := s.started[code := meta])
    case PollBegin(poll, code, at) => Begin(s, poll, code, at)
    case PollEnd(poll, reply, login, at) => End(s, poll, Ends(reply, login), at)
    case SweepCodes(at) =>
      s.(codes := Swept(s.codes, at),
         lapsed := s.lapsed + set c | c in s.codes && s.codes[c].expiresAt < at)
  }

  ghost function Begin(s: State, poll: nat, code: string, at: Time): State {
    match Taken(s.codes, code, at)
    case Some(meta) => s.(codes := s.codes - {code}, inflight := s.inflight[poll := Held(code, meta)])
    case None =>
      s.(codes := s.codes - {code}, lapsed := if code in s.codes then s.lapsed + {code} else s.lapsed)
  }

  ghost function End(s: State, poll: nat, ending: Ending, at: Time): State
    requires poll in s.inflight
  {
    var held := s.inflight[poll];
    var s' := s.(inflight := s.inflight - {poll}, finishes := s.finishes + [Finish(held.code, ending)]);
    if ending.Restores() then s'.(codes := s.codes[held.code := Entry(held.meta, at + ending.Ttl())]) else s'
  }

  class DeviceCodes {
    var codes: Store<Meta>
    var inflight: map<nat, Held>
    ghost var started: map<string, Meta>
    ghost var finishes: seq<Finish>
    ghost var lapsed: set<string>

    ghost function Abstract(): State
      reads this
    {
      State(codes, inflight, started, finishes, lapsed)
    }

    constructor ()
      ensures Abstract() == EMPTY
    {
      codes, inflight, started, finishes, lapsed := map[], map[], map[], [], {};
    }

    /** store_device_code */
    method StoreDeviceCode(code: string, meta: Meta, expiresIn: int, now: Time)
      modifies this`codes
      ensures codes == ExpiringStore.Step(old(codes), Put(code, meta, expiresIn, now))
    {
      codes := codes[code := Entry(meta, now + expiresIn)];
    }

    /** get_and_consume_device_code */
    method GetAndConsumeDeviceCode(code: string, now: Time) returns (stored: Option<Meta>)
      modifies this`codes
      ensures codes == ExpiringStore.Step(old(codes), Take(code, now))
      ensures stored == Taken(old(codes), code, now)
    {
      if code !in codes {
        assert codes - {code} == codes;
        return None;
      }
      var entry := codes[code];
      codes := codes - {code};
      if now > entry.expiresAt {
        return None;
      }
      return Some(entry.value);
    }

    method OnStart(code: string, meta: Meta, expiresIn: int, now: Time)
      requires Fits(Abstract(), Start(code, meta, expiresIn, now))
      modifies this
      ensures Abstract() == FlowStep(old(Abstract()), Start(code, meta, expiresIn, now))
    {
      StoreDeviceCode(code, meta, expiresIn, now);
      started := started[code := meta];
    }

    /** The callback up to its first await; false is the 404 for an unknown or expired code. */
    method OnPollBegin(poll: nat, code: string, now: Time) returns (holds: bool)
      requires Fits(Abstract(), PollBegin(poll, code, now))
      modifies this
      ensures Abstract() == FlowStep(old(Abstract()), PollBegin(poll, code, now))
      ensures holds <==> poll in inflight
    {
      ghost var wasStored := code in codes;
      var stored := GetAndConsumeDeviceCode(code, now);
      if stored.None? {
        lapsed := if wasStored then lapsed + {code} else lapsed;
        return false;
      }
      inflight := inflight[poll := Held(code, stored.value)];
      return true;
    }

    /** The callback after its awaits. */
    method OnPollEnd(poll: nat, reply: Reply, login: Login, now: Time) returns (ending: Ending)
      requires Fits(Abstract(), PollEnd(poll, reply, login, now))
      modifies this
      ensures Abstract() == FlowStep(old(Abstract()), PollEnd(poll, reply, login, now))
      ensures ending == Ends(reply, login)
    {
      var held := inflight[poll];
      ending := Ends(reply, login);
      if ending.Restores() {
        StoreDeviceCode(held.code, held.meta, ending.Ttl(), now);
      }
      inflight := inflight - {poll};
      finishes := finishes + [Finish(held.code, ending)];
    }

    method ClearExpiredDeviceCodes(now: Time)
      modifies this
      ensures Abstract() == FlowStep(old(Abstract()), SweepCodes(now))
    {
      var expired := set c | c in codes && codes[c].expiresAt < now;
      var pending := expired;
      while pending != {}
        invariant pending <= expired
        invariant codes == old(codes) - (expired - pending)
        invariant inflight == old(inflight) && started == old(started)
        invariant finishes == old(finishes) && lapsed == old(lapsed)
        decreases pending
      {
        var c :| c in pending;
        codes := codes - {c};
        pending := pending - {c};
        assert expired - pending == expired - (pending + {c}) + {c};
      }
      lapsed := lapsed + expired;
      assert codes == Swept(old(codes), now);
    }
  }
}
