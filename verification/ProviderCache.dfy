/** The two-level cache in front of an OIDC provider: discovery metadata by issuer, and the key
    set by the jwks_uri that metadata names. */
module ProviderCache {
  import opened Wrappers

  type Time = int

  const DISCOVERY_CACHE_TTL := 3600
  const JWKS_CACHE_TTL := 300

  type Meta = map<string, string>

  const REQUIRED := {"authorization_endpoint", "token_endpoint", "jwks_uri"}

  datatype OidcError = RequestFailed | MissingEndpoints | NoJwksUri

  datatype Cached<+T> = Cached(value: T, at: Time)

  /** The provider during one call: what each URL answers, None for a failed request. */
  datatype Remote<!J> = Remote(metadata: string -> Option<Meta>, keys: string -> Option<J>)

  /** The times one call reads the clock: discovery lookup and write, key lookup and write. */
  datatype Clock = Clock(t0: Time, t1: Time, t2: Time, t3: Time)

  ghost predicate Ordered(c: Clock) { c.t0 <= c.t1 <= c.t2 <= c.t3 }

  /** rstrip("/") */
  function RStrip(s: string): string {
    if s != "" && s[|s| - 1] == '/' then RStrip(s[..|s| - 1]) else s
  }

  /** A response that was received and written at a time: the history variable of a store. */
  datatype Fetch<+T> = Fetch(url: string, value: T, at: Time)

  datatype State<J> = State(discovery: map<string, Cached<Meta>>, jwks: map<string, Cached<J>>,
                            metaLog: seq<Fetch<Meta>>, keyLog: seq<Fetch<J>>)

  function Discovered(fetched: Option<Meta>): Result<Meta, OidcError> {
    match fetched
    case None => Err(RequestFailed)
    case Some(m) => if REQUIRED <= m.Keys then Ok(m) else Err(MissingEndpoints)
  }

  function KeyUri(m: Meta): Option<string> {
    if "jwks_uri" in m && m["jwks_uri"] != "" then Some(m["jwks_uri"]) else None
  }

  // --- The uncached functions ----------------------------------------------------------------

  function DiscoverUncached<J>(issuer: string, remote: Remote<J>): Result<Meta, OidcError> {
    Discovered(remote.metadata(RStrip(issuer)))
  }

  function JwksUncached<J>(issuer: string, remote: Remote<J>): Result<J, OidcError> {
    match DiscoverUncached(issuer, remote)
    case Err(e) => Err(e)
    case Ok(m) =>
      match KeyUri(m)
      case None => Err(NoJwksUri)
      case Some(uri) => match remote.keys(uri) case None => Err(RequestFailed) case Some(j) => Ok(j)
  }

  ghost predicate Slashes(s: string) {
    forall i :: 0 <= i < |s| ==> s[i] == '/'
  }

  /** The issuer without its trailing slashes: what is left after some, and ends in none. */
  lemma {:induction false} RStripIff(s: string, t: string)
    ensures RStrip(s) == t <==> t <= s && Slashes(s[|t|..]) && (t == "" || t[|t| - 1] != '/')
  {
    if s == "" || s[|s| - 1] != '/' {
    } else {
      var n := |s| - 1;
      RStripIff(s[..n], t);
      if t <= s && |t| <= n {
        assert t <= s[..n] && s[|t|..] == s[..n][|t|..] + ['/'];
      }
    }
  }

  /** Metadata with the three endpoints the flows need. */
  ghost predicate Whole(m: Meta) {
    "authorization_endpoint" in m && "token_endpoint" in m && "jwks_uri" in m
  }

  /** What an uncached discovery answers. */
  lemma DiscoverUncachedIff<J>(issuer: string, remote: Remote<J>, m: Meta)
    ensures DiscoverUncached(issuer, remote) == Ok(m) <==> remote.metadata(RStrip(issuer)) == Some(m) && Whole(m)
    ensures DiscoverUncached(issuer, remote) == Err(RequestFailed) <==> remote.metadata(RStrip(issuer)) == None
  {
  }

  /** What an uncached key request answers. */
  lemma JwksUncachedIff<J>(issuer: string, remote: Remote<J>, j: J)
    ensures JwksUncached(issuer, remote) == Ok(j) <==> exists m ::
      remote.metadata(RStrip(issuer)) == Some(m) && Whole(m) && m["jwks_uri"] != "" && remote.keys(m["jwks_uri"]) == Some(j)
  {
    var d := remote.metadata(RStrip(issuer));
    if d.Some? { DiscoverUncachedIff(issuer, remote, d.value); }
  }

  // --- The cached ones -------------------------------------------------------------------------

  predicate Hit<T>(cache: map<string, Cached<T>>, key: string, now: Time, ttl: int) {
    key in cache && now - cache[key].at < ttl
  }

  ghost function DiscoverStep<J>(s: State<J>, issuer: string, remote: Remote<J>, c: Clock)
    : (Result<Meta, OidcError>, State<J>)
  {
    var iss := RStrip(issuer);
    if Hit(s.discovery, iss, c.t0, DISCOVERY_CACHE_TTL) then (Ok(s.discovery[iss].value), s)
    else
      match Discovered(remote.metadata(iss))
      case Err(e) => (Err(e), s)
      case Ok(m) => (Ok(m), s.(discovery := s.discovery[iss := Cached(m, c.t1)],
                               metaLog := s.metaLog + [Fetch(iss, m, c.t1)]))
  }

  ghost function JwksStep<J>(s: State<J>, issuer: string, remote: Remote<J>, c: Clock)
    : (Result<J, OidcError>, State<J>)
  {
    var (r, s1) := DiscoverStep(s, issuer, remote, c);
    match r
    case Err(e) => (Err(e), s1)
    case Ok(m) =>
      match KeyUri(m)
      case None => (Err(NoJwksUri), s1)
      case Some(uri) =>
        if Hit(s1.jwks, uri, c.t2, JWKS_CACHE_TTL) then (Ok(s1.jwks[uri].value), s1)
        else
          match remote.keys(uri)
          case None => (Err(RequestFailed), s1)
          case Some(j) => (Ok(j), s1.(jwks := s1.jwks[uri := Cached(j, c.t3)],
                                      keyLog := s1.keyLog + [Fetch(uri, j, c.t3)]))
  }

  class Caches<J> {
    var discovery: map<string, Cached<Meta>>
    var jwks: map<string, Cached<J>>
    ghost var metaLog: seq<Fetch<Meta>>
    ghost var keyLog: seq<Fetch<J>>

    ghost function Abstract(): State<J>
      reads this
    {
      State(discovery, jwks, metaLog, keyLog)
    }

    constructor ()
      ensures Abstract() == State(map[], map[], [], [])
    {
      discovery, jwks, metaLog, keyLog := map[], map[], [], [];
    }

    method DiscoverProvider(issuer: string, remote: Remote<J>, c: Clock) returns (r: Result<Meta, OidcError>)
      modifies this
      ensures (r, Abstract()) == DiscoverStep(old(Abstract()), issuer, remote, c)
    {
      var iss := RStrip(issuer);
      if iss in discovery {
        var cached := discovery[iss];
        if c.t0 - cached.at < DISCOVERY_CACHE_TTL {
          return Ok(cached.value);
        }
      }
      var response := remote.metadata(iss);
      if response.None? {
        return Err(RequestFailed);
      }
      if !(REQUIRED <= response.value.Keys) {
        return Err(MissingEndpoints);
      }
      discovery := discovery[iss := Cached(response.value, c.t1)];
      metaLog := metaLog + [Fetch(iss, response.value, c.t1)];
      return Ok(response.value);
    }

    method GetJwks(issuer: string, remote: Remote<J>, c: Clock) returns (r: Result<J, OidcError>)
      modifies this
      ensures (r, Abstract()) == JwksStep(old(Abstract()), issuer, remote, c)
    {
      var d := DiscoverProvider(issuer, remote, c);
      if d.Err? {
        return Err(d.error);
      }
      var uri := KeyUri(d.value);
      if uri.None? {
        return Err(NoJwksUri);
      }
      if uri.value in jwks {
        var cached := jwks[uri.value];
        if c.t2 - cached.at < JWKS_CACHE_TTL {
          return Ok(cached.value);
        }
      }
      var response := remote.keys(uri.value);
      if response.None? {
        return Err(RequestFailed);
      }
      jwks := jwks[uri.value := Cached(response.value, c.t3)];
      keyLog := keyLog + [Fetch(uri.value, response.value, c.t3)];
      return Ok(response.value);
    }
  }

  // --- Every call sequence -----------------------------------------------------------------

  datatype Call<!J> = Call(issuer: string, remote: Remote<J>, clock: Clock)

  ghost function Run<J>(calls: seq<Call<J>>): State<J> {
    if calls == [] then State(map[], map[], [], [])
    else
      var c := calls[|calls| - 1];
      JwksStep(Run(calls[..|calls| - 1]), c.issuer, c.remote, c.clock).1
  }

  /** Everything cached was received for that URL at that time, and cached metadata is whole. */
  ghost predicate Faithful<J>(s: State<J>) {
    && (forall iss :: iss in s.discovery ==>
          Fetch(iss, s.discovery[iss].value, s.discovery[iss].at) in s.metaLog && REQUIRED <= s.discovery[iss].value.Keys)
    && (forall uri :: uri in s.jwks ==> Fetch(uri, s.jwks[uri].value, s.jwks[uri].at) in s.keyLog)
  }

  lemma DiscoverFaithful<J>(s: State<J>, issuer: string, remote: Remote<J>, c: Clock)
    requires Faithful(s)
    ensures Faithful(DiscoverStep(s, issuer, remote, c).1)
  {
  }

  lemma JwksFaithful<J>(s: State<J>, issuer: string, remote: Remote<J>, c: Clock)
    requires Faithful(s)
    ensures Faithful(JwksStep(s, issuer, remote, c).1)
  {
    DiscoverFaithful(s, issuer, remote, c);
  }

  lemma {:induction false} RunFaithful<J>(calls: seq<Call<J>>)
    ensures Faithful(Run(calls))
  {
    if calls == [] {
    } else {
      var prev, c := calls[..|calls| - 1], calls[|calls| - 1];
      RunFaithful(prev);
      JwksFaithful(Run(prev), c.issuer, c.remote, c.clock);
    }
  }

  /** A key set any call returns was received from some uri less than 300 s before the call
      looked, or during the call; and that uri is the jwks_uri of metadata received for the
      issuer less than 3600 s before the call looked, or during the call. */
  lemma JwksFresh<J>(calls: seq<Call<J>>, c: Call<J>) returns (uri: string, keys: Fetch<J>, meta: Fetch<Meta>)
    requires JwksStep(Run(calls), c.issuer, c.remote, c.clock).0.Ok? && Ordered(c.clock)
    ensures var (r, s) := JwksStep(Run(calls), c.issuer, c.remote, c.clock);
      && keys in s.keyLog && keys.url == uri && keys.value == r.value
      && (c.clock.t2 - keys.at < 300 || keys.at == c.clock.t3)
      && meta in s.metaLog && meta.url == RStrip(c.issuer) && Whole(meta.value) && meta.value["jwks_uri"] == uri != ""
      && (c.clock.t0 - meta.at < 3600 || meta.at == c.clock.t1)
  {
    var s0 := Run(calls);
    RunFaithful(calls);
    var (d, s1) := DiscoverStep(s0, c.issuer, c.remote, c.clock);
    var (r, s2) := JwksStep(s0, c.issuer, c.remote, c.clock);
    var iss := RStrip(c.issuer);
    meta := Fetch(iss, d.value, if Hit(s0.discovery, iss, c.clock.t0, DISCOVERY_CACHE_TTL) then s0.discovery[iss].at else c.clock.t1);
    uri := KeyUri(d.value).value;
    keys := Fetch(uri, r.value, if Hit(s1.jwks, uri, c.clock.t2, JWKS_CACHE_TTL) then s1.jwks[uri].at else c.clock.t3);
  }

  ghost predicate OneRemote<J>(calls: seq<Call<J>>, remote: Remote<J>) {
    forall i :: 0 <= i < |calls| ==> SameRemote(calls[i].remote, remote)
  }

  /** What the caches hold is what the remote answers. */
  ghost predicate Mirrors<J>(s: State<J>, remote: Remote<J>) {
    && (forall iss :: iss in s.discovery ==> Discovered(remote.metadata(iss)) == Ok(s.discovery[iss].value))
    && (forall uri :: uri in s.jwks ==> remote.keys(uri) == Some(s.jwks[uri].value))
  }

  ghost predicate SameRemote<J>(a: Remote<J>, b: Remote<J>) {
    (forall u :: a.metadata(u) == b.metadata(u)) && (forall u :: a.keys(u) == b.keys(u))
  }

  lemma DiscoverMirrors<J>(s: State<J>, c: Call<J>, remote: Remote<J>)
    requires Mirrors(s, remote) && SameRemote(c.remote, remote)
    ensures Mirrors(DiscoverStep(s, c.issuer, c.remote, c.clock).1, remote)
    ensures DiscoverStep(s, c.issuer, c.remote, c.clock).0 == DiscoverUncached(c.issuer, remote)
  {
  }

  lemma JwksMirrors<J>(s: State<J>, c: Call<J>, remote: Remote<J>)
    requires Mirrors(s, remote) && SameRemote(c.remote, remote)
    ensures Mirrors(JwksStep(s, c.issuer, c.remote, c.clock).1, remote)
    ensures JwksStep(s, c.issuer, c.remote, c.clock).0 == JwksUncached(c.issuer, remote)
  {
    DiscoverMirrors(s, c, remote);
  }

  lemma {:induction false} RunMirrors<J>(calls: seq<Call<J>>, remote: Remote<J>)
    requires OneRemote(calls, remote)
    ensures Mirrors(Run(calls), remote)
  {
    if calls == [] {
    } else {
      var n := |calls| - 1;
      forall i | 0 <= i < n ensures SameRemote(calls[..n][i].remote, remote) {
        assert calls[..n][i] == calls[i];
      }
      RunMirrors(calls[..n], remote);
      JwksMirrors(Run(calls[..n]), calls[n], remote);
    }
  }

  /** While the provider does not change, every call of every sequence, whatever its times,
      answers what fetching afresh would. */
  lemma CachedIsUncached<J>(calls: seq<Call<J>>, c: Call<J>, remote: Remote<J>)
    requires OneRemote(calls + [c], remote)
    ensures DiscoverStep(Run(calls), c.issuer, c.remote, c.clock).0 == DiscoverUncached(c.issuer, remote)
    ensures JwksStep(Run(calls), c.issuer, c.remote, c.clock).0 == JwksUncached(c.issuer, remote)
  {
    forall i | 0 <= i < |calls| ensures calls[i] == (calls + [c])[i] {}
    assert (calls + [c])[|calls|] == c;
    RunMirrors(calls, remote);
    DiscoverMirrors(Run(calls), c, remote);
    JwksMirrors(Run(calls), c, remote);
  }

  // --- The caches are used -----------------------------------------------------------------

  /** Every call comes less than these lifetimes after the times of the issuer's metadata and of
      the key set at its uri. */
  ghost predicate WhileFresh<J>(calls: seq<Call<J>>, metaAt: Time, keysAt: Time) {
    forall i :: 0 <= i < |calls| ==> calls[i].clock.t0 - metaAt < 3600 && calls[i].clock.t2 - keysAt < 300
  }

  ghost predicate Holds<J>(s: State<J>, iss: string, m: Meta, metaAt: Time, keys: J, keysAt: Time) {
    && iss in s.discovery && s.discovery[iss] == Cached(m, metaAt)
    && Whole(m) && m["jwks_uri"] != "" && m["jwks_uri"] in s.jwks && s.jwks[m["jwks_uri"]] == Cached(keys, keysAt)
  }

  lemma CallKeeps<J>(s: State<J>, c: Call<J>, iss: string, m: Meta, metaAt: Time, keys: J, keysAt: Time)
    requires Holds(s, iss, m, metaAt, keys, keysAt) && c.clock.t0 - metaAt < 3600 && c.clock.t2 - keysAt < 300
    ensures Holds(JwksStep(s, c.issuer, c.remote, c.clock).1, iss, m, metaAt, keys, keysAt)
    ensures RStrip(c.issuer) == iss ==> JwksStep(s, c.issuer, c.remote, c.clock) == (Ok(keys), s)
  {
  }

  ghost function RunFrom<J>(s: State<J>, calls: seq<Call<J>>): State<J>
    decreases |calls|
  {
    if calls == [] then s else RunFrom(JwksStep(s, calls[0].issuer, calls[0].remote, calls[0].clock).1, calls[1..])
  }

  /** Until either lifetime ends, a cached key set answers every call of its issuer, whatever
      other calls come between and whatever the provider would answer by then. */
  lemma {:induction false} CachedAnswers<J>(s: State<J>, calls: seq<Call<J>>, c: Call<J>, m: Meta, metaAt: Time, keys: J, keysAt: Time)
    requires Holds(s, RStrip(c.issuer), m, metaAt, keys, keysAt)
    requires WhileFresh(calls, metaAt, keysAt) && WhileFresh([c], metaAt, keysAt)
    ensures JwksStep(RunFrom(s, calls), c.issuer, c.remote, c.clock).0 == Ok(keys)
    decreases |calls|
  {
    if calls == [] {
      assert [c][0] == c;
      CallKeeps(s, c, RStrip(c.issuer), m, metaAt, keys, keysAt);
    } else {
      CallKeeps(s, calls[0], RStrip(c.issuer), m, metaAt, keys, keysAt);
      CachedAnswers(JwksStep(s, calls[0].issuer, calls[0].remote, calls[0].clock).1, calls[1..], c, m, metaAt, keys, keysAt);
    }
  }

  /** A call that answers leaves its answer cached, with the times it was received. */
  lemma AnswerIsCached<J>(calls: seq<Call<J>>, c: Call<J>) returns (m: Meta, metaAt: Time, keysAt: Time)
    requires JwksStep(Run(calls), c.issuer, c.remote, c.clock).0.Ok?
    ensures var (r, s) := JwksStep(Run(calls), c.issuer, c.remote, c.clock);
      Holds(s, RStrip(c.issuer), m, metaAt, r.value, keysAt)
  {
    RunFaithful(calls);
    var (r, s) := JwksStep(Run(calls), c.issuer, c.remote, c.clock);
    var iss := RStrip(c.issuer);
    m, metaAt := s.discovery[iss].value, s.discovery[iss].at;
    keysAt := s.jwks[m["jwks_uri"]].at;
  }
}
