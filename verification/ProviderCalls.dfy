/** Calls of get_jwks that interleave: while one waits for the discovery document or for the key
    set, others look up and write the same two caches. */
module ProviderCalls {
  import opened Wrappers
  import opened ProviderCache

  /** What a call waits for: the discovery document, or the key set its metadata names. */
  datatype Phase = NeedsMeta | NeedsKeys(meta: Fetch<Meta>, uri: string)

  datatype Pending = Pending(issuer: string, began: Time, phase: Phase)

  /** Where the keys of an answer come from. */
  datatype Source<+J> = NoSource | Source(meta: Fetch<Meta>, keys: Fetch<J>)

  /** A finished call; source is a history variable. */
  datatype Answer<+J> = Answer(issuer: string, began: Time, at: Time, result: Result<J, OidcError>, source: Source<J>)

  datatype System<J> = System(caches: State<J>, pending: map<nat, Pending>, answers: seq<Answer<J>>)

  /** What the event loop runs between two awaits of one call. */
  datatype Turn<+J> =
    | Begins(id: nat, issuer: string, at: Time)
    | MetaArrives(id: nat, metadata: Option<Meta>, at: Time)
    | KeysArrive(id: nat, keySet: Option<J>, at: Time)

  ghost predicate Enabled<J>(s: System<J>, e: Turn<J>) {
    match e
    case Begins(id, _, _) => id !in s.pending
    case MetaArrives(id, _, _) => id in s.pending && s.pending[id].phase.NeedsMeta?
    case KeysArrive(id, _, _) => id in s.pending && s.pending[id].phase.NeedsKeys?
  }

  ghost function Finish<J>(s: System<J>, id: nat, a: Answer<J>): System<J> {
    s.(pending := s.pending - {id}, answers := s.answers + [a])
  }

  /** With the metadata at hand: look the keys up, or wait for them. */
  ghost function HaveMeta<J>(s: System<J>, id: nat, issuer: string, began: Time, meta: Fetch<Meta>, at: Time): System<J> {
    match KeyUri(meta.value)
    case None => Finish(s, id, Answer(issuer, began, at, Err(NoJwksUri), NoSource))
    case Some(uri) =>
      if Hit(s.caches.jwks, uri, at, JWKS_CACHE_TTL) then
        var c := s.caches.jwks[uri];
        Finish(s, id, Answer(issuer, began, at, Ok(c.value), Source(meta, Fetch(uri, c.value, c.at))))
      else s.(pending := s.pending[id := Pending(issuer, began, NeedsKeys(meta, uri))])
  }

  ghost function Next<J>(s: System<J>, e: Turn<J>): System<J>
    requires Enabled(s, e)
  {
    match e
    case Begins(id, issuer, at) =>
      var iss := RStrip(issuer);
      if Hit(s.caches.discovery, iss, at, DISCOVERY_CACHE_TTL) then
        var c := s.caches.discovery[iss];
        HaveMeta(s, id, issuer, at, Fetch(iss, c.value, c.at), at)
      else s.(pending := s.pending[id := Pending(issuer, at, NeedsMeta)])
    case MetaArrives(id, metadata, at) =>
      var p := s.pending[id];
      (match Discovered(metadata)
       case Err(e) => Finish(s, id, Answer(p.issuer, p.began, at, Err(e), NoSource))
       case Ok(m) =>
         var f := Fetch(RStrip(p.issuer), m, at);
         HaveMeta(s.(caches := MetaWritten(s.caches, f)), id, p.issuer, p.began, f, at))
    case KeysArrive(id, keySet, at) =>
      var p := s.pending[id];
      (match keySet
       case None => Finish(s, id, Answer(p.issuer, p.began, at, Err(RequestFailed), NoSource))
       case Some(j) =>
         var f := Fetch(p.phase.uri, j, at);
         Finish(s.(caches := KeysWritten(s.caches, f)), id, Answer(p.issuer, p.began, at, Ok(j), Source(p.phase.meta, f))))
  }

  ghost function MetaWritten<J>(c: State<J>, f: Fetch<Meta>): State<J> {
    c.(discovery := c.discovery[f.url := Cached(f.value, f.at)], metaLog := c.metaLog + [f])
  }

  ghost function KeysWritten<J>(c: State<J>, f: Fetch<J>): State<J> {
    c.(jwks := c.jwks[f.url := Cached(f.value, f.at)], keyLog := c.keyLog + [f])
  }

  ghost predicate Runs<J>(s: System<J>, es: seq<Turn<J>>)
    decreases |es|
  {
    es == [] || (Enabled(s, es[0]) && Runs(Next(s, es[0]), es[1..]))
  }

  ghost function After<J>(s: System<J>, es: seq<Turn<J>>): System<J>
    requires Runs(s, es)
    decreases |es|
  {
    if es == [] then s else After(Next(s, es[0]), es[1..])
  }

  ghost function Empty<J>(): System<J> {
    System(State(map[], map[], [], []), map[], [])
  }

  // --- Every answer is what an uncached call would get ------------------------------------------

  /** The response is what this provider answers to the request that waits for it. */
  ghost predicate FromRemote<J>(s: System<J>, e: Turn<J>, remote: Remote<J>)
    requires Enabled(s, e)
  {
    match e
    case Begins(_, _, _) => true
    case MetaArrives(id, metadata, _) => metadata == remote.metadata(RStrip(s.pending[id].issuer))
    case KeysArrive(id, keySet, _) => keySet == remote.keys(s.pending[id].phase.uri)
  }

  ghost predicate AllFromRemote<J>(s: System<J>, es: seq<Turn<J>>, remote: Remote<J>)
    requires Runs(s, es)
    decreases |es|
  {
    es == [] || (FromRemote(s, es[0], remote) && AllFromRemote(Next(s, es[0]), es[1..], remote))
  }

  ghost predicate PendingMirrors<J>(p: Pending, remote: Remote<J>) {
    p.phase.NeedsKeys? ==>
      DiscoverUncached(p.issuer, remote) == Ok(p.phase.meta.value) && KeyUri(p.phase.meta.value) == Some(p.phase.uri)
  }

  ghost predicate AnswerMirrors<J>(a: Answer<J>, remote: Remote<J>) {
    a.result == JwksUncached(a.issuer, remote)
  }

  ghost predicate AllMirror<J>(s: System<J>, remote: Remote<J>) {
    && Mirrors(s.caches, remote)
    && (forall id :: id in s.pending ==> PendingMirrors(s.pending[id], remote))
    && (forall i :: 0 <= i < |s.answers| ==> AnswerMirrors(s.answers[i], remote))
  }

  lemma FinishMirrors<J>(s: System<J>, id: nat, a: Answer<J>, remote: Remote<J>)
    requires AllMirror(s, remote) && AnswerMirrors(a, remote)
    ensures AllMirror(Finish(s, id, a), remote)
  {
  }

  lemma HaveMetaMirrors<J>(s: System<J>, id: nat, issuer: string, began: Time, meta: Fetch<Meta>, at: Time, remote: Remote<J>)
    requires AllMirror(s, remote) && DiscoverUncached(issuer, remote) == Ok(meta.value)
    ensures AllMirror(HaveMeta(s, id, issuer, began, meta, at), remote)
  {
    var uri := KeyUri(meta.value);
    if uri.None? {
      FinishMirrors(s, id, Answer(issuer, began, at, Err(NoJwksUri), NoSource), remote);
    } else if Hit(s.caches.jwks, uri.value, at, JWKS_CACHE_TTL) {
      var c := s.caches.jwks[uri.value];
      FinishMirrors(s, id, Answer(issuer, began, at, Ok(c.value), Source(meta, Fetch(uri.value, c.value, c.at))), remote);
    } else {
      assert PendingMirrors(Pending(issuer, began, NeedsKeys(meta, uri.value)), remote);
    }
  }

  lemma NextMirrors<J>(s: System<J>, e: Turn<J>, remote: Remote<J>)
    requires AllMirror(s, remote) && Enabled(s, e) && FromRemote(s, e, remote)
    ensures AllMirror(Next(s, e), remote)
  {
    match e
    case Begins(id, issuer, at) =>
      var iss := RStrip(issuer);
      if Hit(s.caches.discovery, iss, at, DISCOVERY_CACHE_TTL) {
        var c := s.caches.discovery[iss];
        HaveMetaMirrors(s, id, issuer, at, Fetch(iss, c.value, c.at), at, remote);
      }
    case MetaArrives(id, metadata, at) =>
      var p := s.pending[id];
      var d := Discovered(metadata);
      if d.Ok? {
        var f := Fetch(RStrip(p.issuer), d.value, at);
        HaveMetaMirrors(s.(caches := MetaWritten(s.caches, f)), id, p.issuer, p.began, f, at, remote);
      } else {
        FinishMirrors(s, id, Answer(p.issuer, p.began, at, Err(d.error), NoSource), remote);
      }
    case KeysArrive(id, keySet, at) =>
      KeysMirror(s, id, keySet, at, remote);
  }

  lemma KeysMirror<J>(s: System<J>, id: nat, keySet: Option<J>, at: Time, remote: Remote<J>)
    requires AllMirror(s, remote) && Enabled(s, KeysArrive(id, keySet, at))
    requires FromRemote(s, KeysArrive(id, keySet, at), remote)
    ensures AllMirror(Next(s, KeysArrive(id, keySet, at)), remote)
  {
    var p := s.pending[id];
    assert PendingMirrors(p, remote);
    if keySet.None? {
      FinishMirrors(s, id, Answer(p.issuer, p.began, at, Err(RequestFailed), NoSource), remote);
    } else {
      var f := Fetch(p.phase.uri, keySet.value, at);
      var s' := s.(caches := KeysWritten(s.caches, f));
      FinishMirrors(s', id, Answer(p.issuer, p.began, at, Ok(keySet.value), Source(p.phase.meta, f)), remote);
    }
  }

  /** While the provider does not change, every call of every interleaving, whatever the times,
      gets the answer an uncached call would get. */
  lemma {:induction false} InterleavedIsUncached<J>(s: System<J>, es: seq<Turn<J>>, remote: Remote<J>)
    requires AllMirror(s, remote) && Runs(s, es) && AllFromRemote(s, es, remote)
    ensures AllMirror(After(s, es), remote)
    ensures forall i :: 0 <= i < |After(s, es).answers| ==>
      After(s, es).answers[i].result == JwksUncached(After(s, es).answers[i].issuer, remote)
    decreases |es|
  {
    if es == [] {
      assert forall i :: 0 <= i < |s.answers| ==> AnswerMirrors(s.answers[i], remote);
    } else {
      NextMirrors(s, es[0], remote);
      InterleavedIsUncached(Next(s, es[0]), es[1..], remote);
    }
  }

  // --- Every answer is fresh ----------------------------------------------------------------------

  ghost predicate InOrder<J>(es: seq<Turn<J>>) {
    forall i, j :: 0 <= i < j < |es| ==> es[i].at <= es[j].at
  }

  /** Metadata good for a call: whole, received for its issuer, and less than 3600 s old when the
      call began, or received since. */
  ghost predicate MetaFresh<J>(c: State<J>, issuer: string, began: Time, meta: Fetch<Meta>) {
    && meta in c.metaLog && meta.url == RStrip(issuer) && Whole(meta.value)
    && began - meta.at < 3600
  }

  ghost predicate PendingFresh<J>(c: State<J>, p: Pending, now: Time) {
    && p.began <= now
    && (p.phase.NeedsKeys? ==>
         MetaFresh(c, p.issuer, p.began, p.phase.meta) && p.phase.meta.value["jwks_uri"] == p.phase.uri)
  }

  /** Keys an answer carries were received from the jwks_uri of fresh metadata, less than 300 s
      before the answer. */
  ghost predicate AnswerFresh<J>(c: State<J>, a: Answer<J>) {
    a.result.Ok? ==>
      && a.source.Source? && MetaFresh(c, a.issuer, a.began, a.source.meta)
      && a.source.keys in c.keyLog && a.source.meta.value["jwks_uri"] == a.source.keys.url
      && a.result.value == a.source.keys.value && a.at - a.source.keys.at < 300
  }

  ghost predicate AllFresh<J>(s: System<J>, now: Time) {
    && Faithful(s.caches)
    && (forall id :: id in s.pending ==> PendingFresh(s.caches, s.pending[id], now))
    && (forall i :: 0 <= i < |s.answers| ==> AnswerFresh(s.caches, s.answers[i]))
  }

  lemma FinishFresh<J>(s: System<J>, id: nat, a: Answer<J>, now: Time)
    requires AllFresh(s, now) && AnswerFresh(s.caches, a)
    ensures AllFresh(Finish(s, id, a), now)
  {
  }

  lemma HaveMetaFresh<J>(s: System<J>, id: nat, issuer: string, began: Time, meta: Fetch<Meta>, at: Time)
    requires AllFresh(s, at) && MetaFresh(s.caches, issuer, began, meta) && began <= at
    ensures AllFresh(HaveMeta(s, id, issuer, began, meta, at), at)
  {
    var uri := KeyUri(meta.value);
    if uri.None? {
      FinishFresh(s, id, Answer(issuer, began, at, Err(NoJwksUri), NoSource), at);
    } else if Hit(s.caches.jwks, uri.value, at, JWKS_CACHE_TTL) {
      var c := s.caches.jwks[uri.value];
      FinishFresh(s, id, Answer(issuer, began, at, Ok(c.value), Source(meta, Fetch(uri.value, c.value, c.at))), at);
    }
  }

  /** Writing to the caches and letting time pass keeps what was fresh. */
  lemma WrittenFresh<J>(s: System<J>, c: State<J>, now: Time, later: Time)
    requires AllFresh(s, now) && now <= later && Faithful(c)
    requires s.caches.metaLog <= c.metaLog && s.caches.keyLog <= c.keyLog
    ensures AllFresh(s.(caches := c), later)
  {
    Within(s.caches.metaLog, c.metaLog);
    Within(s.caches.keyLog, c.keyLog);
    forall id | id in s.pending ensures PendingFresh(c, s.pending[id], later) {
      assert PendingFresh(s.caches, s.pending[id], now);
    }
    forall i | 0 <= i < |s.answers| ensures AnswerFresh(c, s.answers[i]) {
      assert AnswerFresh(s.caches, s.answers[i]);
    }
  }

  lemma Within<T>(a: seq<T>, b: seq<T>)
    requires a <= b
    ensures forall x :: x in a ==> x in b
  {
    forall x | x in a ensures x in b {
      var i :| 0 <= i < |a| && a[i] == x;
      assert b[i] == x;
    }
  }

  lemma MetaWrittenFaithful<J>(c: State<J>, f: Fetch<Meta>)
    requires Faithful(c) && REQUIRED <= f.value.Keys
    ensures Faithful(MetaWritten(c, f))
  {
  }

  lemma KeysWrittenFaithful<J>(c: State<J>, f: Fetch<J>)
    requires Faithful(c)
    ensures Faithful(KeysWritten(c, f))
  {
  }

  lemma NextFresh<J>(s: System<J>, e: Turn<J>, now: Time)
    requires AllFresh(s, now) && Enabled(s, e) && now <= e.at
    ensures AllFresh(Next(s, e), e.at)
  {
    WrittenFresh(s, s.caches, now, e.at);
    match e
    case Begins(id, issuer, at) =>
      var iss := RStrip(issuer);
      if Hit(s.caches.discovery, iss, at, DISCOVERY_CACHE_TTL) {
        var c := s.caches.discovery[iss];
        HaveMetaFresh(s, id, issuer, at, Fetch(iss, c.value, c.at), at);
      }
    case MetaArrives(id, metadata, at) => MetaFreshNext(s, id, metadata, at);
    case KeysArrive(id, keySet, at) => KeysFreshNext(s, id, keySet, at);
  }

  lemma MetaFreshNext<J>(s: System<J>, id: nat, metadata: Option<Meta>, at: Time)
    requires AllFresh(s, at) && Enabled(s, MetaArrives(id, metadata, at))
    ensures AllFresh(Next(s, MetaArrives(id, metadata, at)), at)
  {
    var p := s.pending[id];
    assert PendingFresh(s.caches, p, at);
    var d := Discovered(metadata);
    if d.Ok? {
      var f := Fetch(RStrip(p.issuer), d.value, at);
      var c := MetaWritten(s.caches, f);
      MetaWrittenFaithful(s.caches, f);
      WrittenFresh(s, c, at, at);
      HaveMetaFresh(s.(caches := c), id, p.issuer, p.began, f, at);
    } else {
      FinishFresh(s, id, Answer(p.issuer, p.began, at, Err(d.error), NoSource), at);
    }
  }

  lemma KeysFreshNext<J>(s: System<J>, id: nat, keySet: Option<J>, at: Time)
    requires AllFresh(s, at) && Enabled(s, KeysArrive(id, keySet, at))
    ensures AllFresh(Next(s, KeysArrive(id, keySet, at)), at)
  {
    var p := s.pending[id];
    assert PendingFresh(s.caches, p, at);
    if keySet.Some? {
      var f := Fetch(p.phase.uri, keySet.value, at);
      var c := KeysWritten(s.caches, f);
      KeysWrittenFaithful(s.caches, f);
      WrittenFresh(s, c, at, at);
      FinishFresh(s.(caches := c), id, Answer(p.issuer, p.began, at, Ok(keySet.value), Source(p.phase.meta, f)), at);
    } else {
      FinishFresh(s, id, Answer(p.issuer, p.began, at, Err(RequestFailed), NoSource), at);
    }
  }

  /** Over every interleaving on a clock that does not go back, and whatever the provider answers,
      keys any call gets were received less than 300 s before it got them, from the jwks_uri of
      whole metadata that was less than 3600 s old when the call began or came later. */
  lemma {:induction false} InterleavedFresh<J>(s: System<J>, es: seq<Turn<J>>, now: Time)
    requires AllFresh(s, now) && Runs(s, es) && InOrder(es) && (es != [] ==> now <= es[0].at)
    ensures forall i :: 0 <= i < |After(s, es).answers| ==> AnswerFresh(After(s, es).caches, After(s, es).answers[i])
    decreases |es|
  {
    if es == [] {
    } else {
      NextFresh(s, es[0], now);
      InterleavedFresh(Next(s, es[0]), es[1..], es[0].at);
    }
  }

  /** The empty caches meet both invariants. */
  lemma EmptyStarts<J>(remote: Remote<J>, now: Time)
    ensures AllMirror(Empty(), remote) && AllFresh(Empty<J>(), now)
  {
  }

  /** A call that begins with fresh metadata and a fresh key set in the caches answers at once,
      without a request. */
  lemma FreshAnswersAtOnce<J>(s: System<J>, id: nat, issuer: string, at: Time, m: Meta, metaAt: Time, keys: J, keysAt: Time)
    requires id !in s.pending && Holds(s.caches, RStrip(issuer), m, metaAt, keys, keysAt)
    requires at - metaAt < 3600 && at - keysAt < 300
    ensures var s' := Next(s, Begins(id, issuer, at));
      s'.caches == s.caches && id !in s'.pending && |s'.answers| == |s.answers| + 1
      && s'.answers[|s.answers|].issuer == issuer && s'.answers[|s.answers|].result == Ok(keys)
  {
  }

  /** Whole metadata and a key set are in the caches, with the time they came, as soon as they
      arrive; keys an answer carries are in the cache when it is given. */
  lemma ArrivalsAreCached<J>(s: System<J>, e: Turn<J>)
    requires Enabled(s, e)
    ensures e.MetaArrives? && e.metadata.Some? && Whole(e.metadata.value) ==>
      var iss := RStrip(s.pending[e.id].issuer);
      iss in Next(s, e).caches.discovery && Next(s, e).caches.discovery[iss] == Cached(e.metadata.value, e.at)
    ensures e.KeysArrive? && e.keySet.Some? ==>
      var uri := s.pending[e.id].phase.uri;
      uri in Next(s, e).caches.jwks && Next(s, e).caches.jwks[uri] == Cached(e.keySet.value, e.at)
    ensures |Next(s, e).answers| > |s.answers| && Next(s, e).answers[|s.answers|].result.Ok? ==>
      var a := Next(s, e).answers[|s.answers|];
      a.source.Source? && a.source.keys.url in Next(s, e).caches.jwks
      && Next(s, e).caches.jwks[a.source.keys.url] == Cached(a.result.value, a.source.keys.at)
  {
  }

  /** Each call that begins is pending or answered once: begins so far are the answers and the
      calls still pending. */
  lemma {:induction false} NoCallLost<J>(s: System<J>, es: seq<Turn<J>>)
    requires Runs(s, es)
    ensures |After(s, es).answers| + |After(s, es).pending| == |s.answers| + |s.pending| + BeginsIn(es)
    decreases |es|
  {
    if es == [] {
    } else {
      NextCounts(s, es[0]);
      NoCallLost(Next(s, es[0]), es[1..]);
    }
  }

  ghost function BeginsIn<J>(es: seq<Turn<J>>): nat {
    if es == [] then 0 else (if es[0].Begins? then 1 else 0) + BeginsIn(es[1..])
  }

  /** The call is answered, or is the one more that is pending. */
  ghost predicate OneMore<J>(s: System<J>, s': System<J>, id: nat) {
    |s'.answers| + |s'.pending| == |s.answers| + 1 + |s.pending - {id}|
  }

  lemma NextCounts<J>(s: System<J>, e: Turn<J>)
    requires Enabled(s, e)
    ensures |Next(s, e).answers| + |Next(s, e).pending| == |s.answers| + |s.pending| + if e.Begins? then 1 else 0
  {
    SizeWithout(s.pending, e.id);
    match e
    case Begins(id, issuer, at) =>
      WaitCounts(s, id, Pending(issuer, at, NeedsMeta));
      var iss := RStrip(issuer);
      if Hit(s.caches.discovery, iss, at, DISCOVERY_CACHE_TTL) {
        var c := s.caches.discovery[iss];
        HaveMetaCounts(s, id, issuer, at, Fetch(iss, c.value, c.at), at);
      }
    case MetaArrives(id, metadata, at) =>
      var p := s.pending[id];
      var d := Discovered(metadata);
      if d.Ok? {
        var f := Fetch(RStrip(p.issuer), d.value, at);
        HaveMetaCounts(s.(caches := MetaWritten(s.caches, f)), id, p.issuer, p.began, f, at);
      }
    case KeysArrive(_, _, _) =>
  }

  lemma HaveMetaCounts<J>(s: System<J>, id: nat, issuer: string, began: Time, meta: Fetch<Meta>, at: Time)
    ensures OneMore(s, HaveMeta(s, id, issuer, began, meta, at), id)
  {
    var uri := KeyUri(meta.value);
    if uri.Some? { WaitCounts(s, id, Pending(issuer, began, NeedsKeys(meta, uri.value))); }
  }

  lemma WaitCounts<J>(s: System<J>, id: nat, p: Pending)
    ensures OneMore(s, s.(pending := s.pending[id := p]), id)
  {
    SizeWithout(s.pending[id := p], id);
    assert s.pending[id := p] - {id} == s.pending - {id};
  }

  lemma SizeWithout(p: map<nat, Pending>, id: nat)
    ensures |p| == |p - {id}| + if id in p then 1 else 0
  {
    if id in p {
      assert p == (p - {id})[id := p[id]];
    } else {
      assert p - {id} == p;
    }
  }
}
