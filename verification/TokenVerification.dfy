/** The two ID-token checks, with and without nonce binding. */
module TokenVerification {
  import opened Wrappers

  /** A JWK: its kid and alg members if present, and whether it has any member at all. */
  datatype Jwk = Jwk(kid: Option<string>, alg: Option<string>, others: bool)

  predicate Truthy(k: Jwk) { k.kid.Some? || k.alg.Some? || k.others }

  datatype Header = Header(kid: Option<string>, alg: string)

  datatype Audience = NoAudience | One(client: string) | Many(clients: seq<string>)

  /** Claims; a missing exp or iat is None, other claims are not looked at here. */
  datatype Claims = Claims(exp: Option<int>, iat: Option<int>, iss: string, aud: Audience, nonce: string)

  /** What the provider and the JWT library answer for one token: the key list or its failure,
      the unverified header, and decoding with a key under the header's algorithm. */
  datatype Token = Token(keys: Option<seq<Jwk>>, header: Option<Header>, decode: Jwk -> Option<Claims>)

  datatype VerifyError =
    | MissingIssuer | JwksFailed | NoKeys | BadFormat | InsecureAlgorithm | NoSuitableKey
    | DecodeFailed | ExpiredToken | IssuedInFuture | IssuerMismatch | AudienceMismatch | NonceMismatch

  predicate Insecure(alg: string) { alg == "none" || "HS" <= alg }

  predicate Asymmetric(k: Jwk) { k.alg.Some? && ("RS" <= k.alg.value || "ES" <= k.alg.value) }

  /** k is the first of the keys with this property. */
  ghost predicate FirstWith(keys: seq<Jwk>, k: Jwk, p: Jwk -> bool) {
    exists i :: 0 <= i < |keys| && keys[i] == k && p(k) && forall j :: 0 <= j < i ==> !p(keys[j])
  }

  /** The first key with the header's kid if that is a non-empty object; else the first RS or
      ES key; else none. */
  ghost predicate Selected(keys: seq<Jwk>, kid: Option<string>, r: Option<Jwk>) {
    if exists k :: FirstWith(keys, k, (x: Jwk) => x.kid == kid) && Truthy(k)
    then r.Some? && FirstWith(keys, r.value, (x: Jwk) => x.kid == kid)
    else if exists i :: 0 <= i < |keys| && Asymmetric(keys[i])
    then r.Some? && FirstWith(keys, r.value, Asymmetric)
    else r.None?
  }

  /** The two search loops. */
  method SelectKey(keys: seq<Jwk>, kid: Option<string>) returns (r: Option<Jwk>)
    ensures Selected(keys, kid, r)
  {
    var same := (x: Jwk) => x.kid == kid;
    var i := 0;
    while i < |keys| && keys[i].kid != kid
      invariant 0 <= i <= |keys|
      invariant forall j :: 0 <= j < i ==> !same(keys[j])
    {
      i := i + 1;
    }
    if i < |keys| && Truthy(keys[i]) {
      assert FirstWith(keys, keys[i], same);
      return Some(keys[i]);
    }
    i := 0;
    while i < |keys|
      invariant 0 <= i <= |keys|
      invariant forall j :: 0 <= j < i ==> !Asymmetric(keys[j])
    {
      if Asymmetric(keys[i]) {
        assert FirstWith(keys, keys[i], Asymmetric);
        return Some(keys[i]);
      }
      i := i + 1;
    }
    return None;
  }

  /** At most one answer fits. */
  lemma SelectedUnique(keys: seq<Jwk>, kid: Option<string>, a: Option<Jwk>, b: Option<Jwk>)
    requires Selected(keys, kid, a) && Selected(keys, kid, b)
    ensures a == b
  {
    var same := (x: Jwk) => x.kid == kid;
    if a.Some? && b.Some? {
      if exists k :: FirstWith(keys, k, same) && Truthy(k) {
        FirstWithUnique(keys, a.value, b.value, same);
      } else {
        FirstWithUnique(keys, a.value, b.value, Asymmetric);
      }
    }
  }

  lemma FirstWithUnique(keys: seq<Jwk>, a: Jwk, b: Jwk, p: Jwk -> bool)
    requires FirstWith(keys, a, p) && FirstWith(keys, b, p)
    ensures a == b
  {
    var i :| 0 <= i < |keys| && keys[i] == a && p(a) && forall j :: 0 <= j < i ==> !p(keys[j]);
    var m :| 0 <= m < |keys| && keys[m] == b && p(b) && forall j :: 0 <= j < m ==> !p(keys[j]);
    assert i == m;
  }

  predicate HasAudience(aud: Audience, clientId: string) {
    match aud
    case NoAudience => false
    case One(c) => c == clientId
    case Many(cs) => clientId in cs
  }

  /** The claim checks, whatever their order. */
  predicate ClaimsOk(c: Claims, issuer: string, clientId: string, now: int) {
    && c.exp.Some? && c.exp.value != 0 && c.exp.value >= now
    && (c.iat.Some? && c.iat.value != 0 ==> c.iat.value <= now + 300)
    && c.iss == issuer
    && HasAudience(c.aud, clientId)
  }

  /** Everything both checks demand of a token that yields these claims. */
  ghost predicate Acceptable(t: Token, issuer: string, clientId: string, now: int, c: Claims) {
    && issuer != "" && t.keys.Some? && t.keys.value != [] && t.header.Some? && !Insecure(t.header.value.alg)
    && (exists k :: Selected(t.keys.value, t.header.value.kid, Some(k)) && t.decode(k) == Some(c))
    && ClaimsOk(c, issuer, clientId, now)
  }

  /** Without nonce binding: accepts exactly the acceptable claims. */
  method VerifyIdTokenNoNonce(t: Token, issuer: string, clientId: string, now: int) returns (r: Result<Claims, VerifyError>)
    ensures forall c :: r == Ok(c) <==> Acceptable(t, issuer, clientId, now, c)
  {
    if issuer == "" { return Err(MissingIssuer); }
    if t.keys.None? { return Err(JwksFailed); }
    if t.keys.value == [] { return Err(NoKeys); }
    if t.header.None? { return Err(BadFormat); }
    var kid, alg := t.header.value.kid, t.header.value.alg;
    if Insecure(alg) { return Err(InsecureAlgorithm); }
    var key := SelectKey(t.keys.value, kid);
    OnlySelected(t, key);
    if key.None? { return Err(NoSuitableKey); }
    var decoded := t.decode(key.value);
    if decoded.None? { return Err(DecodeFailed); }
    var c := decoded.value;
    if c.exp.None? || c.exp.value == 0 || c.exp.value < now { return Err(ExpiredToken); }
    if c.iat.Some? && c.iat.value != 0 && c.iat.value > now + 300 { return Err(IssuedInFuture); }
    if c.iss != issuer { return Err(IssuerMismatch); }
    if !HasAudience(c.aud, clientId) { return Err(AudienceMismatch); }
    return Ok(c);
  }

  /** With nonce binding: accepts exactly the acceptable claims that carry the nonce, that is,
      what the other check accepts and whose nonce is the expected one. */
  method VerifyIdToken(t: Token, issuer: string, clientId: string, nonce: string, now: int)
    returns (r: Result<Claims, VerifyError>)
    ensures forall c :: r == Ok(c) <==> Acceptable(t, issuer, clientId, now, c) && c.nonce == nonce
  {
    if issuer == "" { return Err(MissingIssuer); }
    if t.keys.None? { return Err(JwksFailed); }
    if t.keys.value == [] { return Err(NoKeys); }
    if t.header.None? { return Err(BadFormat); }
    var kid, alg := t.header.value.kid, t.header.value.alg;
    if Insecure(alg) { return Err(InsecureAlgorithm); }
    var key := SelectKey(t.keys.value, kid);
    OnlySelected(t, key);
    if key.None? { return Err(NoSuitableKey); }
    var decoded := t.decode(key.value);
    if decoded.None? { return Err(DecodeFailed); }
    var c := decoded.value;
    if c.exp.None? || c.exp.value == 0 || c.exp.value < now { return Err(ExpiredToken); }
    if c.iat.Some? && c.iat.value != 0 && c.iat.value > now + 300 { return Err(IssuedInFuture); }
    if c.iss != issuer { return Err(IssuerMismatch); }
    if !HasAudience(c.aud, clientId) { return Err(AudienceMismatch); }
    if c.nonce != nonce { return Err(NonceMismatch); }
    return Ok(c);
  }

  lemma OnlySelected(t: Token, key: Option<Jwk>)
    requires t.keys.Some? && t.header.Some? && Selected(t.keys.value, t.header.value.kid, key)
    ensures forall k :: Selected(t.keys.value, t.header.value.kid, Some(k)) <==> key == Some(k)
  {
    forall k | Selected(t.keys.value, t.header.value.kid, Some(k)) ensures key == Some(k) {
      SelectedUnique(t.keys.value, t.header.value.kid, key, Some(k));
    }
  }

  // --- The same in plain terms -----------------------------------------------------------------

  ghost predicate StartsWith(s: string, a: char, b: char) { |s| >= 2 && s[0] == a && s[1] == b }

  lemma TwoLetters(s: string, word: string)
    requires |word| == 2
    ensures word <= s <==> StartsWith(s, word[0], word[1])
  {
    if StartsWith(s, word[0], word[1]) { assert s[..2] == word; }
  }

  /** Key i is the first whose kid is the header's, and it is not an empty object. */
  ghost predicate KidAt(keys: seq<Jwk>, kid: Option<string>, i: nat) {
    i < |keys| && keys[i].kid == kid && (forall j :: 0 <= j < i ==> keys[j].kid != kid)
    && (keys[i].kid.Some? || keys[i].alg.Some? || keys[i].others)
  }

  ghost predicate RsOrEs(k: Jwk) {
    k.alg.Some? && (StartsWith(k.alg.value, 'R', 'S') || StartsWith(k.alg.value, 'E', 'S'))
  }

  /** Key i is the one a token with this kid is verified with. */
  ghost predicate ChosenAt(keys: seq<Jwk>, kid: Option<string>, i: nat) {
    KidAt(keys, kid, i)
    || ((forall j: nat :: !KidAt(keys, kid, j)) && i < |keys| && RsOrEs(keys[i]) && forall j :: 0 <= j < i ==> !RsOrEs(keys[j]))
  }

  lemma KidFirst(keys: seq<Jwk>, kid: Option<string>, k: Jwk)
    ensures FirstWith(keys, k, (x: Jwk) => x.kid == kid) && Truthy(k) <==> exists i: nat :: KidAt(keys, kid, i) && keys[i] == k
  {
    if FirstWith(keys, k, (x: Jwk) => x.kid == kid) && Truthy(k) {
      var p := (x: Jwk) => x.kid == kid;
      var i :| 0 <= i < |keys| && keys[i] == k && p(k) && forall j :: 0 <= j < i ==> !p(keys[j]);
      assert forall j :: 0 <= j < i ==> keys[j].kid == kid ==> p(keys[j]);
      assert KidAt(keys, kid, i);
    }
  }

  lemma AsymmetricIff(k: Jwk)
    ensures Asymmetric(k) <==> RsOrEs(k)
  {
    if k.alg.Some? {
      TwoLetters(k.alg.value, "RS");
      TwoLetters(k.alg.value, "ES");
    }
  }

  lemma AsymmetricFirst(keys: seq<Jwk>, k: Jwk)
    ensures FirstWith(keys, k, Asymmetric) <==>
      exists i: nat :: i < |keys| && keys[i] == k && RsOrEs(k) && forall j :: 0 <= j < i ==> !RsOrEs(keys[j])
  {
    forall x ensures Asymmetric(x) <==> RsOrEs(x) { AsymmetricIff(x); }
  }

  /** Which key is chosen, by its position. */
  lemma SelectedIff(keys: seq<Jwk>, kid: Option<string>, k: Jwk)
    ensures Selected(keys, kid, Some(k)) <==> exists i: nat :: ChosenAt(keys, kid, i) && keys[i] == k
  {
    forall x ensures FirstWith(keys, x, (y: Jwk) => y.kid == kid) && Truthy(x) <==> exists i: nat :: KidAt(keys, kid, i) && keys[i] == x {
      KidFirst(keys, kid, x);
    }
    if i: nat :| KidAt(keys, kid, i) {
      assert FirstWith(keys, keys[i], (y: Jwk) => y.kid == kid) && Truthy(keys[i]);
      SelectedByKid(keys, kid, k, i);
    } else {
      forall x ensures Asymmetric(x) <==> RsOrEs(x) { AsymmetricIff(x); }
      AsymmetricFirst(keys, k);
    }
  }

  lemma SelectedByKid(keys: seq<Jwk>, kid: Option<string>, k: Jwk, i: nat)
    requires KidAt(keys, kid, i) && FirstWith(keys, keys[i], (y: Jwk) => y.kid == kid) && Truthy(keys[i])
    ensures Selected(keys, kid, Some(k)) <==> k == keys[i]
    ensures forall n: nat :: ChosenAt(keys, kid, n) <==> n == i
  {
    if FirstWith(keys, k, (y: Jwk) => y.kid == kid) {
      FirstWithUnique(keys, k, keys[i], (y: Jwk) => y.kid == kid);
    }
    forall n: nat | KidAt(keys, kid, n) ensures n == i {}
  }

  /** What both checks demand, spelled out: an issuer, keys, a header whose algorithm is neither
      none nor HS-anything, decoding under the chosen key, an unexpired exp, an iat not more than
      300 seconds ahead, the issuer itself, and the client among the audience. */
  lemma AcceptableIff(t: Token, issuer: string, clientId: string, now: int, c: Claims)
    ensures Acceptable(t, issuer, clientId, now, c) <==>
      && issuer != "" && t.keys.Some? && |t.keys.value| > 0 && t.header.Some?
      && t.header.value.alg != "none" && !StartsWith(t.header.value.alg, 'H', 'S')
      && (exists i: nat :: ChosenAt(t.keys.value, t.header.value.kid, i) && t.decode(t.keys.value[i]) == Some(c))
      && c.exp.Some? && c.exp.value != 0 && now <= c.exp.value
      && (c.iat.None? || c.iat.value == 0 || c.iat.value - now <= 300)
      && c.iss == issuer
      && (c.aud == One(clientId) || (c.aud.Many? && exists n :: 0 <= n < |c.aud.clients| && c.aud.clients[n] == clientId))
  {
    if t.keys.Some? && t.header.Some? {
      TwoLetters(t.header.value.alg, "HS");
      forall k ensures Selected(t.keys.value, t.header.value.kid, Some(k))
          <==> exists i: nat :: ChosenAt(t.keys.value, t.header.value.kid, i) && t.keys.value[i] == k {
        SelectedIff(t.keys.value, t.header.value.kid, k);
      }
    }
  }
}
