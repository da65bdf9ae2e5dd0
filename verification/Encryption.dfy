/** Config encryption: sensitive top-level fields sealed into one Fernet token, the rest left
    readable, and the legacy shapes decryption still accepts. */
module Encryption {
  import opened Wrappers

  /** A JSON value. Token stands for the string Fernet makes of a dumped dict under a key; a
      string it did not make is a Str. */
  datatype Json =
    | Null
    | Bool(b: bool)
    | Num(n: real)
    | Str(s: string)
    | Token(key: nat, nonce: nat, payload: map<string, Json>)
    | Arr(items: seq<Json>)
    | Obj(fields: map<string, Json>)

  /** Decoders of legacy strings: base64 of a JSON document, and a JSON document itself. */
  datatype Codec = Codec(base64: string -> Option<Json>, text: string -> Option<Json>)

  // --- Which fields are sensitive -------------------------------------------------------------

  const SENSITIVE_FIELDS := {"client_secret", "key_file_base64", "key_file_content", "aws_secret_access_key",
                             "secret_access_key", "session_token", "external_id"}

  /** The characters re.IGNORECASE identifies with each ASCII letter of the pattern. */
  function Fold(c: char): char {
    if 'A' <= c <= 'Z' then c - 'A' + 'a'
    else if c == '\U{17F}' then 's'
    else if c == '\U{212A}' then 'k'
    else c
  }

  predicate MatchesAt(name: string, word: string, i: nat) {
    i + |word| <= |name| && forall j :: 0 <= j < |word| ==> Fold(name[i + j]) == word[j]
  }

  predicate Contains(name: string, word: string) {
    exists i: nat :: i <= |name| && MatchesAt(name, word, i)
  }

  predicate IsSensitive(name: string) {
    name in SENSITIVE_FIELDS
    || Contains(name, "secret") || Contains(name, "password") || Contains(name, "token") || Contains(name, "key")
  }

  /** A letter of a lower-case keyword in either case; ignoring case also identifies the long s
      with s and the Kelvin sign with k. */
  ghost predicate SameLetter(c: char, letter: char) {
    c == letter || c as int + 32 == letter as int || (letter == 's' && c == '\U{17F}') || (letter == 'k' && c == '\U{212A}')
  }

  ghost predicate Spells(w: string, word: string) {
    |w| == |word| && forall i :: 0 <= i < |w| ==> SameLetter(w[i], word[i])
  }

  ghost predicate SpellsKeyword(w: string) {
    Spells(w, "secret") || Spells(w, "password") || Spells(w, "token") || Spells(w, "key")
  }

  /** One of the seven listed names, or a name with one of the four keywords in it. */
  ghost predicate Secret(name: string) {
    || name == "client_secret" || name == "key_file_base64" || name == "key_file_content"
    || name == "aws_secret_access_key" || name == "secret_access_key" || name == "session_token"
    || name == "external_id"
    || exists i, j :: 0 <= i <= j <= |name| && SpellsKeyword(name[i..j])
  }

  ghost predicate LowerCase(word: string) {
    forall i :: 0 <= i < |word| ==> 'a' <= word[i] <= 'z'
  }

  lemma ContainsIff(name: string, word: string)
    requires LowerCase(word)
    ensures Contains(name, word) <==> exists i, j :: 0 <= i <= j <= |name| && Spells(name[i..j], word)
  {
    if Contains(name, word) {
      var i: nat :| i <= |name| && MatchesAt(name, word, i);
      assert Spells(name[i..i + |word|], word);
    }
    if exists i, j :: 0 <= i <= j <= |name| && Spells(name[i..j], word) {
      var i, j :| 0 <= i <= j <= |name| && Spells(name[i..j], word);
      forall k | 0 <= k < |word| ensures Fold(name[i + k]) == word[k] {
        assert name[i..j][k] == name[i + k];
      }
      assert MatchesAt(name, word, i);
    }
  }

  /** Which names are sensitive. */
  lemma SensitiveIff(name: string)
    ensures IsSensitive(name) <==> Secret(name)
  {
    ContainsIff(name, "secret");
    ContainsIff(name, "password");
    ContainsIff(name, "token");
    ContainsIff(name, "key");
  }

  ghost predicate HasSecret(fields: map<string, Json>) {
    exists k :: k in fields && Secret(k)
  }

  lemma SensitiveFields(fields: map<string, Json>)
    ensures forall k :: k in Sensitive(fields) <==> k in fields && Secret(k)
    ensures Sensitive(fields) != {} <==> HasSecret(fields)
  {
    forall k ensures k in Sensitive(fields) <==> k in fields && Secret(k) {
      SensitiveIff(k);
    }
    if HasSecret(fields) {
      var k :| k in fields && Secret(k);
      assert k in Sensitive(fields);
    }
  }

  function Sensitive(fields: map<string, Json>): set<string> {
    set k | k in fields && IsSensitive(k)
  }

  const RESERVED := {"__enc__", "__data__", "__fields__"}

  predicate Flagged(fields: map<string, Json>) {
    "__enc__" in fields && fields["__enc__"] == Bool(true)
  }

  function Restrict(m: map<string, Json>, keys: set<string>): map<string, Json> {
    map k | k in m && k in keys :: m[k]
  }

  // --- encrypt_config and decrypt_config ----------------------------------------------------

  datatype KeyError = NoUsableKey

  /** r is a result encrypt_config may return for a dict with sensitive fields: Fernet picks
      the nonce and the dict its order. */
  ghost predicate Seals(fields: map<string, Json>, key: nat, r: Json) {
    exists nonce: nat, names: seq<Json> ::
      SealedAs(fields, key, nonce, names, r)
  }

  ghost predicate SealedAs(fields: map<string, Json>, key: nat, nonce: nat, names: seq<Json>, r: Json) {
    && r == Obj((fields - Sensitive(fields))
                ["__enc__" := Bool(true)]
                ["__data__" := Token(key, nonce, Restrict(fields, Sensitive(fields)))]
                ["__fields__" := Arr(names)])
    && |names| == |Sensitive(fields)|
    && forall k :: Str(k) in names <==> k in Sensitive(fields)
  }

  /** The fields to encrypt and their names. */
  method Gather(fields: map<string, Json>, sensitive: set<string>) returns (toEncrypt: map<string, Json>, names: seq<Json>)
    requires sensitive <= fields.Keys
    ensures toEncrypt == Restrict(fields, sensitive) && |names| == |sensitive|
    ensures forall k :: Str(k) in names <==> k in sensitive
  {
    toEncrypt, names := map[], [];
    var pending := sensitive;
    while pending != {}
      invariant pending <= sensitive
      invariant toEncrypt == Restrict(fields, sensitive - pending)
      invariant |names| + |pending| == |sensitive|
      invariant forall k :: Str(k) in names <==> k in sensitive - pending
      decreases pending
    {
      var field :| field in pending;
      toEncrypt := toEncrypt[field := fields[field]];
      names := names + [Str(field)];
      pending := pending - {field};
    }
    assert sensitive - pending == sensitive;
  }

  method EncryptConfig(config: Json, key: Option<nat>, nonce: nat) returns (r: Result<Json, KeyError>)
    ensures !config.Obj? || !HasSecret(config.fields) ==> r == Ok(config)
    ensures config.Obj? && HasSecret(config.fields) ==> (r.Err? <==> key.None?)
    ensures config.Obj? && HasSecret(config.fields) && key.Some? ==>
      Seals(config.fields, key.value, r.value) && Hides(config.fields, r.value)
    ensures config.Obj? ==> (HasSecret(config.fields) <==> Sensitive(config.fields) != {})
  {
    if !config.Obj? {
      return Ok(config);
    }
    SensitiveFields(config.fields);
    var sensitive := Sensitive(config.fields);
    if sensitive == {} {
      return Ok(config);
    }
    var toEncrypt, names := Gather(config.fields, sensitive);
    if key.None? {
      return Err(NoUsableKey);
    }
    var result := (config.fields - sensitive)
                  ["__enc__" := Bool(true)]["__data__" := Token(key.value, nonce, toEncrypt)]["__fields__" := Arr(names)];
    Assembled(config.fields, key.value, nonce, names, Obj(result));
    return Ok(Obj(result));
  }

  lemma Assembled(fields: map<string, Json>, key: nat, nonce: nat, names: seq<Json>, r: Json)
    requires SealedAs(fields, key, nonce, names, r)
    ensures Seals(fields, key, r) && Hides(fields, r)
  {
    NothingSensitiveLeft(fields, key, r);
  }

  /** r carries the marker, lists exactly the secret names, leaves none of them readable, and
      keeps every other field but those it needs for the marker itself. */
  ghost predicate Hides(fields: map<string, Json>, r: Json) {
    && r.Obj? && "__enc__" in r.fields && r.fields["__enc__"] == Bool(true)
    && (forall k :: k in r.fields ==> !Secret(k))
    && (forall k :: k in fields && !Secret(k) && k != "__enc__" && k != "__data__" && k != "__fields__" ==>
         k in r.fields && r.fields[k] == fields[k])
    && "__fields__" in r.fields && r.fields["__fields__"].Arr?
    && (forall k :: Str(k) in r.fields["__fields__"].items <==> k in fields && Secret(k))
  }

  predicate Falsy(j: Json) {
    j == Null || j == Bool(false) || j == Num(0.0) || j == Str("") || j == Arr([]) || j == Obj(map[])
  }

  /** Whether decryption under this key opens the flagged dict's token. */
  predicate Opens(fields: map<string, Json>, key: Option<nat>) {
    key.Some? && "__data__" in fields && fields["__data__"].Token? && fields["__data__"].key == key.value
  }

  function Decrypt(raw: Json, key: Option<nat>, codec: Codec): Json {
    match raw
    case Obj(fields) =>
      if !Flagged(fields) then raw
      else if Opens(fields, key) then Obj((fields - RESERVED) + fields["__data__"].payload)
      else Obj(fields - RESERVED)
    case Str(s) =>
      (match codec.base64(s)
       case Some(j) => j
       case None => match codec.text(s) case Some(j) => j case None => Obj(map[]))
    case Token(_, _, _) => Obj(map[])
    case _ => if Falsy(raw) then Obj(map[]) else raw
  }

  // --- Round trip ------------------------------------------------------------------------------

  /** The legacy shapes decrypt to the document they encode: base64 of its JSON, or the JSON itself
      if it does not decode as base64. */
  lemma LegacyStrings(s: string, doc: Json, key: Option<nat>, codec: Codec)
    ensures codec.base64(s) == Some(doc) ==> Decrypt(Str(s), key, codec) == doc
    ensures codec.base64(s) == None && codec.text(s) == Some(doc) ==> Decrypt(Str(s), key, codec) == doc
    ensures codec.base64(s) == None && codec.text(s) == None ==> Decrypt(Str(s), key, codec) == Obj(map[])
  {
  }

  lemma NotContained(name: string, word: string, c: char)
    requires c in word && forall i :: 0 <= i < |name| ==> Fold(name[i]) != c
    ensures !Contains(name, word)
  {
    var n :| 0 <= n < |word| && word[n] == c;
    forall i: nat | i <= |name| ensures !MatchesAt(name, word, i) {
      if i + |word| <= |name| { assert Fold(name[i + n]) != word[n]; }
    }
  }

  /** The marker fields themselves are not sensitive. */
  lemma ReservedNotSensitive()
    ensures forall k :: k in RESERVED ==> !IsSensitive(k)
  {
    forall k | k in RESERVED ensures !IsSensitive(k) {
      assert k == "__enc__" || k == "__data__" || k == "__fields__";
      NotContained(k, "secret", 'r');
      NotContained(k, "password", 'p');
      NotContained(k, "token", 'k');
      NotContained(k, "key", 'k');
    }
  }

  /** A dict comes back from its encryption exactly when it used none of the marker names, or
      had nothing to encrypt and no true "__enc__". */
  lemma RoundTripIff(fields: map<string, Json>, key: nat, r: Json, codec: Codec)
    requires if Sensitive(fields) == {} then r == Obj(fields) else Seals(fields, key, r)
    ensures Decrypt(r, Some(key), codec) == Obj(fields)
       <==> if Sensitive(fields) == {} then !Flagged(fields) else fields.Keys !! RESERVED
  {
    if Sensitive(fields) == {} {
      if Flagged(fields) { FlaggedNotFixed(fields, Some(key), codec); }
    } else {
      SealedDecrypts(fields, key, r, codec);
      ReservedNotSensitive();
      assert (fields - RESERVED) + Restrict(fields, Sensitive(fields)) == fields - RESERVED;
      if fields.Keys !! RESERVED {
        assert fields - RESERVED == fields;
      } else {
        var k :| k in fields && k in RESERVED;
        assert k !in fields - RESERVED;
      }
    }
  }

  /** Decrypting what encryption made yields the dict without the marker names. */
  lemma SealedDecrypts(fields: map<string, Json>, key: nat, r: Json, codec: Codec)
    requires Seals(fields, key, r)
    ensures Decrypt(r, Some(key), codec) == Obj(fields - RESERVED)
  {
    var nonce: nat, names: seq<Json> :| SealedAs(fields, key, nonce, names, r);
    var s := Sensitive(fields);
    ReservedNotSensitive();
    assert r.fields - RESERVED == (fields - s) - RESERVED;
    assert ((fields - s) - RESERVED) + Restrict(fields, s) == fields - RESERVED;
  }

  /** A dict that already carries the marker is never its own decryption. */
  lemma FlaggedNotFixed(fields: map<string, Json>, key: Option<nat>, codec: Codec)
    requires Flagged(fields)
    ensures Decrypt(Obj(fields), key, codec) != Obj(fields)
  {
    if Opens(fields, key) {
      var token := fields["__data__"];
      var d := (fields - RESERVED) + token.payload;
      assert "__data__" in token.payload ==> token.payload["__data__"] != token;
      assert "__data__" in d ==> d["__data__"] != token;
    } else {
      assert "__enc__" !in fields - RESERVED;
    }
  }

  /** No sensitive field of the dict is left in the clear, and the others are left as is. */
  lemma NothingSensitiveLeft(fields: map<string, Json>, key: nat, r: Json)
    requires Seals(fields, key, r)
    ensures Hides(fields, r)
    ensures r.Obj? && Flagged(r.fields) && Sensitive(r.fields) == {}
  {
    ReservedNotSensitive();
    SensitiveFields(fields);
    SensitiveFields(r.fields);
    var nonce: nat, names: seq<Json> :| SealedAs(fields, key, nonce, names, r);
    forall k | k in r.fields ensures !Secret(k) { assert k !in Sensitive(r.fields); }
  }

  /** Under another key, or none, the sealed fields are missing and the rest is there. */
  lemma WrongKeyRedacts(fields: map<string, Json>, key: nat, other: Option<nat>, r: Json, codec: Codec)
    requires Seals(fields, key, r) && other != Some(key)
    ensures Decrypt(r, other, codec) == Obj((fields - Sensitive(fields)) - RESERVED)
  {
    var nonce: nat, names: seq<Json> :| SealedAs(fields, key, nonce, names, r);
    assert r.fields - RESERVED == (fields - Sensitive(fields)) - RESERVED;
  }
}
