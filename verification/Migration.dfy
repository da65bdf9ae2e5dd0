/** The one-shot migration of legacy config rows to the encrypted shape. */
module Migration {
  import opened Wrappers
  import opened Encryption

  /** A config column: SQL NULL or a JSON value, by row id. */
  type Table = map<nat, Option<Json>>

  predicate IsCanonical(raw: Json) {
    raw.Obj? && Flagged(raw.fields)
  }

  function Plain(raw: Json, key: Option<nat>, codec: Codec): Json {
    Decrypt(raw, key, codec)
  }

  /** Rows whose re-encryption has to be written. */
  predicate Changes(raw: Json, key: Option<nat>, codec: Codec) {
    !IsCanonical(raw) &&
    var plain := Plain(raw, key, codec);
    !Falsy(plain) && plain.Obj? && (Sensitive(plain.fields) != {} || Flagged(plain.fields))
  }

  /** Rows on which encrypt_config raises. */
  predicate Raises(raw: Json, key: Option<nat>, codec: Codec) {
    !IsCanonical(raw) && key.None? &&
    var plain := Plain(raw, key, codec);
    plain.Obj? && Sensitive(plain.fields) != {}
  }

  /** raw' is what a committed migration leaves of raw. */
  ghost predicate Migrated(raw: Json, raw': Json, key: Option<nat>, codec: Codec) {
    if !Changes(raw, key, codec) then raw' == raw
    else
      var fields := Plain(raw, key, codec).fields;
      if Sensitive(fields) == {} then raw' == Obj(fields)
      else key.Some? && Seals(fields, key.value, raw')
  }

  ghost function Present(t: Table): set<nat> {
    set id | id in t && t[id].Some?
  }

  ghost function ToChange(t: Table, key: Option<nat>, codec: Codec): set<nat> {
    set id | id in t && ChangesAt(t, id, key, codec)
  }

  ghost predicate TableMigrated(t: Table, t': Table, key: Option<nat>, codec: Codec) {
    && t'.Keys == t.Keys
    && forall id :: id in t ==> MigratedAt(t, t', id, key, codec)
  }

  ghost predicate ChangesAt(t: Table, id: nat, key: Option<nat>, codec: Codec) {
    id in t && t[id].Some? && Changes(t[id].value, key, codec)
  }

  ghost predicate RaisesAt(t: Table, id: nat, key: Option<nat>, codec: Codec) {
    id in t && t[id].Some? && Raises(t[id].value, key, codec)
  }

  ghost predicate MigratedAt(t: Table, t': Table, id: nat, key: Option<nat>, codec: Codec) {
    id in t && id in t' &&
    if t[id].None? then t'[id] == None
    else t'[id].Some? && Migrated(t[id].value, t'[id].value, key, codec)
  }

  /** Of these rows, the ones to change. */
  ghost function ToChangeIn(t: Table, ids: set<nat>, key: Option<nat>, codec: Codec): set<nat> {
    set id | id in ids && ChangesAt(t, id, key, codec)
  }

  lemma OneMore(t: Table, ids: set<nat>, id: nat, key: Option<nat>, codec: Codec)
    requires id !in ids
    ensures |ToChangeIn(t, ids + {id}, key, codec)|
         == |ToChangeIn(t, ids, key, codec)| + if ChangesAt(t, id, key, codec) then 1 else 0
  {
    assert ToChangeIn(t, ids + {id}, key, codec)
        == ToChangeIn(t, ids, key, codec) + if ChangesAt(t, id, key, codec) then {id} else {};
  }

  /** One row: None leaves it, Some is the value to write. */
  method MigrateRow(raw: Json, key: Option<nat>, codec: Codec, nonce: nat) returns (r: Result<Option<Json>, KeyError>)
    ensures r.Err? <==> Raises(raw, key, codec)
    ensures r.Ok? ==> (r.value.Some? <==> Changes(raw, key, codec))
    ensures r.Ok? ==> Migrated(raw, if r.value.Some? then r.value.value else raw, key, codec)
  {
    if IsCanonical(raw) {
      return Ok(None);
    }
    var plain := Decrypt(raw, key, codec);
    if Falsy(plain) {
      return Ok(None);
    }
    var sealed := EncryptConfig(plain, key, nonce);
    if sealed.Err? {
      return Err(NoUsableKey);
    }
    var reEncrypted := sealed.value;
    if plain.Obj? && Sensitive(plain.fields) != {} {
      NothingSensitiveLeft(plain.fields, key.value, reEncrypted);
    }
    if !(reEncrypted.Obj? && Flagged(reEncrypted.fields)) {
      return Ok(None);
    }
    return Ok(Some(reEncrypted));
  }

  class ConfigTable {
    var rows: Table

    constructor (rows: Table)
      ensures this.rows == rows
    {
      this.rows := rows;
    }

    /** One run over the table and its transaction: a raise rolls everything back, and a dry
        run counts the same rows and writes none. */
    method MigrateTable(commit: bool, key: Option<nat>, codec: Codec, nonces: nat -> nat)
      returns (r: Result<(nat, nat), KeyError>)
      modifies this
      ensures r.Err? <==> exists id :: RaisesAt(old(rows), id, key, codec)
      ensures r.Ok? ==> r.value == (|Present(old(rows))|, |ToChange(old(rows), key, codec)|)
      ensures r.Ok? && commit ==> TableMigrated(old(rows), rows, key, codec)
      ensures r.Err? || !commit ==> rows == old(rows)
    {
      var ids := set id | id in rows && rows[id].Some?;
      var pending, total, changed, updated := ids, |ids|, 0, rows;
      while pending != {}
        invariant pending <= ids && ids == Present(rows) && rows == old(rows)
        invariant Progress(rows, updated, ids - pending, commit, key, codec)
        invariant changed == |ToChangeIn(rows, ids - pending, key, codec)|
        decreases pending
      {
        var id :| id in pending;
        ghost var done := ids - pending;
        var outcome := MigrateRow(rows[id].value, key, codec, nonces(id));
        if outcome.Err? {
          assert RaisesAt(rows, id, key, codec);
          return Err(NoUsableKey);
        }
        OneMore(rows, done, id, key, codec);
        ProgressStep(rows, updated, done, id, outcome.value, commit, key, codec);
        pending := pending - {id};
        assert ids - pending == done + {id};
        if outcome.value.Some? {
          changed := changed + 1;
          if commit {
            updated := updated[id := outcome.value];
          }
        }
      }
      assert ids - pending == ids;
      ProgressDone(rows, updated, commit, key, codec);
      rows := updated;
      return Ok((total, changed));
    }
  }

  /** Rows `done` are dealt with in the pending table u, the others are as they were. */
  ghost predicate Progress(t: Table, u: Table, done: set<nat>, commit: bool, key: Option<nat>, codec: Codec) {
    && u.Keys == t.Keys && done <= Present(t)
    && (forall id :: id in done ==> !RaisesAt(t, id, key, codec))
    && (forall id :: id in t && id !in done ==> u[id] == t[id])
    && (if commit then forall id :: id in done ==> MigratedAt(t, u, id, key, codec) else u == t)
  }

  lemma ProgressStep(t: Table, u: Table, done: set<nat>, id: nat, written: Option<Json>,
                     commit: bool, key: Option<nat>, codec: Codec)
    requires Progress(t, u, done, commit, key, codec) && id in Present(t) && id !in done
    requires !RaisesAt(t, id, key, codec)
    requires Migrated(t[id].value, if written.Some? then written.value else t[id].value, key, codec)
    ensures Progress(t, if commit && written.Some? then u[id := written] else u, done + {id}, commit, key, codec)
  {
    var u' := if commit && written.Some? then u[id := written] else u;
    if commit {
      forall i | i in done + {id} ensures MigratedAt(t, u', i, key, codec) {
        if i != id { assert MigratedAt(t, u, i, key, codec); }
      }
    }
  }

  lemma ProgressDone(t: Table, u: Table, commit: bool, key: Option<nat>, codec: Codec)
    requires Progress(t, u, Present(t), commit, key, codec)
    ensures forall id :: !RaisesAt(t, id, key, codec)
    ensures if commit then TableMigrated(t, u, key, codec) else u == t
    ensures ToChangeIn(t, Present(t), key, codec) == ToChange(t, key, codec)
  {
    forall id ensures !RaisesAt(t, id, key, codec) {
      assert RaisesAt(t, id, key, codec) ==> id in Present(t);
    }
    if commit {
      forall id | id in t ensures MigratedAt(t, u, id, key, codec) {
        if id in Present(t) { assert MigratedAt(t, u, id, key, codec); }
      }
    }
    assert ToChangeIn(t, Present(t), key, codec) == ToChange(t, key, codec);
  }

  // --- What the migration means ------------------------------------------------------------

  /** A migrated row means what it meant, except when it was rewritten and its decrypted dict
      used one of the marker names: then, and only then, its meaning changes. */
  lemma MeaningKeptIff(raw: Json, raw': Json, key: Option<nat>, codec: Codec)
    requires Migrated(raw, raw', key, codec) && key.Some?
    ensures Decrypt(raw', key, codec) == Decrypt(raw, key, codec)
       <==> !Changes(raw, key, codec) || Plain(raw, key, codec).fields.Keys !! RESERVED
  {
    if Changes(raw, key, codec) {
      var fields := Plain(raw, key, codec).fields;
      RoundTripIff(fields, key.value, raw', codec);
      assert Flagged(fields) ==> "__enc__" in fields.Keys && "__enc__" in RESERVED;
    }
  }

  /** The three legacy shapes of a document: the plain dict, base64 of its JSON, its JSON text. */
  ghost predicate Encodes(raw: Json, fields: map<string, Json>, codec: Codec) {
    || (raw == Obj(fields) && !Marked(fields))
    || (raw.Str? && codec.base64(raw.s) == Some(Obj(fields)))
    || (raw.Str? && codec.base64(raw.s) == None && codec.text(raw.s) == Some(Obj(fields)))
  }

  ghost predicate Marked(fields: map<string, Json>) {
    "__enc__" in fields && fields["__enc__"] == Bool(true)
  }

  /** What an unmarked row decrypts to, if it is a dict that is not empty. */
  lemma DecryptsToIff(raw: Json, fields: map<string, Json>, key: Option<nat>, codec: Codec)
    requires fields != map[] && !IsCanonical(raw)
    ensures Decrypt(raw, key, codec) == Obj(fields) <==> Encodes(raw, fields, codec)
  {
  }

  /** A row is to be rewritten exactly when it encodes, in a legacy shape, a document with a
      secret field or a true marker; the run raises exactly when one with a secret field meets
      no key. A marked row is never touched. */
  lemma ChangesIff(raw: Json, key: Option<nat>, codec: Codec)
    ensures Changes(raw, key, codec) <==>
      (raw.Obj? ==> !Marked(raw.fields)) && exists fields :: Encodes(raw, fields, codec) && (HasSecret(fields) || Marked(fields))
    ensures Raises(raw, key, codec) <==>
      key.None? && (raw.Obj? ==> !Marked(raw.fields)) && exists fields :: Encodes(raw, fields, codec) && HasSecret(fields)
  {
    if !IsCanonical(raw) {
      var plain := Plain(raw, key, codec);
      if plain.Obj? {
        SensitiveFields(plain.fields);
        if plain.fields != map[] { DecryptsToIff(raw, plain.fields, key, codec); }
      }
      forall fields | Encodes(raw, fields, codec) && (HasSecret(fields) || Marked(fields)) ensures plain == Obj(fields) {
        DecryptsToIff(raw, fields, key, codec);
      }
    }
  }

  /** A legacy row keeps its document, whichever of the three shapes it had, exactly when it has
      neither a secret nor a marker, or uses none of the marker's names. */
  lemma LegacyMeaningKeptIff(raw: Json, raw': Json, fields: map<string, Json>, key: nat, codec: Codec)
    requires Encodes(raw, fields, codec) && Migrated(raw, raw', Some(key), codec)
    ensures Decrypt(raw, Some(key), codec) == Obj(fields)
    ensures Decrypt(raw', Some(key), codec) == Obj(fields) <==>
      (!HasSecret(fields) && !Marked(fields)) || ("__enc__" !in fields && "__data__" !in fields && "__fields__" !in fields)
    ensures !HasSecret(fields) && !Marked(fields) ==> raw' == raw
  {
    MeaningKeptIff(raw, raw', Some(key), codec);
    SensitiveFields(fields);
  }

  /** A migrated row never changes again, so a second run changes and counts nothing. */
  lemma SecondRunChangesNothing(t: Table, t': Table, t'': Table, key: Option<nat>, codec: Codec)
    requires TableMigrated(t, t', key, codec) && TableMigrated(t', t'', key, codec)
    ensures ToChange(t', key, codec) == {} && t'' == t'
  {
    forall id | id in t' ensures !ChangesAt(t', id, key, codec) && t''[id] == t'[id] {
      assert MigratedAt(t, t', id, key, codec) && MigratedAt(t', t'', id, key, codec);
      if t[id].Some? { SettledAfterOne(t[id].value, t'[id].value, key, codec); }
    }
  }

  lemma SettledAfterOne(raw: Json, raw': Json, key: Option<nat>, codec: Codec)
    requires Migrated(raw, raw', key, codec)
    ensures !Changes(raw', key, codec)
    ensures Changes(raw, key, codec) ==> IsCanonical(raw')
  {
    if Changes(raw, key, codec) {
      var fields := Plain(raw, key, codec).fields;
      if Sensitive(fields) != {} { NothingSensitiveLeft(fields, key.value, raw'); }
    }
  }

  /** After a committed run a row holds a sensitive top-level field in the clear exactly when it
      carried the marker already and held one before: such a row is skipped as it is. A row that
      is not a dict decrypts to no such field. */
  lemma SensitiveInTheClearIff(raw: Json, raw': Json, key: Option<nat>, codec: Codec)
    requires Migrated(raw, raw', key, codec)
    ensures raw'.Obj? && Sensitive(raw'.fields) != {} <==> IsCanonical(raw) && Sensitive(raw.fields) != {}
    ensures !raw'.Obj? ==>
      var plain := Decrypt(raw', key, codec); !plain.Obj? || Sensitive(plain.fields) == {}
  {
    if Changes(raw, key, codec) {
      var fields := Plain(raw, key, codec).fields;
      if Sensitive(fields) != {} {
        NothingSensitiveLeft(fields, key.value, raw');
      }
    }
  }

  /** A legacy field next to a true marker survives the migration readable, although the script
      is documented to skip only marked rows without such fields. */
  lemma MarkedRowKeepsSecret(key: Option<nat>, codec: Codec) returns (raw: Json)
    ensures raw == Obj(map["__enc__" := Bool(true), "client_secret" := Str("hunter2")])
    ensures forall raw' :: Migrated(raw, raw', key, codec) <==> raw' == raw
    ensures "client_secret" in Sensitive(raw.fields)
    ensures Decrypt(raw, key, codec) == Obj(map["client_secret" := Str("hunter2")])
  {
    raw := Obj(map["__enc__" := Bool(true), "client_secret" := Str("hunter2")]);
    assert IsSensitive("client_secret");
    assert !Opens(raw.fields, key);
    assert raw.fields - RESERVED == map["client_secret" := Str("hunter2")];
  }

  /** A plain dict with a secret and a field named like a marker loses that field. */
  lemma MarkerNameLost(key: nat, codec: Codec, raw': Json) returns (raw: Json)
    ensures raw == Obj(map["client_secret" := Str("s"), "__data__" := Str("d")])
    ensures Migrated(raw, raw', Some(key), codec) ==>
      Decrypt(raw, Some(key), codec) == raw && Decrypt(raw', Some(key), codec) == Obj(map["client_secret" := Str("s")])
  {
    raw := Obj(map["client_secret" := Str("s"), "__data__" := Str("d")]);
    assert IsSensitive("client_secret");
    assert "client_secret" in Sensitive(raw.fields);
    assert raw.fields - RESERVED == map["client_secret" := Str("s")];
    if Migrated(raw, raw', Some(key), codec) {
      SealedDecrypts(raw.fields, key, raw', codec);
    }
  }
}
