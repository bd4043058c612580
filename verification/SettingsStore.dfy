/**
 The settings table, its writers, and the in-memory cache that is reloaded after each of them.

 The cache is to behave as a plain map from key to plain value, although some rows are stored
 encrypted under a key that is itself derived from another row.
 */
module SettingsStore {
  import opened Prelude

  /** A JSON value.  Stored rows are objects {"value": v} or {"value": c, "encrypted": true}. */
  datatype Json = Null | Bool(b: bool) | Num(n: int) | Str(s: string) | Obj(fields: map<string, Json>)

  datatype Row = Row(value: Json, sensitive: bool)

  type Table = map<string, Row>

  /**
   Fernet, the key derivation and the environment, as given functions.  `envKey` is the environment
   variable SETTINGS_FERNET_KEY, "" when unset; encryption is randomised by a nonce.
   */
  datatype Crypto = Crypto(envKey: string,
                           isKey: string -> bool,
                           derive: string -> string,
                           encrypt: (string, string, nat) -> string,
                           decrypt: (string, string) -> Option<string>)

  ghost predicate Lawful(f: Crypto) {
    && (forall k, v, n :: f.isKey(k) ==> f.decrypt(k, f.encrypt(k, v, n)) == Some(v))
    && (forall k, c :: !f.isKey(k) ==> f.decrypt(k, c) == None)
    && (forall secret :: f.isKey(f.derive(secret)))
  }

  const MASK := "********"
  const IMMUTABLE := {"jwt_secret", "database_url", "redis_url"}
  const NO_BLANK := {"setup_complete"}
  const SENSITIVE :=
    {"compreface_api_key", "compreface_detect_api_key", "compreface_recognize_api_key", "google_client_secret"}

  function Wrap(v: Json): Json {
    Obj(map["value" := v])
  }

  function WrapEncrypted(cipher: string): Json {
    Obj(map["value" := Str(cipher), "encrypted" := Bool(true)])
  }

  predicate IsEncrypted(v: Json) {
    v.Obj? && "encrypted" in v.fields && v.fields["encrypted"] == Bool(true)
  }

  // ----- the loader

  /** The secret of pass 1: a string, or "" for anything that is missing, null or empty. */
  function SecretOf(v: Option<Json>): string {
    match v
    case Some(Obj(fields)) => if "value" in fields && fields["value"].Str? then fields["value"].s else ""
    case Some(Str(s)) => s
    case _ => ""
  }

  /** The key the loader decrypts with: the environment's, valid or not, else the derived one. */
  function LoaderKey(f: Crypto, secret: string): Option<string> {
    if f.envKey != "" then Some(f.envKey) else if secret == "" then None else Some(f.derive(secret))
  }

  function Decrypted(f: Crypto, cipher: Json, secret: string): Json {
    var key := LoaderKey(f, secret);
    if key.None? || !cipher.Str? then Null
    else
      match f.decrypt(key.value, cipher.s)
      case None => Null
      case Some(plain) => Str(plain)
  }

  function Plain(f: Crypto, v: Json, secret: string): Json {
    if IsEncrypted(v) then Decrypted(f, if "value" in v.fields then v.fields["value"] else Str(""), secret)
    else if v.Obj? && "value" in v.fields then v.fields["value"]
    else v
  }

  function RowSecret(table: Table): string {
    SecretOf(if "jwt_secret" in table then Some(table["jwt_secret"].value) else None)
  }

  function Loaded(f: Crypto, table: Table): map<string, Json> {
    PlainValues(f, table, RowSecret(table))
  }

  /** The rows of a query, each key once, as a table. */
  function TableOf(rows: seq<(string, Row)>): Table {
    if rows == [] then map[]
    else
      var n := |rows| - 1;
      TableOf(rows[..n])[rows[n].0 := rows[n].1]
  }

  function RawValues(table: Table): map<string, Json> {
    map k | k in table :: table[k].value
  }

  function PlainValues(f: Crypto, table: Table, secret: string): map<string, Json> {
    map k | k in table :: Plain(f, table[k].value, secret)
  }

  lemma OneMoreRow(f: Crypto, table: Table, key: string, row: Row, secret: string)
    ensures RawValues(table[key := row]) == RawValues(table)[key := row.value]
    ensures PlainValues(f, table[key := row], secret) ==
            PlainValues(f, table, secret)[key := Plain(f, row.value, secret)]
  {
  }

  /** `_load_rows`: two passes over the rows, in whatever order the query returns them. */
  method LoadRows(f: Crypto, rows: seq<(string, Row)>) returns (settings: map<string, Json>)
    ensures settings == Loaded(f, TableOf(rows))
  {
    var raw: map<string, Json> := map[];
    for i := 0 to |rows|
      invariant raw == RawValues(TableOf(rows[..i]))
    {
      assert rows[..i + 1][..i] == rows[..i];
      OneMoreRow(f, TableOf(rows[..i]), rows[i].0, rows[i].1, "");
      raw := raw[rows[i].0 := rows[i].1.value];
    }
    assert rows[..|rows|] == rows;
    var secret := SecretOf(if "jwt_secret" in raw then Some(raw["jwt_secret"]) else None);
    settings := map[];
    for i := 0 to |rows|
      invariant settings == PlainValues(f, TableOf(rows[..i]), secret)
    {
      assert rows[..i + 1][..i] == rows[..i];
      OneMoreRow(f, TableOf(rows[..i]), rows[i].0, rows[i].1, secret);
      settings := settings[rows[i].0 := Plain(f, rows[i].1.value, secret)];
    }
  }

  // ----- the writers

  datatype Outcome = Done | Forbidden | BadRequest | NotFound | EncryptionFailed

  predicate Blank(v: Json) {
    v == Null || v == Str("") || v == Str(MASK)
  }

  function Refusal(key: string, v: Json): Outcome {
    if key in IMMUTABLE then Forbidden else if key in NO_BLANK && Blank(v) then BadRequest else Done
  }

  /** One entry of a bulk PUT: a masked resubmit of a sensitive row is skipped, a missing row is created. */
  function Written(table: Table, key: string, v: Json): Table {
    if key in table then
      if table[key].sensitive && v == Str(MASK) then table
      else table[key := table[key].(value := Wrap(v))]
    else
      table[key := Row(Wrap(v), false)]
  }

  /** A bulk PUT of entries in order: the first refused entry decides the outcome. */
  function Bulk(table: Table, entries: seq<(string, Json)>): (Table, Outcome)
    decreases |entries|
  {
    if entries == [] then (table, Done)
    else
      var (key, v) := entries[0];
      var refusal := Refusal(key, v);
      if refusal != Done then (table, refusal) else Bulk(Written(table, key, v), entries[1..])
  }

  /** The key the writer encrypts with: the environment's if valid, else one derived from the cached secret. */
  function WriterKey(f: Crypto, cachedSecret: string): Option<string> {
    if f.envKey != "" && f.isKey(f.envKey) then Some(f.envKey)
    else if cachedSecret == "" then None
    else Some(f.derive(cachedSecret))
  }

  function CachedSecret(cache: map<string, Json>): string {
    if "jwt_secret" in cache && cache["jwt_secret"].Str? then cache["jwt_secret"].s else ""
  }

  /** PUT /settings/{key} */
  function Single(f: Crypto, table: Table, cache: map<string, Json>,
                  key: string, value: Option<string>, nonce: nat): (Table, Outcome) {
    var v := if value.None? then Null else Str(value.value);
    if Refusal(key, v) != Done then (table, Refusal(key, v))
    else if key !in table then (table, NotFound)
    else if v == Str(MASK) then (table, Done)
    else if (key in SENSITIVE || table[key].sensitive) && value.Some? then
      match WriterKey(f, CachedSecret(cache))
      case None => (table, EncryptionFailed)
      case Some(k) => (table[key := Row(WrapEncrypted(f.encrypt(k, value.value, nonce)), true)], Done)
    else
      (table[key := Row(Wrap(v), table[key].sensitive || key in SENSITIVE)], Done)
  }

  /** POST /settings/safe-mode */
  function SafeMode(table: Table, enabled: bool): Table {
    table["safe_mode" := Row(Wrap(Bool(enabled)), "safe_mode" in table && table["safe_mode"].sensitive)]
  }

  /** The endpoints over one database session; `table` is what is committed. */
  class SettingsApi {
    const crypto: Crypto
    var table: Table
    var cache: map<string, Json>

    constructor (crypto: Crypto, table: Table)
      ensures this.crypto == crypto && this.table == table && cache == Loaded(crypto, table)
    {
      this.crypto, this.table := crypto, table;
      cache := Loaded(crypto, table);
    }

    method UpdateSettings(entries: seq<(string, Json)>) returns (o: Outcome)
      modifies this
      ensures o == Bulk(old(table), entries).1
      ensures o == Done ==> table == Bulk(old(table), entries).0 && cache == Loaded(crypto, table)
      ensures o != Done ==> table == old(table) && cache == old(cache)
    {
      var pending := table;
      for i := 0 to |entries|
        invariant Bulk(table, entries) == Bulk(pending, entries[i..])
        invariant table == old(table) && cache == old(cache)
      {
        var (key, v) := entries[i];
        if key in IMMUTABLE {
          return Forbidden;
        }
        if key in NO_BLANK && Blank(v) {
          return BadRequest;
        }
        if key in pending {
          if !(pending[key].sensitive && v == Str(MASK)) {
            pending := pending[key := pending[key].(value := Wrap(v))];
          }
        } else {
          pending := pending[key := Row(Wrap(v), false)];
        }
        assert entries[i..][1..] == entries[i + 1..];
      }
      table := pending;
      cache := Loaded(crypto, table);
      return Done;
    }

    method UpdateSettingByKey(key: string, value: Option<string>, nonce: nat) returns (o: Outcome)
      modifies this
      ensures (table, o) == Single(crypto, old(table), old(cache), key, value, nonce)
      ensures cache == if o == Done && value != Some(MASK) then Loaded(crypto, table) else old(cache)
    {
      var v := if value.None? then Null else Str(value.value);
      if key in IMMUTABLE {
        return Forbidden;
      }
      if key in NO_BLANK && Blank(v) {
        return BadRequest;
      }
      if key !in table {
        return NotFound;
      }
      if value == Some(MASK) {
        return Done;
      }
      var isSensitive := key in SENSITIVE || table[key].sensitive;
      var stored := Wrap(v);
      if isSensitive && value.Some? {
        var k := WriterKey(crypto, CachedSecret(cache));
        if k.None? {
          return EncryptionFailed;
        }
        stored := WrapEncrypted(crypto.encrypt(k.value, value.value, nonce));
      }
      table := table[key := Row(stored, isSensitive)];
      cache := Loaded(crypto, table);
      return Done;
    }

    method ToggleSafeMode(enabled: bool)
      modifies this
      ensures table == SafeMode(old(table), enabled) && cache == Loaded(crypto, table)
    {
      if "safe_mode" in table {
        table := table["safe_mode" := table["safe_mode"].(value := Wrap(Bool(enabled)))];
      } else {
        table := table["safe_mode" := Row(Wrap(Bool(enabled)), false)];
      }
      cache := Loaded(crypto, table);
    }
  }

  // ----- the plain map the cache is to be

  datatype Op =
    | PutAll(entries: seq<(string, Json)>)
    | PutOne(key: string, value: Option<string>, nonce: nat)
    | SetSafeMode(enabled: bool)

  /** What a user of the API sees: plain values, and which keys are masked. */
  datatype View = View(values: map<string, Json>, masked: set<string>)

  predicate EntryAllowed(e: (string, Json)) {
    e.0 !in IMMUTABLE && !(e.0 in NO_BLANK && Blank(e.1))
  }

  function Assigned(view: View, entries: seq<(string, Json)>): View
    decreases |entries|
  {
    if entries == [] then view
    else
      var (key, v) := entries[0];
      var next := if key in view.masked && v == Str(MASK) then view else view.(values := view.values[key := v]);
      Assigned(next, entries[1..])
  }

  function ViewAfter(view: View, op: Op): View {
    match op
    case PutAll(entries) =>
      if forall i :: 0 <= i < |entries| ==> EntryAllowed(entries[i]) then Assigned(view, entries) else view
    case PutOne(key, value, _) =>
      var v := if value.None? then Null else Str(value.value);
      if EntryAllowed((key, v)) && key in view.values && v != Str(MASK)
      then View(view.values[key := v], if key in SENSITIVE then view.masked + {key} else view.masked)
      else view
    case SetSafeMode(enabled) =>
      view.(values := view.values["safe_mode" := Bool(enabled)])
  }

  // ----- what the endpoints do, as values

  datatype Store = Store(table: Table, cache: map<string, Json>)

  function After(f: Crypto, s: Store, op: Op): Store {
    match op
    case PutAll(entries) =>
      var (table, o) := Bulk(s.table, entries);
      if o == Done then Store(table, Loaded(f, table)) else s
    case PutOne(key, value, nonce) =>
      var (table, o) := Single(f, s.table, s.cache, key, value, nonce);
      if o == Done && value != Some(MASK) then Store(table, Loaded(f, table)) else s
    case SetSafeMode(enabled) =>
      var table := SafeMode(s.table, enabled);
      Store(table, Loaded(f, table))
  }

  function ViewOf(s: Store): View {
    View(s.cache, set k | k in s.table && s.table[k].sensitive)
  }

  /** The environment's key is unset or valid: the condition under which writer and loader use one key. */
  predicate KeysAgree(f: Crypto) {
    f.envKey == "" || f.isKey(f.envKey)
  }

  /** As setup leaves it: the secret is a plain non-empty string, and the cache is loaded from the table. */
  predicate Based(f: Crypto, s: Store) {
    && s.cache == Loaded(f, s.table)
    && "jwt_secret" in s.table && SecretOf(Some(s.table["jwt_secret"].value)) != ""
    && s.table["jwt_secret"].value == Wrap(Str(RowSecret(s.table)))
  }

  /** Moreover every encrypted row is sensitive and decrypts. */
  predicate Sound(f: Crypto, s: Store) {
    && Based(f, s)
    && (forall k :: k in s.table && IsEncrypted(s.table[k].value) ==> s.table[k].sensitive && s.cache[k].Str?)
  }

  lemma PlainOfWrap(f: Crypto, v: Json, secret: string)
    ensures !IsEncrypted(Wrap(v)) && Plain(f, Wrap(v), secret) == v
  {
  }

  lemma PlainOfEncrypted(f: Crypto, plain: string, nonce: nat, secret: string)
    requires Lawful(f) && secret != ""
    ensures WriterKey(f, secret).Some?
    ensures var stored := WrapEncrypted(f.encrypt(WriterKey(f, secret).value, plain, nonce));
            IsEncrypted(stored) && (KeysAgree(f) ==> Plain(f, stored, secret) == Str(plain))
            && (!KeysAgree(f) ==> Plain(f, stored, secret) == Null)
  {
  }

  /** A write to another key than the secret changes that key's plain value and nothing else. */
  lemma LoadedAfterWrite(f: Crypto, table: Table, key: string, row: Row)
    requires key != "jwt_secret"
    ensures RowSecret(table[key := row]) == RowSecret(table)
    ensures Loaded(f, table[key := row]) == Loaded(f, table)[key := Plain(f, row.value, RowSecret(table))]
  {
  }

  lemma {:induction false} BulkOutcome(table: Table, entries: seq<(string, Json)>)
    ensures Bulk(table, entries).1 == Done <==> forall i :: 0 <= i < |entries| ==> EntryAllowed(entries[i])
    decreases |entries|
  {
    if entries != [] && EntryAllowed(entries[0]) {
      var t := Written(table, entries[0].0, entries[0].1);
      BulkOutcome(t, entries[1..]);
      if forall i :: 0 <= i < |entries[1..]| ==> EntryAllowed(entries[1..][i]) {
        forall i | 0 <= i < |entries|
          ensures EntryAllowed(entries[i])
        {
          if i > 0 {
            assert entries[1..][i - 1] == entries[i];
          }
        }
      }
    }
  }

  /** An accepted bulk PUT assigns its entries to the cache, under any environment key. */
  lemma {:induction false} BulkFollows(f: Crypto, s: Store, entries: seq<(string, Json)>)
    requires Based(f, s) && forall i :: 0 <= i < |entries| ==> EntryAllowed(entries[i])
    ensures var table := Bulk(s.table, entries).0;
            var t := Store(table, Loaded(f, table));
            Based(f, t) && RowSecret(table) == RowSecret(s.table) && ViewOf(t) == Assigned(ViewOf(s), entries)
    decreases |entries|
  {
    if entries != [] {
      var (key, v) := entries[0];
      assert EntryAllowed(entries[0]);
      var table := Written(s.table, key, v);
      var t := Store(table, Loaded(f, table));
      if !(key in s.table && s.table[key].sensitive && v == Str(MASK)) {
        PlainOfWrap(f, v, RowSecret(s.table));
        assert table == s.table[key := table[key]];
        LoadedAfterWrite(f, s.table, key, table[key]);
        assert t.cache == s.cache[key := v];
      }
      assert ViewOf(t).masked == ViewOf(s).masked;
      BulkFollows(f, t, entries[1..]);
    }
  }

  lemma BulkRefines(f: Crypto, s: Store, entries: seq<(string, Json)>)
    requires Sound(f, s) && forall i :: 0 <= i < |entries| ==> EntryAllowed(entries[i])
    ensures var table := Bulk(s.table, entries).0;
            var t := Store(table, Loaded(f, table));
            Sound(f, t) && RowSecret(table) == RowSecret(s.table) && ViewOf(t) == Assigned(ViewOf(s), entries)
  {
    var table := Bulk(s.table, entries).0;
    BulkFollows(f, s, entries);
    forall k | k in table && IsEncrypted(table[k].value)
      ensures table[k].sensitive && Loaded(f, table)[k].Str?
    {
      BulkWritesClear(s.table, entries, k);
      assert table[k] == s.table[k] && s.cache[k].Str?;
    }
  }

  /** A single-key PUT that is neither refused nor a masked resubmit. */
  predicate Stores(f: Crypto, s: Store, key: string, value: Option<string>) {
    && key in s.table && value != Some(MASK)
    && EntryAllowed((key, if value.None? then Null else Str(value.value)))
    && (WriterKey(f, CachedSecret(s.cache)).Some? || value.None? || !(key in SENSITIVE || s.table[key].sensitive))
  }

  /** Writing a row that reads as `v` assigns v, and masks the key if it is a sensitive one. */
  lemma RowFollows(f: Crypto, s: Store, key: string, row: Row, v: Json)
    requires Based(f, s) && key in s.table && key != "jwt_secret"
    requires Plain(f, row.value, RowSecret(s.table)) == v
    requires row.sensitive == (s.table[key].sensitive || key in SENSITIVE)
    ensures var table := s.table[key := row];
            var t := Store(table, Loaded(f, table));
            && Based(f, t) && RowSecret(table) == RowSecret(s.table)
            && ViewOf(t) == View(s.cache[key := v],
                                 if key in SENSITIVE then ViewOf(s).masked + {key} else ViewOf(s).masked)
  {
    LoadedAfterWrite(f, s.table, key, row);
    var table := s.table[key := row];
    var t := Store(table, Loaded(f, table));
    assert ViewOf(t).masked == if key in SENSITIVE then ViewOf(s).masked + {key} else ViewOf(s).masked;
  }

  lemma OneRefines(f: Crypto, s: Store, key: string, value: Option<string>, nonce: nat)
    requires Lawful(f) && KeysAgree(f) && Sound(f, s)
    ensures var op := PutOne(key, value, nonce);
            var t := After(f, s, op);
            Sound(f, t) && RowSecret(t.table) == RowSecret(s.table) && ViewOf(t) == ViewAfter(ViewOf(s), op)
  {
    var op := PutOne(key, value, nonce);
    var v := if value.None? then Null else Str(value.value);
    assert CachedSecret(s.cache) == RowSecret(s.table);
    if Stores(f, s, key, value) {
      var row := Single(f, s.table, s.cache, key, value, nonce).0[key];
      assert After(f, s, op).table == s.table[key := row];
      PlainOfWrap(f, v, RowSecret(s.table));
      if value.Some? {
        PlainOfEncrypted(f, value.value, nonce, RowSecret(s.table));
      }
      RowFollows(f, s, key, row, v);
    } else {
      assert After(f, s, op) == s;
    }
  }

  lemma SafeModeFollows(f: Crypto, s: Store, enabled: bool)
    requires Based(f, s)
    ensures var t := After(f, s, SetSafeMode(enabled));
            && Based(f, t) && RowSecret(t.table) == RowSecret(s.table)
            && ViewOf(t) == ViewOf(s).(values := s.cache["safe_mode" := Bool(enabled)])
            && (Sound(f, s) ==> Sound(f, t))
  {
    var t := After(f, s, SetSafeMode(enabled));
    LoadedAfterWrite(f, s.table, "safe_mode", t.table["safe_mode"]);
    assert ViewOf(t).masked == ViewOf(s).masked;
  }

  /** One accepted or refused call of any endpoint takes the cache where the plain map goes. */
  lemma StepRefines(f: Crypto, s: Store, op: Op)
    requires Lawful(f) && KeysAgree(f) && Sound(f, s)
    ensures var t := After(f, s, op);
            Sound(f, t) && RowSecret(t.table) == RowSecret(s.table) && ViewOf(t) == ViewAfter(ViewOf(s), op)
  {
    match op
    case PutAll(entries) =>
      BulkOutcome(s.table, entries);
      if forall i :: 0 <= i < |entries| ==> EntryAllowed(entries[i]) {
        BulkRefines(f, s, entries);
      }
    case PutOne(key, value, nonce) => OneRefines(f, s, key, value, nonce);
    case SetSafeMode(enabled) => SafeModeFollows(f, s, enabled);
  }

  function Run(f: Crypto, s: Store, ops: seq<Op>): Store
    decreases |ops|
  {
    if ops == [] then s else Run(f, After(f, s, ops[0]), ops[1..])
  }

  function RunView(view: View, ops: seq<Op>): View
    decreases |ops|
  {
    if ops == [] then view else RunView(ViewAfter(view, ops[0]), ops[1..])
  }

  /**
   After any run the reloaded cache is the plain map of the values last set, the secret is the one of
   the start, and every row flagged encrypted still decrypts.
   */
  lemma {:induction false} CacheRefinesPlainMap(f: Crypto, s: Store, ops: seq<Op>)
    requires Lawful(f) && KeysAgree(f) && Sound(f, s)
    ensures var t := Run(f, s, ops);
            Sound(f, t) && RowSecret(t.table) == RowSecret(s.table) && ViewOf(t) == RunView(ViewOf(s), ops)
    decreases |ops|
  {
    if ops != [] {
      StepRefines(f, s, ops[0]);
      CacheRefinesPlainMap(f, After(f, s, ops[0]), ops[1..]);
    }
  }

  /**
   The condition is exact.  A sensitive value set by a single-key PUT is read back if and only if
   SETTINGS_FERNET_KEY is unset or a valid key; with an invalid one it is read back as null.
   */
  lemma SensitiveValueReadsBack(f: Crypto, s: Store, key: string, plain: string, nonce: nat)
    requires Lawful(f) && Sound(f, s)
    requires key in s.table && key !in IMMUTABLE && key !in NO_BLANK && plain != MASK
    requires key in SENSITIVE || s.table[key].sensitive
    ensures After(f, s, PutOne(key, Some(plain), nonce)).cache[key] == Str(plain) <==> KeysAgree(f)
  {
    assert CachedSecret(s.cache) == RowSecret(s.table);
    PlainOfEncrypted(f, plain, nonce, RowSecret(s.table));
    LoadedAfterWrite(f, s.table, key, Single(f, s.table, s.cache, key, Some(plain), nonce).0[key]);
  }

  // ----- outcomes, and what no run changes

  predicate IsBlankValue(v: Option<string>) {
    v.None? || v.value == "" || v.value == "********"
  }

  /** The outcomes of a single-key PUT, the first that applies. */
  lemma SingleOutcome(f: Crypto, s: Store, key: string, value: Option<string>, nonce: nat)
    requires Lawful(f) && Based(f, s)
    ensures var o := Single(f, s.table, s.cache, key, value, nonce).1;
            && (o == Forbidden <==> key in {"jwt_secret", "database_url", "redis_url"})
            && (o == BadRequest <==> key == "setup_complete" && IsBlankValue(value))
            && (o == NotFound <==>
                  && key !in s.table && key !in {"jwt_secret", "database_url", "redis_url"}
                  && !(key == "setup_complete" && IsBlankValue(value)))
            && o != EncryptionFailed
    ensures Single(f, s.table, s.cache, key, value, nonce).1 != Done || value == Some("********") ==>
              Single(f, s.table, s.cache, key, value, nonce).0 == s.table
  {
    assert CachedSecret(s.cache) == RowSecret(s.table);
  }

  /** Without a secret and without a key of the environment a sensitive value is refused, not stored in the clear. */
  lemma NoKeyFailsClosed(f: Crypto, table: Table, cache: map<string, Json>, key: string, value: string, nonce: nat)
    requires !f.isKey(f.envKey) && CachedSecret(cache) == ""
    requires key in table && (table[key].sensitive || key in {"compreface_api_key", "google_client_secret"})
    requires key !in {"jwt_secret", "database_url", "redis_url", "setup_complete"} && value != "********"
    ensures Single(f, table, cache, key, Some(value), nonce) == (table, EncryptionFailed)
  {
  }

  lemma {:induction false} BulkKeepsRefused(table: Table, entries: seq<(string, Json)>, key: string)
    requires key in {"jwt_secret", "database_url", "redis_url"} && Bulk(table, entries).1 == Done
    ensures var after := Bulk(table, entries).0;
            (key in after <==> key in table) && (key in table ==> after[key] == table[key])
    decreases |entries|
  {
    if entries != [] {
      BulkKeepsRefused(Written(table, entries[0].0, entries[0].1), entries[1..], key);
    }
  }

  lemma StepKeepsRefused(f: Crypto, s: Store, op: Op, key: string)
    requires key in {"jwt_secret", "database_url", "redis_url"}
    ensures var after := After(f, s, op).table;
            (key in after <==> key in s.table) && (key in s.table ==> after[key] == s.table[key])
  {
    match op
    case PutAll(entries) =>
      if Bulk(s.table, entries).1 == Done {
        BulkKeepsRefused(s.table, entries, key);
      }
    case _ =>
  }

  /** No run of the writers changes the row of the signing secret or of the two connection strings. */
  lemma {:induction false} RefusedNeverChange(f: Crypto, s: Store, ops: seq<Op>, key: string)
    requires key in {"jwt_secret", "database_url", "redis_url"}
    ensures var after := Run(f, s, ops).table;
            (key in after <==> key in s.table) && (key in s.table ==> after[key] == s.table[key])
    decreases |ops|
  {
    if ops != [] {
      StepKeepsRefused(f, s, ops[0], key);
      RefusedNeverChange(f, After(f, s, ops[0]), ops[1..], key);
    }
  }

  predicate SetUp(table: Table) {
    "setup_complete" in table && table["setup_complete"].value !in {Wrap(Null), Wrap(Str("")), Wrap(Str("********"))}
  }

  lemma {:induction false} BulkKeepsSetUp(table: Table, entries: seq<(string, Json)>)
    requires SetUp(table) && Bulk(table, entries).1 == Done
    ensures SetUp(Bulk(table, entries).0)
    decreases |entries|
  {
    if entries != [] {
      var (key, v) := entries[0];
      WrapDistinct(v, Null);
      WrapDistinct(v, Str(""));
      WrapDistinct(v, Str("********"));
      BulkKeepsSetUp(Written(table, key, v), entries[1..]);
    }
  }

  lemma WrapDistinct(a: Json, b: Json)
    ensures Wrap(a) == Wrap(b) <==> a == b
  {
    assert Wrap(a).fields["value"] == a && Wrap(b).fields["value"] == b;
  }

  lemma StepKeepsSetUp(f: Crypto, s: Store, op: Op)
    requires SetUp(s.table)
    ensures SetUp(After(f, s, op).table)
  {
    match op
    case PutAll(entries) =>
      if Bulk(s.table, entries).1 == Done {
        BulkKeepsSetUp(s.table, entries);
      }
    case PutOne(key, value, nonce) =>
      var v := if value.None? then Null else Str(value.value);
      WrapDistinct(v, Null);
      WrapDistinct(v, Str(""));
      WrapDistinct(v, Str("********"));
      if key == "setup_complete" && After(f, s, op) != s {
        var row := After(f, s, op).table[key];
        assert row.value == Wrap(v) || "encrypted" in row.value.fields;
        assert "encrypted" !in Wrap(Null).fields && "encrypted" !in Wrap(Str("")).fields;
        assert "encrypted" !in Wrap(Str("********")).fields;
      }
    case SetSafeMode(_) =>
  }

  /** Once set up, no run of the writers blanks the setup flag. */
  lemma {:induction false} SetUpStays(f: Crypto, s: Store, ops: seq<Op>)
    requires SetUp(s.table)
    ensures SetUp(Run(f, s, ops).table)
    decreases |ops|
  {
    if ops != [] {
      StepKeepsSetUp(f, s, ops[0]);
      SetUpStays(f, After(f, s, ops[0]), ops[1..]);
    }
  }

  // ----- what the loader makes of rows in other forms

  /** A row that is no wrapped value is its own value, and the secret may be stored either way. */
  lemma BareRows(f: Crypto, v: Json, secret: string)
    ensures !v.Obj? || ("value" !in v.fields && !IsEncrypted(v)) ==> Plain(f, v, secret) == v
    ensures v.Obj? && "value" in v.fields && ("encrypted" !in v.fields || v.fields["encrypted"] != Bool(true)) ==>
              Plain(f, v, secret) == v.fields["value"]
    ensures SecretOf(Some(Str(secret))) == secret == SecretOf(Some(Wrap(Str(secret))))
    ensures SecretOf(None) == SecretOf(Some(Null)) == SecretOf(Some(Wrap(Null))) == ""
  {
    assert Wrap(Str(secret)).fields["value"] == Str(secret) && Wrap(Null).fields["value"] == Null;
  }

  // ----- runs under any environment key

  /** The single-key PUT goes through and writes an encrypted row, which the loader will not decrypt. */
  predicate Loses(f: Crypto, view: View, op: Op) {
    && !KeysAgree(f)
    && op.PutOne? && op.value.Some? && op.value != Some(MASK) && op.key in view.values
    && EntryAllowed((op.key, Str(op.value.value))) && (op.key in SENSITIVE || op.key in view.masked)
  }

  /** The keys whose value is lost, after one more entry of a bulk PUT, and after all of them. */
  function LostAfterEntries(masked: set<string>, lost: set<string>, entries: seq<(string, Json)>): set<string>
    decreases |entries|
  {
    if entries == [] then lost
    else
      var (key, v) := entries[0];
      LostAfterEntries(masked, if key in masked && v == Str(MASK) then lost else lost - {key}, entries[1..])
  }

  /** A lost value stays lost until its key is written again. */
  function LostAfter(f: Crypto, view: View, lost: set<string>, op: Op): set<string> {
    match op
    case PutAll(entries) =>
      if forall i :: 0 <= i < |entries| ==> EntryAllowed(entries[i])
      then LostAfterEntries(view.masked, lost, entries) else lost
    case PutOne(key, value, _) =>
      var v := if value.None? then Null else Str(value.value);
      if Loses(f, view, op) then lost + {key}
      else if EntryAllowed((key, v)) && key in view.values && v != Str(MASK) then lost - {key}
      else lost
    case SetSafeMode(_) => lost - {"safe_mode"}
  }

  function LostInRun(f: Crypto, view: View, lost: set<string>, ops: seq<Op>): set<string>
    decreases |ops|
  {
    if ops == [] then lost else LostInRun(f, ViewAfter(view, ops[0]), LostAfter(f, view, lost, ops[0]), ops[1..])
  }

  /** The plain map with the lost values read as null. */
  function WithLost(view: View, lost: set<string>): View {
    view.(values := map k | k in view.values :: if k in lost then Null else view.values[k])
  }

  lemma WriteWithLost(view: View, lost: set<string>, key: string, v: Json, masked: set<string>)
    ensures WithLost(View(view.values[key := v], masked), lost - {key}) ==
            View(WithLost(view, lost).values[key := v], masked)
    ensures WithLost(View(view.values[key := v], masked), lost + {key}) ==
            View(WithLost(view, lost).values[key := Null], masked)
  {
  }

  lemma {:induction false} AssignedWithLost(view: View, lost: set<string>, entries: seq<(string, Json)>)
    ensures Assigned(WithLost(view, lost), entries) ==
            WithLost(Assigned(view, entries), LostAfterEntries(view.masked, lost, entries))
    ensures Assigned(view, entries).masked == view.masked
    decreases |entries|
  {
    if entries != [] {
      var (key, v) := entries[0];
      if key in view.masked && v == Str(MASK) {
        AssignedWithLost(view, lost, entries[1..]);
      } else {
        WriteWithLost(view, lost, key, v, view.masked);
        AssignedWithLost(view.(values := view.values[key := v]), lost - {key}, entries[1..]);
      }
    }
  }

  lemma OneFollows(f: Crypto, s: Store, view: View, lost: set<string>, op: Op)
    requires Lawful(f) && Based(f, s) && ViewOf(s) == WithLost(view, lost) && op.PutOne?
    ensures var t := After(f, s, op);
            Based(f, t) && ViewOf(t) == WithLost(ViewAfter(view, op), LostAfter(f, view, lost, op))
  {
    var key, value := op.key, op.value;
    var v := if value.None? then Null else Str(value.value);
    assert CachedSecret(s.cache) == RowSecret(s.table);
    assert key in view.values <==> key in s.cache;
    if value.Some? {
      PlainOfEncrypted(f, value.value, op.nonce, RowSecret(s.table));
    }
    if Stores(f, s, key, value) {
      var row := Single(f, s.table, s.cache, key, value, op.nonce).0[key];
      PlainOfWrap(f, v, RowSecret(s.table));
      RowFollows(f, s, key, row, if Loses(f, view, op) then Null else v);
      assert After(f, s, op).table == s.table[key := row];
      WriteWithLost(view, lost, key, v, ViewAfter(view, op).masked);
    } else {
      assert After(f, s, op) == s;
    }
  }

  lemma StepFollows(f: Crypto, s: Store, view: View, lost: set<string>, op: Op)
    requires Lawful(f) && Based(f, s) && ViewOf(s) == WithLost(view, lost)
    ensures var t := After(f, s, op);
            Based(f, t) && ViewOf(t) == WithLost(ViewAfter(view, op), LostAfter(f, view, lost, op))
  {
    match op
    case PutAll(entries) =>
      BulkOutcome(s.table, entries);
      if forall i :: 0 <= i < |entries| ==> EntryAllowed(entries[i]) {
        BulkFollows(f, s, entries);
        AssignedWithLost(view, lost, entries);
      }
    case PutOne(_, _, _) => OneFollows(f, s, view, lost, op);
    case SetSafeMode(enabled) =>
      SafeModeFollows(f, s, enabled);
      WriteWithLost(view, lost, "safe_mode", Bool(enabled), view.masked);
  }

  /** Whatever the environment's key, after any run the cache is the plain map with the lost values read as null. */
  lemma {:induction false} RunFollows(f: Crypto, s: Store, view: View, lost: set<string>, ops: seq<Op>)
    requires Lawful(f) && Based(f, s) && ViewOf(s) == WithLost(view, lost)
    ensures ViewOf(Run(f, s, ops)) == WithLost(RunView(view, ops), LostInRun(f, view, lost, ops))
    decreases |ops|
  {
    if ops != [] {
      StepFollows(f, s, view, lost, ops[0]);
      RunFollows(f, After(f, s, ops[0]), ViewAfter(view, ops[0]), LostAfter(f, view, lost, ops[0]), ops[1..]);
    }
  }

  /** A lost value is a string of the plain map. */
  predicate LostStrings(view: View, lost: set<string>) {
    forall k :: k in lost ==> k in view.values && view.values[k].Str?
  }

  lemma {:induction false} EntriesLoseStrings(view: View, lost: set<string>, entries: seq<(string, Json)>)
    requires LostStrings(view, lost)
    ensures LostStrings(Assigned(view, entries), LostAfterEntries(view.masked, lost, entries))
    decreases |entries|
  {
    if entries != [] {
      var (key, v) := entries[0];
      if key in view.masked && v == Str(MASK) {
        EntriesLoseStrings(view, lost, entries[1..]);
      } else {
        EntriesLoseStrings(view.(values := view.values[key := v]), lost - {key}, entries[1..]);
      }
    }
  }

  lemma {:induction false} RunLosesStrings(f: Crypto, view: View, lost: set<string>, ops: seq<Op>)
    requires LostStrings(view, lost)
    ensures LostStrings(RunView(view, ops), LostInRun(f, view, lost, ops))
    decreases |ops|
  {
    if ops != [] {
      if ops[0].PutAll? {
        EntriesLoseStrings(view, lost, ops[0].entries);
      }
      RunLosesStrings(f, ViewAfter(view, ops[0]), LostAfter(f, view, lost, ops[0]), ops[1..]);
    }
  }

  /**
   After any run, under any environment key, the cache holds null for every lost value and agrees with the
   plain map on all other keys; so it is the plain map exactly when no value is lost at the end.
   */
  lemma CacheFollowsExactly(f: Crypto, s: Store, ops: seq<Op>)
    requires Lawful(f) && Based(f, s)
    ensures var lost := LostInRun(f, ViewOf(s), {}, ops);
            && ViewOf(Run(f, s, ops)) == WithLost(RunView(ViewOf(s), ops), lost)
            && (ViewOf(Run(f, s, ops)) == RunView(ViewOf(s), ops) <==> lost == {})
  {
    var view := ViewOf(s);
    assert WithLost(view, {}) == view;
    RunFollows(f, s, view, {}, ops);
    RunLosesStrings(f, view, {}, ops);
    var lost, end := LostInRun(f, view, {}, ops), RunView(view, ops);
    if k :| k in lost {
      assert WithLost(end, lost).values[k] == Null && end.values[k].Str?;
    } else {
      assert WithLost(end, lost).values == end.values;
    }
  }

  const API_KEY := "compreface_api_key"

  /** An environment with SETTINGS_FERNET_KEY set to something that is no key. */
  function BadKey(): (f: Crypto)
    ensures Lawful(f) && !KeysAgree(f)
  {
    Crypto("bad", k => k == "key", _ => "key", (_, v, _) => v, (k, c) => if k == "key" then Some(c) else None)
  }

  function JustSetUp(f: Crypto): (s: Store)
    ensures Sound(f, s) && API_KEY in s.table && s.table[API_KEY].sensitive
  {
    var table := map["jwt_secret" := Row(Wrap(Str("s")), false), API_KEY := Row(Wrap(Str("")), true)];
    PlainOfWrap(f, Str("s"), "s");
    PlainOfWrap(f, Str(""), "s");
    Store(table, Loaded(f, table))
  }

  /** There an API key that has just been set reads as something else. */
  lemma InvalidKeyLosesValue()
    ensures var f := BadKey();
            var s := JustSetUp(f);
            API_KEY in After(f, s, PutOne(API_KEY, Some("x"), 0)).cache &&
            After(f, s, PutOne(API_KEY, Some("x"), 0)).cache[API_KEY] != Str("x")
  {
    var f := BadKey();
    assert MASK != "x";
    SensitiveValueReadsBack(f, JustSetUp(f), API_KEY, "x", 0);
  }

  // ----- which rows of sensitive keys are encrypted and masked

  /** A bulk PUT leaves a row as it was, or gives it a value in the clear and the mask it had. */
  lemma {:induction false} BulkWritesClear(table: Table, entries: seq<(string, Json)>, key: string)
    ensures var after := Bulk(table, entries).0;
            && (key in table ==> key in after)
            && (key in after && !(key in table && after[key] == table[key]) ==>
                  !IsEncrypted(after[key].value) && after[key].sensitive == (key in table && table[key].sensitive))
    decreases |entries|
  {
    if entries != [] && Refusal(entries[0].0, entries[0].1) == Done {
      BulkWritesClear(Written(table, entries[0].0, entries[0].1), entries[1..], key);
    }
  }

  /**
   When a call changes the row of a sensitive key, the row ends encrypted exactly if the call was a
   single-key PUT of a value, and masked exactly if it was a single-key PUT or the row was masked before:
   a bulk PUT stores the value in the clear, and creates a missing key unmasked.
   */
  lemma SensitiveRowExactly(f: Crypto, s: Store, op: Op, key: string)
    requires key in SENSITIVE && key in After(f, s, op).table
    requires key in s.table ==> After(f, s, op).table[key] != s.table[key]
    ensures var row := After(f, s, op).table[key];
            && (IsEncrypted(row.value) <==> op.PutOne? && op.value.Some?)
            && (row.sensitive <==> op.PutOne? || (key in s.table && s.table[key].sensitive))
  {
    match op
    case PutAll(entries) => BulkWritesClear(s.table, entries, key);
    case PutOne(_, _, _) =>
    case SetSafeMode(_) =>
  }

  /** A bulk PUT of an API key that has no row yet stores it in the clear, and GET shows it. */
  lemma BulkPutShowsApiKey(f: Crypto, value: string)
    requires value != ""
    ensures var row := Row(Wrap(Str(value)), false);
            && After(f, Store(map[], map[]), PutAll([("compreface_api_key", Str(value))])).table ==
               map["compreface_api_key" := row]
            && Shown(row) == Str(value)
  {
    var entry := ("compreface_api_key", Str(value));
    assert [entry][1..] == [];
    assert Bulk(map[], [entry]) == (map["compreface_api_key" := Row(Wrap(Str(value)), false)], Done);
  }

  // ----- what the settings page shows and sends back

  /** A row as GET /settings shows it, unwrapped: a non-empty string of a sensitive row is masked. */
  function Shown(row: Row): Json {
    if !(row.value.Obj? && "value" in row.value.fields) then row.value
    else
      var v := row.value.fields["value"];
      if row.sensitive && v.Str? && v.s != "" then Str(MASK) else v
  }

  /** Fernet never produces an empty text, and rows are stored in one of the two wrapped forms. */
  predicate Stored(s: Store) {
    forall k :: k in s.table ==>
      s.table[k].value.Obj? && "value" in s.table[k].value.fields &&
      (IsEncrypted(s.table[k].value) ==>
         s.table[k].value.fields["value"].Str? && s.table[k].value.fields["value"].s != "")
  }

  /** The page shows the same of any two non-empty strings of a sensitive row, the mask, and other rows as they are. */
  lemma ShownHidesExactly(row: Row, v: Json)
    requires row.value == Wrap(v)
    ensures Shown(row) == if row.sensitive && v.Str? && v.s != "" then Str("********") else v
  {
    assert row.value.fields["value"] == v;
  }

  /** A value set by a single-key PUT of one of the four sensitive keys is stored encrypted and shown masked. */
  lemma SensitiveIsHidden(f: Crypto, s: Store, key: string, value: string, nonce: nat)
    requires Lawful(f) && Based(f, s) && key in s.table && value != "********"
    requires key in {"compreface_api_key", "compreface_detect_api_key", "compreface_recognize_api_key",
                     "google_client_secret"}
    requires forall k, v, n :: f.encrypt(k, v, n) != ""
    ensures var row := After(f, s, PutOne(key, Some(value), nonce)).table[key];
            row.sensitive && IsEncrypted(row.value) && Shown(row) == Str("********")
  {
    assert CachedSecret(s.cache) == RowSecret(s.table);
    PlainOfEncrypted(f, value, nonce, RowSecret(s.table));
  }

  lemma {:induction false} ShownAssignsNothing(s: Store, f: Crypto, entries: seq<(string, Json)>)
    requires Sound(f, s) && Stored(s)
    requires forall i :: 0 <= i < |entries| ==> entries[i].0 in s.table && entries[i].1 == Shown(s.table[entries[i].0])
    ensures Assigned(ViewOf(s), entries) == ViewOf(s)
    decreases |entries|
  {
    if entries != [] {
      var (key, v) := entries[0];
      assert entries[0].0 in s.table;
      if !(key in ViewOf(s).masked && v == Str(MASK)) {
        assert s.cache[key] == v;
        assert s.cache[key := v] == s.cache;
      }
      ShownAssignsNothing(s, f, entries[1..]);
    }
  }

  /** Sending back what the page shows, masked values and all, leaves every setting as it was. */
  lemma ResubmitIsIdentity(f: Crypto, s: Store, entries: seq<(string, Json)>)
    requires Lawful(f) && KeysAgree(f) && Sound(f, s) && Stored(s)
    requires forall i :: 0 <= i < |entries| ==> entries[i].0 in s.table && entries[i].1 == Shown(s.table[entries[i].0])
    ensures After(f, s, PutAll(entries)).cache == s.cache
  {
    StepRefines(f, s, PutAll(entries));
    ShownAssignsNothing(s, f, entries);
  }
}
