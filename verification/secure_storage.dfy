/**
 * The credential vault of src/lib/secureStorage.ts: a wrapper over the browser's session
 * storage that writes every value inside a timestamped envelope, optionally encrypts it, and
 * purges envelopes that are expired or cannot be read.
 *
 * Session storage is the field `store` of class `Vault`, a map from key to what the key
 * holds. The JSON text of an envelope is represented by what `JSON.parse` makes of it:
 * `Stored(item)` for a well-formed envelope, `Unparsable(raw)` for anything else.
 * The clock, the random salt and IV, and a refusal by the storage (its quota) are
 * parameters. PBKDF2 and AES-GCM are one abstract authenticated cipher.
 */
module SecureStorage {
  import opened Wrappers
  import Hex
  import Json
  import Domain

  type byte = Hex.byte

  const DefaultKey: string := "default-key-change-in-production"
  const DefaultTimeoutMinutes: int := 60
  const MillisPerMinute: int := 60000

  const ProjectNameKey: string := "jira-project-name"
  const DomainKey: string := "jira-domain"
  const EmailKey: string := "jira-email"
  const ApiTokenKey: string := "jira-api-token"
  const SelectedProjectKey: string := "jira-selected-project"

  /** The envelope written under every key. `expiresAt` is an absolute time in milliseconds. */
  datatype StorageItem = StorageItem(value: string, timestamp: int, encrypted: bool, expiresAt: Option<int>)

  /** What a key of session storage holds, as `JSON.parse` sees it. `Unparsable("")` is the
      empty string, which the vault treats as an absent value. */
  datatype Entry = Stored(item: StorageItem) | Unparsable(raw: string)

  /** The encrypted form of a value: ciphertext, IV and salt, each as hex text. */
  datatype EncryptedData = EncryptedData(data: string, iv: string, salt: string)

  /**
   * Key derivation plus authenticated encryption. `seal(password, salt, iv, plaintext)`
   * gives the ciphertext bytes; `open` gives the plaintext back or fails.
   */
  datatype Cipher = Cipher(
    seal: (string, seq<byte>, seq<byte>, string) -> seq<byte>,
    open: (string, seq<byte>, seq<byte>, seq<byte>) -> Option<string>)

  /** What the model assumes of the cipher: opening what was sealed with the same password,
      salt and IV gives the plaintext back, and a sealed text is never empty (it carries at
      least the authentication tag). */
  ghost predicate Sound(c: Cipher) {
    forall pw, salt, iv, pt :: |c.seal(pw, salt, iv, pt)| > 0 && c.open(pw, salt, iv, c.seal(pw, salt, iv, pt)) == Some(pt)
  }

  /** The vault's settings, fixed at construction. */
  datatype Config = Config(encryptionKey: string, sessionTimeout: int, cipher: Cipher)

  /** The fresh random bytes of one encryption. */
  datatype Entropy = Entropy(salt: seq<byte>, iv: seq<byte>)

  /** `crypto.getRandomValues` fills a 16-byte salt and a 12-byte IV. */
  predicate WellSized(e: Entropy) {
    |e.salt| == 16 && |e.iv| == 12
  }

  /** The options of `setItem`: `encrypt` carries the randomness the encryption draws. */
  datatype SetOptions = SetOptions(encrypt: Option<Entropy>, expiresIn: Option<int>)

  const Plain: SetOptions := SetOptions(None, None)

  predicate EntropyOk(opts: SetOptions) {
    opts.encrypt.Some? ==> WellSized(opts.encrypt.value)
  }

  datatype Error = StorageError | ValidationError

  datatype Credentials = Credentials(projectName: string, domain: string, email: string, apiToken: string)

  /**
   * The settings the constructor reads from the environment. `keyEnv` is the configured
   * encryption key (empty when unset); `timeoutEnv` is `parseInt` of the configured timeout
   * in minutes, `None` when it is unset or empty.
   */
  function MakeConfig(keyEnv: string, timeoutEnv: Option<int>, cipher: Cipher): (cfg: Config)
    ensures keyEnv != "" ==> cfg.encryptionKey == keyEnv
    ensures keyEnv == "" ==> cfg.encryptionKey == DefaultKey
    ensures cfg.sessionTimeout == (if timeoutEnv.Some? then timeoutEnv.value else DefaultTimeoutMinutes)
    ensures cfg.cipher == cipher
  {
    Config(if keyEnv == "" then DefaultKey else keyEnv, timeoutEnv.GetOr(DefaultTimeoutMinutes), cipher)
  }

  /** Whether the constructor warns that the vault uses the built-in key: when the key is
      not configured, and also when it is configured as the built-in key's own text. */
  function WarnsDefaultKey(keyEnv: string, timeoutEnv: Option<int>, cipher: Cipher): (r: bool)
    ensures r <==> keyEnv == "" || keyEnv == DefaultKey
  {
    MakeConfig(keyEnv, timeoutEnv, cipher).encryptionKey == DefaultKey
  }

  /**
   * Expiry at time `now`: past an explicit, non-zero `expiresAt`, or older than the session
   * timeout. The age comparison is made in whole milliseconds; `AgeInMinutes` shows it agrees
   * with the division into minutes.
   */
  function Expired(item: StorageItem, now: int, timeoutMinutes: int): (r: bool)
    ensures r <==> (item.expiresAt.Some? && item.expiresAt.value != 0 && now > item.expiresAt.value)
                   || (now - item.timestamp) as real / (1000 * 60) as real > timeoutMinutes as real
  {
    AgeInMinutes(now, item.timestamp, timeoutMinutes);
    (item.expiresAt.Some? && item.expiresAt.value != 0 && now > item.expiresAt.value)
    || now - item.timestamp > timeoutMinutes * MillisPerMinute
  }

  /** The session-age test in minutes is the same as the test in milliseconds. */
  lemma AgeInMinutes(now: int, timestamp: int, timeoutMinutes: int)
    ensures ((now - timestamp) as real / (1000 * 60) as real > timeoutMinutes as real)
        <==> (now - timestamp > timeoutMinutes * MillisPerMinute)
  {
    var age := (now - timestamp) as real;
    var limit := (timeoutMinutes * MillisPerMinute) as real;
    assert limit == timeoutMinutes as real * 60000.0;
    assert age / 60000.0 > timeoutMinutes as real <==> age > limit;
  }

  /** An item that has expired stays expired. */
  lemma ExpiryIsFinal(item: StorageItem, now: int, later: int, timeoutMinutes: int)
    requires now <= later && Expired(item, now, timeoutMinutes)
    ensures Expired(item, later, timeoutMinutes)
  {
  }

  function Encrypt(cfg: Config, data: string, e: Entropy): (r: EncryptedData)
    requires WellSized(e)
    ensures |r.iv| == 24 && |r.salt| == 32
  {
    Hex.SaltAndIvLengths(e.salt, e.iv);
    EncryptedData(
      Hex.Encode(cfg.cipher.seal(cfg.encryptionKey, e.salt, e.iv, data)),
      Hex.Encode(e.iv),
      Hex.Encode(e.salt))
  }

  /** Decryption throws when a field holds no character to decode (`match` gives null), and
      fails when the cipher rejects what it is given. A field that is not hex text still
      decodes to bytes; only the cipher can reject those. */
  function Decrypt(cfg: Config, blob: EncryptedData): (r: Option<string>)
    ensures blob.data == "" || blob.iv == "" || blob.salt == "" ==> r == None
    ensures blob.data != "" && blob.iv != "" && blob.salt != "" && r.None? ==>
      (Hex.Decode(blob.data).None? || Hex.Decode(blob.iv).None? || Hex.Decode(blob.salt).None?
       || cfg.cipher.open(cfg.encryptionKey, Hex.Decode(blob.salt).value, Hex.Decode(blob.iv).value, Hex.Decode(blob.data).value).None?)
  {
    var data :- Hex.Decode(blob.data);
    var iv :- Hex.Decode(blob.iv);
    var salt :- Hex.Decode(blob.salt);
    cfg.cipher.open(cfg.encryptionKey, salt, iv, data)
  }

  /** Round trip of the cipher layer. */
  lemma DecryptEncrypt(cfg: Config, data: string, e: Entropy)
    requires Sound(cfg.cipher) && WellSized(e)
    ensures Decrypt(cfg, Encrypt(cfg, data, e)) == Some(data)
  {
    var sealed := cfg.cipher.seal(cfg.encryptionKey, e.salt, e.iv, data);
    assert |sealed| > 0;
    Hex.DecodeEncode(sealed);
    Hex.DecodeEncode(e.iv);
    Hex.DecodeEncode(e.salt);
  }

  /** `JSON.stringify` of the encrypted form, fields in declaration order. */
  function BlobJson(b: EncryptedData): (r: string)
    ensures |r| >= 2 && r[0] == '{'
  {
    Json.Stringify([("data", b.data), ("iv", b.iv), ("salt", b.salt)])
  }

  /** `JSON.parse` of the encrypted form; a missing field fails like the `match` on
      `undefined` it leads to. */
  function ParseBlob(t: string): (r: Option<EncryptedData>)
  {
    var fs :- Json.ParseObject(t);
    var data :- Json.Lookup(fs, "data");
    var iv :- Json.Lookup(fs, "iv");
    var salt :- Json.Lookup(fs, "salt");
    Some(EncryptedData(data, iv, salt))
  }

  lemma BlobRoundTrip(b: EncryptedData)
    ensures ParseBlob(BlobJson(b)) == Some(b)
  {
    var fs := [("data", b.data), ("iv", b.iv), ("salt", b.salt)];
    Json.StringifyParses(fs);
    Json.LookupUnique(fs, 0);
    Json.LookupUnique(fs, 1);
    Json.LookupUnique(fs, 2);
  }

  /** The `value` field of the envelope: the text itself, or the JSON of its encryption. */
  function StoredValue(cfg: Config, value: string, opts: SetOptions): string
    requires EntropyOk(opts)
  {
    match opts.encrypt
    case None => value
    case Some(e) => BlobJson(Encrypt(cfg, value, e))
  }

  /** The envelope `setItem` writes at time `now`; an `expiresIn` of zero means none. */
  function NewItem(cfg: Config, value: string, opts: SetOptions, now: int): (item: StorageItem)
    requires EntropyOk(opts)
    ensures item.timestamp == now && item.encrypted == opts.encrypt.Some?
    ensures opts.encrypt.None? ==> item.value == value
    ensures item.expiresAt.Some? <==> opts.expiresIn.Some? && opts.expiresIn.value != 0
    ensures item.expiresAt.Some? ==> item.expiresAt.value == now + 1000 * opts.expiresIn.value
  {
    StorageItem(
      StoredValue(cfg, value, opts),
      now,
      opts.encrypt.Some?,
      if opts.expiresIn.Some? && opts.expiresIn.value != 0 then Some(now + opts.expiresIn.value * 1000) else None)
  }

  /** What reading one key finds: nothing, an entry to purge, or a value. */
  datatype ReadOutcome = Miss | Purge | Hit(value: string)

  /** The decision `getItem` takes on what a key holds at time `now`. */
  function ReadEntry(cfg: Config, e: Option<Entry>, now: int): (r: ReadOutcome)
    ensures r.Miss? <==> e.None? || e == Some(Unparsable(""))
    ensures r.Hit? ==> e.Some? && e.value.Stored? && !Expired(e.value.item, now, cfg.sessionTimeout)
    ensures r.Hit? && !e.value.item.encrypted ==> r.value == e.value.item.value
  {
    match e
    case None => Miss
    case Some(Unparsable(raw)) => if raw == "" then Miss else Purge
    case Some(Stored(item)) =>
      if Expired(item, now, cfg.sessionTimeout) then Purge
      else if !item.encrypted then Hit(item.value)
      else match ParseBlob(item.value)
        case None => Purge
        case Some(blob) =>
          match Decrypt(cfg, blob)
          case None => Purge
          case Some(v) => Hit(v)
  }

  function Lookup(m: map<string, Entry>, key: string): Option<Entry> {
    if key in m then Some(m[key]) else None
  }

  function Read(cfg: Config, m: map<string, Entry>, key: string, now: int): ReadOutcome {
    ReadEntry(cfg, Lookup(m, key), now)
  }

  function ValueOf(o: ReadOutcome): Option<string> {
    if o.Hit? then Some(o.value) else None
  }

  /** The storage after a read: the key is removed exactly when the read purges it. */
  function AfterRead(cfg: Config, m: map<string, Entry>, key: string, now: int): (r: map<string, Entry>)
    ensures r.Keys <= m.Keys
    ensures forall k :: k in r ==> r[k] == m[k]
    ensures key !in r <==> key !in m || Read(cfg, m, key, now).Purge?
    ensures forall k :: k != key && k in m ==> k in r
  {
    if Read(cfg, m, key, now).Purge? then m - {key} else m
  }

  /** Round trip of `setItem` and `getItem`: while the new envelope is within both its
      lifetimes, reading it gives back the value that was written. */
  lemma SetThenRead(cfg: Config, value: string, opts: SetOptions, now: int, later: int)
    requires Sound(cfg.cipher) && EntropyOk(opts)
    requires !Expired(NewItem(cfg, value, opts, now), later, cfg.sessionTimeout)
    ensures ReadEntry(cfg, Some(Stored(NewItem(cfg, value, opts, now))), later) == Hit(value)
  {
    if opts.encrypt.Some? {
      var b := Encrypt(cfg, value, opts.encrypt.value);
      BlobRoundTrip(b);
      DecryptEncrypt(cfg, value, opts.encrypt.value);
    }
  }

  /** When a new envelope is still live: within the session timeout of its writing and, when
      `expiresIn` was given, within that many seconds (unless the deadline falls on time
      zero, which reads as no deadline). */
  lemma NewItemLifetime(cfg: Config, value: string, opts: SetOptions, now: int, later: int)
    requires EntropyOk(opts)
    ensures !Expired(NewItem(cfg, value, opts, now), later, cfg.sessionTimeout)
        <==> later - now <= cfg.sessionTimeout * MillisPerMinute
             && (opts.expiresIn.None? || opts.expiresIn.value == 0 || now + 1000 * opts.expiresIn.value == 0
                || later <= now + 1000 * opts.expiresIn.value)
  {
  }

  /** Whether `cleanup` removes a key: a non-empty text that is not an envelope, or an
      expired envelope. The empty key is never enumerated and never removed. */
  predicate Sweeps(cfg: Config, key: string, e: Entry, now: int) {
    key != ""
    && match e
       case Unparsable(raw) => raw != ""
       case Stored(item) => Expired(item, now, cfg.sessionTimeout)
  }

  /** The storage after `cleanup`: exactly the keys the sweep does not select are kept, each
      with its envelope unchanged. */
  function Swept(cfg: Config, m: map<string, Entry>, now: int): (r: map<string, Entry>)
    ensures r.Keys <= m.Keys
    ensures forall k :: k in r <==> k in m && !Sweeps(cfg, k, m[k], now)
    ensures forall k :: k in r ==> r[k] == m[k]
  {
    map k | k in m && !Sweeps(cfg, k, m[k], now) :: m[k]
  }

  /** A second sweep at the same time removes nothing more. */
  lemma SweepIdempotent(cfg: Config, m: map<string, Entry>, now: int)
    ensures Swept(cfg, Swept(cfg, m, now), now) == Swept(cfg, m, now)
  {
  }

  /** `cleanup` keeps every envelope that `getItem` would return a value for, unchanged. */
  lemma SweepKeepsReadable(cfg: Config, m: map<string, Entry>, key: string, now: int)
    requires Read(cfg, m, key, now).Hit?
    ensures key in Swept(cfg, m, now) && Swept(cfg, m, now)[key] == m[key]
  {
  }

  /** `cleanup` does not decrypt: a live encrypted envelope whose value is not an encrypted
      form, or does not decrypt, survives it, although `getItem` purges it. */
  lemma SweepKeepsCorruptCiphertext(cfg: Config, m: map<string, Entry>, key: string, now: int)
    requires key != "" && key in m && m[key].Stored?
    requires var item := m[key].item;
      item.encrypted && !Expired(item, now, cfg.sessionTimeout)
      && (ParseBlob(item.value).None? || Decrypt(cfg, ParseBlob(item.value).value).None?)
    ensures key in Swept(cfg, m, now) && Swept(cfg, m, now)[key] == m[key]
    ensures Read(cfg, m, key, now) == Purge
  {
  }

  /** `JSON.stringify` of a project. */
  function ProjectJson(p: Domain.Project): (r: string)
    ensures |r| >= 2 && r[0] == '{'
  {
    Json.Stringify([("id", p.id), ("key", p.key), ("name", p.name)])
  }

  /** `JSON.parse` of a stored project. */
  function ParseProject(t: string): Option<Domain.Project> {
    var fs :- Json.ParseObject(t);
    var id :- Json.Lookup(fs, "id");
    var key :- Json.Lookup(fs, "key");
    var name :- Json.Lookup(fs, "name");
    Some(Domain.Project(id, key, name))
  }

  lemma ProjectRoundTrip(p: Domain.Project)
    ensures ParseProject(ProjectJson(p)) == Some(p)
  {
    var fs := [("id", p.id), ("key", p.key), ("name", p.name)];
    Json.StringifyParses(fs);
    Json.LookupUnique(fs, 0);
    Json.LookupUnique(fs, 1);
    Json.LookupUnique(fs, 2);
  }

  /** The check `setSelectedProject` makes before it stores a project. */
  predicate ValidProject(p: Domain.Project) {
    p.id != "" && p.key != "" && p.name != ""
  }

  /** What `getSelectedProject` returns for what reading the key gave. */
  function ProjectOf(o: ReadOutcome): Option<Domain.Project> {
    if o.Hit? && o.value != "" then ParseProject(o.value) else None
  }

  /** The storage after `getSelectedProject`: a project text that does not parse is removed
      as well. */
  function AfterProjectRead(cfg: Config, m: map<string, Entry>, now: int): (r: map<string, Entry>)
    ensures forall k :: k != SelectedProjectKey ==> (k in r <==> k in m) && (k in r ==> r[k] == m[k])
    ensures ProjectOf(Read(cfg, m, SelectedProjectKey, now)).Some? ==> r == m
  {
    var o := Read(cfg, m, SelectedProjectKey, now);
    if o.Hit? && o.value != "" && ParseProject(o.value).None? then m - {SelectedProjectKey}
    else AfterRead(cfg, m, SelectedProjectKey, now)
  }

  /** The text of one credential as `getCredentials` returns it (`value || ''`). */
  function TextOf(cfg: Config, m: map<string, Entry>, key: string, now: int): string {
    ValueOf(Read(cfg, m, key, now)).GetOr("")
  }

  /** The storage after a write that the storage may refuse. */
  function Write(m: map<string, Entry>, key: string, item: StorageItem, refused: set<string>): (r: map<string, Entry>)
    ensures key !in refused ==> key in r && r[key] == Stored(item)
    ensures key in refused ==> r == m
    ensures forall k :: k != key ==> (k in r <==> k in m) && (k in r ==> r[k] == m[k])
  {
    if key in refused then m else m[key := Stored(item)]
  }

  /** The storage after `setCredentials`: the project name and domain in plain text, the
      email and API token encrypted, each write subject to refusal. */
  function CredentialWrites(cfg: Config, m: map<string, Entry>, c: Credentials, now: int,
                            emailEntropy: Entropy, tokenEntropy: Entropy, refused: set<string>): map<string, Entry>
    requires WellSized(emailEntropy) && WellSized(tokenEntropy)
  {
    var m1 := Write(m, ProjectNameKey, NewItem(cfg, c.projectName, Plain, now), refused);
    var m2 := Write(m1, DomainKey, NewItem(cfg, c.domain, Plain, now), refused);
    var m3 := Write(m2, EmailKey, NewItem(cfg, c.email, SetOptions(Some(emailEntropy), None), now), refused);
    Write(m3, ApiTokenKey, NewItem(cfg, c.apiToken, SetOptions(Some(tokenEntropy), None), now), refused)
  }

  /** Only the email and the API token are stored encrypted. */
  lemma CredentialsEncryption(cfg: Config, m: map<string, Entry>, c: Credentials, now: int,
                              e1: Entropy, e2: Entropy)
    requires WellSized(e1) && WellSized(e2)
    ensures var w := CredentialWrites(cfg, m, c, now, e1, e2, {});
      w[ProjectNameKey].item.encrypted == false && w[DomainKey].item.encrypted == false
      && w[EmailKey].item.encrypted && w[ApiTokenKey].item.encrypted
      && w[ProjectNameKey].item.value == c.projectName && w[DomainKey].item.value == c.domain
  {
  }

  /** Round trip of `setCredentials` and `getCredentials`: within the session timeout, every
      credential reads back as written. */
  lemma CredentialsRoundTrip(cfg: Config, m: map<string, Entry>, c: Credentials, now: int, later: int,
                             e1: Entropy, e2: Entropy)
    requires Sound(cfg.cipher) && WellSized(e1) && WellSized(e2)
    requires later - now <= cfg.sessionTimeout * MillisPerMinute
    ensures var w := CredentialWrites(cfg, m, c, now, e1, e2, {});
      TextOf(cfg, w, ProjectNameKey, later) == c.projectName
      && TextOf(cfg, w, DomainKey, later) == c.domain
      && TextOf(cfg, w, EmailKey, later) == c.email
      && TextOf(cfg, w, ApiTokenKey, later) == c.apiToken
  {
    SetThenRead(cfg, c.projectName, Plain, now, later);
    SetThenRead(cfg, c.domain, Plain, now, later);
    SetThenRead(cfg, c.email, SetOptions(Some(e1), None), now, later);
    SetThenRead(cfg, c.apiToken, SetOptions(Some(e2), None), now, later);
  }

  /** Reading a key after other keys were purged decides as reading it before. */
  lemma PurgeStep(cfg: Config, m: map<string, Entry>, purged: set<string>, key: string, now: int)
    requires key !in purged
    ensures Read(cfg, m - purged, key, now) == Read(cfg, m, key, now)
    ensures AfterRead(cfg, m - purged, key, now)
         == m - (purged + if Read(cfg, m, key, now).Purge? then {key} else {})
  {
    assert Lookup(m - purged, key) == Lookup(m, key);
  }

  /** The keys that reading the four credentials purges. */
  function CredentialPurges(cfg: Config, m: map<string, Entry>, now: int): set<string> {
    set k | k in [ProjectNameKey, DomainKey, EmailKey, ApiTokenKey] && Read(cfg, m, k, now).Purge?
  }

  /** `{key}` when reading `key` purges it, nothing otherwise. */
  function PurgedBy(cfg: Config, m: map<string, Entry>, key: string, now: int): set<string> {
    if Read(cfg, m, key, now).Purge? then {key} else {}
  }

  /** The credential keys purged, one read after another. */
  lemma CredentialPurgesInTurn(cfg: Config, m: map<string, Entry>, now: int)
    ensures CredentialPurges(cfg, m, now)
         == PurgedBy(cfg, m, ProjectNameKey, now) + PurgedBy(cfg, m, DomainKey, now)
          + PurgedBy(cfg, m, EmailKey, now) + PurgedBy(cfg, m, ApiTokenKey, now)
  {
    var keys := [ProjectNameKey, DomainKey, EmailKey, ApiTokenKey];
    var rhs := PurgedBy(cfg, m, ProjectNameKey, now) + PurgedBy(cfg, m, DomainKey, now)
             + PurgedBy(cfg, m, EmailKey, now) + PurgedBy(cfg, m, ApiTokenKey, now);
    forall k ensures k in CredentialPurges(cfg, m, now) <==> k in rhs {
      assert k in keys <==> k == ProjectNameKey || k == DomainKey || k == EmailKey || k == ApiTokenKey;
    }
  }

  class Vault {
    /** Session storage: what each key holds. */
    var store: map<string, Entry>
    const config: Config

    /** The vault over a session storage that already holds `initial`. */
    constructor(keyEnv: string, timeoutEnv: Option<int>, cipher: Cipher, initial: map<string, Entry>)
      ensures config == MakeConfig(keyEnv, timeoutEnv, cipher)
      ensures store == initial
    {
      config := MakeConfig(keyEnv, timeoutEnv, cipher);
      store := initial;
    }

    /** Writes an envelope for `value` at time `now`; the storage refuses the write when
        `refused` holds, and the vault then reports a storage error. */
    method SetItem(key: string, value: string, opts: SetOptions, now: int, refused: bool)
      returns (r: Result<(), Error>)
      requires EntropyOk(opts)
      modifies this
      ensures r == (if refused then Err(StorageError) else Ok(()))
      ensures store == (if refused then old(store) else old(store)[key := Stored(NewItem(config, value, opts, now))])
    {
      var processed := value;
      if opts.encrypt.Some? {
        var encrypted := Encrypt(config, value, opts.encrypt.value);
        processed := BlobJson(encrypted);
      }
      var expiresAt := None;
      if opts.expiresIn.Some? && opts.expiresIn.value != 0 {
        expiresAt := Some(now + opts.expiresIn.value * 1000);
      }
      var item := StorageItem(processed, now, opts.encrypt.Some?, expiresAt);
      if refused {
        return Err(StorageError);
      }
      store := store[key := Stored(item)];
      return Ok(());
    }

    /** Reads a value at time `now`, purging the key when its envelope is expired or cannot
        be read or decrypted. */
    method GetItem(key: string, now: int) returns (v: Option<string>)
      modifies this
      ensures v == ValueOf(Read(config, old(store), key, now))
      ensures store == AfterRead(config, old(store), key, now)
    {
      if key !in store || store[key] == Unparsable("") {
        return None;
      }
      if store[key].Unparsable? {
        RemoveItem(key);
        return None;
      }
      var item := store[key].item;
      if Expired(item, now, config.sessionTimeout) {
        RemoveItem(key);
        return None;
      }
      var value := item.value;
      if item.encrypted {
        var blob := ParseBlob(value);
        if blob.None? {
          RemoveItem(key);
          return None;
        }
        var plain := Decrypt(config, blob.value);
        if plain.None? {
          RemoveItem(key);
          return None;
        }
        value := plain.value;
      }
      return Some(value);
    }

    method RemoveItem(key: string)
      modifies this
      ensures store == old(store) - {key}
    {
      store := store - {key};
    }

    method Clear()
      modifies this
      ensures store == map[]
    {
      store := map[];
    }

    /**
     * The non-empty keys that start with `prefix`, each once, in the storage's own
     * enumeration order, which is left to the storage.
     */
    method GetKeys(prefix: string) returns (keys: seq<string>)
      ensures forall k :: k in keys <==> k in store && k != "" && prefix <= k
      ensures forall i, j :: 0 <= i < j < |keys| ==> keys[i] != keys[j]
    {
      keys := [];
      var remaining := store.Keys;
      while remaining != {}
        invariant remaining <= store.Keys
        invariant forall k :: k in keys <==> k in store && k !in remaining && k != "" && prefix <= k
        invariant forall i, j :: 0 <= i < j < |keys| ==> keys[i] != keys[j]
        decreases |remaining|
      {
        var key :| key in remaining;
        if key != "" && prefix <= key {
          keys := keys + [key];
        }
        remaining := remaining - {key};
      }
    }

    /** Removes every key that holds non-empty text that is not an envelope, or an envelope
        that is expired at time `now`. */
    method Cleanup(now: int)
      modifies this
      ensures store == Swept(config, old(store), now)
    {
      var keys := GetKeys("");
      var i := 0;
      while i < |keys|
        invariant 0 <= i <= |keys|
        invariant store == map k | k in old(store) && !(k in keys[..i] && Sweeps(config, k, old(store)[k], now)) :: old(store)[k]
      {
        var key := keys[i];
        assert key !in keys[..i];
        if key in store {
          match store[key]
          case Unparsable(raw) =>
            if raw != "" {
              RemoveItem(key);
            }
          case Stored(item) =>
            if Expired(item, now, config.sessionTimeout) {
              RemoveItem(key);
            }
        }
        assert keys[..i + 1] == keys[..i] + [key];
        i := i + 1;
      }
      assert keys[..i] == keys;
    }

    /** Stores the four credentials, each write subject to refusal. */
    method SetCredentials(c: Credentials, now: int, emailEntropy: Entropy, tokenEntropy: Entropy, refused: set<string>)
      returns (r: Result<(), Error>)
      requires WellSized(emailEntropy) && WellSized(tokenEntropy)
      modifies this
      ensures r.Ok? <==> ProjectNameKey !in refused && DomainKey !in refused && EmailKey !in refused && ApiTokenKey !in refused
      ensures r.Err? ==> r.error == StorageError
      ensures store == CredentialWrites(config, old(store), c, now, emailEntropy, tokenEntropy, refused)
    {
      var r1 := SetItem(ProjectNameKey, c.projectName, Plain, now, ProjectNameKey in refused);
      var r2 := SetItem(DomainKey, c.domain, Plain, now, DomainKey in refused);
      var r3 := SetItem(EmailKey, c.email, SetOptions(Some(emailEntropy), None), now, EmailKey in refused);
      var r4 := SetItem(ApiTokenKey, c.apiToken, SetOptions(Some(tokenEntropy), None), now, ApiTokenKey in refused);
      if r1.Err? || r2.Err? || r3.Err? || r4.Err? {
        return Err(StorageError);
      }
      return Ok(());
    }

    /** Reads the four credentials; a missing or unreadable one reads as the empty string. */
    method GetCredentials(now: int) returns (c: Credentials)
      modifies this
      ensures c == Credentials(TextOf(config, old(store), ProjectNameKey, now), TextOf(config, old(store), DomainKey, now),
                               TextOf(config, old(store), EmailKey, now), TextOf(config, old(store), ApiTokenKey, now))
      ensures store == old(store) - CredentialPurges(config, old(store), now)
    {
      ghost var m0 := store;
      assert m0 - {} == m0;
      var projectName := GetItem(ProjectNameKey, now);
      PurgeStep(config, m0, {}, ProjectNameKey, now);
      ghost var p1 := PurgedBy(config, m0, ProjectNameKey, now);
      assert store == m0 - p1;
      var domain := GetItem(DomainKey, now);
      PurgeStep(config, m0, p1, DomainKey, now);
      ghost var p2 := p1 + PurgedBy(config, m0, DomainKey, now);
      assert store == m0 - p2;
      var email := GetItem(EmailKey, now);
      PurgeStep(config, m0, p2, EmailKey, now);
      ghost var p3 := p2 + PurgedBy(config, m0, EmailKey, now);
      assert store == m0 - p3;
      var apiToken := GetItem(ApiTokenKey, now);
      PurgeStep(config, m0, p3, ApiTokenKey, now);
      ghost var p4 := p3 + PurgedBy(config, m0, ApiTokenKey, now);
      assert store == m0 - p4;
      CredentialPurgesInTurn(config, m0, now);
      c := Credentials(projectName.GetOr(""), domain.GetOr(""), email.GetOr(""), apiToken.GetOr(""));
    }

    /** Stores a valid project, or removes the stored one when given none. */
    method SetSelectedProject(p: Option<Domain.Project>, now: int, refused: bool) returns (r: Result<(), Error>)
      modifies this
      ensures p.Some? && !ValidProject(p.value) ==> r == Err(ValidationError) && store == old(store)
      ensures p.Some? && ValidProject(p.value) && refused ==> r == Err(StorageError) && store == old(store)
      ensures p.Some? && ValidProject(p.value) && !refused ==>
        r == Ok(()) && store == old(store)[SelectedProjectKey := Stored(NewItem(config, ProjectJson(p.value), Plain, now))]
      ensures p.None? ==> r == Ok(()) && store == old(store) - {SelectedProjectKey}
    {
      if p.Some? {
        if !ValidProject(p.value) {
          return Err(ValidationError);
        }
        r := SetItem(SelectedProjectKey, ProjectJson(p.value), Plain, now, refused);
      } else {
        RemoveItem(SelectedProjectKey);
        r := Ok(());
      }
    }

    /** Reads the stored project; text that is not a project is removed. */
    method GetSelectedProject(now: int) returns (p: Option<Domain.Project>)
      modifies this
      ensures p == ProjectOf(Read(config, old(store), SelectedProjectKey, now))
      ensures store == AfterProjectRead(config, old(store), now)
    {
      var stored := GetItem(SelectedProjectKey, now);
      if stored.None? || stored.value == "" {
        return None;
      }
      p := ParseProject(stored.value);
      if p.None? {
        RemoveItem(SelectedProjectKey);
      }
    }
  }

  /** A write followed by a read within the session timeout gives the project back. */
  method SelectedProjectRoundTrip(v: Vault, p: Domain.Project, now: int, later: int) returns (got: Option<Domain.Project>)
    requires Sound(v.config.cipher) && ValidProject(p)
    requires now <= later && later - now <= v.config.sessionTimeout * MillisPerMinute
    modifies v
    ensures got == Some(p)
  {
    var r := v.SetSelectedProject(Some(p), now, false);
    SetThenRead(v.config, ProjectJson(p), Plain, now, later);
    ProjectRoundTrip(p);
    got := v.GetSelectedProject(later);
  }

  /** Storing credentials and reading them back within the session timeout gives them back. */
  method CredentialsRoundTripClient(v: Vault, c: Credentials, now: int, later: int, e1: Entropy, e2: Entropy)
    returns (got: Credentials)
    requires Sound(v.config.cipher) && WellSized(e1) && WellSized(e2)
    requires later - now <= v.config.sessionTimeout * MillisPerMinute
    modifies v
    ensures got == c
  {
    var r := v.SetCredentials(c, now, e1, e2, {});
    CredentialsRoundTrip(v.config, old(v.store), c, now, later, e1, e2);
    got := v.GetCredentials(later);
  }
}
