/** Custody of the identity key: registration, login, password change, rotation, export and import as atomic
    requests on a user row and the unlock cache. The private key is stored only wrapped under the password. */
module KeyCustody {
  import opened Bytes
  import opened KeyringBackup

  /** The engine, with the key-wrapping derivation (password, salt), the password hash (password, salt), the
      public key of a private one, and whether a certificate request for a key pair can be made. */
  datatype Crypto = Crypto(engine: Engine, kek: (Bytes, Bytes) -> Option<Bytes>, authHash: (Bytes, Bytes) -> Bytes,
                           publicKey: Bytes -> Bytes, csr: (Bytes, Bytes) -> bool)
  {
    /** The cipher is correct, and whatever key opens a wrapped private key, it opens to what was wrapped: it
        commits to its key, which is more than authenticated decryption promises and more than GCM is known
        for. Only the clauses about another password than the one that wrapped the key rest on it. */
    ghost predicate Lawful() {
      && engine.Lawful()
      && (forall key, plain, nonce, other :: engine.encrypt(key, plain, [], nonce).Some? ==>
            OpensTo(engine.encrypt(key, plain, [], nonce).value, other, plain))
      && (forall sk :: csr(sk, publicKey(sk)))
    }

    predicate OpensTo(s: Sealed, other: Bytes, plain: Bytes) {
      var x := engine.decrypt(other, s.nonce, s.ciphertext, [], s.tag);
      x == None || x == Some(plain)
    }
  }

  /** The columns of a user row that custody is about. */
  datatype User = User(role: string, pubkey: Bytes, saltA: Bytes, authHash: Bytes, saltK: Bytes, encSk: Bytes,
                       certSerial: string, active: bool, failedLogins: nat, lockedUntil: Option<int>)

  /** A certificate record: whose it is, for which public key, and whether it is an identity certificate. */
  datatype Certificate = Certificate(subject: string, pubkey: Bytes, identity: bool, active: bool)

  type Registry = map<string, Certificate>

  // The wrapped key

  /** b"v1" */
  const WRAP_VERSION: Bytes := [118, 49]

  function PackWrapped(s: Sealed): Bytes {
    WRAP_VERSION + s.nonce + s.ciphertext + s.tag
  }

  /** `_parse_encrypted_private_key`: None where it raises. */
  function ParseWrapped(encSk: Bytes): (s: Option<Sealed>) {
    if |encSk| < 31 || encSk[..2] != WRAP_VERSION then None
    else Some(Sealed(encSk[2..14], encSk[14..|encSk| - 16], encSk[|encSk| - 16..]))
  }

  /** Parsing accepts exactly the packings with a twelve-byte nonce, a sixteen-byte tag and some ciphertext. */
  lemma ParseIffPacked(encSk: Bytes, s: Sealed)
    ensures ParseWrapped(encSk) == Some(s) <==>
            |s.nonce| == 12 && |s.tag| == 16 && s.ciphertext != [] && encSk == PackWrapped(s)
  {
    if |s.nonce| == 12 && |s.tag| == 16 && s.ciphertext != [] && encSk == PackWrapped(s) {
      assert encSk[..2] == WRAP_VERSION && encSk[2..14] == s.nonce;
      assert encSk[14..|encSk| - 16] == s.ciphertext && encSk[|encSk| - 16..] == s.tag;
    }
    if ParseWrapped(encSk) == Some(s) {
      assert encSk == encSk[..2] + encSk[2..14] + encSk[14..|encSk| - 16] + encSk[|encSk| - 16..];
    }
  }

  function Wrap(c: Crypto, password: Bytes, saltK: Bytes, sk: Bytes, nonce: Bytes): Option<Bytes> {
    match c.kek(password, saltK)
    case None => None
    case Some(key) =>
      match c.engine.encrypt(key, sk, [], nonce)
      case None => None
      case Some(s) => Some(PackWrapped(s))
  }

  function Open(c: Crypto, password: Bytes, saltK: Bytes, encSk: Bytes): Option<Bytes> {
    match (c.kek(password, saltK), ParseWrapped(encSk))
    case (Some(key), Some(s)) => c.engine.decrypt(key, s.nonce, s.ciphertext, [], s.tag)
    case _ => None
  }

  /** The stored bytes wrap this private key under this password and salt. */
  ghost predicate Wraps(c: Crypto, password: Bytes, saltK: Bytes, encSk: Bytes, sk: Bytes) {
    exists nonce :: |nonce| == 12 && Wrap(c, password, saltK, sk, nonce) == Some(encSk)
  }

  /** A wrapped key opens under its own password, and under no password to anything else. */
  lemma WrapOpens(c: Crypto, password: Bytes, saltK: Bytes, encSk: Bytes, sk: Bytes, other: Bytes)
    requires c.Lawful() && |sk| == 32 && Wraps(c, password, saltK, encSk, sk)
    ensures Open(c, password, saltK, encSk) == Some(sk)
    ensures Open(c, other, saltK, encSk) == None || Open(c, other, saltK, encSk) == Some(sk)
  {
    var nonce :| |nonce| == 12 && Wrap(c, password, saltK, sk, nonce) == Some(encSk);
    var key := c.kek(password, saltK).value;
    var s := c.engine.encrypt(key, sk, [], nonce).value;
    ParseIffPacked(encSk, s);
    if c.kek(other, saltK).Some? { assert c.OpensTo(s, c.kek(other, saltK).value, sk); }
  }

  // The requests, on one user row

  predicate Authenticates(c: Crypto, u: User, password: Bytes) {
    c.authHash(password, u.saltA) == u.authHash
  }

  /** What a request draws at random: two salts, a nonce and, for a new identity, a private key. */
  datatype Draw = Draw(saltA: Bytes, saltK: Bytes, nonce: Bytes, sk: Bytes)

  /** The row made by `register`. */
  function Registered(c: Crypto, password: Bytes, d: Draw, serial: string): Option<User> {
    match Wrap(c, password, d.saltK, d.sk, d.nonce)
    case None => None
    case Some(encSk) =>
      Some(User("student", c.publicKey(d.sk), d.saltA, c.authHash(password, d.saltA),
                d.saltK, encSk, serial, true, 0, None))
  }

  /** Times are in seconds. */
  const LOCKOUT := 600

  const LOCKOUT_FAILURES := 5

  predicate LockedOut(u: User, now: int) {
    u.lockedUntil.Some? && u.lockedUntil.value > now
  }

  /** `_record_failure`. The count goes on after a lockout has run out. */
  function FailureRecorded(u: User, now: int): User {
    u.(failedLogins := u.failedLogins + 1,
       lockedUntil := if u.failedLogins + 1 >= LOCKOUT_FAILURES then Some(now + LOCKOUT) else u.lockedUntil)
  }

  /** What `login` finds: a wrong password, with the row it leaves; or the opened key, with the row it leaves
      if tokens can be issued. */
  datatype LoginOutcome = Invalid | RateLimited | Broken | WrongPassword(user: User) | Opened(user: User, key: Bytes)

  function LoginResult(c: Crypto, u: User, password: Bytes, now: int): LoginOutcome {
    if !PasswordOk(password) || !u.active then Invalid
    else if LockedOut(u, now) then RateLimited
    else if !Authenticates(c, u, password) then WrongPassword(FailureRecorded(u, now))
    else
      match Open(c, password, u.saltK, u.encSk)
      case None => Broken
      case Some(sk) => if sk == [] then Broken else Opened(u.(failedLogins := 0, lockedUntil := None), sk)
  }

  /** The certificate named in the row is the user's and active. */
  predicate HoldsCertificate(certs: Registry, uid: string, u: User) {
    u.certSerial in certs && certs[u.certSerial].subject == uid && certs[u.certSerial].active
  }

  /** The row after `change`, or None where it raises. The policy on new passwords is the caller's. */
  function Changed(c: Crypto, u: User, current: Bytes, next: Bytes, d: Draw): Option<User> {
    if !PasswordOk(current) || !PasswordOk(next) || current == next || !u.active ||
       !Authenticates(c, u, current) then None
    else
      match Open(c, current, u.saltK, u.encSk)
      case None => None
      case Some(sk) =>
        if sk == [] || d.saltA in {u.saltA, u.saltK} || d.saltK in {u.saltA, u.saltK, d.saltA} then None
        else
          match Wrap(c, next, d.saltK, sk, d.nonce)
          case None => None
          case Some(encSk) =>
            Some(u.(saltA := d.saltA, authHash := c.authHash(next, d.saltA), saltK := d.saltK, encSk := encSk))
  }

  /** The row after `rotate` with a new certificate of this serial number, or None where it raises. */
  function Rotated(c: Crypto, certs: Registry, uid: string, u: User, password: Bytes, d: Draw,
                   serial: string): Option<User>
  {
    if !PasswordOk(password) || !HoldsCertificate(certs, uid, u) || !certs[u.certSerial].identity ||
       serial in certs then None
    else if !Authenticates(c, u, password) then None
    else
      match Open(c, password, u.saltK, u.encSk)
      case None => None
      case Some(held) =>
        if |held| != 32 || !c.csr(held, u.pubkey) then None
        else
          match Wrap(c, password, d.saltK, d.sk, d.nonce)
          case None => None
          case Some(encSk) =>
            Some(u.(saltA := d.saltA, authHash := c.authHash(password, d.saltA), saltK := d.saltK, encSk := encSk,
                    pubkey := c.publicKey(d.sk), certSerial := serial))
  }

  function Revoked(certs: Registry, serial: string): Registry {
    if serial in certs && certs[serial].identity then certs[serial := certs[serial].(active := false)] else certs
  }

  /** The certificates after a rotation: the new one is recorded and the old one revoked. */
  function Reissued(certs: Registry, uid: string, before: User, after: User): Registry {
    Revoked(certs[after.certSerial := Certificate(uid, after.pubkey, true, true)], before.certSerial)
  }

  predicate RotationKeyOk(key: string) {
    16 <= |key| <= 128
  }

  const MAX_ROTATIONS := 2048

  /** The completed rotations after one more; a full store first drops an arbitrary one. */
  function Completed(done: set<(string, string)>, pair: (string, string),
                     evicted: (string, string)): set<(string, string)>
  {
    (if |done| >= MAX_ROTATIONS then done - {evicted} else done) + {pair}
  }

  ghost predicate CompletedTo(before: set<(string, string)>, after: set<(string, string)>, pair: (string, string)) {
    exists evicted :: (|before| >= MAX_ROTATIONS ==> evicted in before) && after == Completed(before, pair, evicted)
  }

  function MaterialFor(uid: string, u: User): Material {
    Material(uid, u.role, u.certSerial, u.pubkey, u.saltK, u.encSk)
  }

  /** The file made by `export`. */
  function ExportFile(c: Crypto, certs: Registry, uid: string, u: User, password: Bytes, salt: Bytes, nonce: Bytes)
    : Option<Bytes>
  {
    if !PasswordOk(password) || !HoldsCertificate(certs, uid, u) || !Authenticates(c, u, password) then None
    else
      match Export(c.engine, salt, nonce, MaterialFor(uid, u), password)
      case Exported(pem) => Some(pem)
      case _ => None
  }

  /** The restored material belongs to the row as it is now. */
  predicate Matches(m: Material, u: User) {
    m.role == u.role && m.certificateSerial == u.certSerial && m.publicKey == u.pubkey && m.saltK == u.saltK
  }

  /** The row after `import_backup`, or None where it raises. */
  function Imported(c: Crypto, certs: Registry, uid: string, u: User, backup: Bytes, password: Bytes): Option<User> {
    if !PasswordOk(password) || !HoldsCertificate(certs, uid, u) || !Authenticates(c, u, password) then None
    else
      match Import(c.engine, backup, password, uid)
      case None => None
      case Some(m) =>
        if !Matches(m, u) then None
        else
          match Open(c, password, u.saltK, m.encryptedPrivateKey)
          case None => None
          case Some(sk) =>
            if |sk| != 32 || !c.csr(sk, u.pubkey) then None else Some(u.(encSk := m.encryptedPrivateKey))
  }

  // The unlock cache

  datatype Entry = Entry(key: Bytes, expiresAt: int)

  type Cache = map<string, Entry>

  class PrivateKeyUnlockCache {
    var entries: Cache

    constructor ()
      ensures entries == map[]
    {
      entries := map[];
    }

    /** `put`; false where it raises. */
    method Put(uid: string, key: Bytes, expiresAt: int) returns (ok: bool)
      modifies this
      ensures ok <==> uid != "" && key != []
      ensures entries == if ok then old(entries)[uid := Entry(key, expiresAt)] else old(entries)
    {
      if uid == "" || key == [] { return false; }
      entries := entries[uid := Entry(key, expiresAt)];
      return true;
    }

    /** `get`: a lapsed entry is removed on the way. */
    method Get(uid: string, now: int) returns (key: Option<Bytes>)
      modifies this
      ensures key == if uid in old(entries) && now < old(entries)[uid].expiresAt then Some(old(entries)[uid].key)
                     else None
      ensures entries == if key.Some? then old(entries) else Without(old(entries), uid)
    {
      if uid in entries && now < entries[uid].expiresAt { return Some(entries[uid].key); }
      Delete(uid);
      return None;
    }

    /** `expires_at`. */
    method ExpiresAt(uid: string, now: int) returns (at: Option<int>)
      modifies this
      ensures at == if uid in old(entries) && now < old(entries)[uid].expiresAt then Some(old(entries)[uid].expiresAt)
                    else None
      ensures entries == if at.Some? then old(entries) else Without(old(entries), uid)
    {
      if uid in entries && now < entries[uid].expiresAt { return Some(entries[uid].expiresAt); }
      Delete(uid);
      return None;
    }

    method Delete(uid: string)
      modifies this
      ensures entries == Without(old(entries), uid)
    {
      if uid in entries {
        entries := Without(entries, uid);
      }
    }
  }

  class RotationIdempotencyStore {
    var completed: set<(string, string)>

    constructor ()
      ensures completed == {}
    {
      completed := {};
    }

    /** The end of `reserve`, once the rotation has gone through. */
    method Complete(pair: (string, string))
      modifies this
      ensures CompletedTo(old(completed), completed, pair)
      ensures pair in completed && completed <= old(completed) + {pair}
      ensures |old(completed)| < 2048 ==> old(completed) <= completed
      ensures |old(completed)| <= 2048 ==> |completed| <= 2048
    {
      ghost var before, dropped := completed, pair;
      if |completed| >= MAX_ROTATIONS {
        var evicted :| evicted in completed;
        dropped := evicted;
        completed := completed - {evicted};
      }
      completed := completed + {pair};
      assert completed == Completed(before, pair, dropped);
    }
  }

  /** The certificate table. */
  class CertificateTable {
    var certs: Registry

    constructor ()
      ensures certs == map[]
    {
      certs := map[];
    }

    method Record(serial: string, certificate: Certificate)
      modifies this
      ensures certs == old(certs)[serial := certificate]
    {
      certs := certs[serial := certificate];
    }

    method Revoke(serial: string)
      modifies this
      ensures certs == Revoked(old(certs), serial)
    {
      if serial in certs && certs[serial].identity {
        certs := certs[serial := certs[serial].(active := false)];
      }
    }
  }

  // What the services promise, column by column

  predicate LengthOk(password: Bytes) {
    1 <= |password| <= 512
  }

  /** The password opens the wrapped bytes to a key that makes a pair with the row's public key. */
  predicate OpensToKeyOf(c: Crypto, u: User, password: Bytes, encSk: Bytes) {
    var sk := Open(c, password, u.saltK, encSk);
    sk.Some? && |sk.value| == 32 && c.csr(sk.value, u.pubkey)
  }

  predicate Unlocked(u: User, now: int) {
    u.lockedUntil == None || u.lockedUntil.value <= now
  }

  /** A login opens the key only with the password whose hash is stored, on an active account that is not
      locked; a wrong password there, and nothing else, is counted. */
  lemma LoginOpensIff(c: Crypto, u: User, password: Bytes, now: int)
    ensures var r := LoginResult(c, u, password, now);
      && (r.Opened? ==> u.active && Unlocked(u, now) && LengthOk(password)
                        && c.authHash(password, u.saltA) == u.authHash
                        && r.user == u.(failedLogins := 0, lockedUntil := None))
      && (r.WrongPassword? <==>
            u.active && Unlocked(u, now) && LengthOk(password) && c.authHash(password, u.saltA) != u.authHash)
      && (r.WrongPassword? ==> r.user.failedLogins == u.failedLogins + 1 && r.user == u.(
            failedLogins := r.user.failedLogins,
            lockedUntil := if r.user.failedLogins < 5 then u.lockedUntil else Some(now + 600)))
  {
  }

  datatype Holder = Holder(password: Bytes, sk: Bytes)

  /** The row wraps the holder's key under the holder's password, and the key is the one in the certificate. */
  ghost predicate Kept(c: Crypto, u: User, h: Holder) {
    && |h.sk| == 32 && Wraps(c, h.password, u.saltK, u.encSk, h.sk)
    && c.publicKey(h.sk) == u.pubkey && c.authHash(h.password, u.saltA) == u.authHash
  }

  /** The holder, with the password last set, gets in, and to the right key. */
  lemma HolderLogsIn(c: Crypto, u: User, h: Holder, now: int)
    requires c.Lawful() && Kept(c, u, h) && LengthOk(h.password) && u.active && Unlocked(u, now)
    ensures LoginResult(c, u, h.password, now) == Opened(u.(failedLogins := 0, lockedUntil := None), h.sk)
  {
    hide Wrap, Open;
    WrapOpens(c, h.password, u.saltK, u.encSk, h.sk, h.password);
  }

  lemma HoldersLogIn(c: Crypto, u: User, password: Bytes, now: int)
    ensures forall h :: c.Lawful() && Kept(c, u, h) && LengthOk(password) && password == h.password
                        && u.active && Unlocked(u, now) ==>
              LoginResult(c, u, password, now) == Opened(u.(failedLogins := 0, lockedUntil := None), h.sk)
  {
    hide Kept, LoginResult, Crypto.Lawful;
    forall h | c.Lawful() && Kept(c, u, h) && LengthOk(h.password) && u.active && Unlocked(u, now)
      ensures LoginResult(c, u, h.password, now) == Opened(u.(failedLogins := 0, lockedUntil := None), h.sk)
    {
      HolderLogsIn(c, u, h, now);
    }
  }

  /** A change needs the current password, and leaves a row that the new one authenticates. */
  lemma ChangeNeedsPassword(c: Crypto, u: User, current: Bytes, next: Bytes, d: Draw)
    requires Changed(c, u, current, next, d).Some?
    ensures var t := Changed(c, u, current, next, d).value;
      && u.active && LengthOk(current) && LengthOk(next) && current != next
      && c.authHash(current, u.saltA) == u.authHash && c.authHash(next, t.saltA) == t.authHash
      && t.saltA == d.saltA && t.saltK == d.saltK
      && t.saltA != u.saltA && t.saltK != u.saltK && t.saltA != t.saltK
  {
  }

  predicate FreshSalts(u: User, d: Draw) {
    && d.saltA != u.saltA && d.saltA != u.saltK
    && d.saltK != u.saltA && d.saltK != u.saltK && d.saltK != d.saltA
  }

  lemma HolderChanges(c: Crypto, u: User, h: Holder, next: Bytes, d: Draw)
    requires c.Lawful() && Kept(c, u, h) && u.active && LengthOk(h.password) && LengthOk(next) && h.password != next
    requires FreshSalts(u, d) && Wrap(c, next, d.saltK, h.sk, d.nonce).Some?
    ensures Changed(c, u, h.password, next, d).Some?
  {
    hide Wrap, Open;
    WrapOpens(c, h.password, u.saltK, u.encSk, h.sk, h.password);
  }

  lemma HoldersChange(c: Crypto, u: User, current: Bytes, next: Bytes, d: Draw)
    ensures forall h :: c.Lawful() && Kept(c, u, h) && current == h.password && u.active
                        && LengthOk(current) && LengthOk(next) && current != next && FreshSalts(u, d)
                        && Wrap(c, next, d.saltK, h.sk, d.nonce).Some? ==>
              Changed(c, u, current, next, d).Some?
  {
    hide Kept, Changed, Wrap, Crypto.Lawful;
    forall h | c.Lawful() && Kept(c, u, h) && current == h.password && u.active && LengthOk(current) && LengthOk(next)
               && current != next && FreshSalts(u, d) && Wrap(c, next, d.saltK, h.sk, d.nonce).Some?
      ensures Changed(c, u, current, next, d).Some?
    {
      HolderChanges(c, u, h, next, d);
    }
  }

  /** The row's certificate is in order for a rotation. */
  predicate CertificateInOrder(certs: Registry, uid: string, u: User) {
    && u.certSerial in certs
    && var cert := certs[u.certSerial];
    && cert.subject == uid && cert.active && cert.identity
  }

  /** A rotation needs the password and the user's active identity certificate; the new key's certificate is
      then active and the old one is not. */
  lemma RotationNeedsPassword(c: Crypto, certs: Registry, uid: string, u: User, password: Bytes, d: Draw,
                              serial: string)
    requires Rotated(c, certs, uid, u, password, d, serial).Some?
    ensures var t := Rotated(c, certs, uid, u, password, d, serial).value; var after := Reissued(certs, uid, u, t);
      && LengthOk(password) && c.authHash(password, u.saltA) == u.authHash && CertificateInOrder(certs, uid, u)
      && OpensToKeyOf(c, u, password, u.encSk)
      && c.authHash(password, t.saltA) == t.authHash && t.pubkey == c.publicKey(d.sk) && t.certSerial == serial
      && serial in after && after[serial] == Certificate(uid, c.publicKey(d.sk), true, true)
      && u.certSerial in after && !after[u.certSerial].active && u.certSerial != serial
      && forall other :: other in certs && other != u.certSerial ==> other in after && after[other] == certs[other]
  {
    hide Wrap, Open;
  }

  lemma HolderRotates(c: Crypto, certs: Registry, uid: string, u: User, h: Holder, d: Draw, serial: string)
    requires c.Lawful() && Kept(c, u, h) && LengthOk(h.password) && CertificateInOrder(certs, uid, u)
    requires serial !in certs && Wrap(c, h.password, d.saltK, d.sk, d.nonce).Some?
    ensures Rotated(c, certs, uid, u, h.password, d, serial).Some?
  {
    hide Wrap, Open;
    WrapOpens(c, h.password, u.saltK, u.encSk, h.sk, h.password);
    assert c.csr(h.sk, c.publicKey(h.sk));
  }

  lemma HoldersRotate(c: Crypto, certs: Registry, uid: string, u: User, password: Bytes, d: Draw, serial: string)
    ensures forall h :: c.Lawful() && Kept(c, u, h) && password == h.password && LengthOk(password)
                        && CertificateInOrder(certs, uid, u) && serial !in certs
                        && Wrap(c, password, d.saltK, d.sk, d.nonce).Some? ==>
              Rotated(c, certs, uid, u, password, d, serial).Some?
  {
    hide Kept, Rotated, Wrap, Crypto.Lawful, CertificateInOrder;
    forall h | c.Lawful() && Kept(c, u, h) && password == h.password && LengthOk(password)
               && CertificateInOrder(certs, uid, u) && serial !in certs
               && Wrap(c, password, d.saltK, d.sk, d.nonce).Some?
      ensures Rotated(c, certs, uid, u, password, d, serial).Some?
    {
      HolderRotates(c, certs, uid, u, h, d, serial);
    }
  }

  /** An import needs the password, the user's active certificate and a backup made for this very row; it
      writes the backup's wrapped key and nothing else. */
  lemma ImportNeedsPassword(c: Crypto, certs: Registry, uid: string, u: User, backup: Bytes, password: Bytes)
    requires Imported(c, certs, uid, u, backup, password).Some?
    ensures LengthOk(password) && c.authHash(password, u.saltA) == u.authHash
    ensures u.certSerial in certs && certs[u.certSerial].subject == uid && certs[u.certSerial].active
    ensures Import(c.engine, backup, password, uid).Some?
    ensures var m := Import(c.engine, backup, password, uid).value;
      && m.role == u.role && m.certificateSerial == u.certSerial && m.publicKey == u.pubkey && m.saltK == u.saltK
      && OpensToKeyOf(c, u, password, m.encryptedPrivateKey)
      && Imported(c, certs, uid, u, backup, password).value == u.(encSk := m.encryptedPrivateKey)
  {
    hide Import, Open;
  }

  lemma HolderImports(c: Crypto, certs: Registry, uid: string, u: User, h: Holder, backup: Bytes)
    requires c.Lawful() && Kept(c, u, h) && LengthOk(h.password)
    requires u.certSerial in certs && certs[u.certSerial].subject == uid && certs[u.certSerial].active
    requires Import(c.engine, backup, h.password, uid) == Some(MaterialFor(uid, u))
    ensures Imported(c, certs, uid, u, backup, h.password) == Some(u)
  {
    hide Import, Wrap, Open;
    WrapOpens(c, h.password, u.saltK, u.encSk, h.sk, h.password);
    assert c.csr(h.sk, c.publicKey(h.sk));
  }

  lemma HoldersImport(c: Crypto, certs: Registry, uid: string, u: User, backup: Bytes, password: Bytes)
    ensures forall h :: c.Lawful() && Kept(c, u, h) && password == h.password && LengthOk(password)
                        && HoldsCertificate(certs, uid, u)
                        && Import(c.engine, backup, password, uid) == Some(MaterialFor(uid, u)) ==>
              Imported(c, certs, uid, u, backup, password) == Some(u)
  {
    hide Kept, Imported, Import, Crypto.Lawful;
    forall h | c.Lawful() && Kept(c, u, h) && password == h.password && LengthOk(password)
               && HoldsCertificate(certs, uid, u)
               && Import(c.engine, backup, password, uid) == Some(MaterialFor(uid, u))
      ensures Imported(c, certs, uid, u, backup, password) == Some(u)
    {
      HolderImports(c, certs, uid, u, h, backup);
    }
  }

  /** An export needs the same, and is then the codec's export of the row. */
  lemma ExportIff(c: Crypto, certs: Registry, uid: string, u: User, password: Bytes, salt: Bytes, nonce: Bytes,
                  pem: Bytes)
    ensures ExportFile(c, certs, uid, u, password, salt, nonce) == Some(pem) <==>
              && LengthOk(password) && c.authHash(password, u.saltA) == u.authHash
              && u.certSerial in certs && certs[u.certSerial].subject == uid && certs[u.certSerial].active
              && Export(c.engine, salt, nonce, MaterialFor(uid, u), password) == Exported(pem)
  {
    hide Export;
  }

  // The services, on one user's row and the shared objects

  datatype LoginAnswer = Issued | InvalidCredentials | TooManyFailures | InternalError

  class AccountService {
    const uid: string
    const cache: PrivateKeyUnlockCache
    const table: CertificateTable
    const store: RotationIdempotencyStore
    var user: User

    constructor (uid: string, user: User, cache: PrivateKeyUnlockCache, table: CertificateTable,
                 store: RotationIdempotencyStore)
      ensures this.uid == uid && this.user == user && this.cache == cache && this.table == table && this.store == store
    {
      this.uid, this.user, this.cache, this.table, this.store := uid, user, cache, table, store;
    }

    /** `login`: a wrong password is counted, and locks the account from the fifth on. The key is cached for
        fifteen minutes, and dropped again, with the row as it was, when no token could be issued. */
    method Login(c: Crypto, password: Bytes, now: int, tokensIssued: bool) returns (answer: LoginAnswer)
      requires uid != ""
      modifies this, cache
      ensures var r := LoginResult(c, old(user), password, now);
        && (answer == Issued <==> r.Opened? && tokensIssued)
        && (answer == TooManyFailures <==>
            r.RateLimited? || (r.WrongPassword? && r.user.failedLogins >= LOCKOUT_FAILURES))
        && user == (if r.WrongPassword? || answer == Issued then r.user else old(user))
        && cache.entries == if answer == Issued then old(cache.entries)[uid := Entry(r.key, now + 900)]
                            else if r.Opened? then Without(old(cache.entries), uid) else old(cache.entries)
      ensures answer == Issued ==>
                && old(user).active && Unlocked(old(user), now)
                && c.authHash(password, old(user).saltA) == old(user).authHash
      ensures forall h :: c.Lawful() && Kept(c, old(user), h) && LengthOk(password) && password == h.password
                          && old(user).active && Unlocked(old(user), now) && tokensIssued ==>
                answer == Issued && user == old(user).(failedLogins := 0, lockedUntil := None)
                && cache.entries == old(cache.entries)[uid := Entry(h.sk, now + 900)]
      ensures old(user).active && Unlocked(old(user), now) && LengthOk(password)
              && c.authHash(password, old(user).saltA) != old(user).authHash ==>
                && answer != Issued && user.failedLogins == old(user).failedLogins + 1
                && cache.entries == old(cache.entries)
    {
      LoginOpensIff(c, user, password, now);
      HoldersLogIn(c, user, password, now);
      hide Kept, Crypto.Lawful;
      if !PasswordOk(password) || !user.active { return InvalidCredentials; }
      if user.lockedUntil.Some? && user.lockedUntil.value > now { return TooManyFailures; }
      if c.authHash(password, user.saltA) != user.authHash {
        var count := user.failedLogins + 1;
        var lock := if count >= LOCKOUT_FAILURES then Some(now + LOCKOUT) else user.lockedUntil;
        user := user.(failedLogins := count, lockedUntil := lock);
        return if user.failedLogins >= LOCKOUT_FAILURES then TooManyFailures else InvalidCredentials;
      }
      var key := Unwrap(c, password, user.encSk);
      if key.None? || key.value == [] { return InternalError; }
      var before := user;
      user := user.(failedLogins := 0);
      user := user.(lockedUntil := None);
      var cached := cache.Put(uid, key.value, now + 900);
      if !tokensIssued {
        user := before;
        cache.Delete(uid);
        return InternalError;
      }
      return Issued;
    }

    method Unwrap(c: Crypto, password: Bytes, encSk: Bytes) returns (sk: Option<Bytes>)
      ensures sk == Open(c, password, user.saltK, encSk)
    {
      var key := c.kek(password, user.saltK);
      if key.None? { return None; }
      var s := ParseWrapped(encSk);
      if s.None? { return None; }
      return c.engine.decrypt(key.value, s.value.nonce, s.value.ciphertext, [], s.value.tag);
    }

    method MakeWrapped(c: Crypto, password: Bytes, saltK: Bytes, sk: Bytes, nonce: Bytes) returns (encSk: Option<Bytes>)
      ensures encSk == Wrap(c, password, saltK, sk, nonce)
    {
      var key := c.kek(password, saltK);
      if key.None? { return None; }
      var s := c.engine.encrypt(key.value, sk, [], nonce);
      if s.None? { return None; }
      return Some(PackWrapped(s.value));
    }

    /** `change`, as one transaction. */
    method Change(c: Crypto, current: Bytes, next: Bytes, d: Draw) returns (ok: bool)
      modifies this, cache
      ensures var t := Changed(c, old(user), current, next, d);
        && (ok <==> t.Some?)
        && user == (if ok then t.value else old(user))
        && cache.entries == if ok then Without(old(cache.entries), uid) else old(cache.entries)
      ensures ok ==> c.authHash(current, old(user).saltA) == old(user).authHash
                     && c.authHash(next, user.saltA) == user.authHash
      ensures forall h :: c.Lawful() && Kept(c, old(user), h) && current == h.password && old(user).active
                          && LengthOk(current) && LengthOk(next) && current != next && FreshSalts(old(user), d)
                          && Wrap(c, next, d.saltK, h.sk, d.nonce).Some? ==>
                ok
    {
      HoldersChange(c, user, current, next, d);
      if Changed(c, user, current, next, d).Some? { ChangeNeedsPassword(c, user, current, next, d); }
      hide Kept, Crypto.Lawful;
      if !PasswordOk(current) || !PasswordOk(next) || current == next { return false; }
      if !user.active || c.authHash(current, user.saltA) != user.authHash { return false; }
      var sk := Unwrap(c, current, user.encSk);
      if sk.None? || sk.value == [] { return false; }
      if d.saltA == user.saltA || d.saltA == user.saltK { return false; }
      if d.saltK == user.saltA || d.saltK == user.saltK || d.saltK == d.saltA { return false; }
      var authHash := c.authHash(next, d.saltA);
      var encSk := MakeWrapped(c, next, d.saltK, sk.value, d.nonce);
      if encSk.None? { return false; }
      user := user.(saltA := d.saltA);
      user := user.(authHash := authHash);
      user := user.(saltK := d.saltK);
      user := user.(encSk := encSk.value);
      cache.Delete(uid);
      return true;
    }

    /** `rotate`, as one transaction inside the reservation of its idempotency key. */
    method Rotate(c: Crypto, key: string, password: Bytes, d: Draw, serial: string) returns (ok: bool)
      modifies this, cache, table, store
      ensures var t := Rotated(c, old(table.certs), uid, old(user), password, d, serial);
        && (ok <==> RotationKeyOk(key) && (uid, key) !in old(store.completed) && t.Some?)
        && user == (if ok then t.value else old(user))
        && cache.entries == (if ok then Without(old(cache.entries), uid) else old(cache.entries))
        && table.certs == if ok then Reissued(old(table.certs), uid, old(user), t.value) else old(table.certs)
      ensures if ok then CompletedTo(old(store.completed), store.completed, (uid, key))
              else store.completed == old(store.completed)
      ensures ok ==> c.authHash(password, old(user).saltA) == old(user).authHash
                     && CertificateInOrder(old(table.certs), uid, old(user))
                     && HoldsCertificate(table.certs, uid, user) && !HoldsCertificate(table.certs, uid, old(user))
      ensures forall h :: c.Lawful() && Kept(c, old(user), h) && password == h.password && LengthOk(password)
                          && CertificateInOrder(old(table.certs), uid, old(user)) && serial !in old(table.certs)
                          && 16 <= |key| <= 128 && (uid, key) !in old(store.completed)
                          && Wrap(c, password, d.saltK, d.sk, d.nonce).Some? ==>
                ok
    {
      HoldersRotate(c, table.certs, uid, user, password, d, serial);
      if Rotated(c, table.certs, uid, user, password, d, serial).Some? {
        RotationNeedsPassword(c, table.certs, uid, user, password, d, serial);
      }
      hide Kept, Crypto.Lawful, CertificateInOrder;
      if !(16 <= |key| <= 128) || !PasswordOk(password) || (uid, key) in store.completed { return false; }
      if user.certSerial !in table.certs { return false; }
      var held := table.certs[user.certSerial];
      if held.subject != uid || !held.identity || !held.active { return false; }
      if c.authHash(password, user.saltA) != user.authHash { return false; }
      var sk := Unwrap(c, password, user.encSk);
      if sk.None? || |sk.value| != 32 || !c.csr(sk.value, user.pubkey) { return false; }
      var encSk := MakeWrapped(c, password, d.saltK, d.sk, d.nonce);
      if encSk.None? || serial in table.certs { return false; }
      var oldSerial := user.certSerial;
      user := user.(saltA := d.saltA, authHash := c.authHash(password, d.saltA));
      user := user.(saltK := d.saltK, encSk := encSk.value);
      user := user.(pubkey := c.publicKey(d.sk));
      table.Record(serial, Certificate(uid, user.pubkey, true, true));
      user := user.(certSerial := serial);
      table.Revoke(oldSerial);
      cache.Delete(uid);
      store.Complete((uid, key));
      return true;
    }

    /** `import_backup`, as one transaction, through the codec's own import. */
    method ImportFile(c: Crypto, backup: Bytes, password: Bytes) returns (ok: bool)
      modifies this, cache
      ensures var t := Imported(c, table.certs, uid, old(user), backup, password);
        && (ok <==> t.Some?)
        && user == (if ok then t.value else old(user))
        && cache.entries == if ok then Without(old(cache.entries), uid) else old(cache.entries)
      ensures ok ==> c.authHash(password, user.saltA) == user.authHash && HoldsCertificate(table.certs, uid, user)
                     && Import(c.engine, backup, password, uid).Some?
                     && user == old(user).(encSk := Import(c.engine, backup, password, uid).value.encryptedPrivateKey)
      ensures forall h :: c.Lawful() && Kept(c, old(user), h) && password == h.password && LengthOk(password)
                          && HoldsCertificate(table.certs, uid, old(user))
                          && Import(c.engine, backup, password, uid) == Some(MaterialFor(uid, old(user))) ==>
                ok && user == old(user)
    {
      HoldersImport(c, table.certs, uid, user, backup, password);
      if Imported(c, table.certs, uid, user, backup, password).Some? {
        ImportNeedsPassword(c, table.certs, uid, user, backup, password);
      }
      hide Kept, Crypto.Lawful;
      hide Import;
      if !PasswordOk(password) || user.certSerial !in table.certs { return false; }
      var held := table.certs[user.certSerial];
      if held.subject != uid || !held.active || c.authHash(password, user.saltA) != user.authHash { return false; }
      var restored := ImportBackup(c.engine, backup, password, uid);
      if restored.None? { return false; }
      var m := restored.value;
      if m.role != user.role || m.certificateSerial != user.certSerial { return false; }
      if m.publicKey != user.pubkey || m.saltK != user.saltK { return false; }
      var sk := Unwrap(c, password, m.encryptedPrivateKey);
      if sk.None? || |sk.value| != 32 || !c.csr(sk.value, user.pubkey) { return false; }
      user := user.(encSk := m.encryptedPrivateKey);
      cache.Delete(uid);
      return true;
    }
  }

  // Runs

  /** The rows, the cache, the certificates and the completed rotations; and as history, each user's password
      and private key as last set, every salt ever drawn for wrapping, and every material ever exported. */
  datatype State = State(users: map<string, User>, cache: Cache, certs: Registry, rotations: set<(string, string)>,
                         holders: map<string, Holder>, salts: set<Bytes>, exports: set<Material>)

  datatype Event =
    | Register(uid: string, password: Bytes, d: Draw, serial: string)
    | Login(uid: string, password: Bytes, now: int, tokensIssued: bool)
    | Change(uid: string, current: Bytes, next: Bytes, d: Draw)
    | Rotate(uid: string, key: string, password: Bytes, d: Draw, serial: string, evicted: (string, string))
    | ExportTo(uid: string, password: Bytes, salt: Bytes, nonce: Bytes)
    | ImportFrom(uid: string, backup: Bytes, password: Bytes)
    // An administrator freezes or unfreezes the account, or revokes a certificate.
    | SetActive(uid: string, active: bool)
    | Revoke(serial: string)
    // A lapsed entry removed by a lookup, or one dropped by a request whose transaction then failed.
    | Drop(uid: string)

  const INITIAL := State(map[], map[], map[], {}, map[], {}, {})

  /** Randomness: new wrapping salts were never drawn before; nonces and keys have their proper sizes. */
  predicate GoodDraw(s: State, d: Draw) {
    d.saltK !in s.salts && |d.nonce| == 12 && |d.sk| == 32
  }

  /** The backup is an honest one: whatever it imports as was once exported. */
  ghost predicate HonestBackup(c: Crypto, s: State, backup: Bytes) {
    forall password, uid :: Import(c.engine, backup, password, uid).Some? ==>
                              Import(c.engine, backup, password, uid).value in s.exports
  }

  ghost predicate Enabled(c: Crypto, s: State, e: Event) {
    match e
    case Register(uid, password, d, serial) => uid !in s.users && GoodDraw(s, d)
    case Change(uid, current, next, d) => GoodDraw(s, d)
    case Rotate(uid, key, password, d, serial, evicted) =>
      GoodDraw(s, d) && (|s.rotations| >= MAX_ROTATIONS ==> evicted in s.rotations)
    case ImportFrom(uid, backup, password) => HonestBackup(c, s, backup)
    case _ => true
  }

  /** A new row with a newly wrapped key. */
  function Rewrap(s: State, uid: string, u: User, holder: Holder): State {
    s.(users := s.users[uid := u], holders := s.holders[uid := holder], salts := s.salts + {u.saltK},
       cache := Without(s.cache, uid))
  }

  function AfterRegister(c: Crypto, s: State, uid: string, password: Bytes, d: Draw, serial: string): State {
    match Registered(c, password, d, serial)
    case None => s
    case Some(u) =>
      if serial in s.certs then s
      else Rewrap(s, uid, u, Holder(password, d.sk))
               .(certs := s.certs[serial := Certificate(uid, u.pubkey, true, true)])
  }

  function AfterLogin(c: Crypto, s: State, uid: string, password: Bytes, now: int, tokensIssued: bool): State {
    if uid !in s.users then s
    else
      match LoginResult(c, s.users[uid], password, now)
      case WrongPassword(u) => s.(users := s.users[uid := u])
      case Opened(u, key) =>
        if tokensIssued then s.(users := s.users[uid := u], cache := s.cache[uid := Entry(key, now + 900)])
        else s.(cache := Without(s.cache, uid))
      case _ => s
  }

  function AfterChange(c: Crypto, s: State, uid: string, current: Bytes, next: Bytes, d: Draw): State {
    if uid !in s.users || uid !in s.holders then s
    else
      match Changed(c, s.users[uid], current, next, d)
      case None => s
      case Some(u) => Rewrap(s, uid, u, Holder(next, s.holders[uid].sk))
  }

  function AfterRotate(c: Crypto, s: State, uid: string, key: string, password: Bytes, d: Draw, serial: string,
                       evicted: (string, string)): State
  {
    if uid !in s.users || !RotationKeyOk(key) || (uid, key) in s.rotations then s
    else
      match Rotated(c, s.certs, uid, s.users[uid], password, d, serial)
      case None => s
      case Some(u) =>
        Rewrap(s, uid, u, Holder(password, d.sk)).(certs := Reissued(s.certs, uid, s.users[uid], u),
                                                   rotations := Completed(s.rotations, (uid, key), evicted))
  }

  function AfterExport(c: Crypto, s: State, uid: string, password: Bytes, salt: Bytes, nonce: Bytes): State {
    if uid in s.users && ExportFile(c, s.certs, uid, s.users[uid], password, salt, nonce).Some?
    then s.(exports := s.exports + {MaterialFor(uid, s.users[uid])})
    else s
  }

  function AfterImport(c: Crypto, s: State, uid: string, backup: Bytes, password: Bytes): State {
    if uid !in s.users then s
    else
      match Imported(c, s.certs, uid, s.users[uid], backup, password)
      case None => s
      case Some(u) => s.(users := s.users[uid := u], cache := Without(s.cache, uid))
  }

  function AfterSetActive(s: State, uid: string, active: bool): State {
    if uid !in s.users then s
    else s.(users := s.users[uid := s.users[uid].(active := active)],
            cache := if s.users[uid].active && !active then Without(s.cache, uid) else s.cache)
  }

  ghost function Next(c: Crypto, s: State, e: Event): State {
    if !Enabled(c, s, e) then s
    else
      match e
      case Register(uid, password, d, serial) => AfterRegister(c, s, uid, password, d, serial)
      case Login(uid, password, now, tokensIssued) => AfterLogin(c, s, uid, password, now, tokensIssued)
      case Change(uid, current, next, d) => AfterChange(c, s, uid, current, next, d)
      case Rotate(uid, key, password, d, serial, evicted) => AfterRotate(c, s, uid, key, password, d, serial, evicted)
      case ExportTo(uid, password, salt, nonce) => AfterExport(c, s, uid, password, salt, nonce)
      case ImportFrom(uid, backup, password) => AfterImport(c, s, uid, backup, password)
      case SetActive(uid, active) => AfterSetActive(s, uid, active)
      case Revoke(serial) => s.(certs := Revoked(s.certs, serial))
      case Drop(uid) => s.(cache := Without(s.cache, uid))
  }

  ghost function Run(c: Crypto, s: State, events: seq<Event>): State
    decreases events
  {
    if events == [] then s else Run(c, Next(c, s, events[0]), events[1..])
  }

  /** A backup with the salt the row has now holds the wrapped key the row has now. */
  predicate Current(m: Material, u: User) {
    m.saltK == u.saltK ==> m.encryptedPrivateKey == u.encSk
  }

  ghost predicate RowsKept(c: Crypto, users: map<string, User>, holders: map<string, Holder>, salts: set<Bytes>) {
    users.Keys == holders.Keys
    && forall uid :: uid in users ==> Kept(c, users[uid], holders[uid]) && users[uid].saltK in salts
  }

  predicate CacheHolds(cache: Cache, holders: map<string, Holder>) {
    forall uid :: uid in cache ==> uid in holders && cache[uid].key == holders[uid].sk
  }

  predicate ExportsCurrent(exports: set<Material>, users: map<string, User>, salts: set<Bytes>) {
    forall m :: m in exports ==> m.saltK in salts && m.userId in users && Current(m, users[m.userId])
  }

  ghost predicate Inv(c: Crypto, s: State) {
    && RowsKept(c, s.users, s.holders, s.salts) && CacheHolds(s.cache, s.holders)
    && ExportsCurrent(s.exports, s.users, s.salts)
  }

  predicate NamesOwn(certs: Registry, uid: string, u: User) {
    && u.certSerial in certs && certs[u.certSerial].identity
    && certs[u.certSerial].subject == uid && certs[u.certSerial].pubkey == u.pubkey
  }

  /** Each row names a certificate of its user for its public key, and no other certificate is active. */
  ghost predicate Certified(s: State) {
    && (forall uid :: uid in s.users ==> NamesOwn(s.certs, uid, s.users[uid]))
    && (forall serial :: serial in s.certs && s.certs[serial].active ==>
          s.certs[serial].subject in s.users && s.users[s.certs[serial].subject].certSerial == serial)
  }

  lemma WrapKept(c: Crypto, password: Bytes, d: Draw, sk: Bytes, u: User)
    requires |d.nonce| == 12 && |sk| == 32 && Wrap(c, password, d.saltK, sk, d.nonce) == Some(u.encSk)
    requires u.saltK == d.saltK && u.authHash == c.authHash(password, u.saltA) && u.pubkey == c.publicKey(sk)
    ensures Kept(c, u, Holder(password, sk))
  {
  }

  /** A changed password wraps the same private key, for the same public key. */
  lemma ChangedKept(c: Crypto, u: User, h: Holder, current: Bytes, next: Bytes, d: Draw)
    requires c.Lawful() && Kept(c, u, h) && |d.nonce| == 12 && Changed(c, u, current, next, d).Some?
    ensures var t := Changed(c, u, current, next, d).value;
      Kept(c, t, Holder(next, h.sk)) && t.pubkey == u.pubkey && t.certSerial == u.certSerial && t.saltK == d.saltK
  {
    hide Wrap, Open;
    WrapOpens(c, h.password, u.saltK, u.encSk, h.sk, current);
    WrapKept(c, next, d, h.sk, Changed(c, u, current, next, d).value);
  }

  lemma RotatedKept(c: Crypto, certs: Registry, uid: string, u: User, password: Bytes, d: Draw, serial: string)
    requires |d.nonce| == 12 && |d.sk| == 32 && Rotated(c, certs, uid, u, password, d, serial).Some?
    ensures var t := Rotated(c, certs, uid, u, password, d, serial).value;
      Kept(c, t, Holder(password, d.sk)) && t.saltK == d.saltK && t.certSerial == serial && serial !in certs
    ensures HoldsCertificate(certs, uid, u) && certs[u.certSerial].identity
  {
    hide Wrap, Open;
    WrapKept(c, password, d, d.sk, Rotated(c, certs, uid, u, password, d, serial).value);
  }

  lemma RegisteredKept(c: Crypto, password: Bytes, d: Draw, serial: string)
    requires |d.nonce| == 12 && |d.sk| == 32 && Registered(c, password, d, serial).Some?
    ensures var t := Registered(c, password, d, serial).value;
      Kept(c, t, Holder(password, d.sk)) && t.saltK == d.saltK && t.certSerial == serial
  {
    hide Wrap;
    WrapKept(c, password, d, d.sk, Registered(c, password, d, serial).value);
  }

  /** The row differs at most in the columns that say who may log in when. */
  predicate SameCustody(u: User, t: User) {
    t == u.(active := t.active, failedLogins := t.failedLogins, lockedUntil := t.lockedUntil)
  }

  /** Login caches the holder's key, even under another password with the same hash, and leaves the wrapped
      key alone. */
  lemma LoginKeeps(c: Crypto, u: User, h: Holder, password: Bytes, now: int)
    requires c.Lawful() && Kept(c, u, h)
    ensures var r := LoginResult(c, u, password, now);
      && (r.Opened? ==> r.key == h.sk)
      && (r.Opened? || r.WrongPassword? ==> SameCustody(u, r.user))
  {
    hide Wrap, Open;
    WrapOpens(c, h.password, u.saltK, u.encSk, h.sk, password);
  }

  /** A successful import of an honest backup leaves the row exactly as it was. */
  lemma ImportChangesNothing(c: Crypto, s: State, uid: string, backup: Bytes, password: Bytes)
    requires Inv(c, s) && uid in s.users && HonestBackup(c, s, backup)
    requires Imported(c, s.certs, uid, s.users[uid], backup, password).Some?
    ensures Imported(c, s.certs, uid, s.users[uid], backup, password).value == s.users[uid]
  {
    hide Open, Kept, Import, HoldsCertificate;
    var m := Import(c.engine, backup, password, uid).value;
    assert m.userId == uid by { ImportAuthentic(c.engine, backup, password, uid, m); }
    assert m in s.exports;
  }

  /** Users and the history of salts and exports only grow. */
  ghost predicate Grows(s: State, t: State) {
    s.users.Keys <= t.users.Keys && s.salts <= t.salts && s.exports <= t.exports
  }

  /** A salt that was drawn before, but is not the row's, never becomes the row's again. */
  ghost predicate SaltsMoveOn(s: State, t: State) {
    forall uid, salt :: uid in s.users && salt in s.salts && salt != s.users[uid].saltK ==>
                          uid in t.users && salt != t.users[uid].saltK
  }

  lemma RewrapSafe(c: Crypto, s: State, t: State, uid: string, u: User, holder: Holder)
    requires Inv(c, s) && u.saltK !in s.salts && Kept(c, u, holder)
    requires t == Rewrap(s, uid, u, holder).(certs := t.certs, rotations := t.rotations)
    ensures Inv(c, t) && Grows(s, t) && SaltsMoveOn(s, t)
  {
    hide Kept;
  }

  lemma SameCustodySafe(c: Crypto, s: State, t: State, uid: string, u: User)
    requires Inv(c, s) && uid in s.users && SameCustody(s.users[uid], u)
    requires t == s.(users := s.users[uid := u], cache := t.cache) && CacheHolds(t.cache, s.holders)
    ensures Inv(c, t) && Grows(s, t) && SaltsMoveOn(s, t)
  {
    hide Kept, RowsKept, CacheHolds, ExportsCurrent, SaltsMoveOn, SameCustody, Current;
    HoldersMatch(c, s, uid);
    KeptAlike(c, s.users[uid], u, s.holders[uid]);
    AlikeRows(c, s.users, s.holders, s.salts, uid, u);
    AlikeExports(s.exports, s.users, s.salts, uid, u);
    AlikeSalts(s, t, uid, u);
  }

  lemma HoldersMatch(c: Crypto, s: State, uid: string)
    requires Inv(c, s)
    ensures uid in s.users <==> uid in s.holders
  {
  }

  lemma AlikeRows(c: Crypto, users: map<string, User>, holders: map<string, Holder>, salts: set<Bytes>, uid: string,
                  u: User)
    requires RowsKept(c, users, holders, salts) && uid in users && uid in holders && u.saltK == users[uid].saltK
    requires Kept(c, u, holders[uid]) <==> Kept(c, users[uid], holders[uid])
    ensures RowsKept(c, users[uid := u], holders, salts)
  {
    hide Kept;
  }

  lemma AlikeSalts(s: State, t: State, uid: string, u: User)
    requires uid in s.users && u.saltK == s.users[uid].saltK && t.users == s.users[uid := u]
    ensures SaltsMoveOn(s, t)
  {
  }

  lemma AlikeExports(exports: set<Material>, users: map<string, User>, salts: set<Bytes>, uid: string, u: User)
    requires ExportsCurrent(exports, users, salts)
    requires uid in users ==> u.saltK == users[uid].saltK && u.encSk == users[uid].encSk
    ensures ExportsCurrent(exports, users[uid := u], salts)
  {
  }

  lemma KeptAlike(c: Crypto, u: User, t: User, h: Holder)
    requires SameCustody(u, t)
    ensures t.saltK == u.saltK && t.encSk == u.encSk
    ensures Kept(c, t, h) <==> Kept(c, u, h)
  {
  }

  /** What a step keeps: the invariant, what only grows, and that abandoned salts do not return. */
  ghost predicate StepOk(c: Crypto, s: State, t: State) {
    Inv(c, t) && Grows(s, t) && SaltsMoveOn(s, t)
  }

  lemma LoginSafe(c: Crypto, s: State, uid: string, password: Bytes, now: int, tokensIssued: bool)
    requires c.Lawful() && Inv(c, s)
    ensures StepOk(c, s, AfterLogin(c, s, uid, password, now, tokensIssued))
  {
    hide Kept, LoginResult, Crypto.Lawful;
    if uid in s.users {
      LoginKeeps(c, s.users[uid], s.holders[uid], password, now);
      var r := LoginResult(c, s.users[uid], password, now);
      if r.WrongPassword? || (r.Opened? && tokensIssued) {
        SameCustodySafe(c, s, AfterLogin(c, s, uid, password, now, tokensIssued), uid, r.user);
      }
    }
  }

  lemma RegisterSafe(c: Crypto, s: State, uid: string, password: Bytes, d: Draw, serial: string)
    requires Inv(c, s) && GoodDraw(s, d)
    ensures StepOk(c, s, AfterRegister(c, s, uid, password, d, serial))
  {
    hide Kept, Registered, Inv, Rewrap;
    if Registered(c, password, d, serial).Some? && serial !in s.certs {
      RegisteredKept(c, password, d, serial);
      RewrapSafe(c, s, AfterRegister(c, s, uid, password, d, serial), uid, Registered(c, password, d, serial).value,
                 Holder(password, d.sk));
    } else {
      Unmoved(s);
    }
  }

  lemma ChangeSafe(c: Crypto, s: State, uid: string, current: Bytes, next: Bytes, d: Draw)
    requires c.Lawful() && Inv(c, s) && GoodDraw(s, d)
    ensures StepOk(c, s, AfterChange(c, s, uid, current, next, d))
  {
    hide Kept, Changed, Rewrap, Crypto.Lawful;
    if uid in s.users && Changed(c, s.users[uid], current, next, d).Some? {
      ChangedKept(c, s.users[uid], s.holders[uid], current, next, d);
      RewrapSafe(c, s, AfterChange(c, s, uid, current, next, d), uid, Changed(c, s.users[uid], current, next, d).value,
                 Holder(next, s.holders[uid].sk));
    }
  }

  lemma RotateSafe(c: Crypto, s: State, uid: string, key: string, password: Bytes, d: Draw, serial: string,
                   evicted: (string, string))
    requires Inv(c, s) && GoodDraw(s, d)
    ensures StepOk(c, s, AfterRotate(c, s, uid, key, password, d, serial, evicted))
  {
    hide Kept, Rotated, Rewrap, Inv, Completed, Reissued;
    var t := AfterRotate(c, s, uid, key, password, d, serial, evicted);
    if t != s {
      RotatedKept(c, s.certs, uid, s.users[uid], password, d, serial);
      RewrapSafe(c, s, t, uid, Rotated(c, s.certs, uid, s.users[uid], password, d, serial).value,
                 Holder(password, d.sk));
    } else {
      Unmoved(s);
    }
  }

  lemma ImportSafe(c: Crypto, s: State, uid: string, backup: Bytes, password: Bytes)
    requires Inv(c, s) && HonestBackup(c, s, backup)
    ensures StepOk(c, s, AfterImport(c, s, uid, backup, password))
  {
    hide Kept, Imported, HonestBackup;
    if uid in s.users && Imported(c, s.certs, uid, s.users[uid], backup, password).Some? {
      ImportChangesNothing(c, s, uid, backup, password);
    }
  }

  lemma SetActiveSafe(c: Crypto, s: State, uid: string, active: bool)
    requires Inv(c, s)
    ensures StepOk(c, s, AfterSetActive(s, uid, active))
  {
    hide Kept;
    if uid in s.users { SameCustodySafe(c, s, AfterSetActive(s, uid, active), uid, s.users[uid].(active := active)); }
  }

  lemma Unmoved(s: State)
    ensures Grows(s, s) && SaltsMoveOn(s, s)
  {
  }

  lemma NextSafe(c: Crypto, s: State, e: Event)
    requires c.Lawful() && Inv(c, s)
    ensures StepOk(c, s, Next(c, s, e))
  {
    hide Kept, AfterRegister, AfterLogin, AfterChange, AfterRotate, AfterImport, AfterSetActive;
    hide ExportFile, HonestBackup, Crypto.Lawful;
    if Enabled(c, s, e) {
      match e
      case Register(uid, password, d, serial) => RegisterSafe(c, s, uid, password, d, serial);
      case Login(uid, password, now, tokensIssued) => LoginSafe(c, s, uid, password, now, tokensIssued);
      case Change(uid, current, next, d) => ChangeSafe(c, s, uid, current, next, d);
      case Rotate(uid, key, password, d, serial, evicted) => RotateSafe(c, s, uid, key, password, d, serial, evicted);
      case ExportTo(uid, password, salt, nonce) =>
      case ImportFrom(uid, backup, password) => ImportSafe(c, s, uid, backup, password);
      case SetActive(uid, active) => SetActiveSafe(c, s, uid, active);
      case Revoke(serial) =>
      case Drop(uid) =>
    }
  }

  // Certificates

  lemma RegisterCertified(c: Crypto, s: State, uid: string, password: Bytes, d: Draw, serial: string)
    requires Certified(s) && uid !in s.users && GoodDraw(s, d)
    ensures Certified(AfterRegister(c, s, uid, password, d, serial))
  {
    hide Registered, Kept;
    if Registered(c, password, d, serial).Some? { RegisteredKept(c, password, d, serial); }
  }

  lemma RotateCertified(c: Crypto, s: State, uid: string, key: string, password: Bytes, d: Draw, serial: string,
                        evicted: (string, string))
    requires Certified(s) && GoodDraw(s, d)
    ensures Certified(AfterRotate(c, s, uid, key, password, d, serial, evicted))
  {
    hide Rotated, Kept, Completed;
    if uid in s.users && Rotated(c, s.certs, uid, s.users[uid], password, d, serial).Some? {
      RotatedKept(c, s.certs, uid, s.users[uid], password, d, serial);
    }
  }

  lemma CertifiedAlike(s: State, t: State, uid: string, u: User)
    requires Certified(s) && uid in s.users && u.certSerial == s.users[uid].certSerial
    requires u.pubkey == s.users[uid].pubkey
    requires t.certs == s.certs && t.users == s.users[uid := u]
    ensures Certified(t)
  {
  }

  lemma LoginCertified(c: Crypto, s: State, uid: string, password: Bytes, now: int, tokensIssued: bool)
    requires c.Lawful() && Inv(c, s) && Certified(s)
    ensures Certified(AfterLogin(c, s, uid, password, now, tokensIssued))
  {
    hide Kept, LoginResult, Crypto.Lawful;
    if uid in s.users {
      LoginKeeps(c, s.users[uid], s.holders[uid], password, now);
      var r := LoginResult(c, s.users[uid], password, now);
      if r.WrongPassword? || (r.Opened? && tokensIssued) {
        CertifiedAlike(s, AfterLogin(c, s, uid, password, now, tokensIssued), uid, r.user);
      }
    }
  }

  lemma NextCertified(c: Crypto, s: State, e: Event)
    requires c.Lawful() && Inv(c, s) && Certified(s)
    ensures Certified(Next(c, s, e))
  {
    hide Kept, AfterRegister, AfterRotate, AfterLogin, ExportFile, Changed, Imported;
    hide HonestBackup, Crypto.Lawful, Revoked, Certified;
    if Enabled(c, s, e) {
      match e
      case Register(uid, password, d, serial) => RegisterCertified(c, s, uid, password, d, serial);
      case Rotate(uid, key, password, d, serial, evicted) =>
        RotateCertified(c, s, uid, key, password, d, serial, evicted);
      case Login(uid, password, now, tokensIssued) => LoginCertified(c, s, uid, password, now, tokensIssued);
      case Change(uid, current, next, d) =>
        if uid in s.users && Changed(c, s.users[uid], current, next, d).Some? {
          ChangedKept(c, s.users[uid], s.holders[uid], current, next, d);
          CertifiedAlike(s, Next(c, s, e), uid, Changed(c, s.users[uid], current, next, d).value);
        }
      case ImportFrom(uid, backup, password) =>
        if uid in s.users && Imported(c, s.certs, uid, s.users[uid], backup, password).Some? {
          ImportChangesNothing(c, s, uid, backup, password);
          CertifiedAlike(s, Next(c, s, e), uid, s.users[uid]);
        }
      case ExportTo(uid, password, salt, nonce) => StillCertified(s, Next(c, s, e));
      case SetActive(uid, active) =>
        if uid in s.users { CertifiedAlike(s, Next(c, s, e), uid, s.users[uid].(active := active)); }
      case Revoke(serial) => RevokeCertified(s, serial);
      case Drop(uid) => StillCertified(s, Next(c, s, e));
    }
  }

  lemma StillCertified(s: State, t: State)
    requires Certified(s) && t.users == s.users && t.certs == s.certs
    ensures Certified(t)
  {
  }

  lemma RevokeCertified(s: State, serial: string)
    requires Certified(s)
    ensures Certified(s.(certs := Revoked(s.certs, serial)))
  {
  }

  lemma {:induction false} RunCertified(c: Crypto, s: State, events: seq<Event>)
    requires c.Lawful() && Inv(c, s) && Certified(s)
    ensures Certified(Run(c, s, events))
    decreases events
  {
    hide Inv, Crypto.Lawful, Next, Certified, Grows, SaltsMoveOn;
    if events != [] {
      NextSafe(c, s, events[0]);
      NextCertified(c, s, events[0]);
      RunCertified(c, Next(c, s, events[0]), events[1..]);
    }
  }

  lemma {:induction false} RunSafe(c: Crypto, s: State, events: seq<Event>)
    requires c.Lawful() && Inv(c, s)
    ensures Inv(c, Run(c, s, events)) && Grows(s, Run(c, s, events)) && SaltsMoveOn(s, Run(c, s, events))
    decreases events
  {
    hide Inv, Crypto.Lawful, Next;
    if events == [] {
      Unmoved(s);
    } else {
      NextSafe(c, s, events[0]);
      RunSafe(c, Next(c, s, events[0]), events[1..]);
      MovesChain(s, Next(c, s, events[0]), Run(c, s, events));
    }
  }

  lemma MovesChain(s: State, t: State, u: State)
    requires Grows(s, t) && Grows(t, u) && SaltsMoveOn(s, t) && SaltsMoveOn(t, u)
    ensures Grows(s, u) && SaltsMoveOn(s, u)
  {
  }

  // Main results

  /** Some run from the empty state ends here. */
  ghost predicate Reachable(c: Crypto, s: State) {
    exists events :: s == Run(c, INITIAL, events)
  }

  lemma InitialOk(c: Crypto)
    ensures Inv(c, INITIAL)
  {
  }

  lemma ReachableOk(c: Crypto, s: State)
    requires c.Lawful() && Reachable(c, s)
    ensures Inv(c, s)
  {
    hide Inv, Run, Crypto.Lawful;
    var events :| s == Run(c, INITIAL, events);
    InitialOk(c);
    RunSafe(c, INITIAL, events);
  }

  /** In every run, a user's wrapped key opens under the password last set, and only to the private key of the
      public key in the row; and an unlock-cache entry, lapsed or not, is that same key. */
  lemma CustodyHolds(c: Crypto, s: State, uid: string, password: Bytes)
    requires c.Lawful() && Reachable(c, s) && uid in s.users
    ensures uid in s.holders
    ensures var u, h := s.users[uid], s.holders[uid];
      && Open(c, h.password, u.saltK, u.encSk) == Some(h.sk) && c.publicKey(h.sk) == u.pubkey
      && (Open(c, password, u.saltK, u.encSk) == None || Open(c, password, u.saltK, u.encSk) == Some(h.sk))
      && (uid in s.cache ==> s.cache[uid].key == h.sk)
      && Authenticates(c, u, h.password)
  {
    hide Reachable, Open, Wrap, Wraps, Crypto.Lawful;
    ReachableOk(c, s);
    WrapOpens(c, s.holders[uid].password, s.users[uid].saltK, s.users[uid].encSk, s.holders[uid].sk, password);
  }

  /** Changing the password keeps the private key and its certificate: the row opens to the same key as before,
      now under the new password. */
  lemma ChangeKeepsKey(c: Crypto, s: State, uid: string, current: Bytes, next: Bytes, d: Draw)
    requires c.Lawful() && Reachable(c, s) && uid in s.users && GoodDraw(s, d)
    requires Changed(c, s.users[uid], current, next, d).Some?
    ensures uid in s.holders
    ensures var u, h, t := s.users[uid], s.holders[uid], Changed(c, s.users[uid], current, next, d).value;
      && Open(c, next, t.saltK, t.encSk) == Open(c, h.password, u.saltK, u.encSk) == Some(h.sk)
      && t.pubkey == u.pubkey && t.certSerial == u.certSerial && t.saltK != u.saltK
  {
    hide Reachable, Open, Wrap, Wraps, Crypto.Lawful;
    ReachableOk(c, s);
    var u, h := s.users[uid], s.holders[uid];
    var t := Changed(c, u, current, next, d).value;
    ChangedKept(c, u, h, current, next, d);
    WrapOpens(c, h.password, u.saltK, u.encSk, h.sk, next);
    WrapOpens(c, next, t.saltK, t.encSk, h.sk, next);
  }

  predicate Rewraps(e: Event, uid: string) {
    (e.Change? || e.Rotate?) && e.uid == uid
  }

  lemma RewrapDrawsSalt(c: Crypto, s: State, e: Event, uid: string)
    requires c.Lawful() && Inv(c, s) && uid in s.users && Rewraps(e, uid) && Next(c, s, e) != s
    ensures uid in Next(c, s, e).users && Next(c, s, e).users[uid].saltK !in s.salts
  {
    hide Kept, Changed, Rotated, Imported, Registered, LoginResult, ExportFile, HonestBackup, Crypto.Lawful;
    match e
    case Change(uid, current, next, d) =>
      if Changed(c, s.users[uid], current, next, d).Some? {
        ChangedKept(c, s.users[uid], s.holders[uid], current, next, d);
      }
    case Rotate(uid, key, password, d, serial, evicted) =>
      if Rotated(c, s.certs, uid, s.users[uid], password, d, serial).Some? {
        RotatedKept(c, s.certs, uid, s.users[uid], password, d, serial);
      }
  }

  /** A backup exported before a password change or a rotation is rejected ever after, with any password. */
  lemma OldBackupRejected(c: Crypto, s: State, e: Event, after: seq<Event>, uid: string, backup: Bytes, password: Bytes)
    requires c.Lawful() && Reachable(c, s) && uid in s.users && HonestBackup(c, s, backup)
    requires Rewraps(e, uid) && Next(c, s, e) != s
    ensures var t := Run(c, Next(c, s, e), after);
      uid in t.users && Imported(c, t.certs, uid, t.users[uid], backup, password) == None
  {
    hide Reachable, Run, Next, Imported, Kept, Crypto.Lawful, HonestBackup;
    var n := Next(c, s, e);
    ReachableOk(c, s);
    NextSafe(c, s, e);
    RewrapDrawsSalt(c, s, e, uid);
    RunSafe(c, n, after);
    hide Inv, Grows, SaltsMoveOn;
    EarlierBackupRejected(c, s, n, Run(c, n, after), uid, backup, password);
  }

  lemma EarlierBackupRejected(c: Crypto, s: State, n: State, t: State, uid: string, backup: Bytes, password: Bytes)
    requires Inv(c, s) && Grows(s, n) && SaltsMoveOn(n, t) && HonestBackup(c, s, backup)
    requires uid in n.users && n.users[uid].saltK !in s.salts && Grows(n, t)
    ensures uid in t.users && Imported(c, t.certs, uid, t.users[uid], backup, password) == None
  {
    hide Imported, Kept;
    OtherSaltRejected(c, t.certs, uid, t.users[uid], backup, password);
    if Import(c.engine, backup, password, uid).Some? {
      var m := Import(c.engine, backup, password, uid).value;
      assert m in s.exports;
      assert m.saltK in n.salts && m.saltK != n.users[uid].saltK;
    }
  }

  lemma OtherSaltRejected(c: Crypto, certs: Registry, uid: string, u: User, backup: Bytes, password: Bytes)
    ensures var m := Import(c.engine, backup, password, uid);
      m.None? || m.value.saltK != u.saltK ==> Imported(c, certs, uid, u, backup, password) == None
  {
  }

  /** A backup made with the current password restores the row, as long as the row has not been rewrapped; and what
      it imports as goes on record as exported. */
  lemma FreshBackupRestores(c: Crypto, s: State, uid: string, salt: Bytes, nonce: Bytes)
    requires c.Lawful() && Reachable(c, s) && uid in s.users && uid in s.holders && |nonce| == 12
    requires ExportFile(c, s.certs, uid, s.users[uid], s.holders[uid].password, salt, nonce).Some?
    ensures var u, p := s.users[uid], s.holders[uid].password;
      var pem := ExportFile(c, s.certs, uid, u, p, salt, nonce).value;
      && Imported(c, s.certs, uid, u, pem, p) == Some(u)
      && Import(c.engine, pem, p, uid).Some?
      && Import(c.engine, pem, p, uid).value in Next(c, s, ExportTo(uid, p, salt, nonce)).exports
  {
    hide Reachable, ExportFile, Imported, Import, Crypto.Lawful, Next, Inv;
    KeptInRun(c, s, uid);
    ExportRecorded(c, s, uid, s.holders[uid].password, salt, nonce);
    RowRestored(c, s.certs, uid, s.users[uid], s.holders[uid], salt, nonce);
  }

  lemma KeptInRun(c: Crypto, s: State, uid: string)
    requires c.Lawful() && Reachable(c, s) && uid in s.users && uid in s.holders
    ensures Kept(c, s.users[uid], s.holders[uid])
  {
    hide Reachable, Crypto.Lawful, Kept;
    ReachableOk(c, s);
  }

  lemma ExportRecorded(c: Crypto, s: State, uid: string, password: Bytes, salt: Bytes, nonce: Bytes)
    requires uid in s.users && ExportFile(c, s.certs, uid, s.users[uid], password, salt, nonce).Some?
    ensures MaterialFor(uid, s.users[uid]) in Next(c, s, ExportTo(uid, password, salt, nonce)).exports
  {
    hide ExportFile;
  }

  lemma RowRestored(c: Crypto, certs: Registry, uid: string, u: User, h: Holder, salt: Bytes, nonce: Bytes)
    requires c.Lawful() && Kept(c, u, h) && |nonce| == 12 && ExportFile(c, certs, uid, u, h.password, salt, nonce).Some?
    ensures Imported(c, certs, uid, u, ExportFile(c, certs, uid, u, h.password, salt, nonce).value, h.password) ==
              Some(u)
    ensures Import(c.engine, ExportFile(c, certs, uid, u, h.password, salt, nonce).value, h.password, uid) ==
              Some(MaterialFor(uid, u))
  {
    hide Open, Wrap, Wraps, Import, Export;
    ImportExport(c.engine, salt, nonce, MaterialFor(uid, u), h.password);
    WrapOpens(c, h.password, u.saltK, u.encSk, h.sk, h.password);
    assert c.csr(h.sk, c.publicKey(h.sk));
  }

  /** In every run a user has at most one active certificate: the one the row names, for the public key whose
      private key the row wraps. Rotation and revocation leave every other one inactive. */
  lemma OneActiveCertificate(c: Crypto, s: State, serial: string)
    requires c.Lawful() && Reachable(c, s) && serial in s.certs && s.certs[serial].active
    ensures var cert := s.certs[serial];
      && cert.subject in s.users && cert.subject in s.holders && s.users[cert.subject].certSerial == serial
      && cert.pubkey == s.users[cert.subject].pubkey == c.publicKey(s.holders[cert.subject].sk)
  {
    hide Run, Crypto.Lawful, Wraps;
    ReachableOk(c, s);
    var events :| s == Run(c, INITIAL, events);
    InitialOk(c);
    RunCertified(c, INITIAL, events);
  }

  // The cache and frozen accounts

  predicate CacheActive(s: State) {
    forall uid :: uid in s.cache ==> uid in s.users && s.users[uid].active
  }

  lemma NextCacheActive(c: Crypto, s: State, e: Event)
    requires CacheActive(s)
    ensures CacheActive(Next(c, s, e))
  {
    hide Open, Wrap, Import, Export, Reissued, Completed, GoodDraw, HonestBackup;
  }

  lemma {:induction false} RunCacheActive(c: Crypto, s: State, events: seq<Event>)
    requires CacheActive(s)
    ensures CacheActive(Run(c, s, events))
    decreases events
  {
    hide Next, CacheActive;
    if events != [] {
      NextCacheActive(c, s, events[0]);
      RunCacheActive(c, Next(c, s, events[0]), events[1..]);
    }
  }

  /** In every run only active accounts have a key in the cache: freezing one takes its key out, and none gets in
      while it is frozen. */
  lemma FrozenHasNoKey(c: Crypto, events: seq<Event>, uid: string)
    requires uid in Run(c, INITIAL, events).cache
    ensures var s := Run(c, INITIAL, events); uid in s.users && s.users[uid].active
  {
    hide Run;
    RunCacheActive(c, INITIAL, events);
  }

  // The rotation keys

  lemma CompletedOnce(done: set<(string, string)>, pair: (string, string), evicted: (string, string))
    requires |done| <= 2048 && (|done| >= 2048 ==> evicted in done)
    ensures var after := Completed(done, pair, evicted);
      && pair in after && |after| <= 2048 && (|done| < 2048 ==> done <= after) && (pair !in done ==> |done| <= |after|)
  {
    if pair !in done { assert |done - {evicted} + {pair}| == |done - {evicted}| + 1; }
  }

  lemma RotationStep(c: Crypto, s: State, e: Event)
    requires |s.rotations| <= 2048
    ensures var t := Next(c, s, e);
      && |s.rotations| <= |t.rotations| <= 2048
      && (|s.rotations| < 2048 ==> s.rotations <= t.rotations)
      && (e.Rotate? && t != s ==> (e.uid, e.key) !in s.rotations && (e.uid, e.key) in t.rotations)
  {
    hide Rotated, Registered, LoginResult, Changed, Imported, ExportFile, HonestBackup, Completed, GoodDraw;
    if e.Rotate? && Enabled(c, s, e) { CompletedOnce(s.rotations, (e.uid, e.key), e.evicted); }
  }

  /** The store of completed rotations forgets none before it is full. */
  lemma {:induction false} RotationsRemembered(c: Crypto, s: State, events: seq<Event>)
    requires |s.rotations| <= 2048
    ensures var t := Run(c, s, events);
      |s.rotations| <= |t.rotations| <= 2048 && (|t.rotations| < 2048 ==> s.rotations <= t.rotations)
    decreases events
  {
    hide Next;
    if events != [] {
      RotationStep(c, s, events[0]);
      RotationsRemembered(c, Next(c, s, events[0]), events[1..]);
    }
  }

  /** In every run, a rotation key that went through once goes through again only when 2048 rotations are
      on record: until then the second request changes nothing. */
  lemma RotatesOncePerKey(c: Crypto, before: seq<Event>, first: Event, between: seq<Event>, again: Event)
    requires first.Rotate? && again.Rotate? && first.uid == again.uid && first.key == again.key
    requires Next(c, Run(c, INITIAL, before), first) != Run(c, INITIAL, before)
    ensures var t := Run(c, Next(c, Run(c, INITIAL, before), first), between);
      Next(c, t, again) == t || |t.rotations| == 2048
  {
    hide Next, Run;
    var s := Run(c, INITIAL, before);
    RotationsRemembered(c, INITIAL, before);
    RotationStep(c, s, first);
    RotationsRemembered(c, Next(c, s, first), between);
    RotationStep(c, Run(c, Next(c, s, first), between), again);
  }

  // The login lockout

  predicate IsAttempt(e: Event, uid: string) {
    e.Login? && e.uid == uid
  }

  /** The event is a login that counts a wrong password against the user. */
  predicate CountsFailure(c: Crypto, s: State, e: Event, uid: string) {
    IsAttempt(e, uid) && uid in s.users && LoginResult(c, s.users[uid], e.password, e.now).WrongPassword?
  }

  predicate LogsIn(c: Crypto, s: State, e: Event, uid: string) {
    IsAttempt(e, uid) && uid in s.users && e.tokensIssued && LoginResult(c, s.users[uid], e.password, e.now).Opened?
  }

  /** How many wrong passwords for the user are counted during these events. */
  ghost function WrongPasswords(c: Crypto, s: State, events: seq<Event>, uid: string): nat
    decreases events
  {
    if events == [] then 0
    else (if CountsFailure(c, s, events[0], uid) then 1 else 0)
         + WrongPasswords(c, Next(c, s, events[0]), events[1..], uid)
  }

  /** The user does not log in during these events. */
  ghost predicate NoLogin(c: Crypto, s: State, events: seq<Event>, uid: string)
    decreases events
  {
    events == [] || (!LogsIn(c, s, events[0], uid) && NoLogin(c, Next(c, s, events[0]), events[1..], uid))
  }

  /** The user's login attempts come in order of their clock readings, within [from, to]. */
  predicate AttemptsWithin(events: seq<Event>, uid: string, from: int, to: int)
    decreases events
  {
    events == [] ||
    (if IsAttempt(events[0], uid) then
        from <= events[0].now <= to && AttemptsWithin(events[1..], uid, events[0].now, to)
     else AttemptsWithin(events[1..], uid, from, to))
  }

  function Lockouts(span: int): (n: int)
    ensures n >= 0
  {
    if span < 0 then 0 else span / LOCKOUT + 1
  }

  /** Wrong passwords that can still be counted from time t up to the end without a login: those that do not
      lock yet, and then one for every lockout that can run out in between. */
  function GuessBudget(u: User, t: int, end: int): int {
    var free := if u.failedLogins < LOCKOUT_FAILURES - 1 then LOCKOUT_FAILURES - 1 - u.failedLogins else 0;
    var at := if LockedOut(u, t) then u.lockedUntil.value else t;
    free + Lockouts(end - at)
  }

  lemma LockoutsMonotone(a: int, b: int)
    requires a <= b
    ensures Lockouts(a) <= Lockouts(b) && (b >= 0 ==> Lockouts(b) == Lockouts(b - LOCKOUT) + 1)
  {
  }

  predicate SameCounter(u: User, t: User) {
    t.failedLogins == u.failedLogins && t.lockedUntil == u.lockedUntil
  }

  /** Every other request leaves the user's counter and lock alone. */
  lemma CounterMoves(c: Crypto, s: State, e: Event, uid: string)
    requires uid in s.users && !LogsIn(c, s, e, uid)
    ensures uid in Next(c, s, e).users
    ensures var u, t := s.users[uid], Next(c, s, e).users[uid];
      if CountsFailure(c, s, e, uid) then t == FailureRecorded(u, e.now) && !LockedOut(u, e.now)
      else SameCounter(u, t)
  {
    hide Changed, Rotated, Imported, Registered, ExportFile, HonestBackup, Crypto.Lawful, Authenticates, Open;
    var u := s.users[uid];
    match e
    case Change(id, current, next, d) => if id == uid { ChangedCounter(c, u, current, next, d); }
    case Rotate(id, key, password, d, serial, evicted) =>
      if id == uid { RotatedCounter(c, s.certs, uid, u, password, d, serial); }
    case ImportFrom(id, backup, password) => if id == uid { ImportedCounter(c, s.certs, uid, u, backup, password); }
    case _ =>
  }

  lemma ChangedCounter(c: Crypto, u: User, current: Bytes, next: Bytes, d: Draw)
    ensures var t := Changed(c, u, current, next, d); t.None? || SameCounter(u, t.value)
  {
  }

  lemma RotatedCounter(c: Crypto, certs: Registry, uid: string, u: User, password: Bytes, d: Draw, serial: string)
    ensures var t := Rotated(c, certs, uid, u, password, d, serial); t.None? || SameCounter(u, t.value)
  {
  }

  lemma ImportedCounter(c: Crypto, certs: Registry, uid: string, u: User, backup: Bytes, password: Bytes)
    ensures var t := Imported(c, certs, uid, u, backup, password); t.None? || SameCounter(u, t.value)
  {
    hide Import;
  }

  lemma GuessBudgetStep(u: User, t: int, now: int, end: int)
    requires t <= now <= end
    ensures GuessBudget(u, now, end) <= GuessBudget(u, t, end)
    ensures !LockedOut(u, now) ==> 1 + GuessBudget(FailureRecorded(u, now), now, end) <= GuessBudget(u, t, end)
  {
    hide Lockouts;
    LockoutsMonotone(end - now, end - t);
    LockoutsMonotone(end - now, end - now);
    if LockedOut(u, t) && !LockedOut(u, now) { LockoutsMonotone(end - now, end - u.lockedUntil.value); }
  }

  lemma {:induction false} WrongPasswordsWithinBudget(c: Crypto, s: State, events: seq<Event>, uid: string, from: int,
                                                      to: int)
    requires uid in s.users && from <= to && AttemptsWithin(events, uid, from, to) && NoLogin(c, s, events, uid)
    ensures WrongPasswords(c, s, events, uid) <= GuessBudget(s.users[uid], from, to)
    decreases events
  {
    hide Next, FailureRecorded, LockedOut, LogsIn;
    if events == [] {
    } else {
      var e, next := events[0], Next(c, s, events[0]);
      CounterMoves(c, s, e, uid);
      var at := if IsAttempt(e, uid) then e.now else from;
      GuessBudgetStep(s.users[uid], from, at, to);
      WrongPasswordsWithinBudget(c, next, events[1..], uid, at, to);
      SameCounterSameBudget(s.users[uid], next.users[uid], at, to);
    }
  }

  lemma SameCounterSameBudget(u: User, t: User, at: int, end: int)
    ensures SameCounter(u, t) ==>
              GuessBudget(u, at, end) == GuessBudget(t, at, end)
    ensures GuessBudget(u, at, end) >= 0
  {
  }

  /** Whatever happens besides, in a window of w seconds in which a user does not log in at most
      5 + floor(w / 10 minutes) wrong passwords are counted against the account. Every further guess is refused
      before the password is looked at. */
  lemma LockoutRateBound(c: Crypto, s: State, window: seq<Event>, uid: string, from: int, w: int)
    requires uid in s.users && w >= 0 && AttemptsWithin(window, uid, from, from + w) && NoLogin(c, s, window, uid)
    ensures WrongPasswords(c, s, window, uid) <= 5 + w / 600
  {
    WrongPasswordsWithinBudget(c, s, window, uid, from, from + w);
    hide WrongPasswords, NoLogin, AttemptsWithin, GuessBudget;
    GuessBudgetBound(s.users[uid], from, w);
  }

  lemma GuessBudgetBound(u: User, from: int, w: int)
    requires w >= 0
    ensures GuessBudget(u, from, from + w) <= LOCKOUT_FAILURES + w / LOCKOUT
  {
    if LockedOut(u, from) { LockoutsMonotone(from + w - u.lockedUntil.value, w); }
  }
}
