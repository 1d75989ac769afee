/** The keyring backup: length-prefixed payload, authenticated container, Base64 and PEM armour. */
module KeyringBackup {
  import opened Bytes
  import opened Pem

  datatype Material = Material(userId: string, role: string, certificateSerial: string,
                               publicKey: Bytes, saltK: Bytes, encryptedPrivateKey: Bytes)

  const BACKUP_SALT_SIZE := 32

  /** b"KRB1", b"CCKB" and b"keyring-backup-v1|" */
  const PAYLOAD_MAGIC: Bytes := [75, 82, 66, 49]
  const OUTER_MAGIC: Bytes := [67, 67, 75, 66]
  const AAD_LABEL: Bytes := [107, 101, 121, 114, 105, 110, 103, 45, 98, 97, 99, 107, 117, 112, 45, 118, 49, 124]

  // ASCII

  predicate IsAscii(s: string) {
    forall c <- s :: c < 128 as char
  }

  function Code(s: string, i: nat): (b: Byte)
    requires IsAscii(s) && i < |s|
  {
    assert s[i] in s;
    s[i] as int
  }

  /** `str.encode("ascii")`, on the strings it accepts. */
  function Ascii(s: string): (b: Bytes)
    requires IsAscii(s)
    ensures |b| == |s|
  {
    seq(|s|, i requires 0 <= i < |s| => Code(s, i))
  }

  /** `bytes.decode("ascii")`. */
  function DecodeAscii(b: Bytes): (s: Option<string>)
    ensures s.Some? <==> forall i :: 0 <= i < |b| ==> b[i] < 128
    ensures s.Some? ==> IsAscii(s.value) && Ascii(s.value) == b
  {
    if forall i :: 0 <= i < |b| ==> b[i] < 128
    then Some(seq(|b|, i requires 0 <= i < |b| => b[i] as char))
    else None
  }

  lemma AsciiInverts(s: string)
    requires IsAscii(s)
    ensures DecodeAscii(Ascii(s)) == Some(s)
  {
    var b := Ascii(s);
    forall i | 0 <= i < |b| ensures b[i] < 128 {
      assert s[i] in s;
    }
    assert DecodeAscii(b).value == s;
  }

  // The payload: six length-prefixed fields

  type Field = v: Bytes | 1 <= |v| <= 65535 witness [0]

  /** `struct.unpack(">H", ...)` of the first two bytes. */
  function Length16(p: Bytes): (n: nat)
    requires |p| >= 2
    ensures n <= 65535
  {
    var hi: nat, lo: nat := p[0], p[1];
    hi * 256 + lo
  }

  function PackField(v: Field): (p: Bytes)
    ensures |p| == |v| + 2
    ensures Length16(p) == |v|
  {
    [|v| / 256, |v| % 256] + v
  }

  function PackFields(fields: seq<Field>): Bytes {
    if fields == [] then [] else PackField(fields[0]) + PackFields(fields[1..])
  }

  /** The fields of a payload that consists of exactly k nonempty ones. */
  function ReadFields(p: Bytes, k: nat): Option<seq<Field>> {
    if k == 0 then if p == [] then Some([]) else None
    else if |p| < 2 then None
    else
      var n := Length16(p);
      if n == 0 || 2 + n > |p| then None
      else
        match ReadFields(p[2 + n..], k - 1)
        case None => None
        case Some(rest) => Some([p[2..2 + n]] + rest)
  }

  /** Reading accepts exactly the packings of k nonempty fields, and inverts them. */
  lemma ReadIffPacked(p: Bytes, k: nat, fields: seq<Field>)
    ensures ReadFields(p, k) == Some(fields) <==> |fields| == k && p == PackFields(fields)
  {
    if ReadFields(p, k) == Some(fields) { ReadIsPacked(p, k); }
    if |fields| == k && p == PackFields(fields) { PackedReads(fields); }
  }

  lemma {:induction false} ReadIsPacked(p: Bytes, k: nat)
    requires ReadFields(p, k).Some?
    ensures |ReadFields(p, k).value| == k && p == PackFields(ReadFields(p, k).value)
  {
    if k > 0 {
      SplitField(p);
      ReadIsPacked(p[2 + Length16(p)..], k - 1);
    }
  }

  lemma {:induction false} PackedReads(fields: seq<Field>)
    ensures ReadFields(PackFields(fields), |fields|) == Some(fields)
  {
    if fields != [] {
      PackedHead(PackFields(fields), fields);
      PackedReads(fields[1..]);
      assert fields == [fields[0]] + fields[1..];
    }
  }

  lemma SplitField(p: Bytes)
    requires |p| >= 2 && 1 <= Length16(p) && 2 + Length16(p) <= |p|
    ensures var n := Length16(p); p == PackField(p[2..2 + n]) + p[2 + n..]
  {
    var n := Length16(p);
    assert p == [p[0], p[1]] + p[2..2 + n] + p[2 + n..];
  }

  lemma PackedHead(p: Bytes, fields: seq<Field>)
    requires fields != [] && p == PackFields(fields)
    ensures |p| >= 2 && Length16(p) == |fields[0]| && 2 + |fields[0]| <= |p|
    ensures p[2..2 + |fields[0]|] == fields[0] && p[2 + |fields[0]|..] == PackFields(fields[1..])
  {
    var v := fields[0];
    assert p == PackField(v) + PackFields(fields[1..]);
    assert p[2..2 + |v|] == v;
  }

  /** What `_validate_material` lets through. */
  predicate Validated(m: Material) {
    && m.userId != ""
    && m.role in {"student", "admin", "teacher"}
    && 1 <= |m.certificateSerial| <= 128
    && |m.publicKey| == 65
    && 16 <= |m.saltK| <= 64
    && m.encryptedPrivateKey != []
  }

  predicate Packable(m: Material) {
    && IsAscii(m.userId) && IsAscii(m.role) && IsAscii(m.certificateSerial)
    && 1 <= |m.userId| <= 65535 && 1 <= |m.role| <= 65535 && 1 <= |m.certificateSerial| <= 65535
    && 1 <= |m.publicKey| <= 65535 && 1 <= |m.saltK| <= 65535 && 1 <= |m.encryptedPrivateKey| <= 65535
  }

  function FieldsOf(m: Material): (f: seq<Field>)
    requires Packable(m)
    ensures |f| == 6
  {
    [Ascii(m.userId), Ascii(m.role), Ascii(m.certificateSerial), m.publicKey, m.saltK, m.encryptedPrivateKey]
  }

  /** `_pack_material` on material without empty fields: None where it raises. */
  function PackMaterial(m: Material): (p: Option<Bytes>) {
    if Packable(m) then Some(PAYLOAD_MAGIC + PackFields(FieldsOf(m))) else None
  }

  function MaterialOf(f: seq<Field>): (m: Option<Material>)
    requires |f| == 6
  {
    match (DecodeAscii(f[0]), DecodeAscii(f[1]), DecodeAscii(f[2]))
    case (Some(userId), Some(role), Some(serial)) => Some(Material(userId, role, serial, f[3], f[4], f[5]))
    case _ => None
  }

  lemma MaterialIffFields(m: Material, f: seq<Field>)
    requires |f| == 6
    ensures MaterialOf(f) == Some(m) <==> Packable(m) && FieldsOf(m) == f
  {
    if Packable(m) && FieldsOf(m) == f {
      AsciiInverts(m.userId);
      AsciiInverts(m.role);
      AsciiInverts(m.certificateSerial);
    }
    if MaterialOf(f) == Some(m) {
      assert FieldsOf(m) == [f[0], f[1], f[2], f[3], f[4], f[5]] == f;
    }
  }

  function Unpack(payload: Bytes): (m: Option<Material>) {
    if PAYLOAD_MAGIC <= payload then
      match ReadFields(payload[4..], 6)
      case None => None
      case Some(f) =>
        ReadIffPacked(payload[4..], 6, f);
        MaterialOf(f)
    else None
  }

  /** Unpacking accepts exactly the images of packing, and inverts it. */
  lemma UnpackIffPacked(payload: Bytes, m: Material)
    ensures Unpack(payload) == Some(m) <==> PackMaterial(m) == Some(payload)
  {
    hide PackFields, ReadFields, Packable, MaterialOf, FieldsOf;
    if PAYLOAD_MAGIC <= payload {
      assert payload == PAYLOAD_MAGIC + payload[4..];
      var r := ReadFields(payload[4..], 6);
      if r.Some? {
        ReadIffPacked(payload[4..], 6, r.value);
        MaterialIffFields(m, r.value);
      }
    }
    if Packable(m) {
      var f := FieldsOf(m);
      assert (PAYLOAD_MAGIC + PackFields(f))[4..] == PackFields(f);
      assert (PAYLOAD_MAGIC + PackFields(f))[..4] == PAYLOAD_MAGIC;
      ReadIffPacked(PackFields(f), 6, f);
      MaterialIffFields(m, f);
    }
  }

  function Prepend(values: seq<Field>, rest: Option<seq<Field>>): Option<seq<Field>> {
    if rest.None? then None else Some(values + rest.value)
  }

  /** Its loop: an offset that advances over the payload, and a list of the values it passes. */
  method ReadValues(payload: Bytes, from: nat) returns (r: Option<seq<Field>>)
    requires from <= |payload|
    ensures r == ReadFields(payload[from..], 6) && (r.Some? ==> |r.value| == 6)
  {
    hide ReadFields, Length16, Prepend;
    var offset := from;
    var values: seq<Field> := [];
    PrependNone(ReadFields(payload[from..], 6));
    for i := 0 to 6
      invariant from <= offset <= |payload| && |values| == i
      invariant ReadFields(payload[from..], 6) == Prepend(values, ReadFields(payload[offset..], 6 - i))
    {
      ReadStep(payload, offset, 5 - i, values);
      if offset + 2 > |payload| { return None; }
      var length := Length16(payload[offset..offset + 2]);
      offset := offset + 2;
      if length == 0 || offset + length > |payload| { return None; }
      values := values + [payload[offset..offset + length]];
      offset := offset + length;
    }
    ReadEnd(payload[offset..], values);
    if offset != |payload| { return None; }
    r := Some(values);
  }

  /** `_unpack_material`. */
  method UnpackMaterial(payload: Bytes) returns (r: Option<Material>)
    ensures r == Unpack(payload)
    ensures forall m :: r == Some(m) <==> PackMaterial(m) == Some(payload)
  {
    forall m ensures Unpack(payload) == Some(m) <==> PackMaterial(m) == Some(payload) {
      UnpackIffPacked(payload, m);
    }
    hide PackMaterial, MaterialOf, ReadFields;
    if !(PAYLOAD_MAGIC <= payload) { return None; }
    var values := ReadValues(payload, |PAYLOAD_MAGIC|);
    if values.None? { return None; }
    r := MaterialOf(values.value);
  }

  lemma PrependNone(r: Option<seq<Field>>)
    ensures Prepend([], r) == r
  {
    if r.Some? { assert [] + r.value == r.value; }
  }

  lemma ReadEnd(p: Bytes, values: seq<Field>)
    ensures Prepend(values, ReadFields(p, 0)) == if p == [] then Some(values) else None
  {
    assert values + [] == values;
  }

  function Cons(v: Field, rest: Option<seq<Field>>): Option<seq<Field>> {
    if rest.None? then None else Some([v] + rest.value)
  }

  lemma PrependCons(values: seq<Field>, v: Field, rest: Option<seq<Field>>)
    ensures Prepend(values, Cons(v, rest)) == Prepend(values + [v], rest)
  {
    if rest.Some? { assert values + ([v] + rest.value) == values + [v] + rest.value; }
  }

  /** One round of the loop, whatever it reads. */
  lemma ReadStep(payload: Bytes, offset: nat, k: nat, values: seq<Field>)
    requires offset <= |payload|
    ensures var all := Prepend(values, ReadFields(payload[offset..], k + 1));
      if offset + 2 > |payload| then all == None
      else
        var n := Length16(payload[offset..offset + 2]);
        if n == 0 || offset + 2 + n > |payload| then all == None
        else all == Prepend(values + [payload[offset + 2..offset + 2 + n]], ReadFields(payload[offset + 2 + n..], k))
  {
    hide *;
    var rest := payload[offset..];
    if offset + 2 > |payload| {
      ReadShort(rest, k, values);
    } else {
      SliceLength(payload, offset);
      var n := Length16(rest);
      if n == 0 || offset + 2 + n > |payload| {
        ReadBad(rest, k, values);
      } else {
        SliceOfDrop(payload, offset, 2, 2 + n);
        ReadOne(rest, k, values);
      }
    }
  }

  lemma ReadShort(p: Bytes, k: nat, values: seq<Field>)
    requires |p| < 2
    ensures Prepend(values, ReadFields(p, k + 1)) == None
  {
  }

  lemma ReadBad(p: Bytes, k: nat, values: seq<Field>)
    requires |p| >= 2 && (Length16(p) == 0 || 2 + Length16(p) > |p|)
    ensures Prepend(values, ReadFields(p, k + 1)) == None
  {
  }

  lemma ReadOne(p: Bytes, k: nat, values: seq<Field>)
    requires |p| >= 2 && 1 <= Length16(p) && 2 + Length16(p) <= |p|
    ensures var n := Length16(p);
      Prepend(values, ReadFields(p, k + 1)) == Prepend(values + [p[2..2 + n]], ReadFields(p[2 + n..], k))
  {
    hide Length16;
    PrependCons(values, p[2..2 + Length16(p)], ReadFields(p[2 + Length16(p)..], k));
  }

  lemma SliceOfDrop(p: Bytes, offset: nat, lo: nat, hi: nat)
    requires lo <= hi && offset + hi <= |p|
    ensures p[offset..][lo..hi] == p[offset + lo..offset + hi] && p[offset..][hi..] == p[offset + hi..]
  {
  }

  lemma SliceLength(p: Bytes, offset: nat)
    requires offset + 2 <= |p|
    ensures Length16(p[offset..]) == Length16(p[offset..offset + 2])
  {
  }

  // The container

  datatype Container = Container(salt: Bytes, nonce: Bytes, tag: Bytes, ciphertext: Bytes)
  {
    predicate Valid() {
      |salt| == BACKUP_SALT_SIZE && |nonce| == 12 && |tag| == 16 && ciphertext != []
    }

    /** Magic, version 1, salt size, then the parts. */
    function Text(): Bytes {
      OUTER_MAGIC + [1, BACKUP_SALT_SIZE] + salt + nonce + tag + ciphertext
    }
  }

  /** The second half of `_from_pem`. */
  function ReadContainer(c: Bytes): (r: Option<Container>) {
    if |c| < 67 || c[..4] != OUTER_MAGIC || c[4] != 1 || c[5] != BACKUP_SALT_SIZE then None
    else Some(Container(c[6..38], c[38..50], c[50..66], c[66..]))
  }

  /** Exactly the images of valid containers are read, and read back as written. */
  lemma ReadContainerIff(c: Bytes, k: Container)
    ensures ReadContainer(c) == Some(k) <==> k.Valid() && c == k.Text()
  {
    if |c| >= 67 && c[..4] == OUTER_MAGIC && c[4] == 1 && c[5] == BACKUP_SALT_SIZE { ContainerParts(c); }
    if k.Valid() { TextParts(k); }
  }

  lemma ContainerParts(c: Bytes)
    requires |c| >= 67 && c[..4] == OUTER_MAGIC && c[4] == 1 && c[5] == BACKUP_SALT_SIZE
    ensures c == Container(c[6..38], c[38..50], c[50..66], c[66..]).Text()
  {
    assert c[4..6] == [1, BACKUP_SALT_SIZE];
    assert c == c[..4] + c[4..6] + c[6..38] + c[38..50] + c[50..66] + c[66..];
  }

  lemma TextParts(k: Container)
    requires k.Valid()
    ensures ReadContainer(k.Text()) == Some(k)
  {
    var c := k.Text();
    assert c[..4] == OUTER_MAGIC && c[4..6] == [1, BACKUP_SALT_SIZE];
    assert c[4] == c[4..6][0] && c[5] == c[4..6][1];
    assert c[6..38] == k.salt;
    assert c[38..50] == k.nonce;
    assert c[50..66] == k.tag;
    assert c[66..] == k.ciphertext;
  }

  /** `_from_pem`. */
  function FromPem(backup: Bytes): Option<Container> {
    match Dearmour(backup)
    case None => None
    case Some(c) => ReadContainer(c)
  }

  // Export and import

  datatype Sealed = Sealed(nonce: Bytes, ciphertext: Bytes, tag: Bytes)

  /** The engine's key derivation (password, salt) and authenticated cipher. Each may fail; the nonce that
      encryption draws is its last argument. */
  datatype Engine = Engine(kdf: (Bytes, Bytes) -> Option<Bytes>,
                           encrypt: (Bytes, Bytes, Bytes, Bytes) -> Option<Sealed>,
                           decrypt: (Bytes, Bytes, Bytes, Bytes, Bytes) -> Option<Bytes>)
  {
    /** Ciphertexts are as long as their plaintexts, and decrypt to them under the same key and data. */
    ghost predicate Lawful() {
      forall key, plain, aad, nonce :: encrypt(key, plain, aad, nonce).Some? ==>
        var s := encrypt(key, plain, aad, nonce).value;
        s.nonce == nonce && |s.ciphertext| == |plain| && |s.tag| == 16 &&
        decrypt(key, nonce, s.ciphertext, aad, s.tag) == Some(plain)
    }
  }

  datatype ExportResult = Exported(pem: Bytes) | BackupInvalid | CryptoFailed

  predicate PasswordOk(password: Bytes) {
    1 <= |password| <= 512
  }

  function Aad(userId: string): Bytes
    requires IsAscii(userId)
  {
    AAD_LABEL + Ascii(userId)
  }

  /** `KeyringBackupCodec.export`; the salt and the nonce are drawn at random by the program. */
  function Export(engine: Engine, salt: Bytes, nonce: Bytes, m: Material, password: Bytes): (r: ExportResult) {
    if !Validated(m) || !PasswordOk(password) || |salt| != BACKUP_SALT_SIZE then BackupInvalid
    else
      match engine.kdf(password, salt)
      case None => CryptoFailed
      case Some(key) =>
        match PackMaterial(m)
        case None => BackupInvalid
        case Some(payload) =>
          match engine.encrypt(key, payload, Aad(m.userId), nonce)
          case None => CryptoFailed
          case Some(s) =>
            match ToPem(Container(salt, s.nonce, s.tag, s.ciphertext).Text())
            case None => BackupInvalid
            case Some(pem) => Exported(pem)
  }

  /** `KeyringBackupCodec.import_backup`; every failure is reported as the same error. */
  function Import(engine: Engine, backup: Bytes, password: Bytes, userId: string): (m: Option<Material>) {
    if !PasswordOk(password) || userId == "" then None
    else
      match FromPem(backup)
      case None => None
      case Some(k) =>
        match engine.kdf(password, k.salt)
        case None => None
        case Some(key) =>
          if !IsAscii(userId) then None
          else
            match engine.decrypt(key, k.nonce, k.ciphertext, Aad(userId), k.tag)
            case None => None
            case Some(payload) =>
              match Unpack(payload)
              case None => None
              case Some(m) => if Validated(m) && m.userId == userId then Some(m) else None
  }

  method ImportBackup(engine: Engine, backup: Bytes, password: Bytes, userId: string) returns (m: Option<Material>)
    ensures m == Import(engine, backup, password, userId)
  {
    hide Unpack, FromPem, Aad;
    if !PasswordOk(password) || userId == "" { return None; }
    var container := FromPem(backup);
    if container.None? { return None; }
    var k := container.value;
    var key := engine.kdf(password, k.salt);
    if key.None? || !IsAscii(userId) { return None; }
    var payload := engine.decrypt(key.value, k.nonce, k.ciphertext, Aad(userId), k.tag);
    if payload.None? { return None; }
    m := UnpackMaterial(payload.value);
    if m.None? || !Validated(m.value) || m.value.userId != userId { return None; }
  }

  lemma PayloadSize(m: Material)
    requires Validated(m) && Packable(m)
    ensures 16 <= |PackMaterial(m).value| <= 131350
  {
    var f := FieldsOf(m);
    assert |f[1]| <= 7;
    assert |PackFields(f)| == |PackField(f[0])| + |PackFields(f[1..])|;
    assert |PackFields(f[1..])| == |PackField(f[1])| + |PackFields(f[2..])| by { assert f[1..][1..] == f[2..]; }
    assert |PackFields(f[2..])| == |PackField(f[2])| + |PackFields(f[3..])| by { assert f[2..][1..] == f[3..]; }
    assert |PackFields(f[3..])| == |PackField(f[3])| + |PackFields(f[4..])| by { assert f[3..][1..] == f[4..]; }
    assert |PackFields(f[4..])| == |PackField(f[4])| + |PackFields(f[5..])| by { assert f[4..][1..] == f[5..]; }
    assert |PackFields(f[5..])| == |PackField(f[5])| by { assert f[5..][1..] == []; }
  }

  /** Material that is valid and fits its length fields always fits the size limit. */
  lemma MaterialFits(m: Material, k: Container)
    requires Validated(m) && Packable(m) && k.Valid() && |k.ciphertext| == |PackMaterial(m).value|
    ensures ToPem(k.Text()).Some?
  {
    PayloadSize(m);
    PemSize(k.Text());
  }

  /** The material is valid and packable by these bounds on its fields. */
  lemma ValidAndPackableIff(m: Material)
    ensures Validated(m) && Packable(m) <==>
            && IsAscii(m.userId) && 1 <= |m.userId| <= 65535 && m.role in {"student", "admin", "teacher"}
            && IsAscii(m.certificateSerial) && 1 <= |m.certificateSerial| <= 128
            && |m.publicKey| == 65 && 16 <= |m.saltK| <= 64 && 1 <= |m.encryptedPrivateKey| <= 65535
  {
    assert IsAscii("student") && IsAscii("admin") && IsAscii("teacher");
  }

  /** Export succeeds exactly on valid, packable material and a password in range, when the engine does. */
  lemma ExportSucceedsIff(engine: Engine, salt: Bytes, nonce: Bytes, m: Material, password: Bytes)
    requires engine.Lawful() && |nonce| == 12 && |salt| == BACKUP_SALT_SIZE
    ensures Export(engine, salt, nonce, m, password).Exported? <==>
            && IsAscii(m.userId) && 1 <= |m.userId| <= 65535 && m.role in {"student", "admin", "teacher"}
            && IsAscii(m.certificateSerial) && 1 <= |m.certificateSerial| <= 128
            && |m.publicKey| == 65 && 16 <= |m.saltK| <= 64 && 1 <= |m.encryptedPrivateKey| <= 65535
            && 1 <= |password| <= 512 && engine.kdf(password, salt).Some?
            && engine.encrypt(engine.kdf(password, salt).value, PackMaterial(m).value, Aad(m.userId), nonce).Some?
  {
    ValidAndPackableIff(m);
    hide Validated, IsAscii, FieldsOf, PackFields, ToPem;
    if Validated(m) && Packable(m) && engine.kdf(password, salt).Some? {
      var payload := PackMaterial(m).value;
      var sealedOpt := engine.encrypt(engine.kdf(password, salt).value, payload, Aad(m.userId), nonce);
      if sealedOpt.Some? {
        PayloadSize(m);
        MaterialFits(m, Container(salt, nonce, sealedOpt.value.tag, sealedOpt.value.ciphertext));
      }
    }
  }

  /** Importing what was exported, with the same password and user id, restores the material. */
  lemma ImportExport(engine: Engine, salt: Bytes, nonce: Bytes, m: Material, password: Bytes)
    requires engine.Lawful() && |nonce| == 12
    requires Export(engine, salt, nonce, m, password).Exported?
    ensures Import(engine, Export(engine, salt, nonce, m, password).pem, password, m.userId) == Some(m)
  {
    var payload := PackMaterial(m).value;
    var s := engine.encrypt(engine.kdf(password, salt).value, payload, Aad(m.userId), nonce).value;
    var k := Container(salt, nonce, s.tag, s.ciphertext);
    PayloadSize(m);
    UnpackIffPacked(payload, m);
    DearmourInverts(k.Text());
    ReadContainerIff(k.Text(), k);
    hide PackMaterial, Unpack, ToPem, Dearmour, ReadContainer;
  }

  /** Rewrapping a backup's lines, with any terminators and within the size limit, does not change the import. */
  lemma ImportRewrapped(engine: Engine, a: Bytes, b: Bytes, password: Bytes, userId: string)
    requires Framed(a) && Framed(b) && Unwrap(a) == Unwrap(b)
    requires |a| <= MAX_BACKUP_SIZE && |b| <= MAX_BACKUP_SIZE
    ensures Import(engine, a, password, userId) == Import(engine, b, password, userId)
  {
    hide Dearmour, Framed, Unwrap, ReadContainer, Unpack;
    RewrapSame(a, b);
  }

  /** What an import yields is valid, belongs to the user, and is what the backup seals for that user. */
  lemma ImportAuthentic(engine: Engine, backup: Bytes, password: Bytes, userId: string, m: Material)
    ensures Import(engine, backup, password, userId) == Some(m) <==>
            && 1 <= |password| <= 512 && m.userId == userId && IsAscii(userId)
            && m.role in {"student", "admin", "teacher"} && |m.certificateSerial| <= 128
            && |m.publicKey| == 65 && 16 <= |m.saltK| <= 64
            && FromPem(backup).Some?
            && var k := FromPem(backup).value;
            && engine.kdf(password, k.salt).Some?
            && var plain := engine.decrypt(engine.kdf(password, k.salt).value, k.nonce, k.ciphertext,
                                           AAD_LABEL + Ascii(userId), k.tag);
            && plain.Some? && PackMaterial(m) == plain
  {
    assert IsAscii(userId) ==> Aad(userId) == AAD_LABEL + Ascii(userId);
    hide FromPem, Unpack, PackMaterial, Aad, Ascii;
    if IsAscii(userId) && FromPem(backup).Some? {
      var k := FromPem(backup).value;
      var key := engine.kdf(password, k.salt);
      if key.Some? {
        var plain := engine.decrypt(key.value, k.nonce, k.ciphertext, Aad(userId), k.tag);
        if plain.Some? { UnpackIffPacked(plain.value, m); }
      }
    }
  }
}
