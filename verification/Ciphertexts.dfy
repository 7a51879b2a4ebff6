/** Ciphertexts tagged with a key version, written and read against the registry. */
module Ciphertexts {
  import opened KeyStates
  import opened Text
  import opened KeyRegistry

  type Bytes = seq<bv8>

  const KEY_SIZE: nat := 32
  const AUTH_TAG_SIZE: nat := 16

  datatype Sealed = Sealed(ciphertext: Bytes, tag: Bytes)

  /** The library calls: wrapping by the tenant's KMS key, AES-256-GCM, base64, UTF-8, and the IV hash. */
  datatype Primitives = Primitives(
    unwrap: (string, string) -> Bytes,                      // wrapped key, tenant
    seal: (Bytes, Bytes, string, Bytes) -> Sealed,          // key, iv, aad, plaintext
    open: (Bytes, Bytes, string, Sealed) -> Option<Bytes>,
    encode64: Bytes -> string, decode64: string -> Bytes,
    encodeText: string -> Bytes, decodeText: Bytes -> string,
    ivOf: string -> Bytes)

  /** What is assumed of them: GCM opens what it sealed (NIST SP 800-38D), and encodings invert. */
  ghost predicate Lawful(p: Primitives) {
    && (forall key, iv, aad, text :: p.open(key, iv, aad, p.seal(key, iv, aad, text)) == Some(text))
    && (forall key, iv, aad, text :: |p.seal(key, iv, aad, text).tag| == AUTH_TAG_SIZE)
    && (forall bytes :: p.decode64(p.encode64(bytes)) == bytes)
    && (forall bytes :: ColonFree(p.encode64(bytes)))
    && (forall bytes :: |bytes| > 0 ==> p.encode64(bytes) != "")
    && (forall text :: p.decodeText(p.encodeText(text)) == text)
  }

  datatype Answer = Ok(text: string) | KeyNotFound | Invalid

  // ----- Ciphertext followed by its tag -----

  function Frame(s: Sealed): Bytes {
    s.ciphertext + s.tag
  }

  function Unframe(combined: Bytes): Option<Sealed> {
    if |combined| < AUTH_TAG_SIZE then None
    else
      var cut := |combined| - AUTH_TAG_SIZE;
      Some(Sealed(combined[..cut], combined[cut..]))
  }

  /** Splitting at the last 16 bytes and joining are inverse to each other, on everything long enough. */
  lemma FramingRoundTrips(s: Sealed, combined: Bytes)
    ensures |s.tag| == 16 ==> Unframe(Frame(s)) == Some(s)
    ensures s.ciphertext <= Frame(s) && Frame(s)[|s.ciphertext|..] == s.tag
    ensures |combined| >= 16 <==> Unframe(combined).Some?
    ensures Unframe(combined).Some? ==>
      Frame(Unframe(combined).value) == combined && |Unframe(combined).value.tag| == 16
  {
  }

  function Encrypt(p: Primitives, text: string, user: string, iv: Bytes, key: Bytes): Answer {
    if |key| != KEY_SIZE then Invalid
    else Ok(p.encode64(Frame(p.seal(key, iv, user, p.encodeText(text)))))
  }

  function Decrypt(p: Primitives, encoded: string, user: string, iv: Bytes, key: Bytes): Answer {
    if |key| != KEY_SIZE then Invalid
    else
      match Unframe(p.decode64(encoded))
      case None => Invalid
      case Some(s) =>
        match p.open(key, iv, user, s)
        case None => Invalid
        case Some(bytes) => Ok(p.decodeText(bytes))
  }

  lemma CipherRoundTrips(p: Primitives, text: string, user: string, iv: Bytes, key: Bytes)
    requires Lawful(p)
    ensures Encrypt(p, text, user, iv, key).Ok? <==> |key| == 32
    ensures |key| == 32 ==>
      var encoded := Encrypt(p, text, user, iv, key).text;
      encoded != "" && ColonFree(encoded) && Decrypt(p, encoded, user, iv, key) == Ok(text)
  {
  }

  /** A text opens exactly when the key has 32 bytes and its last 16 bytes are the tag of the rest for this user. */
  lemma DecryptsExactlyWhen(p: Primitives, encoded: string, user: string, iv: Bytes, key: Bytes, text: string)
    ensures Decrypt(p, encoded, user, iv, key) == Ok(text) <==>
      && |key| == 32 && |p.decode64(encoded)| >= 16
      && var cut := |p.decode64(encoded)| - 16;
         var plain := p.open(key, iv, user, Sealed(p.decode64(encoded)[..cut], p.decode64(encoded)[cut..]));
         plain.Some? && p.decodeText(plain.value) == text
    ensures Decrypt(p, encoded, user, iv, key) != KeyNotFound
  {
  }

  // ----- POST /encrypt and POST /decrypt -----

  function EncryptRoute(p: Primitives, docs: Docs, tenant: string, user: string, text: string): Answer {
    match Get(docs, DocId(tenant, user), None)
    case None => KeyNotFound
    case Some(data) =>
      match Encrypt(p, text, user, p.ivOf(user), p.unwrap(data.encryptedDek, tenant))
      case Ok(encoded) => if data.activeDekId.Some? then Ok(data.activeDekId.value + ":" + encoded) else Invalid
      case other => other
  }

  /** `split(':', 2)`: the first two of all parts. */
  function TwoParts(raw: string): Option<(string, string)> {
    var parts := Split(raw);
    if |parts| < 2 || parts[0] == "" || parts[1] == "" then None else Some((parts[0], parts[1]))
  }

  function DecryptRoute(p: Primitives, docs: Docs, tenant: string, user: string, raw: string): Answer {
    match TwoParts(raw)
    case None => Invalid
    case Some((version, encoded)) =>
      match Get(docs, DocId(tenant, user), Some(version))
      case None => KeyNotFound
      case Some(data) => Decrypt(p, encoded, user, p.ivOf(user), p.unwrap(data.encryptedDek, tenant))
  }

  /**
   * /encrypt answers, exactly when a 32-byte key resolves for the user, with the active version's tag and
   * the text sealed under that key for this user; there is no key exactly when none resolves.
   */
  lemma EncryptAnswers(p: Primitives, docs: Docs, tenant: string, user: string, text: string)
    ensures var answer, data := EncryptRoute(p, docs, tenant, user, text), Get(docs, DocId(tenant, user), None);
      && (answer.KeyNotFound? <==> data.None?)
      && (data.Some? ==>
            var key, active := p.unwrap(data.value.encryptedDek, tenant), docs[DocId(tenant, user)].activeDekId;
            && (answer.Ok? <==> |key| == 32)
            && (answer.Ok? ==>
                  var sealed := p.seal(key, p.ivOf(user), user, p.encodeText(text));
                  active.Some? && answer.text == active.value + ":" + p.encode64(sealed.ciphertext + sealed.tag)))
  {
  }

  /** The first two of the parts between colons, neither of them empty; what follows is ignored. */
  lemma TwoPartsExactlyWhen(raw: string, a: string, b: string)
    ensures TwoParts(raw) == Some((a, b)) <==>
      && ColonFree(a) && ColonFree(b) && a != "" && b != "" && a + ":" + b <= raw
      && (|raw| > |a + ":" + b| ==> raw[|a + ":" + b|] == ':')
  {
    var parts, two := Split(raw), a + ":" + b;
    JoinSplit(raw);
    if TwoParts(raw) == Some((a, b)) {
      SplitPartsColonFree(raw, 0);
      SplitPartsColonFree(raw, 1);
      assert parts[1..][0] == b;
      if |parts| > 2 {
        assert Join(parts[1..]) == b + ":" + Join(parts[1..][1..]);
        assert raw == two + ":" + Join(parts[1..][1..]);
      } else {
        assert raw == two;
      }
    }
    if ColonFree(a) && ColonFree(b) && a != "" && b != "" && two <= raw {
      if |raw| == |two| {
        assert raw == a + ":" + b;
        SplitPrefix(a, b);
        SplitColonFree(b);
      } else if raw[|two|] == ':' {
        var rest := raw[|two| + 1..];
        assert raw == a + ":" + (b + ":" + rest);
        SplitPrefix(a, b + ":" + rest);
        SplitPrefix(b, rest);
      }
    }
  }

  /** /decrypt refuses what has no two parts, has no key for an unknown version, and else opens the second part. */
  lemma DecryptAnswers(p: Primitives, docs: Docs, tenant: string, user: string, raw: string)
    ensures var answer, parts := DecryptRoute(p, docs, tenant, user, raw), TwoParts(raw);
      && (parts.None? ==> answer == Invalid)
      && (parts.Some? ==>
            var data := Get(docs, DocId(tenant, user), Some(parts.value.0));
            && (answer.KeyNotFound? <==> data.None?)
            && (data.Some? ==>
                  answer == Decrypt(p, parts.value.1, user, p.ivOf(user), p.unwrap(data.value.encryptedDek, tenant))))
  {
    if TwoParts(raw).Some? {
      var (version, encoded) := TwoParts(raw).value;
      if Get(docs, DocId(tenant, user), Some(version)).Some? {
        DecryptsExactlyWhen(p, encoded, user, p.ivOf(user),
          p.unwrap(Get(docs, DocId(tenant, user), Some(version)).value.encryptedDek, tenant), "");
      }
    }
  }

  lemma TwoPartsOf(version: string, encoded: string)
    requires ColonFree(version) && ColonFree(encoded) && version != "" && encoded != ""
    ensures TwoParts(version + ":" + encoded) == Some((version, encoded))
  {
    SplitPrefix(version, encoded);
    SplitColonFree(encoded);
  }

  lemma {:induction false} DecimalColonFree(n: nat)
    ensures ColonFree(Decimal(n))
  {
    if n >= 10 {
      DecimalColonFree(n / 10);
    }
  }

  // ----- A stored key version survives everything but a shred of its own document -----

  ghost predicate Keeps(docs: Docs, after: Docs, id: string) {
    id in docs && id in after && docs[id].status.Active? && after[id].status.Active?
    && forall v :: v in docs[id].deks ==> v in after[id].deks && after[id].deks[v] == docs[id].deks[v]
  }

  lemma PerformKeeps(docs: Docs, now: Docs, op: Op, id: string)
    requires AllWellFormed(now) && NoEmptyDek(now) && Keeps(docs, now, id)
    requires op.Shred? ==> OpId(op) != id
    ensures Keeps(docs, Perform(now, op), id)
  {
    if OpId(op) == id {
      VersionIdsSize(|now[id].deks|, |now[id].deks|);
      if op.Rotate? {
        RotationWellFormed(now[id], op.dek);
      }
    }
  }

  /** Neither empties a key nor shreds `id`. */
  predicate Spares(op: Op, id: string) {
    StoresNonEmpty(op) && (op.Shred? ==> OpId(op) != id)
  }

  /** Whatever is stored under `id` now is still there after `ops`. */
  lemma {:induction false} RunKeeps(docs: Docs, ops: seq<Op>, id: string)
    requires AllWellFormed(docs) && NoEmptyDek(docs) && id in docs && docs[id].status.Active?
    requires forall i :: 0 <= i < |ops| ==> Spares(ops[i], id)
    ensures var after := PerformAll(docs, ops);
      AllWellFormed(after) && NoEmptyDek(after) && Keeps(docs, after, id)
  {
    if ops != [] {
      var before, op := ops[..|ops| - 1], ops[|ops| - 1];
      assert Spares(op, id);
      RunKeeps(docs, before, id);
      var now := PerformAll(docs, before);
      PerformWellFormed(now, op);
      PerformStoresNonEmpty(now, op);
      PerformKeeps(docs, now, op, id);
    }
  }

  /** Any version stored under `id` now still resolves to the same wrapped key after `ops`. */
  lemma {:induction false} StoredVersionResolves(docs: Docs, ops: seq<Op>, id: string, version: string)
    requires AllWellFormed(docs) && NoEmptyDek(docs) && id in docs && docs[id].status.Active?
    requires version in docs[id].deks && version != ""
    requires forall i :: 0 <= i < |ops| ==> Spares(ops[i], id)
    ensures var data := Get(PerformAll(docs, ops), id, Some(version));
      data.Some? && data.value.encryptedDek == docs[id].deks[version]
  {
    RunKeeps(docs, ops, id);
  }

  /**
   * What /encrypt returned decrypts to its plaintext after any later rotations, key requests and
   * activity on other documents, as long as this user's document is not shredded in between.
   */
  lemma {:induction false} CiphertextsOutliveRotation(p: Primitives, ops: seq<Op>, later: seq<Op>, tenant: string,
                                                      user: string, text: string)
    requires Lawful(p)
    requires forall i :: 0 <= i < |ops| ==> StoresNonEmpty(ops[i])
    requires forall i :: 0 <= i < |later| ==> Spares(later[i], DocId(tenant, user))
    ensures var docs := PerformAll(map[], ops);
      var answer := EncryptRoute(p, docs, tenant, user, text);
      answer.Ok? ==> DecryptRoute(p, PerformAll(docs, later), tenant, user, answer.text) == Ok(text)
  {
    var docs, id := PerformAll(map[], ops), DocId(tenant, user);
    var answer := EncryptRoute(p, docs, tenant, user, text);
    VersionsAreExact(ops);
    NonEmptyStays(ops);
    if answer.Ok? {
      var data := Get(docs, id, None).value;
      var version := data.activeDekId.value;
      var key := p.unwrap(data.encryptedDek, tenant);
      CipherRoundTrips(p, text, user, p.ivOf(user), key);
      var encoded := Encrypt(p, text, user, p.ivOf(user), key).text;
      DecimalColonFree(|docs[id].deks|);
      TwoPartsOf(version, encoded);
      StoredVersionResolves(docs, later, id, version);
    }
  }

  /** After a shred nothing resolves, tagged or not, until a key is generated for the user again. */
  lemma {:induction false} ShredIsFinalUntilNewKey(docs: Docs, tenant: string, user: string,
                                                   request: Option<string>, later: seq<Op>)
    requires forall i :: 0 <= i < |later| ==> !(later[i].Generate? && OpId(later[i]) == DocId(tenant, user))
    ensures var after := PerformAll(Perform(docs, Shred(tenant, user, request)), later);
      var id := DocId(tenant, user);
      && id in after && after[id].status.Shredded?
      && (forall version :: Get(after, id, version).None?)
  {
    if later != [] {
      var op := later[|later| - 1];
      assert !(op.Generate? && OpId(op) == DocId(tenant, user));
      ShredIsFinalUntilNewKey(docs, tenant, user, request, later[..|later| - 1]);
    }
  }

  // ----- The three-part format of the pii_vault -----

  function Tagged(version: string, iv64: string, body: string): string {
    version + ":" + iv64 + ":" + body
  }

  function ThreeParts(raw: string): Option<(string, string, string)> {
    var parts := Split(raw);
    if |parts| < 3 then None
    else
      var body := Join(parts[2..]);
      if parts[0] == "" || parts[1] == "" || body == "" then None else Some((parts[0], parts[1], body))
  }

  /** Reading back three parts, and writing them again, are inverse; a body may itself hold colons. */
  lemma ThreePartsRoundTrip(version: string, iv64: string, body: string, raw: string)
    ensures ThreeParts(Tagged(version, iv64, body)) == Some((version, iv64, body))
      <==> ColonFree(version) && ColonFree(iv64) && version != "" && iv64 != "" && body != ""
    ensures ThreeParts(raw).Some? ==>
      var (v, i, b) := ThreeParts(raw).value; Tagged(v, i, b) == raw
  {
    var s := Tagged(version, iv64, body);
    if ColonFree(version) && ColonFree(iv64) {
      assert s == version + ":" + (iv64 + ":" + body);
      SplitPrefix(version, iv64 + ":" + body);
      SplitPrefix(iv64, body);
      assert Split(s)[2..] == Split(body);
      JoinSplit(body);
    } else if ThreeParts(s).Some? {
      SplitPartsColonFree(s, 0);
      SplitPartsColonFree(s, 1);
    }
    var parts := Split(raw);
    if ThreeParts(raw).Some? {
      JoinSplit(raw);
      assert parts[1..][1..] == parts[2..];
      assert raw == parts[0] + ":" + (parts[1] + ":" + Join(parts[2..]));
    }
  }

  /** `decryptPiiVaultValue`: null for anything that does not parse, resolve or open. */
  function DecryptVaultValue(p: Primitives, docs: Docs, tenant: string, user: string, raw: string): Option<string> {
    if raw == "" || user == "" then None
    else
      match ThreeParts(raw)
      case None => None
      case Some((version, iv64, body)) =>
        match Get(docs, DocId(tenant, user), Some(version))
        case None => None
        case Some(data) =>
          match Decrypt(p, body, user, p.decode64(iv64), p.unwrap(data.encryptedDek, tenant))
          case Ok(text) => Some(text)
          case _ => None
  }

  /** A vault value reads as a text exactly when its three parts name a key that opens the third. */
  lemma VaultReadsExactlyWhen(p: Primitives, docs: Docs, tenant: string, user: string, raw: string, text: string)
    ensures DecryptVaultValue(p, docs, tenant, user, raw) == Some(text) <==>
      && user != "" && ThreeParts(raw).Some?
      && var (version, iv64, body) := ThreeParts(raw).value;
         var data := Get(docs, DocId(tenant, user), Some(version));
         data.Some? && Decrypt(p, body, user, p.decode64(iv64), p.unwrap(data.value.encryptedDek, tenant)) == Ok(text)
  {
    if raw == "" {
      assert Split(raw) == [[]];
    }
  }

  /** A vault value written under a stored version reads back, whatever its random IV, after any later activity. */
  lemma {:induction false} VaultValuesOutliveRotation(p: Primitives, docs: Docs, later: seq<Op>, tenant: string,
                                                      user: string, version: string, iv: Bytes, text: string)
    requires Lawful(p) && AllWellFormed(docs) && NoEmptyDek(docs) && user != "" && iv != []
    requires var id := DocId(tenant, user); id in docs && docs[id].status.Active? && version in docs[id].deks
    requires |p.unwrap(docs[DocId(tenant, user)].deks[version], tenant)| == KEY_SIZE
    requires forall i :: 0 <= i < |later| ==> Spares(later[i], DocId(tenant, user))
    ensures var key := p.unwrap(docs[DocId(tenant, user)].deks[version], tenant);
      var raw := Tagged(version, p.encode64(iv), Encrypt(p, text, user, iv, key).text);
      DecryptVaultValue(p, PerformAll(docs, later), tenant, user, raw) == Some(text)
  {
    var id := DocId(tenant, user);
    var key := p.unwrap(docs[id].deks[version], tenant);
    assert version != "" && ColonFree(version) by { VersionShape(|docs[id].deks|, version); }
    StoredVersionResolves(docs, later, id, version);
    VaultValueReads(p, PerformAll(docs, later), tenant, user, version, iv, text, key);
  }

  lemma VaultValueReads(p: Primitives, docs: Docs, tenant: string, user: string,
                        version: string, iv: Bytes, text: string, key: Bytes)
    requires Lawful(p) && user != "" && iv != [] && version != "" && ColonFree(version) && |key| == KEY_SIZE
    requires var data := Get(docs, DocId(tenant, user), Some(version));
      data.Some? && p.unwrap(data.value.encryptedDek, tenant) == key
    ensures DecryptVaultValue(p, docs, tenant, user,
      Tagged(version, p.encode64(iv), Encrypt(p, text, user, iv, key).text)) == Some(text)
  {
    CipherRoundTrips(p, text, user, iv, key);
    var body := Encrypt(p, text, user, iv, key).text;
    ThreePartsRoundTrip(version, p.encode64(iv), body, Tagged(version, p.encode64(iv), body));
  }

  lemma {:induction false} VersionShape(n: nat, version: string)
    requires version in VersionIds(n)
    ensures version != "" && ColonFree(version)
  {
    if n != 0 {
      if version == VersionId(n) {
        DecimalColonFree(n);
      } else {
        VersionShape(n - 1, version);
      }
    }
  }
}
