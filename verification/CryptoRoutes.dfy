/** The four key and cipher routes as they drive the registry. */
module CryptoRoutes {
  import opened Text
  import opened KeyRegistry
  import opened Ciphertexts

  datatype KeyReply = Generated | Exists | NewVersion | KeyMissing | Failed

  class Routes {
    const registry: FirestoreRegistry
    const p: Primitives

    constructor (registry: FirestoreRegistry, p: Primitives)
      ensures this.registry == registry && this.p == p
    {
      this.registry, this.p := registry, p;
    }

    /** POST /key/generate; `wrapped` is the new key under the tenant's KMS key, None when KMS fails. */
    method KeyGenerate(user: string, tenant: string, wrapped: Option<string>) returns (reply: KeyReply)
      modifies registry
      ensures reply.Exists? <==> Get(old(registry.docs), DocId(tenant, user), None).Some?
      ensures registry.docs == if wrapped.Some?
        then Perform(old(registry.docs), Generate(tenant, user, wrapped.value)) else old(registry.docs)
      ensures reply != Generated ==> registry.docs == old(registry.docs)
      ensures reply == Generated ==>
        && wrapped.Some?
        && var data := Get(registry.docs, DocId(tenant, user), None);
           data == if wrapped == Some("") then None else Some(KeyData(wrapped.value, Some(VersionId(1))))
    {
      var existing := registry.GetKeyForUser(user, tenant, None);
      if existing.Some? { return Exists; }
      if wrapped.None? { return Failed; }
      registry.SetKeyForUser(user, wrapped.value, tenant);
      reply := Generated;
    }

    /** POST /key/rotate. */
    method KeyRotate(user: string, tenant: string, wrapped: Option<string>) returns (reply: KeyReply)
      modifies registry
      ensures reply == NewVersion <==>
        && wrapped.Some? && DocId(tenant, user) in old(registry.docs)
        && !old(registry.docs)[DocId(tenant, user)].status.Shredded?
        && old(registry.docs)[DocId(tenant, user)].activeDekId.Some?
      ensures reply != NewVersion ==> registry.docs == old(registry.docs)
      ensures registry.docs == if wrapped.Some?
        then Perform(old(registry.docs), Rotate(tenant, user, wrapped.value)) else old(registry.docs)
    {
      if wrapped.None? { return Failed; }
      var r := registry.RotateKeyForUser(user, wrapped.value, tenant);
      reply := if r.Rotated? then NewVersion else KeyMissing;
    }

    /** POST /encrypt. */
    method EncryptText(user: string, tenant: string, text: string) returns (answer: Answer)
      ensures answer == EncryptRoute(p, registry.docs, tenant, user, text)
    {
      var keyData := registry.GetKeyForUser(user, tenant, None);
      if keyData.None? { return KeyNotFound; }
      var encrypted := Encrypt(p, text, user, p.ivOf(user), p.unwrap(keyData.value.encryptedDek, tenant));
      if !encrypted.Ok? || keyData.value.activeDekId.None? { return Invalid; }
      answer := Ok(keyData.value.activeDekId.value + ":" + encrypted.text);
    }

    /** POST /decrypt. */
    method DecryptText(user: string, tenant: string, raw: string) returns (answer: Answer)
      ensures answer == DecryptRoute(p, registry.docs, tenant, user, raw)
    {
      var parts := Split(raw);
      if |parts| < 2 || parts[0] == "" || parts[1] == "" { return Invalid; }
      var keyData := registry.GetKeyForUser(user, tenant, Some(parts[0]));
      if keyData.None? { return KeyNotFound; }
      answer := Decrypt(p, parts[1], user, p.ivOf(user), p.unwrap(keyData.value.encryptedDek, tenant));
    }
  }
}
