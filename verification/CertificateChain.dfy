/** Each tenant's hash chain of certificates, appended to by optimistic transactions. */
module CertificateChain {
  import opened Text

  /** One document per tenant: the head of its chain. */
  datatype Head = Head(sequence: nat, lastHash: string, lastRequest: string)

  /** One document per certificate, keyed by the certificate's hash. */
  datatype Entry = Entry(tenant: string, sequence: nat, previousHash: Option<string>, request: string)

  datatype Store = Store(heads: map<string, Head>, entries: map<string, Entry>)

  datatype SignResult = SignResult(certificate: string, hash: string)

  datatype Outcome = Outcome(result: SignResult, previousHash: Option<string>, sequence: nat)

  function HeadOf(store: Store, tenant: string): Option<Head> {
    if tenant in store.heads then Some(store.heads[tenant]) else None
  }

  function PreviousOf(head: Option<Head>): Option<string> {
    match head case None => None case Some(h) => Some(h.lastHash)
  }

  function LengthOf(head: Option<Head>): nat {
    match head case None => 0 case Some(h) => h.sequence
  }

  /** The new head and the new entry that one commit writes together. */
  function Committed(store: Store, tenant: string, request: string, head: Option<Head>, hash: string): Store {
    var sequence := LengthOf(head) + 1;
    Store(store.heads[tenant := Head(sequence, hash, request)],
          store.entries[hash := Entry(tenant, sequence, PreviousOf(head), request)])
  }

  class CertificateChainRepository {
    var heads: map<string, Head>
    var entries: map<string, Entry>

    function Contents(): Store
      reads this
    {
      Store(heads, entries)
    }

    constructor ()
      ensures Contents() == Store(map[], map[])
    {
      heads, entries := map[], map[];
    }

    /** The transaction's one uncontended attempt. */
    method AppendToChain(tenant: string, request: string, sign: (Option<string>, nat) -> SignResult)
        returns (outcome: Outcome)
      modifies this
      ensures var head := HeadOf(old(Contents()), tenant);
        && outcome.previousHash == PreviousOf(head) && outcome.sequence == LengthOf(head) + 1
        && outcome.result == sign(outcome.previousHash, outcome.sequence)
        && Contents() == Committed(old(Contents()), tenant, request, head, outcome.result.hash)
      ensures var hash := outcome.result.hash;
        && heads == old(heads)[tenant := Head(outcome.sequence, hash, request)]
        && entries == old(entries)[hash := Entry(tenant, outcome.sequence, outcome.previousHash, request)]
    {
      var previousHash := None;
      var sequence := 1;
      if tenant in heads {
        previousHash := Some(heads[tenant].lastHash);
        sequence := heads[tenant].sequence + 1;
      }
      var result := sign(previousHash, sequence);
      heads := heads[tenant := Head(sequence, result.hash, request)];
      entries := entries[result.hash := Entry(tenant, sequence, previousHash, request)];
      outcome := Outcome(result, previousHash, sequence);
    }

    method GetEntryByHash(hash: string) returns (r: Option<Entry>)
      ensures r == if hash in entries then Some(entries[hash]) else None
    {
      r := if hash in entries then Some(entries[hash]) else None;
    }
  }

  // ----- Certificates as JWS compact text (RFC 7515, section 7.1) -----

  datatype Claims = Claims(tenant: string, sequence: nat, previousHash: Option<string>, body: string)

  datatype Certificate = Certificate(header: string, claims: Claims, signature: string)

  /** The encodings a certificate goes through: claims to base64url text, and SHA-256 of the whole. */
  datatype Jose = Jose(payload: Claims -> string, sha256: string -> string)

  /** base64url text has no dot, JSON and base64url lose nothing, and no two texts collide. */
  ghost predicate Lawful(j: Jose) {
    && (forall c :: '.' !in j.payload(c))
    && (forall c, d :: j.payload(c) == j.payload(d) ==> c == d)
    && (forall s, t :: j.sha256(s) == j.sha256(t) ==> s == t)
  }

  function Compact(j: Jose, c: Certificate): string {
    c.header + "." + (j.payload(c.claims) + "." + c.signature)
  }

  function HashOf(j: Jose, c: Certificate): string {
    j.sha256(Compact(j, c))
  }

  /** Certificates with equal hashes carry equal claims, so one tenant's two sequence numbers never share a hash. */
  lemma HashesTellClaimsApart(j: Jose, c: Certificate, d: Certificate)
    requires Lawful(j) && '.' !in c.header && '.' !in d.header
    ensures HashOf(j, c) == HashOf(j, d) <==> Compact(j, c) == Compact(j, d)
    ensures HashOf(j, c) == HashOf(j, d) ==> c == d
  {
    if HashOf(j, c) == HashOf(j, d) {
      PrefixedInjective('.', c.header, j.payload(c.claims) + "." + c.signature,
                             d.header, j.payload(d.claims) + "." + d.signature);
      PrefixedInjective('.', j.payload(c.claims), c.signature, j.payload(d.claims), d.signature);
    }
  }

  // ----- Concurrent appends -----

  /** An `appendToChain` call: what its current attempt has read and signed. */
  datatype Tx =
    | Starting(tenant: string, request: string)
    | HasRead(tenant: string, request: string, head: Option<Head>)
    | HasSigned(tenant: string, request: string, head: Option<Head>, certificate: Certificate)
    | Done(tenant: string, request: string, certificate: Certificate)

  /** `certs` remembers, by hash, the certificates whose appends committed. */
  datatype State = State(store: Store, txs: seq<Tx>, certs: map<string, Certificate>)

  datatype Action =
    | Begin(tenant: string, request: string)
    | Read(i: nat)
    | Sign(i: nat, header: string, body: string, signature: string)
    | Commit(i: nat)

  function Empty(): State {
    State(Store(map[], map[]), [], map[])
  }

  /** A commit whose head has moved writes nothing and starts the next attempt. */
  function Next(j: Jose, s: State, a: Action): State {
    match a
    case Begin(tenant, request) => s.(txs := s.txs + [Starting(tenant, request)])
    case Read(i) =>
      if i < |s.txs| && s.txs[i].Starting? then
        var tx := s.txs[i];
        s.(txs := s.txs[i := HasRead(tx.tenant, tx.request, HeadOf(s.store, tx.tenant))])
      else s
    case Sign(i, header, body, signature) =>
      if i < |s.txs| && s.txs[i].HasRead? && '.' !in header then
        var tx := s.txs[i];
        var claims := Claims(tx.tenant, LengthOf(tx.head) + 1, PreviousOf(tx.head), body);
        s.(txs := s.txs[i := HasSigned(tx.tenant, tx.request, tx.head, Certificate(header, claims, signature))])
      else s
    case Commit(i) =>
      if i < |s.txs| && s.txs[i].HasSigned? then
        var tx := s.txs[i];
        if HeadOf(s.store, tx.tenant) == tx.head then
          var hash := HashOf(j, tx.certificate);
          State(Committed(s.store, tx.tenant, tx.request, tx.head, hash),
                s.txs[i := Done(tx.tenant, tx.request, tx.certificate)],
                s.certs[hash := tx.certificate])
        else s.(txs := s.txs[i := Starting(tx.tenant, tx.request)])
      else s
  }

  function Run(j: Jose, actions: seq<Action>): State {
    if actions == [] then Empty()
    else Next(j, Run(j, actions[..|actions| - 1]), actions[|actions| - 1])
  }

  // ----- Walking a chain -----

  /** From `hash`, `n` entries of `tenant` numbered n, n-1, ..., 1, and then no previous hash. */
  ghost predicate Linked(entries: map<string, Entry>, tenant: string, hash: Option<string>, n: nat)
    decreases n
  {
    if n == 0 then hash.None?
    else
      && hash.Some? && hash.value in entries
      && entries[hash.value].tenant == tenant && entries[hash.value].sequence == n
      && Linked(entries, tenant, entries[hash.value].previousHash, n - 1)
  }

  /** The hashes met on that walk, head first. */
  function Walk(entries: map<string, Entry>, hash: Option<string>, n: nat): seq<string>
    decreases n
  {
    if n == 0 || hash.None? || hash.value !in entries then []
    else [hash.value] + Walk(entries, entries[hash.value].previousHash, n - 1)
  }

  function ChainOf(store: Store, tenant: string): seq<string> {
    Walk(store.entries, PreviousOf(HeadOf(store, tenant)), LengthOf(HeadOf(store, tenant)))
  }

  ghost predicate EntryOk(j: Jose, s: State, hash: string)
    requires hash in s.store.entries
  {
    var e := s.store.entries[hash];
    && 1 <= e.sequence <= LengthOf(HeadOf(s.store, e.tenant))
    && hash in s.certs
    && var c := s.certs[hash];
      HashOf(j, c) == hash && '.' !in c.header
      && c.claims.tenant == e.tenant && c.claims.sequence == e.sequence && c.claims.previousHash == e.previousHash
  }

  ghost predicate TxOk(tx: Tx) {
    tx.HasSigned? ==>
      && '.' !in tx.certificate.header
      && tx.certificate.claims.tenant == tx.tenant
      && tx.certificate.claims.sequence == LengthOf(tx.head) + 1
      && tx.certificate.claims.previousHash == PreviousOf(tx.head)
  }

  ghost predicate AllLinked(store: Store) {
    forall t :: Linked(store.entries, t, PreviousOf(HeadOf(store, t)), LengthOf(HeadOf(store, t)))
  }

  ghost predicate AllEntriesOk(j: Jose, s: State) {
    forall h :: h in s.store.entries ==> EntryOk(j, s, h)
  }

  ghost predicate Inv(j: Jose, s: State) {
    && AllLinked(s.store) && AllEntriesOk(j, s)
    && forall i :: 0 <= i < |s.txs| ==> TxOk(s.txs[i])
  }

  lemma {:induction false} LinkedStays(entries: map<string, Entry>, more: map<string, Entry>, t: string,
                                         hash: Option<string>, n: nat)
    requires Linked(entries, t, hash, n)
    requires forall h :: h in entries ==> h in more && more[h] == entries[h]
    ensures Linked(more, t, hash, n) && Walk(more, hash, n) == Walk(entries, hash, n)
    decreases n
  {
    if n != 0 {
      LinkedStays(entries, more, t, entries[hash.value].previousHash, n - 1);
    }
  }

  /** The hash of a certificate about to be committed is not yet in the index. */
  lemma NewHashIsFresh(j: Jose, s: State, tx: Tx)
    requires Lawful(j) && Inv(j, s) && TxOk(tx) && tx.HasSigned? && HeadOf(s.store, tx.tenant) == tx.head
    ensures HashOf(j, tx.certificate) !in s.store.entries
  {
    var hash := HashOf(j, tx.certificate);
    if hash in s.store.entries {
      assert EntryOk(j, s, hash);
      HashesTellClaimsApart(j, s.certs[hash], tx.certificate);
    }
  }

  predicate Commits(s: State, a: Action) {
    a.Commit? && a.i < |s.txs| && s.txs[a.i].HasSigned? && HeadOf(s.store, s.txs[a.i].tenant) == s.txs[a.i].head
  }

  /** A commit under a fresh hash leaves every other chain as it is and puts the new hash in front of its own. */
  lemma CommittedChains(store: Store, tenant: string, request: string, hash: string, t: string)
    requires AllLinked(store) && hash !in store.entries
    ensures var after := Committed(store, tenant, request, HeadOf(store, tenant), hash);
      && ChainOf(after, t) == (if t == tenant then [hash] + ChainOf(store, t) else ChainOf(store, t))
      && Linked(after.entries, t, PreviousOf(HeadOf(after, t)), LengthOf(HeadOf(after, t)))
  {
    var after := Committed(store, tenant, request, HeadOf(store, tenant), hash);
    LinkedStays(store.entries, after.entries, t, PreviousOf(HeadOf(store, t)), LengthOf(HeadOf(store, t)));
  }

  lemma CommitKeepsEntries(j: Jose, s: State, i: nat)
    requires AllEntriesOk(j, s) && Commits(s, Commit(i)) && TxOk(s.txs[i])
    requires HashOf(j, s.txs[i].certificate) !in s.store.entries
    ensures AllEntriesOk(j, Next(j, s, Commit(i)))
  {
    var tx := s.txs[i];
    var n := Next(j, s, Commit(i));
    var hash := HashOf(j, tx.certificate);
    forall h | h in n.store.entries ensures EntryOk(j, n, h) {
      if h != hash {
        assert EntryOk(j, s, h);
      }
    }
  }

  lemma CommitKeepsInv(j: Jose, s: State, i: nat)
    requires Lawful(j) && Inv(j, s) && Commits(s, Commit(i))
    ensures Inv(j, Next(j, s, Commit(i)))
  {
    var tx := s.txs[i];
    var hash := HashOf(j, tx.certificate);
    NewHashIsFresh(j, s, tx);
    CommitKeepsEntries(j, s, i);
    forall t
      ensures var after := Committed(s.store, tx.tenant, tx.request, tx.head, hash);
        Linked(after.entries, t, PreviousOf(HeadOf(after, t)), LengthOf(HeadOf(after, t)))
    {
      CommittedChains(s.store, tx.tenant, tx.request, hash, t);
    }
  }

  lemma NextKeepsInv(j: Jose, s: State, a: Action)
    requires Lawful(j) && Inv(j, s)
    ensures Inv(j, Next(j, s, a))
  {
    if Commits(s, a) {
      CommitKeepsInv(j, s, a.i);
    } else {
      var n := Next(j, s, a);
      assert n.store == s.store && n.certs == s.certs;
      assert AllEntriesOk(j, n) by {
        forall h | h in n.store.entries ensures EntryOk(j, n, h) {
          assert EntryOk(j, s, h);
        }
      }
    }
  }

  lemma {:induction false} RunKeepsInv(j: Jose, actions: seq<Action>)
    requires Lawful(j)
    ensures Inv(j, Run(j, actions))
  {
    if actions != [] {
      RunKeepsInv(j, actions[..|actions| - 1]);
      NextKeepsInv(j, Run(j, actions[..|actions| - 1]), actions[|actions| - 1]);
    }
  }

  // ----- The main results -----

  lemma {:induction false} WalkIsContiguous(entries: map<string, Entry>, t: string, hash: Option<string>,
                                             n: nat, k: nat)
    requires Linked(entries, t, hash, n) && k < n
    ensures |Walk(entries, hash, n)| == n
    ensures var h := Walk(entries, hash, n)[k];
      && h in entries && entries[h].tenant == t && entries[h].sequence == n - k
      && entries[h].previousHash == if k + 1 < n then Some(Walk(entries, hash, n)[k + 1]) else None
    decreases n
  {
    var rest := entries[hash.value].previousHash;
    if k > 0 {
      WalkIsContiguous(entries, t, rest, n - 1, k - 1);
    } else if n > 1 {
      WalkIsContiguous(entries, t, rest, n - 1, 0);
    }
  }

  /**
   * However many appends run at once and however often their attempts are repeated: walking
   * back from a tenant's head meets sequences n, n-1, ..., 1, each entry naming the next hash,
   * and ends at an entry without a previous hash after exactly n steps.
   */
  lemma ChainsAreContiguous(j: Jose, actions: seq<Action>, tenant: string, k: nat)
    requires Lawful(j)
    requires k < LengthOf(HeadOf(Run(j, actions).store, tenant))
    ensures var store := Run(j, actions).store;
      var n, chain := LengthOf(HeadOf(store, tenant)), ChainOf(store, tenant);
      && |chain| == n && chain[0] == store.heads[tenant].lastHash
      && chain[k] in store.entries && store.entries[chain[k]].tenant == tenant
      && store.entries[chain[k]].sequence == n - k
      && store.entries[chain[k]].previousHash == if k + 1 < n then Some(chain[k + 1]) else None
  {
    RunKeepsInv(j, actions);
    var store := Run(j, actions).store;
    WalkIsContiguous(store.entries, tenant, PreviousOf(HeadOf(store, tenant)), LengthOf(HeadOf(store, tenant)), k);
  }

  /** An entry has a place below its tenant's head, and is the certificate its hash names. */
  lemma EntryHasAPlace(j: Jose, actions: seq<Action>, hash: string)
    requires Lawful(j) && hash in Run(j, actions).store.entries
    ensures var s := Run(j, actions);
      var e := s.store.entries[hash];
      && 1 <= e.sequence <= LengthOf(HeadOf(s.store, e.tenant))
      && hash in s.certs && HashOf(j, s.certs[hash]) == hash
      && s.certs[hash].claims == Claims(e.tenant, e.sequence, e.previousHash, s.certs[hash].claims.body)
  {
    RunKeepsInv(j, actions);
    assert EntryOk(j, Run(j, actions), hash);
  }

  /**
   * No forks and no strays: every entry in the index is on its tenant's one chain at its own
   * sequence number, and is the certificate with exactly that tenant, sequence and previous hash.
   */
  lemma EveryEntryIsOnItsChain(j: Jose, actions: seq<Action>, hash: string)
    requires Lawful(j) && hash in Run(j, actions).store.entries
    ensures var s := Run(j, actions);
      var e := s.store.entries[hash];
      var n, chain := LengthOf(HeadOf(s.store, e.tenant)), ChainOf(s.store, e.tenant);
      && 1 <= e.sequence <= n == |chain| && chain[n - e.sequence] == hash
      && hash in s.certs && HashOf(j, s.certs[hash]) == hash
      && s.certs[hash].claims == Claims(e.tenant, e.sequence, e.previousHash, s.certs[hash].claims.body)
  {
    EntryHasAPlace(j, actions, hash);
    var store := Run(j, actions).store;
    var e := store.entries[hash];
    var n, chain := LengthOf(HeadOf(store, e.tenant)), ChainOf(store, e.tenant);
    ChainsAreContiguous(j, actions, e.tenant, n - e.sequence);
    RunKeepsCounts(j, actions);
    assert Unique(store.entries, hash, chain[n - e.sequence]);
  }

  ghost predicate Unique(entries: map<string, Entry>, h: string, k: string) {
    (h in entries && k in entries
     && entries[h].tenant == entries[k].tenant && entries[h].sequence == entries[k].sequence) ==> h == k
  }

  /** One entry per tenant and sequence number. */
  lemma {:induction false} RunKeepsCounts(j: Jose, actions: seq<Action>)
    requires Lawful(j)
    ensures forall h, k :: Unique(Run(j, actions).store.entries, h, k)
  {
    if actions != [] {
      var before, a := actions[..|actions| - 1], actions[|actions| - 1];
      var s := Run(j, before);
      RunKeepsCounts(j, before);
      RunKeepsInv(j, before);
      if Commits(s, a) {
        CommitKeepsUnique(j, s, a.i);
      } else {
        assert Next(j, s, a).store == s.store;
      }
    }
  }

  lemma CommitKeepsUnique(j: Jose, s: State, i: nat)
    requires Inv(j, s) && Commits(s, Commit(i))
    requires forall h, k :: Unique(s.store.entries, h, k)
    ensures forall h, k :: Unique(Next(j, s, Commit(i)).store.entries, h, k)
  {
    var entries, after := s.store.entries, Next(j, s, Commit(i)).store.entries;
    forall h, k ensures Unique(after, h, k) {
      assert Unique(entries, h, k);
      if h in entries { assert EntryOk(j, s, h); }
      if k in entries { assert EntryOk(j, s, k); }
    }
  }

  /**
   * An attempt that is discarded leaves no trace, a commit appends exactly its own certificate
   * to its own tenant's chain, and no step touches another tenant's chain.
   */
  lemma StepsTouchOneChain(j: Jose, actions: seq<Action>, a: Action, tenant: string)
    requires Lawful(j)
    ensures var s, n := Run(j, actions), Next(j, Run(j, actions), a);
      if Commits(s, a) then
        n.txs[a.i].Done? && ChainOf(n.store, tenant) ==
          if s.txs[a.i].tenant == tenant then [HashOf(j, s.txs[a.i].certificate)] + ChainOf(s.store, tenant)
          else ChainOf(s.store, tenant)
      else n.store == s.store
  {
    RunKeepsInv(j, actions);
    var s := Run(j, actions);
    if Commits(s, a) {
      NewHashIsFresh(j, s, s.txs[a.i]);
      CommittedChains(s.store, s.txs[a.i].tenant, s.txs[a.i].request, HashOf(j, s.txs[a.i].certificate), tenant);
    }
  }
}
