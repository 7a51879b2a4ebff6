/** The entries of the PII registry. */
module PiiEntries {
  import opened Text

  datatype Classification = DirectIdentifier | QuasiIdentifier | Contact | Sensitive | Behavioral | SystemIdentifier

  datatype Handling = Encrypt | Tokenize | Redact | HashSurrogate | AllowAggregateOnly | ReviewManually

  datatype DeletionStrategy = CryptoShred | DeleteRows | RedactFields | ExternalWipe | ManualReview

  datatype Layer = Raw | Staging | Intermediate | Mart | Saas | Unknown

  datatype Field = Field(name: string, classification: Classification, handling: Handling, requiredInMart: bool)

  /** What happens to a customer's own table when a user is deleted. */
  datatype Strategy = RedactInPlace | EncryptedCopy | ShadowCopy

  /** An ISO 8601 text and the instant it denotes, in milliseconds. */
  datatype Instant = Instant(text: string, time: int)

  /**
   * `tenant` is None for a platform entry, which every tenant sees; `legacy` is the older single-strategy
   * field, None also where it says 'NONE'.
   */
  datatype Entry = Entry(
    resource: string, tenant: Option<string>, system: string, owner: string, layer: Layer,
    fields: seq<Field>, deletion: DeletionStrategy, userIdColumn: Option<string>, tenantIdColumn: Option<string>,
    scanEnabled: bool, updatedAtColumn: Option<string>, notes: Option<string>,
    declaredBy: Option<string>, lastModifiedBy: Option<string>,
    lastSyncedAt: Option<Instant>, lastSyncAttemptAt: Option<Instant>,
    strategies: Option<seq<Strategy>>, legacy: Option<Strategy>)

  /** The strategy array decides where it is present, the legacy field where it is not. */
  predicate HasStrategy(e: Entry, strategy: Strategy) {
    if e.strategies.Some? then strategy in e.strategies.value else e.legacy == Some(strategy)
  }

  const MANUAL_OWNER: string := "manual"

  /** An optional text that is present and not empty. */
  predicate Given(s: Option<string>) {
    s.Some? && s.value != ""
  }
}
