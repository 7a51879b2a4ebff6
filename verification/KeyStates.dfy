/** What a user's key document says about the key. */
module KeyStates {

  /** The document is missing, or its `status` field. */
  datatype KeyState = NoKey | Active | Rotated | Shredded | Deleted

  /** The signer's test before it will certify destruction. */
  predicate Gone(key: KeyState) {
    key.Shredded? || key.Deleted?
  }
}
