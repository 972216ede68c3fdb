/** The foreign cryptographic calls the core makes, as uninterpreted total
    functions: a SHA-256 hex digest, bcrypt hashing and bcrypt comparison.
    Only the properties listed in `Sound` are assumed of them. */
module Crypto {
  import opened Common

  datatype Crypto = Crypto(
    /** `createHash("sha256").update(p).digest("hex")` */
    sha256Hex: string -> string,
    /** `bcrypt.hash(p, SALT_ROUNDS)` */
    hash: string -> string,
    /** `bcrypt.compare(p, h)` */
    compare: (string, string) -> bool)

  /** What the model relies on: a password verifies against its own bcrypt
      hash, bcrypt output carries `$` separators, and a SHA-256 hex digest is
      64 lower-case hex characters. */
  ghost predicate Sound(c: Crypto) {
    && (forall p :: c.compare(p, c.hash(p)))
    && (forall p :: '$' in c.hash(p))
    && (forall p :: |c.sha256Hex(p)| == 64 && IsLowerHex(c.sha256Hex(p)))
  }
}
