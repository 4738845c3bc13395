/** Passwords, one-time tokens and the links that carry them, as every kind of account has them. */
module Credentials {
  import opened Timing

  type RawToken = nat

  /** A token digest. Constructors are injective, which is what is assumed of the hash. */
  datatype Hash = Sha256(raw: RawToken)

  const MIN_PASSWORD_LENGTH := 8

  /** How long a password reset link opens. */
  const RESET_TTL: int := HOUR
}
