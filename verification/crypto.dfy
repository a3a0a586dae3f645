/** The password-hashing collaborator (bcrypt), kept abstract: the key
    schedule is a parameter, and only the salted-digest structure and the
    compare-by-recomputation rule are modelled. */
module Crypto {

  /** Cost factor passed to salt generation at signup. */
  const SaltRounds: nat := 10

  /** A stored password: cost, salt and the checksum derived from the password. */
  datatype Digest = Digest(rounds: nat, salt: nat, checksum: nat)

  /** The opaque key-derivation function: (password, rounds, salt) to checksum. */
  type Hasher = (string, nat, nat) -> nat

  /** Hashing `password` under a fresh `salt` at the signup cost. */
  function Hash(h: Hasher, password: string, salt: nat): (d: Digest)
    ensures d.rounds == SaltRounds && d.salt == salt
    ensures Compare(h, password, d)
  {
    Digest(SaltRounds, salt, h(password, SaltRounds, salt))
  }

  /** A candidate password matches a digest when it re-derives the checksum
      under the digest's own cost and salt. */
  predicate Compare(h: Hasher, password: string, d: Digest)
  {
    h(password, d.rounds, d.salt) == d.checksum
  }
}
