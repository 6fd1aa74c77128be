/**
  Password hashing, kept abstract. generate_password_hash draws a random salt:
  here the salt is a parameter. The digest is an ideal one: it determines the
  password it was made from, so the check accepts exactly that password.
 */
module Passwords {

  type Salt = nat

  datatype PasswordHash = PasswordHash(salt: Salt, digest: Digest)

  /** The ideal digest of a password (no collisions). */
  datatype Digest = Ideal(preimage: string)

  /** generate_password_hash(password), with its random salt passed in. */
  function GeneratePasswordHash(password: string, salt: Salt): (h: PasswordHash)
    ensures h.salt == salt
    ensures forall p :: CheckPasswordHash(h, p) <==> p == password
  {
    PasswordHash(salt, Ideal(password))
  }

  /** check_password_hash(stored, password). */
  predicate CheckPasswordHash(stored: PasswordHash, password: string) {
    stored.digest == Ideal(password)
  }

  /** A generated hash is accepted by the check for its own password and for no other. */
  lemma CheckAcceptsOnlyTheHashedPassword(password: string, salt: Salt, attempt: string)
    ensures CheckPasswordHash(GeneratePasswordHash(password, salt), attempt) <==> attempt == password
  {
  }
}
