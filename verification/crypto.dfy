/** Password hashing (bcrypt) and bearer tokens (JSON Web Tokens) as the order API
    uses them. Both libraries are outside the model: their operations are fields of a
    `Crypto` record handed to every operation that needs them, and the only facts
    assumed about them are collected in `Sound`. The signing secret and the token
    lifetime are fixed configuration and are folded into `sign` and `verify`. */
module Crypto {
  import opened Common

  /** The claims a token carries: the user's identifier and email. */
  datatype Claims = Claims(id: string, email: string)

  /** Cost factor passed to the password hash. */
  const SaltRounds: nat := 10

  datatype Crypto = Crypto(
    hash: (string, nat) -> string,       // bcrypt.hash(password, rounds)
    compare: (string, string) -> bool,   // bcrypt.compare(password, storedHash)
    sign: Claims -> string,              // jwt.sign({id, email}, secret, {expiresIn})
    verify: string -> Option<Claims>     // jwt.verify(token, secret); None on any error
  )

  /** The assumptions on the libraries: a password matches its own hash, a freshly
      signed token verifies to the claims it was signed with, and a token (compact
      JWS: base64url segments joined by dots) never contains a space. Expiry is not
      modelled, so "freshly signed" is "signed". */
  ghost predicate Sound(c: Crypto) {
    && (forall p :: c.compare(p, c.hash(p, SaltRounds)))
    && (forall cl :: c.verify(c.sign(cl)) == Some(cl))
    && (forall cl :: ' ' !in c.sign(cl))
  }
}
