/** Symbolic stand-ins for the password hasher and the token service.
    Neither bcrypt nor HS256 signing is modelled: a hash is an opaque term
    built from a salt and the plaintext, and a signature is an opaque term
    built from the process-wide secret key and the signed claims. Only the
    properties the login flow and the resolver rely on are stated about them. */
module Security {
  import opened Wrappers

  /** Lifetime of an access token, in minutes (`ACCESS_TOKEN_EXPIRE_MINUTES`). */
  const AccessTokenExpireMinutes: nat := 30

  // ---------------------------------------------------------------- passwords

  /** A salted one-way digest of a plaintext password. */
  datatype PasswordHash = PasswordHash(salt: string, digest: Digest)
  datatype Digest = Digest(salt: string, plaintext: string)

  function HashPassword(plaintext: string, salt: string): PasswordHash
  {
    PasswordHash(salt, Digest(salt, plaintext))
  }

  /** Recomputes the digest of `plaintext` under the stored salt and compares. */
  function VerifyPassword(plaintext: string, hashed: PasswordHash): bool
  {
    hashed.digest == Digest(hashed.salt, plaintext)
  }

  /** A stored hash accepts exactly the password it was made from, whatever the salt. */
  lemma HashVerifies(plaintext: string, candidate: string, salt: string)
    ensures VerifyPassword(candidate, HashPassword(plaintext, salt)) <==> candidate == plaintext
  {
  }

  // ------------------------------------------------------------------- tokens

  /** Timestamps are whole seconds. */
  type Time = int

  /** The signature over a token's claims; only the holder of `key` can build one. */
  datatype Signature = Signature(key: string, subject: string, expires: Time)

  /** A bearer token: the `sub` and `exp` claims and the signature over them. */
  datatype Token = Token(subject: string, expires: Time, signature: Signature)

  /** Issues a token for `subject` valid for `ttl` seconds from `now`. */
  function CreateAccessToken(key: string, subject: string, now: Time, ttl: int): (t: Token)
    ensures t.subject == subject && t.expires == now + ttl
  {
    Token(subject, now + ttl, Signature(key, subject, now + ttl))
  }

  /** The subject of a token whose signature checks under `key` and whose expiry
      has not passed at `now`; `None` for every other token, without saying why. */
  function VerifyToken(key: string, t: Token, now: Time): (r: Option<string>)
    ensures r.Some? ==> r.value == t.subject && now <= t.expires
  {
    if t.signature == Signature(key, t.subject, t.expires) && now <= t.expires
    then Some(t.subject)
    else None
  }

  /** Round trip: an issued token yields its subject up to and including its
      expiry instant and nothing afterwards. */
  lemma IssueThenVerify(key: string, subject: string, issued: Time, ttl: int, now: Time)
    ensures VerifyToken(key, CreateAccessToken(key, subject, issued, ttl), now)
         == if now <= issued + ttl then Some(subject) else None
  {
  }

  /** Tamper sensitivity: changing a claim of a valid token, or checking it
      under another key, makes verification fail. */
  lemma TamperedTokenRejected(key: string, t: Token, subject: string, expires: Time, otherKey: string, now: Time)
    requires VerifyToken(key, t, now).Some?
    requires subject != t.subject || expires != t.expires
    ensures VerifyToken(key, Token(subject, expires, t.signature), now).None?
    ensures otherKey != key ==> VerifyToken(otherKey, t, now).None?
  {
  }
}
