/**
 * The cryptographic collaborators: bcrypt's hash and compare, and jsonwebtoken's sign
 * and verify. Their internals are not modelled; each is an uninterpreted function, and
 * what the code relies on about them is stated as a predicate that lemmas assume.
 */
module Crypto {
  import opened Common
  import opened UserModel

  type Key = string
  type Token = string
  type Salt = string

  /** The cost factor `generatePasswordHash` passes to bcrypt. */
  const SaltRounds: nat := 10

  /** `expiresIn: '1h'`, in seconds. */
  const SessionTtlSeconds: nat := 60 * 60

  /** The claims `loginUser` signs: `{ _id, email }`. */
  datatype Claims = Claims(id: UserId, email: string)

  /** What `jwt.verify` decodes: the signed claims with the `iat` and `exp` the signer added. */
  datatype Payload = Payload(claims: Claims, iat: int, exp: int)

  /** Why `jwt.verify` rejects a token (jsonwebtoken reports each with its own message). */
  datatype Reason = Malformed | SignatureInvalid | Expired | NoSecret

  /** An exception thrown by a library call; its text is not modelled. */
  datatype Thrown = Thrown

  /** bcrypt.hash(password, rounds), with the random salt it draws made explicit. */
  type Hasher = (string, nat, Salt) -> string

  /** bcrypt.compare(password, hash); the hash is absent when the stored user has none. */
  type Comparer = (string, Option<string>) -> Result<bool, Thrown>

  /** jwt.sign(claims, key, { expiresIn }) at clock time `now` (seconds). */
  type Signer = (Claims, Key, nat, int) -> Result<Token, Thrown>

  /** jwt.verify(token, key) at clock time `now` (seconds). */
  type Verifier = (Token, Key, int) -> Result<Payload, Reason>

  datatype Oracles = Oracles(hash: Hasher, compare: Comparer, sign: Signer, verify: Verifier)

  /** bcrypt accepts a password against a hash made from it. */
  ghost predicate HashCompareSound(o: Oracles) {
    forall p, rounds, salt :: o.compare(p, Some(o.hash(p, rounds, salt))) == Ok(true)
  }

  /** bcrypt.compare rejects an undefined hash argument: it throws rather than answer. */
  ghost predicate CompareRejectsMissingHash(o: Oracles) {
    forall p :: o.compare(p, None).Err?
  }

  /**
   * A token signed at time t with lifetime ttl is a non-empty string that verifies under
   * the same key, yielding the signed claims, exactly while the clock is before its `exp`
   * claim t + ttl; from `exp` on it is rejected as expired (section 4.1.4 of RFC 7519).
   */
  ghost predicate CodecSound(o: Oracles) {
    forall c, k, ttl: nat, t :: o.sign(c, k, ttl, t).Ok? ==>
      && o.sign(c, k, ttl, t).value != ""
      && forall now :: o.verify(o.sign(c, k, ttl, t).value, k, now) ==
                        if now < t + ttl then Ok(Payload(c, t, t + ttl)) else Err(Expired)
  }
}
