/**
 * The cryptographic calls the controllers and the schema make, as symbolic
 * values: bcrypt, SHA-256 and JWT signing are foreign library code, so each
 * result is a constructor that records what it was computed from. This is
 * the ideal, collision-free reading of the three primitives.
 */
module Crypto {
  import opened Http

  newtype byte = b: int | 0 <= b < 256

  /** The random salt `bcrypt.genSalt` draws. */
  type Salt = seq<byte>

  /** The work factor passed to `bcrypt.genSalt`. */
  const BcryptCost: nat := 10

  /**
   * What the password path of a user document holds: the plaintext a client
   * sent, or a bcrypt digest of an earlier value of the path.
   */
  datatype PasswordValue = Plain(text: string) | Bcrypt(cost: nat, salt: Salt, input: PasswordValue)

  /** `bcrypt.hash(value, salt)` with a salt of cost 10. */
  function BcryptHash(v: PasswordValue, salt: Salt): (h: PasswordValue)
    ensures h.Bcrypt? && h.input == v && h.cost == BcryptCost
  {
    Bcrypt(BcryptCost, salt, v)
  }

  /** `bcrypt.compare(entered, stored)`: true only for a digest of exactly that plaintext. */
  predicate BcryptCompare(entered: string, stored: PasswordValue): (r: bool)
    ensures r ==> stored.Bcrypt?
  {
    stored.Bcrypt? && stored.input == Plain(entered)
  }

  /** A password matches its own digest, whatever the salt, and no other password does. */
  lemma CompareHash(p: string, q: string, salt: Salt)
    ensures BcryptCompare(q, BcryptHash(Plain(p), salt)) <==> p == q
  {
  }

  /**
   * A digest hashed a second time matches no plaintext. This holds because a
   * digest is never a plaintext here; in the program a digest is itself a
   * string, which would match the doubled digest.
   */
  lemma DoubleHashMatchesNothing(v: PasswordValue, salt: Salt, p: string)
    requires v.Bcrypt?
    ensures !BcryptCompare(p, BcryptHash(v, salt))
  {
  }

  /**
   * Hashing the digest of a password again, as the hook would if it did not
   * check the modified flag, makes the user's own password stop matching.
   */
  lemma RehashLosesPassword(p: string, salt: Salt, salt2: Salt)
    ensures BcryptCompare(p, BcryptHash(Plain(p), salt))
    ensures !BcryptCompare(p, BcryptHash(BcryptHash(Plain(p), salt), salt2))
  {
  }

  /** `crypto.createHash('sha256').update(preimage).digest('hex')`, injective as the model assumes. */
  datatype Sha256Digest = Sha256Hex(preimage: string)

  /** A signed JSON web token carrying `{ id }`. */
  datatype Jwt = Jwt(subject: UserId)

  /** `generateToken(id)`: `jwt.sign({ id }, JWT_SECRET, { expiresIn })`. */
  function GenerateToken(id: UserId): (t: Jwt)
    ensures t.subject == id
  {
    Jwt(id)
  }
}
