/**
 The libraries the backend calls but whose internals are not modelled:
 `jsonwebtoken` (signing and verification of the session token, RFC 7519),
 `bcryptjs` (password hashing), Mongoose's ObjectId casting and printing,
 the express-validator primitives `isEmail`, `isURL`, `isMongoId` and
 `normalizeEmail`, and MongoDB's `$regex` matching. Each is a function
 value the model is parameterised by; `Coherent` collects the promises
 those libraries make that the properties of the backend rely on.
 */
module Collaborators {
  import opened Foundation
  import opened Text

  /** What `jwt.verify(token, secret)` yields at the current time: the
      payload's `userId` claim (absent when the payload has none), or the
      name of the error class it throws. */
  datatype Verification =
    | Decoded(userId: Option<string>)
    | JsonWebTokenError   // bad signature or malformed token
    | TokenExpiredError   // `exp` has passed
    | OtherVerifyError    // any other failure (e.g. `NotBeforeError`)

  datatype Env = Env(
    /** `jwt.sign({ userId }, JWT_SECRET, { expiresIn })`, with the secret,
        the lifetime and the clock fixed. */
    sign: Id -> string,
    /** `jwt.verify(token, JWT_SECRET)` at the current time. */
    verify: string -> Verification,
    /** `bcrypt.hash(password, 12)`, with the salt it draws fixed. */
    hash: string -> string,
    /** `bcrypt.compare(candidate, hash)`. */
    compare: (string, string) -> bool,
    /** `ObjectId.prototype.toString`: the 24-digit hex form. */
    idText: Id -> string,
    /** Mongoose's cast of a request string to an ObjectId; `None` is the
        `CastError` it throws. */
    castId: string -> Option<Id>,
    isEmail: string -> bool,
    isUrl: string -> bool,
    isMongoId: string -> bool,
    normalizeEmail: string -> string,
    /** MongoDB accepts the string as a `$regex` pattern. */
    regexValid: string -> bool,
    /** `{ $regex: pattern, $options: 'i' }` matches the subject. */
    regexMatch: (string, string) -> bool
  )

  /** The promises of the collaborators: an id's text casts back to the
      id and is a well-formed ObjectId, a well-formed ObjectId casts, a
      token issued for `u` is non-empty and (before it expires) verifies to
      `u`'s text, the empty string is not an email, a password matches its
      own hash, and a hash is at least 6 code units long (bcrypt's are 60,
      which is all the `minlength` of the user schema needs). */
  ghost predicate Coherent(env: Env) {
    && (forall u: Id :: env.castId(env.idText(u)) == Some(u))
    && (forall u: Id :: env.isMongoId(env.idText(u)))
    && (forall s: string :: env.isMongoId(s) ==> env.castId(s).Some?)
    && (forall u: Id :: env.sign(u) != "" && env.verify(env.sign(u)) == Decoded(Some(env.idText(u))))
    && (forall p: string :: env.compare(p, env.hash(p)))
    && (forall p: string :: CodeUnits(env.hash(p)) >= 6)
    && !env.isEmail("")
  }

  /** Under the collaborators' promises, two ids print alike exactly when
      they are the same id, so comparing `toString()` forms compares ids. */
  lemma IdTextInjective(env: Env, a: Id, b: Id)
    requires Coherent(env)
    ensures env.idText(a) == env.idText(b) <==> a == b
  {
    if env.idText(a) == env.idText(b) {
      assert env.castId(env.idText(a)) == Some(a);
      assert env.castId(env.idText(b)) == Some(b);
    }
  }
}
