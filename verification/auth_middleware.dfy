/**
 The two middlewares of middlewares/auth.js: `authenticate`, a decision
 chain over the `Authorization` header (the `Bearer` credential of section
 2.1 of RFC 6750 carrying a JWT, RFC 7519), and `checkOwnership`, the
 three-way guard in front of post mutations.
 */
module AuthMiddleware {
  import opened Foundation
  import opened Text
  import opened Collaborators
  import opened Models
  import opened Responses

  const NoTokenMessage: string := "Access denied. No token provided."
  const BadFormatMessage: string := "Access denied. Invalid token format."
  const UnknownUserMessage: string := "Token verification failed. User not found."
  const InvalidTokenMessage: string := "Token verification failed. Invalid token."
  const ExpiredTokenMessage: string := "Token verification failed. Token expired."
  const VerificationFailedMessage: string := "Token verification failed"

  /** The prefix test of the original, which is case-sensitive (unlike the
      scheme name of section 2.1 of RFC 7235). */
  const BearerPrefix: string := "Bearer "

  /** What a successful authentication attaches: `req.userId` and
      `req.user` (the user document without its password). */
  datatype Principal = Principal(userId: Id, user: SafeUser)

  predicate StartsWith(s: string, prefix: string) {
    |prefix| <= |s| && s[..|prefix|] == prefix
  }

  /** The token a header carries: the header with its first seven
      characters (`'Bearer '`) dropped. */
  function BearerToken(header: string): (token: string)
    requires StartsWith(header, BearerPrefix)
    ensures BearerPrefix + token == header
  {
    header[|BearerPrefix|..]
  }

  /** The user lookup on the decoded `userId` claim: a claim that is
      absent finds nobody (`findById(undefined)` resolves to null); one that
      does not cast throws a `CastError`, which lands in the generic branch. */
  function LookupClaim(env: Env, users: map<Id, User>, claim: Option<string>): (r: Step<Principal>)
    ensures r.Halt? ==> r.response.status == 401
    ensures r.Next? <==> claim.Some? && env.castId(claim.value).Some? && env.castId(claim.value).value in users
    ensures r.Next? ==> Some(r.value.userId) == env.castId(claim.value)
                        && r.value.user == ToSafeUser(r.value.userId, users[r.value.userId])
  {
    match claim
    case None => Halt(Fail(401, UnknownUserMessage))
    case Some(text) =>
      match env.castId(text)
      case None => Halt(Fail(401, VerificationFailedMessage))
      case Some(id) =>
        if id !in users then Halt(Fail(401, UnknownUserMessage))
        else Next(Principal(id, ToSafeUser(id, users[id])))
  }

  /** `authenticate`: exactly one of a 401 with a reason, or `next()` with
      the principal. The header is absent when `authorization` is `None`. */
  function Authenticate(env: Env, users: map<Id, User>, authorization: Option<string>): (r: Step<Principal>)
    // every failure is a 401; success is decided by the header alone plus the store
    ensures r.Halt? ==> r.response.status == 401
    ensures r.Next? <==>
      && Truthy(authorization)
      && StartsWith(authorization.value, BearerPrefix)
      && var token := BearerToken(authorization.value);
      && token != ""
      && env.verify(token).Decoded?
      && LookupClaim(env, users, env.verify(token).userId).Next?
    ensures r.Next? ==> r.value.userId in users && r.value.user.id == r.value.userId
    ensures r.Next? ==> r.value.user == ToSafeUser(r.value.userId, users[r.value.userId])
    // the individual failure reasons
    ensures !Truthy(authorization) ==> r == Halt(Fail(401, NoTokenMessage))
    ensures Truthy(authorization) && !StartsWith(authorization.value, BearerPrefix) ==>
              r == Halt(Fail(401, BadFormatMessage))
    ensures authorization == Some(BearerPrefix) ==> r == Halt(Fail(401, NoTokenMessage))
  {
    if !Truthy(authorization) then Halt(Fail(401, NoTokenMessage))
    else if !StartsWith(authorization.value, BearerPrefix) then Halt(Fail(401, BadFormatMessage))
    else
      var token := BearerToken(authorization.value);
      if token == "" then Halt(Fail(401, NoTokenMessage))
      else
        match env.verify(token)
        case JsonWebTokenError => Halt(Fail(401, InvalidTokenMessage))
        case TokenExpiredError => Halt(Fail(401, ExpiredTokenMessage))
        case OtherVerifyError => Halt(Fail(401, VerificationFailedMessage))
        case Decoded(claim) => LookupClaim(env, users, claim)
  }

  /** Verification failures are told apart: an invalid and an expired
      token get different messages, and neither reaches the handler. */
  lemma VerificationFailureMessages(env: Env, users: map<Id, User>, token: string)
    requires token != ""
    ensures env.verify(token).JsonWebTokenError? ==>
              Authenticate(env, users, Some(BearerPrefix + token)) == Halt(Fail(401, InvalidTokenMessage))
    ensures env.verify(token).TokenExpiredError? ==>
              Authenticate(env, users, Some(BearerPrefix + token)) == Halt(Fail(401, ExpiredTokenMessage))
    ensures InvalidTokenMessage != ExpiredTokenMessage
  {
    var h := BearerPrefix + token;
    assert StartsWith(h, BearerPrefix) && BearerToken(h) == token;
  }

  /** A token the application issued for an existing user authenticates
      as that user (before it expires). */
  lemma IssuedTokenAuthenticates(env: Env, users: map<Id, User>, u: Id)
    requires Coherent(env)
    requires u in users
    ensures Authenticate(env, users, Some(BearerPrefix + env.sign(u))) ==
              Next(Principal(u, ToSafeUser(u, users[u])))
  {
    var h := BearerPrefix + env.sign(u);
    assert StartsWith(h, BearerPrefix) && BearerToken(h) == env.sign(u);
  }

  /** A token issued for a user who is not in the store is refused with
      'User not found'. */
  lemma IssuedTokenForMissingUser(env: Env, users: map<Id, User>, u: Id)
    requires Coherent(env)
    requires u !in users
    ensures Authenticate(env, users, Some(BearerPrefix + env.sign(u))) == Halt(Fail(401, UnknownUserMessage))
  {
    var h := BearerPrefix + env.sign(u);
    assert StartsWith(h, BearerPrefix) && BearerToken(h) == env.sign(u);
  }

  // ------------------------------------------------------- checkOwnership

  const ItemNotFoundMessage: string := "Item not found"
  const NotOwnerMessage: string := "Not authorized to perform this action"
  const OwnershipErrorFallback: string := "Server error during ownership check"

  /** `checkOwnership(Post)`: 404 when the post does not exist, 403 when
      its author's id text differs from the requester's, otherwise `next()`
      with the post attached; the exception a malformed id raises gives 500. */
  function CheckOwnership(env: Env, posts: map<Id, Post>, idText: string, requester: Id): (r: Step<(Id, Post)>)
    ensures r.Halt? ==> r.response.status in {404, 403, 500}
    ensures r.Halt? && r.response.status == 500 <==> env.castId(idText).None?
    ensures r.Halt? && r.response.status == 404 <==> FindById(env, posts, idText).Absent?
    ensures r.Halt? && r.response.status == 403 <==>
              && FindById(env, posts, idText).Found?
              && env.idText(posts[FindById(env, posts, idText).id].author) != env.idText(requester)
    ensures r.Next? ==> Some(r.value.0) == env.castId(idText) && r.value.0 in posts && r.value.1 == posts[r.value.0]
    ensures r.Next? ==> env.idText(r.value.1.author) == env.idText(requester)
  {
    match FindById(env, posts, idText)
    case Uncastable => Halt(Crash(OwnershipErrorFallback))
    case Absent => Halt(Fail(404, ItemNotFoundMessage))
    case Found(id) =>
      if env.idText(posts[id].author) != env.idText(requester) then Halt(Fail(403, NotOwnerMessage))
      else Next((id, posts[id]))
  }

  /** Under the collaborators' promises the string comparison is an id
      comparison: the guard lets a request through exactly when the post
      exists and the requester is its author. */
  lemma OwnershipIsAuthorship(env: Env, posts: map<Id, Post>, idText: string, requester: Id)
    requires Coherent(env)
    ensures CheckOwnership(env, posts, idText, requester).Next? <==>
              && env.castId(idText).Some?
              && env.castId(idText).value in posts
              && posts[env.castId(idText).value].author == requester
  {
    if env.castId(idText).Some? && env.castId(idText).value in posts {
      IdTextInjective(env, posts[env.castId(idText).value].author, requester);
    }
  }
}
