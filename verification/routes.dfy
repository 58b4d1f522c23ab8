/**
 routes/auth.js, routes/posts.js and routes/users.js: which stages run,
 in which order, in front of each handler. A stage either passes the
 request on or answers it; the first stage that answers decides the
 response, so the order fixes which error wins.
 */
module Routes {
  import opened Foundation
  import opened Collaborators
  import opened Models
  import opened Responses
  import opened Validation
  import opened AuthMiddleware
  import AuthController
  import PostController
  import UserController

  /** What a handler sees of a request: the `Authorization` header, the
      `:id` path parameter, the query string and the JSON body. */
  datatype Request = Request(authorization: Option<string>, id: string, query: Fields, body: Fields)

  /** The mounted routes (`/api/auth`, `/api/posts`, `/api/users`). */
  datatype Route =
    | AuthRegister      // POST /api/auth/register
    | AuthLogin         // POST /api/auth/login
    | AuthLogout        // POST /api/auth/logout
    | AuthMe            // GET  /api/auth/me
    | AuthVerifyToken   // GET  /api/auth/verify-token
    | PostsIndex        // GET  /api/posts
    | PostsMine         // GET  /api/posts/my-posts
    | PostsCreate       // POST /api/posts
    | PostsShow         // GET  /api/posts/:id
    | PostsUpdate       // PUT  /api/posts/:id
    | PostsDelete       // DELETE /api/posts/:id
    | UsersShow         // GET  /api/users/:id
    | UsersPosts        // GET  /api/users/:id/posts

  /** A read-only answer. */
  function Answer(s: Store, response: Response): (r: Reply)
    ensures r.store == s && r.response == response
  {
    Reply(response, s)
  }

  /** `validateObjectId('id')` with its aggregator. */
  function IdStage(env: Env, id: string): (r: Step<()>)
    ensures r.Next? <==> env.isMongoId(id)
    ensures r.Halt? ==> r.response == Response(400, Invalid([Violation("id", "Invalid id format", Some(id))]))
  {
    assert "Invalid " + "id" + " format" == "Invalid id format";
    HandleValidationErrors(ObjectIdRules(env, "id", id))
  }

  // ----------------------------------------------------------- auth.js

  /** The registration handler behind its rule set's outcome. */
  function GatedRegister(env: Env, s: Store, c: Checked, now: nat): (r: Reply)
    ensures c.violations != [] ==> r == Reply(Response(400, Invalid(c.violations)), s)
    ensures c.violations == [] ==>
              r == AuthController.Register(env, s, AuthController.RegistrationFormOf(c.fields), now)
  {
    match Gate(c)
    case Halt(response) => Answer(s, response)
    case Next(fields) => AuthController.Register(env, s, AuthController.RegistrationFormOf(fields), now)
  }

  /** `router.post('/register', validateUserRegistration, register)` */
  function RegisterRoute(env: Env, s: Store, req: Request, now: nat): (r: Reply)
    ensures RegistrationRules(env, req.body).violations != [] ==>
              r == Reply(Response(400, Invalid(RegistrationRules(env, req.body).violations)), s)
    ensures RegistrationRules(env, req.body).violations == [] ==>
              r == AuthController.Register(env, s, AuthController.RegistrationFormOf(RegistrationFields(env, req.body)), now)
    ensures forall id :: id in s.users ==> id in r.store.users && r.store.users[id] == s.users[id]
  {
    GatedRegister(env, s, RegistrationRules(env, req.body), now)
  }

  /** `router.post('/login', validateUserLogin, login)` */
  function LoginRoute(env: Env, s: Store, req: Request): (r: Reply)
    ensures r.store == s
    ensures LoginRules(env, req.body).violations != [] ==>
              r.response == Response(400, Invalid(LoginRules(env, req.body).violations))
    ensures LoginRules(env, req.body).violations == [] ==>
              r.response == AuthController.Login(env, s.users, LoginRules(env, req.body).fields)
  {
    match Gate(LoginRules(env, req.body))
    case Halt(response) => Answer(s, response)
    case Next(fields) => Answer(s, AuthController.Login(env, s.users, fields))
  }

  /** `router.post('/logout', authenticate, logout)` */
  function LogoutRoute(env: Env, s: Store, req: Request): (r: Reply)
    ensures r.store == s
    ensures Authenticate(env, s.users, req.authorization).Halt? ==>
              r.response == Authenticate(env, s.users, req.authorization).response
    ensures Authenticate(env, s.users, req.authorization).Next? ==> r.response == AuthController.Logout()
  {
    match Authenticate(env, s.users, req.authorization)
    case Halt(response) => Answer(s, response)
    case Next(_) => Answer(s, AuthController.Logout())
  }

  /** `authenticate, getMe`, the stages of both `/me` and `/verify-token`:
      an authenticated request always finds its user. */
  function CurrentUserRoute(env: Env, s: Store, req: Request): (r: Reply)
    ensures r.store == s
    ensures r.response.status in {200, 401}
    ensures Authenticate(env, s.users, req.authorization).Halt? ==>
              r.response == Authenticate(env, s.users, req.authorization).response
    ensures Authenticate(env, s.users, req.authorization).Next? ==>
              r.response == AuthController.GetMe(s.users, Authenticate(env, s.users, req.authorization).value.userId)
  {
    match Authenticate(env, s.users, req.authorization)
    case Halt(response) => Answer(s, response)
    case Next(principal) => Answer(s, AuthController.GetMe(s.users, principal.userId))
  }

  // ---------------------------------------------------------- posts.js

  /** `router.get('/', validatePagination, getAllPosts)`: the query is
      checked but does not shape the listing. */
  function PostsIndexRoute(s: Store, req: Request): (r: Reply)
    ensures r.store == s
    ensures PaginationRules(req.query) != [] ==> r.response == Response(400, Invalid(PaginationRules(req.query)))
    ensures PaginationRules(req.query) == [] ==> r.response == PostController.GetAllPosts(s)
  {
    match HandleValidationErrors(PaginationRules(req.query))
    case Halt(response) => Answer(s, response)
    case Next(_) => Answer(s, PostController.GetAllPosts(s))
  }

  /** `router.get('/my-posts', authenticate, validatePagination, getMyPosts)` */
  function PostsMineRoute(env: Env, s: Store, req: Request): (r: Reply)
    ensures r.store == s
    ensures Authenticate(env, s.users, req.authorization).Halt? ==>
              r.response == Authenticate(env, s.users, req.authorization).response
    ensures Authenticate(env, s.users, req.authorization).Next? && PaginationRules(req.query) != [] ==>
              r.response == Response(400, Invalid(PaginationRules(req.query)))
    ensures Authenticate(env, s.users, req.authorization).Next? && PaginationRules(req.query) == [] ==>
              r.response == PostController.GetMyPosts(s, Authenticate(env, s.users, req.authorization).value.userId)
              && r.response.status == 200
  {
    match Authenticate(env, s.users, req.authorization)
    case Halt(response) => Answer(s, response)
    case Next(principal) =>
      match HandleValidationErrors(PaginationRules(req.query))
      case Halt(response) => Answer(s, response)
      case Next(_) => Answer(s, PostController.GetMyPosts(s, principal.userId))
  }

  /** `router.post('/', authenticate, createPost)`: no body validation. */
  function PostsCreateRoute(env: Env, s: Store, req: Request, now: nat): (r: Reply)
    ensures r.store.users == s.users
    ensures Authenticate(env, s.users, req.authorization).Halt? ==>
              r == Reply(Authenticate(env, s.users, req.authorization).response, s)
    ensures Authenticate(env, s.users, req.authorization).Next? ==>
              r == PostController.CreatePost(s, Authenticate(env, s.users, req.authorization).value.userId,
                                             PostController.PostFormOf(req.body), now)
  {
    match Authenticate(env, s.users, req.authorization)
    case Halt(response) => Answer(s, response)
    case Next(principal) => PostController.CreatePost(s, principal.userId, PostController.PostFormOf(req.body), now)
  }

  /** `router.get('/:id', validateObjectId('id'), getPost)`: public. */
  function PostsShowRoute(env: Env, s: Store, req: Request): (r: Reply)
    ensures r.store == s
    ensures !env.isMongoId(req.id) ==> r.response == IdStage(env, req.id).response
    ensures env.isMongoId(req.id) ==> r.response == PostController.GetPost(env, s, req.id)
  {
    match IdStage(env, req.id)
    case Halt(response) => Answer(s, response)
    case Next(_) => Answer(s, PostController.GetPost(env, s, req.id))
  }

  /** The guard stages in front of a post mutation:
      `authenticate, validateObjectId('id'), checkOwnership(Post)`. On
      success, the requester and the post they are the author of. */
  function OwnerStages(env: Env, s: Store, req: Request): (r: Step<(Id, Id)>)
    ensures Authenticate(env, s.users, req.authorization).Halt? ==>
              r == Halt(Authenticate(env, s.users, req.authorization).response)
    ensures Authenticate(env, s.users, req.authorization).Next? && !env.isMongoId(req.id) ==>
              r == Halt(IdStage(env, req.id).response)
    ensures Authenticate(env, s.users, req.authorization).Next? && env.isMongoId(req.id) ==>
              var requester := Authenticate(env, s.users, req.authorization).value.userId;
              && (CheckOwnership(env, s.posts, req.id, requester).Halt? ==>
                    r == Halt(CheckOwnership(env, s.posts, req.id, requester).response))
              && (CheckOwnership(env, s.posts, req.id, requester).Next? ==>
                    r == Next((requester, CheckOwnership(env, s.posts, req.id, requester).value.0)))
    ensures r.Next? ==>
              && r.value.0 in s.users && r.value.1 in s.posts
              && Some(r.value.1) == env.castId(req.id)
              && env.idText(s.posts[r.value.1].author) == env.idText(r.value.0)
  {
    match Authenticate(env, s.users, req.authorization)
    case Halt(response) => Halt(response)
    case Next(principal) =>
      match IdStage(env, req.id)
      case Halt(response) => Halt(response)
      case Next(_) =>
        match CheckOwnership(env, s.posts, req.id, principal.userId)
        case Halt(response) => Halt(response)
        case Next((postId, _)) => Next((principal.userId, postId))
  }

  /** `router.put('/:id', authenticate, validateObjectId('id'),
      checkOwnership(Post), updatePost)` */
  function PostsUpdateRoute(env: Env, s: Store, req: Request, now: nat): (r: Reply)
    ensures r.store.users == s.users
    ensures OwnerStages(env, s, req).Halt? ==> r == Reply(OwnerStages(env, s, req).response, s)
    ensures OwnerStages(env, s, req).Next? ==>
              r == PostController.UpdatePost(env, s, req.id, PostController.PostFormOf(req.body), now)
  {
    match OwnerStages(env, s, req)
    case Halt(response) => Answer(s, response)
    case Next(_) => PostController.UpdatePost(env, s, req.id, PostController.PostFormOf(req.body), now)
  }

  /** `router.delete('/:id', authenticate, validateObjectId('id'),
      checkOwnership(Post), deletePost)` */
  function PostsDeleteRoute(env: Env, s: Store, req: Request): (r: Reply)
    ensures r.store.users == s.users
    ensures OwnerStages(env, s, req).Halt? ==> r == Reply(OwnerStages(env, s, req).response, s)
    ensures OwnerStages(env, s, req).Next? ==> r == PostController.DeletePost(env, s, req.id)
  {
    match OwnerStages(env, s, req)
    case Halt(response) => Answer(s, response)
    case Next(_) => PostController.DeletePost(env, s, req.id)
  }

  // ---------------------------------------------------------- users.js

  /** `router.get('/:id', validateObjectId('id'), getUserProfile)` */
  function UsersShowRoute(env: Env, s: Store, req: Request): (r: Reply)
    ensures r.store == s
    ensures !env.isMongoId(req.id) ==> r.response == IdStage(env, req.id).response
    ensures env.isMongoId(req.id) ==> r.response == UserController.GetUserProfile(env, s, req.id)
  {
    match IdStage(env, req.id)
    case Halt(response) => Answer(s, response)
    case Next(_) => Answer(s, UserController.GetUserProfile(env, s, req.id))
  }

  /** `router.get('/:id/posts', validateObjectId('id'), getUserPosts)` */
  function UsersPostsRoute(env: Env, s: Store, req: Request): (r: Reply)
    ensures r.store == s
    ensures !env.isMongoId(req.id) ==> r.response == IdStage(env, req.id).response
    ensures env.isMongoId(req.id) ==> r.response == UserController.GetUserPosts(env, s, req.id)
  {
    match IdStage(env, req.id)
    case Halt(response) => Answer(s, response)
    case Next(_) => Answer(s, UserController.GetUserPosts(env, s, req.id))
  }

  // ---------------------------------------------------------- dispatch

  /** The application: a request on a route, against the store, at time
      `now`. `updateProfile`, `getAllUsers`, `searchUsers`,
      `checkEmailExists` and the post validators are mounted nowhere, so
      no request changes a user that already exists: registration only
      adds one, and the post routes leave the users alone. */
  function Handle(env: Env, s: Store, route: Route, req: Request, now: nat): (r: Reply)
    ensures route !in {AuthRegister, PostsCreate, PostsUpdate, PostsDelete} ==> r.store == s
    ensures forall id :: id in s.users ==> id in r.store.users && r.store.users[id] == s.users[id]
  {
    match route
    case AuthRegister => RegisterRoute(env, s, req, now)
    case AuthLogin => LoginRoute(env, s, req)
    case AuthLogout => LogoutRoute(env, s, req)
    case AuthMe => CurrentUserRoute(env, s, req)
    case AuthVerifyToken => CurrentUserRoute(env, s, req)
    case PostsIndex => PostsIndexRoute(s, req)
    case PostsMine => PostsMineRoute(env, s, req)
    case PostsCreate => PostsCreateRoute(env, s, req, now)
    case PostsShow => PostsShowRoute(env, s, req)
    case PostsUpdate => PostsUpdateRoute(env, s, req, now)
    case PostsDelete => PostsDeleteRoute(env, s, req)
    case UsersShow => UsersShowRoute(env, s, req)
    case UsersPosts => UsersPostsRoute(env, s, req)
  }

  // ----------------------------------------------------------- properties

  /** The guard order of `PUT` and `DELETE /api/posts/:id` (both run
      `OwnerStages`, and a halted stage leaves the store alone): a request
      that does not authenticate is a 401 whatever its id; then a malformed
      id is a 400; then a missing post a 404 and someone else's post a 403;
      only the author of an existing post gets through. */
  lemma GuardPrecedence(env: Env, s: Store, req: Request)
    requires Coherent(env)
    ensures var g := OwnerStages(env, s, req);
            var a := Authenticate(env, s.users, req.authorization);
            && (a.Halt? ==> g.Halt? && g.response.status == 401)
            && (a.Next? && !env.isMongoId(req.id) ==> g.Halt? && g.response.status == 400)
            && (a.Next? && env.isMongoId(req.id) && env.castId(req.id).value !in s.posts ==>
                  g == Halt(Fail(404, ItemNotFoundMessage)))
            && (a.Next? && env.isMongoId(req.id) && env.castId(req.id).value in s.posts
                && s.posts[env.castId(req.id).value].author != a.value.userId ==>
                  g == Halt(Fail(403, NotOwnerMessage)))
            && (a.Next? && env.isMongoId(req.id) && env.castId(req.id).value in s.posts
                && s.posts[env.castId(req.id).value].author == a.value.userId ==>
                  g == Next((a.value.userId, env.castId(req.id).value)))
  {
    var a := Authenticate(env, s.users, req.authorization);
    if a.Next? && env.isMongoId(req.id) {
      var id := env.castId(req.id).value;
      if id in s.posts {
        IdTextInjective(env, s.posts[id].author, a.value.userId);
      }
    }
  }

  /** Only the author changes a post: when `PUT` or `DELETE` changes the
      store, the request authenticated as the author of the post its id
      names. */
  lemma OnlyAuthorsMutate(env: Env, s: Store, req: Request, now: nat)
    requires Coherent(env)
    ensures PostsUpdateRoute(env, s, req, now).store != s || PostsDeleteRoute(env, s, req).store != s ==>
              && Authenticate(env, s.users, req.authorization).Next?
              && env.castId(req.id).Some?
              && env.castId(req.id).value in s.posts
              && s.posts[env.castId(req.id).value].author == Authenticate(env, s.users, req.authorization).value.userId
  {
    var g := OwnerStages(env, s, req);
    if g.Next? {
      IdTextInjective(env, s.posts[g.value.1].author, g.value.0);
    }
  }

  /** `/my-posts` authenticates before it validates the query: without a
      valid token the answer is the 401, however bad the query. */
  lemma MyPostsAuthenticatesFirst(env: Env, s: Store, req: Request, now: nat)
    requires Authenticate(env, s.users, req.authorization).Halt?
    ensures Handle(env, s, PostsMine, req, now).response.status == 401
    ensures Handle(env, s, PostsMine, req, now) ==
              Handle(env, s, PostsMine, req.(query := map[]), now)
  {
  }

  /** The public routes answer the same with or without a token. */
  lemma PublicRoutesIgnoreAuthorization(env: Env, s: Store, route: Route, req: Request, header: Option<string>, now: nat)
    requires route in {AuthRegister, AuthLogin, PostsIndex, PostsShow, UsersShow, UsersPosts}
    ensures Handle(env, s, route, req.(authorization := header), now) == Handle(env, s, route, req, now)
  {
  }

  /** `/me` and `/verify-token` are the same handler behind the same guard. */
  lemma VerifyTokenIsMe(env: Env, s: Store, req: Request, now: nat)
    ensures Handle(env, s, AuthVerifyToken, req, now) == Handle(env, s, AuthMe, req, now)
    ensures Handle(env, s, AuthMe, req, now).response.status in {200, 401}
  {
  }

  lemma RegisterRoutePreservesValid(env: Env, s: Store, req: Request, now: nat)
    requires Coherent(env) && Valid(s)
    ensures Valid(RegisterRoute(env, s, req, now).store)
  {
    var c := RegistrationRules(env, req.body);
    if c.violations == [] {
      AuthController.RegisterPreservesValid(env, s, AuthController.RegistrationFormOf(c.fields), now);
    }
  }

  lemma PostsCreateRoutePreservesValid(env: Env, s: Store, req: Request, now: nat)
    requires Valid(s)
    ensures Valid(PostsCreateRoute(env, s, req, now).store)
  {
    var a := Authenticate(env, s.users, req.authorization);
    if a.Next? {
      PostController.CreatePostPreservesValid(s, a.value.userId, PostController.PostFormOf(req.body), now);
    }
  }

  lemma PostsUpdateRoutePreservesValid(env: Env, s: Store, req: Request, now: nat)
    requires Valid(s)
    ensures Valid(PostsUpdateRoute(env, s, req, now).store)
  {
    PostController.UpdatePostPreservesValid(env, s, req.id, PostController.PostFormOf(req.body), now);
  }

  /** Every route keeps the store invariant: well-formed users with unique
      emails, well-formed posts whose authors exist. */
  lemma HandlePreservesValid(env: Env, s: Store, route: Route, req: Request, now: nat)
    requires Coherent(env) && Valid(s)
    ensures Valid(Handle(env, s, route, req, now).store)
  {
    match route {
      case AuthRegister => RegisterRoutePreservesValid(env, s, req, now);
      case PostsCreate => PostsCreateRoutePreservesValid(env, s, req, now);
      case PostsUpdate => PostsUpdateRoutePreservesValid(env, s, req, now);
      case PostsDelete => PostController.DeletePostPreservesValid(env, s, req.id);
      case _ =>
    }
  }
}
