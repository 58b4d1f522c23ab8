/**
 Request sequences across routes: what one request leaves in the store
 and what the next request on it then sees. These are the client flows
 of the API: register then log in, use the issued token, create a post
 then read it back, delete a post then fail to find it.
 */
module Scenarios {
  import opened Foundation
  import opened Text
  import opened Collaborators
  import opened Models
  import opened Responses
  import opened Validation
  import opened AuthMiddleware
  import opened Routes
  import AuthController
  import PostController

  /** The empty string is its own email key, so a document built from a
      missing email has an empty one. */
  lemma EmptyEmailKey()
    ensures EmailKey("") == ""
  {
  }

  /** A registration that succeeded passed its rules and reached the
      handler with the sanitized body. */
  lemma RegistrationPassedRules(env: Env, s: Store, req: Request, now: nat)
    requires RegisterRoute(env, s, req, now).response.status == 201
    ensures RegistrationRules(env, req.body).violations == []
    ensures RegisterRoute(env, s, req, now) ==
              AuthController.Register(env, s, AuthController.RegistrationFormOf(RegistrationFields(env, req.body)), now)
  {
  }

  /** A registration that succeeded had an email whose key is not empty
      and a password. */
  lemma RegisteredFormIsComplete(env: Env, s: Store, f: AuthController.RegistrationForm, now: nat)
    requires AuthController.Register(env, s, f, now).response.status == 201
    ensures f.email.Some? && f.email.value != "" && f.password.Some?
  {
    var doc := AuthController.RegistrationDoc(f, now);
    assert UserSchemaValid(doc);
    EmptyEmailKey();
  }

  /** What the registration rules accept, the login rules accept, and
      they sanitize the email alike. */
  lemma LoginRulesAfterRegistration(env: Env, body: Fields)
    requires RegistrationRules(env, body).violations == []
    ensures LoginRules(env, body).violations == []
    ensures Get(LoginRules(env, body).fields, "email") == NormalizedEmail(env, Get(body, "email"))
    ensures Get(LoginRules(env, body).fields, "password") == Get(body, "password")
  {
  }

  /** The form `register` reads from the sanitized body: the normalized
      email and the password as sent. */
  lemma RegistrationFormFields(env: Env, body: Fields)
    ensures AuthController.RegistrationFormOf(RegistrationFields(env, body)).email == NormalizedEmail(env, Get(body, "email"))
    ensures AuthController.RegistrationFormOf(RegistrationFields(env, body)).password == Get(body, "password")
  {
  }

  /** The handler-level half: after `register` created a user, `login`
      with the same email and password finds that user and accepts the
      password against its hash. */
  lemma RegisteredUserLogsIn(env: Env, s: Store, f: AuthController.RegistrationForm, now: nat, body: Fields)
    requires Coherent(env) && Valid(s)
    requires AuthController.Register(env, s, f, now).response.status == 201
    requires Get(body, "email") == f.email && Get(body, "password") == f.password
    ensures var reg := AuthController.Register(env, s, f, now);
            var id := reg.response.body.user.id;
            && id in reg.store.users
            && AuthController.Login(env, reg.store.users, body) ==
                 Response(200, Session(AuthController.LoggedInMessage, ToUserResponse(id, reg.store.users[id]), env.sign(id)))
  {
    var reg := AuthController.Register(env, s, f, now);
    RegisteredFormIsComplete(env, s, f, now);
    var id := reg.response.body.user.id;
    var email := f.email.value;
    var password := f.password.value;
    assert FindUserByEmail(reg.store.users, email) == Some(id) by {
      AuthController.RegisterPreservesValid(env, s, f, now);
      assert reg.store.users[id].email == EmailKey(email);
      FindUserByEmailUnique(reg.store.users, id, email);
    }
    assert env.compare(password, reg.store.users[id].password) by {
      assert reg.store.users[id].password == env.hash(password);
    }
    assert body["email"] == email && body["password"] == password;
    AuthController.LoginAccepts(env, reg.store.users, body, id);
  }

  /** The login route, sent the body a registration accepted, logs in
      the user that registration created. */
  lemma RegisteredBodyLogsIn(env: Env, s: Store, req: Request, now: nat)
    requires Coherent(env) && Valid(s)
    requires RegistrationRules(env, req.body).violations == []
    requires AuthController.Register(env, s, AuthController.RegistrationFormOf(RegistrationFields(env, req.body)), now).response.status == 201
    ensures var reg := AuthController.Register(env, s, AuthController.RegistrationFormOf(RegistrationFields(env, req.body)), now);
            && reg.response.body.Session?
            && var id := reg.response.body.user.id;
            && id in reg.store.users
            && LoginRoute(env, reg.store, req) ==
                 Reply(Response(200, Session(AuthController.LoggedInMessage,
                                             ToUserResponse(id, reg.store.users[id]), env.sign(id))),
                       reg.store)
  {
    var f := AuthController.RegistrationFormOf(RegistrationFields(env, req.body));
    var reg := AuthController.Register(env, s, f, now);
    LoginRouteAfterRegistration(env, reg.store, req);
    RegisteredBodyCredentials(env, req.body);
    RegisteredUserLogsIn(env, s, f, now, LoginRules(env, req.body).fields);
  }

  /** A body the registration rules accept passes the login rules too, so
      the login route hands it to `login`. */
  lemma LoginRouteAfterRegistration(env: Env, s: Store, req: Request)
    requires RegistrationRules(env, req.body).violations == []
    ensures LoginRoute(env, s, req) == Reply(AuthController.Login(env, s.users, LoginRules(env, req.body).fields), s)
  {
    LoginRulesAfterRegistration(env, req.body);
  }

  /** `login` reads from a registered body the email and password that
      `register` read from it. */
  lemma RegisteredBodyCredentials(env: Env, body: Fields)
    requires RegistrationRules(env, body).violations == []
    ensures Get(LoginRules(env, body).fields, "email") == AuthController.RegistrationFormOf(RegistrationFields(env, body)).email
    ensures Get(LoginRules(env, body).fields, "password") == AuthController.RegistrationFormOf(RegistrationFields(env, body)).password
  {
    LoginRulesAfterRegistration(env, body);
    RegistrationFormFields(env, body);
  }

  /** The credentials a registration accepted log in straight away, as
      the user it created, with a token for that user. */
  lemma RegisteredCredentialsLogIn(env: Env, s: Store, req: Request, now: nat)
    requires Coherent(env) && Valid(s)
    requires RegisterRoute(env, s, req, now).response.status == 201
    ensures var reg := RegisterRoute(env, s, req, now);
            && reg.response.body.Session?
            && var id := reg.response.body.user.id;
            && id in reg.store.users
            && LoginRoute(env, reg.store, req) ==
                 Reply(Response(200, Session(AuthController.LoggedInMessage,
                                             ToUserResponse(id, reg.store.users[id]), env.sign(id))),
                       reg.store)
  {
    RegistrationPassedRules(env, s, req, now);
    RegisteredBodyLogsIn(env, s, req, now);
  }

  /** The token a registration returns opens `/me` for the new user. */
  lemma RegistrationTokenOpensMe(env: Env, s: Store, req: Request, now: nat, next: Request)
    requires Coherent(env)
    requires RegisterRoute(env, s, req, now).response.status == 201
    requires RegisterRoute(env, s, req, now).response.body.Session?
    requires next.authorization == Some(BearerPrefix + RegisterRoute(env, s, req, now).response.body.token)
    ensures var reg := RegisterRoute(env, s, req, now);
            var id := reg.response.body.user.id;
            && id in reg.store.users
            && CurrentUserRoute(env, reg.store, next) ==
                 Reply(Response(200, Account(None, ToUserResponse(id, reg.store.users[id]))), reg.store)
  {
    var f := AuthController.RegistrationFormOf(RegistrationFields(env, req.body));
    var reg := RegisterRoute(env, s, req, now);
    assert reg == AuthController.Register(env, s, f, now) by {
      RegistrationPassedRules(env, s, req, now);
    }
    var id := reg.response.body.user.id;
    assert id in reg.store.users && reg.response.body.token == env.sign(id);
    IssuedTokenAuthenticates(env, reg.store.users, id);
  }

  /** A post created through the API reads back, by the text of its id,
      as the very view the creation returned. */
  lemma CreatedPostReadsBack(env: Env, s: Store, req: Request, now: nat, next: Request)
    requires Coherent(env)
    requires PostsCreateRoute(env, s, req, now).response.status == 201
    requires PostsCreateRoute(env, s, req, now).response.body.OnePost?
    requires next.id == env.idText(PostsCreateRoute(env, s, req, now).response.body.post.postId)
    ensures var created := PostsCreateRoute(env, s, req, now);
            PostsShowRoute(env, created.store, next) ==
              Reply(Response(200, OnePost(None, created.response.body.post)), created.store)
  {
    var a := Authenticate(env, s.users, req.authorization);
    assert a.Next?;
    var created := PostController.CreatePost(s, a.value.userId, PostController.PostFormOf(req.body), now);
    assert PostsCreateRoute(env, s, req, now) == created;
    var id := created.response.body.post.postId;
    assert env.isMongoId(next.id) && env.castId(next.id) == Some(id);
    assert created.store.users == s.users;
    assert created.store.posts[id].author in s.users;
  }

  /** Once its author has deleted a post, fetching it is a 404. */
  lemma DeletedPostIsNotFound(env: Env, s: Store, req: Request, next: Request)
    requires PostsDeleteRoute(env, s, req).response.status == 200
    requires next.id == req.id
    ensures PostsShowRoute(env, PostsDeleteRoute(env, s, req).store, next).response ==
              Fail(404, PostController.PostNotFoundMessage)
  {
    assert OwnerStages(env, s, req).Next?;
    assert env.isMongoId(req.id);
    PostController.DeletedPostIsGone(env, s, req.id);
  }
}
