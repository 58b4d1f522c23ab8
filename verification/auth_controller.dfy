/**
 controllers/authController.js: registration, login, the current user,
 logout and the profile update. Handlers that may write return the store
 afterwards; the others leave it as it was.
 */
module AuthController {
  import opened Foundation
  import opened Text
  import opened Collaborators
  import opened Models
  import opened Responses

  const DuplicateEmailMessage: string := "An account with this email already exists"
  const RegisteredMessage: string := "User registered successfully"
  const RegistrationFailed: string := "Registration failed"
  const MissingCredentialsMessage: string := "Please enter both email and password"
  const UnknownEmailMessage: string := "No account found with this email address"
  const WrongPasswordMessage: string := "Incorrect password"
  const LoggedInMessage: string := "Login successful"
  const UserNotFoundMessage: string := "User not found"
  const LoggedOutMessage: string := "Logout successful"
  const ProfileUpdatedMessage: string := "Profile updated successfully"
  const ProfileUpdateFailed: string := "Failed to update profile"

  /** `User.findOne({ email })` with the email of the body; a missing email
      queries for `null`, which no stored user matches. */
  function ExistingUser(users: map<Id, User>, email: Option<string>): (r: Option<Id>)
    ensures email.None? ==> r.None?
    ensures email.Some? ==> r == FindUserByEmail(users, email.value)
  {
    if email.None? then None else FindUserByEmail(users, email.value)
  }

  /** `const { fullName, email, password, profileImage, bio } = req.body` */
  datatype RegistrationForm = RegistrationForm(
    fullName: Option<string>, email: Option<string>, password: Option<string>,
    profileImage: Option<string>, bio: Option<string>)

  function RegistrationFormOf(body: Fields): (f: RegistrationForm)
    ensures f.fullName == Get(body, "fullName") && f.email == Get(body, "email")
    ensures f.password == Get(body, "password")
    ensures f.profileImage == Get(body, "profileImage") && f.bio == Get(body, "bio")
  {
    RegistrationForm(Get(body, "fullName"), Get(body, "email"), Get(body, "password"),
                     Get(body, "profileImage"), Get(body, "bio"))
  }

  /** The document `User.create` is handed: the five body fields, with
      the setters and defaults applied. */
  function RegistrationDoc(f: RegistrationForm, now: nat): (u: User)
    ensures u.fullName == Trim(f.fullName.GetOr(""))
    ensures u.email == EmailKey(f.email.GetOr(""))
    ensures u.password == f.password.GetOr("")
    ensures u.profileImage == f.profileImage.GetOr(DefaultProfileImage)
    ensures u.bio == Trim(f.bio.GetOr(""))
    ensures u.createdAt == now && u.updatedAt == now
  {
    NewUser(f.fullName, f.email, f.password, f.profileImage, f.bio, now)
  }

  /** `User.create(doc)` and the 201 reply, for an email no user has:
      the document is saved under a fresh id with its password hashed, or
      the schema rejects it (500). Nothing else in the store changes. */
  function Enroll(env: Env, s: Store, doc: User): (r: Reply)
    requires forall id :: id in s.users ==> s.users[id].email != doc.email
    ensures r.response.status in {201, 500}
    ensures r.response.status == 201 <==> UserSchemaValid(doc)
    ensures r.response.status != 201 ==> r == Reply(Crash(RegistrationFailed), s)
    ensures forall id :: id in s.users ==> id in r.store.users && r.store.users[id] == s.users[id]
    ensures r.response.status == 201 ==>
              && r.response.body.Session?
              && var id := r.response.body.user.id;
              && id !in s.users
              && r.store == Store(s.users[id := doc.(password := env.hash(doc.password))], s.posts)
              && r.response.body == Session(RegisteredMessage, ToUserResponse(id, r.store.users[id]), env.sign(id))
  {
    match CreateUser(env, s.users, doc)
    case Err(_) => Reply(Crash(RegistrationFailed), s)
    case Ok((id, u)) =>
      Reply(Response(201, Session(RegisteredMessage, ToUserResponse(id, u), env.sign(id))),
            Store(s.users[id := u], s.posts))
  }

  /** `register` on the destructured body: 400 when the email is taken,
      otherwise the user is created (201 with a token for the new id), or
      the save fails (500, for a document the schema rejects). Only a 201
      changes the store, and it adds exactly one user: every user there
      was before is still there, unchanged. */
  function Register(env: Env, s: Store, f: RegistrationForm, now: nat): (r: Reply)
    ensures r.response.status in {201, 400, 500}
    ensures r.response.status == 400 <==> ExistingUser(s.users, f.email).Some?
    ensures r.response.status == 400 ==> r.response == Fail(400, DuplicateEmailMessage)
    ensures r.response.status == 201 <==>
              ExistingUser(s.users, f.email).None? && UserSchemaValid(RegistrationDoc(f, now))
    ensures r.response.status != 201 ==> r.store == s
    ensures forall id :: id in s.users ==> id in r.store.users && r.store.users[id] == s.users[id]
    ensures r.response.status == 201 ==>
              && r.response.body.Session?
              && var id := r.response.body.user.id;
              && id !in s.users
              && r.store == Store(s.users[id := RegistrationDoc(f, now).(password := env.hash(f.password.GetOr("")))], s.posts)
              && r.response.body == Session(RegisteredMessage, ToUserResponse(id, r.store.users[id]), env.sign(id))
  {
    if ExistingUser(s.users, f.email).Some? then Reply(Fail(400, DuplicateEmailMessage), s)
    // a missing email leaves the document's email empty, which `required`
    // rejects; otherwise the lookup above found nobody with its key
    else if f.email.None? then Reply(Crash(RegistrationFailed), s)
    else Enroll(env, s, RegistrationDoc(f, now))
  }

  /** Registration keeps the store invariant: the new user is well formed
      (the hash is long enough for `minlength`) and the duplicate check
      keeps emails unique. */
  lemma RegisterPreservesValid(env: Env, s: Store, f: RegistrationForm, now: nat)
    requires Coherent(env) && Valid(s)
    ensures Valid(Register(env, s, f, now).store)
  {
    var r := Register(env, s, f, now);
    if r.response.status == 201 {
      var doc := RegistrationDoc(f, now);
      var id := r.response.body.user.id;
      var u := doc.(password := env.hash(doc.password));
      assert r.store == Store(s.users[id := u], s.posts);
      assert UserSchemaValid(doc);
      assert CodeUnits(u.password) >= 6;
      assert WellFormedUser(u);
      assert f.email.Some?;
      assert forall other :: other in s.users ==> s.users[other].email != u.email by {
        assert FindUserByEmail(s.users, f.email.value).None?;
      }
      InsertUserPreservesValid(s, id, u);
    }
  }

  /** `login`: 400 before any lookup when the email or password is falsy,
      401 for an unknown email, a different 401 for a wrong password, and
      200 with a token for the user otherwise. */
  function Login(env: Env, users: map<Id, User>, body: Fields): (r: Response)
    ensures r.status in {200, 400, 401}
    ensures !Truthy(Get(body, "email")) || !Truthy(Get(body, "password")) ==>
              r == Fail(400, MissingCredentialsMessage)
    ensures r == Fail(401, UnknownEmailMessage) <==>
              Truthy(Get(body, "email")) && Truthy(Get(body, "password"))
              && FindUserByEmail(users, body["email"]).None?
    ensures r == Fail(401, WrongPasswordMessage) <==>
              Truthy(Get(body, "email")) && Truthy(Get(body, "password"))
              && FindUserByEmail(users, body["email"]).Some?
              && !env.compare(body["password"], users[FindUserByEmail(users, body["email"]).value].password)
    ensures r.status == 200 ==>
              && Truthy(Get(body, "email")) && Truthy(Get(body, "password"))
              && FindUserByEmail(users, body["email"]).Some?
              && var id := FindUserByEmail(users, body["email"]).value;
              && env.compare(body["password"], users[id].password)
              && r.body == Session(LoggedInMessage, ToUserResponse(id, users[id]), env.sign(id))
  {
    var email := Get(body, "email");
    var password := Get(body, "password");
    if !Truthy(email) || !Truthy(password) then Fail(400, MissingCredentialsMessage)
    else
      match FindUserByEmail(users, email.value)
      case None => Fail(401, UnknownEmailMessage)
      case Some(id) =>
        if !ComparePassword(env, users[id], password.value) then Fail(401, WrongPasswordMessage)
        else Response(200, Session(LoggedInMessage, ToUserResponse(id, users[id]), env.sign(id)))
  }

  /** The success path of `login`: an email that finds a user and a
      password that matches the stored hash log in as that user. */
  lemma LoginAccepts(env: Env, users: map<Id, User>, body: Fields, id: Id)
    requires Truthy(Get(body, "email")) && Truthy(Get(body, "password"))
    requires FindUserByEmail(users, body["email"]) == Some(id)
    requires env.compare(body["password"], users[id].password)
    ensures Login(env, users, body) == Response(200, Session(LoggedInMessage, ToUserResponse(id, users[id]), env.sign(id)))
  {
  }

  /** `getMe`: the authenticated user's response object, or 404. */
  function GetMe(users: map<Id, User>, userId: Id): (r: Response)
    ensures r.status in {200, 404}
    ensures r.status == 404 <==> userId !in users
    ensures r.status == 404 ==> r == Fail(404, UserNotFoundMessage)
    ensures r.status == 200 ==> r.body == Account(None, ToUserResponse(userId, users[userId]))
  {
    if userId !in users then Fail(404, UserNotFoundMessage)
    else Response(200, Account(None, ToUserResponse(userId, users[userId])))
  }

  /** `logout`: tokens are stateless, so the server only acknowledges. */
  function Logout(): (r: Response)
    ensures r == Response(200, Done(LoggedOutMessage))
  {
    Response(200, Done(LoggedOutMessage))
  }

  /** The field assignments of `updateProfile`: the name only when
      truthy, the picture and the bio whenever defined (so '' clears them);
      assignment runs the `trim` setters. */
  function MergeProfile(u: User, body: Fields): (m: User)
    ensures Truthy(Get(body, "fullName")) ==> m.fullName == Trim(body["fullName"])
    ensures !Truthy(Get(body, "fullName")) ==> m.fullName == u.fullName
    ensures m.profileImage == Get(body, "profileImage").GetOr(u.profileImage)
    ensures "bio" in body ==> m.bio == Trim(body["bio"])
    ensures "bio" !in body ==> m.bio == u.bio
    ensures m.email == u.email && m.password == u.password
    ensures m.createdAt == u.createdAt && m.updatedAt == u.updatedAt
  {
    var fullName := Get(body, "fullName");
    var profileImage := Get(body, "profileImage");
    var bio := Get(body, "bio");
    u.(fullName := if Truthy(fullName) then Trim(fullName.value) else u.fullName,
       profileImage := profileImage.GetOr(u.profileImage),
       bio := if bio.Some? then Trim(bio.value) else u.bio)
  }

  /** `updateProfile`: 404 for an unknown user; otherwise the merged
      document is saved (500 when the schema rejects it). Only that user
      changes, and never in email or password. */
  function UpdateProfile(env: Env, s: Store, userId: Id, body: Fields, now: nat): (r: Reply)
    ensures r.response.status in {200, 404, 500}
    ensures r.response.status == 404 <==> userId !in s.users
    ensures r.response.status == 200 <==> userId in s.users && UserSchemaValid(MergeProfile(s.users[userId], body))
    ensures r.response.status != 200 ==> r.store == s
    ensures r.response.status == 200 ==>
              && userId in s.users
              && UserSchemaValid(MergeProfile(s.users[userId], body))
              && r.store.posts == s.posts
              && r.store.users.Keys == s.users.Keys
              && (forall id :: id in s.users && id != userId ==> r.store.users[id] == s.users[id])
              && r.store.users[userId] == MergeProfile(s.users[userId], body).(updatedAt := r.store.users[userId].updatedAt)
              && r.response.body == Account(Some(ProfileUpdatedMessage), ToUserResponse(userId, r.store.users[userId]))
    ensures forall id :: id in s.users ==>
              r.store.users[id].email == s.users[id].email && r.store.users[id].password == s.users[id].password
  {
    if userId !in s.users then Reply(Fail(404, UserNotFoundMessage), s)
    else
      var stored := s.users[userId];
      match SaveUser(env, stored, MergeProfile(stored, body), now)
      case Err(_) => Reply(Crash(ProfileUpdateFailed), s)
      case Ok(saved) =>
        Reply(Response(200, Account(Some(ProfileUpdatedMessage), ToUserResponse(userId, saved))),
              Store(s.users[userId := saved], s.posts))
  }

  /** The profile update keeps the store invariant: the merged fields are
      trimmed, and email is untouched, so it stays unique. */
  lemma UpdateProfilePreservesValid(env: Env, s: Store, userId: Id, body: Fields, now: nat)
    requires Valid(s)
    ensures Valid(UpdateProfile(env, s, userId, body, now).store)
  {
    if userId in s.users {
      var stored := s.users[userId];
      var saved := SaveUser(env, stored, MergeProfile(stored, body), now);
      if saved.Ok? {
        assert WellFormedUser(saved.value);
        ReplaceUserPreservesValid(s, userId, saved.value);
      }
    }
  }
}
