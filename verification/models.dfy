/**
 The two Mongoose models (`User` and `Post`), the document store as two
 immutable maps from id to record, what creating and saving a document
 does (setters, defaults, schema validators, the password pre-save hook,
 the unique index, timestamps) and the lookups the handlers perform.
 */
module Models {
  import opened Foundation
  import opened Text
  import opened Collaborators

  /** A stored user document; `password` holds the bcrypt hash. */
  datatype User = User(
    fullName: string,
    email: string,
    password: string,
    profileImage: string,
    bio: string,
    createdAt: nat,
    updatedAt: nat)

  /** A stored post document; `author` references a user. */
  datatype Post = Post(
    title: string,
    description: string,
    imageUrl: Option<string>,
    author: Id,
    createdAt: nat,
    updatedAt: nat)

  /** The two collections. */
  datatype Store = Store(users: map<Id, User>, posts: map<Id, Post>)

  const DefaultProfileImage: string :=
    "https://images.unsplash.com/photo-1472099645785-5658abf4ff4e?ixlib=rb-4.0.3&auto=format&fit=crop&w=150&h=150&q=80"

  /** What the `lowercase` and `trim` setters make of an email, both when
      it is stored and when it appears in a query filter. */
  function EmailKey(e: string): (k: string)
    ensures Unpadded(k) && ToLower(k) == k
    ensures |k| <= |e|
  {
    LowerTrimCommute(e);
    TrimIdempotent(ToLower(e));
    ToLowerIdempotent(Trim(e));
    ToLower(Trim(e))
  }

  /** A key that is already in normal form is its own key. */
  lemma EmailKeyIdempotent(e: string)
    ensures EmailKey(EmailKey(e)) == EmailKey(e)
  {
    var k := EmailKey(e);
    TrimFixesUnpadded(k);
  }

  // ---------------------------------------------------------------- users

  /** The user schema's validators: `fullName` required with minlength 2,
      `email` required, `password` required with minlength 6. Mongoose's
      `required` rejects the empty string and `minlength` counts UTF-16
      code units. */
  predicate UserSchemaValid(u: User): (ok: bool)
    ensures ok <==> CodeUnits(u.fullName) >= 2 && u.email != "" && CodeUnits(u.password) >= 6
    ensures ok ==> |u.fullName| >= 1 && |u.password| >= 3
  {
    && u.fullName != "" && CodeUnits(u.fullName) >= 2
    && u.email != ""
    && u.password != "" && CodeUnits(u.password) >= 6
  }

  /** A stored user: schema-valid, with the setters' normal forms. */
  predicate WellFormedUser(u: User) {
    && UserSchemaValid(u)
    && Unpadded(u.fullName)
    && Unpadded(u.email) && ToLower(u.email) == u.email
    && Unpadded(u.bio)
  }

  /** The unique index on `email`. */
  ghost predicate UniqueEmails(users: map<Id, User>) {
    forall a, b :: a in users && b in users && users[a].email == users[b].email ==> a == b
  }

  /** `new User({ fullName, email, password, profileImage, bio })` at time
      `now`: setters applied, `undefined` replaced by the defaults, and a
      missing required string left empty (which `required` rejects exactly
      as it rejects `undefined`). */
  function NewUser(fullName: Option<string>, email: Option<string>, password: Option<string>,
                   profileImage: Option<string>, bio: Option<string>, now: nat): (u: User)
    ensures u.fullName == Trim(fullName.GetOr("")) && Unpadded(u.fullName)
    ensures u.email == EmailKey(email.GetOr("")) && EmailKey(u.email) == u.email
    ensures u.password == password.GetOr("")
    ensures u.profileImage == profileImage.GetOr(DefaultProfileImage)
    ensures u.bio == Trim(bio.GetOr("")) && Unpadded(u.bio)
    ensures u.createdAt == now && u.updatedAt == now
  {
    EmailKeyIdempotent(email.GetOr(""));
    User(Trim(fullName.GetOr("")), EmailKey(email.GetOr("")), password.GetOr(""),
         profileImage.GetOr(DefaultProfileImage), Trim(bio.GetOr("")), now, now)
  }

  /** The `pre('save')` hook: the password is replaced by its hash exactly
      when it was modified, and nothing else changes. */
  function PreSave(env: Env, u: User, passwordModified: bool): (r: User)
    ensures passwordModified ==> r.password == env.hash(u.password)
    ensures !passwordModified ==> r == u
    ensures r == u.(password := r.password)
  {
    if passwordModified then u.(password := env.hash(u.password)) else u
  }

  /** `user.comparePassword(candidate)`. */
  function ComparePassword(env: Env, u: User, candidate: string): (ok: bool)
    ensures ok == env.compare(candidate, u.password)
  {
    env.compare(candidate, u.password)
  }

  /** The least id of a user whose stored email equals the (normalised)
      query: `User.findOne({ email })`. */
  function FindUserByEmail(users: map<Id, User>, query: string): (r: Option<Id>)
    ensures r.Some? ==> r.value in users && users[r.value].email == EmailKey(query)
    ensures r.None? <==> forall id :: id in users ==> users[id].email != EmailKey(query)
  {
    var key := EmailKey(query);
    var hits := set id | id in users && users[id].email == key;
    assert forall id :: id in users && users[id].email == key ==> id in hits;
    if hits == {} then None else Some(Least(hits))
  }

  /** With unique emails, the lookup finds THE user with that email. */
  lemma FindUserByEmailUnique(users: map<Id, User>, id: Id, query: string)
    requires UniqueEmails(users)
    requires id in users && users[id].email == EmailKey(query)
    ensures FindUserByEmail(users, query) == Some(id)
  {
  }

  datatype SaveError = ValidationError | DuplicateKey

  /** `User.create(...)`: validation (before the hooks), the password
      pre-save hook (a new document's password counts as modified), the
      unique index on `email`, and insertion under a fresh id. */
  function CreateUser(env: Env, users: map<Id, User>, doc: User): (r: Result<(Id, User), SaveError>)
    ensures r.Err? && r.error == ValidationError <==> !UserSchemaValid(doc)
    ensures r.Err? && r.error == DuplicateKey <==>
              UserSchemaValid(doc) && exists id :: id in users && users[id].email == doc.email
    ensures r.Ok? ==> r.value.0 !in users && r.value.1 == doc.(password := env.hash(doc.password))
  {
    if !UserSchemaValid(doc) then Err(ValidationError)
    else if exists id :: id in users && users[id].email == doc.email then Err(DuplicateKey)
    else Ok((FreshId(users.Keys), PreSave(env, doc, true)))
  }

  /** `user.save()` of an existing user whose password was not assigned:
      validation, then the pre-save hook leaves the hash alone, and the
      timestamps plugin refreshes `updatedAt` only when a field changed. */
  function SaveUser(env: Env, stored: User, doc: User, now: nat): (r: Result<User, SaveError>)
    requires doc.password == stored.password
    ensures r.Err? <==> !UserSchemaValid(doc)
    ensures r.Ok? ==> r.value.password == stored.password
    ensures r.Ok? ==> r.value.updatedAt == (if doc == stored then stored.updatedAt else now)
    ensures r.Ok? ==> r.value == doc.(updatedAt := r.value.updatedAt)
  {
    if !UserSchemaValid(doc) then Err(ValidationError)
    else
      var saved := PreSave(env, doc, false);
      Ok(if saved == stored then saved else saved.(updatedAt := now))
  }

  // ---------------------------------------------------------------- posts

  /** The post schema's validators: `title`, `description` and `author`
      required (the author is always supplied by the handlers). */
  predicate PostSchemaValid(p: Post) {
    p.title != "" && p.description != ""
  }

  /** A new post passes the schema exactly when its title and description
      were sent and are not all whitespace: the `trim` setter runs before
      `required`, which rejects what it leaves empty. */
  lemma NewPostSchemaValid(title: Option<string>, description: Option<string>, imageUrl: Option<string>,
                           author: Id, now: nat)
    ensures PostSchemaValid(NewPost(title, description, imageUrl, author, now)) <==>
              && title.Some? && !AllSpace(title.value)
              && description.Some? && !AllSpace(description.value)
  {
    TrimEmptyIffBlank(title.GetOr(""));
    TrimEmptyIffBlank(description.GetOr(""));
  }

  predicate WellFormedPost(p: Post) {
    && PostSchemaValid(p)
    && Unpadded(p.title) && Unpadded(p.description)
    && (p.imageUrl.Some? ==> Unpadded(p.imageUrl.value))
  }

  /** `new Post({ title, description, imageUrl, author })` at time `now`,
      with the `trim` setters applied. */
  function NewPost(title: Option<string>, description: Option<string>, imageUrl: Option<string>,
                   author: Id, now: nat): (p: Post)
    ensures p.author == author && p.createdAt == now && p.updatedAt == now
    ensures p.title == Trim(title.GetOr("")) && p.description == Trim(description.GetOr(""))
    ensures p.imageUrl == TrimOpt(imageUrl)
    ensures p.imageUrl.Some? <==> imageUrl.Some?
    ensures Unpadded(p.title) && Unpadded(p.description)
    ensures p.imageUrl.Some? ==> Unpadded(p.imageUrl.value)
  {
    Post(Trim(title.GetOr("")), Trim(description.GetOr("")), TrimOpt(imageUrl), author, now, now)
  }

  /** `post.save()`: validation, then `updatedAt` refreshed only when a
      field changed. */
  function SavePost(stored: Post, doc: Post, now: nat): (r: Result<Post, SaveError>)
    ensures r.Err? <==> !PostSchemaValid(doc)
    ensures r.Ok? ==> r.value.updatedAt == (if doc == stored then stored.updatedAt else now)
    ensures r.Ok? ==> r.value == doc.(updatedAt := r.value.updatedAt)
  {
    if !PostSchemaValid(doc) then Err(ValidationError)
    else Ok(if doc == stored then doc else doc.(updatedAt := now))
  }

  /** `Post.countDocuments({ author })`. */
  function CountPosts(posts: map<Id, Post>, author: Id): (n: nat)
    ensures n == 0 <==> forall id :: id in posts ==> posts[id].author != author
  {
    var mine := set id | id in posts && posts[id].author == author;
    assert forall id :: id in posts && posts[id].author == author ==> id in mine;
    |mine|
  }

  // ------------------------------------------------------------- lookups

  /** What `Model.findById(text)` finds: the text does not cast to an
      ObjectId (a thrown `CastError`), no document has the id, or the id. */
  datatype Lookup = Uncastable | Absent | Found(id: Id)

  function FindById<T>(env: Env, docs: map<Id, T>, text: string): (r: Lookup)
    ensures r.Uncastable? <==> env.castId(text).None?
    ensures r.Absent? <==> env.castId(text).Some? && env.castId(text).value !in docs
    ensures r.Found? ==> Some(r.id) == env.castId(text) && r.id in docs
  {
    match env.castId(text)
    case None => Uncastable
    case Some(id) => if id in docs then Found(id) else Absent
  }

  // ---------------------------------------------------------- invariant

  /** The store invariant: well-formed documents, unique emails, and every
      post's author is an existing user. */
  ghost predicate Valid(s: Store) {
    UsersValid(s.users) && PostsValid(s.posts, s.users)
  }

  ghost predicate UsersValid(users: map<Id, User>) {
    && (forall id :: id in users ==> WellFormedUser(users[id]))
    && UniqueEmails(users)
  }

  ghost predicate PostsValid(posts: map<Id, Post>, users: map<Id, User>) {
    && (forall id :: id in posts ==> WellFormedPost(posts[id]))
    && (forall id :: id in posts ==> posts[id].author in users)
  }

  /** Inserting a well-formed user under a fresh id with an email nobody
      has keeps the invariant. */
  lemma InsertUserPreservesValid(s: Store, id: Id, u: User)
    requires Valid(s) && id !in s.users && WellFormedUser(u)
    requires forall other :: other in s.users ==> s.users[other].email != u.email
    ensures Valid(Store(s.users[id := u], s.posts))
  {
  }

  lemma ReplacedUsersValid(users: map<Id, User>, id: Id, u: User)
    requires UsersValid(users) && id in users && WellFormedUser(u) && u.email == users[id].email
    ensures UsersValid(users[id := u])
  {
    var users' := users[id := u];
    assert UniqueEmails(users') by {
      forall a, b | a in users' && b in users' && users'[a].email == users'[b].email ensures a == b {
        assert users'[a].email == users[a].email && users'[b].email == users[b].email;
      }
    }
    assert forall k :: k in users' ==> WellFormedUser(users'[k]) by {
      forall k | k in users' ensures WellFormedUser(users'[k]) {
        if k != id { assert users'[k] == users[k]; }
      }
    }
  }

  /** Replacing a user by a well-formed one with the same email keeps
      the invariant. */
  lemma ReplaceUserPreservesValid(s: Store, id: Id, u: User)
    requires Valid(s) && id in s.users && WellFormedUser(u) && u.email == s.users[id].email
    ensures Valid(Store(s.users[id := u], s.posts))
  {
    ReplacedUsersValid(s.users, id, u);
    assert s.users[id := u].Keys == s.users.Keys;
  }

  /** Replacing a post by a well-formed one with the same author keeps the
      invariant. */
  lemma ReplacePostPreservesValid(s: Store, id: Id, p: Post)
    requires Valid(s) && id in s.posts && WellFormedPost(p) && p.author == s.posts[id].author
    ensures Valid(s.(posts := s.posts[id := p]))
  {
  }

  /** Inserting a well-formed post by an existing user keeps the
      invariant. */
  lemma InsertPostPreservesValid(s: Store, id: Id, p: Post)
    requires Valid(s) && WellFormedPost(p) && p.author in s.users
    ensures Valid(s.(posts := s.posts[id := p]))
  {
    var posts := s.posts[id := p];
    forall k | k in posts ensures WellFormedPost(posts[k]) && posts[k].author in s.users {
      if k == id { assert posts[k] == p; } else { assert posts[k] == s.posts[k]; }
    }
    assert PostsValid(posts, s.users);
  }
}
