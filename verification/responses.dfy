/**
 What a request produces: an HTTP status with a JSON body, and the store
 afterwards. The body variants mirror the JSON objects the handlers send;
 the projections of users and posts into responses have no password field,
 so no response can expose a password hash.
 */
module Responses {
  import opened Foundation
  import opened Models

  /** One entry of the `errors` array of a 400 'Validation failed'. */
  datatype Violation = Violation(field: string, message: string, value: Option<string>)

  /** The `userResponse` object of the auth handlers. */
  datatype UserResponse = UserResponse(
    id: Id, fullName: string, email: string, profileImage: string, bio: string, createdAt: nat)

  /** The `userProfile` object of the user handlers. */
  datatype UserProfile = UserProfile(
    id: Id, fullName: string, email: string, profileImage: string, bio: string,
    postsCount: nat, createdAt: nat)

  /** `User.findById(id).select('-password')`, what `req.user` holds. */
  datatype SafeUser = SafeUser(
    id: Id, fullName: string, email: string, profileImage: string, bio: string,
    createdAt: nat, updatedAt: nat)

  /** The `formattedPost` object: the post joined with its author's name
      and picture (`populate('author', 'fullName profileImage')`).
      `updatedAt` is present only in the reply to an update. */
  datatype PostView = PostView(
    postId: Id, userId: Id, userName: string, userImageUrl: string, createdAt: nat,
    updatedAt: Option<nat>, postTitle: string, postDescription: string, postImageUrl: Option<string>)

  datatype Body =
    | Failure(message: string)                 // { success: false, message }
    | ServerError(fallback: string)            // 500: `error.message || fallback`
    | Invalid(errors: seq<Violation>)          // 400 'Validation failed' with the errors
    | FileTooLarge(maxSize: nat)               // 'File too large. Maximum size: <maxSize / 1 MiB>MB'
    | Done(message: string)                    // { success: true, message }
    | Session(message: string, user: UserResponse, token: string)
    | Account(note: Option<string>, user: UserResponse)
    | OnePost(note: Option<string>, post: PostView)
    | PostList(posts: seq<PostView>)
    | Profile(profile: UserProfile)
    | Profiles(profiles: seq<UserProfile>)
    | Accounts(users: seq<UserResponse>)
    | EmailStatus(found: bool)

  datatype Response = Response(status: nat, body: Body)

  /** The result of a middleware: call `next()` with what it attached to
      the request, or answer and stop the pipeline. */
  datatype Step<+T> = Next(value: T) | Halt(response: Response)

  /** The response together with the store after the request. */
  datatype Reply = Reply(response: Response, store: Store)

  function Fail(status: nat, message: string): Response {
    Response(status, Failure(message))
  }

  function Crash(fallback: string): Response {
    Response(500, ServerError(fallback))
  }

  /** The `userResponse` object of the auth handlers: the user's public
      fields under its id, without the password. */
  function ToUserResponse(id: Id, u: User): (r: UserResponse)
    ensures r.id == id && r.fullName == u.fullName && r.email == u.email
    ensures r.profileImage == u.profileImage && r.bio == u.bio && r.createdAt == u.createdAt
  {
    UserResponse(id, u.fullName, u.email, u.profileImage, u.bio, u.createdAt)
  }

  /** The document `select('-password')` loads: every field but the
      password. */
  function ToSafeUser(id: Id, u: User): (r: SafeUser)
    ensures r.id == id && r.fullName == u.fullName && r.email == u.email
    ensures r.profileImage == u.profileImage && r.bio == u.bio
    ensures r.createdAt == u.createdAt && r.updatedAt == u.updatedAt
  {
    SafeUser(id, u.fullName, u.email, u.profileImage, u.bio, u.createdAt, u.updatedAt)
  }

  /** The `userProfile` object of the user handlers: the public fields
      and the number of posts. */
  function ToProfile(id: Id, u: User, postsCount: nat): (r: UserProfile)
    ensures r.id == id && r.fullName == u.fullName && r.email == u.email
    ensures r.profileImage == u.profileImage && r.bio == u.bio && r.createdAt == u.createdAt
    ensures r.postsCount == postsCount
  {
    UserProfile(id, u.fullName, u.email, u.profileImage, u.bio, postsCount, u.createdAt)
  }

  /** No user object a handler answers with depends on the password. */
  lemma PasswordNeverShown(id: Id, u: User, password: string, postsCount: nat)
    ensures ToUserResponse(id, u.(password := password)) == ToUserResponse(id, u)
    ensures ToSafeUser(id, u.(password := password)) == ToSafeUser(id, u)
    ensures ToProfile(id, u.(password := password), postsCount) == ToProfile(id, u, postsCount)
  {
  }

  /** The formatted post; `None` when the author no longer exists, where
      the original throws on `post.author._id` of a null author. */
  function ToPostView(users: map<Id, User>, id: Id, p: Post, updated: bool): (v: Option<PostView>)
    ensures v.Some? <==> p.author in users
    ensures v.Some? ==> v.value.postId == id && v.value.userId == p.author
    ensures v.Some? ==> v.value.postTitle == p.title && v.value.postDescription == p.description
    ensures v.Some? ==> v.value.postImageUrl == p.imageUrl && v.value.createdAt == p.createdAt
    ensures v.Some? ==> v.value.userName == users[p.author].fullName
    ensures v.Some? ==> v.value.userImageUrl == users[p.author].profileImage
    ensures v.Some? ==> v.value.updatedAt == (if updated then Some(p.updatedAt) else None)
  {
    if p.author !in users then None
    else
      var a := users[p.author];
      Some(PostView(id, p.author, a.fullName, a.profileImage, p.createdAt,
                    if updated then Some(p.updatedAt) else None, p.title, p.description, p.imageUrl))
  }

  /** The formatted posts of a listing, in its order; `None` when some
      listed post has lost its author. */
  function ToPostViews(users: map<Id, User>, posts: map<Id, Post>, ids: seq<Id>): (r: Option<seq<PostView>>)
    requires forall i :: 0 <= i < |ids| ==> ids[i] in posts
    ensures r.Some? <==> forall i :: 0 <= i < |ids| ==> posts[ids[i]].author in users
    ensures r.Some? ==> |r.value| == |ids|
    ensures r.Some? ==> forall i :: 0 <= i < |ids| ==> Some(r.value[i]) == ToPostView(users, ids[i], posts[ids[i]], false)
  {
    if ids == [] then Some([])
    else
      var head := ToPostView(users, ids[0], posts[ids[0]], false);
      var tail := ToPostViews(users, posts, ids[1..]);
      if head.None? || tail.None? then None
      else
        var r := [head.value] + tail.value;
        assert forall i :: 1 <= i < |ids| ==> ids[i] == ids[1..][i - 1];
        Some(r)
  }
}
