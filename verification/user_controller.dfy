/**
 controllers/userController.js: a user's public profile and posts, the
 user directory, the user search and the email-availability check.
 */
module UserController {
  import opened Foundation
  import opened Text
  import opened Collaborators
  import opened Models
  import opened Responses
  import opened Listing
  import opened PostController

  const UserNotFoundMessage: string := "User not found"
  const GetProfileFailed: string := "Failed to get user profile"
  const GetUserPostsFailed: string := "Failed to get user posts"
  const GetUsersFailed: string := "Failed to get users"
  const SearchQueryRequired: string := "Search query is required"
  const SearchFailed: string := "Failed to search users"
  const EmailRequired: string := "Email is required"

  /** `.limit(20)` of the search. */
  const SearchLimit: nat := 20

  /** The posts one user has authored, as `Post.countDocuments({ author })`
      counts them, agree with that user's listing. */
  lemma CountIsListingSize(posts: map<Id, Post>, author: Id)
    ensures CountPosts(posts, author) == |CreationTimes(posts, Some(author))|
  {
    var mine := set id | id in posts && posts[id].author == author;
    assert CreationTimes(posts, Some(author)).Keys == mine;
  }

  // ---------------------------------------------------------------- profile

  /** `getUserProfile`: the profile with the number of posts the user
      authored, 404 for an unknown id, 500 for an id that does not cast. */
  function GetUserProfile(env: Env, s: Store, idText: string): (r: Response)
    ensures r.status in {200, 404, 500}
    ensures r.status == 500 <==> env.castId(idText).None?
    ensures r.status == 404 <==> FindById(env, s.users, idText).Absent?
    ensures r.status == 404 ==> r == Fail(404, UserNotFoundMessage)
    ensures r.status == 200 ==>
              && r.body.Profile?
              && var id := FindById(env, s.users, idText).id;
              && r.body.profile.id == id
              && r.body.profile.postsCount == |CreationTimes(s.posts, Some(id))|
              && r.body.profile == ToProfile(id, s.users[id], r.body.profile.postsCount)
  {
    match FindById(env, s.users, idText)
    case Uncastable => Crash(GetProfileFailed)
    case Absent => Fail(404, UserNotFoundMessage)
    case Found(id) =>
      CountIsListingSize(s.posts, id);
      Response(200, Profile(ToProfile(id, s.users[id], CountPosts(s.posts, id))))
  }

  /** `getUserPosts`: the posts whose author is the id, newest first; an
      id nobody has gives an empty list, not a 404. */
  function GetUserPosts(env: Env, s: Store, idText: string): (r: Response)
    ensures r.status in {200, 500}
    ensures env.castId(idText).None? ==> r == Crash(GetUserPostsFailed)
    ensures r.status == 500 ==> r == Crash(GetUserPostsFailed)
    ensures env.castId(idText).Some? ==>
              (r.status == 200 <==>
                 forall id :: id in CreationTimes(s.posts, env.castId(idText)) ==> s.posts[id].author in s.users)
    ensures r.status == 200 ==>
              && env.castId(idText).Some?
              && r.body.PostList?
              && EnumeratesOnce(PostIds(r.body.posts), CreationTimes(s.posts, env.castId(idText)))
              && NewestFirst(PostIds(r.body.posts), CreationTimes(s.posts, env.castId(idText)))
              && forall i :: 0 <= i < |r.body.posts| ==>
                   && r.body.posts[i].postId in s.posts
                   && r.body.posts[i].userId == env.castId(idText).value
                   && Some(r.body.posts[i]) == ToPostView(s.users, r.body.posts[i].postId, s.posts[r.body.posts[i].postId], false)
  {
    match env.castId(idText)
    case None => Crash(GetUserPostsFailed)
    case Some(id) => ListPosts(s.users, s.posts, Some(id), GetUserPostsFailed)
  }

  /** In a valid store every post's author exists, so any id that casts
      lists its posts successfully. */
  lemma UserPostsSucceed(env: Env, s: Store, idText: string)
    requires Valid(s)
    requires env.castId(idText).Some?
    ensures GetUserPosts(env, s, idText).status == 200
  {
  }

  /** In a valid store an id that casts but belongs to nobody lists no
      posts, successfully. */
  lemma UnknownAuthorListsNothing(env: Env, s: Store, idText: string)
    requires Valid(s)
    requires env.castId(idText).Some? && env.castId(idText).value !in s.users
    ensures GetUserPosts(env, s, idText) == Response(200, PostList([]))
  {
    var t := CreationTimes(s.posts, env.castId(idText));
    assert t == map[];
  }

  /** A user's profile counts exactly the posts their listing shows. */
  lemma ProfileCountMatchesPosts(env: Env, s: Store, idText: string)
    requires GetUserProfile(env, s, idText).status == 200
    requires GetUserPosts(env, s, idText).status == 200
    ensures GetUserProfile(env, s, idText).body.profile.postsCount == |GetUserPosts(env, s, idText).body.posts|
  {
  }

  // ------------------------------------------------------------ directory

  /** The creation times of all users. */
  function UserTimes(users: map<Id, User>): (t: map<Id, nat>)
    ensures t.Keys == users.Keys
    ensures forall id :: id in t ==> t[id] == users[id].createdAt
  {
    map id | id in users :: users[id].createdAt
  }

  function ProfileIds(profiles: seq<UserProfile>): (ids: seq<Id>)
    ensures |ids| == |profiles|
    ensures forall i :: 0 <= i < |profiles| ==> ids[i] == profiles[i].id
  {
    seq(|profiles|, i requires 0 <= i < |profiles| => profiles[i].id)
  }

  function UserIds(users: seq<UserResponse>): (ids: seq<Id>)
    ensures |ids| == |users|
    ensures forall i :: 0 <= i < |users| ==> ids[i] == users[i].id
  {
    seq(|users|, i requires 0 <= i < |users| => users[i].id)
  }

  /** The profiles of the listed users, in order, each with the number
      of posts its user authored. */
  function ProfilesOf(s: Store, ids: seq<Id>): (r: seq<UserProfile>)
    requires forall i :: 0 <= i < |ids| ==> ids[i] in s.users
    ensures ProfileIds(r) == ids
    ensures forall i :: 0 <= i < |r| ==>
              && r[i].id in s.users
              && r[i].postsCount == |CreationTimes(s.posts, Some(r[i].id))|
              && r[i] == ToProfile(r[i].id, s.users[r[i].id], r[i].postsCount)
  {
    var r := seq(|ids|, i requires 0 <= i < |ids| => ToProfile(ids[i], s.users[ids[i]], CountPosts(s.posts, ids[i])));
    assert ProfileIds(r) == ids;
    forall i | 0 <= i < |ids| ensures CountPosts(s.posts, ids[i]) == |CreationTimes(s.posts, Some(ids[i]))| {
      CountIsListingSize(s.posts, ids[i]);
    }
    r
  }

  /** `getAllUsers`: every user once, newest first, each with the number
      of posts they authored. */
  function GetAllUsers(s: Store): (r: Response)
    ensures r.status == 200 && r.body.Profiles?
    ensures EnumeratesOnce(ProfileIds(r.body.profiles), UserTimes(s.users))
    ensures NewestFirst(ProfileIds(r.body.profiles), UserTimes(s.users))
    ensures forall i :: 0 <= i < |r.body.profiles| ==>
              && r.body.profiles[i].id in s.users
              && r.body.profiles[i].postsCount == |CreationTimes(s.posts, Some(r.body.profiles[i].id))|
              && r.body.profiles[i] == ToProfile(r.body.profiles[i].id, s.users[r.body.profiles[i].id], r.body.profiles[i].postsCount)
  {
    Response(200, Profiles(ProfilesOf(s, ByRecency(UserTimes(s.users)))))
  }

  // --------------------------------------------------------------- search

  /** The users whose name or email the pattern matches, by creation time. */
  function Matches(env: Env, users: map<Id, User>, q: string): (t: map<Id, nat>)
    ensures forall id :: id in t <==>
              id in users && (env.regexMatch(q, users[id].fullName) || env.regexMatch(q, users[id].email))
    ensures forall id :: id in t ==> t[id] == users[id].createdAt
  {
    map id | id in users && (env.regexMatch(q, users[id].fullName) || env.regexMatch(q, users[id].email))
      :: users[id].createdAt
  }

  /** The first `n` entries of a newest-first enumeration: distinct keys,
      newest first, all of them when `n` reaches the size, and nothing left
      out is newer than what was kept. */
  lemma PrefixIsNewest(ids: seq<Id>, t: map<Id, nat>, n: nat)
    requires EnumeratesOnce(ids, t) && NewestFirst(ids, t)
    requires n <= |ids|
    ensures forall i :: 0 <= i < n ==> ids[..n][i] in t
    ensures forall i, j :: 0 <= i < j < n ==> ids[..n][i] != ids[..n][j] && t[ids[..n][i]] >= t[ids[..n][j]]
    ensures forall id :: id in t && id !in ids[..n] ==> n < |ids| && forall j :: 0 <= j < n ==> t[id] <= t[ids[..n][j]]
  {
    var p := ids[..n];
    assert forall j :: 0 <= j < n ==> p[j] == ids[j];
    forall id | id in t && id !in p ensures n < |ids| && forall j :: 0 <= j < n ==> t[id] <= t[p[j]] {
      var k :| 0 <= k < |ids| && ids[k] == id;
      assert k >= n;
    }
  }

  /** `.sort({ createdAt: -1 }).limit(limit)`: at most `limit` keys, newest
      first, and when some are cut off, the ones kept are the newest. */
  function NewestUpTo(t: map<Id, nat>, limit: nat): (ids: seq<Id>)
    ensures |ids| <= limit
    ensures forall i :: 0 <= i < |ids| ==> ids[i] in t
    ensures forall i, j :: 0 <= i < j < |ids| ==> ids[i] != ids[j] && t[ids[i]] >= t[ids[j]]
    ensures |t| <= limit ==> |ids| == |t|
    ensures forall id :: id in t && id !in ids ==>
              |ids| == limit && forall j :: 0 <= j < |ids| ==> t[id] <= t[ids[j]]
  {
    var all := ByRecency(t);
    var n := if |all| <= limit then |all| else limit;
    PrefixIsNewest(all, t, n);
    all[..n]
  }

  /** The response objects of the listed users, in order. */
  function UserResponses(users: map<Id, User>, ids: seq<Id>): (r: seq<UserResponse>)
    requires forall i :: 0 <= i < |ids| ==> ids[i] in users
    ensures UserIds(r) == ids
    ensures forall i :: 0 <= i < |r| ==> r[i].id in users && r[i] == ToUserResponse(r[i].id, users[r[i].id])
  {
    var r := seq(|ids|, i requires 0 <= i < |ids| => ToUserResponse(ids[i], users[ids[i]]));
    assert UserIds(r) == ids;
    r
  }

  /** `searchUsers`: 400 without a query, 500 when the pattern is not a
      valid regular expression, otherwise at most twenty matching users:
      the newest ones (the sort applies before the limit), newest first. */
  function SearchUsers(env: Env, users: map<Id, User>, q: Option<string>): (r: Response)
    ensures r.status in {200, 400, 500}
    ensures r.status == 400 <==> !Truthy(q)
    ensures r.status == 400 ==> r == Fail(400, SearchQueryRequired)
    ensures r.status == 500 <==> Truthy(q) && !env.regexValid(q.value)
    ensures r.status == 200 ==>
              && r.body.Accounts?
              && UserIds(r.body.users) == NewestUpTo(Matches(env, users, q.value), SearchLimit)
              && forall i :: 0 <= i < |r.body.users| ==>
                   r.body.users[i].id in users && r.body.users[i] == ToUserResponse(r.body.users[i].id, users[r.body.users[i].id])
  {
    if !Truthy(q) then Fail(400, SearchQueryRequired)
    else if !env.regexValid(q.value) then Crash(SearchFailed)
    else
      var t := Matches(env, users, q.value);
      var ids := NewestUpTo(t, SearchLimit);
      Response(200, Accounts(UserResponses(users, ids)))
  }

  /** `checkEmailExists`: 400 without an email; otherwise whether a user
      has that email, compared after lower-casing and the `trim` setter. */
  function CheckEmailExists(users: map<Id, User>, email: Option<string>): (r: Response)
    ensures r.status in {200, 400}
    ensures r.status == 400 <==> !Truthy(email)
    ensures r.status == 400 ==> r == Fail(400, EmailRequired)
    ensures r.status == 200 ==>
              && r.body.EmailStatus?
              && (r.body.found <==> exists id :: id in users && users[id].email == EmailKey(email.value))
  {
    if !Truthy(email) then Fail(400, EmailRequired)
    else
      LowerKeepsEmailKey(email.value);
      Response(200, EmailStatus(FindUserByEmail(users, ToLower(email.value)).Some?))
  }

  /** Lower-casing before the query changes nothing: the setters
      lower-case anyway. */
  lemma LowerKeepsEmailKey(e: string)
    ensures EmailKey(ToLower(e)) == EmailKey(e)
  {
    LowerTrimCommute(e);
    ToLowerIdempotent(Trim(e));
  }

  /** A user who registered with an email is found by the check, however
      the query is cased or padded. */
  lemma RegisteredEmailExists(users: map<Id, User>, id: Id, query: string)
    requires id in users && query != "" && users[id].email == EmailKey(query)
    ensures CheckEmailExists(users, Some(query)) == Response(200, EmailStatus(true))
  {
  }
}
