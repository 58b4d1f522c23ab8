/**
 controllers/postController.js: the post listings, a single post, and
 creating, updating and deleting a post. The handlers for update and
 delete do not compare the post's author with the requester (that check is
 commented out in the original); ownership is the route guard's business.
 */
module PostController {
  import opened Foundation
  import opened Text
  import opened Collaborators
  import opened Models
  import opened Responses
  import opened Listing

  const PostNotFoundMessage: string := "Post not found"
  const TitleDescriptionRequired: string := "Title and description are required"
  const PostCreatedMessage: string := "Post created successfully"
  const PostUpdatedMessage: string := "Post updated successfully"
  const PostDeletedMessage: string := "Post deleted successfully"
  const GetPostsFailed: string := "Failed to get posts"
  const GetMyPostsFailed: string := "Failed to get your posts"
  const GetPostFailed: string := "Failed to get post"
  const CreatePostFailed: string := "Failed to create post"
  const UpdatePostFailed: string := "Failed to update post"
  const DeletePostFailed: string := "Failed to delete post"

  // ------------------------------------------------------------ listings

  /** The creation times of the posts a `Post.find(filter)` selects: every
      post, or those of one author. */
  function CreationTimes(posts: map<Id, Post>, author: Option<Id>): (t: map<Id, nat>)
    ensures forall id :: id in t <==> id in posts && (author.Some? ==> posts[id].author == author.value)
    ensures forall id :: id in t ==> t[id] == posts[id].createdAt
  {
    map id | id in posts && (author.None? || posts[id].author == author.value) :: posts[id].createdAt
  }

  /** The `postId`s of a list of formatted posts, in order. */
  function PostIds(views: seq<PostView>): (ids: seq<Id>)
    ensures |ids| == |views|
    ensures forall i :: 0 <= i < |views| ==> ids[i] == views[i].postId
  {
    seq(|views|, i requires 0 <= i < |views| => views[i].postId)
  }

  /** `Post.find(filter).populate('author', ...).sort({ createdAt: -1 })`
      and the formatting: 200 with one formatted post per selected post,
      newest first; 500 when a selected post's author no longer exists. */
  function ListPosts(users: map<Id, User>, posts: map<Id, Post>, author: Option<Id>, fallback: string): (r: Response)
    ensures r.status in {200, 500}
    ensures r.status == 200 <==>
              forall id :: id in CreationTimes(posts, author) ==> posts[id].author in users
    ensures r.status == 500 ==> r == Crash(fallback)
    ensures r.status == 200 ==>
              && r.body.PostList?
              && EnumeratesOnce(PostIds(r.body.posts), CreationTimes(posts, author))
              && NewestFirst(PostIds(r.body.posts), CreationTimes(posts, author))
              && forall i :: 0 <= i < |r.body.posts| ==>
                   && r.body.posts[i].postId in posts
                   && r.body.posts[i].userId == posts[r.body.posts[i].postId].author
                   && Some(r.body.posts[i]) == ToPostView(users, r.body.posts[i].postId, posts[r.body.posts[i].postId], false)
  {
    var t := CreationTimes(posts, author);
    var ids := ByRecency(t);
    ListingSucceedsExactly(users, posts, author);
    match ToPostViews(users, posts, ids)
    case None => Crash(fallback)
    case Some(views) =>
      SelectionListed(users, posts, t, ids, views);
      Response(200, PostList(views))
  }

  /** The formatted newest-first enumeration of a selection lists every
      selected post once, newest first, each as its own view. */
  lemma SelectionListed(users: map<Id, User>, posts: map<Id, Post>, t: map<Id, nat>, ids: seq<Id>, views: seq<PostView>)
    requires forall id :: id in t ==> id in posts && t[id] == posts[id].createdAt
    requires EnumeratesOnce(ids, t) && NewestFirst(ids, t)
    requires ToPostViews(users, posts, ids) == Some(views)
    ensures EnumeratesOnce(PostIds(views), t) && NewestFirst(PostIds(views), t)
    ensures forall i :: 0 <= i < |views| ==>
              && views[i].postId in posts
              && views[i].userId == posts[views[i].postId].author
              && Some(views[i]) == ToPostView(users, views[i].postId, posts[views[i].postId], false)
  {
    FormattedListing(users, posts, ids, views);
  }

  /** The formatting of a selection succeeds exactly when every selected
      post still has its author. */
  lemma ListingSucceedsExactly(users: map<Id, User>, posts: map<Id, Post>, author: Option<Id>)
    ensures ToPostViews(users, posts, ByRecency(CreationTimes(posts, author))).Some? <==>
              forall id :: id in CreationTimes(posts, author) ==> posts[id].author in users
  {
    var t := CreationTimes(posts, author);
    ListingCoversSelection(users, posts, t, ByRecency(t));
  }

  /** A listing that enumerates the selection has all its authors
      exactly when the selection has. */
  lemma ListingCoversSelection(users: map<Id, User>, posts: map<Id, Post>, t: map<Id, nat>, ids: seq<Id>)
    requires EnumeratesOnce(ids, t)
    requires forall id :: id in t ==> id in posts
    ensures (forall i :: 0 <= i < |ids| ==> posts[ids[i]].author in users) <==>
            (forall id :: id in t ==> posts[id].author in users)
  {
    if forall i :: 0 <= i < |ids| ==> posts[ids[i]].author in users {
      forall id | id in t ensures posts[id].author in users {
        var i :| 0 <= i < |ids| && ids[i] == id;
      }
    }
  }

  /** What the formatting of a listing keeps: the order, each post's id
      and author, and the formatted post itself. */
  lemma FormattedListing(users: map<Id, User>, posts: map<Id, Post>, ids: seq<Id>, views: seq<PostView>)
    requires forall i :: 0 <= i < |ids| ==> ids[i] in posts
    requires ToPostViews(users, posts, ids) == Some(views)
    ensures PostIds(views) == ids
    ensures forall i :: 0 <= i < |views| ==>
              && views[i].postId in posts
              && views[i].userId == posts[views[i].postId].author
              && Some(views[i]) == ToPostView(users, views[i].postId, posts[views[i].postId], false)
  {
    forall i | 0 <= i < |views| ensures views[i].postId == ids[i] {
      assert Some(views[i]) == ToPostView(users, ids[i], posts[ids[i]], false);
    }
  }

  /** `getAllPosts`: every post, newest first. */
  function GetAllPosts(s: Store): (r: Response)
    ensures r.status in {200, 500}
    ensures r.status == 200 ==>
              && r.body.PostList?
              && EnumeratesOnce(PostIds(r.body.posts), CreationTimes(s.posts, None))
              && NewestFirst(PostIds(r.body.posts), CreationTimes(s.posts, None))
              && forall i :: 0 <= i < |r.body.posts| ==>
                   && r.body.posts[i].postId in s.posts
                   && Some(r.body.posts[i]) == ToPostView(s.users, r.body.posts[i].postId, s.posts[r.body.posts[i].postId], false)
    ensures r.status == 200 <==> forall id :: id in s.posts ==> s.posts[id].author in s.users
  {
    ListPosts(s.users, s.posts, None, GetPostsFailed)
  }

  /** `getMyPosts`: exactly the requester's posts, newest first. */
  function GetMyPosts(s: Store, userId: Id): (r: Response)
    ensures r.status in {200, 500}
    ensures r.status == 200 ==>
              && r.body.PostList?
              && EnumeratesOnce(PostIds(r.body.posts), CreationTimes(s.posts, Some(userId)))
              && NewestFirst(PostIds(r.body.posts), CreationTimes(s.posts, Some(userId)))
              && forall i :: 0 <= i < |r.body.posts| ==>
                   && r.body.posts[i].userId == userId
                   && r.body.posts[i].postId in s.posts
                   && Some(r.body.posts[i]) == ToPostView(s.users, r.body.posts[i].postId, s.posts[r.body.posts[i].postId], false)
    ensures userId in s.users ==> r.status == 200
  {
    ListPosts(s.users, s.posts, Some(userId), GetMyPostsFailed)
  }

  /** In a valid store every listing succeeds. */
  lemma ListingsSucceed(s: Store)
    requires Valid(s)
    ensures GetAllPosts(s).status == 200
  {
  }

  // ---------------------------------------------------------- single post

  /** `getPost`: the formatted post, 404 when no post has the id, 500
      when the id does not cast or the author is gone. */
  function GetPost(env: Env, s: Store, idText: string): (r: Response)
    ensures r.status in {200, 404, 500}
    ensures r.status == 404 <==> FindById(env, s.posts, idText).Absent?
    ensures r.status == 404 ==> r == Fail(404, PostNotFoundMessage)
    ensures r.status == 200 ==>
              && FindById(env, s.posts, idText).Found?
              && r.body.OnePost? && r.body.note.None?
              && var id := FindById(env, s.posts, idText).id;
              && Some(r.body.post) == ToPostView(s.users, id, s.posts[id], false)
    ensures FindById(env, s.posts, idText).Found? && s.posts[FindById(env, s.posts, idText).id].author in s.users ==>
              r.status == 200
  {
    match FindById(env, s.posts, idText)
    case Uncastable => Crash(GetPostFailed)
    case Absent => Fail(404, PostNotFoundMessage)
    case Found(id) =>
      match ToPostView(s.users, id, s.posts[id], false)
      case None => Crash(GetPostFailed)
      case Some(v) => Response(200, OnePost(None, v))
  }

  // ------------------------------------------------------------- writes

  /** `const { title, description, imageUrl } = req.body` */
  datatype PostForm = PostForm(title: Option<string>, description: Option<string>, imageUrl: Option<string>)

  function PostFormOf(body: Fields): (f: PostForm)
    ensures f.title == Get(body, "title") && f.description == Get(body, "description")
    ensures f.imageUrl == Get(body, "imageUrl")
  {
    PostForm(Get(body, "title"), Get(body, "description"), Get(body, "imageUrl"))
  }

  /** `createPost`: 400 when the title or the description is falsy; 500
      when the trimmed document fails the schema; otherwise one post is
      added, authored by the requester whatever the body says. The post
      is stored before its author is populated, so a requester who no
      longer exists gets a 500 and the post stays. */
  function CreatePost(s: Store, userId: Id, f: PostForm, now: nat): (r: Reply)
    ensures r.response.status in {201, 400, 500}
    ensures r.response.status == 400 <==> !Truthy(f.title) || !Truthy(f.description)
    ensures r.response.status == 400 ==> r.response == Fail(400, TitleDescriptionRequired)
    ensures r.response.status == 201 <==>
              && Truthy(f.title) && Truthy(f.description)
              && PostSchemaValid(NewPost(f.title, f.description, f.imageUrl, userId, now))
              && userId in s.users
    ensures r.store == s || exists id: Id :: id !in s.posts && r.store == s.(posts := s.posts[id := NewPost(f.title, f.description, f.imageUrl, userId, now)])
    ensures r.response.status == 400 ==> r.store == s
    ensures !PostSchemaValid(NewPost(f.title, f.description, f.imageUrl, userId, now)) ==> r.store == s
    ensures Truthy(f.title) && Truthy(f.description) && PostSchemaValid(NewPost(f.title, f.description, f.imageUrl, userId, now)) ==>
              exists id: Id :: id !in s.posts && r.store == s.(posts := s.posts[id := NewPost(f.title, f.description, f.imageUrl, userId, now)])
    ensures r.response.status == 201 ==>
              && r.response.body.OnePost?
              && var id := r.response.body.post.postId;
              && id !in s.posts
              && r.store == s.(posts := s.posts[id := NewPost(f.title, f.description, f.imageUrl, userId, now)])
              && r.store.posts[id].author == userId
              && r.response.body == OnePost(Some(PostCreatedMessage), ToPostView(s.users, id, r.store.posts[id], false).value)
  {
    if !Truthy(f.title) || !Truthy(f.description) then Reply(Fail(400, TitleDescriptionRequired), s)
    else
      var doc := NewPost(f.title, f.description, f.imageUrl, userId, now);
      if !PostSchemaValid(doc) then Reply(Crash(CreatePostFailed), s)
      else
        var id := FreshId(s.posts.Keys);
        var s' := s.(posts := s.posts[id := doc]);
        match ToPostView(s'.users, id, doc, false)
        case None => Reply(Crash(CreatePostFailed), s')
        case Some(v) => Reply(Response(201, OnePost(Some(PostCreatedMessage), v)), s')
  }

  /** The assignments of `updatePost`: title and description only when
      truthy, the image whenever defined; assignment runs the `trim`
      setters. The author and the timestamps are not touched. */
  function MergePost(p: Post, f: PostForm): (m: Post)
    ensures m.title == (if Truthy(f.title) then Trim(f.title.value) else p.title)
    ensures m.description == (if Truthy(f.description) then Trim(f.description.value) else p.description)
    ensures m.imageUrl == (if f.imageUrl.Some? then Some(Trim(f.imageUrl.value)) else p.imageUrl)
    ensures m.author == p.author && m.createdAt == p.createdAt && m.updatedAt == p.updatedAt
  {
    p.(title := if Truthy(f.title) then Trim(f.title.value) else p.title,
       description := if Truthy(f.description) then Trim(f.description.value) else p.description,
       imageUrl := if f.imageUrl.Some? then Some(Trim(f.imageUrl.value)) else p.imageUrl)
  }

  /** `updatePost`: 404 when no post has the id; otherwise the merged post
      is saved (500 if the schema rejects it, with nothing written). The
      saved post is populated afterwards, so a post whose author no longer
      exists is saved and answered with 500. Nothing but that post
      changes, and its author stays. */
  function UpdatePost(env: Env, s: Store, idText: string, f: PostForm, now: nat): (r: Reply)
    ensures r.response.status in {200, 404, 500}
    ensures r.response.status == 404 <==> FindById(env, s.posts, idText).Absent?
    ensures r.response.status == 404 ==> r == Reply(Fail(404, PostNotFoundMessage), s)
    ensures r.store.users == s.users && r.store.posts.Keys == s.posts.Keys
    ensures env.castId(idText).None? ==> r == Reply(Crash(UpdatePostFailed), s)
    ensures FindById(env, s.posts, idText).Found? ==>
              var id := FindById(env, s.posts, idText).id;
              && (r.response.status == 200 <==> PostSchemaValid(MergePost(s.posts[id], f)) && s.posts[id].author in s.users)
              && (!PostSchemaValid(MergePost(s.posts[id], f)) ==> r == Reply(Crash(UpdatePostFailed), s))
              && (PostSchemaValid(MergePost(s.posts[id], f)) ==>
                    r.store.posts[id] == MergePost(s.posts[id], f).(updatedAt := r.store.posts[id].updatedAt))
    ensures forall id :: id in s.posts ==> r.store.posts[id].author == s.posts[id].author
    ensures forall id :: id in s.posts && Some(id) != env.castId(idText) ==> r.store.posts[id] == s.posts[id]
    ensures r.response.status == 200 ==>
              && FindById(env, s.posts, idText).Found?
              && var id := FindById(env, s.posts, idText).id;
              && var merged := MergePost(s.posts[id], f);
              && PostSchemaValid(merged)
              && r.store.posts[id] == merged.(updatedAt := r.store.posts[id].updatedAt)
              && ToPostView(s.users, id, r.store.posts[id], true).Some?
              && r.response.body == OnePost(Some(PostUpdatedMessage), ToPostView(s.users, id, r.store.posts[id], true).value)
  {
    match FindById(env, s.posts, idText)
    case Uncastable => Reply(Crash(UpdatePostFailed), s)
    case Absent => Reply(Fail(404, PostNotFoundMessage), s)
    case Found(id) =>
      var stored := s.posts[id];
      match SavePost(stored, MergePost(stored, f), now)
      case Err(_) => Reply(Crash(UpdatePostFailed), s)
      case Ok(saved) =>
        var s' := s.(posts := s.posts[id := saved]);
        match ToPostView(s'.users, id, saved, true)
        case None => Reply(Crash(UpdatePostFailed), s')
        case Some(v) => Reply(Response(200, OnePost(Some(PostUpdatedMessage), v)), s')
  }

  /** `deletePost`: 404 when no post has the id; otherwise exactly that
      post is removed. */
  function DeletePost(env: Env, s: Store, idText: string): (r: Reply)
    ensures r.response.status in {200, 404, 500}
    ensures r.response.status == 404 <==> FindById(env, s.posts, idText).Absent?
    ensures r.response.status == 500 <==> env.castId(idText).None?
    ensures r.response.status != 200 ==> r.store == s
    ensures r.response.status == 200 ==>
              && FindById(env, s.posts, idText).Found?
              && r.store == s.(posts := s.posts - {FindById(env, s.posts, idText).id})
              && r.response == Response(200, Done(PostDeletedMessage))
  {
    match FindById(env, s.posts, idText)
    case Uncastable => Reply(Crash(DeletePostFailed), s)
    case Absent => Reply(Fail(404, PostNotFoundMessage), s)
    case Found(id) => Reply(Response(200, Done(PostDeletedMessage)), s.(posts := s.posts - {id}))
  }

  // ---------------------------------------------------------- invariant

  lemma CreatePostPreservesValid(s: Store, userId: Id, f: PostForm, now: nat)
    requires Valid(s) && userId in s.users
    ensures Valid(CreatePost(s, userId, f, now).store)
  {
    var r := CreatePost(s, userId, f, now);
    var doc := NewPost(f.title, f.description, f.imageUrl, userId, now);
    if r.store != s {
      var id: Id :| id !in s.posts && r.store == s.(posts := s.posts[id := doc]);
      assert PostSchemaValid(doc);
      InsertPostPreservesValid(s, id, doc);
    }
  }

  lemma UpdatePostPreservesValid(env: Env, s: Store, idText: string, f: PostForm, now: nat)
    requires Valid(s)
    ensures Valid(UpdatePost(env, s, idText, f, now).store)
  {
    var r := UpdatePost(env, s, idText, f, now);
    if FindById(env, s.posts, idText).Found? {
      var id := FindById(env, s.posts, idText).id;
      var saved := SavePost(s.posts[id], MergePost(s.posts[id], f), now);
      if saved.Ok? {
        assert WellFormedPost(saved.value);
        assert r.store == s.(posts := s.posts[id := saved.value]);
        ReplacePostPreservesValid(s, id, saved.value);
      }
    }
  }

  /** In a valid store every author exists, so an update of an existing
      post succeeds exactly when the merged post passes the schema. */
  lemma UpdateSucceedsWhenSchemaAccepts(env: Env, s: Store, idText: string, f: PostForm, now: nat)
    requires Valid(s)
    requires FindById(env, s.posts, idText).Found?
    ensures var id := FindById(env, s.posts, idText).id;
            UpdatePost(env, s, idText, f, now).response.status == 200 <==> PostSchemaValid(MergePost(s.posts[id], f))
  {
  }

  lemma DeletePostPreservesValid(env: Env, s: Store, idText: string)
    requires Valid(s)
    ensures Valid(DeletePost(env, s, idText).store)
  {
  }

  /** After a successful delete the post is gone: fetching it is a 404. */
  lemma DeletedPostIsGone(env: Env, s: Store, idText: string)
    requires DeletePost(env, s, idText).response.status == 200
    ensures GetPost(env, DeletePost(env, s, idText).store, idText) == Fail(404, PostNotFoundMessage)
  {
  }
}
