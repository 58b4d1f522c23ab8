# SocialApp backend: request decisions, modelled in Dafny

SocialApp's backend is an Express/Mongoose REST API with three route groups:
`/api/auth` (register, login, logout, me, verify-token), `/api/posts` (list,
my posts, create, show, update, delete) and `/api/users` (profile, a user's
posts). This project models what the API decides for each request: which
middleware stage answers, with which status and message, and what the
request leaves in the document store.

The store is an immutable pair of maps from ObjectId to document (`users`,
`posts`). Each middleware, handler and route is a pure function. A
middleware returns a `Step` (`Halt(response)` or `Next(value)`), and a
handler returns a `Reply` (the response together with the store after the
request). Mongoose's schema setters, validators, timestamps and pre-save
hook are written out as functions. So are express-validator's chains and
the error aggregator. The libraries whose semantics are not visible from
the program are fields of an `Env` value:

- jsonwebtoken's `sign` and `verify`;
- bcrypt's `hash` and `compare`;
- ObjectId printing and casting;
- `isEmail`, `isURL`, `isMongoId` and `normalizeEmail`;
- MongoDB `$regex`.

`Coherent(env)` collects the few promises these libraries make. For
example, a token verifies to the id it was signed for, a password compares
equal to its own hash, and an id's text casts back to the id.

The modules follow the program:

- `Models`: the two schemas.
- `AuthMiddleware`: `authenticate` and `checkOwnership`.
- `Validation`: the rule sets.
- `AuthController`, `PostController` and `UserController`: the handlers.
- `Responses`: the response objects.
- `Routes`: the stage order of each mounted route.
- `Scenarios`: sequences of requests.

`Text`, `Listing` and `Foundation` hold the string functions (`trim`, ASCII
`toLowerCase`, `isLength`, `isInt`), the newest-first order and the common
types. The user objects in responses (`UserResponse`, `SafeUser`,
`UserProfile`) have no password field, so no response can carry the
password or its hash.

Where the code and its documentation differ, the model follows the code:

- The ownership checks inside `updatePost` and `deletePost` are commented
  out. Only the `checkOwnership` stage of the route enforces authorship,
  and `OnlyAuthorsMutate` shows that it is enough.
- `validatePostCreation` and `validatePostUpdate` check `postTitle` and
  `postDescription`. The handlers read `title` and `description`, and
  neither validator is mounted. `PostCreationIgnoresHandlerFields` shows
  that a body the handler accepts fails the creation rules.
- The pagination query is validated, but no handler reads it.
- `updateProfile`, `getAllUsers`, `searchUsers` and `checkEmailExists` are
  written but mounted on no route. They are modelled as handlers, and
  `Routes.Handle` does not reach them.

## Model

| member | source | states |
|---|---|---|
| Foundation.FreshId | controllers/postController.js:128-133 | A created document gets an id that no document of the collection has (the model picks one past the greatest; that it is greater is a modelling choice, not an ObjectId promise). |
| Text.Trim | models/user.models.js:5-6 | The `trim` setter's result has no leading or trailing whitespace and is no longer than its input. |
| Text.TrimStripsEdges | models/user.models.js:5-6 | What `trim` keeps is one contiguous slice of the input, and everything it drops before and after that slice is whitespace. |
| Text.TrimFixesUnpadded | models/user.models.js:5 | Trimming leaves a string unchanged exactly when it has no edge whitespace. |
| Text.TrimIdempotent | models/user.models.js:5 | Trimming a second time changes nothing. |
| Text.TrimEmptyIffBlank | models/user.models.js:5 | A string trims to the empty string exactly when it is all whitespace, which `required` then rejects. |
| Text.ToLower | models/user.models.js:6 | The `lowercase` setter keeps the length and maps each character on its own: ASCII capitals become small letters, and every other character stays. |
| Text.ToLowerIdempotent | models/user.models.js:6 | Lower-casing a second time changes nothing. |
| Text.LowerTrimCommute | models/user.models.js:6 | The `lowercase` and `trim` setters give the same email whichever runs first. |
| Text.CodeUnits | models/user.models.js:5 | The length `minlength` measures (UTF-16 units) is between the number of characters and twice that, and equals it for characters of the basic plane. |
| Text.ValidatorLength | middlewares/validation.js:28 | The length `isLength` compares is at most the number of characters, and equals it when there is no variation selector. |
| Text.FirstLine | middlewares/validation.js:39 | The text the `.*` lookaheads search is the longest prefix that has no line terminator. |
| Text.ParseInt | middlewares/validation.js:153 | `isInt` reads a value only from a non-empty run of digits with at most one leading sign. |
| Text.DecimalValue | middlewares/validation.js:153 | The digits of a number's decimal rendering have that number as their value. |
| Text.ParseDecimal | middlewares/validation.js:153 | A number a client writes in decimal is read back as the same integer. |
| Collaborators.IdTextInjective | middlewares/auth.js:96 | When the libraries keep their promises, two ids print alike exactly when they are the same id. |
| Listing.ByRecency | controllers/postController.js:9-11 | `.sort({ createdAt: -1 })` lists every selected document exactly once, and creation times never increase along the list. |
| Models.EmailKey | models/user.models.js:6 | The email the setters store has no edge whitespace, is already lower case, and is no longer than the input. |
| Models.EmailKeyIdempotent | models/user.models.js:6 | A stored email passed through the setters again is unchanged, so queries and stored values agree. |
| Models.UserSchemaValid | models/user.models.js:5-7 | A user document passes the schema exactly when its name is at least 2 UTF-16 code units long, its email is non-empty and its password is at least 6 code units long. `minlength` subsumes `required` for the name and the password, so a valid name has at least one character and a valid password at least three. |
| Models.NewUser | models/user.models.js:4-13 | A new user document: the name and bio trimmed, the email lowered and trimmed, the placeholder image and empty bio as defaults, both timestamps at creation time. |
| Models.PreSave | models/user.models.js:16-20 | The pre-save hook replaces the password by its hash exactly when the password was modified, and changes no other field. |
| Models.ComparePassword | models/user.models.js:23-25 | `comparePassword` holds exactly when bcrypt matches the candidate against the stored hash. |
| Models.FindUserByEmail | controllers/authController.js:19 | `findOne({ email })` finds a user whose stored email equals the normalised query, and finds none exactly when no user has that email. |
| Models.FindUserByEmailUnique | models/user.models.js:6 | With the unique index, the email lookup finds the one user who has that email. |
| Models.CreateUser | controllers/authController.js:28-34 | `User.create` fails validation exactly when the schema rejects the document. It fails on the unique index exactly when a valid document's email is taken. Otherwise it stores the document under a fresh id with the password hashed. |
| Models.SaveUser | controllers/authController.js:191 | Saving an edited user fails exactly when the schema rejects it. It keeps the stored password, and moves `updatedAt` only when something changed. |
| Text.TrimOpt | models/post.models.js:14-17 | A value that may be absent, such as the optional `imageUrl` or a body field the `trim()` sanitizer touches, stays absent when absent and is trimmed when present. |
| Models.NewPost | models/post.models.js:3-23 | A new post: the title and description are the given values (or '') trimmed, the image is present exactly when given and then trimmed, the author is as given, and both timestamps are the creation time. |
| Models.NewPostSchemaValid | models/post.models.js:3-13 | A new post passes the schema exactly when a title and a description were sent and neither is all whitespace, because the `trim` setter runs before `required`. |
| Models.SavePost | controllers/postController.js:194 | Saving an edited post fails exactly when the schema rejects it, and moves `updatedAt` only when something changed. |
| Models.CountPosts | controllers/userController.js:19 | `countDocuments({ author })` is zero exactly when no post has that author. |
| Models.FindById | middlewares/auth.js:86 | `findById` on a request string: a CastError when the string does not cast, nothing when no document has the id, the document otherwise. |
| Models.InsertUserPreservesValid | models/user.models.js:4-13 | Adding a well-formed user under a fresh id, with an email nobody has, keeps the store invariant (well-formed documents, unique emails, every author exists). |
| Models.ReplacedUsersValid | models/user.models.js:6 | Replacing a user by a well-formed one with the same email keeps emails unique and users well formed. |
| Models.ReplaceUserPreservesValid | controllers/authController.js:187-191 | Saving a well-formed edit of a user that keeps its email keeps the store invariant. |
| Models.ReplacePostPreservesValid | controllers/postController.js:189-194 | Saving a well-formed edit of a post that keeps its author keeps the store invariant. |
| Models.InsertPostPreservesValid | controllers/postController.js:128-133 | Adding a well-formed post by an existing user keeps the store invariant. |
| Responses.ToPostView | controllers/postController.js:88-97 | The formatted post copies id, author, title, description, image and creation time one to one. `userName` and `userImageUrl` are the populated author's `fullName` and `profileImage`, and `updatedAt` is present exactly in the update reply. It exists exactly when the populated author exists. |
| Responses.ToUserResponse | controllers/authController.js:101-108 | The `userResponse` object holds the user's id, name, email, picture, bio and creation time, and no password. |
| Responses.ToSafeUser | middlewares/auth.js:40 | The user `select('-password')` loads holds every stored field except the password, under its id. |
| Responses.ToProfile | controllers/userController.js:21-29 | The `userProfile` object holds the user's public fields and the given post count. |
| Responses.PasswordNeverShown | controllers/authController.js:100-108 | None of the three user objects the handlers answer with changes when only the password changes. |
| Responses.ToPostViews | controllers/postController.js:14-23 | Formatting a listing succeeds exactly when every listed post's author exists, and then it keeps the length and gives each post's own view in order. |
| AuthMiddleware.BearerToken | middlewares/auth.js:24 | The token is what follows the seven-character `Bearer ` prefix: prefix plus token is the header. |
| AuthMiddleware.LookupClaim | middlewares/auth.js:36-49 | The decoded `userId` authenticates exactly when it casts to the id of an existing user, and the principal is that id. Every other outcome is a 401. |
| AuthMiddleware.Authenticate | middlewares/auth.js:5-80 | Every failure is a 401. `next()` runs exactly when the header is present, starts with `Bearer ` (case-sensitive), carries a non-empty token that verifies, and names an existing user. The attached user is the password-free projection of that user. A missing header, a wrong prefix and an empty token each get their own message. |
| AuthMiddleware.VerificationFailureMessages | middlewares/auth.js:58-79 | An invalid token and an expired token give 401s with different messages. |
| AuthMiddleware.IssuedTokenAuthenticates | middlewares/auth.js:36-56 | A token the application signed for an existing user authenticates as that user. |
| AuthMiddleware.IssuedTokenForMissingUser | middlewares/auth.js:40-49 | A token signed for a user who is no longer stored gives 401 'User not found'. |
| AuthMiddleware.CheckOwnership | middlewares/auth.js:83-114 | 500 exactly when the id does not cast, 404 exactly when no post has it, 403 exactly when the author's id text differs from the requester's. Otherwise `next()` runs with the stored post attached. |
| AuthMiddleware.OwnershipIsAuthorship | middlewares/auth.js:96-104 | When the libraries keep their promises, the guard passes exactly when the post exists and the requester is its author. |
| Validation.HandleValidationErrors | middlewares/validation.js:4-22 | The aggregator passes exactly when there is no violation. Otherwise it answers 400 'Validation failed' with the violations as found, in order. |
| Validation.Gate | middlewares/validation.js:4-22 | A rule set followed by the aggregator passes the sanitized body on exactly when no rule failed, and otherwise answers 400 with the violations. |
| Validation.Rule | middlewares/validation.js:28-29 | One validator adds no violation when its test holds, and otherwise adds exactly one, naming the field, its message and the value. |
| Validation.TrimIn | middlewares/validation.js:27 | The `trim()` sanitizer trims the one field when present and leaves every other field alone. |
| Validation.NormalizedEmail | middlewares/validation.js:30-34 | `trim().normalizeEmail()` is applied to a present email, and a missing one stays missing. |
| Validation.FullNameChain | middlewares/validation.js:26-29 | The registration name passes exactly when its trimmed value is 2 to 50 long. A missing name counts as the empty string. |
| Validation.EmailChain | middlewares/validation.js:30-34 | The email passes exactly when its trimmed value is an email. |
| Validation.RegistrationChainsReportTrimmedValue | middlewares/validation.js:4-34 | A failing name or email chain gives exactly one violation, whose value is the trimmed field. A missing field is reported with the value '', which `trim()` wrote into it, and `handleValidationErrors` echoes that value. |
| Validation.PasswordChain | middlewares/validation.js:36-40 | The untrimmed password passes exactly when it is 6 to 20 long and has a lower-case letter, an upper-case letter and a digit. |
| Validation.ProfileImageChain | middlewares/validation.js:41-44 | A profile image passes when absent, and otherwise exactly when it is a URL. |
| Validation.BioChain | middlewares/validation.js:46-50 | A bio passes when absent, and otherwise exactly when its trimmed value is at most 500 long. |
| Validation.RegistrationFields | middlewares/validation.js:25-53 | The body the registration handler sees has the name and bio trimmed and the email normalised. All other fields are as sent. |
| Validation.RegistrationRules | middlewares/validation.js:25-53 | Registration passes exactly when all five chains pass, and then hands on the sanitized body. |
| Validation.LoginRules | middlewares/validation.js:56-70 | Login passes exactly when the trimmed email is an email and the password is at least 6 long. A missing password fails both password rules. Only the email is sanitized. |
| Validation.ProfileUpdateRules | middlewares/validation.js:73-94 | A present name must trim to 2 to 50 letters and spaces. A present image must be a URL, and a present bio must trim to at most 500. |
| Validation.ProfileNameChain | middlewares/validation.js:74-80 | An optional name passes exactly when, trimmed, it is 2 to 50 long and only letters and spaces. |
| Validation.PostImageChain | middlewares/validation.js:108-111 | A post image passes when absent, and otherwise exactly when it is a URL. |
| Validation.PostCreationRules | middlewares/validation.js:97-114 | The trimmed `postTitle` must be 3 to 200 long and the trimmed `postDescription` 10 to 2000 long, and a present `postImageUrl` must be a URL. |
| Validation.PostCreationViolations | middlewares/validation.js:97-114 | The creation chains report nothing exactly when the trimmed title and description are within their lengths and any image URL is a URL. A missing title or description is reported with the value '' that `trim()` wrote into it. |
| Validation.MissingPostFieldsReportEmpty | middlewares/validation.js:97-114 | A creation body without `postTitle` or `postDescription` gets a length violation for that field whose value is ''. |
| Validation.PostUpdateRules | middlewares/validation.js:117-138 | Each field is optional. A title must trim to 3 to 200 characters from the allowed set, a description to 10 to 2000, and an image must be a URL. |
| Validation.PostTitleUpdateChain | middlewares/validation.js:118-124 | An optional title passes exactly when, trimmed, it is 3 to 200 long and made only of the allowed characters. |
| Validation.PostDescriptionUpdateChain | middlewares/validation.js:126-130 | An optional description passes exactly when, trimmed, it is 10 to 2000 long. |
| Validation.PostCreationIgnoresHandlerFields | middlewares/validation.js:97-114 | A body that sends only `title` and `description`, the fields the handler reads, fails the creation rules. |
| Validation.ObjectIdRules | middlewares/validation.js:141-147 | The id parameter passes exactly when it is a MongoDB id, and otherwise gives the one violation 'Invalid id format'. |
| Validation.PaginationRules | middlewares/validation.js:150-167 | The query passes exactly when a present page is an integer from 1 to 1000, a present limit an integer from 1 to 100, and a present sort one of the six keys. |
| Validation.PaginationBoundaries | middlewares/validation.js:150-167 | Page 0, limit 101 and an unknown sort key are each refused with their own message, and with only that violation. |
| Validation.PaginationMaxima | middlewares/validation.js:150-167 | Page 1000 with limit 100 and sort '-title' passes: the bounds are inclusive. |
| Validation.PageInRangeAccepted | middlewares/validation.js:151-154 | Every page number from 1 to 1000 written in decimal passes. |
| Validation.ValidateFileUpload | middlewares/validation.js:172-202 | With no file the request passes. Otherwise it passes exactly when the type is allowed and the size is at most the maximum. A disallowed type is refused with the type message before the size is looked at. |
| Validation.DefaultUploadLimits | middlewares/validation.js:172 | With the defaults, an image of exactly 5 MiB passes and one byte more is refused. Any type other than JPEG, PNG and GIF is refused with the message listing those three. |
| PostController.CreationTimes | controllers/postController.js:43 | `Post.find({ author })` selects exactly the posts of that author (all posts without a filter), each with its creation time. |
| PostController.ListPosts | controllers/postController.js:9-23 | A listing is 200 exactly when every selected post's author exists. It then holds every selected post once, newest first, each formatted as itself. Otherwise it is 500. |
| PostController.ListingCoversSelection | controllers/postController.js:10 | The populated listing lacks no author exactly when no selected post lacks one. |
| PostController.FormattedListing | controllers/postController.js:14-23 | Formatting keeps the order of the listing and each post's id and author. |
| PostController.GetAllPosts | controllers/postController.js:7-36 | `getAllPosts` answers 200 exactly when every post's author exists, with every post once, newest first, each as its own formatted view. |
| PostController.GetMyPosts | controllers/postController.js:41-70 | `getMyPosts` lists exactly the requester's posts, newest first, each as its own formatted view. An existing requester always gets 200. |
| PostController.ListingsSucceed | controllers/postController.js:7-36 | In a store that keeps the invariant, the home listing is always 200. |
| PostController.GetPost | controllers/postController.js:75-110 | 404 'Post not found' exactly when no post has the id. 200 with that post's view when it exists and its author does. Otherwise 500. |
| PostController.PostFormOf | controllers/postController.js:117 | The handler reads `title`, `description` and `imageUrl` from the body. |
| PostController.CreatePost | controllers/postController.js:115-163 | 400 exactly when title or description is falsy. 201 exactly when the trimmed document passes the schema and the requester exists, and then exactly one post is added, authored by the requester. A 400 and a schema rejection leave the store unchanged. A document that passes the schema is always stored, so a requester who no longer exists gets a 500 and the post stays (the author is populated only after `Post.create`). |
| PostController.MergePost | controllers/postController.js:190-192 | Title and description are replaced (trimmed) only when truthy, and the image whenever it is defined. The author and the timestamps stay. |
| PostController.UpdatePost | controllers/postController.js:168-225 | 404 exactly when no post has the id, and an id that does not cast is a 500; both leave the store unchanged. For a found post, 200 exactly when the merged post passes the schema and its author exists. A schema rejection is a 500 that writes nothing. A merged post that passes is stored, even when the missing author then makes the answer 500. Users, the set of posts, every author and every other post stay as they were. On 200 the response is the stored post's view. |
| PostController.UpdateSucceedsWhenSchemaAccepts | controllers/postController.js:168-225 | In a valid store, updating an existing post answers 200 exactly when the merged post passes the schema. |
| PostController.DeletePost | controllers/postController.js:230-263 | 404 exactly when no post has the id, 500 exactly when the id does not cast. On 200 exactly that post is removed. Otherwise the store is unchanged. |
| PostController.CreatePostPreservesValid | controllers/postController.js:128-133 | Creating a post keeps the store invariant. |
| PostController.UpdatePostPreservesValid | controllers/postController.js:189-194 | Updating a post keeps the store invariant. |
| PostController.DeletePostPreservesValid | controllers/postController.js:250 | Deleting a post keeps the store invariant, since no user depends on a post. |
| PostController.DeletedPostIsGone | controllers/postController.js:233-250 | After a successful delete, `getPost` on the same id is a 404. |
| UserController.CountIsListingSize | controllers/userController.js:19 | A user's `countDocuments` is the number of posts the author listing selects. |
| UserController.GetUserProfile | controllers/userController.js:7-42 | 500 exactly when the id does not cast, 404 exactly when no user has it. Otherwise the profile of that user, with a post count that is its number of posts. |
| UserController.GetUserPosts | controllers/userController.js:47-76 | An id that does not cast gives 500. For an id that casts, 200 exactly when every post of that author has a stored author, and then the list holds exactly the posts whose author is the id, newest first, each as its own formatted view. |
| UserController.UserPostsSucceed | controllers/userController.js:49-68 | In a valid store, every id that casts lists its posts with 200. |
| UserController.UnknownAuthorListsNothing | controllers/userController.js:49-68 | An id that casts but belongs to no user gives 200 with an empty list, not 404. |
| UserController.ProfileCountMatchesPosts | controllers/userController.js:19 | A profile's `postsCount` is the length of that user's post listing. |
| UserController.ProfilesOf | controllers/userController.js:88-101 | One profile per listed user, in order, each counting that user's own posts. |
| UserController.GetAllUsers | controllers/userController.js:81-114 | Every user exactly once, newest first, each with the number of posts they authored. |
| UserController.Matches | controllers/userController.js:131-136 | The search selects exactly the users whose name or email the pattern matches. |
| UserController.PrefixIsNewest | controllers/userController.js:138-139 | Cutting a newest-first enumeration keeps distinct, ordered entries, and everything cut is no newer than what is kept. |
| UserController.NewestUpTo | controllers/userController.js:138-139 | `.sort().limit(n)` keeps at most n entries, newest first, all of them when there are no more than n. Any entry left out is no newer than every kept one. |
| UserController.UserResponses | controllers/userController.js:142-149 | One password-free user object per listed user, in order. |
| UserController.SearchUsers | controllers/userController.js:119-162 | 400 exactly when `q` is falsy, and 500 exactly when the pattern is invalid. Otherwise the newest (at most 20) matching users. |
| UserController.CheckEmailExists | controllers/userController.js:167-191 | 400 exactly when the email is falsy. Otherwise `exists` is true exactly when some user's stored email equals the normalised query. |
| UserController.LowerKeepsEmailKey | controllers/userController.js:178 | Lower-casing the query before the lookup changes nothing, because the setters lower-case it anyway. |
| UserController.RegisteredEmailExists | controllers/userController.js:171-182 | A stored user is reported as existing for any spelling of their email that normalises to it. |
| AuthController.ExistingUser | controllers/authController.js:19 | The duplicate lookup finds nobody for a missing email, and is the email lookup otherwise. |
| AuthController.RegistrationFormOf | controllers/authController.js:16 | `register` reads the five fields from the body. |
| AuthController.RegistrationDoc | controllers/authController.js:28-34 | The document handed to `User.create` has the setters applied, the defaults for missing image and bio, and the request time. |
| AuthController.Enroll | controllers/authController.js:28-54 | For an email nobody has, the result is 201 exactly when the schema accepts the document. The stored user is the document with its password hashed, and the token is signed for the new id. Otherwise 500 with the store unchanged. |
| AuthController.Register | controllers/authController.js:14-62 | 400 exactly when the email is taken, with the store unchanged. 201 exactly when it is free and the document is valid, and then exactly one user is added under a fresh id with a hashed password and a token for that id. Otherwise 500. Existing users never change. |
| AuthController.RegisterPreservesValid | controllers/authController.js:19-34 | Registration keeps the store invariant, in particular unique emails. |
| AuthController.Login | controllers/authController.js:67-123 | 400 before any lookup when email or password is falsy. 401 'No account' exactly when no user has the email, and 401 'Incorrect password' exactly when the hash does not match. 200 with that user and a token for them otherwise. |
| AuthController.LoginAccepts | controllers/authController.js:89-115 | An email that finds a user, with a password that matches their hash, logs in as that user. |
| AuthController.GetMe | controllers/authController.js:128-159 | 404 exactly when the user is absent, and otherwise their password-free user object. |
| AuthController.Logout | controllers/authController.js:164-169 | Logout always answers 200 with the message 'Logout successful'. |
| AuthController.MergeProfile | controllers/authController.js:187-189 | The name is replaced only when truthy. The image and bio are replaced whenever defined, so an empty string clears them. Email, password and timestamps are never touched. |
| AuthController.UpdateProfile | controllers/authController.js:174-214 | 404 exactly when the user is absent, and 200 exactly when the user exists and the merged document passes the schema. Only a 200 changes the store, and then only that user, as the merged document. No user's email or password ever changes. |
| AuthController.UpdateProfilePreservesValid | controllers/authController.js:186-191 | The profile update keeps the store invariant. |
| Routes.IdStage | middlewares/validation.js:141-147 | `validateObjectId('id')` with its aggregator passes exactly when the id is a MongoDB id, and otherwise answers 400 with the one violation. |
| Routes.GatedRegister | routes/auth.js:13 | The register handler runs only when the registration rules found nothing. Otherwise the answer is their 400 with the store unchanged. |
| Routes.RegisterRoute | routes/auth.js:13 | Registration validation runs first, and a violation gives 400 with no user created. Otherwise the handler runs on the sanitized body. Existing users never change. |
| Routes.LoginRoute | routes/auth.js:18 | Login validation runs before the handler, and login never changes the store. |
| Routes.LogoutRoute | routes/auth.js:23 | Logout answers only after successful authentication, and otherwise gives the 401 of `authenticate`. |
| Routes.CurrentUserRoute | routes/auth.js:28 | `/me` is a 401 from `authenticate` or the user object of the authenticated user, never a 404. |
| Routes.PostsIndexRoute | routes/posts.js:16 | An invalid pagination query gives 400 without running the handler. Otherwise the result is the full listing, and the query is not used. |
| Routes.PostsMineRoute | routes/posts.js:21 | Authentication answers first, then the pagination check. Otherwise the requester's posts are returned, always 200. |
| Routes.PostsCreateRoute | routes/posts.js:26 | Only authentication precedes `createPost`, and no body validation runs. Users are untouched. |
| Routes.PostsShowRoute | routes/posts.js:31 | Only the id-format check precedes `getPost`, and no authentication is needed. |
| Routes.OwnerStages | routes/posts.js:36-41 | `authenticate`, then the id check, then `checkOwnership`: the first stage that answers decides. Passing means an existing requester and an existing post whose author prints as the requester. |
| Routes.PostsUpdateRoute | routes/posts.js:36-41 | `updatePost` runs only behind the three guards, and a guard's answer leaves the store unchanged. |
| Routes.PostsDeleteRoute | routes/posts.js:46-51 | `deletePost` runs only behind the three guards, and a guard's answer leaves the store unchanged. |
| Routes.UsersShowRoute | routes/users.js:10 | The id-format check, then `getUserProfile`. A bad id gives 400 without running the handler. |
| Routes.UsersPostsRoute | routes/users.js:14 | The id-format check, then `getUserPosts`. A bad id gives 400 without running the handler. |
| Routes.Handle | routes/posts.js:16-51 | Only register, create, update and delete can change the store. No mounted route changes or removes an existing user. |
| Routes.GuardPrecedence | routes/posts.js:36-51 | On PUT and DELETE of a post: 401 before 400, then 404 for a missing post, then 403 for someone else's post. Only the author passes. |
| Routes.OnlyAuthorsMutate | routes/posts.js:36-51 | When PUT or DELETE changes the store, the request authenticated as the author of that post. |
| Routes.MyPostsAuthenticatesFirst | routes/posts.js:21 | Without valid authentication `/my-posts` is a 401, whatever the query. |
| Routes.PublicRoutesIgnoreAuthorization | routes/users.js:10-14 | Register, login, the post listing, a post, a profile and a user's posts answer the same with any `Authorization` header or none. |
| Routes.VerifyTokenIsMe | routes/auth.js:28-33 | `/verify-token` and `/me` give identical results, either 200 or 401. |
| Routes.RegisterRoutePreservesValid | routes/auth.js:13 | The register route keeps the store invariant. |
| Routes.PostsCreateRoutePreservesValid | routes/posts.js:26 | The create route keeps the store invariant. |
| Routes.PostsUpdateRoutePreservesValid | routes/posts.js:36-41 | The update route keeps the store invariant. |
| Routes.HandlePreservesValid | routes/auth.js:13-33 | Every mounted route keeps the store invariant: well-formed users with unique emails, and well-formed posts whose authors exist. |
| Scenarios.RegistrationPassedRules | routes/auth.js:13 | A registration that succeeded passed its rules, and reached the handler with the sanitized body. |
| Scenarios.RegisteredFormIsComplete | controllers/authController.js:16-34 | A registration that succeeded had a password and an email with a non-empty key. |
| Scenarios.LoginRulesAfterRegistration | middlewares/validation.js:56-70 | A body the registration rules accept is accepted by the login rules, which normalise the email alike. |
| Scenarios.RegistrationFormFields | middlewares/validation.js:30-40 | The form `register` reads holds the normalised email and the password as sent. |
| Scenarios.RegisteredUserLogsIn | controllers/authController.js:80-98 | After `register` created a user, `login` with the same email and password finds that user and accepts the password. |
| Scenarios.LoginRouteAfterRegistration | routes/auth.js:18 | A body that passed the registration rules also passes the login rules, so the login route hands it to `login`. |
| Scenarios.RegisteredBodyCredentials | middlewares/validation.js:30-40 | `login` reads from a registered body the same email and password that `register` read from it. |
| Scenarios.RegisteredBodyLogsIn | controllers/authController.js:67-123 | The login route, sent the body a registration accepted, logs in the user that registration created. |
| Scenarios.RegisteredCredentialsLogIn | routes/auth.js:13-18 | Credentials a registration accepted log in at once, as the created user, with a token for that user. |
| Scenarios.RegistrationTokenOpensMe | routes/auth.js:13-28 | The token a registration returns opens `/me` for the new user. |
| Scenarios.CreatedPostReadsBack | routes/posts.js:26-31 | A post created through the API, fetched by its id text, reads back as the view the creation returned. |
| Scenarios.DeletedPostIsNotFound | routes/posts.js:31-51 | Once its author has deleted a post, fetching it is a 404. |

## Left out

- I/O, async/await, `Promise.all` and Mongoose persistence become sequential functions over the in-memory store. Concurrent requests are not modelled, including two simultaneous registrations with one email.
- jsonwebtoken, bcrypt, ObjectId text and casting, `isEmail`, `isURL`, `isMongoId`, `normalizeEmail` and MongoDB `$regex` have semantics that are not visible here. They are `Env` parameters, and only the promises in `Coherent` are assumed. The bcrypt salt is folded into `hash`, and token expiry into what `verify` returns at the time of the request.
- The clock is a parameter `now`. `console.error` logging is dropped.
- The rate limiter, the error handler, the application and server files, the serverless adapter and the database connection are plumbing outside the request decisions, and are not part of this model.
- Request bodies and queries are maps from names to strings. JSON numbers, booleans, arrays and nested objects in a body are not modelled.
- Routing by path is not modelled: a request names its route. Express's matching of `/my-posts` before `/:id` is taken as given.
- `Text.ToLower` lower-cases ASCII letters only. Case mapping beyond ASCII is not modelled.
- `Validation.ValidateFileUpload` models `req.files` as one file per field name. multer's arrays of files are not modelled. The 'File too large' answer carries the maximum size in bytes. The text JavaScript renders from a floating-point division by 1 MiB is not modelled.
- Validation.PaginationBoundaries: checks only the values just outside the bounds (page 0, limit 101, an unknown sort key). Pages above 1000 and limits below 1 are covered only by the `Validation.PaginationRules` contract, and `Validation.PageInRangeAccepted` covers the whole accepted page range.
- A 500 answer carries the handler's fallback message. The text of `error.message` from a failed save or cast is not modelled.
- `AuthController.Register` answers a missing email with the 500 that `User.create`'s `required` check would give, without modelling the `findOne({ email: undefined })` query.
- `findOne` with several matches returns the least id, and listings break equal creation times by ascending id. MongoDB leaves both unspecified, and the contracts promise only what the source promises (uniqueness of emails, newest-first order).
