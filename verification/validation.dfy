/**
 middlewares/validation.js: the express-validator rule sets, the error
 aggregator `handleValidationErrors`, and `validateFileUpload`.

 A rule set runs its field chains in order and every validator of every
 chain (nothing bails early), so the violations come out in chain order.
 A chain's sanitizers (`trim`, `normalizeEmail`) rewrite the field in the
 request for the validators after them and for the handler; a missing
 field is validated as the empty string, and an `optional()` chain is
 skipped when its field is missing.
 */
module Validation {
  import opened Foundation
  import opened Text
  import opened Collaborators
  import opened Responses

  const ValidationFailedMessage: string := "Validation failed"

  /** `handleValidationErrors`: `next()` when no rule failed, otherwise a
      400 whose `errors` are the violations, one for one and in order. */
  function HandleValidationErrors(violations: seq<Violation>): (r: Step<()>)
    ensures r.Next? <==> violations == []
    ensures r.Halt? ==> r.response.status == 400 && r.response.body.Invalid?
    ensures r.Halt? ==> r.response.body.errors == violations
  {
    if violations == [] then Next(()) else Halt(Response(400, Invalid(violations)))
  }

  /** The outcome of running a rule set: the violations found and the
      request fields after the sanitizers. */
  datatype Checked = Checked(violations: seq<Violation>, fields: Fields)

  /** A rule set followed by `handleValidationErrors`. */
  function Gate(c: Checked): (r: Step<Fields>)
    ensures r.Next? <==> c.violations == []
    ensures r.Next? ==> r.value == c.fields
    ensures r.Halt? ==> r.response == Response(400, Invalid(c.violations))
  {
    if c.violations == [] then Next(c.fields) else Halt(Response(400, Invalid(c.violations)))
  }

  /** One validator: no violation when `ok`, else one naming the field. */
  function Rule(ok: bool, field: string, message: string, value: Option<string>): (vs: seq<Violation>)
    ensures vs == [] <==> ok
    ensures !ok ==> vs == [Violation(field, message, value)]
  {
    if ok then [] else [Violation(field, message, value)]
  }

  /** The value a validator sees: a missing field reads as ''. */
  function Seen(v: Option<string>): string {
    v.GetOr("")
  }

  /** A sanitizer applied to a field that is present; a missing field
      stays missing in the sanitized body. express-validator's `trim()`
      writes '' into a missing field that is not `.optional()`; every such
      chain then fails its own validator on '' (a length minimum, or
      `isEmail`, which `Coherent` says rejects ''), so that body never
      reaches a handler. The '' does reach the 400 answer, as the value of
      the violation, and the chains report it so. */
  function Update(fields: Fields, key: string, v: Option<string>): (r: Fields)
    requires v.Some? <==> key in fields
    ensures Get(r, key) == v
    ensures forall k :: k != key ==> Get(r, k) == Get(fields, k)
  {
    if v.Some? then fields[key := v.value] else fields
  }

  const FullNameLengthMessage: string := "Full name must be between 2 and 50 characters"
  const FullNameCharsMessage: string := "Full name can only contain letters and spaces"
  const EmailMessage: string := "Please provide a valid email address"
  const PasswordLengthMessage: string := "Password must be between 6 and 20 characters"
  const PasswordCompositionMessage: string :=
    "Password must contain at least one lowercase letter, one uppercase letter, and one number"
  const PasswordRequiredMessage: string := "Password is required"
  const PasswordShortMessage: string := "Password must be at least 6 characters"
  const ProfileImageMessage: string := "Profile image must be a valid URL"
  const BioMessage: string := "Bio must not exceed 500 characters"
  const PostTitleLengthMessage: string := "Post title must be between 3 and 200 characters"
  const PostTitleCharsMessage: string := "Post title contains invalid characters"
  const PostDescriptionMessage: string := "Post description must be between 10 and 2000 characters"
  const PostImageMessage: string := "Post image must be a valid URL"
  const PageMessage: string := "Page must be a positive integer between 1 and 1000"
  const LimitMessage: string := "Limit must be between 1 and 100"
  const SortMessage: string := "Invalid sort field"

  const SortKeys: seq<string> := ["createdAt", "-createdAt", "title", "-title", "updatedAt", "-updatedAt"]

  /** The `trim()` sanitizer of a field. */
  function TrimIn(body: Fields, key: string): (r: Fields)
    ensures Get(r, key) == TrimOpt(Get(body, key))
    ensures forall k :: k != key ==> Get(r, k) == Get(body, k)
  {
    Update(body, key, TrimOpt(Get(body, key)))
  }

  /** The `trim()` sanitizers of two fields. */
  function TrimFields(body: Fields, a: string, b: string): (r: Fields)
    requires a != b
    ensures Get(r, a) == TrimOpt(Get(body, a)) && Get(r, b) == TrimOpt(Get(body, b))
    ensures forall k :: k != a && k != b ==> Get(r, k) == Get(body, k)
  {
    var once := TrimIn(body, a);
    assert Get(once, b) == Get(body, b);
    TrimIn(once, b)
  }

  /** The email after `trim().normalizeEmail()`. */
  function NormalizedEmail(env: Env, v: Option<string>): (r: Option<string>)
    ensures r.Some? <==> v.Some?
    ensures r.Some? ==> r.value == env.normalizeEmail(Trim(v.value))
  {
    if v.Some? then Some(env.normalizeEmail(Trim(v.value))) else None
  }

  /** `body('fullName').trim().isLength({ min: 2, max: 50 })` */
  function FullNameChain(body: Fields): (vs: seq<Violation>)
    ensures vs == [] <==> LengthBetween(Trim(Seen(Get(body, "fullName"))), 2, 50)
  {
    var n := Trim(Seen(Get(body, "fullName")));
    Rule(LengthBetween(n, 2, 50), "fullName", FullNameLengthMessage, Some(n))
  }

  /** `body('email').trim().isEmail()`; the violation reports the trimmed
      value, since `normalizeEmail()` runs after the validator. */
  function EmailChain(env: Env, body: Fields): (vs: seq<Violation>)
    ensures vs == [] <==> env.isEmail(Trim(Seen(Get(body, "email"))))
  {
    var e := Trim(Seen(Get(body, "email")));
    Rule(env.isEmail(e), "email", EmailMessage, Some(e))
  }

  /** A failing name or email chain reports the one violation with the
      trimmed value, which is '' for a missing field: `trim()` has already
      written `toString(undefined)` into it. */
  lemma RegistrationChainsReportTrimmedValue(env: Env, body: Fields)
    ensures FullNameChain(body) != [] ==>
              FullNameChain(body) == [Violation("fullName", FullNameLengthMessage, Some(Trim(Seen(Get(body, "fullName")))))]
    ensures EmailChain(env, body) != [] ==>
              EmailChain(env, body) == [Violation("email", EmailMessage, Some(Trim(Seen(Get(body, "email")))))]
    ensures "fullName" !in body ==> FullNameChain(body) == [Violation("fullName", FullNameLengthMessage, Some(""))]
  {
  }

  /** `body('bio').optional().trim().isLength({ max: 500 })` */
  function BioChain(body: Fields): (vs: seq<Violation>)
    ensures vs == [] <==> ("bio" in body ==> ValidatorLength(Trim(body["bio"])) <= 500)
  {
    var b := TrimOpt(Get(body, "bio"));
    if b.None? then [] else Rule(ValidatorLength(b.value) <= 500, "bio", BioMessage, b)
  }

  /** `body('profileImage').optional().isURL()` */
  function ProfileImageChain(env: Env, body: Fields): (vs: seq<Violation>)
    ensures vs == [] <==> ("profileImage" in body ==> env.isUrl(body["profileImage"]))
  {
    var p := Get(body, "profileImage");
    if p.None? then [] else Rule(env.isUrl(p.value), "profileImage", ProfileImageMessage, p)
  }

  /** `body('password').isLength({ min: 6, max: 20 }).matches(...)`, no
      trimming: both rules are checked and both can fail. */
  function PasswordChain(body: Fields): (vs: seq<Violation>)
    ensures vs == [] <==> LengthBetween(Seen(Get(body, "password")), 6, 20) && PasswordComposition(Seen(Get(body, "password")))
  {
    var p := Get(body, "password");
    Rule(LengthBetween(Seen(p), 6, 20), "password", PasswordLengthMessage, p)
    + Rule(PasswordComposition(Seen(p)), "password", PasswordCompositionMessage, p)
  }

  /** The request body after the registration sanitizers. */
  function RegistrationFields(env: Env, body: Fields): (r: Fields)
    ensures Get(r, "fullName") == TrimOpt(Get(body, "fullName"))
    ensures Get(r, "email") == NormalizedEmail(env, Get(body, "email"))
    ensures Get(r, "bio") == TrimOpt(Get(body, "bio"))
    ensures forall k :: k != "fullName" && k != "email" && k != "bio" ==> Get(r, k) == Get(body, k)
  {
    var f1 := TrimIn(body, "fullName");
    var f2 := Update(f1, "email", NormalizedEmail(env, Get(body, "email")));
    TrimIn(f2, "bio")
  }

  /** `validateUserRegistration`: the trimmed full name is 2..50 long, the
      trimmed email is an email, the (untrimmed) password is 6..20 long
      with a lower-case letter, an upper-case letter and a digit, and the
      optional picture and bio are a URL and at most 500 long. */
  function RegistrationRules(env: Env, body: Fields): (c: Checked)
    ensures c.violations == [] <==>
      && LengthBetween(Trim(Seen(Get(body, "fullName"))), 2, 50)
      && env.isEmail(Trim(Seen(Get(body, "email"))))
      && LengthBetween(Seen(Get(body, "password")), 6, 20)
      && PasswordComposition(Seen(Get(body, "password")))
      && ("profileImage" in body ==> env.isUrl(body["profileImage"]))
      && ("bio" in body ==> ValidatorLength(Trim(body["bio"])) <= 500)
    ensures c.fields == RegistrationFields(env, body)
  {
    var v1 := FullNameChain(body);
    var v2 := EmailChain(env, body);
    var v3 := PasswordChain(body);
    var v4 := ProfileImageChain(env, body);
    var v5 := BioChain(body);
    NoViolations(v1, v2, v3, v4, v5);
    Checked(v1 + v2 + v3 + v4 + v5, RegistrationFields(env, body))
  }

  lemma NoViolations(a: seq<Violation>, b: seq<Violation>, c: seq<Violation>, d: seq<Violation>, e: seq<Violation>)
    ensures a + b + c + d + e == [] <==> a == [] && b == [] && c == [] && d == [] && e == []
  {
    assert |a + b + c + d + e| == |a| + |b| + |c| + |d| + |e|;
  }

  /** `validateUserLogin`: the trimmed email is an email and the password
      is non-empty and at least 6 long; a missing password violates both
      password rules. */
  function LoginRules(env: Env, body: Fields): (c: Checked)
    ensures c.violations == [] <==>
      env.isEmail(Trim(Seen(Get(body, "email")))) && ValidatorLength(Seen(Get(body, "password"))) >= 6
    ensures "password" !in body ==> |c.violations| >= 2
    ensures Get(c.fields, "email") == NormalizedEmail(env, Get(body, "email"))
    ensures forall k :: k != "email" ==> Get(c.fields, k) == Get(body, k)
  {
    var v1 := EmailChain(env, body);
    var p := Get(body, "password");
    var v2 := Rule(Seen(p) != "", "password", PasswordRequiredMessage, p)
            + Rule(ValidatorLength(Seen(p)) >= 6, "password", PasswordShortMessage, p);
    Checked(v1 + v2, Update(body, "email", NormalizedEmail(env, Get(body, "email"))))
  }

  /** `validateProfileUpdate`: an optional full name, once trimmed, is
      2..50 long and only letters and spaces; optional picture and bio as
      at registration. */
  function ProfileUpdateRules(env: Env, body: Fields): (c: Checked)
    ensures c.violations == [] <==>
      && ("fullName" in body ==> LengthBetween(Trim(body["fullName"]), 2, 50) && NameCharacters(Trim(body["fullName"])))
      && ("profileImage" in body ==> env.isUrl(body["profileImage"]))
      && ("bio" in body ==> ValidatorLength(Trim(body["bio"])) <= 500)
    ensures Get(c.fields, "fullName") == TrimOpt(Get(body, "fullName"))
    ensures Get(c.fields, "bio") == TrimOpt(Get(body, "bio"))
    ensures forall k :: k != "fullName" && k != "bio" ==> Get(c.fields, k) == Get(body, k)
  {
    var v1 := ProfileNameChain(body);
    var v2 := ProfileImageChain(env, body);
    var v3 := BioChain(body);
    NoViolationsIn(v1, v2, v3);
    Checked(v1 + v2 + v3, TrimFields(body, "fullName", "bio"))
  }

  /** The optional name chain of `validateProfileUpdate`: length, then
      the letters-and-spaces pattern, both on the trimmed name. */
  function ProfileNameChain(body: Fields): (vs: seq<Violation>)
    ensures vs == [] <==>
      ("fullName" in body ==> LengthBetween(Trim(body["fullName"]), 2, 50) && NameCharacters(Trim(body["fullName"])))
  {
    var n := TrimOpt(Get(body, "fullName"));
    if n.None? then []
    else
      var a := Rule(LengthBetween(n.value, 2, 50), "fullName", FullNameLengthMessage, n);
      var b := Rule(NameCharacters(n.value), "fullName", FullNameCharsMessage, n);
      assert |a + b| == |a| + |b|;
      a + b
  }

  lemma NoViolationsIn(a: seq<Violation>, b: seq<Violation>, c: seq<Violation>)
    ensures a + b + c == [] <==> a == [] && b == [] && c == []
  {
    assert |a + b + c| == |a| + |b| + |c|;
  }

  /** `body('postImageUrl').optional().isURL()` */
  function PostImageChain(env: Env, body: Fields): (vs: seq<Violation>)
    ensures vs == [] <==> ("postImageUrl" in body ==> env.isUrl(body["postImageUrl"]))
  {
    var p := Get(body, "postImageUrl");
    if p.None? then [] else Rule(env.isUrl(p.value), "postImageUrl", PostImageMessage, p)
  }

  /** `validatePostCreation`: the trimmed `postTitle` is 3..200 long and
      the trimmed `postDescription` 10..2000; the optional `postImageUrl`
      is a URL. (These are not the field names the post handlers read.) */
  function PostCreationRules(env: Env, body: Fields): (c: Checked)
    ensures c.violations == [] <==>
      && LengthBetween(Trim(Seen(Get(body, "postTitle"))), 3, 200)
      && LengthBetween(Trim(Seen(Get(body, "postDescription"))), 10, 2000)
      && ("postImageUrl" in body ==> env.isUrl(body["postImageUrl"]))
    ensures Get(c.fields, "postTitle") == TrimOpt(Get(body, "postTitle"))
    ensures Get(c.fields, "postDescription") == TrimOpt(Get(body, "postDescription"))
    ensures forall k :: k != "postTitle" && k != "postDescription" ==> Get(c.fields, k) == Get(body, k)
  {
    Checked(PostCreationViolations(env, body), TrimFields(body, "postTitle", "postDescription"))
  }

  /** The violations of `validatePostCreation`, in the order its chains
      run: the title length, the description length, the image URL. */
  function PostCreationViolations(env: Env, body: Fields): (vs: seq<Violation>)
    ensures vs == [] <==>
      && LengthBetween(Trim(Seen(Get(body, "postTitle"))), 3, 200)
      && LengthBetween(Trim(Seen(Get(body, "postDescription"))), 10, 2000)
      && ("postImageUrl" in body ==> env.isUrl(body["postImageUrl"]))
    ensures "postTitle" !in body ==> Violation("postTitle", PostTitleLengthMessage, Some("")) in vs
    ensures "postDescription" !in body ==> Violation("postDescription", PostDescriptionMessage, Some("")) in vs
  {
    var t := Trim(Seen(Get(body, "postTitle")));
    var d := Trim(Seen(Get(body, "postDescription")));
    var vt := Rule(LengthBetween(t, 3, 200), "postTitle", PostTitleLengthMessage, Some(t));
    var vd := Rule(LengthBetween(d, 10, 2000), "postDescription", PostDescriptionMessage, Some(d));
    var vi := PostImageChain(env, body);
    assert vt + vd + vi == [] <==> vt == [] && vd == [] && vi == [] by {
      assert |vt + vd + vi| == |vt| + |vd| + |vi|;
    }
    assert "postTitle" !in body ==> vt == [Violation("postTitle", PostTitleLengthMessage, Some(""))] by {
      if "postTitle" !in body { assert t == ""; }
    }
    assert "postDescription" !in body ==> vd == [Violation("postDescription", PostDescriptionMessage, Some(""))] by {
      if "postDescription" !in body { assert d == ""; }
    }
    ConcatHasParts(vt, vd, vi);
    vt + vd + vi
  }

  /** Every violation of each part is in the concatenation. */
  lemma ConcatHasParts(a: seq<Violation>, b: seq<Violation>, c: seq<Violation>)
    ensures forall v :: v in a ==> v in a + b + c
    ensures forall v :: v in b ==> v in a + b + c
  {
  }

  /** `validatePostUpdate`: each field optional; a title, once trimmed, is
      3..200 long and made of letters, digits, whitespace and `-_.,!?()`;
      a description 10..2000 long; an image URL a URL. */
  function PostUpdateRules(env: Env, body: Fields): (c: Checked)
    ensures c.violations == [] <==>
      && ("postTitle" in body ==> LengthBetween(Trim(body["postTitle"]), 3, 200) && TitleCharacters(Trim(body["postTitle"])))
      && ("postDescription" in body ==> LengthBetween(Trim(body["postDescription"]), 10, 2000))
      && ("postImageUrl" in body ==> env.isUrl(body["postImageUrl"]))
    ensures Get(c.fields, "postTitle") == TrimOpt(Get(body, "postTitle"))
    ensures Get(c.fields, "postDescription") == TrimOpt(Get(body, "postDescription"))
    ensures forall k :: k != "postTitle" && k != "postDescription" ==> Get(c.fields, k) == Get(body, k)
  {
    var v1 := PostTitleUpdateChain(body);
    var v2 := PostDescriptionUpdateChain(body);
    var v3 := PostImageChain(env, body);
    NoViolationsIn(v1, v2, v3);
    Checked(v1 + v2 + v3, TrimFields(body, "postTitle", "postDescription"))
  }

  /** The optional title chain of `validatePostUpdate`: length, then the
      allowed characters, both on the trimmed title. */
  function PostTitleUpdateChain(body: Fields): (vs: seq<Violation>)
    ensures vs == [] <==>
      ("postTitle" in body ==> LengthBetween(Trim(body["postTitle"]), 3, 200) && TitleCharacters(Trim(body["postTitle"])))
  {
    var t := TrimOpt(Get(body, "postTitle"));
    if t.None? then []
    else
      var a := Rule(LengthBetween(t.value, 3, 200), "postTitle", PostTitleLengthMessage, t);
      var b := Rule(TitleCharacters(t.value), "postTitle", PostTitleCharsMessage, t);
      assert |a + b| == |a| + |b|;
      a + b
  }

  /** The optional description chain of `validatePostUpdate`. */
  function PostDescriptionUpdateChain(body: Fields): (vs: seq<Violation>)
    ensures vs == [] <==> ("postDescription" in body ==> LengthBetween(Trim(body["postDescription"]), 10, 2000))
  {
    var d := TrimOpt(Get(body, "postDescription"));
    if d.None? then [] else Rule(LengthBetween(d.value, 10, 2000), "postDescription", PostDescriptionMessage, d)
  }

  /** A creation body without `postTitle` or `postDescription` is
      reported with a length violation whose value is ''. */
  lemma MissingPostFieldsReportEmpty(env: Env, body: Fields)
    ensures "postTitle" !in body ==>
              Violation("postTitle", PostTitleLengthMessage, Some("")) in PostCreationRules(env, body).violations
    ensures "postDescription" !in body ==>
              Violation("postDescription", PostDescriptionMessage, Some("")) in PostCreationRules(env, body).violations
  {
    assert PostCreationRules(env, body).violations == PostCreationViolations(env, body);
  }

  /** The post validators look only at `postTitle`/`postDescription`: a
      body that carries only the `title` and `description` the handlers
      read is rejected by the creation rules, however good its values. */
  lemma PostCreationIgnoresHandlerFields(env: Env, title: string, description: string)
    ensures PostCreationRules(env, map["title" := title, "description" := description]).violations != []
  {
    var body := map["title" := title, "description" := description];
    assert Get(body, "postTitle") == None;
  }

  /** `validateObjectId(name)`: the path parameter is a MongoDB id. */
  function ObjectIdRules(env: Env, name: string, value: string): (vs: seq<Violation>)
    ensures vs == [] <==> env.isMongoId(value)
    ensures vs != [] ==> vs == [Violation(name, "Invalid " + name + " format", Some(value))]
  {
    Rule(env.isMongoId(value), name, "Invalid " + name + " format", Some(value))
  }

  /** `validatePagination`: optional `page` an integer 1..1000, optional
      `limit` an integer 1..100, optional `sort` one of the six keys. */
  function PaginationRules(query: Fields): (vs: seq<Violation>)
    ensures vs == [] <==>
      && ("page" in query ==> IsIntBetween(query["page"], 1, 1000))
      && ("limit" in query ==> IsIntBetween(query["limit"], 1, 100))
      && ("sort" in query ==> query["sort"] in SortKeys)
  {
    var page := Get(query, "page");
    var limit := Get(query, "limit");
    var sort := Get(query, "sort");
    (if page.None? then [] else Rule(IsIntBetween(page.value, 1, 1000), "page", PageMessage, page))
    + (if limit.None? then [] else Rule(IsIntBetween(limit.value, 1, 100), "limit", LimitMessage, limit))
    + (if sort.None? then [] else Rule(sort.value in SortKeys, "sort", SortMessage, sort))
  }

  /** Values just outside the pagination bounds: page 0 and limit 101 are
      each rejected on their own field, and so is an unknown sort key. */
  lemma PaginationBoundaries()
    ensures PaginationRules(map["page" := "0"]) == [Violation("page", PageMessage, Some("0"))]
    ensures PaginationRules(map["limit" := "101"]) == [Violation("limit", LimitMessage, Some("101"))]
    ensures PaginationRules(map["sort" := "name"]) == [Violation("sort", SortMessage, Some("name"))]
  {
    LimitJustAboveMaximum();
  }

  /** A limit of 101 parses, and is one past the largest allowed. */
  lemma LimitJustAboveMaximum()
    ensures PaginationRules(map["limit" := "101"]) == [Violation("limit", LimitMessage, Some("101"))]
  {
    assert ParseInt("101") == Some(101) by {
      assert "101"[..2] == "10" && "10"[..1] == "1";
      assert DigitsValue("1") == 1;
      assert DigitsValue("10") == 10;
    }
  }

  /** The largest page and limit pass, together with a listed sort key. */
  lemma PaginationMaxima()
    ensures PaginationRules(map["page" := "1000", "limit" := "100", "sort" := "-title"]) == []
  {
    assert "1000"[..3] == "100" && "100"[..2] == "10" && "10"[..1] == "1";
    assert DigitsValue("1000") == 1000 by {
      assert DigitsValue("1") == 1;
      assert DigitsValue("10") == 10;
      assert DigitsValue("100") == 100;
    }
  }

  /** Every decimal page number in range passes, whatever `limit` and
      `sort` say nothing about. */
  lemma PageInRangeAccepted(n: nat)
    requires 1 <= n <= 1000
    ensures PaginationRules(map["page" := Decimal(n)]) == []
  {
    ParseDecimal(n);
  }

  // --------------------------------------------------------- file upload

  datatype UploadedFile = UploadedFile(mimetype: string, size: nat)

  /** `req.file` (single upload) and `req.files` (uploads by field name). */
  datatype Uploads = Uploads(file: Option<UploadedFile>, files: Option<map<string, UploadedFile>>)

  const DefaultAllowedTypes: seq<string> := ["image/jpeg", "image/png", "image/gif"]
  const MiB: nat := 1024 * 1024
  const DefaultMaxSize: nat := 5 * MiB

  function Join(parts: seq<string>, sep: string): string {
    if parts == [] then "" else if |parts| == 1 then parts[0] else parts[0] + sep + Join(parts[1..], sep)
  }

  function BadTypeMessage(allowed: seq<string>): string {
    "Invalid file type. Allowed types: " + Join(allowed, ", ")
  }

  /** The file the check looks at: `req.file || req.files[fieldName]`. */
  function PickFile(u: Uploads, fieldName: string): Option<UploadedFile> {
    if u.file.Some? then u.file
    else if u.files.Some? && fieldName in u.files.value then Some(u.files.value[fieldName])
    else None
  }

  /** `validateFileUpload(fieldName, allowedTypes, maxSize)`: with no file
      the request passes; a type outside the list is refused before the
      size is looked at; a size strictly above `maxSize` is refused. */
  function ValidateFileUpload(u: Uploads, fieldName: string, allowed: seq<string>, maxSize: nat): (r: Step<()>)
    ensures PickFile(u, fieldName).None? ==> r.Next?
    ensures r.Halt? ==> r.response.status == 400
    ensures r.Next? <==>
              || PickFile(u, fieldName).None?
              || (PickFile(u, fieldName).value.mimetype in allowed && PickFile(u, fieldName).value.size <= maxSize)
    ensures PickFile(u, fieldName).Some? && PickFile(u, fieldName).value.mimetype !in allowed ==>
              r == Halt(Fail(400, BadTypeMessage(allowed)))
  {
    if u.file.None? && u.files.None? then Next(())
    else
      var f := PickFile(u, fieldName);
      if f.None? then Next(())
      else if f.value.mimetype !in allowed then Halt(Fail(400, BadTypeMessage(allowed)))
      else if f.value.size > maxSize then Halt(Response(400, FileTooLarge(maxSize)))
      else Next(())
  }

  /** With the defaults: JPEG, PNG and GIF up to exactly 5 MiB pass; one
      byte more, or any other type, is refused. */
  lemma DefaultUploadLimits(mimetype: string)
    ensures ValidateFileUpload(Uploads(Some(UploadedFile("image/png", DefaultMaxSize)), None),
                               "image", DefaultAllowedTypes, DefaultMaxSize).Next?
    ensures ValidateFileUpload(Uploads(Some(UploadedFile("image/gif", DefaultMaxSize + 1)), None),
                               "image", DefaultAllowedTypes, DefaultMaxSize) == Halt(Response(400, FileTooLarge(5242880)))
    ensures mimetype !in DefaultAllowedTypes ==>
              ValidateFileUpload(Uploads(Some(UploadedFile(mimetype, 0)), None), "image", DefaultAllowedTypes, DefaultMaxSize)
                == Halt(Fail(400, "Invalid file type. Allowed types: image/jpeg, image/png, image/gif"))
  {
    var ts := DefaultAllowedTypes;
    assert ts[1..][1..] == ["image/gif"];
    assert Join(ts[1..][1..], ", ") == "image/gif";
    assert Join(ts[1..], ", ") == "image/png" + ", " + "image/gif";
    assert Join(ts, ", ") == "image/jpeg" + ", " + ("image/png" + ", " + "image/gif");
    assert BadTypeMessage(ts) == "Invalid file type. Allowed types: image/jpeg, image/png, image/gif";
  }
}
