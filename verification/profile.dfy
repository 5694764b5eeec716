/**
 * controllers/userController.js: the signed-in user edits their own profile
 * and picture. Both handlers sit behind the `protect` middleware
 * (routes/users.js), which supplies `userId`. Reading the profile is the
 * same handler as getMe and is modelled by `AuthController.GetMe`.
 */
module ProfileController {
  import opened Wrappers
  import opened Http
  import opened Uploads
  import opened Users
  import AuthController

  datatype ProfileStep = ProfileStep(after: UserStore, response: Response<Option<User>>)

  /** The whitelisted fields of `req.body`; `None` is a field the body leaves undefined. */
  datatype ProfilePatch = ProfilePatch(name: Option<string>, email: Option<string>, phone: Option<string>)

  const ErrNoFile := Reject(400, "Please upload a file")

  /** The fields `updateProfile` may never touch agree between two records. */
  ghost predicate ProtectedFieldsSame(u: User, u': User) {
    && u'.password == u.password
    && u'.role == u.role
    && u'.isVerified == u.isVerified
    && u'.otp == u.otp
    && u'.profilePic == u.profilePic
  }

  /** Each field the patch supplies is set; each it leaves undefined keeps its value. */
  ghost predicate PatchApplied(u: User, patch: ProfilePatch, u': User) {
    && u'.name == patch.name.GetOr(u.name)
    && u'.email == patch.email.GetOr(u.email)
    && u'.phone == (if patch.phone.Some? then patch.phone else u.phone)
  }

  /** Another user than `userId` already holds `email`. */
  ghost predicate EmailHeldByOther(m: map<Id, User>, userId: Id, email: string) {
    exists id :: id in m && id != userId && m[id].email == email
  }

  /** The first id in `[from, to)` other than `self` whose record carries `email`. */
  function OtherHolder(m: map<Id, User>, self: Id, email: string, from: nat, to: nat): (r: Option<Id>)
    decreases if from <= to then to - from else 0
    ensures r.Some? ==> r.value in m && r.value != self && m[r.value].email == email
    ensures r.None? ==> forall id :: from <= id < to && id in m && id != self ==> m[id].email != email
  {
    if from >= to then None
    else if from in m && from != self && m[from].email == email then Some(from)
    else OtherHolder(m, self, email, from + 1, to)
  }

  /**
   * updateProfile: `findByIdAndUpdate` with the body's `name`, `email` and
   * `phone` only. Keys the body leaves undefined are dropped from the update.
   * An email held by another user is refused by the unique index; an unknown
   * id updates nothing and replies with `null`.
   */
  function UpdateProfile(s: UserStore, userId: Id, patch: ProfilePatch): (r: ProfileStep)
    ensures Valid(s) ==> Valid(r.after)
    ensures r.after.nextId == s.nextId
    ensures r.response.Fail? ==> r.after == s
    ensures r.response.Fail? ==> r.response == Fail(Thrown(DuplicateKey))
    ensures userId !in s.byId ==> r == ProfileStep(s, Reply(200, None))
    ensures IdsIssued(s) && userId in s.byId ==>
      (r.response == Fail(Thrown(DuplicateKey)) <==>
         patch.email.Some? && EmailHeldByOther(s.byId, userId, patch.email.value))
    ensures r.response.Reply? && userId in s.byId ==>
      && OnlyRecordChanged(s.byId, r.after.byId, userId)
      && ProtectedFieldsSame(s.byId[userId], r.after.byId[userId])
      && PatchApplied(s.byId[userId], patch, r.after.byId[userId])
      && r.response == Reply(200, Some(r.after.byId[userId]))
  {
    if userId !in s.byId then ProfileStep(s, Reply(200, None))
    else if patch.email.Some? && OtherHolder(s.byId, userId, patch.email.value, 0, s.nextId).Some? then
      ProfileStep(s, Fail(Thrown(DuplicateKey)))
    else
      var u := s.byId[userId];
      var u' := u.(name := patch.name.GetOr(u.name),
                   email := patch.email.GetOr(u.email),
                   phone := if patch.phone.Some? then patch.phone else u.phone);
      ProfileStep(s.(byId := s.byId[userId := u']), Reply(200, Some(u')))
  }

  /** Sending the same profile update twice leaves the store as sending it once. */
  lemma UpdateProfileIdempotent(s: UserStore, userId: Id, patch: ProfilePatch)
    requires Valid(s)
    ensures var once := UpdateProfile(s, userId, patch).after;
      UpdateProfile(once, userId, patch).after == once
  {
  }

  /**
   * A replaced picture's object-store key, which the handler asks the store to
   * destroy: only a picture with a non-empty `public_id` is destroyed.
   */
  function StaleKey(pic: Option<Image>): (key: Option<string>)
    ensures key.Some? <==> pic.Some? && pic.value.publicId != ""
    ensures key.Some? ==> key.value == pic.value.publicId
  {
    if pic.Some? && pic.value.publicId != "" then Some(pic.value.publicId) else None
  }

  datatype PictureStep = PictureStep(after: UserStore, response: Response<Option<User>>, destroyed: Option<string>)

  /**
   * updateProfilePicture as evidently intended: without a file it fails with
   * 400 and changes nothing; with one, `profilePic` becomes the uploaded
   * file's `{public_id, url}`, the old picture's key is destroyed, and no
   * other field changes. A missing user makes `user.profilePic` throw.
   */
  function UpdateProfilePicture(s: UserStore, userId: Id, file: Option<UploadedFile>): (r: PictureStep)
    ensures Valid(s) ==> Valid(r.after)
    ensures r.after.nextId == s.nextId
    ensures r.response.Fail? ==> r.after == s && r.destroyed.None?
    ensures file.None? ==> r.response == Fail(ErrNoFile)
    ensures file.Some? && userId !in s.byId ==> r.response == Fail(Thrown(NullDereference))
    ensures r.response.Reply? <==> file.Some? && userId in s.byId
    ensures r.response.Reply? ==>
      && OnlyRecordChanged(s.byId, r.after.byId, userId)
      && r.after.byId[userId].profilePic == Some(Image(file.value.filename, file.value.path))
      && r.after.byId[userId].(profilePic := s.byId[userId].profilePic) == s.byId[userId]
      && r.destroyed == StaleKey(s.byId[userId].profilePic)
      && r.response == Reply(200, Some(r.after.byId[userId]))
  {
    if file.None? then PictureStep(s, Fail(ErrNoFile), None)
    else if userId !in s.byId then PictureStep(s, Fail(Thrown(NullDereference)), None)
    else
      var u := s.byId[userId];
      var u' := u.(profilePic := Some(ToImage(file.value)));
      PictureStep(s.(byId := s.byId[userId := u']), Reply(200, Some(u')), StaleKey(u.profilePic))
  }

  /**
   * updateProfilePicture as written: `cloudinary` is never required in
   * controllers/userController.js, so when the user already has a picture with
   * a `public_id` the call `cloudinary.uploader.destroy` throws a
   * ReferenceError before the new picture is saved.
   */
  function UpdateProfilePictureAsWritten(s: UserStore, userId: Id, file: Option<UploadedFile>): (r: PictureStep)
    ensures r.response.Fail? ==> r.after == s
    ensures file.Some? && userId in s.byId && StaleKey(s.byId[userId].profilePic).Some? ==>
      r.response == Fail(Thrown(ReferenceError))
    ensures r.destroyed.None?
  {
    if file.None? then PictureStep(s, Fail(ErrNoFile), None)
    else if userId !in s.byId then PictureStep(s, Fail(Thrown(NullDereference)), None)
    else if StaleKey(s.byId[userId].profilePic).Some? then PictureStep(s, Fail(Thrown(ReferenceError)), None)
    else
      var u := s.byId[userId];
      var u' := u.(profilePic := Some(ToImage(file.value)));
      PictureStep(s.(byId := s.byId[userId := u']), Reply(200, Some(u')), None)
  }

  /**
   * The two agree exactly when there is no old picture key to destroy: the
   * first upload works as written, every replacement fails.
   */
  lemma PictureAsWrittenAgreesOnlyOnFirstUpload(s: UserStore, userId: Id, file: UploadedFile)
    requires userId in s.byId
    ensures UpdateProfilePictureAsWritten(s, userId, Some(file)).response
         == UpdateProfilePicture(s, userId, Some(file)).response
        <==> StaleKey(s.byId[userId].profilePic).None?
  {
  }

  /** A concrete replacement: a user with a picture uploads a new one; as written it fails with a ReferenceError. */
  lemma PictureReplacementFailsAsWritten()
    ensures var u := User("Ada", "ada@example.com", None, "pw", Member, true, None,
                          Some(Image("user_1", "https://img/user_1.png")));
      var s := UserStore(map[0 := u], 1);
      var file := UploadedFile("user_2", "https://img/user_2.png");
      && UpdateProfilePictureAsWritten(s, 0, Some(file)).response == Fail(Thrown(ReferenceError))
      && UpdateProfilePictureAsWritten(s, 0, Some(file)).after.byId[0].profilePic == u.profilePic
      && UpdateProfilePicture(s, 0, Some(file)).response.Reply?
      && UpdateProfilePicture(s, 0, Some(file)).after.byId[0].profilePic == Some(Image("user_2", "https://img/user_2.png"))
  {
  }

  /**
   * Reading the profile back after a successful update returns what the
   * update replied. getProfile is the same handler as getMe: both reply 200
   * with `findById(req.user.id)`, so `AuthController.GetMe` models both.
   */
  lemma ProfileReadsBackUpdate(s: UserStore, userId: Id, patch: ProfilePatch)
    requires UpdateProfile(s, userId, patch).response.Reply?
    ensures var r := UpdateProfile(s, userId, patch);
      AuthController.GetMe(r.after, userId) == r.response
  {
  }
}
