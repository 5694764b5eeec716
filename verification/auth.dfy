/**
 * The authentication workflow of controllers/authController.js: registration
 * with an e-mailed one-time passcode, OTP verification, login, and password
 * recovery. Each handler is a step from one user store to the next together
 * with the response it sends.
 *
 * Per user the handlers move along Unregistered -> PendingVerification ->
 * Verified: only `VerifyOtp` sets `isVerified`, and nothing ever clears it.
 */
module AuthController {
  import opened Wrappers
  import opened Http
  import opened Users

  /** The body of a successful reply. */
  datatype AuthBody =
    | Registered(userId: Id)     // 201 "OTP sent to your email. Please verify to complete registration."
    | SessionIssued(userId: Id)  // sendTokenResponse: a signed token for this user (models/User.js, utils/ not modelled)
    | OtpSent(userId: Id)        // 200 "OTP sent to email"
    | PasswordReset              // 200 "Password reset successful"

  datatype Step = Step(after: UserStore, response: Response<AuthBody>)

  /** `user.verifyOTP(code)`: digest comparison and expiry live in models/User.js. */
  type OtpCheck = (User, string) -> bool

  /** `user.matchPassword(candidate)`: the hash comparison lives in models/User.js. */
  type PasswordCheck = (User, string) -> bool

  const ErrUserExists := Reject(400, "User already exists with this email")
  const ErrRegistrationMail := Reject(500, "Email could not be sent. Registration failed.")
  const ErrInvalidUserId := Reject(400, "Invalid user ID")
  const ErrAlreadyVerified := Reject(400, "User is already verified")
  const ErrBadOtp := Reject(400, "Invalid or expired OTP")
  const ErrMissingCredentials := Reject(400, "Please provide an email and password")
  const ErrInvalidCredentials := Reject(401, "Invalid credentials")
  const ErrNotVerified := Reject(401, "Please verify your email first")
  const ErrNoSuchEmail := Reject(404, "There is no user with that email")
  const ErrResetMail := Reject(500, "Email could not be sent")

  datatype Registration = Registration(name: string, email: string, phone: Option<string>, password: string)

  /** The record `User.create` makes: a member, unverified, with no OTP and no picture. */
  function NewUser(req: Registration): User {
    User(req.name, req.email, req.phone, req.password, Member, false, None, None)
  }

  /**
   * register. `otp` is the storage form `generateOTP` attaches. The `sendEmail`
   * call of the try block is commented out in the source, so the rollback
   * branch (clear the OTP, delete the user, fail with 500) is reached only
   * when writing the 201 reply throws; `responseSent` is false exactly then.
   */
  function Register(s: UserStore, req: Registration, otp: Otp, responseSent: bool): (r: Step)
    requires Valid(s)
    ensures Valid(r.after)
    ensures KeepsVerified(s.byId, r.after.byId) && VerifiesNobody(s.byId, r.after.byId)
    ensures EmailTaken(s.byId, req.email) ==> r == Step(s, Fail(ErrUserExists))
    ensures r.response.Reply? <==> !EmailTaken(s.byId, req.email) && responseSent
    ensures r.response.Reply? ==> r.response.status == 201 && r.response.body.Registered?
    ensures r.response.Reply? && r.response.body.Registered? ==>
      var id := r.response.body.userId;
      && id !in s.byId
      && r.after.byId.Keys == s.byId.Keys + {id}
      && (forall k :: k in s.byId ==> r.after.byId[k] == s.byId[k])
      && var u := r.after.byId[id];
         && u.name == req.name && u.email == req.email && u.phone == req.phone && u.password == req.password
         && u.role == Member && !u.isVerified && u.otp == Some(otp) && u.profilePic.None?
    ensures !EmailTaken(s.byId, req.email) && !responseSent ==>
      r.response == Fail(ErrRegistrationMail) && r.after.byId == s.byId
  {
    match FindByEmail(s, req.email)
    case Some(_) => Step(s, Fail(ErrUserExists))
    case None =>
      var id := s.nextId;
      var created := s.byId[id := NewUser(req).(otp := Some(otp))];
      if responseSent then
        Step(UserStore(created, id + 1), Reply(201, Registered(id)))
      else
        // user.otp = undefined; user.save(); User.findByIdAndDelete(user._id)
        var cleared := created[id := created[id].(otp := None)];
        assert cleared - {id} == s.byId;
        Step(UserStore(cleared - {id}, id + 1), Fail(ErrRegistrationMail))
  }

  /**
   * verifyOTP: an unknown id, an already verified user and a rejected code
   * each fail with 400 and change nothing; otherwise the user becomes
   * verified, the pending OTP is dropped and a session is issued.
   */
  function VerifyOtp(s: UserStore, userId: Id, code: string, accepts: OtpCheck): (r: Step)
    ensures Valid(s) ==> Valid(r.after)
    ensures KeepsVerified(s.byId, r.after.byId)
    ensures r.response.Fail? ==> r.after == s
    ensures userId !in s.byId ==> r.response == Fail(ErrInvalidUserId)
    ensures userId in s.byId && s.byId[userId].isVerified ==> r.response == Fail(ErrAlreadyVerified)
    ensures userId in s.byId && !s.byId[userId].isVerified && !accepts(s.byId[userId], code) ==>
      r.response == Fail(ErrBadOtp)
    ensures r.response.Reply? <==>
      userId in s.byId && !s.byId[userId].isVerified && accepts(s.byId[userId], code)
    ensures r.response.Reply? ==>
      && r.response == Reply(200, SessionIssued(userId))
      && r.after.nextId == s.nextId
      && OnlyRecordChanged(s.byId, r.after.byId, userId)
      && r.after.byId[userId].isVerified && r.after.byId[userId].otp.None?
      && r.after.byId[userId].(isVerified := false, otp := s.byId[userId].otp) == s.byId[userId]
  {
    if userId !in s.byId then Step(s, Fail(ErrInvalidUserId))
    else
      var u := s.byId[userId];
      if u.isVerified then Step(s, Fail(ErrAlreadyVerified))
      else if !accepts(u, code) then Step(s, Fail(ErrBadOtp))
      else
        var u' := u.(isVerified := true, otp := None);
        Step(s.(byId := s.byId[userId := u']), Reply(200, SessionIssued(userId)))
  }

  /** `!value` for a request field: absent or the empty string. */
  predicate Missing(field: Option<string>)
    ensures !Missing(field) ==> field.Some? && |field.value| > 0
  {
    field.None? || field.value == ""
  }

  /**
   * login. It only reads the store, so it returns a response alone. Missing
   * credentials give 400; an unknown email and a wrong password give the same
   * 401 "Invalid credentials"; an unverified account is refused before its
   * password is looked at.
   */
  function Login(s: UserStore, email: Option<string>, password: Option<string>, matches: PasswordCheck)
    : (r: Response<AuthBody>)
    ensures Missing(email) || Missing(password) ==> r == Fail(ErrMissingCredentials)
    ensures r.Fail? ==> r.error in {ErrMissingCredentials, ErrInvalidCredentials, ErrNotVerified}
    ensures r.Reply? ==>
      && r.status == 200 && r.body.SessionIssued?
      && var id := r.body.userId;
         id in s.byId && s.byId[id].email == email.value && s.byId[id].isVerified
         && matches(s.byId[id], password.value)
    ensures IdsIssued(s) && !Missing(email) && !Missing(password) && !EmailTaken(s.byId, email.value) ==>
      r == Fail(ErrInvalidCredentials)
    ensures !Missing(email) && !Missing(password) && FindByEmail(s, email.value).Some? ==>
      var id := FindByEmail(s, email.value).value;
      && (!s.byId[id].isVerified ==> r == Fail(ErrNotVerified))
      && (s.byId[id].isVerified && !matches(s.byId[id], password.value) ==> r == Fail(ErrInvalidCredentials))
      && (s.byId[id].isVerified && matches(s.byId[id], password.value) ==> r == Reply(200, SessionIssued(id)))
  {
    if Missing(email) || Missing(password) then Fail(ErrMissingCredentials)
    else match FindByEmail(s, email.value)
      case None => Fail(ErrInvalidCredentials)
      case Some(id) =>
        var u := s.byId[id];
        if !u.isVerified then Fail(ErrNotVerified)
        else if !matches(u, password.value) then Fail(ErrInvalidCredentials)
        else Reply(200, SessionIssued(id))
  }

  /**
   * forgotPassword. An unknown email fails with 404. Otherwise the new OTP
   * replaces whatever was pending; if the mail cannot be sent the OTP is
   * cleared again and the call fails with 500, but the account stays.
   * `delivered` is the outcome of `sendEmail`.
   */
  function ForgotPassword(s: UserStore, email: string, otp: Otp, delivered: bool): (r: Step)
    ensures Valid(s) ==> Valid(r.after)
    ensures KeepsVerified(s.byId, r.after.byId) && VerifiesNobody(s.byId, r.after.byId)
    ensures r.after.nextId == s.nextId
    ensures FindByEmail(s, email).None? ==> r == Step(s, Fail(ErrNoSuchEmail))
    ensures IdsIssued(s) ==> (r.response == Fail(ErrNoSuchEmail) <==> !EmailTaken(s.byId, email))
    ensures FindByEmail(s, email).Some? ==>
      var id := FindByEmail(s, email).value;
      && OnlyRecordChanged(s.byId, r.after.byId, id)
      && r.after.byId[id].(otp := s.byId[id].otp) == s.byId[id]
      && (delivered ==> r.after.byId[id].otp == Some(otp) && r.response == Reply(200, OtpSent(id)))
      && (!delivered ==> r.after.byId[id].otp.None? && r.response == Fail(ErrResetMail))
  {
    match FindByEmail(s, email)
    case None => Step(s, Fail(ErrNoSuchEmail))
    case Some(id) =>
      var u := s.byId[id];
      var pending := u.(otp := Some(otp));
      if delivered then Step(s.(byId := s.byId[id := pending]), Reply(200, OtpSent(id)))
      else Step(s.(byId := s.byId[id := pending.(otp := None)]), Fail(ErrResetMail))
  }

  /**
   * resetPassword. An unknown id or a rejected code fails with 400 and
   * changes nothing. On success the password is replaced and the OTP cleared;
   * verification status is untouched and no session is issued.
   */
  function ResetPassword(s: UserStore, userId: Id, code: string, newPassword: string, accepts: OtpCheck)
    : (r: Step)
    ensures Valid(s) ==> Valid(r.after)
    ensures KeepsVerified(s.byId, r.after.byId) && VerifiesNobody(s.byId, r.after.byId)
    ensures r.response.Fail? ==> r.after == s
    ensures userId !in s.byId ==> r.response == Fail(ErrInvalidUserId)
    ensures userId in s.byId && !accepts(s.byId[userId], code) ==> r.response == Fail(ErrBadOtp)
    ensures r.response.Reply? <==> userId in s.byId && accepts(s.byId[userId], code)
    ensures r.response.Reply? ==>
      && r.response == Reply(200, PasswordReset)
      && r.after.nextId == s.nextId
      && OnlyRecordChanged(s.byId, r.after.byId, userId)
      && r.after.byId[userId].password == newPassword
      && r.after.byId[userId].otp.None?
      && r.after.byId[userId].(password := s.byId[userId].password, otp := s.byId[userId].otp) == s.byId[userId]
  {
    if userId !in s.byId then Step(s, Fail(ErrInvalidUserId))
    else
      var u := s.byId[userId];
      if !accepts(u, code) then Step(s, Fail(ErrBadOtp))
      else Step(s.(byId := s.byId[userId := u.(password := newPassword, otp := None)]), Reply(200, PasswordReset))
  }

  /**
   * getMe: reads the signed-in user's record and always replies 200; an id
   * whose record is gone yields `null` rather than an error.
   */
  function GetMe(s: UserStore, userId: Id): (r: Response<Option<User>>)
    ensures r.Reply? && r.status == 200
    ensures r.body.Some? <==> userId in s.byId
    ensures r.body.Some? ==> r.body.value == s.byId[userId]
  {
    Reply(200, if userId in s.byId then Some(s.byId[userId]) else None)
  }
}
