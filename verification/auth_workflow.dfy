/** Properties of sequences of authentication requests. */
module AuthWorkflow {
  import opened Wrappers
  import opened Http
  import opened Users
  import opened AuthController

  /** A registration OTP works once: the second verification of the same user is refused as already verified. */
  lemma VerifySucceedsOnce(s: UserStore, userId: Id, code: string, accepts: OtpCheck,
                           code2: string, accepts2: OtpCheck)
    requires VerifyOtp(s, userId, code, accepts).response.Reply?
    ensures var t := VerifyOtp(s, userId, code, accepts).after;
      VerifyOtp(t, userId, code2, accepts2) == Step(t, Fail(ErrAlreadyVerified))
  {
  }

  /**
   * A registration rolled back after its reply failed leaves the email free:
   * registering the same email again succeeds.
   */
  lemma RollbackFreesEmail(s: UserStore, req: Registration, otp: Otp, otp2: Otp)
    requires Valid(s) && !EmailTaken(s.byId, req.email)
    ensures var t := Register(s, req, otp, false);
      && t.response == Fail(ErrRegistrationMail)
      && Register(t.after, req, otp2, true).response.Reply?
  {
  }

  /** A registered user reads back as unverified, with the email and password of the request. */
  lemma RegisteredReadsBack(s: UserStore, req: Registration, otp: Otp)
    requires Valid(s) && !EmailTaken(s.byId, req.email)
    ensures var t := Register(s, req, otp, true);
      var me := GetMe(t.after, t.response.body.userId);
      && me.body.Some?
      && me.body.value.email == req.email && me.body.value.password == req.password
      && !me.body.value.isVerified
  {
  }

  /**
   * Onboarding: register, verify with a code the OTP check accepts, then log
   * in with the registered password; the login issues a session for the new
   * user. Before verification the same login is refused.
   */
  lemma Onboarding(s: UserStore, req: Registration, otp: Otp, code: string,
                   accepts: OtpCheck, matches: PasswordCheck)
    requires Valid(s) && !EmailTaken(s.byId, req.email)
    requires req.email != "" && req.password != ""
    requires var t := Register(s, req, otp, true);
      accepts(t.after.byId[t.response.body.userId], code)
    requires forall u: User :: u.password == req.password ==> matches(u, req.password)
    ensures var t := Register(s, req, otp, true);
      var id := t.response.body.userId;
      && Login(t.after, Some(req.email), Some(req.password), matches) == Fail(ErrNotVerified)
      && var v := VerifyOtp(t.after, id, code, accepts);
         && v.response == Reply(200, SessionIssued(id))
         && Login(v.after, Some(req.email), Some(req.password), matches) == Reply(200, SessionIssued(id))
  {
    var t := Register(s, req, otp, true);
    var id := t.response.body.userId;
    assert FindByEmail(t.after, req.email) == Some(id);
    var v := VerifyOtp(t.after, id, code, accepts);
    assert FindByEmail(v.after, req.email) == Some(id);
  }

  /**
   * Enumeration resistance: a login naming an unknown email and a login with
   * a wrong password for a verified account get the identical response.
   */
  lemma UnknownEmailLooksLikeWrongPassword(s: UserStore, matches: PasswordCheck,
                                           unknown: string, p1: string, id: Id, p2: string)
    requires Valid(s)
    requires unknown != "" && p1 != "" && p2 != ""
    requires !EmailTaken(s.byId, unknown)
    requires id in s.byId && s.byId[id].email != "" && s.byId[id].isVerified && !matches(s.byId[id], p2)
    ensures Login(s, Some(unknown), Some(p1), matches) == Login(s, Some(s.byId[id].email), Some(p2), matches)
    ensures Login(s, Some(unknown), Some(p1), matches) == Fail(ErrInvalidCredentials)
  {
    assert FindByEmail(s, s.byId[id].email) == Some(id);
  }

  /**
   * Order of checks in login: an unverified account is refused with "Please
   * verify your email first" whatever password is offered, so the answer does
   * not depend on the password and differs from the unknown-email answer.
   */
  lemma UnverifiedRefusedBeforePasswordCheck(s: UserStore, matches: PasswordCheck, id: Id, p: string)
    requires Valid(s)
    requires id in s.byId && s.byId[id].email != "" && !s.byId[id].isVerified && p != ""
    ensures Login(s, Some(s.byId[id].email), Some(p), matches) == Fail(ErrNotVerified)
    ensures ErrNotVerified != ErrInvalidCredentials
  {
    assert FindByEmail(s, s.byId[id].email) == Some(id);
  }

  /**
   * Password recovery: a delivered forgot-password OTP that the check accepts
   * lets resetPassword replace the password; the account ends with the new
   * password, no pending OTP, and its verification status and all other
   * fields as before.
   */
  lemma ForgotThenReset(s: UserStore, email: string, otp: Otp, code: string, newPassword: string,
                        accepts: OtpCheck)
    requires FindByEmail(s, email).Some?
    requires var f := ForgotPassword(s, email, otp, true);
      accepts(f.after.byId[FindByEmail(s, email).value], code)
    ensures var id := FindByEmail(s, email).value;
      var f := ForgotPassword(s, email, otp, true);
      var r := ResetPassword(f.after, id, code, newPassword, accepts);
      && r.response == Reply(200, PasswordReset)
      && r.after.byId == s.byId[id := s.byId[id].(password := newPassword, otp := None)]
  {
    var id := FindByEmail(s, email).value;
    var f := ForgotPassword(s, email, otp, true);
    var r := ResetPassword(f.after, id, code, newPassword, accepts);
    assert r.after.byId[id] == s.byId[id].(password := newPassword, otp := None);
  }

  /**
   * A failed forgot-password mail leaves nothing pending, and a retry that is
   * delivered leaves exactly the new OTP: codes never accumulate.
   */
  lemma ForgotRetryReplacesOtp(s: UserStore, email: string, otp1: Otp, otp2: Otp)
    requires FindByEmail(s, email).Some?
    ensures var id := FindByEmail(s, email).value;
      var f1 := ForgotPassword(s, email, otp1, false);
      var f2 := ForgotPassword(f1.after, email, otp2, true);
      && f1.after.byId[id].otp.None?
      && f2.response == Reply(200, OtpSent(id))
      && f2.after.byId == s.byId[id := s.byId[id].(otp := Some(otp2))]
  {
    var id := FindByEmail(s, email).value;
    var f1 := ForgotPassword(s, email, otp1, false);
    FindFromFrame(s.byId, f1.after.byId, email, 0, s.nextId);
    var f2 := ForgotPassword(f1.after, email, otp2, true);
    assert f2.after.byId[id] == s.byId[id].(otp := Some(otp2));
  }

  /** A lookup by email does not see changes that keep every email where it was. */
  lemma {:induction false} FindFromFrame(m: map<Id, User>, m': map<Id, User>, email: string, from: nat, to: nat)
    requires m.Keys == m'.Keys
    requires forall k :: k in m ==> m'[k].email == m[k].email
    ensures FindFrom(m', email, from, to) == FindFrom(m, email, from, to)
    decreases if from <= to then to - from else 0
  {
    if from < to {
      FindFromFrame(m, m', email, from + 1, to);
    }
  }
}
