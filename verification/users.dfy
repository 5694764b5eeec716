/**
 * The user collection as the controllers see it. models/User.js is not part
 * of this model: its fields are the ones the controllers read and write, its
 * defaults (role `user`, `isVerified` false, no OTP, no picture) are taken as
 * given, and its password hashing and OTP methods are parameters of the
 * operations that use them.
 */
module Users {
  import opened Wrappers
  import opened Uploads

  /** A document id. Ids are issued in increasing order and never reused, like ObjectIds. */
  type Id = nat

  /** `role`: 'user' or 'admin'. */
  datatype Role = Member | Admin

  /** The storage form `generateOTP` leaves on the record (a code digest and an expiry); opaque here. */
  datatype Otp = Otp(digest: string, expiresAt: int)

  datatype User = User(
    name: string,
    email: string,
    phone: Option<string>,
    password: string,     // whatever the controller assigned; hashing happens inside models/User.js
    role: Role,
    isVerified: bool,
    otp: Option<Otp>,     // present while a verification or reset is pending
    profilePic: Option<Image>)

  datatype UserStore = UserStore(byId: map<Id, User>, nextId: Id)

  /** Every stored id was issued before `nextId`. */
  ghost predicate IdsIssued(s: UserStore) {
    forall id :: id in s.byId ==> id < s.nextId
  }

  /**
   * The unique index on `email`. models/User.js is not part of this model:
   * the index is assumed, and a duplicate email on update is refused by it.
   */
  ghost predicate EmailsUnique(m: map<Id, User>) {
    forall a, b :: a in m && b in m && m[a].email == m[b].email ==> a == b
  }

  /** What the database guarantees of the collection between requests. */
  ghost predicate Valid(s: UserStore) {
    IdsIssued(s) && EmailsUnique(s.byId)
  }

  ghost predicate EmailTaken(m: map<Id, User>, email: string) {
    exists id :: id in m && m[id].email == email
  }

  /** The first id in `[from, to)` whose record carries `email`. */
  function FindFrom(m: map<Id, User>, email: string, from: nat, to: nat): (r: Option<Id>)
    decreases to - from
    ensures r.Some? ==> from <= r.value < to && r.value in m && m[r.value].email == email
    ensures r.Some? ==> forall id :: from <= id < r.value && id in m ==> m[id].email != email
    ensures r.None? ==> forall id :: from <= id < to && id in m ==> m[id].email != email
  {
    if from >= to then None
    else if from in m && m[from].email == email then Some(from)
    else FindFrom(m, email, from + 1, to)
  }

  /**
   * `User.findOne({ email })`: the earliest-created user with that email.
   * In a valid store it finds a user exactly when the email is taken.
   */
  function FindByEmail(s: UserStore, email: string): (r: Option<Id>)
    ensures r.Some? ==> r.value in s.byId && s.byId[r.value].email == email
    ensures IdsIssued(s) ==> (r.None? <==> !EmailTaken(s.byId, email))
  {
    FindFrom(s.byId, email, 0, s.nextId)
  }

  /** The two maps agree on every id except possibly `id`, and have the same ids. */
  ghost predicate OnlyRecordChanged(before: map<Id, User>, after: map<Id, User>, id: Id) {
    && before.Keys == after.Keys
    && forall k :: k in before && k != id ==> after[k] == before[k]
  }

  /** Nobody who was verified stops being verified or disappears. */
  ghost predicate KeepsVerified(before: map<Id, User>, after: map<Id, User>) {
    forall id :: id in before && before[id].isVerified ==> id in after && after[id].isVerified
  }

  /** Nobody becomes verified: every verified record after was already verified before. */
  ghost predicate VerifiesNobody(before: map<Id, User>, after: map<Id, User>) {
    forall id :: id in after && after[id].isVerified ==> id in before && before[id].isVerified
  }
}
