/** The `requireLogin` middleware (middleware/authentication.js:5-48): sort a
    request into exactly one of five outcomes from its `auth` cookie, what
    JWT verification says about it, and whether the user it names exists. */
module Authentication {
  import opened Wrappers
  import opened ObjectIds
  import opened UserModel

  /** What `jwt.verify(token, SECRET)` does with a token: returns its
      payload, or throws `TokenExpiredError`, or throws any other error
      (bad signature, malformed token). Signature checking is not modelled;
      its verdict is an input. */
  datatype Verification = Verified(payload: string) | Expired | Invalid

  /** The four machine-readable failure codes. */
  datatype AuthFailure = UnauthenticatedAccess | UserNotFound | TokenExpired | InvalidToken

  /** Either the request proceeds with `req.user` set, or it is answered. */
  datatype AuthOutcome = Authenticated(user: User) | Rejected(failure: AuthFailure)

  /** The HTTP status of a rejection: every one of them is 401. */
  function Status(f: AuthFailure): (code: int)
    ensures code == 401
  {
    match f
    case UnauthenticatedAccess => 401
    case UserNotFound => 401
    case TokenExpired => 401
    case InvalidToken => 401
  }

  /** The first stored user with the id, as `User.findById` returns it. */
  function FindById(users: seq<User>, id: ObjectId): (r: Option<nat>)
    ensures r.Some? ==> r.value < |users| && users[r.value].id == id
    ensures r.Some? ==> forall j :: 0 <= j < r.value ==> users[j].id != id
    ensures r.None? ==> forall j :: 0 <= j < |users| ==> users[j].id != id
  {
    if users == [] then None
    else if users[0].id == id then Some(0)
    else match FindById(users[1..], id)
      case None => None
      case Some(i) => Some(i + 1)
  }

  /** `requireLogin`. `token` is the `auth` cookie, with "" standing for a
      missing or empty cookie (both falsy); `verification` is what
      `jwt.verify` makes of it. A payload that is not an ObjectId makes
      `findById` throw a cast error, which the handler reports like any
      other non-expiry error. */
  function RequireLogin(token: string, verification: Verification, users: seq<User>): (r: AuthOutcome)
    ensures token == "" <==> r == Rejected(UnauthenticatedAccess)
    ensures r == Rejected(TokenExpired) <==> token != "" && verification.Expired?
    ensures r == Rejected(InvalidToken) <==>
      token != "" && (verification.Invalid? || (verification.Verified? && CastObjectId(verification.payload).None?))
    ensures r == Rejected(UserNotFound) <==>
      token != "" && verification.Verified? && CastObjectId(verification.payload).Some?
      && FindById(users, CastObjectId(verification.payload).value).None?
    ensures r.Authenticated? <==>
      token != "" && verification.Verified? && CastObjectId(verification.payload).Some?
      && FindById(users, CastObjectId(verification.payload).value).Some?
    ensures r.Authenticated? ==> r.user in users && Some(r.user.id) == CastObjectId(verification.payload)
  {
    if token == "" then Rejected(UnauthenticatedAccess)
    else match verification
      case Expired => Rejected(TokenExpired)
      case Invalid => Rejected(InvalidToken)
      case Verified(payload) =>
        match CastObjectId(payload)
        case None => Rejected(InvalidToken)
        case Some(id) =>
          match FindById(users, id)
          case None => Rejected(UserNotFound)
          case Some(i) => Authenticated(users[i])
  }

  /** A token that fails verification, a tampered one included, is never
      accepted and never reported as expired. */
  lemma TamperedTokenIsInvalid(token: string, users: seq<User>)
    requires token != ""
    ensures RequireLogin(token, Invalid, users) == Rejected(InvalidToken)
  {
  }

  /** A token issued for a user who was deleted since yields `user-not-found`. */
  lemma DeletedUserNotFound(token: string, id: ObjectId, users: seq<User>)
    requires token != ""
    requires forall u :: u in users ==> u.id != id
    ensures RequireLogin(token, Verified(ToHex(id)), users) == Rejected(UserNotFound)
  {
    CastToHex(id);
  }

  /** A token whose payload is a user's id authenticates that user, as long
      as the token verifies and ids are unique. */
  lemma TokenForUserAuthenticates(token: string, users: seq<User>, i: nat)
    requires token != "" && i < |users|
    requires forall j :: 0 <= j < |users| && j != i ==> users[j].id != users[i].id
    ensures RequireLogin(token, Verified(ToHex(users[i].id)), users) == Authenticated(users[i])
  {
    CastToHex(users[i].id);
  }
}
