/** The decision logic of the request handlers in routes/index.js, over the
    users and quizzes collections as values: registration (80-136), login
    (143-186), profile update (27-74), saving an attempt (290-304), quiz
    update (375-399) and quiz delete (402-438), with what Mongoose's `save`
    does to a user document (validation, the pre-save hook, the unique
    index on `username`). Each handler returns its response and the new
    collection; the Store class in module Routes performs the same steps in
    place. Store failures other than validation and duplicate keys are not
    modelled. */
module Handlers {
  import opened Wrappers
  import opened ObjectIds
  import opened UserModel
  import opened QuizModel
  import opened Authentication
  import opened RoleAuth
  import Leaderboard

  // ---------------------------------------------------------------------
  // The collections and what every stored document satisfies

  ghost predicate UniqueUserIds(users: seq<User>) {
    forall i, j :: 0 <= i < j < |users| ==> users[i].id != users[j].id
  }

  /** The unique index on `username` (model/user.js:6-10). */
  ghost predicate UniqueUsernames(users: seq<User>) {
    forall i, j :: 0 <= i < j < |users| ==> users[i].username != users[j].username
  }

  /** No two users share an email: the schema does not demand it, the
      registration check keeps it. */
  ghost predicate UniqueEmails(users: seq<User>) {
    forall i, j :: 0 <= i < j < |users| ==> users[i].email != users[j].email
  }

  /** A stored user passed validation and its password went through the
      pre-save hook: no plaintext is ever stored. */
  ghost predicate StoredUser(u: User) {
    RequiredFieldsPresent(u) && u.password.Hashed?
  }

  ghost predicate UsersValid(users: seq<User>) {
    UniqueUserIds(users) && UniqueUsernames(users) && forall u :: u in users ==> StoredUser(u)
  }

  ghost predicate QuizzesValid(quizzes: seq<Quiz>) {
    (forall i, j :: 0 <= i < j < |quizzes| ==> quizzes[i].id != quizzes[j].id)
    && forall q :: q in quizzes ==> QuizFieldsPresent(q)
  }

  /** `User.findOne({email})`: the first user with the email. */
  function FindByEmail(users: seq<User>, email: string): (r: Option<nat>)
    ensures r.Some? ==> r.value < |users| && users[r.value].email == email
    ensures r.Some? ==> forall j :: 0 <= j < r.value ==> users[j].email != email
    ensures r.None? ==> forall j :: 0 <= j < |users| ==> users[j].email != email
  {
    if users == [] then None
    else if users[0].email == email then Some(0)
    else match FindByEmail(users[1..], email)
      case None => None
      case Some(i) => Some(i + 1)
  }

  /** `User.findOne({username})`: the first user with the username. */
  function FindByUsername(users: seq<User>, username: string): (r: Option<nat>)
    ensures r.Some? ==> r.value < |users| && users[r.value].username == username
    ensures r.Some? ==> forall j :: 0 <= j < r.value ==> users[j].username != username
    ensures r.None? ==> forall j :: 0 <= j < |users| ==> users[j].username != username
  {
    if users == [] then None
    else if users[0].username == username then Some(0)
    else match FindByUsername(users[1..], username)
      case None => None
      case Some(i) => Some(i + 1)
  }

  /** `Quiz.findById(id)`: the first quiz with the id. */
  function FindQuiz(quizzes: seq<Quiz>, id: ObjectId): (r: Option<nat>)
    ensures r.Some? ==> r.value < |quizzes| && quizzes[r.value].id == id
    ensures r.Some? ==> forall j :: 0 <= j < r.value ==> quizzes[j].id != id
    ensures r.None? ==> forall j :: 0 <= j < |quizzes| ==> quizzes[j].id != id
  {
    if quizzes == [] then None
    else if quizzes[0].id == id then Some(0)
    else match FindQuiz(quizzes[1..], id)
      case None => None
      case Some(i) => Some(i + 1)
  }

  // ---------------------------------------------------------------------
  // Saving a user document

  /** The document as the pre-save hook leaves it: every field but the
      password as it was; an unmodified document unchanged; a modified one
      with a hash of its password, which an assigned plaintext verifies
      against and nothing else does. */
  function SavedValue(v: User, modified: bool, salt: Salt): (w: User)
    ensures w == v.(password := w.password)
    ensures !modified ==> w == v
    ensures modified ==> w.password.Hashed? && w.password.source == v.password
    ensures modified && v.password.Plain? ==> forall c :: Matches(c, w.password) <==> c == v.password.text
  {
    v.(password := PasswordOnSave(v.password, modified, salt))
  }

  /** Another user already has the username: the unique index on
      `username` (model/user.js:9) refuses the write. Only a username some
      user has can be taken; when it is free, the first user with it is the
      record itself. */
  predicate UsernameTakenByOther(users: seq<User>, w: User)
    ensures UsernameTakenByOther(users, w) ==> FindByUsername(users, w.username).Some?
    ensures !UsernameTakenByOther(users, w) && FindByUsername(users, w.username).Some? ==>
      users[FindByUsername(users, w.username).value].id == w.id
  {
    exists j :: 0 <= j < |users| && users[j].username == w.username && users[j].id != w.id
  }

  /** `doc.save()` on the users collection: validate the document as it
      stands (`v`), run the pre-save hook, then insert it (a new document) or
      overwrite the stored one with its id. The write fails on a duplicate
      `_id` or `username` (E11000) and when an existing document has gone
      from the store. */
  function SaveUser(users: seq<User>, v: User, isNew: bool, modified: bool, salt: Salt): (r: Option<seq<User>>)
    ensures r.Some? <==>
      RequiredFieldsPresent(v) && !UsernameTakenByOther(users, SavedValue(v, modified, salt))
      && (isNew <==> forall j :: 0 <= j < |users| ==> users[j].id != v.id)
    ensures r.Some? && isNew ==> r.value == users + [SavedValue(v, modified, salt)]
    ensures r.Some? && !isNew ==>
      exists i :: 0 <= i < |users| && users[i].id == v.id && r.value == users[i := SavedValue(v, modified, salt)]
  {
    if !RequiredFieldsPresent(v) then None
    else
      var w := SavedValue(v, modified, salt);
      if UsernameTakenByOther(users, w) then None
      else match FindById(users, w.id)
        case None => if isNew then Some(users + [w]) else None
        case Some(i) => if isNew then None else Some(users[i := w])
  }

  /** A successful save keeps every stored document valid: ids and
      usernames stay unique and the stored password is a hash. */
  lemma SaveUserKeepsUsersValid(users: seq<User>, v: User, isNew: bool, modified: bool, salt: Salt)
    requires UsersValid(users)
    requires v.password.Plain? ==> modified
    requires SaveUser(users, v, isNew, modified, salt).Some?
    ensures UsersValid(SaveUser(users, v, isNew, modified, salt).value)
  {
    var w := SavedValue(v, modified, salt);
    var after := SaveUser(users, v, isNew, modified, salt).value;
    assert StoredUser(w);
    forall j | 0 <= j < |users| && users[j].id != w.id ensures users[j].username != w.username {
    }
    forall u | u in after ensures StoredUser(u) {
      if u != w {
        assert u in users;
      }
    }
  }
  /** With unique ids, looking a stored user up by id finds that user. */
  lemma FindStoredUser(users: seq<User>, i: nat)
    requires UniqueUserIds(users) && i < |users|
    ensures FindById(users, users[i].id) == Some(i)
  {
  }

  /** Saving a stored user's document again overwrites that user in place,
      and succeeds whenever the document validates and its username is not
      another user's. */
  lemma SaveExisting(users: seq<User>, i: nat, v: User, modified: bool, salt: Salt)
    requires UniqueUserIds(users) && i < |users| && v.id == users[i].id
    ensures var r := SaveUser(users, v, false, modified, salt);
      && (r.Some? ==> r.value == users[i := SavedValue(v, modified, salt)])
      && (RequiredFieldsPresent(v) && !UsernameTakenByOther(users, SavedValue(v, modified, salt)) ==> r.Some?)
  {
    FindStoredUser(users, i);
  }

  /** A stored user keeping its username does not clash with anyone. */
  lemma OwnUsernameFree(users: seq<User>, i: nat, w: User)
    requires UsersValid(users) && i < |users|
    requires w.id == users[i].id && w.username == users[i].username
    ensures !UsernameTakenByOther(users, w)
  {
  }

  // ---------------------------------------------------------------------
  // POST /users/register (routes/index.js:80-136)

  datatype RegisterError = MissingFields | InvalidRole | EmailTaken | UsernameTaken | SaveFailed

  datatype RegisterResponse = Registered | RegisterFailed(error: RegisterError)

  /** Every failure is a 400, success a 200. */
  function RegisterStatus(r: RegisterResponse): (code: int)
    ensures r.Registered? <==> code == 200
    ensures r.RegisterFailed? <==> code == 400
  {
    if r.Registered? then 200 else 400
  }

  /** `role || 'student'`: an empty or missing role means the default. */
  function RequestedRole(role: string): (r: Option<Role>)
    ensures r.Some? <==> role == "" || role == "student" || role == "teacher"
    ensures role == "" ==> r == Some(DefaultRole)
    ensures r.Some? && role != "" ==> RoleName(r.value) == role
  {
    if role == "" then Some(DefaultRole) else ParseRole(role)
  }

  /** The four checks of routes/index.js:85-116, in order; the first that
      fails decides the answer. Body fields are strings, "" standing for a
      missing or empty one (both falsy). */
  function RegisterCheck(users: seq<User>, username: string, email: string, password: string, role: string)
    : (r: Option<RegisterError>)
    ensures r == Some(MissingFields) <==> username == "" || email == "" || password == ""
    ensures r == Some(InvalidRole) <==>
      username != "" && email != "" && password != "" && RequestedRole(role).None?
    ensures r == Some(EmailTaken) <==>
      username != "" && email != "" && password != "" && RequestedRole(role).Some?
      && exists j :: 0 <= j < |users| && users[j].email == email
    ensures r == Some(UsernameTaken) <==>
      username != "" && email != "" && password != "" && RequestedRole(role).Some?
      && (forall j :: 0 <= j < |users| ==> users[j].email != email)
      && exists j :: 0 <= j < |users| && users[j].username == username
    ensures r != Some(SaveFailed)
  {
    if username == "" || email == "" || password == "" then Some(MissingFields)
    else if RequestedRole(role).None? then Some(InvalidRole)
    else if FindByEmail(users, email).Some? then Some(EmailTaken)
    else if FindByUsername(users, username).Some? then Some(UsernameTaken)
    else None
  }

  /** The whole handler: the checks, then `new User({...})` and `save()`.
      `id` is the ObjectId the driver assigns, `salt` the one bcrypt draws,
      `now` the clock. */
  function Register(users: seq<User>, username: string, email: string, password: string, role: string,
                    id: ObjectId, salt: Salt, now: Time): (res: (RegisterResponse, seq<User>))
    ensures res.0.RegisterFailed? ==> res.1 == users
    ensures res.0 == RegisterFailed(SaveFailed) <==>
      RegisterCheck(users, username, email, password, role).None? && exists j :: 0 <= j < |users| && users[j].id == id
    ensures res.0.Registered? ==> |res.1| == |users| + 1 && res.1[..|users|] == users && res.1[|users|].id == id
  {
    match RegisterCheck(users, username, email, password, role)
    case Some(e) => (RegisterFailed(e), users)
    case None =>
      var v := NewUser(id, username, email, password, RequestedRole(role).value, now);
      match SaveUser(users, v, true, true, salt)
      case None => (RegisterFailed(SaveFailed), users)
      case Some(after) => (Registered, after)
  }

  /** Registration with a taken email fails with `EmailTaken` once the
      fields and the role pass, and stores nothing. */
  lemma DuplicateEmailRejected(users: seq<User>, username: string, email: string, password: string, role: string,
                               id: ObjectId, salt: Salt, now: Time, j: nat)
    requires j < |users| && users[j].email == email
    requires username != "" && email != "" && password != "" && RequestedRole(role).Some?
    ensures Register(users, username, email, password, role, id, salt, now) == (RegisterFailed(EmailTaken), users)
  {
  }

  /** Every failure leaves the users unchanged; success appends exactly one
      user: the given fields, the given role or `student`, a hashed password
      the given one verifies against, no avatar, no attempts, registered now. */
  lemma RegisterOutcome(users: seq<User>, username: string, email: string, password: string, role: string,
                        id: ObjectId, salt: Salt, now: Time)
    ensures var (r, after) := Register(users, username, email, password, role, id, salt, now);
      && (r.RegisterFailed? ==> after == users)
      && (r.Registered? ==>
            |after| == |users| + 1 && after[..|users|] == users
            && var u := after[|users|];
            && u.id == id && u.username == username && u.email == email
            && u.role == (if role == "" then Student else ParseRole(role).value)
            && (forall c :: Matches(c, u.password) <==> c == password)
            && u.avatar == None && u.attempts == [] && u.registrationDate == now)
  {
  }

  /** Registration succeeds exactly when the four checks pass and the new
      id is not stored yet, and then it appends the saved new user. */
  lemma RegisterSucceedsIff(users: seq<User>, username: string, email: string, password: string, role: string,
                            id: ObjectId, salt: Salt, now: Time)
    ensures var (r, after) := Register(users, username, email, password, role, id, salt, now);
      && (r == Registered <==>
            RegisterCheck(users, username, email, password, role).None? && forall j :: 0 <= j < |users| ==> users[j].id != id)
      && (r == Registered ==>
            after == users + [SavedValue(NewUser(id, username, email, password, RequestedRole(role).value, now), true, salt)])
  {
    if RegisterCheck(users, username, email, password, role).None? {
      var v := NewUser(id, username, email, password, RequestedRole(role).value, now);
      var w := SavedValue(v, true, salt);
      assert RequiredFieldsPresent(v);
      assert !UsernameTakenByOther(users, w) by {
        assert FindByUsername(users, username).None?;
      }
    }
  }

  /** Registration keeps ids, usernames and emails unique and stores no
      plaintext password. */
  lemma RegisterKeepsUsersValid(users: seq<User>, username: string, email: string, password: string, role: string,
                                id: ObjectId, salt: Salt, now: Time)
    requires UsersValid(users) && UniqueEmails(users)
    ensures var after := Register(users, username, email, password, role, id, salt, now).1;
      UsersValid(after) && UniqueEmails(after)
  {
    var (r, after) := Register(users, username, email, password, role, id, salt, now);
    if r.Registered? {
      var v := NewUser(id, username, email, password, RequestedRole(role).value, now);
      SaveUserKeepsUsersValid(users, v, true, true, salt);
    }
  }

  // ---------------------------------------------------------------------
  // POST /users/login (routes/index.js:143-186)

  /** The answer to a login: the user without the password and the id the
      session token is issued for, one of the two refusals, or the server
      error the handler's catch reports. */
  datatype LoginResponse =
    | LoggedIn(user: PublicUser, session: ObjectId)
    | LoginUserNotFound
    | InvalidPassword
    | LoginServerError

  function LoginStatus(r: LoginResponse): (code: int)
    ensures r.LoggedIn? <==> code == 200
    ensures r.LoginUserNotFound? <==> code == 404
    ensures r.InvalidPassword? <==> code == 401
    ensures r.LoginServerError? <==> code == 500
  {
    match r
    case LoggedIn(_, _) => 200
    case LoginUserNotFound => 404
    case InvalidPassword => 401
    case LoginServerError => 500
  }

  /** The handler: find the user by email, compare the password, and on
      success issue a token for the user's id (`createJwt(user._id)`).
      `password` is `None` when the body has no such field: `bcrypt.compare`
      then rejects for want of data, and the catch answers 500. An empty
      password is compared like any other and fails. */
  function Login(users: seq<User>, email: string, password: Option<string>): (r: LoginResponse)
    ensures r == LoginUserNotFound <==> forall j :: 0 <= j < |users| ==> users[j].email != email
    ensures r == LoginServerError <==> password.None? && exists j :: 0 <= j < |users| && users[j].email == email
    ensures r == InvalidPassword ==>
      password.Some? && exists j :: 0 <= j < |users| && users[j].email == email && !Matches(password.value, users[j].password)
    ensures r.LoggedIn? ==>
      password.Some? && exists j :: (0 <= j < |users| && users[j].email == email && Matches(password.value, users[j].password)
                                      && r.user == Public(users[j]) && r.session == users[j].id)
    ensures r == InvalidPassword <==>
      FindByEmail(users, email).Some? && password.Some?
      && !Matches(password.value, users[FindByEmail(users, email).value].password)
    ensures r.LoggedIn? <==>
      FindByEmail(users, email).Some? && password.Some?
      && Matches(password.value, users[FindByEmail(users, email).value].password)
    ensures r.LoggedIn? ==>
      r.user == Public(users[FindByEmail(users, email).value]) && r.session == users[FindByEmail(users, email).value].id
  {
    match FindByEmail(users, email)
    case None => LoginUserNotFound
    case Some(i) =>
      match password
      case None => LoginServerError
      case Some(p) =>
        if Matches(p, users[i].password) then LoggedIn(Public(users[i]), users[i].id)
        else InvalidPassword
  }

  /** A user just registered can log in with the password they chose. */
  lemma RegisterThenLogin(users: seq<User>, username: string, email: string, password: string, role: string,
                          id: ObjectId, salt: Salt, now: Time)
    requires Register(users, username, email, password, role, id, salt, now).0 == Registered
    ensures var after := Register(users, username, email, password, role, id, salt, now).1;
      Login(after, email, Some(password)) == LoggedIn(Public(after[|users|]), id)
  {
    var after := Register(users, username, email, password, role, id, salt, now).1;
    RegisterOutcome(users, username, email, password, role, id, salt, now);
    FindByEmailAppended(users, after[|users|], email);
  }

  lemma {:induction false} FindByEmailAppended(users: seq<User>, u: User, email: string)
    requires u.email == email && forall j :: 0 <= j < |users| ==> users[j].email != email
    ensures FindByEmail(users + [u], email) == Some(|users|)
  {
    if users != [] {
      assert (users + [u])[1..] == users[1..] + [u];
      FindByEmailAppended(users[1..], u, email);
    }
  }

  /** The token a login issues authenticates the same user on the next
      request, for as long as it verifies and the user exists. */
  lemma LoginThenRequireLogin(users: seq<User>, email: string, password: Option<string>, token: string)
    requires UniqueUserIds(users) && token != ""
    requires Login(users, email, password).LoggedIn?
    ensures var r := Login(users, email, password);
      var outcome := RequireLogin(token, Verified(ToHex(r.session)), users);
      outcome.Authenticated? && Public(outcome.user) == r.user
  {
    var i := FindByEmail(users, email).value;
    TokenForUserAuthenticates(token, users, i);
  }

  // ---------------------------------------------------------------------
  // Route guards: requireLogin, then requireRole('teacher')

  datatype Access = Granted(user: User) | LoginRefused(failure: AuthFailure) | RoleRefused(gate: GateOutcome)

  /** The middleware chain of the quiz create, update and delete routes. */
  function TeacherRoute(token: string, verification: Verification, users: seq<User>): (a: Access)
    ensures a.Granted? ==> a.user in users && a.user.role == Teacher
    ensures a.RoleRefused? ==> a.gate.AccessDenied?
    ensures a.LoginRefused? <==> RequireLogin(token, verification, users).Rejected?
    ensures a.LoginRefused? ==> a.failure == RequireLogin(token, verification, users).failure
    ensures a.Granted? <==>
      RequireLogin(token, verification, users).Authenticated? && RequireLogin(token, verification, users).user.role == Teacher
    ensures a.Granted? ==> a.user == RequireLogin(token, verification, users).user
  {
    match RequireLogin(token, verification, users)
    case Rejected(f) => LoginRefused(f)
    case Authenticated(u) =>
      var g := RequireRole(Teacher, Some(u));
      if g.Proceed? then Granted(u) else RoleRefused(g)
  }

  /** An authenticated student is refused with 403, and the refusal names
      the required role `teacher` and the actual role `student`. */
  lemma StudentRefusedOnTeacherRoute(token: string, verification: Verification, users: seq<User>)
    requires RequireLogin(token, verification, users).Authenticated?
    requires RequireLogin(token, verification, users).user.role == Student
    ensures TeacherRoute(token, verification, users) == RoleRefused(AccessDenied(Teacher, Student))
    ensures GateStatus(AccessDenied(Teacher, Student)) == Some(403)
  {
  }

  // ---------------------------------------------------------------------
  // PUT /users/profile (routes/index.js:27-74)

  datatype ProfileResponse =
    | ProfileUpdated(user: PublicUser)
    | ProfileNotFound
    | WrongCurrentPassword
    | PasswordTooShort
    | ProfileSaveFailed

  function ProfileStatus(r: ProfileResponse): (code: int)
    ensures r.ProfileUpdated? <==> code == 200
    ensures r.ProfileNotFound? <==> code == 404
    ensures r.WrongCurrentPassword? || r.PasswordTooShort? <==> code == 400
    ensures r.ProfileSaveFailed? <==> code == 500
  {
    match r
    case ProfileUpdated(_) => 200
    case ProfileNotFound => 404
    case WrongCurrentPassword => 400
    case PasswordTooShort => 400
    case ProfileSaveFailed => 500
  }

  /** Where an uploaded avatar is served from (routes/index.js:57): under
      `/uploads/avatars/`, ending with the stored filename. */
  function AvatarPath(filename: string): (path: string)
    ensures "/uploads/avatars/" <= path && path[|"/uploads/avatars/"|..] == filename
  {
    "/uploads/avatars/" + filename
  }

  const MinPasswordLength: nat := 8

  /** The record with the request's username and avatar applied
      (routes/index.js:55-58): a non-empty username replaces the old one, an
      uploaded file becomes the avatar, and nothing else changes. */
  function Renamed(u: User, username: string, avatarFile: Option<string>): (w: User)
    ensures w == u.(username := w.username, avatar := w.avatar)
    ensures w.username == (if username != "" then username else u.username)
    ensures w.avatar == (if avatarFile.Some? then Some(AvatarPath(avatarFile.value)) else u.avatar)
  {
    var u1 := if username != "" then u.(username := username) else u;
    if avatarFile.Some? then u1.(avatar := Some(AvatarPath(avatarFile.value))) else u1
  }

  /** The username and avatar part of the update and the final save. */
  function RenameAndSave(users: seq<User>, u: User, username: string, avatarFile: Option<string>, salt: Salt)
    : (res: (ProfileResponse, seq<User>))
    ensures res.0.ProfileUpdated? || res.0.ProfileSaveFailed?
    ensures res.0.ProfileSaveFailed? <==>
      || !RequiredFieldsPresent(Renamed(u, username, avatarFile))
      || UsernameTakenByOther(users, Renamed(u, username, avatarFile))
      || forall j :: 0 <= j < |users| ==> users[j].id != u.id
    ensures res.0.ProfileSaveFailed? ==> res.1 == users
    ensures res.0.ProfileUpdated? ==>
      |res.1| == |users| && res.0.user.id == u.id && res.0.user.email == u.email && res.0.user.role == u.role
      && res.0.user.attempts == u.attempts && (exists j :: 0 <= j < |users| && users[j].id == u.id)
  {
    var w := Renamed(u, username, avatarFile);
    match SaveUser(users, w, false, false, salt)
    case None => (ProfileSaveFailed, users)
    case Some(after) => (ProfileUpdated(Public(w)), after)
  }

  /** The whole handler for the user `userId`. A password change is saved
      on its own first; the username and avatar follow in a second save. */
  function UpdateProfile(users: seq<User>, userId: ObjectId, username: string, currentPassword: string,
                         newPassword: string, avatarFile: Option<string>, salt: Salt): (res: (ProfileResponse, seq<User>))
    ensures |res.1| == |users|
    ensures res.0 == ProfileNotFound <==> forall j :: 0 <= j < |users| ==> users[j].id != userId
    ensures res.0.ProfileNotFound? || res.0.WrongCurrentPassword? || res.0.PasswordTooShort? ==> res.1 == users
    ensures res.0.ProfileUpdated? ==> res.0.user.id == userId
    ensures res.0 == WrongCurrentPassword <==>
      FindById(users, userId).Some? && currentPassword != "" && newPassword != ""
      && !Matches(currentPassword, users[FindById(users, userId).value].password)
    ensures res.0 == PasswordTooShort <==>
      FindById(users, userId).Some? && currentPassword != "" && newPassword != ""
      && Matches(currentPassword, users[FindById(users, userId).value].password) && |newPassword| < MinPasswordLength
  {
    match FindById(users, userId)
    case None => (ProfileNotFound, users)
    case Some(i) =>
      var u := users[i];
      if currentPassword != "" && newPassword != "" then
        if !Matches(currentPassword, u.password) then (WrongCurrentPassword, users)
        else if |newPassword| < MinPasswordLength then (PasswordTooShort, users)
        else
          var v := u.(password := Plain(newPassword));
          match SaveUser(users, v, false, true, salt)
          case None => (ProfileSaveFailed, users)
          case Some(after) => RenameAndSave(after, SavedValue(v, true, salt), username, avatarFile, salt)
      else RenameAndSave(users, u, username, avatarFile, salt)
  }

  /** A refused update (no such user, wrong current password, short new
      password) changes nothing. */
  lemma ProfileRefusalsChangeNothing(users: seq<User>, userId: ObjectId, username: string, currentPassword: string,
                                     newPassword: string, avatarFile: Option<string>, salt: Salt)
    ensures var (r, after) := UpdateProfile(users, userId, username, currentPassword, newPassword, avatarFile, salt);
      r.ProfileNotFound? || r.WrongCurrentPassword? || r.PasswordTooShort? ==> after == users
  {
  }

  /** The second save of a profile update: it overwrites the user's record
      with the new username and avatar, or fails and changes nothing. */
  lemma RenameEffect(users: seq<User>, i: nat, u: User, username: string, avatarFile: Option<string>, salt: Salt)
    requires UniqueUserIds(users) && i < |users| && u.id == users[i].id
    ensures var (r, after) := RenameAndSave(users, u, username, avatarFile, salt);
      && (r.ProfileUpdated? || r.ProfileSaveFailed?)
      && (r.ProfileSaveFailed? ==> after == users)
      && (r.ProfileUpdated? ==>
            var u' := after[i];
            && after == users[i := u']
            && u' == u.(username := u'.username, avatar := u'.avatar)
            && u'.username == (if username != "" then username else u.username)
            && u'.avatar == (if avatarFile.Some? then Some(AvatarPath(avatarFile.value)) else u.avatar)
            && r.user == Public(u'))
  {
    SaveExisting(users, i, Renamed(u, username, avatarFile), false, salt);
  }

  /** What a profile update does to the store: only the user's own record
      changes, and in it only the password, the username and the avatar.
      The password changes only when both passwords were given, the current
      one verifies and the new one has at least 8 characters, and then the
      new one verifies. A non-empty username replaces the old one; an empty
      one keeps it. */
  lemma ProfileUpdateEffect(users: seq<User>, userId: ObjectId, username: string, currentPassword: string,
                            newPassword: string, avatarFile: Option<string>, salt: Salt, i: nat)
    requires UsersValid(users)
    requires i < |users| && users[i].id == userId
    ensures var (r, after) := UpdateProfile(users, userId, username, currentPassword, newPassword, avatarFile, salt);
      var u, u' := users[i], after[i];
      && |after| == |users|
      && (forall j :: 0 <= j < |users| && j != i ==> after[j] == users[j])
      && u'.id == u.id && u'.email == u.email && u'.role == u.role
      && u'.registrationDate == u.registrationDate && u'.attempts == u.attempts
      && (u'.password != u.password ==>
            currentPassword != "" && newPassword != "" && Matches(currentPassword, u.password)
            && |newPassword| >= MinPasswordLength
            && forall c :: Matches(c, u'.password) <==> c == newPassword)
      && (r.ProfileUpdated? ==>
            u'.username == (if username != "" then username else u.username)
            && u'.avatar == (if avatarFile.Some? then Some(AvatarPath(avatarFile.value)) else u.avatar)
            && r.user == Public(u'))
  {
    FindStoredUser(users, i);
    var u := users[i];
    if currentPassword != "" && newPassword != "" && Matches(currentPassword, u.password)
       && |newPassword| >= MinPasswordLength {
      assert StoredUser(u) by { assert u in users; }
      var v := u.(password := Plain(newPassword));
      var w := SavedValue(v, true, salt);
      OwnUsernameFree(users, i, w);
      SaveExisting(users, i, v, true, salt);
      var after := users[i := w];
      assert SaveUser(users, v, false, true, salt) == Some(after);
      forall c ensures Matches(c, w.password) <==> c == newPassword {
        SaveOfAssignedPasswordVerifies(newPassword, salt, c);
      }
      RenameEffect(after, i, w, username, avatarFile, salt);
    } else {
      RenameEffect(users, i, u, username, avatarFile, salt);
    }
  }

  /** Which answer the profile route gives a stored user, and when the new
      password is in force. In a valid store the password save cannot fail,
      so 500 means exactly that the requested username is another user's:
      - 400 "Current password is incorrect" exactly when both passwords are
        given and the current one does not verify;
      - 400 for a short new password exactly when it verifies but the new one
        has fewer than 8 characters;
      - otherwise 500 on a username clash and 200 without one;
      - the new password is in force exactly when both checks passed, even
        when the answer is 500. */
  lemma ProfileOutcome(users: seq<User>, userId: ObjectId, username: string, currentPassword: string,
                       newPassword: string, avatarFile: Option<string>, salt: Salt, i: nat)
    requires UsersValid(users) && i < |users| && users[i].id == userId
    ensures var (r, after) := UpdateProfile(users, userId, username, currentPassword, newPassword, avatarFile, salt);
      var changes := currentPassword != "" && newPassword != "";
      var verified := Matches(currentPassword, users[i].password);
      var accepted := changes && verified && |newPassword| >= MinPasswordLength;
      var clash := UsernameTakenByOther(users, Renamed(users[i], username, avatarFile));
      && (r == WrongCurrentPassword <==> changes && !verified)
      && (r == PasswordTooShort <==> changes && verified && |newPassword| < MinPasswordLength)
      && (r == ProfileSaveFailed <==> (!changes || accepted) && clash)
      && (r.ProfileUpdated? <==> (!changes || accepted) && !clash)
      && (accepted ==> forall c :: Matches(c, after[i].password) <==> c == newPassword)
      && (!accepted ==> after[i].password == users[i].password)
  {
    FindStoredUser(users, i);
    assert StoredUser(users[i]) by { assert users[i] in users; }
    var u := users[i];
    if currentPassword != "" && newPassword != "" && Matches(currentPassword, u.password)
       && |newPassword| >= MinPasswordLength {
      var v := u.(password := Plain(newPassword));
      var w := SavedValue(v, true, salt);
      OwnUsernameFree(users, i, w);
      SaveExisting(users, i, v, true, salt);
      var after := users[i := w];
      assert SaveUser(users, v, false, true, salt) == Some(after);
      TakenIgnoresPassword(users, i, w, Renamed(w, username, avatarFile), Renamed(u, username, avatarFile));
      RenameEffect(after, i, w, username, avatarFile, salt);
      forall c ensures Matches(c, w.password) <==> c == newPassword {
        SaveOfAssignedPasswordVerifies(newPassword, salt, c);
      }
    } else if !(currentPassword != "" && newPassword != "") {
      RenameEffect(users, i, u, username, avatarFile, salt);
    }
  }

  /** Whether a username clashes depends on the ids and usernames only, not
      on any password. */
  lemma TakenIgnoresPassword(users: seq<User>, i: nat, w: User, x: User, y: User)
    requires i < |users| && w == users[i].(password := w.password) && x == y.(password := x.password)
    ensures UsernameTakenByOther(users[i := w], x) <==> UsernameTakenByOther(users, y)
  {
    var after := users[i := w];
    assert forall j :: 0 <= j < |users| ==> after[j].username == users[j].username && after[j].id == users[j].id;
  }

  /** Not atomic: when the password change is saved but the second save then
      fails because the new username belongs to another user, the answer is
      500 and the new password stays in force. */
  lemma PasswordKeptWhenRenameFails(users: seq<User>, i: nat, k: nat, currentPassword: string,
                                    newPassword: string, salt: Salt)
    requires UsersValid(users)
    requires i < |users| && k < |users| && i != k
    requires currentPassword != "" && Matches(currentPassword, users[i].password)
    requires |newPassword| >= MinPasswordLength
    ensures var (r, after) := UpdateProfile(users, users[i].id, users[k].username, currentPassword, newPassword, None, salt);
      r == ProfileSaveFailed && forall c :: Matches(c, after[i].password) <==> c == newPassword
  {
    FindStoredUser(users, i);
    assert StoredUser(users[i]) by { assert users[i] in users; }
    var v := users[i].(password := Plain(newPassword));
    var w := SavedValue(v, true, salt);
    OwnUsernameFree(users, i, w);
    SaveExisting(users, i, v, true, salt);
    var after := users[i := w];
    assert SaveUser(users, v, false, true, salt) == Some(after);
    assert StoredUser(users[k]) by { assert users[k] in users; }
    var w' := w.(username := users[k].username);
    assert after[k].username == w'.username && after[k].id != w'.id;
    assert UsernameTakenByOther(after, w');
    forall c ensures Matches(c, w.password) <==> c == newPassword {
      SaveOfAssignedPasswordVerifies(newPassword, salt, c);
    }
  }

  // ---------------------------------------------------------------------
  // POST /users/attempts (routes/index.js:290-304)

  datatype AttemptResponse = AttemptSaved | AttemptFailed

  function AttemptStatus(r: AttemptResponse): (code: int)
    ensures r.AttemptSaved? <==> code == 200
    ensures r.AttemptFailed? <==> code == 500
  {
    if r.AttemptSaved? then 200 else 500
  }

  /** Push `{quizId, score}` onto the authenticated user's attempts and save.
      `quizId` must cast to an ObjectId and `score` must be present (the
      attempt schema's validators); otherwise, or when the user's document
      is gone, the save fails and the answer is 500. */
  function SaveAttempt(users: seq<User>, userId: ObjectId, quizId: string, score: Option<int>, now: Time, salt: Salt)
    : (res: (AttemptResponse, seq<User>))
    ensures res.0 == AttemptFailed ==> res.1 == users
    ensures res.0 == AttemptSaved ==>
      CastObjectId(quizId).Some? && score.Some? && |res.1| == |users|
      && exists i :: (0 <= i < |users| && users[i].id == userId
         && res.1 == users[i := users[i].(attempts := users[i].attempts + [Attempt(CastObjectId(quizId).value, score.value, now)])])
  {
    match FindById(users, userId)
    case None => (AttemptFailed, users)
    case Some(i) =>
      match CastObjectId(quizId)
      case None => (AttemptFailed, users)
      case Some(q) =>
        if score.None? then (AttemptFailed, users)
        else
          var u := users[i];
          match SaveUser(users, u.(attempts := u.attempts + [NewAttempt(q, score.value, now)]), false, false, salt)
          case None => (AttemptFailed, users)
          case Some(after) => (AttemptSaved, after)
  }

  /** A well-formed attempt by a stored user is always saved: the attempt
      goes on the end of that user's attempts, earlier entries and every
      other record stay as they were. `quizIdText` is any string the cast
      accepts, in either letter case. */
  lemma SaveAttemptEffect(users: seq<User>, i: nat, quizIdText: string, quizId: ObjectId, score: int, now: Time,
                          salt: Salt)
    requires UsersValid(users) && i < |users|
    requires CastObjectId(quizIdText) == Some(quizId)
    ensures var (r, after) := SaveAttempt(users, users[i].id, quizIdText, Some(score), now, salt);
      && r == AttemptSaved
      && after == users[i := users[i].(attempts := users[i].attempts + [Attempt(quizId, score, now)])]
  {
    FindStoredUser(users, i);
    assert StoredUser(users[i]) by { assert users[i] in users; }
    var u := users[i];
    var v := u.(attempts := u.attempts + [NewAttempt(quizId, score, now)]);
    OwnUsernameFree(users, i, v);
    SaveExisting(users, i, v, false, salt);
  }

  /** A saved attempt keeps the users collection valid. */
  lemma SaveAttemptKeepsUsersValid(users: seq<User>, i: nat, quizIdText: string, quizId: ObjectId, score: int,
                                   now: Time, salt: Salt)
    requires UsersValid(users) && i < |users|
    requires CastObjectId(quizIdText) == Some(quizId)
    ensures UsersValid(SaveAttempt(users, users[i].id, quizIdText, Some(score), now, salt).1)
  {
    SaveAttemptEffect(users, i, quizIdText, quizId, score, now, salt);
    var u := users[i];
    var v := u.(attempts := u.attempts + [NewAttempt(quizId, score, now)]);
    assert StoredUser(u) by { assert u in users; }
    SaveUserKeepsUsersValid(users, v, false, false, salt);
  }

  /** A malformed attempt (bad quiz id, no score) or a missing user is
      refused and stores nothing. */
  lemma SaveAttemptFailureChangesNothing(users: seq<User>, userId: ObjectId, quizId: string, score: Option<int>,
                                         now: Time, salt: Salt)
    ensures var (r, after) := SaveAttempt(users, userId, quizId, score, now, salt);
      r == AttemptFailed ==> after == users
    ensures CastObjectId(quizId).None? || score.None? ==> SaveAttempt(users, userId, quizId, score, now, salt).0 == AttemptFailed
  {
  }

  /** A saved attempt raises its quiz's attempt count by one and the total
      score by its score, and leaves every other quiz's statistics as they
      were. */
  lemma SaveAttemptUpdatesStats(users: seq<User>, i: nat, quizIdText: string, quizId: ObjectId, score: int,
                                now: Time, salt: Salt, other: ObjectId)
    requires UsersValid(users) && i < |users|
    requires CastObjectId(quizIdText) == Some(quizId)
    ensures var after := SaveAttempt(users, users[i].id, quizIdText, Some(score), now, salt).1;
      && CalculateStats(after, quizId).attempts == CalculateStats(users, quizId).attempts + 1
      && TotalScore(CollectAttempts(after, quizId)) == TotalScore(CollectAttempts(users, quizId)) + score
      && (other != quizId ==> CalculateStats(after, other) == CalculateStats(users, other))
  {
    SaveAttemptEffect(users, i, quizIdText, quizId, score, now, salt);
    var a := Attempt(quizId, score, now);
    AppendedAttemptStats(users, i, a, quizId);
    AppendedAttemptStats(users, i, a, other);
  }

  // ---------------------------------------------------------------------
  // PUT /quizzes/:id (routes/index.js:375-399)

  datatype QuizResponse =
    | QuizUpdated(quiz: Quiz)
    | QuizDeleted
    | InvalidQuizId
    | QuizNotFound
    | QuizRequestFailed

  function QuizStatus(r: QuizResponse): (code: int)
    ensures r.QuizUpdated? || r.QuizDeleted? <==> code == 200
    ensures r.InvalidQuizId? || r.QuizRequestFailed? <==> code == 400
    ensures r.QuizNotFound? <==> code == 404
  {
    match r
    case QuizUpdated(_) => 200
    case QuizDeleted => 200
    case InvalidQuizId => 400
    case QuizNotFound => 404
    case QuizRequestFailed => 400
  }

  /** Find the quiz by the raw path parameter (a cast error is caught and
      answered 400), overwrite all four fields with what the body gives,
      and save, which the `required` validators refuse when a title,
      description or category is missing. */
  function UpdateQuiz(quizzes: seq<Quiz>, idParam: string, title: string, description: string, category: string,
                      questions: seq<Question>): (res: (QuizResponse, seq<Quiz>))
    ensures res.0.QuizUpdated? || res.0.QuizNotFound? || res.0.QuizRequestFailed?
    ensures !res.0.QuizUpdated? ==> res.1 == quizzes
    ensures res.0 == QuizNotFound <==>
      CastObjectId(idParam).Some? && forall j :: 0 <= j < |quizzes| ==> quizzes[j].id != CastObjectId(idParam).value
    ensures res.0.QuizUpdated? <==>
      CastObjectId(idParam).Some? && (exists j :: 0 <= j < |quizzes| && quizzes[j].id == CastObjectId(idParam).value)
      && title != "" && description != "" && category != ""
    ensures res.0.QuizUpdated? ==>
      |res.1| == |quizzes| && Some(res.0.quiz.id) == CastObjectId(idParam) && QuizFieldsPresent(res.0.quiz)
      && res.0.quiz.title == title && res.0.quiz.description == description
      && res.0.quiz.category == category && res.0.quiz.questions == questions
  {
    match CastObjectId(idParam)
    case None => (QuizRequestFailed, quizzes)
    case Some(id) =>
      match FindQuiz(quizzes, id)
      case None => (QuizNotFound, quizzes)
      case Some(i) =>
        var q := quizzes[i].(title := title, description := description, category := category, questions := questions);
        if !QuizFieldsPresent(q) then (QuizRequestFailed, quizzes)
        else (QuizUpdated(q), quizzes[i := q])
  }

  /** A successful update replaces exactly the four fields of that one quiz
      and keeps its id; every refusal changes nothing. */
  lemma UpdateQuizEffect(quizzes: seq<Quiz>, idParam: string, title: string, description: string, category: string,
                         questions: seq<Question>)
    requires QuizzesValid(quizzes)
    ensures var (r, after) := UpdateQuiz(quizzes, idParam, title, description, category, questions);
      && (!r.QuizUpdated? ==> after == quizzes)
      && (r.QuizUpdated? ==>
            |after| == |quizzes| && QuizzesValid(after)
            && exists i :: (0 <= i < |quizzes| && Some(quizzes[i].id) == CastObjectId(idParam)
                            && after == quizzes[i := Quiz(quizzes[i].id, title, description, category, questions)]
                            && r.quiz == after[i]))
  {
    var (r, after) := UpdateQuiz(quizzes, idParam, title, description, category, questions);
    if r.QuizUpdated? {
      var i := FindQuiz(quizzes, CastObjectId(idParam).value).value;
      assert after == quizzes[i := Quiz(quizzes[i].id, title, description, category, questions)];
      forall q | q in after ensures QuizFieldsPresent(q) {
        if q != after[i] {
          assert q in quizzes;
        }
      }
    }
  }

  // ---------------------------------------------------------------------
  // DELETE /quizzes/:id (routes/index.js:402-438)

  /** Check the trimmed id's format before touching the store, find the
      quiz, delete it. Users' attempts at it are left in place. */
  function DeleteQuiz(quizzes: seq<Quiz>, idParam: string): (res: (QuizResponse, seq<Quiz>))
    ensures res.0.QuizDeleted? || res.0.QuizNotFound? || res.0.InvalidQuizId?
    ensures res.0 == InvalidQuizId <==> !IsHex24(Trim(idParam))
    ensures !res.0.QuizDeleted? ==> res.1 == quizzes
    ensures res.0 == QuizNotFound <==>
      ParseQuizIdParam(idParam).Some? && forall j :: 0 <= j < |quizzes| ==> quizzes[j].id != ParseQuizIdParam(idParam).value
    ensures res.0.QuizDeleted? <==>
      ParseQuizIdParam(idParam).Some? && exists j :: 0 <= j < |quizzes| && quizzes[j].id == ParseQuizIdParam(idParam).value
    ensures res.0.QuizDeleted? ==> |res.1| == |quizzes| - 1
  {
    match ParseQuizIdParam(idParam)
    case None => (InvalidQuizId, quizzes)
    case Some(id) =>
      match FindQuiz(quizzes, id)
      case None => (QuizNotFound, quizzes)
      case Some(i) => (QuizDeleted, quizzes[..i] + quizzes[i + 1..])
  }

  /** An id that is not 24 hexadecimal digits after trimming is refused
      with 400 and the store is not touched. */
  lemma DeleteRejectsMalformedId(quizzes: seq<Quiz>, idParam: string)
    requires !IsHex24(Trim(idParam))
    ensures DeleteQuiz(quizzes, idParam) == (InvalidQuizId, quizzes)
  {
  }

  /** A successful delete removes exactly the quiz with that id, keeps the
      others in order, and the leaderboard no longer lists it. */
  lemma DeleteQuizEffect(quizzes: seq<Quiz>, idParam: string, users: seq<User>)
    requires QuizzesValid(quizzes)
    ensures var (r, after) := DeleteQuiz(quizzes, idParam);
      && (!r.QuizDeleted? ==> after == quizzes)
      && (r.QuizDeleted? ==>
            var id := ParseQuizIdParam(idParam).value;
            && |after| == |quizzes| - 1
            && (forall q :: q in quizzes && q.id != id ==> q in after)
            && (forall q :: q in after ==> q in quizzes && q.id != id)
            && QuizzesValid(after)
            && forall e :: e in Leaderboard.Leaderboard(after, users) ==> e.quizId != id)
  {
    var (r, after) := DeleteQuiz(quizzes, idParam);
    if r.QuizDeleted? {
      var id := ParseQuizIdParam(idParam).value;
      var i := FindQuiz(quizzes, id).value;
      RemoveQuizAt(quizzes, i);
      NoEntryForAbsentQuiz(after, users, id);
    }
  }

  /** Removing the quiz at `i` keeps every other quiz, drops every quiz with
      its id, and keeps the collection valid. */
  lemma RemoveQuizAt(quizzes: seq<Quiz>, i: nat)
    requires QuizzesValid(quizzes) && i < |quizzes|
    ensures var after := quizzes[..i] + quizzes[i + 1..];
      && |after| == |quizzes| - 1
      && (forall q :: q in quizzes && q.id != quizzes[i].id ==> q in after)
      && (forall q :: q in after ==> q in quizzes && q.id != quizzes[i].id)
      && QuizzesValid(after)
  {
    var after := quizzes[..i] + quizzes[i + 1..];
    assert quizzes == quizzes[..i] + [quizzes[i]] + quizzes[i + 1..];
    forall k | 0 <= k < |after| ensures after[k] == quizzes[if k < i then k else k + 1] {
    }
    forall q | q in after ensures q in quizzes && q.id != quizzes[i].id {
      var k :| 0 <= k < |after| && after[k] == q;
    }
  }

  /** A quiz that is not stored has no leaderboard entry. */
  lemma NoEntryForAbsentQuiz(quizzes: seq<Quiz>, users: seq<User>, id: ObjectId)
    requires forall q :: q in quizzes ==> q.id != id
    ensures forall e :: e in Leaderboard.Leaderboard(quizzes, users) ==> e.quizId != id
  {
    var board := Leaderboard.Leaderboard(quizzes, users);
    forall e | e in board ensures e.quizId != id {
      var k :| 0 <= k < |board| && board[k] == e;
      assert quizzes[k] in quizzes;
    }
  }
}
