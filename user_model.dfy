/** The user record of model/user.js: the role enumeration and its default,
    the embedded attempt records, the password kept as a salted one-way hash,
    and the pre-save hook that rehashes the password only when it was
    modified. */
module UserModel {
  import opened Wrappers
  import opened ObjectIds

  /** Milliseconds since the epoch, as `Date.now()` returns them. */
  type Time = int

  /** The `role` enumeration (model/user.js:19-23). */
  datatype Role = Student | Teacher

  /** The schema default for `role`. */
  const DefaultRole: Role := Student

  /** The string the schema stores for a role. */
  function RoleName(r: Role): string {
    match r
    case Student => "student"
    case Teacher => "teacher"
  }

  /** The enumeration check: only the two names the schema lists are roles. */
  function ParseRole(s: string): (r: Option<Role>)
    ensures r.Some? ==> RoleName(r.value) == s
  {
    if s == "student" then Some(Student)
    else if s == "teacher" then Some(Teacher)
    else None
  }

  /** Every role is accepted under its own name. */
  lemma ParseRoleName(r: Role)
    ensures ParseRole(RoleName(r)) == Some(r)
  {
  }

  /** Any other string is refused: the enumeration is closed. */
  lemma ParseRoleClosed(s: string)
    requires s != "student" && s != "teacher"
    ensures ParseRole(s) == None
  {
  }

  /** A bcrypt salt. Generating it is randomness, so it arrives as a value. */
  type Salt = nat

  /** What a `password` path holds: the plaintext a handler has just assigned,
      or `bcrypt.hash` applied to what was there before. The hash is kept as a
      symbolic term, so that hashing twice is visibly not hashing once. */
  datatype Password = Plain(text: string) | Hashed(salt: Salt, source: Password)

  /** `bcrypt.hash(password, salt)` (model/user.js:60-61). */
  function Hash(p: Password, salt: Salt): (h: Password)
    ensures h.Hashed? && h.source == p
    ensures forall c :: Matches(c, h) <==> p == Plain(c)
  {
    Hashed(salt, p)
  }

  /** `bcrypt.compare(candidate, stored)` (model/user.js:51-53): true exactly
      when `stored` is a hash of the plaintext `candidate`, whatever the salt. */
  predicate Matches(candidate: string, stored: Password)
    ensures stored.Plain? ==> !Matches(candidate, stored)
    ensures stored.Hashed? && stored.source.Hashed? ==> !Matches(candidate, stored)
  {
    stored.Hashed? && stored.source == Plain(candidate)
  }

  /** A freshly hashed plaintext verifies against that plaintext and no other. */
  lemma HashedPlainMatchesOnlyItself(p: string, salt: Salt, candidate: string)
    ensures Matches(candidate, Hash(Plain(p), salt)) <==> candidate == p
  {
  }

  /** A stored plaintext never verifies: comparison needs a hash. */
  lemma PlainNeverMatches(p: string, candidate: string)
    ensures !Matches(candidate, Plain(p))
  {
  }

  /** One embedded attempt (model/user.js:33-47). `quizId` and `score` are
      required; `dateTaken` defaults to the time the record is made. The model
      keeps scores as integers. */
  datatype Attempt = Attempt(quizId: ObjectId, score: int, dateTaken: Time)

  /** An attempt created with only `quizId` and `score` given, as the
      attempt route does (routes/index.js:296). */
  function NewAttempt(quizId: ObjectId, score: int, now: Time): (a: Attempt)
    ensures a.quizId == quizId && a.score == score
    ensures a.dateTaken == now
  {
    Attempt(quizId, score, now)
  }

  /** A user document (model/user.js:5-48). `avatar` is `null` until an
      upload sets it. */
  datatype User = User(
    id: ObjectId,
    username: string,
    email: string,
    password: Password,
    role: Role,
    registrationDate: Time,
    avatar: Option<string>,
    attempts: seq<Attempt>)

  /** `user.toObject()` with `password` deleted (routes/index.js:63-64,
      175-176): every field but the password. */
  datatype PublicUser = PublicUser(
    id: ObjectId,
    username: string,
    email: string,
    role: Role,
    registrationDate: Time,
    avatar: Option<string>,
    attempts: seq<Attempt>)

  function Public(u: User): (p: PublicUser)
    ensures p.id == u.id && p.username == u.username && p.email == u.email
    ensures p.role == u.role && p.avatar == u.avatar && p.attempts == u.attempts
    ensures p.registrationDate == u.registrationDate
  {
    PublicUser(u.id, u.username, u.email, u.role, u.registrationDate, u.avatar, u.attempts)
  }

  /** The `required` validators of `username`, `email` and `password`
      (model/user.js:6-18): Mongoose refuses an empty string. Validation runs
      before the pre-save hook, so a password is checked as assigned. */
  predicate RequiredFieldsPresent(u: User)
    ensures RequiredFieldsPresent(u) ==> u.username != "" && u.email != ""
    ensures u.password.Hashed? ==> (RequiredFieldsPresent(u) <==> u.username != "" && u.email != "")
    ensures u.password == Plain("") ==> !RequiredFieldsPresent(u)
    ensures u.password.Plain? ==>
      (RequiredFieldsPresent(u) <==> u.username != "" && u.email != "" && u.password.text != "")
  {
    u.username != "" && u.email != "" && (u.password.Plain? ==> u.password.text != "")
  }

  /** The document `new User({username, email, password, role})` builds
      (routes/index.js:119-124), with the schema defaults filled in: no avatar,
      no attempts, and the password still plaintext until it is saved. The
      registration date is the time of registration; see
      NewUserAsWritten for what model/user.js:27 does instead. */
  function NewUser(id: ObjectId, username: string, email: string, password: string, role: Role, now: Time): (u: User)
    ensures u.id == id && u.username == username && u.email == email && u.role == role
    ensures u.password == Plain(password)
    ensures u.registrationDate == now
    ensures u.avatar == None && u.attempts == []
  {
    User(id, username, email, Plain(password), role, now, None, [])
  }

  /** The same document as model/user.js:27 builds it: `default: Date.now()`
      calls `Date.now()` once, when the schema is defined, so every user gets
      the time the server loaded the schema, not the time they registered. */
  function NewUserAsWritten(id: ObjectId, username: string, email: string, password: string, role: Role,
                            schemaLoadedAt: Time, now: Time): (u: User)
    ensures u == NewUser(id, username, email, password, role, now).(registrationDate := schemaLoadedAt)
  {
    User(id, username, email, Plain(password), role, schemaLoadedAt, None, [])
  }

  /** As written, two users registered at different times share one
      registration date; with the corrected default each gets its own. */
  lemma RegistrationDateFrozenAsWritten(id: ObjectId, name1: string, name2: string, email1: string, email2: string)
    ensures var loaded, t1, t2 := 0, 1000, 2000;
      && NewUserAsWritten(id, name1, email1, "pw", Student, loaded, t1).registrationDate
         == NewUserAsWritten(id, name2, email2, "pw", Student, loaded, t2).registrationDate
      && NewUser(id, name1, email1, "pw", Student, t1).registrationDate
         != NewUser(id, name2, email2, "pw", Student, t2).registrationDate
  {
  }

  /** What the pre-save hook leaves in `password` (model/user.js:56-66):
      a hash of the current value when the path was modified since the
      document was loaded, the current value unchanged otherwise. */
  function PasswordOnSave(p: Password, modified: bool, salt: Salt): (r: Password)
    ensures !modified ==> r == p
    ensures modified ==> r.Hashed? && r.source == p
  {
    if modified then Hash(p, salt) else p
  }

  /** Saving a document whose password was assigned stores a hash the
      assigned plaintext verifies against. */
  lemma SaveOfAssignedPasswordVerifies(p: string, salt: Salt, candidate: string)
    ensures Matches(candidate, PasswordOnSave(Plain(p), true, salt)) <==> candidate == p
  {
  }

  /** Saving again without touching the password keeps it verifiable. A hook
      that rehashed on every save would hash the hash, and the user could no
      longer log in: that is what the `isModified` test prevents. */
  lemma ResaveKeepsPasswordVerifiable(p: string, salt1: Salt, salt2: Salt)
    ensures var stored := PasswordOnSave(Plain(p), true, salt1);
      && Matches(p, PasswordOnSave(stored, false, salt2))
      && !Matches(p, PasswordOnSave(stored, true, salt2))
  {
  }

  /** The in-memory Mongoose document of one user: a handler loads it, assigns
      to its paths in place, and saves it. `isNew` and `passwordModified`
      are the bookkeeping Mongoose keeps for `save` and `isModified`. */
  class UserDocument {
    const id: ObjectId
    var username: string
    var email: string
    var password: Password
    var role: Role
    var registrationDate: Time
    var avatar: Option<string>
    var attempts: seq<Attempt>
    var isNew: bool
    var passwordModified: bool

    /** A password that was not assigned since loading is a stored hash. */
    ghost predicate Valid()
      reads this
    {
      password.Plain? ==> passwordModified
    }

    /** The document's current field values. */
    function Value(): (u: User)
      reads this
      ensures u.id == id && u.username == username && u.password == password && u.attempts == attempts
    {
      User(id, username, email, password, role, registrationDate, avatar, attempts)
    }

    /** `User.findById(...)`: a document for a stored user, nothing modified. */
    constructor Load(u: User)
      requires u.password.Hashed?
      ensures Valid() && Value() == u
      ensures !isNew && !passwordModified
    {
      id := u.id;
      username := u.username;
      email := u.email;
      password := u.password;
      role := u.role;
      registrationDate := u.registrationDate;
      avatar := u.avatar;
      attempts := u.attempts;
      isNew := false;
      passwordModified := false;
    }

    /** `new User({...})`: a new document, every path modified. */
    constructor Create(id: ObjectId, username: string, email: string, password: string, role: Role, now: Time)
      ensures Valid() && Value() == NewUser(id, username, email, password, role, now)
      ensures isNew && passwordModified
    {
      this.id := id;
      this.username := username;
      this.email := email;
      this.password := Plain(password);
      this.role := role;
      this.registrationDate := now;
      this.avatar := None;
      this.attempts := [];
      isNew := true;
      passwordModified := true;
    }

    /** `user.password = p` (routes/index.js:50). */
    method SetPassword(p: string)
      modifies this
      ensures Valid()
      ensures Value() == old(Value()).(password := Plain(p))
      ensures passwordModified && isNew == old(isNew)
    {
      password := Plain(p);
      passwordModified := true;
    }

    /** `user.username = name` (routes/index.js:55). */
    method SetUsername(name: string)
      requires Valid()
      modifies this
      ensures Valid()
      ensures Value() == old(Value()).(username := name)
      ensures passwordModified == old(passwordModified) && isNew == old(isNew)
    {
      username := name;
    }

    /** `user.avatar = path` (routes/index.js:57). */
    method SetAvatar(path: string)
      requires Valid()
      modifies this
      ensures Valid()
      ensures Value() == old(Value()).(avatar := Some(path))
      ensures passwordModified == old(passwordModified) && isNew == old(isNew)
    {
      avatar := Some(path);
    }

    /** `user.attempts.push(a)` (routes/index.js:296). */
    method PushAttempt(a: Attempt)
      requires Valid()
      modifies this
      ensures Valid()
      ensures Value() == old(Value()).(attempts := old(attempts) + [a])
      ensures passwordModified == old(passwordModified) && isNew == old(isNew)
    {
      attempts := attempts + [a];
    }

    /** The pre-save hook (model/user.js:56-66): hash the password in place
        if, and only if, it was modified. Afterwards it is always a hash. */
    method PreSave(salt: Salt)
      requires Valid()
      modifies this
      ensures Value() == old(Value()).(password := PasswordOnSave(old(password), old(passwordModified), salt))
      ensures password.Hashed?
      ensures passwordModified == old(passwordModified) && isNew == old(isNew)
    {
      if passwordModified {
        password := Hash(password, salt);
      }
    }

    /** After a successful save the document is neither new nor modified. */
    method MarkSaved()
      requires password.Hashed?
      modifies this
      ensures Valid() && Value() == old(Value())
      ensures !isNew && !passwordModified
    {
      isNew := false;
      passwordModified := false;
    }
  }
}
