/** The users and quizzes collections as one mutable store, and the request
    handlers of routes/index.js that change it, performed step by step the
    way the handlers do: load a document, assign its fields, save it. Each
    handler is proved to leave the store exactly as the matching function of
    module Handlers says, and to keep the store's invariant. */
module Routes {
  import opened Wrappers
  import opened ObjectIds
  import opened UserModel
  import opened QuizModel
  import opened Authentication
  import Handlers

  /** With a successful save overwriting user `i` by a record of the same
      email, emails stay unique. */
  lemma SameEmailKeepsUniqueEmails(users: seq<User>, i: nat, w: User)
    requires Handlers.UniqueEmails(users) && i < |users| && w.email == users[i].email
    ensures Handlers.UniqueEmails(users[i := w])
  {
    var after := users[i := w];
    forall j, k | 0 <= j < k < |after| ensures after[j].email != after[k].email {
      assert after[j].email == users[j].email;
      assert after[k].email == users[k].email;
    }
  }

  class Store {
    var users: seq<User>
    var quizzes: seq<Quiz>

    /** Unique user ids, usernames and emails, only hashed passwords, unique
        quiz ids, and every stored document passes its schema's validators. */
    ghost predicate Valid()
      reads this
    {
      Handlers.UsersValid(users) && Handlers.UniqueEmails(users) && Handlers.QuizzesValid(quizzes)
    }

    /** An empty database. */
    constructor ()
      ensures Valid() && users == [] && quizzes == []
    {
      users := [];
      quizzes := [];
    }

    /** `doc.save()`: validate, run the pre-save hook on the document, then
        write it to the users collection. On success the document is
        neither new nor modified any more; on a failed write the hook's hash
        stays on the document. */
    method Save(doc: UserDocument, salt: Salt) returns (ok: bool)
      requires doc.Valid()
      modifies this, doc
      ensures quizzes == old(quizzes)
      ensures var r := Handlers.SaveUser(old(users), old(doc.Value()), old(doc.isNew), old(doc.passwordModified), salt);
        ok == r.Some? && users == (if ok then r.value else old(users))
      ensures doc.Value() ==
        if RequiredFieldsPresent(old(doc.Value()))
        then Handlers.SavedValue(old(doc.Value()), old(doc.passwordModified), salt)
        else old(doc.Value())
      ensures doc.Valid()
      ensures ok ==> !doc.isNew && !doc.passwordModified
      ensures !ok ==> doc.isNew == old(doc.isNew) && doc.passwordModified == old(doc.passwordModified)
    {
      if !RequiredFieldsPresent(doc.Value()) {
        return false;
      }
      var isNew := doc.isNew;
      doc.PreSave(salt);
      var w := doc.Value();
      if Handlers.UsernameTakenByOther(users, w) {
        return false;
      }
      match FindById(users, w.id) {
        case None =>
          if !isNew {
            return false;
          }
          users := users + [w];
        case Some(i) =>
          if isNew {
            return false;
          }
          users := users[i := w];
      }
      doc.MarkSaved();
      ok := true;
    }

    /** POST /users/register (routes/index.js:80-136). */
    method Register(username: string, email: string, password: string, role: string,
                    id: ObjectId, salt: Salt, now: Time) returns (r: Handlers.RegisterResponse)
      requires Valid()
      modifies this
      ensures Valid() && quizzes == old(quizzes)
      ensures (r, users) == Handlers.Register(old(users), username, email, password, role, id, salt, now)
    {
      Handlers.RegisterKeepsUsersValid(users, username, email, password, role, id, salt, now);
      var check := Handlers.RegisterCheck(users, username, email, password, role);
      if check.Some? {
        return Handlers.RegisterFailed(check.value);
      }
      var doc := new UserDocument.Create(id, username, email, password, Handlers.RequestedRole(role).value, now);
      var ok := Save(doc, salt);
      r := if ok then Handlers.Registered else Handlers.RegisterFailed(Handlers.SaveFailed);
    }

    /** PUT /users/profile (routes/index.js:27-74) for the logged-in user
        `userId`; `avatarFile` is the stored name of an uploaded file. */
    method UpdateProfile(userId: ObjectId, username: string, currentPassword: string, newPassword: string,
                         avatarFile: Option<string>, salt: Salt) returns (r: Handlers.ProfileResponse)
      requires Valid()
      modifies this
      ensures Valid() && quizzes == old(quizzes)
      ensures (r, users) == Handlers.UpdateProfile(old(users), userId, username, currentPassword, newPassword, avatarFile, salt)
    {
      var found := FindById(users, userId);
      if found.None? {
        return Handlers.ProfileNotFound;
      }
      var i := found.value;
      assert users[i] in users;
      var doc := new UserDocument.Load(users[i]);
      if currentPassword != "" && newPassword != "" {
        if !Matches(currentPassword, doc.password) {
          return Handlers.WrongCurrentPassword;
        }
        if |newPassword| < Handlers.MinPasswordLength {
          return Handlers.PasswordTooShort;
        }
        doc.SetPassword(newPassword);
        var before := users;
        var ok := Save(doc, salt);
        if !ok {
          return Handlers.ProfileSaveFailed;
        }
        Handlers.SaveUserKeepsUsersValid(before, old(users)[i].(password := Plain(newPassword)), false, true, salt);
        Handlers.SaveExisting(before, i, old(users)[i].(password := Plain(newPassword)), true, salt);
        SameEmailKeepsUniqueEmails(before, i, doc.Value());
      }
      if username != "" {
        doc.SetUsername(username);
      }
      if avatarFile.Some? {
        doc.SetAvatar(Handlers.AvatarPath(avatarFile.value));
      }
      var before := users;
      var v := doc.Value();
      var ok := Save(doc, salt);
      if !ok {
        return Handlers.ProfileSaveFailed;
      }
      Handlers.SaveUserKeepsUsersValid(before, v, false, false, salt);
      Handlers.SaveExisting(before, i, v, false, salt);
      SameEmailKeepsUniqueEmails(before, i, v);
      r := Handlers.ProfileUpdated(Public(doc.Value()));
    }

    /** POST /users/attempts (routes/index.js:290-304) for the logged-in user
        `userId`; `score` is None when the body has no number. */
    method SaveAttempt(userId: ObjectId, quizId: string, score: Option<int>, now: Time, salt: Salt)
      returns (r: Handlers.AttemptResponse)
      requires Valid()
      modifies this
      ensures Valid() && quizzes == old(quizzes)
      ensures (r, users) == Handlers.SaveAttempt(old(users), userId, quizId, score, now, salt)
    {
      var found := FindById(users, userId);
      if found.None? {
        return Handlers.AttemptFailed;
      }
      var i := found.value;
      assert users[i] in users;
      var doc := new UserDocument.Load(users[i]);
      var q := CastObjectId(quizId);
      if q.None? || score.None? {
        return Handlers.AttemptFailed;
      }
      doc.PushAttempt(NewAttempt(q.value, score.value, now));
      var before := users;
      var v := doc.Value();
      var ok := Save(doc, salt);
      if !ok {
        return Handlers.AttemptFailed;
      }
      Handlers.SaveUserKeepsUsersValid(before, v, false, false, salt);
      Handlers.SaveExisting(before, i, v, false, salt);
      SameEmailKeepsUniqueEmails(before, i, v);
      r := Handlers.AttemptSaved;
    }

    /** PUT /quizzes/:id (routes/index.js:375-399): overwrite the quiz's four
        fields in place; `questions` is empty when the body has none. */
    method UpdateQuiz(idParam: string, title: string, description: string, category: string,
                      questions: seq<Question>) returns (r: Handlers.QuizResponse)
      requires Valid()
      modifies this
      ensures Valid() && users == old(users)
      ensures (r, quizzes) == Handlers.UpdateQuiz(old(quizzes), idParam, title, description, category, questions)
    {
      Handlers.UpdateQuizEffect(quizzes, idParam, title, description, category, questions);
      var id := CastObjectId(idParam);
      if id.None? {
        return Handlers.QuizRequestFailed;
      }
      var found := Handlers.FindQuiz(quizzes, id.value);
      if found.None? {
        return Handlers.QuizNotFound;
      }
      var i := found.value;
      var q := quizzes[i];
      q := q.(title := title);
      q := q.(description := description);
      q := q.(category := category);
      q := q.(questions := questions);
      if !QuizFieldsPresent(q) {
        return Handlers.QuizRequestFailed;
      }
      quizzes := quizzes[i := q];
      r := Handlers.QuizUpdated(q);
    }

    /** DELETE /quizzes/:id (routes/index.js:402-438). Users' attempts at
        the quiz are not touched. */
    method DeleteQuiz(idParam: string) returns (r: Handlers.QuizResponse)
      requires Valid()
      modifies this
      ensures Valid() && users == old(users)
      ensures (r, quizzes) == Handlers.DeleteQuiz(old(quizzes), idParam)
    {
      Handlers.DeleteQuizEffect(quizzes, idParam, users);
      var id := ParseQuizIdParam(idParam);
      if id.None? {
        return Handlers.InvalidQuizId;
      }
      var found := Handlers.FindQuiz(quizzes, id.value);
      if found.None? {
        return Handlers.QuizNotFound;
      }
      var i := found.value;
      quizzes := quizzes[..i] + quizzes[i + 1..];
      r := Handlers.QuizDeleted;
    }
  }
}
