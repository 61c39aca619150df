/** End-to-end properties of the application, proved on the model: registration, two
    attempts at one quiz, the statistics and leaderboard that follow, and the
    role gate refusing a student. The quiz is taken as already stored;
    creating quizzes is not part of this model. */
module Scenarios {
  import opened Wrappers
  import opened ObjectIds
  import opened UserModel
  import opened QuizModel
  import opened Ranking
  import opened Authentication
  import opened RoleAuth
  import opened Handlers
  import Leaderboard

  /** A teacher and then a student register on an empty store; the student
      takes the quiz twice, scoring 80 and then 60. Both registrations and
      both attempts succeed, the quiz has 2 attempts averaging 70.0, its
      leaderboard entry lists the student's two rows with 80 first, and the
      student is refused with 403 on a teacher route. */
  lemma {:induction false} TeacherAndStudentScenario(idA: ObjectId, idB: ObjectId, quiz: Quiz, salt: Salt,
                                  t0: Time, t1: Time, t2: Time, token: string)
    requires idA != idB && token != ""
    ensures var (r1, s1) := Register([], "alice", "alice@example.com", "secret-a", "teacher", idA, salt, t0);
      var (r2, s2) := Register(s1, "bob", "bob@example.com", "secret-b", "student", idB, salt, t0);
      var (r3, s3) := SaveAttempt(s2, idB, ToHex(quiz.id), Some(80), t1, salt);
      var (r4, s4) := SaveAttempt(s3, idB, ToHex(quiz.id), Some(60), t2, salt);
      && r1 == Registered && r2 == Registered && r3 == AttemptSaved && r4 == AttemptSaved
      && CalculateStats(s4, quiz.id) == Stats(2, 700)
      && Leaderboard.Leaderboard([quiz], s4)
         == [Leaderboard.Entry(quiz.id, quiz.title, quiz.category, [Row("bob", 80), Row("bob", 60)], 2, 700)]
      && TeacherRoute(token, Verified(ToHex(idB)), s4) == RoleRefused(AccessDenied(Teacher, Student))
  {
    var (r1, s1) := Register([], "alice", "alice@example.com", "secret-a", "teacher", idA, salt, t0);
    var (r2, s2) := Register(s1, "bob", "bob@example.com", "secret-b", "student", idB, salt, t0);
    TwoRegistrations(idA, idB, salt, t0);
    StudentSavesTwoAttempts(s2, quiz.id, salt, t1, t2);
    var (r3, s3) := SaveAttempt(s2, idB, ToHex(quiz.id), Some(80), t1, salt);
    var (r4, s4) := SaveAttempt(s3, idB, ToHex(quiz.id), Some(60), t2, salt);
    assert s4 == s2[1 := s2[1].(attempts := [Attempt(quiz.id, 80, t1), Attempt(quiz.id, 60, t2)])];
    TwoAttemptsOutcome(s4, quiz, t1, t2);
    StudentRefusedByTeacherRoute(token, s4);
  }

  /** The two registrations of the scenario succeed and leave a valid store
      holding the teacher and then the student, neither with attempts. */
  lemma {:induction false} TwoRegistrations(idA: ObjectId, idB: ObjectId, salt: Salt, t0: Time)
    requires idA != idB
    ensures var (r1, s1) := Register([], "alice", "alice@example.com", "secret-a", "teacher", idA, salt, t0);
      var (r2, s2) := Register(s1, "bob", "bob@example.com", "secret-b", "student", idB, salt, t0);
      && r1 == Registered && r2 == Registered && UsersValid(s2) && |s2| == 2
      && s2[0].id == idA && s2[0].role == Teacher && s2[0].attempts == []
      && s2[1].id == idB && s2[1].role == Student && s2[1].attempts == [] && s2[1].username == "bob"
  {
    TeacherRegisters(idA, salt, t0);
    var s1 := Register([], "alice", "alice@example.com", "secret-a", "teacher", idA, salt, t0).1;
    StudentRegisters(s1, idB, salt, t0);
  }

  /** On an empty store the teacher's registration succeeds. */
  lemma {:induction false} TeacherRegisters(idA: ObjectId, salt: Salt, t0: Time)
    ensures var (r1, s1) := Register([], "alice", "alice@example.com", "secret-a", "teacher", idA, salt, t0);
      && r1 == Registered && UsersValid(s1) && UniqueEmails(s1) && |s1| == 1
      && s1[0].id == idA && s1[0].role == Teacher && s1[0].attempts == []
      && s1[0].email == "alice@example.com" && s1[0].username == "alice"
  {
    RegisterSucceedsIff([], "alice", "alice@example.com", "secret-a", "teacher", idA, salt, t0);
    RegisterKeepsUsersValid([], "alice", "alice@example.com", "secret-a", "teacher", idA, salt, t0);
  }

  /** With only the teacher stored, the student's registration succeeds and
      is appended after the teacher. */
  lemma {:induction false} StudentRegisters(s1: seq<User>, idB: ObjectId, salt: Salt, t0: Time)
    requires UsersValid(s1) && UniqueEmails(s1) && |s1| == 1 && s1[0].id != idB
    requires s1[0].email == "alice@example.com" && s1[0].username == "alice"
    ensures var (r2, s2) := Register(s1, "bob", "bob@example.com", "secret-b", "student", idB, salt, t0);
      && r2 == Registered && UsersValid(s2) && |s2| == 2 && s2[0] == s1[0]
      && s2[1].id == idB && s2[1].role == Student && s2[1].attempts == [] && s2[1].username == "bob"
  {
    assert "alice@example.com" != "bob@example.com" && "alice" != "bob";
    RegisterSucceedsIff(s1, "bob", "bob@example.com", "secret-b", "student", idB, salt, t0);
    RegisterKeepsUsersValid(s1, "bob", "bob@example.com", "secret-b", "student", idB, salt, t0);
  }

  /** The student's two submissions for the quiz are both saved, each
      appended to the student's attempts, and nothing else changes. */
  lemma {:induction false} StudentSavesTwoAttempts(s2: seq<User>, quizId: ObjectId, salt: Salt, t1: Time, t2: Time)
    requires UsersValid(s2) && |s2| == 2 && s2[1].attempts == []
    ensures var (r3, s3) := SaveAttempt(s2, s2[1].id, ToHex(quizId), Some(80), t1, salt);
      var (r4, s4) := SaveAttempt(s3, s2[1].id, ToHex(quizId), Some(60), t2, salt);
      && r3 == AttemptSaved && r4 == AttemptSaved
      && s4 == s2[1 := s2[1].(attempts := [Attempt(quizId, 80, t1), Attempt(quizId, 60, t2)])]
  {
    var a1, a2 := Attempt(quizId, 80, t1), Attempt(quizId, 60, t2);
    CastToHex(quizId);
    SaveAttemptEffect(s2, 1, ToHex(quizId), quizId, 80, t1, salt);
    SaveAttemptKeepsUsersValid(s2, 1, ToHex(quizId), quizId, 80, t1, salt);
    var s3 := s2[1 := s2[1].(attempts := [a1])];
    assert s2[1].attempts + [a1] == [a1];
    assert SaveAttempt(s2, s2[1].id, ToHex(quizId), Some(80), t1, salt) == (AttemptSaved, s3);
    assert s3[1].id == s2[1].id && s3[1].attempts + [a2] == [a1, a2];
    SaveAttemptEffect(s3, 1, ToHex(quizId), quizId, 60, t2, salt);
  }

  /** The student's token is refused on a teacher-only route with 403. */
  lemma {:induction false} StudentRefusedByTeacherRoute(token: string, users: seq<User>)
    requires token != "" && |users| == 2 && users[0].id != users[1].id && users[1].role == Student
    ensures TeacherRoute(token, Verified(ToHex(users[1].id)), users) == RoleRefused(AccessDenied(Teacher, Student))
  {
    TokenForUserAuthenticates(token, users, 1);
  }

  /** With the teacher holding no attempts and the student holding the two,
      the quiz has 2 attempts averaging 70.0 and its entry lists 80 then 60. */
  lemma {:induction false} TwoAttemptsOutcome(users: seq<User>, quiz: Quiz, t1: Time, t2: Time)
    requires |users| == 2 && users[0].attempts == [] && users[1].username == "bob"
    requires users[1].attempts == [Attempt(quiz.id, 80, t1), Attempt(quiz.id, 60, t2)]
    ensures CalculateStats(users, quiz.id) == Stats(2, 700)
    ensures Leaderboard.Leaderboard([quiz], users)
         == [Leaderboard.Entry(quiz.id, quiz.title, quiz.category, [Row("bob", 80), Row("bob", 60)], 2, 700)]
  {
    TwoAttemptsCollected(users, quiz, t1, t2);
    assert AverageTenths(140, 2) == 700;
    var rows := [Row("bob", 80), Row("bob", 60)];
    assert SortByScore(rows) == rows;
    assert Leaderboard.EntryFor(users, quiz)
        == Leaderboard.Entry(quiz.id, quiz.title, quiz.category, rows, 2, 700);
    Leaderboard.LeaderboardEntries([quiz], users, 0);
  }

  /** The scan of the scenario's store finds the student's two attempts. */
  lemma {:induction false} TwoAttemptsCollected(users: seq<User>, quiz: Quiz, t1: Time, t2: Time)
    requires |users| == 2 && users[0].attempts == [] && users[1].username == "bob"
    requires users[1].attempts == [Attempt(quiz.id, 80, t1), Attempt(quiz.id, 60, t2)]
    ensures CollectAttempts(users, quiz.id) == users[1].attempts
    ensures TotalScore(CollectAttempts(users, quiz.id)) == 140
    ensures Leaderboard.RowsFor(users, quiz.id) == [Row("bob", 80), Row("bob", 60)]
    ensures Leaderboard.RowTotal(Leaderboard.RowsFor(users, quiz.id)) == 140
  {
    TwoAttemptsAtQuiz(users[1].attempts, quiz.id, t1, t2);
    OnlySecondUserCounts(users, quiz.id);
    var rows := [Row("bob", 80), Row("bob", 60)];
    assert rows[1..][1..] == [];
  }

  /** The student's two attempts: both at the quiz, 140 points in all. */
  lemma {:induction false} TwoAttemptsAtQuiz(mine: seq<Attempt>, quizId: ObjectId, t1: Time, t2: Time)
    requires mine == [Attempt(quizId, 80, t1), Attempt(quizId, 60, t2)]
    ensures AttemptsAt(mine, quizId) == mine && TotalScore(mine) == 140
    ensures Leaderboard.RowsOf("bob", mine) == [Row("bob", 80), Row("bob", 60)]
  {
    var rest := [Attempt(quizId, 60, t2)];
    assert mine[1..] == rest && rest[1..] == [];
    assert AttemptsAt(rest, quizId) == rest;
    assert TotalScore(rest) == 60;
    assert Leaderboard.RowsOf("bob", rest) == [Row("bob", 60)];
  }

  /** With two users of whom only the second attempted the quiz, the scan
      yields the second user's attempts and rows. */
  lemma {:induction false} OnlySecondUserCounts(users: seq<User>, quizId: ObjectId)
    requires |users| == 2 && users[0].attempts == []
    requires AttemptsAt(users[1].attempts, quizId) == users[1].attempts
    ensures CollectAttempts(users, quizId) == users[1].attempts
    ensures Leaderboard.RowsFor(users, quizId) == Leaderboard.RowsOf(users[1].username, users[1].attempts)
  {
    var rest := users[1..];
    assert rest[0] == users[1] && rest[1..] == [];
    assert CollectAttempts(rest, quizId) == users[1].attempts + CollectAttempts([], quizId);
    assert Leaderboard.RowsFor(rest, quizId)
        == Leaderboard.RowsOf(users[1].username, users[1].attempts) + Leaderboard.RowsFor([], quizId);
  }
}
