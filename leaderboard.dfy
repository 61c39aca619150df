/** The leaderboard handler (routes/index.js:307-350): for every quiz, in
    quiz order, flatten the matching attempts of all users into
    `(username, score)` rows, keep the five best after a stable descending
    sort, and report the total count and the average as `calculateStats`
    does. */
module Leaderboard {
  import opened ObjectIds
  import opened UserModel
  import opened QuizModel
  import opened Ranking

  /** `slice(0, 5)`. */
  const TopCount: nat := 5

  /** `attempts.map(a => ({username, score: a.score}))` for one user. */
  function RowsOf(username: string, attempts: seq<Attempt>): (r: seq<Row>)
    ensures |r| == |attempts|
  {
    if attempts == [] then [] else [Row(username, attempts[0].score)] + RowsOf(username, attempts[1..])
  }

  /** The `reduce`/`concat`/`filter`/`map` pipeline (routes/index.js:316-326). */
  function RowsFor(users: seq<User>, quizId: ObjectId): (r: seq<Row>)
    ensures |r| == |CollectAttempts(users, quizId)|
  {
    if users == [] then []
    else RowsOf(users[0].username, AttemptsAt(users[0].attempts, quizId)) + RowsFor(users[1..], quizId)
  }

  /** `attempts.reduce((sum, a) => sum + a.score, 0)` over rows. */
  function RowTotal(rows: seq<Row>): (t: int)
    ensures (forall x :: x in rows ==> x.score >= 0) ==> t >= 0
  {
    if rows == [] then 0 else rows[0].score + RowTotal(rows[1..])
  }

  /** One element of the response (routes/index.js:333-342). The rows carry
      no timestamp: the handler reads `attempt.timestamp`, a path the schema
      does not have. */
  datatype Entry = Entry(
    quizId: ObjectId,
    title: string,
    category: string,
    attempts: seq<Row>,
    totalAttempts: nat,
    averageTenths: int)

  /** The entry for one quiz. */
  function EntryFor(users: seq<User>, quiz: Quiz): (e: Entry)
    ensures e.quizId == quiz.id && e.title == quiz.title && e.category == quiz.category
    ensures e.totalAttempts == |CollectAttempts(users, quiz.id)|
    ensures |e.attempts| == if e.totalAttempts < TopCount then e.totalAttempts else TopCount
    ensures e.totalAttempts == 0 ==> e.averageTenths == 0
  {
    var rows := RowsFor(users, quiz.id);
    var n := |rows|;
    Entry(quiz.id, quiz.title, quiz.category,
          Take(SortByScore(rows), TopCount),
          n,
          if n == 0 then 0 else AverageTenths(RowTotal(rows), n))
  }

  /** The whole response: exactly one entry per quiz, in quiz order, quizzes
      without attempts included. */
  function Leaderboard(quizzes: seq<Quiz>, users: seq<User>): (board: seq<Entry>)
    ensures |board| == |quizzes|
    ensures forall i :: 0 <= i < |quizzes| ==>
      board[i].quizId == quizzes[i].id && board[i].title == quizzes[i].title
      && board[i].category == quizzes[i].category
      && |board[i].attempts| <= TopCount
  {
    if quizzes == [] then []
    else
      var e := EntryFor(users, quizzes[0]);
      assert |e.attempts| <= TopCount;
      [e] + Leaderboard(quizzes[1..], users)
  }

  /** Each entry of the response is that quiz's entry. */
  lemma {:induction false} LeaderboardEntries(quizzes: seq<Quiz>, users: seq<User>, i: nat)
    requires i < |quizzes|
    ensures Leaderboard(quizzes, users)[i] == EntryFor(users, quizzes[i])
  {
    if i > 0 {
      LeaderboardEntries(quizzes[1..], users, i - 1);
    }
  }

  // ---------------------------------------------------------------------
  // The rows are the matching attempts

  lemma {:induction false} RowsOfFacts(username: string, attempts: seq<Attempt>)
    ensures RowTotal(RowsOf(username, attempts)) == TotalScore(attempts)
    ensures forall x :: x in RowsOf(username, attempts) <==>
      exists a :: a in attempts && x == Row(username, a.score)
  {
    if attempts != [] {
      RowsOfFacts(username, attempts[1..]);
      assert attempts == [attempts[0]] + attempts[1..];
    }
  }

  lemma {:induction false} RowTotalAppend(xs: seq<Row>, ys: seq<Row>)
    ensures RowTotal(xs + ys) == RowTotal(xs) + RowTotal(ys)
  {
    if xs == [] {
      assert xs + ys == ys;
    } else {
      assert (xs + ys)[1..] == xs[1..] + ys;
      RowTotalAppend(xs[1..], ys);
    }
  }

  /** Taking out the row at `k` takes its score out of the total. */
  lemma {:induction false} RowTotalRemove(rows: seq<Row>, k: nat)
    requires k < |rows|
    ensures RowTotal(rows) == rows[k].score + RowTotal(rows[..k] + rows[k + 1..])
  {
    assert rows == rows[..k] + [rows[k]] + rows[k + 1..];
    RowTotalAppend(rows[..k] + [rows[k]], rows[k + 1..]);
    RowTotalAppend(rows[..k], [rows[k]]);
    RowTotalAppend(rows[..k], rows[k + 1..]);
  }

  /** Any reordering of the same rows has the same total. */
  lemma {:induction false} RowTotalPermutation(xs: seq<Row>, ys: seq<Row>)
    requires multiset(xs) == multiset(ys)
    ensures RowTotal(xs) == RowTotal(ys)
    decreases |xs|
  {
    if xs != [] {
      var k := MatchFirst(xs, ys);
      RowTotalPermutation(xs[1..], ys[..k] + ys[k + 1..]);
      RowTotalRemove(ys, k);
    }
  }

  /** `sort` works in place (routes/index.js:329-330), so the average at
      line 340 sums the sorted rows; the total is the same as the unsorted
      rows' total that `EntryFor` uses. */
  lemma SortedRowTotal(rows: seq<Row>)
    ensures RowTotal(SortByScore(rows)) == RowTotal(rows)
  {
    SortPermutation(rows);
    RowTotalPermutation(SortByScore(rows), rows);
  }

  /** The rows are as many as the attempts `calculateStats` collects, and
      their scores add up to the same total. */
  lemma {:induction false} RowsForMatchesCollect(users: seq<User>, quizId: ObjectId)
    ensures |RowsFor(users, quizId)| == |CollectAttempts(users, quizId)|
    ensures RowTotal(RowsFor(users, quizId)) == TotalScore(CollectAttempts(users, quizId))
  {
    if users != [] {
      var mine := AttemptsAt(users[0].attempts, quizId);
      RowsForMatchesCollect(users[1..], quizId);
      RowsOfFacts(users[0].username, mine);
      RowTotalAppend(RowsOf(users[0].username, mine), RowsFor(users[1..], quizId));
      TotalScoreAppend(mine, CollectAttempts(users[1..], quizId));
    }
  }

  /** Some user has an attempt at the quiz that `x` records: `x` names that
      user and carries that attempt's score. */
  ghost predicate RecordsAttempt(users: seq<User>, quizId: ObjectId, x: Row) {
    exists i, a :: 0 <= i < |users| && a in users[i].attempts && a.quizId == quizId
      && x == Row(users[i].username, a.score)
  }

  /** The prefilter `{'attempts.quizId': quiz._id}` of the user query
      (routes/index.js:312-314) changes nothing: the users it drops
      contribute no rows. */
  lemma {:induction false} RowsPrefilterIrrelevant(users: seq<User>, quizId: ObjectId)
    ensures RowsFor(UsersWithAttemptAt(users, quizId), quizId) == RowsFor(users, quizId)
  {
    if users != [] {
      RowsPrefilterIrrelevant(users[1..], quizId);
    }
  }

  /** A row is in the list exactly when it records some user's attempt at
      the quiz. */
  lemma {:induction false} RowsForMembers(users: seq<User>, quizId: ObjectId, x: Row)
    ensures x in RowsFor(users, quizId) <==> RecordsAttempt(users, quizId, x)
  {
    if users != [] {
      RowsForMembers(users[1..], quizId, x);
      var mine := AttemptsAt(users[0].attempts, quizId);
      RowsOfFacts(users[0].username, mine);
      AttemptsAtMembers(users[0].attempts, quizId);
      if RecordsAttempt(users, quizId, x) {
        var i, a :| 0 <= i < |users| && a in users[i].attempts && a.quizId == quizId
          && x == Row(users[i].username, a.score);
        if i > 0 {
          assert users[1..][i - 1] == users[i];
        }
      }
      if x in RowsFor(users[1..], quizId) {
        var i, a :| 0 <= i < |users[1..]| && a in users[1..][i].attempts && a.quizId == quizId
          && x == Row(users[1..][i].username, a.score);
        assert users[i + 1] == users[1..][i];
      }
    }
  }

  /** The filter keeps exactly the attempts at the quiz. */
  lemma {:induction false} AttemptsAtMembers(attempts: seq<Attempt>, quizId: ObjectId)
    ensures forall a :: a in AttemptsAt(attempts, quizId) <==> a in attempts && a.quizId == quizId
  {
    if attempts != [] {
      AttemptsAtMembers(attempts[1..], quizId);
      assert attempts == [attempts[0]] + attempts[1..];
    }
  }

  // ---------------------------------------------------------------------
  // Properties of one entry

  /** The count and the average agree with what `calculateStats` reports
      for the same quiz. */
  lemma EntryAgreesWithStats(users: seq<User>, quiz: Quiz)
    ensures EntryFor(users, quiz).totalAttempts == CalculateStats(users, quiz.id).attempts
    ensures EntryFor(users, quiz).averageTenths == CalculateStats(users, quiz.id).averageTenths
  {
    RowsForMatchesCollect(users, quiz.id);
  }

  /** The top list holds `min(5, totalAttempts)` rows, sorted by descending
      score, and is the front of a stable ordering of all the quiz's rows:
      every row left out scores no more than every row kept. */
  lemma EntryTopList(users: seq<User>, quiz: Quiz)
    ensures var e := EntryFor(users, quiz);
      var rows := RowsFor(users, quiz.id);
      var sorted := SortByScore(rows);
      && |e.attempts| == (if e.totalAttempts < TopCount then e.totalAttempts else TopCount)
      && |e.attempts| <= TopCount
      && e.attempts == sorted[..|e.attempts|]
      && multiset(sorted) == multiset(rows)
      && SortedByScore(sorted)
      && SameTieOrder(sorted, rows)
      && (forall i, j :: 0 <= i < |e.attempts| <= j < |sorted| ==> e.attempts[i].score >= sorted[j].score)
  {
    var rows := RowsFor(users, quiz.id);
    TopRows(rows, TopCount);
    SortSorted(rows);
    SortStable(rows);
  }

  /** A quiz nobody attempted still has its entry, with no rows, a count of
      0 and an average of 0. */
  lemma EmptyQuizEntry(users: seq<User>, quiz: Quiz)
    requires forall a :: a in AllAttempts(users) ==> a.quizId != quiz.id
    ensures EntryFor(users, quiz).attempts == []
    ensures EntryFor(users, quiz).totalAttempts == 0
    ensures EntryFor(users, quiz).averageTenths == 0
  {
    NoAttemptsZeroStats(users, quiz.id);
    RowsForMatchesCollect(users, quiz.id);
  }
}
