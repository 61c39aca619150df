/** The quiz record of model/quizModel.js and its `calculateStats` method
    (model/quizModel.js:36-54): scan the users, keep each user's attempts at
    this quiz, flatten them, and report their number and the average score
    rounded to one decimal, with 0 for a quiz nobody attempted. */
module QuizModel {
  import opened Wrappers
  import opened ObjectIds
  import opened UserModel

  /** One question (model/quizModel.js:16-20). */
  datatype Question = Question(question: string, options: seq<string>, correctAnswer: int)

  /** A quiz (model/quizModel.js:3-25). `title`, `description` and `category`
      are required. */
  datatype Quiz = Quiz(id: ObjectId, title: string, description: string, category: string, questions: seq<Question>)

  /** The `required` validators of the quiz schema: Mongoose refuses an empty
      string. */
  predicate QuizFieldsPresent(q: Quiz)
    ensures QuizFieldsPresent(q) <==> "" !in [q.title, q.description, q.category]
  {
    q.title != "" && q.description != "" && q.category != ""
  }

  /** `attempts.filter(a => a.quizId.toString() === quizId.toString())`: the
      attempts at one quiz, in their order. */
  function AttemptsAt(attempts: seq<Attempt>, quizId: ObjectId): (r: seq<Attempt>)
    ensures |r| <= |attempts|
    ensures forall a :: a in r ==> a.quizId == quizId && a in attempts
  {
    if attempts == [] then []
    else if attempts[0].quizId == quizId then [attempts[0]] + AttemptsAt(attempts[1..], quizId)
    else AttemptsAt(attempts[1..], quizId)
  }

  /** Every user's attempts, user after user: the reference population that
      the per-quiz scan selects from. */
  function AllAttempts(users: seq<User>): (r: seq<Attempt>)
    ensures forall a :: a in r <==> exists i :: 0 <= i < |users| && a in users[i].attempts
  {
    assert forall i :: 0 < i < |users| ==> users[1..][i - 1] == users[i];
    if users == [] then [] else users[0].attempts + AllAttempts(users[1..])
  }

  /** The `reduce`/`concat`/`filter` pipeline (model/quizModel.js:41-45):
      each user's attempts at the quiz, concatenated in user order. */
  function CollectAttempts(users: seq<User>, quizId: ObjectId): (r: seq<Attempt>)
    ensures |r| <= |AllAttempts(users)|
    ensures forall a :: a in r ==> a.quizId == quizId && a in AllAttempts(users)
  {
    if users == [] then [] else AttemptsAt(users[0].attempts, quizId) + CollectAttempts(users[1..], quizId)
  }

  /** `attempts.reduce((sum, a) => sum + a.score, 0)`. */
  function TotalScore(attempts: seq<Attempt>): (r: int)
    ensures (forall a :: a in attempts ==> a.score >= 0) ==> r >= 0
  {
    if attempts == [] then 0 else attempts[0].score + TotalScore(attempts[1..])
  }

  function Abs(x: int): nat {
    if x < 0 then -x else x
  }

  /** `+(total / count).toFixed(1)` for `count > 0`, as an integer number of
      tenths: the nearest tenth to the exact quotient, halves rounded away
      from zero. */
  function AverageTenths(total: int, count: nat): (r: int)
    requires count > 0
    ensures 2 * Abs(10 * total - count * r) <= count
    ensures 2 * Abs(10 * total - count * r) == count ==> Abs(count * r) > Abs(10 * total)
  {
    if total >= 0 then RoundHalfUp(10 * total, count) else -(RoundHalfUp(-10 * total, count) as int)
  }

  /** The integer nearest to `n / d`, halves rounded up. */
  function RoundHalfUp(n: nat, d: nat): (r: nat)
    requires d > 0
    ensures 2 * Abs(n - d * r) <= d
    ensures 2 * Abs(n - d * r) == d ==> d * r > n
  {
    var r := (2 * n + d) / (2 * d);
    DivBounds(2 * n + d, 2 * d, r);
    r
  }

  /** The quotient of floor division brackets the dividend. */
  lemma DivBounds(n: nat, d: nat, q: nat)
    requires d > 0 && q == n / d
    ensures d * q <= n < d * q + d
  {
  }

  /** What `calculateStats` returns: the number of attempts and the average
      score in tenths. */
  datatype Stats = Stats(attempts: nat, averageTenths: int)

  /** `calculateStats` (model/quizModel.js:36-54). The average is 0 when there
      are no attempts, so nothing is divided by zero. */
  function CalculateStats(users: seq<User>, quizId: ObjectId): (s: Stats)
    ensures s.attempts == |CollectAttempts(users, quizId)|
    ensures s.attempts == 0 ==> s.averageTenths == 0
    ensures s.attempts > 0 ==>
      2 * Abs(10 * TotalScore(CollectAttempts(users, quizId)) - s.attempts * s.averageTenths) <= s.attempts
    ensures (s.attempts > 0
             && 2 * Abs(10 * TotalScore(CollectAttempts(users, quizId)) - s.attempts * s.averageTenths) == s.attempts) ==>
      Abs(s.attempts * s.averageTenths) > Abs(10 * TotalScore(CollectAttempts(users, quizId)))
  {
    var attempts := CollectAttempts(users, quizId);
    var n := |attempts|;
    Stats(n, if n == 0 then 0 else AverageTenths(TotalScore(attempts), n))
  }

  // ---------------------------------------------------------------------
  // What the scan selects

  /** Filtering distributes over concatenation. */
  lemma {:induction false} AttemptsAtAppend(xs: seq<Attempt>, ys: seq<Attempt>, quizId: ObjectId)
    ensures AttemptsAt(xs + ys, quizId) == AttemptsAt(xs, quizId) + AttemptsAt(ys, quizId)
  {
    if xs == [] {
      assert xs + ys == ys;
    } else {
      assert (xs + ys)[1..] == xs[1..] + ys;
      AttemptsAtAppend(xs[1..], ys, quizId);
    }
  }

  /** Filtering each user's attempts and then concatenating is filtering the
      whole population: the scan reads every matching attempt of every user. */
  lemma {:induction false} CollectIsFilterOfAll(users: seq<User>, quizId: ObjectId)
    ensures CollectAttempts(users, quizId) == AttemptsAt(AllAttempts(users), quizId)
  {
    if users != [] {
      CollectIsFilterOfAll(users[1..], quizId);
      AttemptsAtAppend(users[0].attempts, AllAttempts(users[1..]), quizId);
    }
  }

  /** An attempt occurs in the filtered list as often as in the input when
      it is at the quiz, and not at all otherwise. */
  lemma {:induction false} AttemptsAtMultiplicity(xs: seq<Attempt>, quizId: ObjectId, a: Attempt)
    ensures multiset(AttemptsAt(xs, quizId))[a] == if a.quizId == quizId then multiset(xs)[a] else 0
  {
    if xs != [] {
      AttemptsAtMultiplicity(xs[1..], quizId, a);
      assert xs == [xs[0]] + xs[1..];
    }
  }

  /** The count is exactly the number of attempts, across all users, at this
      quiz; attempts at other quizzes contribute nothing to the list, hence
      nothing to the count or the sum. */
  lemma CollectMultiplicity(users: seq<User>, quizId: ObjectId, a: Attempt)
    ensures multiset(CollectAttempts(users, quizId))[a]
         == if a.quizId == quizId then multiset(AllAttempts(users))[a] else 0
  {
    CollectIsFilterOfAll(users, quizId);
    AttemptsAtMultiplicity(AllAttempts(users), quizId, a);
  }

  /** With no attempt at the quiz anywhere, the result is zero attempts and
      average 0. */
  lemma {:induction false} NoAttemptsZeroStats(users: seq<User>, quizId: ObjectId)
    requires forall a :: a in AllAttempts(users) ==> a.quizId != quizId
    ensures CalculateStats(users, quizId) == Stats(0, 0)
  {
    CollectIsFilterOfAll(users, quizId);
  }

  /** Mongoose's prefilter `{'attempts.quizId': id}` (model/quizModel.js:37-39)
      keeps only users with an attempt at the quiz. */
  function UsersWithAttemptAt(users: seq<User>, quizId: ObjectId): (r: seq<User>)
    ensures |r| <= |users|
    ensures forall u :: u in r <==> u in users && AttemptsAt(u.attempts, quizId) != []
  {
    if users == [] then []
    else if AttemptsAt(users[0].attempts, quizId) != [] then [users[0]] + UsersWithAttemptAt(users[1..], quizId)
    else UsersWithAttemptAt(users[1..], quizId)
  }

  /** The prefilter changes nothing: the users it drops contribute no
      attempts, so scanning all users gives the same list. */
  lemma {:induction false} PrefilterIrrelevant(users: seq<User>, quizId: ObjectId)
    ensures CollectAttempts(UsersWithAttemptAt(users, quizId), quizId) == CollectAttempts(users, quizId)
  {
    if users != [] {
      PrefilterIrrelevant(users[1..], quizId);
    }
  }

  // ---------------------------------------------------------------------
  // Order does not matter

  lemma {:induction false} TotalScoreAppend(xs: seq<Attempt>, ys: seq<Attempt>)
    ensures TotalScore(xs + ys) == TotalScore(xs) + TotalScore(ys)
  {
    if xs == [] {
      assert xs + ys == ys;
    } else {
      assert (xs + ys)[1..] == xs[1..] + ys;
      TotalScoreAppend(xs[1..], ys);
    }
  }

  /** The sum is a fold of a commutative operation: any reordering of the
      same attempts gives the same total. */
  lemma {:induction false} TotalScorePermutation(xs: seq<Attempt>, ys: seq<Attempt>)
    requires multiset(xs) == multiset(ys)
    ensures TotalScore(xs) == TotalScore(ys)
    decreases |xs|
  {
    if xs != [] {
      var k := MatchFirst(xs, ys);
      TotalScorePermutation(xs[1..], ys[..k] + ys[k + 1..]);
      TotalScoreRemove(ys, k);
    }
  }

  /** Taking out the attempt at `k` takes its score out of the total. */
  lemma {:induction false} TotalScoreRemove(ys: seq<Attempt>, k: nat)
    requires k < |ys|
    ensures TotalScore(ys) == ys[k].score + TotalScore(ys[..k] + ys[k + 1..])
  {
    assert ys == ys[..k] + [ys[k]] + ys[k + 1..];
    TotalScoreAppend(ys[..k] + [ys[k]], ys[k + 1..]);
    TotalScoreAppend(ys[..k], [ys[k]]);
    TotalScoreAppend(ys[..k], ys[k + 1..]);
  }

  /** Filtering maps equal multisets to equal multisets. */
  lemma AttemptsAtPermutation(xs: seq<Attempt>, ys: seq<Attempt>, quizId: ObjectId)
    requires multiset(xs) == multiset(ys)
    ensures multiset(AttemptsAt(xs, quizId)) == multiset(AttemptsAt(ys, quizId))
  {
    forall a ensures multiset(AttemptsAt(xs, quizId))[a] == multiset(AttemptsAt(ys, quizId))[a] {
      AttemptsAtMultiplicity(xs, quizId, a);
      AttemptsAtMultiplicity(ys, quizId, a);
    }
  }

  /** The statistics depend only on which attempts exist, not on the order of
      the users or of any user's attempts. */
  lemma StatsDependOnlyOnAttempts(users1: seq<User>, users2: seq<User>, quizId: ObjectId)
    requires multiset(AllAttempts(users1)) == multiset(AllAttempts(users2))
    ensures CalculateStats(users1, quizId) == CalculateStats(users2, quizId)
  {
    CollectIsFilterOfAll(users1, quizId);
    CollectIsFilterOfAll(users2, quizId);
    var c1, c2 := CollectAttempts(users1, quizId), CollectAttempts(users2, quizId);
    AttemptsAtPermutation(AllAttempts(users1), AllAttempts(users2), quizId);
    assert |c1| == |multiset(c1)| == |multiset(c2)| == |c2|;
    TotalScorePermutation(c1, c2);
  }

  lemma {:induction false} AllAttemptsAppend(us: seq<User>, vs: seq<User>)
    ensures AllAttempts(us + vs) == AllAttempts(us) + AllAttempts(vs)
  {
    if us == [] {
      assert us + vs == vs;
    } else {
      assert (us + vs)[1..] == us[1..] + vs;
      AllAttemptsAppend(us[1..], vs);
    }
  }

  /** Taking out the element at `k` takes it out of the multiset. */
  lemma MultisetRemove<T>(s: seq<T>, k: nat)
    requires k < |s|
    ensures multiset(s[..k] + s[k + 1..]) == multiset(s) - multiset{s[k]}
  {
    assert s == s[..k] + [s[k]] + s[k + 1..];
  }

  /** Two orderings of the same elements: the first element of one sits at
      some index `k` of the other, and the remainders are again orderings of
      the same elements. */
  lemma MatchFirst<T>(xs: seq<T>, ys: seq<T>) returns (k: nat)
    requires xs != [] && multiset(xs) == multiset(ys)
    ensures k < |ys| && ys[k] == xs[0]
    ensures multiset(xs[1..]) == multiset(ys[..k] + ys[k + 1..])
  {
    assert xs[0] in multiset(ys);
    k :| 0 <= k < |ys| && ys[k] == xs[0];
    MultisetRemove(ys, k);
    MultisetRemove(xs, 0);
    assert xs[..0] + xs[1..] == xs[1..];
  }

  /** Taking out the user at `k` takes out that user's block of attempts. */
  lemma {:induction false} AllAttemptsRemove(vs: seq<User>, k: nat)
    requires k < |vs|
    ensures multiset(AllAttempts(vs)) == multiset(vs[k].attempts) + multiset(AllAttempts(vs[..k] + vs[k + 1..]))
  {
    assert vs == vs[..k] + [vs[k]] + vs[k + 1..];
    AllAttemptsAppend(vs[..k] + [vs[k]], vs[k + 1..]);
    AllAttemptsAppend(vs[..k], [vs[k]]);
    AllAttemptsAppend(vs[..k], vs[k + 1..]);
    assert AllAttempts([vs[k]]) == vs[k].attempts;
  }

  /** Reordering the users keeps the population of attempts. */
  lemma {:induction false} AllAttemptsPermutation(us: seq<User>, vs: seq<User>)
    requires multiset(us) == multiset(vs)
    ensures multiset(AllAttempts(us)) == multiset(AllAttempts(vs))
    decreases |us|
  {
    if us != [] {
      var k := MatchFirst(us, vs);
      AllAttemptsPermutation(us[1..], vs[..k] + vs[k + 1..]);
      AllAttemptsRemove(vs, k);
      assert AllAttempts(us) == us[0].attempts + AllAttempts(us[1..]);
    }
  }

  /** Storing the users in another order leaves every quiz's statistics
      unchanged. */
  lemma ReorderedUsersSameStats(users1: seq<User>, users2: seq<User>, quizId: ObjectId)
    requires multiset(users1) == multiset(users2)
    ensures CalculateStats(users1, quizId) == CalculateStats(users2, quizId)
  {
    AllAttemptsPermutation(users1, users2);
    StatsDependOnlyOnAttempts(users1, users2, quizId);
  }

  /** Replacing one user's record replaces that user's block of attempts
      in the population and leaves the blocks around it. */
  lemma AllAttemptsReplace(users: seq<User>, i: nat, u: User)
    requires i < |users|
    ensures AllAttempts(users) == AllAttempts(users[..i]) + users[i].attempts + AllAttempts(users[i + 1..])
    ensures AllAttempts(users[i := u]) == AllAttempts(users[..i]) + u.attempts + AllAttempts(users[i + 1..])
  {
    var pre, post := users[..i], users[i + 1..];
    assert users == pre + [users[i]] + post;
    assert users[i := u] == pre + [u] + post;
    AllAttemptsAppend(pre + [users[i]], post);
    AllAttemptsAppend(pre, [users[i]]);
    AllAttemptsAppend(pre + [u], post);
    AllAttemptsAppend(pre, [u]);
    assert AllAttempts([u]) == u.attempts;
    assert AllAttempts([users[i]]) == users[i].attempts;
  }

  /** Reordering one user's attempts leaves every quiz's statistics
      unchanged. */
  lemma ReorderedAttemptsSameStats(users: seq<User>, i: nat, reordered: seq<Attempt>, quizId: ObjectId)
    requires i < |users| && multiset(reordered) == multiset(users[i].attempts)
    ensures CalculateStats(users[i := users[i].(attempts := reordered)], quizId) == CalculateStats(users, quizId)
  {
    AllAttemptsReplace(users, i, users[i].(attempts := reordered));
    StatsDependOnlyOnAttempts(users[i := users[i].(attempts := reordered)], users, quizId);
  }

  /** Appending one attempt at the quiz to any user's record raises the count
      by one and the total by its score; at another quiz, changes nothing. */
  lemma AppendedAttemptStats(users: seq<User>, i: nat, a: Attempt, quizId: ObjectId)
    requires i < |users|
    ensures var after := users[i := users[i].(attempts := users[i].attempts + [a])];
      && |CollectAttempts(after, quizId)| == |CollectAttempts(users, quizId)| + (if a.quizId == quizId then 1 else 0)
      && TotalScore(CollectAttempts(after, quizId))
         == TotalScore(CollectAttempts(users, quizId)) + (if a.quizId == quizId then a.score else 0)
  {
    var after := users[i := users[i].(attempts := users[i].attempts + [a])];
    AllAttemptsReplace(users, i, after[i]);
    var pre, post := AllAttempts(users[..i]), AllAttempts(users[i + 1..]);
    assert multiset(AllAttempts(after)) == multiset(pre) + multiset(users[i].attempts) + multiset([a]) + multiset(post);
    assert multiset(AllAttempts(after)) == multiset(AllAttempts(users) + [a]);
    CollectIsFilterOfAll(after, quizId);
    CollectIsFilterOfAll(users, quizId);
    AttemptsAtPermutation(AllAttempts(after), AllAttempts(users) + [a], quizId);
    AttemptsAtAppend(AllAttempts(users), [a], quizId);
    var c, c' := CollectAttempts(users, quizId), CollectAttempts(after, quizId);
    var extra := AttemptsAt([a], quizId);
    assert extra == if a.quizId == quizId then [a] else [];
    assert |c'| == |multiset(c')| == |multiset(c + extra)| == |c + extra|;
    TotalScorePermutation(c', c + extra);
    TotalScoreAppend(c, extra);
  }
}
