/** The ordering step of the leaderboard (routes/index.js:329-331):
    `rows.sort((a, b) => b.score - a.score).slice(0, 5)`. Since ECMAScript
    2019 (ECMA-262 10th edition, section 22.1.3.27) `Array.prototype.sort` is
    stable, so rows with equal scores keep the order they were flattened in.
    The sort is modelled as a stable insertion sort and characterised by
    what any stable sort with this comparator returns. */
module Ranking {

  /** One leaderboard row: who made the attempt and what it scored. */
  datatype Row = Row(username: string, score: int)

  /** Highest score first. */
  ghost predicate SortedByScore(rows: seq<Row>) {
    forall i, j :: 0 <= i < j < |rows| ==> rows[i].score >= rows[j].score
  }

  /** The rows with one score, in their order. */
  function WithScore(rows: seq<Row>, v: int): (r: seq<Row>)
    ensures forall x :: x in r ==> x in rows && x.score == v
  {
    if rows == [] then []
    else if rows[0].score == v then [rows[0]] + WithScore(rows[1..], v)
    else WithScore(rows[1..], v)
  }

  /** Rows of equal score appear in the same relative order in both. */
  ghost predicate SameTieOrder(xs: seq<Row>, ys: seq<Row>) {
    forall v :: WithScore(xs, v) == WithScore(ys, v)
  }

  /** Puts `x` in front of the first row that does not score more than it,
      so that it stays ahead of the equal rows that came after it. */
  function Insert(x: Row, sorted: seq<Row>): (r: seq<Row>)
    ensures |r| == |sorted| + 1
    ensures forall y :: y in r <==> y == x || y in sorted
  {
    if sorted == [] || sorted[0].score <= x.score then [x] + sorted
    else [sorted[0]] + Insert(x, sorted[1..])
  }

  /** The stable descending sort. */
  function SortByScore(rows: seq<Row>): (r: seq<Row>)
    ensures |r| == |rows|
    ensures forall y :: y in r <==> y in rows
  {
    if rows == [] then [] else Insert(rows[0], SortByScore(rows[1..]))
  }

  /** `slice(0, n)`. */
  function Take(rows: seq<Row>, n: nat): (r: seq<Row>)
    ensures |r| == if |rows| < n then |rows| else n
    ensures r == rows[..|r|]
  {
    if |rows| < n then rows else rows[..n]
  }

  // ---------------------------------------------------------------------
  // Insert

  lemma {:induction false} InsertPermutation(x: Row, s: seq<Row>)
    ensures multiset(Insert(x, s)) == multiset(s) + multiset{x}
  {
    if s != [] && s[0].score > x.score {
      InsertPermutation(x, s[1..]);
      assert s == [s[0]] + s[1..];
    }
  }

  lemma {:induction false} InsertSorted(x: Row, s: seq<Row>)
    requires SortedByScore(s)
    ensures SortedByScore(Insert(x, s))
  {
    if s != [] && s[0].score > x.score {
      InsertSorted(x, s[1..]);
      InsertPermutation(x, s[1..]);
      var r := Insert(x, s[1..]);
      forall y | y in r ensures y.score <= s[0].score {
        assert y in multiset(r);
      }
      assert forall i :: 0 < i < |[s[0]] + r| ==> ([s[0]] + r)[i] in r;
    }
  }

  lemma {:induction false} InsertTieOrder(x: Row, s: seq<Row>, v: int)
    ensures WithScore(Insert(x, s), v) == if x.score == v then [x] + WithScore(s, v) else WithScore(s, v)
  {
    if s != [] && s[0].score > x.score {
      InsertTieOrder(x, s[1..], v);
    }
  }

  // ---------------------------------------------------------------------
  // The sort

  /** The sorted rows are the input rows, each as often as before. */
  lemma {:induction false} SortPermutation(rows: seq<Row>)
    ensures multiset(SortByScore(rows)) == multiset(rows)
  {
    if rows != [] {
      SortPermutation(rows[1..]);
      InsertPermutation(rows[0], SortByScore(rows[1..]));
      assert rows == [rows[0]] + rows[1..];
    }
  }

  /** Highest score first. */
  lemma {:induction false} SortSorted(rows: seq<Row>)
    ensures SortedByScore(SortByScore(rows))
  {
    if rows != [] {
      SortSorted(rows[1..]);
      InsertSorted(rows[0], SortByScore(rows[1..]));
    }
  }

  /** Stable: rows of equal score keep their input order. */
  lemma {:induction false} SortStable(rows: seq<Row>)
    ensures SameTieOrder(SortByScore(rows), rows)
  {
    if rows != [] {
      SortStable(rows[1..]);
      forall v ensures WithScore(SortByScore(rows), v) == WithScore(rows, v) {
        InsertTieOrder(rows[0], SortByScore(rows[1..]), v);
      }
    }
  }

  lemma SortLength(rows: seq<Row>)
    ensures |SortByScore(rows)| == |rows|
  {
    SortPermutation(rows);
    assert |multiset(SortByScore(rows))| == |multiset(rows)|;
  }

  /** A row with a given score is in the filtered list exactly when it is in
      the input. */
  lemma {:induction false} WithScoreMembers(rows: seq<Row>, x: Row)
    ensures x in WithScore(rows, x.score) <==> x in rows
  {
    if rows != [] {
      WithScoreMembers(rows[1..], x);
    }
  }

  /** In a sorted list the first row scores at least as much as any row. */
  lemma FirstIsHighest(xs: seq<Row>, x: Row)
    requires SortedByScore(xs) && x in xs
    ensures x.score <= xs[0].score
  {
    var i :| 0 <= i < |xs| && xs[i] == x;
    if i > 0 {
      assert xs[0].score >= xs[i].score;
    }
  }

  /** Lists with the same tie order have the same scores, so both are empty
      or the first rows of sorted ones score the same. */
  lemma SameTopScore(xs: seq<Row>, ys: seq<Row>)
    requires SortedByScore(xs) && SortedByScore(ys) && SameTieOrder(xs, ys)
    ensures xs == [] <==> ys == []
    ensures xs != [] ==> xs[0].score == ys[0].score
  {
    if xs != [] {
      WithScoreMembers(xs, xs[0]);
      assert WithScore(ys, xs[0].score) == WithScore(xs, xs[0].score);
      WithScoreMembers(ys, xs[0]);
    }
    if ys != [] {
      WithScoreMembers(ys, ys[0]);
      assert WithScore(xs, ys[0].score) == WithScore(ys, ys[0].score);
      WithScoreMembers(xs, ys[0]);
    }
    if xs != [] && ys != [] {
      FirstIsHighest(ys, xs[0]);
      FirstIsHighest(xs, ys[0]);
    }
  }

  /** With equal first scores, the first rows are equal and the rests keep
      the same tie order. */
  lemma SameTieOrderTails(xs: seq<Row>, ys: seq<Row>)
    requires xs != [] && ys != [] && xs[0].score == ys[0].score && SameTieOrder(xs, ys)
    ensures xs[0] == ys[0] && SameTieOrder(xs[1..], ys[1..])
  {
    var m := xs[0].score;
    assert WithScore(xs, m) == [xs[0]] + WithScore(xs[1..], m);
    assert WithScore(ys, m) == [ys[0]] + WithScore(ys[1..], m);
    assert WithScore(xs, m) == WithScore(ys, m);
    assert WithScore(xs, m)[0] == xs[0] && WithScore(ys, m)[0] == ys[0];
    assert WithScore(xs[1..], m) == WithScore(xs, m)[1..];
    assert WithScore(ys[1..], m) == WithScore(ys, m)[1..];
    forall v ensures WithScore(xs[1..], v) == WithScore(ys[1..], v) {
      assert WithScore(xs, v) == WithScore(ys, v);
      if v != m {
        assert WithScore(xs, v) == WithScore(xs[1..], v);
        assert WithScore(ys, v) == WithScore(ys[1..], v);
      }
    }
  }

  /** Sortedness and the tie order determine the output: any stable
      descending sort of the rows, however implemented, returns exactly
      SortByScore's result. */
  lemma {:induction false} StableSortUnique(xs: seq<Row>, ys: seq<Row>)
    requires SortedByScore(xs) && SortedByScore(ys)
    requires SameTieOrder(xs, ys)
    ensures xs == ys
    decreases |xs|
  {
    SameTopScore(xs, ys);
    if xs != [] {
      SameTieOrderTails(xs, ys);
      StableSortUnique(xs[1..], ys[1..]);
      assert xs == [xs[0]] + xs[1..] && ys == [ys[0]] + ys[1..];
    }
  }

  /** Any list with the sort's two properties is the sort's output. */
  lemma IsStableSortOf(rows: seq<Row>, out: seq<Row>)
    requires SortedByScore(out) && SameTieOrder(out, rows)
    ensures out == SortByScore(rows)
  {
    SortSorted(rows);
    SortStable(rows);
    StableSortUnique(out, SortByScore(rows));
  }

  // ---------------------------------------------------------------------
  // Keeping the top n

  /** The kept rows: at most `n`, the first of the stably sorted input, and
      no dropped row scores more than the last kept one. */
  lemma TopRows(rows: seq<Row>, n: nat)
    ensures var sorted := SortByScore(rows);
      var top := Take(sorted, n);
      && |top| == (if |rows| < n then |rows| else n)
      && top == sorted[..|top|]
      && multiset(sorted) == multiset(rows)
      && SortedByScore(top)
      && (forall i, j :: 0 <= i < |top| <= j < |sorted| ==> top[i].score >= sorted[j].score)
  {
    SortLength(rows);
    SortPermutation(rows);
    SortSorted(rows);
  }
}
