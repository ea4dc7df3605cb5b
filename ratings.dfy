/** The rows of a prediction frame (`user`, `movie`, `rating`) and the
    post-processing shared by both `out_of_bounds` versions: clamping the
    rating column in place and ordering the rows. */
module Ratings {

  /** A `movie` cell: a movie id, or a title once `find_movie` has replaced it. */
  datatype Movie = MovieId(id: int) | Title(name: string)

  /** One row of the frame. */
  datatype Row = Row(user: int, movie: Movie, rating: real)

  /** The two masked assignments `rating < 1 -> 1`, then `rating > 5 -> 5`,
      applied to one rating. */
  function Clamp(x: real): (r: real)
    ensures 1.0 <= r <= 5.0
    ensures 1.0 <= x <= 5.0 ==> r == x
    ensures x < 1.0 ==> r == 1.0
    ensures x > 5.0 ==> r == 5.0
  {
    var raised := if x < 1.0 then 1.0 else x;
    if raised > 5.0 then 5.0 else raised
  }

  /** Clamping twice is clamping once. */
  lemma ClampIdempotent(x: real)
    ensures Clamp(Clamp(x)) == Clamp(x)
  {
  }

  function ClampRow(row: Row): (r: Row)
    ensures r.user == row.user && r.movie == row.movie && r.rating == Clamp(row.rating)
  {
    row.(rating := Clamp(row.rating))
  }

  /** The frame after both masked assignments. */
  function ClampAll(rows: seq<Row>): (r: seq<Row>)
    ensures |r| == |rows|
    ensures forall i | 0 <= i < |r| :: r[i] == ClampRow(rows[i])
  {
    seq(|rows|, i requires 0 <= i < |rows| => ClampRow(rows[i]))
  }

  /** After clamping every rating is in [1,5], ratings already in [1,5] and
      the other columns are unchanged, and clamping again changes nothing. */
  lemma ClampAllProperties(rows: seq<Row>)
    ensures forall i | 0 <= i < |rows| :: 1.0 <= ClampAll(rows)[i].rating <= 5.0
    ensures forall i | 0 <= i < |rows| :: 1.0 <= rows[i].rating <= 5.0 ==> ClampAll(rows)[i] == rows[i]
    ensures forall i | 0 <= i < |rows| ::
      ClampAll(rows)[i].user == rows[i].user && ClampAll(rows)[i].movie == rows[i].movie
    ensures ClampAll(ClampAll(rows)) == ClampAll(rows)
  {
    forall i | 0 <= i < |rows|
      ensures ClampAll(ClampAll(rows))[i] == ClampAll(rows)[i]
    {
      ClampIdempotent(rows[i].rating);
    }
  }

  /** `df.loc[df['rating'] < 1, 'rating'] = 1; df.loc[df['rating'] > 5, 'rating'] = 5`
      on the caller's frame. Each row is touched by the two masks
      independently of the others, so applying both to one row before
      the next gives the same frame. */
  method ClampInPlace(df: array<Row>)
    modifies df
    ensures df[..] == ClampAll(old(df[..]))
  {
    var i := 0;
    while i < df.Length
      invariant 0 <= i <= df.Length
      invariant forall k | 0 <= k < i :: df[k] == ClampRow(old(df[k]))
      invariant forall k | i <= k < df.Length :: df[k] == old(df[k])
    {
      if df[i].rating < 1.0 {
        df[i] := df[i].(rating := 1.0);
      }
      if df[i].rating > 5.0 {
        df[i] := df[i].(rating := 5.0);
      }
      i := i + 1;
    }
  }

  /** `sort_values(by=['user', 'rating'], ascending=[True, False])`: row `a`
      may precede row `b` when its user is smaller, or the users are equal
      and its rating is at least as high. */
  predicate Precedes(a: Row, b: Row)
  {
    a.user < b.user || (a.user == b.user && a.rating >= b.rating)
  }

  /** Ordered by user ascending and, within a user, rating descending. */
  predicate Ranked(rows: seq<Row>)
  {
    forall i, j | 0 <= i < j < |rows| :: Precedes(rows[i], rows[j])
  }

  /** Puts `x` in front of the first row it may precede. */
  function Insert(x: Row, rows: seq<Row>): (r: seq<Row>)
    ensures |r| == |rows| + 1
  {
    if rows == [] then [x]
    else if Precedes(x, rows[0]) then [x] + rows
    else [rows[0]] + Insert(x, rows[1..])
  }

  /** The sorted copy of the frame: the same rows, each as often. */
  function SortRows(rows: seq<Row>): (r: seq<Row>)
    ensures multiset(r) == multiset(rows)
    ensures |r| == |rows|
  {
    if rows == [] then []
    else
      var tail := SortRows(rows[1..]);
      InsertPermutation(rows[0], tail);
      assert rows == [rows[0]] + rows[1..];
      Insert(rows[0], tail)
  }

  lemma {:induction false} InsertPermutation(x: Row, rows: seq<Row>)
    ensures multiset(Insert(x, rows)) == multiset(rows) + multiset{x}
  {
    if rows != [] && !Precedes(x, rows[0]) {
      InsertPermutation(x, rows[1..]);
      assert rows == [rows[0]] + rows[1..];
    }
  }

  lemma {:induction false} InsertRanked(x: Row, rows: seq<Row>)
    requires Ranked(rows)
    ensures Ranked(Insert(x, rows))
  {
    if rows != [] && !Precedes(x, rows[0]) {
      var tail := Insert(x, rows[1..]);
      InsertRanked(x, rows[1..]);
      InsertPermutation(x, rows[1..]);
      var r := [rows[0]] + tail;
      forall j | 0 < j < |r|
        ensures Precedes(r[0], r[j])
      {
        assert r[j] in multiset(tail);
        if r[j] != x {
          assert r[j] in multiset(rows[1..]);
          var k :| 0 <= k < |rows[1..]| && rows[1..][k] == r[j];
          assert Precedes(rows[0], rows[k + 1]);
        }
      }
      forall i, j | 0 <= i < j < |r|
        ensures Precedes(r[i], r[j])
      {
        if i > 0 {
          assert r[i] == tail[i - 1] && r[j] == tail[j - 1];
        }
      }
    }
  }

  /** The sorted copy is a permutation of the frame, ordered by user
      ascending, then rating descending. */
  lemma {:induction false} SortRowsCorrect(rows: seq<Row>)
    ensures Ranked(SortRows(rows))
    ensures multiset(SortRows(rows)) == multiset(rows)
    ensures |SortRows(rows)| == |rows|
  {
    if rows != [] {
      SortRowsCorrect(rows[1..]);
      InsertRanked(rows[0], SortRows(rows[1..]));
      InsertPermutation(rows[0], SortRows(rows[1..]));
      assert rows == [rows[0]] + rows[1..];
      assert |multiset(SortRows(rows))| == |multiset(rows)|;
    }
  }

  /** A fresh frame holding `rows`. */
  method NewFrame(rows: seq<Row>) returns (df: array<Row>)
    ensures fresh(df) && df[..] == rows
  {
    df := new Row[|rows|](i requires 0 <= i < |rows| => rows[i]);
  }
}
