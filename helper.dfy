/** The free-function copy of the prediction path: the same lookup and
    dot-or-sentinel rule, with stub fallbacks that return fixed scalars,
    and an `out_of_bounds` that also replaces every movie by its title. */
module Helper {
  import opened Wrappers
  import opened NdArray
  import opened Ratings
  import Recommender

  /** Stub: every unseen user is estimated by the 0-d array `-1`. */
  function FindSimilarUsers(userId: int): (r: Arr)
    ensures r.Scalar? && r.x == -1.0
  {
    Scalar(-1.0)
  }

  /** Stub: every unseen movie is estimated by the 0-d array `1`. */
  function FindSimilarItems(movieId: int): (r: Arr)
    ensures r.Scalar? && r.x == 1.0
  {
    Scalar(1.0)
  }

  /** The user vector: the stored factors, or the stub when the lookup fails. */
  function ResolveUser(userFactors: Recommender.FactorTable, userId: int): (r: Arr)
    ensures userId in userFactors ==> r == Vector(userFactors[userId])
    ensures userId !in userFactors ==> r == FindSimilarUsers(userId) && r.Scalar?
  {
    if userId in userFactors then Vector(userFactors[userId]) else FindSimilarUsers(userId)
  }

  /** The movie vector: the stored factors, or the stub when the lookup fails. */
  function ResolveMovie(movieFactors: Recommender.FactorTable, movieId: int): (r: Arr)
    ensures movieId in movieFactors ==> r == Vector(movieFactors[movieId])
    ensures movieId !in movieFactors ==> r == FindSimilarItems(movieId) && r.Scalar?
  {
    if movieId in movieFactors then Vector(movieFactors[movieId]) else FindSimilarItems(movieId)
  }

  /** `predicted_rating`: because of the stubs, the dot product when both
      ids have stored vectors of one length, and `-1` in every other case
      (both missing: `-1 * 1`; one missing: a scalar against a vector). */
  function PredictedRating(userFactors: Recommender.FactorTable, movieFactors: Recommender.FactorTable,
                           userId: int, movieId: int): (r: real)
    ensures userId in userFactors && movieId in movieFactors && |userFactors[userId]| == |movieFactors[movieId]| ==>
      r == VecDot(userFactors[userId], movieFactors[movieId])
    ensures !(userId in userFactors && movieId in movieFactors && |userFactors[userId]| == |movieFactors[movieId]|) ==>
      r == -1.0
  {
    var user, item := ResolveUser(userFactors, userId), ResolveMovie(movieFactors, movieId);
    if SameShape(user, item) then Dot(user, item) else -1.0
  }

  /** The stubs ignore their argument. */
  lemma StubsIgnoreArgument(a: int, b: int)
    ensures FindSimilarUsers(a) == FindSimilarUsers(b) && FindSimilarUsers(a) == Scalar(-1.0)
    ensures FindSimilarItems(a) == FindSimilarItems(b) && FindSimilarItems(a) == Scalar(1.0)
  {
  }

  /** Where both ids have stored vectors, this copy predicts what the
      recommender class predicts, whatever its similarity matrices. */
  lemma AgreesWithRecommender(s: Recommender.Stores, userId: int, movieId: int)
    requires userId in s.userFactors && movieId in s.movieFactors
    ensures Recommender.PredictedRating(s, userId, movieId) ==
      Some(PredictedRating(s.userFactors, s.movieFactors, userId, movieId))
  {
  }

  /** `find_movie`: every movie becomes the title `'movie'`. */
  function FindMovie(movie: Movie): (r: Movie)
    ensures r.Title? && r.name == "movie"
  {
    Title("movie")
  }

  /** The sorted frame after `df['movie'] = df.apply(find_movie)`. */
  function Retitle(rows: seq<Row>): (r: seq<Row>)
    ensures |r| == |rows|
    ensures forall i | 0 <= i < |rows| :: r[i] == rows[i].(movie := FindMovie(rows[i].movie))
  {
    seq(|rows|, i requires 0 <= i < |rows| => rows[i].(movie := FindMovie(rows[i].movie)))
  }

  /** `out_of_bounds`: clamps the caller's rating column in place, sorts a
      copy, then rewrites the copy's movie column. */
  method OutOfBounds(df: array<Row>) returns (sorted: array<Row>)
    modifies df
    ensures df[..] == ClampAll(old(df[..]))
    ensures fresh(sorted) && sorted[..] == Retitle(SortRows(ClampAll(old(df[..]))))
  {
    ClampInPlace(df);
    sorted := NewFrame(SortRows(df[..]));
    ghost var ranked := sorted[..];
    var i := 0;
    while i < sorted.Length
      modifies sorted
      invariant 0 <= i <= sorted.Length
      invariant forall k | 0 <= k < i :: sorted[k] == ranked[k].(movie := FindMovie(ranked[k].movie))
      invariant forall k | i <= k < sorted.Length :: sorted[k] == ranked[k]
    {
      sorted[i] := sorted[i].(movie := FindMovie(sorted[i].movie));
      i := i + 1;
    }
  }

  /** What this `out_of_bounds` returns: as many rows as it was given,
      every movie `'movie'`, every rating in [1,5], the users and ratings
      of the sorted clamped rows untouched, still ordered by user
      ascending, then rating descending. */
  lemma OutOfBoundsResult(rows: seq<Row>)
    ensures var ranked := SortRows(ClampAll(rows)); var r := Retitle(ranked);
      && |r| == |rows|
      && Ranked(r)
      && (forall i | 0 <= i < |r| :: r[i].movie == Title("movie"))
      && (forall i | 0 <= i < |r| :: r[i].user == ranked[i].user && r[i].rating == ranked[i].rating)
      && (forall i | 0 <= i < |r| :: 1.0 <= r[i].rating <= 5.0)
  {
    var ranked := SortRows(ClampAll(rows));
    Recommender.OutOfBoundsResult(rows);
    var r := Retitle(ranked);
    forall i, j | 0 <= i < j < |r|
      ensures Precedes(r[i], r[j])
    {
      assert Precedes(ranked[i], ranked[j]);
    }
  }
}
