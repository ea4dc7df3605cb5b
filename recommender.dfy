/** The prediction path of `MovieRecommender` (the class's checkpoint copy):
    factor lookup with neighbour fallback, the dot-or-sentinel rule, and
    `out_of_bounds`. The factor tables and similarity matrices the methods
    read through `self` are passed in explicitly. */
module Recommender {
  import opened Wrappers
  import opened NdArray
  import opened Similarity
  import opened Ratings

  /** A factor table: id -> factor vector. An id whose `features` cell is
      missing or cannot be decoded is simply absent. */
  type FactorTable = map<int, seq<real>>

  /** The read-only data the recommender consults. */
  datatype Stores = Stores(
    userFactors: FactorTable,
    movieFactors: FactorTable,
    usersSim: SimMatrix,
    moviesSim: SimMatrix)

  /** The factor vectors of those `ids` that load, in order: the list
      `find_similar_users` builds, skipping failures with `continue`. */
  function Loaded(ids: seq<int>, factors: FactorTable): (r: seq<seq<real>>)
    ensures |r| <= |ids|
    ensures (forall i | 0 <= i < |ids| :: ids[i] !in factors) ==> r == []
  {
    if ids == [] then []
    else
      var last := ids[|ids| - 1];
      Loaded(ids[..|ids| - 1], factors) + (if last in factors then [factors[last]] else [])
  }

  /** The factor vectors of all `ids`, in order, or None as soon as one
      fails to load: the list `find_similar_items` builds, where a failed
      lookup raises out of the loop. */
  function LoadAll(ids: seq<int>, factors: FactorTable): (r: Option<seq<seq<real>>>)
    ensures r.Some? ==> |r.value| == |ids| && forall i | 0 <= i < |ids| :: ids[i] in factors && r.value[i] == factors[ids[i]]
  {
    if ids == [] then Some([])
    else
      var last := ids[|ids| - 1];
      match LoadAll(ids[..|ids| - 1], factors)
      case None => None
      case Some(vs) => if last in factors then Some(vs + [factors[last]]) else None
  }

  /** The user fallback: the mean of the factors of the near-one neighbours
      that load. */
  function UserFallback(userId: int, sim: SimMatrix, factors: FactorTable): (r: Option<Arr>)
    ensures r.Some? ==> Neighbours(userId, sim).Some? && r.value.Vector?
    ensures r.Some? ==> Loaded(Neighbours(userId, sim).value, factors) != []
  {
    match Neighbours(userId, sim)
    case None => None
    case Some(ids) => Mean(Loaded(ids, factors))
  }

  /** The movie fallback: the mean of the factors of all near-one
      neighbours, which must all load. */
  function ItemFallback(movieId: int, sim: SimMatrix, factors: FactorTable): (r: Option<Arr>)
    ensures r.Some? ==> Neighbours(movieId, sim).Some? && r.value.Vector?
    ensures r.Some? ==>
      && Neighbours(movieId, sim).value != []
      && forall i | 0 <= i < |Neighbours(movieId, sim).value| :: Neighbours(movieId, sim).value[i] in factors
  {
    match Neighbours(movieId, sim)
    case None => None
    case Some(ids) =>
      match LoadAll(ids, factors)
      case None => None
      case Some(vs) => Mean(vs)
  }

  /** `find_similar_users`: None when the similarity column is missing, no
      neighbour loads, or the loaded vectors differ in length. */
  method FindSimilarUsers(userId: int, sim: SimMatrix, factors: FactorTable) returns (r: Option<Arr>)
    ensures r == UserFallback(userId, sim, factors)
  {
    var selected := Neighbours(userId, sim);
    if selected.None? {
      return None;
    }
    var ids := selected.value;
    var users: seq<seq<real>> := [];
    var i := 0;
    while i < |ids|
      invariant 0 <= i <= |ids|
      invariant users == Loaded(ids[..i], factors)
    {
      assert ids[..i + 1][..i] == ids[..i];
      if ids[i] !in factors {
        i := i + 1;
        continue;
      }
      users := users + [factors[ids[i]]];
      i := i + 1;
    }
    assert ids[..|ids|] == ids;
    r := Mean(users);
  }

  /** `find_similar_items`: None when the similarity column is missing, a
      neighbour's factors fail to load, there is no neighbour, or the
      vectors differ in length. */
  method FindSimilarItems(movieId: int, sim: SimMatrix, factors: FactorTable) returns (r: Option<Arr>)
    ensures r == ItemFallback(movieId, sim, factors)
  {
    var selected := Neighbours(movieId, sim);
    if selected.None? {
      return None;
    }
    var ids := selected.value;
    var items: seq<seq<real>> := [];
    var i := 0;
    while i < |ids|
      invariant 0 <= i <= |ids|
      invariant LoadAll(ids[..i], factors) == Some(items)
    {
      assert ids[..i + 1][..i] == ids[..i];
      if ids[i] !in factors {
        LoadAllFailsOnMissing(ids, factors, ids[i]);
        return None;
      }
      items := items + [factors[ids[i]]];
      i := i + 1;
    }
    assert ids[..|ids|] == ids;
    r := Mean(items);
  }

  /** The skipping loop keeps, in order, exactly the vectors of the ids
      that load. */
  lemma {:induction false} LoadedMembers(ids: seq<int>, factors: FactorTable)
    ensures forall v :: v in Loaded(ids, factors) <==> exists x :: x in ids && x in factors && factors[x] == v
    ensures |Loaded(ids, factors)| <= |ids|
  {
    if ids != [] {
      var init := ids[..|ids| - 1];
      LoadedMembers(init, factors);
      assert ids == init + [ids[|ids| - 1]];
    }
  }

  /** When every id loads, nothing is skipped. */
  lemma {:induction false} LoadedWhenAllLoad(ids: seq<int>, factors: FactorTable)
    requires forall i | 0 <= i < |ids| :: ids[i] in factors
    ensures |Loaded(ids, factors)| == |ids|
    ensures forall i | 0 <= i < |ids| :: Loaded(ids, factors)[i] == factors[ids[i]]
  {
    if ids != [] {
      var init := ids[..|ids| - 1];
      LoadedWhenAllLoad(init, factors);
    }
  }

  /** The skipping loop over a concatenation keeps the vectors the loop
      keeps over each part, in order; with `LoadedOne` this fixes every
      vector's position and multiplicity. */
  lemma {:induction false} LoadedAppend(a: seq<int>, b: seq<int>, factors: FactorTable)
    ensures Loaded(a + b, factors) == Loaded(a, factors) + Loaded(b, factors)
    decreases |b|
  {
    if b != [] {
      var init, last := b[..|b| - 1], b[|b| - 1];
      assert (a + b)[..|a + b| - 1] == a + init;
      assert (a + b)[|a + b| - 1] == last;
      LoadedAppend(a, init, factors);
    } else {
      assert a + b == a;
    }
  }

  /** One id contributes its vector once when it loads, and nothing
      otherwise. */
  lemma LoadedOne(x: int, factors: FactorTable)
    ensures Loaded([x], factors) == if x in factors then [factors[x]] else []
  {
  }

  /** The non-skipping loop succeeds exactly when every id loads, and then
      it gathers the same vectors as the skipping one. */
  lemma {:induction false} LoadAllSucceedsIff(ids: seq<int>, factors: FactorTable)
    ensures LoadAll(ids, factors).Some? <==> forall x | x in ids :: x in factors
    ensures LoadAll(ids, factors).Some? ==> LoadAll(ids, factors).value == Loaded(ids, factors)
  {
    if ids != [] {
      var init, last := ids[..|ids| - 1], ids[|ids| - 1];
      LoadAllSucceedsIff(init, factors);
      assert ids == init + [last];
      assert (forall x | x in ids :: x in factors) <==> (forall x | x in init :: x in factors) && last in factors;
    }
  }

  lemma LoadAllFailsOnMissing(ids: seq<int>, factors: FactorTable, x: int)
    requires x in ids && x !in factors
    ensures LoadAll(ids, factors) == None
  {
    LoadAllSucceedsIff(ids, factors);
  }

  /** The user estimate averages exactly the vectors of the near-one
      neighbours (first selected row dropped) that load; it exists exactly
      when the column exists and those vectors are non-empty and of one
      length. */
  lemma UserFallbackSpec(userId: int, sim: SimMatrix, factors: FactorTable)
    ensures UserFallback(userId, sim, factors).Some? <==>
      Neighbours(userId, sim).Some? &&
      var vs := Loaded(Neighbours(userId, sim).value, factors); vs != [] && Uniform(vs, |vs[0]|)
    ensures Neighbours(userId, sim).Some? ==>
      forall v :: v in Loaded(Neighbours(userId, sim).value, factors) <==>
        exists x :: x in Neighbours(userId, sim).value && x in factors && factors[x] == v
    ensures Neighbours(userId, sim).Some? ==>
      forall x | x in Neighbours(userId, sim).value :: x in sim.index && Selected(sim.columns[userId], x)
  {
    if Neighbours(userId, sim).Some? {
      LoadedMembers(Neighbours(userId, sim).value, factors);
    }
  }

  /** The movie estimate fails when some selected neighbour does not load,
      and otherwise equals the skipping estimate over the same neighbours. */
  lemma ItemFallbackSpec(movieId: int, sim: SimMatrix, factors: FactorTable)
    ensures Neighbours(movieId, sim).Some? && (exists x | x in Neighbours(movieId, sim).value :: x !in factors) ==>
      ItemFallback(movieId, sim, factors) == None
    ensures Neighbours(movieId, sim).Some? && (forall x | x in Neighbours(movieId, sim).value :: x in factors) ==>
      ItemFallback(movieId, sim, factors) == UserFallback(movieId, sim, factors)
    ensures Neighbours(movieId, sim).None? ==> ItemFallback(movieId, sim, factors) == None
  {
    if Neighbours(movieId, sim).Some? {
      LoadAllSucceedsIff(Neighbours(movieId, sim).value, factors);
    }
  }

  /** The user vector: the stored factors, or the fallback estimate when
      the lookup fails. */
  function ResolveUser(s: Stores, userId: int): (r: Option<Arr>)
    ensures userId in s.userFactors ==> r == Some(Vector(s.userFactors[userId]))
    ensures userId !in s.userFactors ==> r == UserFallback(userId, s.usersSim, s.userFactors)
    ensures r.Some? ==> r.value.Vector?
  {
    if userId in s.userFactors then Some(Vector(s.userFactors[userId]))
    else UserFallback(userId, s.usersSim, s.userFactors)
  }

  /** The movie vector: the stored factors, or the fallback estimate when
      the lookup fails. */
  function ResolveMovie(s: Stores, movieId: int): (r: Option<Arr>)
    ensures movieId in s.movieFactors ==> r == Some(Vector(s.movieFactors[movieId]))
    ensures movieId !in s.movieFactors ==> r == ItemFallback(movieId, s.moviesSim, s.movieFactors)
    ensures r.Some? ==> r.value.Vector?
  {
    if movieId in s.movieFactors then Some(Vector(s.movieFactors[movieId]))
    else ItemFallback(movieId, s.moviesSim, s.movieFactors)
  }

  /** `predicted_rating`: the dot product of the resolved vectors when
      their shapes agree, `-1` when they do not. None when a fallback
      raises (there is nothing to return then). */
  function PredictedRating(s: Stores, userId: int, movieId: int): (r: Option<real>)
    ensures r.Some? <==> ResolveUser(s, userId).Some? && ResolveMovie(s, movieId).Some?
    ensures r.Some? && r.value != -1.0 ==>
      var u, m := ResolveUser(s, userId).value, ResolveMovie(s, movieId).value;
      u.Vector? && m.Vector? && |u.v| == |m.v| && r.value == VecDot(u.v, m.v)
  {
    match (ResolveUser(s, userId), ResolveMovie(s, movieId))
    case (Some(user), Some(item)) => Some(if SameShape(user, item) then Dot(user, item) else -1.0)
    case _ => None
  }

  /** Both vectors stored with equal length: the prediction is their dot
      product. */
  lemma PredictFound(s: Stores, userId: int, movieId: int)
    requires userId in s.userFactors && movieId in s.movieFactors
    requires |s.userFactors[userId]| == |s.movieFactors[movieId]|
    ensures PredictedRating(s, userId, movieId) == Some(VecDot(s.userFactors[userId], s.movieFactors[movieId]))
  {
  }

  /** Resolved vectors of different shapes give exactly `-1`; resolved
      vectors of one shape give their dot product; a failed resolution
      gives no prediction. */
  lemma PredictCases(s: Stores, userId: int, movieId: int)
    ensures var u, m := ResolveUser(s, userId), ResolveMovie(s, movieId);
      && (u.Some? && m.Some? && !SameShape(u.value, m.value) ==> PredictedRating(s, userId, movieId) == Some(-1.0))
      && (u.Some? && m.Some? && SameShape(u.value, m.value) ==>
            PredictedRating(s, userId, movieId) == Some(Dot(u.value, m.value)))
      && (PredictedRating(s, userId, movieId).None? <==> u.None? || m.None?)
  {
  }

  /** A failed lookup is replaced by the matching fallback, and a
      successful one never consults the similarity matrix: any other
      matrix gives the same prediction. */
  lemma FallbackOnlyOnMiss(s: Stores, userId: int, movieId: int, usersSim': SimMatrix, moviesSim': SimMatrix)
    ensures userId !in s.userFactors ==> ResolveUser(s, userId) == UserFallback(userId, s.usersSim, s.userFactors)
    ensures movieId !in s.movieFactors ==> ResolveMovie(s, movieId) == ItemFallback(movieId, s.moviesSim, s.movieFactors)
    ensures userId in s.userFactors ==>
      PredictedRating(s.(usersSim := usersSim'), userId, movieId) == PredictedRating(s, userId, movieId)
    ensures movieId in s.movieFactors ==>
      PredictedRating(s.(moviesSim := moviesSim'), userId, movieId) == PredictedRating(s, userId, movieId)
  {
  }

  /** A user id with no factors is estimated from its neighbours: user 1's
      near-one rows are 1 itself and 2; dropping the first leaves 2, whose
      factors [2.0] are the estimate. */
  lemma UserFallbackFromNeighbour()
    ensures UserFallback(1, SimMatrix([1, 2], map[1 := map[1 := 1.0, 2 := 1.0]]), map[2 := [2.0]])
      == Some(Vector([2.0]))
  {
    var sim := SimMatrix([1, 2], map[1 := map[1 := 1.0, 2 := 1.0]]);
    assert NearOneRows([2], sim.columns[1]) == [2] by {
      assert [2][1..] == [];
    }
    assert [1, 2][1..] == [2];
    assert Neighbours(1, sim) == Some([2]);
    assert [2][..0] == [];
    assert Loaded([2], map[2 := [2.0]]) == [[2.0]];
    MeanOfCopies([2.0], [[2.0]]);
  }

  /** With that estimate and a movie holding [3.0], the prediction is 6.0. */
  lemma PredictFromNeighbour()
    ensures PredictedRating(
      Stores(map[2 := [2.0]], map[7 := [3.0]],
             SimMatrix([1, 2], map[1 := map[1 := 1.0, 2 := 1.0]]),
             SimMatrix([], map[])),
      1, 7) == Some(6.0)
  {
    UserFallbackFromNeighbour();
    assert VecDot([2.0], [3.0]) == 6.0 by {
      assert [2.0][1..] == [] && [3.0][1..] == [];
    }
  }

  /** `find_similar_users` as written: its first statement,
      `len(self.user_factors_df.colums) == 2`, names an attribute a factor
      frame does not have and raises AttributeError, so the user fallback
      never produces a vector. */
  function FindSimilarUsersAsWritten(userId: int, sim: SimMatrix, factors: FactorTable): (r: Option<Arr>)
    ensures r.None?
  {
    None
  }

  /** The misspelt attribute loses an estimate the fallback was meant to
      give: the same input as PredictFromNeighbour. */
  lemma AsWrittenUserFallbackFails()
    ensures var sim, factors := SimMatrix([1, 2], map[1 := map[1 := 1.0, 2 := 1.0]]), map[2 := [2.0]];
      FindSimilarUsersAsWritten(1, sim, factors) == None &&
      UserFallback(1, sim, factors) == Some(Vector([2.0]))
  {
    UserFallbackFromNeighbour();
  }

  /** `out_of_bounds`: clamps the caller's rating column in place, then
      returns a sorted copy. */
  method OutOfBounds(df: array<Row>) returns (sorted: array<Row>)
    modifies df
    ensures df[..] == ClampAll(old(df[..]))
    ensures fresh(sorted) && sorted[..] == SortRows(ClampAll(old(df[..])))
  {
    ClampInPlace(df);
    sorted := NewFrame(SortRows(df[..]));
  }

  /** What `out_of_bounds` returns: the clamped rows, every rating in
      [1,5], permuted into user-ascending, rating-descending order. */
  lemma OutOfBoundsResult(rows: seq<Row>)
    ensures var r := SortRows(ClampAll(rows));
      && Ranked(r)
      && multiset(r) == multiset(ClampAll(rows))
      && |r| == |rows|
      && forall i | 0 <= i < |r| :: 1.0 <= r[i].rating <= 5.0
  {
    var r := SortRows(ClampAll(rows));
    SortRowsCorrect(ClampAll(rows));
    forall i | 0 <= i < |r|
      ensures 1.0 <= r[i].rating <= 5.0
    {
      assert r[i] in multiset(ClampAll(rows));
      var k :| 0 <= k < |rows| && ClampAll(rows)[k] == r[i];
    }
  }
}
