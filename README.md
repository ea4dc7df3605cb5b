# Movie-rating prediction path, modelled in Dafny

This project models how the movie recommender predicts a rating for a
`(user, movie)` pair. It looks up the user's and the movie's latent-factor
vectors. If a lookup fails, it estimates the vector from neighbours, the rows
of a similarity matrix whose score rounds to 1. If the two vectors have the
same shape, the prediction is their dot product; otherwise it is the sentinel
`-1`. A post-processing step (`out_of_bounds`) clamps ratings into [1,5] and
orders the rows.

The repository has two copies of this path, and both are modelled:

- `MovieRecommender`, in `src/.ipynb_checkpoints/recommender-checkpoint.py`: the
  real fallbacks, which average neighbour factor vectors.
- The free functions in `src/helper.py`: the fallbacks are stubs returning the
  fixed scalars `-1` and `1`, and `out_of_bounds` also replaces every movie id by
  the title `'movie'`.

Files:

- `wrappers.dfy`: `Option`.
- `ndarray.dfy` (module `NdArray`): what the path uses from numpy. Arrays are
  0-d scalars or 1-d vectors. It has shape equality, `np.dot`, and
  `np.mean(..., axis=0)` over exact reals.
- `similarity.dfy` (module `Similarity`): the similarity matrix as a frame
  (row labels in frame order, plus columns), the `round(x, 5) >= 1` threshold,
  and neighbour selection.
- `recommender.dfy` (module `Recommender`): the class's `find_similar_users`,
  `find_similar_items` (both loop methods proved against specification
  functions), `predicted_rating` and `out_of_bounds`.
- `ratings.dfy` (module `Ratings`): the frame rows, the in-place clamp, and the
  two-key sort. Both `out_of_bounds` versions share these.
- `helper.dfy` (module `Helper`): the `helper.py` versions.

How the source is modelled:

- The factor tables and similarity matrices are read-only inputs passed as
  parameters. As written, the source never has them where it reads them:
  - the class methods read them through `self.` but take no `self`, and
    line 128 uses a bare global `movie_factors_df`;
  - `__init__` (recommender-checkpoint.py:14-25) sets only the logger, the
    model and the two factor frames, and never assigns `self.users_sim_mat`
    or `self.movies_sim_mat`;
  - `helper.py` reads `user_factors_df` and `movie_factors_df` at lines 24
    and 30 but never defines them.
  - `predicted_rating` calls `find_similar_users` and `find_similar_items`
    as bare names at recommender-checkpoint.py:74 and :80. Both are defined
    only inside the class, and a method body does not see the class scope,
    so each call raises NameError inside its `except:` handler. The model
    calls the fallbacks as the methods they were meant to be.
- A factor table is a `map<int, seq<real>>`. The source falls back on any
  exception (a bare `except:`), so an id whose features are missing or cannot
  be decoded is simply absent from the map.
- Any fallback that raises is `None`. This covers a missing similarity column,
  and a movie neighbour whose factors do not load.
- The selection `sim.loc[mask][1:]` is modelled as pandas evaluates it. The
  boolean mask is aligned on the frame's own index, so the descending
  `sort_values` used to build the mask does not affect the order. The rows come
  out in frame order, and `[1:]` drops the first of them.

Two consequences of the code as written:

- `sim.loc[mask][1:]` drops the first near-one row in frame order. That row
  is the id itself only when the id's row comes first
  (`Similarity.DropsFirstInFrameOrder`, `Similarity.SelfDroppedWhenFirst`,
  `Similarity.SelfMayRemain`).
- `predicted_rating` does not clamp. Only `out_of_bounds` clamps, so a `-1`
  from `predicted_rating` stays `-1`.

## Model

| member | source | states |
|---|---|---|
| `NdArray.Mean` | src/.ipynb_checkpoints/recommender-checkpoint.py:112 | `np.mean(vs, axis=0)` exists exactly when the list is non-empty and all vectors have one length. It is then a vector of that length whose `j`-th entry times the list length is the sum of the `j`-th entries |
| `NdArray.SameShape` | src/.ipynb_checkpoints/recommender-checkpoint.py:83 | `user.shape == item.shape`: a scalar never has the shape of a vector, two scalars always share one, and two vectors share one exactly when their lengths agree |
| `NdArray.Dot` | src/.ipynb_checkpoints/recommender-checkpoint.py:84 | `np.dot` of equal shapes: the product of two scalars, the inner product of two vectors |
| `NdArray.VecDot` | src/.ipynb_checkpoints/recommender-checkpoint.py:84 | the inner product of two equal-length vectors; for one-element vectors it is the product of the two entries |
| `NdArray.MeanPermutation` | src/.ipynb_checkpoints/recommender-checkpoint.py:112 | the mean does not depend on the order of the averaged vectors: any permutation gives the same result |
| `NdArray.MeanOfCopies` | src/.ipynb_checkpoints/recommender-checkpoint.py:112 | averaging copies of one vector gives that vector |
| `NdArray.ColumnSumPermutation` | src/.ipynb_checkpoints/recommender-checkpoint.py:112 | the per-coordinate sums behind the mean are invariant under permutation |
| `NdArray.ColumnSumRemove` | src/.ipynb_checkpoints/recommender-checkpoint.py:112 | removing one vector from the list subtracts exactly its entry from the coordinate sum |
| `Similarity.NearOne` | src/.ipynb_checkpoints/recommender-checkpoint.py:100 | the `round(x, 5) >= 1` threshold: every score of at least 1 passes, and no score of at most 0.99999 passes |
| `Similarity.NearOneRows` | src/.ipynb_checkpoints/recommender-checkpoint.py:100 | the boolean-mask selection: no more rows than the frame, each a frame row whose score passes the threshold |
| `Similarity.NearOneRowsFirst` | src/.ipynb_checkpoints/recommender-checkpoint.py:100 | the selection starts with the first frame row, in frame order, whose score passes the threshold |
| `Similarity.DropFirst` | src/.ipynb_checkpoints/recommender-checkpoint.py:100 | `[1:]`: nothing of an empty selection, otherwise the selection without its first element, one shorter |
| `Similarity.DropsFirstInFrameOrder` | src/.ipynb_checkpoints/recommender-checkpoint.py:100 | with distinct frame labels, `[1:]` loses exactly the first frame row that passes the threshold: that row is no neighbour, and every other passing row is one |
| `Similarity.Neighbours` | src/.ipynb_checkpoints/recommender-checkpoint.py:100 | neighbours exist exactly when the id has a similarity column (KeyError otherwise), and every neighbour is a frame row whose score in that column passes the threshold |
| `Similarity.NearOneRowsMembers` | src/.ipynb_checkpoints/recommender-checkpoint.py:100 | the mask selects exactly the frame rows whose score in the id's column rounds (5 places) to at least 1 |
| `Similarity.NearOneRowsDistinct` | src/.ipynb_checkpoints/recommender-checkpoint.py:100 | a selection from a frame without repeated labels repeats no label |
| `Similarity.NeighboursAllButFirst` | src/.ipynb_checkpoints/recommender-checkpoint.py:100 | every selected row except the first selected one is a neighbour |
| `Similarity.SelfDroppedWhenFirst` | src/.ipynb_checkpoints/recommender-checkpoint.py:100 | when the id's own row is the first row in frame order to pass the threshold and labels are distinct, the id is not among its neighbours |
| `Similarity.SelfMayRemain` | src/.ipynb_checkpoints/recommender-checkpoint.py:100 | when another perfectly similar row precedes the id in frame order, that row is dropped and the id remains its own neighbour |
| `Recommender.FindSimilarUsers` | src/.ipynb_checkpoints/recommender-checkpoint.py:100-112 | the loop that appends loadable neighbour factors and skips failures computes the user fallback: the mean of the loaded vectors of the selected neighbours |
| `Recommender.FindSimilarItems` | src/.ipynb_checkpoints/recommender-checkpoint.py:123-132 | the loop that appends every neighbour's factors computes the movie fallback, and fails as soon as one neighbour does not load |
| `Recommender.Loaded` | src/.ipynb_checkpoints/recommender-checkpoint.py:102-110 | the list the user loop builds: never longer than the neighbour list, and empty when no neighbour loads |
| `Recommender.LoadAll` | src/.ipynb_checkpoints/recommender-checkpoint.py:125-130 | the list the movie loop builds: when it exists, every neighbour loaded, and the `i`-th vector is the `i`-th neighbour's |
| `Recommender.UserFallback` | src/.ipynb_checkpoints/recommender-checkpoint.py:100-112 | a user estimate exists only for an id with a similarity column and at least one loaded neighbour, and is a vector |
| `Recommender.ItemFallback` | src/.ipynb_checkpoints/recommender-checkpoint.py:123-132 | a movie estimate exists only for an id with a similarity column and at least one neighbour, every one of which loaded, and is a vector |
| `Recommender.LoadedMembers` | src/.ipynb_checkpoints/recommender-checkpoint.py:104-110 | the user loop keeps a vector exactly when it is the stored vector of some selected id that loads, and never more vectors than ids |
| `Recommender.LoadedAppend` | src/.ipynb_checkpoints/recommender-checkpoint.py:104-110 | the user loop over a concatenation keeps, in order, what it keeps over the first part followed by what it keeps over the second |
| `Recommender.LoadedOne` | src/.ipynb_checkpoints/recommender-checkpoint.py:104-110 | one id contributes its stored vector exactly once when it loads, and nothing when it does not (`continue`) |
| `Recommender.LoadedWhenAllLoad` | src/.ipynb_checkpoints/recommender-checkpoint.py:104-110 | when every id loads, nothing is skipped: the `i`-th vector is the `i`-th id's |
| `Recommender.LoadAllSucceedsIff` | src/.ipynb_checkpoints/recommender-checkpoint.py:127-130 | the movie loop succeeds exactly when every selected id loads, and then gathers the same vectors as the skipping loop |
| `Recommender.LoadAllFailsOnMissing` | src/.ipynb_checkpoints/recommender-checkpoint.py:127-130 | one selected movie without factors makes the movie loop fail |
| `Recommender.UserFallbackSpec` | src/.ipynb_checkpoints/recommender-checkpoint.py:100-112 | the user estimate exists exactly when the column exists and the loaded vectors are non-empty and of one length. The vectors it averages are, as a set, those of the near-one neighbours that load; their order and multiplicity (each loading neighbour counted once, in neighbour order) follow from `Recommender.LoadedAppend` and `Recommender.LoadedOne` |
| `Recommender.ItemFallbackSpec` | src/.ipynb_checkpoints/recommender-checkpoint.py:123-132 | the movie estimate fails if any selected neighbour does not load or the column is missing. Otherwise it equals the skipping estimate |
| `Recommender.ResolveUser` | src/.ipynb_checkpoints/recommender-checkpoint.py:69-74 | a stored user vector is used as is, and a failed lookup is replaced by the user fallback. A resolved user is always a vector |
| `Recommender.ResolveMovie` | src/.ipynb_checkpoints/recommender-checkpoint.py:76-80 | a stored movie vector is used as is, and a failed lookup is replaced by the movie fallback. A resolved movie is always a vector |
| `Recommender.PredictedRating` | src/.ipynb_checkpoints/recommender-checkpoint.py:56-86 | there is a prediction exactly when both vectors resolve. Any prediction other than `-1` is the dot product of two resolved vectors of equal length |
| `Recommender.UserFallbackFromNeighbour` | src/.ipynb_checkpoints/recommender-checkpoint.py:100-112 | a concrete estimate: user 1 with near-one rows 1 and 2 is estimated by user 2's factors |
| `Recommender.PredictFound` | src/.ipynb_checkpoints/recommender-checkpoint.py:69-84 | both vectors stored with equal length: the prediction is their dot product |
| `Recommender.PredictCases` | src/.ipynb_checkpoints/recommender-checkpoint.py:82-86 | resolved vectors of different shapes give exactly `-1`, of equal shape their dot product. A prediction is missing exactly when a resolution failed |
| `Recommender.FallbackOnlyOnMiss` | src/.ipynb_checkpoints/recommender-checkpoint.py:69-80 | a failed user (movie) lookup is replaced by the user (movie) fallback. A successful lookup never consults the similarity matrix: replacing it changes nothing |
| `Recommender.PredictFromNeighbour` | src/.ipynb_checkpoints/recommender-checkpoint.py:69-86 | a concrete prediction for an unseen user through the neighbour estimate: 2.0 · 3.0 = 6.0 |
| `Recommender.FindSimilarUsersAsWritten` | src/.ipynb_checkpoints/recommender-checkpoint.py:97 | as written, the user fallback raises at its first statement, so it never yields a vector |
| `Recommender.AsWrittenUserFallbackFails` | src/.ipynb_checkpoints/recommender-checkpoint.py:97 | as written, the user fallback fails on an input where the intended fallback gives an estimate |
| `Recommender.OutOfBounds` | src/.ipynb_checkpoints/recommender-checkpoint.py:135-144 | the caller's frame is clamped in place, and the result is a fresh frame holding the sorted clamped rows |
| `Recommender.OutOfBoundsResult` | src/.ipynb_checkpoints/recommender-checkpoint.py:138-142 | the result has the row count of the input and is a permutation of the clamped rows. Every rating is in [1,5], ordered by user ascending, then rating descending |
| `Ratings.Clamp` | src/.ipynb_checkpoints/recommender-checkpoint.py:138-139 | the clamped rating is in [1,5]: 1 below 1, 5 above 5, unchanged inside |
| `Ratings.ClampRow` | src/.ipynb_checkpoints/recommender-checkpoint.py:138-139 | a row after both masked assignments: same user and movie, clamped rating |
| `Ratings.ClampAll` | src/.ipynb_checkpoints/recommender-checkpoint.py:138-139 | the frame after both masked assignments: as many rows, each clamped in place |
| `Ratings.ClampIdempotent` | src/helper.py:50-51 | clamping twice equals clamping once |
| `Ratings.ClampAllProperties` | src/.ipynb_checkpoints/recommender-checkpoint.py:138-139 | after clamping, every rating is in [1,5]. Rows already in range and the user and movie columns are unchanged, and clamping again changes nothing |
| `Ratings.ClampInPlace` | src/.ipynb_checkpoints/recommender-checkpoint.py:138-139 | the two masked assignments turn the caller's frame into its clamped rows |
| `Ratings.InsertPermutation` | src/.ipynb_checkpoints/recommender-checkpoint.py:142 | inserting a row into the sorted prefix adds exactly that row |
| `Ratings.InsertRanked` | src/.ipynb_checkpoints/recommender-checkpoint.py:142 | inserting a row into rows ordered by (user ascending, rating descending) keeps them ordered |
| `Ratings.Insert` | src/.ipynb_checkpoints/recommender-checkpoint.py:142 | one step of the sort: the row is added, so the result is one row longer |
| `Ratings.SortRows` | src/.ipynb_checkpoints/recommender-checkpoint.py:142 | the sorted copy holds the same rows, each as often, hence as many rows as the frame |
| `Ratings.SortRowsCorrect` | src/.ipynb_checkpoints/recommender-checkpoint.py:142 | the sorted copy is a permutation of the frame, ordered by user ascending and, within a user, rating descending |
| `Helper.PredictedRating` | src/helper.py:22-38 | because of the stubs, the prediction is the dot product when both ids have stored vectors of equal length, and exactly `-1` otherwise: a missing id or a length mismatch |
| `Helper.StubsIgnoreArgument` | src/helper.py:40-44 | the user stub always gives the scalar `-1`, and the movie stub always gives the scalar `1`, whatever the id |
| `Helper.FindSimilarUsers` | src/helper.py:40-41 | the user stub is the 0-d array `-1` |
| `Helper.FindSimilarItems` | src/helper.py:43-44 | the movie stub is the 0-d array `1` |
| `Helper.ResolveUser` | src/helper.py:22-27 | a stored user gives its vector, and a failed lookup gives the user stub, a scalar |
| `Helper.ResolveMovie` | src/helper.py:29-33 | a stored movie gives its vector, and a failed lookup gives the movie stub, a scalar |
| `Helper.FindMovie` | src/helper.py:60-61 | every movie becomes the title `'movie'` |
| `Helper.Retitle` | src/helper.py:55 | the rewritten frame has the same row count, and each row keeps its user and rating and takes the `find_movie` title |
| `Helper.AgreesWithRecommender` | src/helper.py:22-38 | when both ids have stored vectors, `helper.py` predicts what the recommender class predicts, whatever its similarity matrices |
| `Helper.OutOfBounds` | src/helper.py:47-57 | the caller's frame is clamped in place. The result is a fresh frame of the sorted clamped rows with every movie rewritten by `find_movie` |
| `Helper.OutOfBoundsResult` | src/helper.py:50-61 | the result keeps the row count and every movie is `'movie'`. Users and ratings are those of the sorted clamped rows, in [1,5], still ordered by user ascending and rating descending |

## Findings

| source | as written | input that shows it | evidently intended | confidence | as-written member | corrected member |
|---|---|---|---|---|---|---|
| src/.ipynb_checkpoints/recommender-checkpoint.py:97 | `len(self.user_factors_df.colums)` reads an attribute a factor frame does not have, and raises AttributeError before any neighbour is selected, so the user fallback never returns | user 1 missing from the user factors, similarity rows [1, 2] with column 1 = {1: 1.0, 2: 1.0}, user 2 stored as [2.0]: as written the call raises; the intended estimate is [2.0] | `self.user_factors_df.columns` (and line 98 only reads, and changes nothing, since its `drop` result is discarded) | high; not executed | `Recommender.FindSimilarUsersAsWritten`, `Recommender.AsWrittenUserFallbackFails` | `Recommender.FindSimilarUsers` (with `Recommender.UserFallbackSpec`) |

The rest of the model, `Recommender.PredictedRating` included, uses the
corrected user fallback.

## Left out

- Model training (`fit`): a call into a distributed alternating-least-squares library.
- Loading the factor tables in `__init__`: CSV file I/O and logger setup. The loaded tables are parameters instead.
- Decoding of the `features` text with `literal_eval`: a foreign call. A stored entry is already a `seq<real>` or is absent, so a decoding failure is the same as a missing id.
- `transform`: it assigns random ratings with `np.random.choice`, and its prediction and post-processing calls are commented out.
- Logging and the `__main__` block: no behaviour to model.
- Missing stores: the model passes the stores as explicit parameters, so the errors the source raises for lack of them are not modelled. This covers five cases: the unbound `self` in the class methods; the bare global at recommender-checkpoint.py:128; the bare calls `find_similar_users(user_id)` and `find_similar_items(movie_id)` at recommender-checkpoint.py:74 and recommender-checkpoint.py:80, which name methods of the class as if they were module functions, so as written every failed lookup raises NameError out of `predicted_rating` (the model's `Recommender.ResolveUser` and `Recommender.ResolveMovie` call `UserFallback` and `ItemFallback` instead); the similarity matrices that `__init__` (recommender-checkpoint.py:14-25) never assigns; and the undefined `user_factors_df` and `movie_factors_df` at helper.py:24 and helper.py:30. As written, both `helper.py` lookups raise NameError and the bare `except:` calls the stubs, so every `helper.py` prediction is `np.dot(-1, 1) = -1`. The dot-product case of `Helper.PredictedRating` exists only because the tables are parameters.
- NdArray.Mean: an empty list gives None, where numpy returns a NaN scalar with a warning, because exact reals have no NaN. As written, an unseen user with no loadable neighbour would then meet a stored movie vector and give `-1` through the shape test, and both fallbacks giving NaN would give NaN. The model gives no prediction for both.
- Similarity.NearOne: `round(x, 5) >= 1` is taken in exact decimal arithmetic (`x >= 0.999995`). IEEE float representation and rounding are not modelled. All arithmetic is exact `real`.
- numpy shape and broadcasting: only 0-d and 1-d arrays occur on this path, and `np.dot` is only applied to equal shapes.
- Ratings.SortRowsCorrect: states order and permutation only. How pandas orders rows with the same user and rating is not stated.
- pandas column dtypes: integer versus float ratings after the masked assignments are not modelled.
