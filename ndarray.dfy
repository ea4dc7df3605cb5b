/** The part of numpy the prediction path relies on: 0-d and 1-d arrays,
    their shape, `np.dot` and `np.mean(..., axis=0)`, over exact reals. */
module NdArray {
  import opened Wrappers

  /** A numpy array as it occurs on the prediction path: a 0-d array
      (`np.array(-1)`, shape `()`) or a 1-d array of factors (shape `(n,)`). */
  datatype Arr = Scalar(x: real) | Vector(v: seq<real>)

  /** `a.shape == b.shape`: a scalar never has the shape of a vector, and
      two vectors have one shape exactly when their lengths agree. */
  function SameShape(a: Arr, b: Arr): (r: bool)
    ensures a.Scalar? != b.Scalar? ==> !r
    ensures a.Scalar? && b.Scalar? ==> r
    ensures a.Vector? && b.Vector? ==> (r <==> |a.v| == |b.v|)
  {
    match (a, b)
    case (Scalar(_), Scalar(_)) => true
    case (Vector(u), Vector(w)) => |u| == |w|
    case _ => false
  }

  /** The inner product of two vectors of equal length. */
  function VecDot(u: seq<real>, w: seq<real>): (r: real)
    requires |u| == |w|
    ensures |u| == 1 ==> r == u[0] * w[0]
  {
    if u == [] then 0.0 else u[0] * w[0] + VecDot(u[1..], w[1..])
  }

  /** `np.dot(a, b)` for arrays of the same shape: the product of two
      scalars, the inner product of two vectors. */
  function Dot(a: Arr, b: Arr): (r: real)
    requires SameShape(a, b)
    ensures a.Scalar? ==> r == a.x * b.x
    ensures a.Vector? ==> r == VecDot(a.v, b.v)
  {
    match (a, b)
    case (Scalar(x), Scalar(y)) => x * y
    case (Vector(u), Vector(w)) => VecDot(u, w)
  }

  /** Every vector of `vs` has length `k`. */
  predicate Uniform(vs: seq<seq<real>>, k: nat)
  {
    forall v | v in vs :: |v| == k
  }

  /** Every vector of `vs` has a `j`-th entry. */
  predicate Wide(vs: seq<seq<real>>, j: nat)
  {
    forall i | 0 <= i < |vs| :: j < |vs[i]|
  }

  /** The sum of the `j`-th entries of the vectors of `vs`. */
  function ColumnSum(vs: seq<seq<real>>, j: nat): real
    requires Wide(vs, j)
  {
    if vs == [] then 0.0 else vs[0][j] + ColumnSum(vs[1..], j)
  }

  /** `np.mean(vs, axis=0)` of a list of factor vectors: the element-wise
      arithmetic mean. There is no mean of an empty list (numpy gives NaN)
      or of vectors of different lengths (numpy raises): both are None. */
  function Mean(vs: seq<seq<real>>): (r: Option<Arr>)
    ensures r.Some? <==> vs != [] && Uniform(vs, |vs[0]|)
    ensures r.Some? ==> r.value.Vector? && |r.value.v| == |vs[0]|
    ensures r.Some? ==> forall j | 0 <= j < |vs[0]| :: Wide(vs, j) && r.value.v[j] * (|vs| as real) == ColumnSum(vs, j)
  {
    if vs != [] && Uniform(vs, |vs[0]|) then
      Some(Vector(seq(|vs[0]|, j requires 0 <= j < |vs[0]| => ColumnSum(vs, j) / (|vs| as real))))
    else
      None
  }

  /** The sum of the `j`-th entries of `n` copies of `v`. */
  lemma {:induction false} ColumnSumOfCopies(v: seq<real>, vs: seq<seq<real>>, j: nat)
    requires j < |v|
    requires forall i | 0 <= i < |vs| :: vs[i] == v
    ensures Wide(vs, j) && ColumnSum(vs, j) == (|vs| as real) * v[j]
  {
    if vs != [] {
      ColumnSumOfCopies(v, vs[1..], j);
    }
  }

  /** The mean of copies of one vector is that vector. */
  lemma MeanOfCopies(v: seq<real>, vs: seq<seq<real>>)
    requires vs != []
    requires forall i | 0 <= i < |vs| :: vs[i] == v
    ensures Mean(vs) == Some(Vector(v))
  {
    assert vs[0] == v;
    assert Uniform(vs, |v|) by {
      forall w | w in vs ensures |w| == |v| {
        var i :| 0 <= i < |vs| && vs[i] == w;
      }
    }
    var m := Mean(vs).value.v;
    var n := |vs| as real;
    forall j | 0 <= j < |v|
      ensures m[j] == v[j]
    {
      ColumnSumOfCopies(v, vs, j);
      assert m[j] * n == n * v[j];
    }
    assert m == v;
  }

  /** Taking out the vector at position `i` takes its entry out of the sum. */
  lemma {:induction false} ColumnSumRemove(vs: seq<seq<real>>, i: nat, j: nat)
    requires i < |vs|
    requires Wide(vs, j)
    ensures Wide(vs[..i] + vs[i + 1..], j)
    ensures ColumnSum(vs, j) == vs[i][j] + ColumnSum(vs[..i] + vs[i + 1..], j)
  {
    if i > 0 {
      var rest := vs[1..];
      ColumnSumRemove(rest, i - 1, j);
      assert vs[..i] + vs[i + 1..] == [vs[0]] + (rest[..i - 1] + rest[i..]);
    } else {
      assert vs[..i] + vs[i + 1..] == vs[1..];
    }
  }

  /** Reordering keeps every vector wide enough. */
  lemma WidePermutation(a: seq<seq<real>>, b: seq<seq<real>>, j: nat)
    requires multiset(a) == multiset(b)
    requires Wide(a, j)
    ensures Wide(b, j)
  {
    forall k | 0 <= k < |b|
      ensures j < |b[k]|
    {
      assert b[k] in multiset(a);
      var i :| 0 <= i < |a| && a[i] == b[k];
    }
  }

  /** Taking out position `i` takes one copy of its element out of the multiset. */
  lemma RemoveAtMultiset(b: seq<seq<real>>, i: nat)
    requires i < |b|
    ensures multiset(b[..i] + b[i + 1..]) == multiset(b) - multiset{b[i]}
  {
    assert b == b[..i] + [b[i]] + b[i + 1..];
  }

  /** Column sums do not depend on the order of the vectors. */
  lemma {:induction false} ColumnSumPermutation(a: seq<seq<real>>, b: seq<seq<real>>, j: nat)
    requires multiset(a) == multiset(b)
    requires Wide(a, j)
    ensures Wide(b, j)
    ensures ColumnSum(a, j) == ColumnSum(b, j)
    decreases |a|
  {
    WidePermutation(a, b, j);
    if a == [] {
      assert |multiset(b)| == 0;
    } else {
      assert a[0] in multiset(b);
      var i :| 0 <= i < |b| && b[i] == a[0];
      var rest := b[..i] + b[i + 1..];
      RemoveAtMultiset(b, i);
      assert multiset(a[1..]) == multiset(a) - multiset{a[0]} by {
        assert a == [a[0]] + a[1..];
      }
      ColumnSumPermutation(a[1..], rest, j);
      ColumnSumRemove(b, i, j);
    }
  }

  /** The mean is order-independent: any reordering of the averaged
      vectors gives the same result. */
  lemma MeanPermutation(a: seq<seq<real>>, b: seq<seq<real>>)
    requires multiset(a) == multiset(b)
    ensures Mean(a) == Mean(b)
  {
    assert |a| == |multiset(a)| == |multiset(b)| == |b|;
    if a != [] {
      assert a[0] in multiset(b) && b[0] in multiset(a);
      assert Uniform(a, |a[0]|) <==> Uniform(b, |b[0]|) by {
        if Uniform(a, |a[0]|) {
          forall v | v in b ensures |v| == |b[0]| {
            assert v in multiset(a);
          }
        }
        if Uniform(b, |b[0]|) {
          forall v | v in a ensures |v| == |a[0]| {
            assert v in multiset(b);
          }
        }
      }
      if Uniform(a, |a[0]|) {
        var ma, mb := Mean(a).value.v, Mean(b).value.v;
        forall j | 0 <= j < |a[0]|
          ensures ma[j] == mb[j]
        {
          ColumnSumPermutation(a, b, j);
        }
        assert ma == mb;
      }
    }
  }
}
