/** Neighbour selection over a precomputed similarity matrix:
    `sim_mat.loc[round(sim_mat[id].sort_values(ascending=False), 5) >= 1][1:].index.values`. */
module Similarity {
  import opened Wrappers

  /** A similarity matrix as a pandas frame: the row labels in frame order,
      and each column (keyed by its label) mapping row labels to scores.
      A row missing from a column stands for a missing value (NaN). */
  datatype SimMatrix = SimMatrix(index: seq<int>, columns: map<int, map<int, real>>)

  /** `round(x, 5) >= 1` in exact decimal arithmetic: 0.999995 rounds
      (half to even) to 1.00000, anything below it to at most 0.99999. */
  function NearOne(x: real): (r: bool)
    ensures x >= 1.0 ==> r
    ensures r ==> x > 0.99999
  {
    x >= 0.999995
  }

  /** Row `id` is selected by the mask on column `col`. */
  predicate Selected(col: map<int, real>, id: int)
  {
    id in col && NearOne(col[id])
  }

  /** The boolean-mask selection `frame.loc[mask]`: the labels of the rows
      whose score is near one, in frame order. pandas aligns the mask on the
      frame's index, so the descending sort that built the mask does not
      change this order. */
  function NearOneRows(index: seq<int>, col: map<int, real>): (r: seq<int>)
    ensures |r| <= |index|
    ensures forall x | x in r :: x in index && Selected(col, x)
  {
    if index == [] then []
    else (if Selected(col, index[0]) then [index[0]] else []) + NearOneRows(index[1..], col)
  }

  /** `s[1:]`: everything but the first element (nothing of an empty list). */
  function DropFirst(s: seq<int>): (r: seq<int>)
    ensures |r| == if s == [] then 0 else |s| - 1
    ensures s == [] ==> r == []
    ensures s != [] ==> s == [s[0]] + r
  {
    if s == [] then [] else s[1..]
  }

  /** The neighbours of `id`: the near-one rows of column `id` except the
      first one. A missing column raises in the source: None. */
  function Neighbours(id: int, m: SimMatrix): (r: Option<seq<int>>)
    ensures r.Some? <==> id in m.columns
    ensures r.Some? ==> forall x | x in r.value :: x in m.index && Selected(m.columns[id], x)
  {
    if id in m.columns then Some(DropFirst(NearOneRows(m.index, m.columns[id]))) else None
  }

  /** The selection holds exactly the frame rows whose score is near one. */
  lemma {:induction false} NearOneRowsMembers(index: seq<int>, col: map<int, real>)
    ensures forall x :: x in NearOneRows(index, col) <==> x in index && Selected(col, x)
  {
    if index != [] {
      NearOneRowsMembers(index[1..], col);
      assert index == [index[0]] + index[1..];
    }
  }

  /** No label occurs twice. */
  predicate Distinct(s: seq<int>)
  {
    forall i, j | 0 <= i < j < |s| :: s[i] != s[j]
  }

  /** The selection never repeats a label the frame does not repeat. */
  lemma {:induction false} NearOneRowsDistinct(index: seq<int>, col: map<int, real>)
    requires Distinct(index)
    ensures Distinct(NearOneRows(index, col))
  {
    if index != [] {
      var rest := NearOneRows(index[1..], col);
      NearOneRowsDistinct(index[1..], col);
      NearOneRowsMembers(index[1..], col);
      assert index[0] !in index[1..];
      if Selected(col, index[0]) {
        var r := NearOneRows(index, col);
        assert r == [index[0]] + rest;
        forall i, j | 0 <= i < j < |r|
          ensures r[i] != r[j]
        {
          if i == 0 {
            assert r[0] == index[0];
            assert r[j] == rest[j - 1];
            assert rest[j - 1] in rest;
          } else {
            assert r[i] == rest[i - 1] && r[j] == rest[j - 1];
          }
        }
        assert Distinct(r);
      } else {
        assert NearOneRows(index, col) == rest;
      }
    }
  }

  /** Every near-one row other than the first selected one is a neighbour. */
  lemma NeighboursAllButFirst(id: int, m: SimMatrix)
    requires id in m.columns
    ensures var rows := NearOneRows(m.index, m.columns[id]);
      forall x | x in m.index && Selected(m.columns[id], x) :: (rows != [] && x == rows[0]) || x in Neighbours(id, m).value
  {
    var rows := NearOneRows(m.index, m.columns[id]);
    NearOneRowsMembers(m.index, m.columns[id]);
    forall x | x in m.index && Selected(m.columns[id], x)
      ensures (rows != [] && x == rows[0]) || x in Neighbours(id, m).value
    {
      assert x in rows;
      assert rows == [rows[0]] + DropFirst(rows);
    }
  }

  /** The selection starts with the first frame row that passes the mask. */
  lemma {:induction false} NearOneRowsFirst(index: seq<int>, col: map<int, real>)
    ensures var rows := NearOneRows(index, col);
      rows != [] ==> exists k | 0 <= k < |index| ::
        rows[0] == index[k] && Selected(col, index[k]) && forall k' | 0 <= k' < k :: !Selected(col, index[k'])
  {
    if index != [] && !Selected(col, index[0]) {
      NearOneRowsFirst(index[1..], col);
      var rows := NearOneRows(index, col);
      assert rows == NearOneRows(index[1..], col);
      if rows != [] {
        var k :| 0 <= k < |index[1..]| && rows[0] == index[1..][k] && Selected(col, index[1..][k])
          && forall k' | 0 <= k' < k :: !Selected(col, index[1..][k']);
        assert rows[0] == index[k + 1];
        forall k' | 0 <= k' < k + 1
          ensures !Selected(col, index[k'])
        {
          if k' > 0 {
            assert index[k'] == index[1..][k' - 1];
          }
        }
      }
    }
  }

  /** `[1:]` loses exactly the first frame row that passes the mask: with
      distinct frame labels, that row is no neighbour, and every other
      passing row is one. */
  lemma DropsFirstInFrameOrder(id: int, m: SimMatrix, k: nat)
    requires id in m.columns
    requires Distinct(m.index)
    requires k < |m.index| && Selected(m.columns[id], m.index[k])
    requires forall k' | 0 <= k' < k :: !Selected(m.columns[id], m.index[k'])
    ensures m.index[k] !in Neighbours(id, m).value
    ensures forall x | x in m.index && Selected(m.columns[id], x) && x != m.index[k] :: x in Neighbours(id, m).value
  {
    var col := m.columns[id];
    var rows := NearOneRows(m.index, col);
    NearOneRowsMembers(m.index, col);
    NearOneRowsFirst(m.index, col);
    NearOneRowsDistinct(m.index, col);
    assert m.index[k] in rows;
    var k0 :| 0 <= k0 < |m.index| && rows[0] == m.index[k0] && Selected(col, m.index[k0])
      && forall k' | 0 <= k' < k0 :: !Selected(col, m.index[k']);
    assert k0 == k;
    NeighboursAllButFirst(id, m);
  }

  /** When the id's own row is the first row passing the mask in frame
      order (the diagonal of a similarity matrix is 1) and the frame has no
      repeated labels, the id is not among its own neighbours. */
  lemma SelfDroppedWhenFirst(id: int, m: SimMatrix, k: nat)
    requires id in m.columns
    requires Distinct(m.index)
    requires k < |m.index| && m.index[k] == id && Selected(m.columns[id], id)
    requires forall k' | 0 <= k' < k :: !Selected(m.columns[id], m.index[k'])
    ensures id !in Neighbours(id, m).value
  {
    DropsFirstInFrameOrder(id, m, k);
  }

  /** The row dropped is the first near-one row in frame order, not the id
      itself: when another perfectly similar row precedes it, the id stays
      among its own neighbours and the other row is lost. */
  lemma SelfMayRemain()
    ensures Neighbours(2, SimMatrix([1, 2], map[2 := map[1 := 1.0, 2 := 1.0]])) == Some([2])
  {
    var col := map[1 := 1.0, 2 := 1.0];
    assert NearOneRows([2], col) == [2] by {
      assert [2][1..] == [];
    }
    assert [1, 2][1..] == [2];
  }
}
